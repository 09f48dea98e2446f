/**
 The message engine of wsmessage.c on values: the loop of _wsmsg_process, the calls that feed and
 drain it, and the one-shot decoder it refines however the bytes were cut.
 */
module Reassembly {
  import opened Wrappers
  import opened Bytes
  import opened Buffers
  import opened FrameCodec

  /** max_frame_size and max_message_size; 0 means unlimited. The frame buffer holds twice a frame. */
  datatype Limits = Limits(frame: nat, message: nat)

  /** A wsmsg_t: the frame buffer, the pending control frame, the message being built, the flags. */
  datatype State = State(
    input: bytes,
    control: Option<Frame>,
    partial: bytes,
    started: bool,
    messageOpcode: byte,
    message: bool,
    error: bool)

  const Fresh := State([], None, [], false, 0, false, false)

  predicate IsControl(opcode: byte) {
    opcode == OPCODE_CLOSE || opcode == OPCODE_PING || opcode == OPCODE_PONG
  }

  /** The frame as frame_data can hold it. */
  function Stored(limits: Limits, frame: Frame): Frame {
    frame.(payload := Cut(limits.frame, frame.payload))
  }

  predicate Pending(s: State) {
    s.message || s.control.Some? || s.error
  }

  /** What one ready frame does to the engine. */
  function Accept(limits: Limits, s: State, f: Frame): State {
    if IsControl(f.opcode) then
      if f.fin then s.(control := Some(f)) else s.(error := true)
    else if s.started != (f.opcode == OPCODE_CONTINUATION) then s.(error := true)
    else if !AppendOk(limits.message, s.partial, f.payload) then s.(error := true)
    else s.(
      partial := Cut(limits.message, s.partial + f.payload),
      started := true,
      messageOpcode := if s.started then s.messageOpcode else f.opcode,
      message := s.message || f.fin)
  }

  /**
   The loop of _wsmsg_process. With `retest` the guard is tested again on every turn, which is
   what the guard is for; without it the loop is the code as it stands, which after a final data
   frame goes on to the next frame.
   */
  function Loop(limits: Limits, retest: bool, s: State): (r: State)
    requires s.control.None? && !s.error
    ensures |r.input| <= |s.input|
    ensures |r.input| == |s.input| ==> r == s || r == s.(error := true)
    ensures r.started || (r.partial == s.partial && r.message == s.message && !s.started)
    decreases |s.input|
  {
    match DecodeFrame(s.input)
    case Building => s
    case Error => s.(error := true)
    case Ready(frame, consumed) =>
      var t := Accept(limits, s.(input := s.input[consumed..]), Stored(limits, frame));
      if t.control.Some? || t.error || (retest && t.message) then t else Loop(limits, retest, t)
  }

  function Process(limits: Limits, retest: bool, s: State): State {
    if Pending(s) then s else Loop(limits, retest, s)
  }

  /** wsmsg_add; when the frame buffer has no room at all the call fails and nothing is processed. */
  function Add(limits: Limits, retest: bool, s: State, chunk: bytes): State {
    if AppendOk(2 * limits.frame, s.input, chunk)
    then Process(limits, retest, s.(input := Cut(2 * limits.frame, s.input + chunk)))
    else s
  }

  function TakeControl(limits: Limits, retest: bool, s: State): State
    requires s.control.Some?
  {
    Process(limits, retest, s.(control := None))
  }

  function TakeMessage(limits: Limits, retest: bool, s: State): State
    requires s.message
  {
    Process(limits, retest, s.(message := false, started := false, partial := []))
  }

  // ---- Draining ----

  datatype Event = Message(opcode: byte, payload: bytes) | Control(frame: Frame)

  function Flags(s: State): nat {
    (if s.control.Some? then 1 else 0) + (if s.message then 1 else 0)
  }

  /** Events taken until neither flag is set or the engine has failed, and the engine after that. */
  datatype Drained = Drained(events: seq<Event>, state: State)

  /** Frames are taken before messages and nothing is taken from a failed engine (wsserver.c:326-416). */
  function Drain(limits: Limits, retest: bool, s: State): (d: Drained)
    ensures d.state.error || !Pending(d.state)
    ensures |d.state.input| <= |s.input|
    decreases |s.input|, Flags(s)
  {
    if s.error then Drained([], s)
    else if s.control.Some? then
      var d := Drain(limits, retest, TakeControl(limits, retest, s));
      d.(events := [Control(s.control.value)] + d.events)
    else if s.message then
      var d := Drain(limits, retest, TakeMessage(limits, retest, s));
      d.(events := [Message(s.messageOpcode, s.partial)] + d.events)
    else Drained([], s)
  }

  /** A chunk is added and the engine drained, as wsconn_process_frame means to. */
  function Feed(limits: Limits, retest: bool, s: State, chunk: bytes): Drained {
    Drain(limits, retest, Add(limits, retest, s, chunk))
  }

  function Run(limits: Limits, retest: bool, s: State, chunks: seq<bytes>): Drained
    decreases |chunks|
  {
    if chunks == [] then Drained([], s) else
    var first := Feed(limits, retest, s, chunks[0]);
    var rest := Run(limits, retest, first.state, chunks[1..]);
    rest.(events := first.events + rest.events)
  }

  // ---- The one-shot decoder ----

  /** A fragmented message in progress, or none. */
  datatype Open = Idle | Open(opcode: byte, partial: bytes)

  /** What one frame contributes: events and the message then in progress, or a violation. */
  datatype Delivery = Violation | Delivery(events: seq<Event>, open: Open)

  function Deliver(limits: Limits, open: Open, f: Frame): Delivery {
    if IsControl(f.opcode) then
      if f.fin then Delivery([Control(f)], open) else Violation
    else if open.Open? != (f.opcode == OPCODE_CONTINUATION) then Violation
    else
      var partial := if open.Open? then open.partial else [];
      var opcode := if open.Open? then open.opcode else f.opcode;
      if !AppendOk(limits.message, partial, f.payload) then Violation
      else
        var joined := Cut(limits.message, partial + f.payload);
        if f.fin then Delivery([Message(opcode, joined)], Idle) else Delivery([], Open(opcode, joined))
  }

  datatype Decoded = Decoded(events: seq<Event>, failed: bool, rest: bytes, open: Open)

  /** Everything the bytes `b` mean, given the message in progress before them. */
  function Decode(limits: Limits, open: Open, b: bytes): (d: Decoded)
    ensures 2 * |d.events| + |d.rest| <= |b|
    ensures !d.failed ==> DecodeFrame(d.rest).Building?
    decreases |b|
  {
    match DecodeFrame(b)
    case Building => Decoded([], false, b, open)
    case Error => Decoded([], true, b, open)
    case Ready(frame, consumed) =>
      match Deliver(limits, open, Stored(limits, frame))
      case Violation => Decoded([], true, b[consumed..], open)
      case Delivery(events, open') =>
        var d := Decode(limits, open', b[consumed..]);
        d.(events := events + d.events)
  }

  /** Decoding can stop anywhere and go on later with the bytes that were left. */
  lemma {:induction false} DecodeAppend(limits: Limits, open: Open, b: bytes, x: bytes)
    ensures var d := Decode(limits, open, b);
      Decode(limits, open, b + x) ==
        if d.failed then d.(rest := d.rest + x)
        else var e := Decode(limits, d.open, d.rest + x); e.(events := d.events + e.events)
    decreases |b|
  {
    if !DecodeFrame(b).Building? {
      VerdictStable(b, x);
    }
    if DecodeFrame(b).Ready? {
      var n := DecodeFrame(b).consumed;
      assert (b + x)[n..] == b[n..] + x;
      var step := Deliver(limits, open, Stored(limits, DecodeFrame(b).frame));
      if step.Delivery? {
        DecodeAppend(limits, step.open, b[n..], x);
        var d := Decode(limits, step.open, b[n..]);
        Assoc(step.events, d.events, Decode(limits, d.open, d.rest + x).events);
      }
    }
  }

  // ---- The engine refines the decoder ----

  /** Between calls: nothing pending, nothing held unless a message is in progress. */
  predicate Quiescent(s: State) {
    !Pending(s) && (!s.started ==> s.partial == [])
  }

  function OpenOf(s: State): Open {
    if s.started then Open(s.messageOpcode, s.partial) else Idle
  }

  /** A drained engine says what the decoder says about the bytes it was given. */
  predicate Agrees(d: Drained, e: Decoded) {
    && d.events == e.events
    && d.state.error == e.failed
    && d.state.input == e.rest
    && (!e.failed ==> Quiescent(d.state) && OpenOf(d.state) == e.open)
  }

  /** A frame's effect on the engine is its delivery by the decoder. */
  predicate Matches(s: State, t: State, d: Delivery, f: Frame) {
    match d
    case Violation => t == s.(error := true)
    case Delivery(events, open) =>
      if t.control.Some? then t == s.(control := Some(f)) && events == [Control(f)] && open == OpenOf(s)
      else if t.message then !t.error && events == [Message(t.messageOpcode, t.partial)] && open == Idle
      else Quiescent(t) && events == [] && open == OpenOf(t)
  }

  lemma AcceptDelivers(limits: Limits, s: State, f: Frame)
    requires Quiescent(s)
    ensures var t := Accept(limits, s, f);
      t.input == s.input && Matches(s, t, Deliver(limits, OpenOf(s), f), f)
  {
    if !IsControl(f.opcode) {
      DataDelivers(limits, s, f);
    }
  }

  lemma DataDelivers(limits: Limits, s: State, f: Frame)
    requires Quiescent(s) && !IsControl(f.opcode)
    ensures var t := Accept(limits, s, f);
      t.input == s.input && Matches(s, t, Deliver(limits, OpenOf(s), f), f)
  {
    assert (if s.started then s.partial else []) == s.partial;
  }

  /** The engine after its pending event has been taken, before it processes on. */
  function Released(t: State): State {
    if t.control.Some? then t.(control := None)
    else if t.message then t.(message := false, started := false, partial := [])
    else t
  }

  lemma {:induction false} DrainDecodes(limits: Limits, s: State)
    requires Quiescent(s)
    ensures Agrees(Drain(limits, true, Loop(limits, true, s)), Decode(limits, OpenOf(s), s.input))
    decreases |s.input|
  {
    if DecodeFrame(s.input).Ready? {
      var n := DecodeFrame(s.input).consumed;
      var f := Stored(limits, DecodeFrame(s.input).frame);
      var consumed := s.(input := s.input[n..]);
      AcceptDelivers(limits, consumed, f);
      var t := Accept(limits, consumed, f);
      if !t.error {
        DrainDecodes(limits, Released(t));
        assert Loop(limits, true, s) == if Pending(t) then t else Loop(limits, true, t);
      }
    }
  }

  // ---- Independence from chunking ----

  /** Where a drained engine waits for bytes: no frame is ready and the frame buffer is within its limit. */
  predicate Waiting(limits: Limits, s: State) {
    && Fits(2 * limits.frame, s.input)
    && (s.error || (Quiescent(s) && DecodeFrame(s.input).Building?))
  }

  /** The prefix of a chunk that the frame buffer has room for. */
  function Admitted(limits: Limits, s: State, chunk: bytes): (r: bytes)
    requires Fits(2 * limits.frame, s.input)
    ensures r <= chunk && s.input + r == Cut(2 * limits.frame, s.input + chunk)
  {
    Cut(2 * limits.frame, s.input + chunk)[|s.input|..]
  }

  lemma FeedDecodes(limits: Limits, s: State, chunk: bytes)
    requires Waiting(limits, s)
    ensures var d := Feed(limits, true, s, chunk);
      && Waiting(limits, d.state)
      && if s.error then d.state.error && d.events == []
         else Agrees(d, Decode(limits, OpenOf(s), s.input + Admitted(limits, s, chunk)))
  {
    var fed := s.(input := s.input + Admitted(limits, s, chunk));
    if !s.error {
      if AppendOk(2 * limits.frame, s.input, chunk) {
        DrainDecodes(limits, fed);
      } else {
        assert Admitted(limits, s, chunk) == [];
        assert s.input + [] == s.input;
      }
    }
  }

  /** All the bytes the frame buffer lets in during a run; without limits, all of them. */
  function AdmittedRun(limits: Limits, s: State, chunks: seq<bytes>): bytes
    requires Waiting(limits, s)
    decreases |chunks|
  {
    if chunks == [] then [] else
    FeedDecodes(limits, s, chunks[0]);
    Admitted(limits, s, chunks[0]) + AdmittedRun(limits, Feed(limits, true, s, chunks[0]).state, chunks[1..])
  }

  lemma {:induction false} UnlimitedAdmitsAll(limits: Limits, s: State, chunks: seq<bytes>)
    requires Waiting(limits, s) && limits.frame == 0
    ensures AdmittedRun(limits, s, chunks) == Concat(chunks)
    decreases |chunks|
  {
    if chunks != [] {
      FeedDecodes(limits, s, chunks[0]);
      assert (s.input + chunks[0])[|s.input|..] == chunks[0];
      UnlimitedAdmitsAll(limits, Feed(limits, true, s, chunks[0]).state, chunks[1..]);
    }
  }

  /** A whole run, from any waiting state, is one decoding of what was already there and what was admitted. */
  lemma {:induction false} RunDecodes(limits: Limits, s: State, chunks: seq<bytes>)
    requires Waiting(limits, s)
    ensures var d := Run(limits, true, s, chunks);
      && Waiting(limits, d.state)
      && if s.error then d.state.error && d.events == []
         else
           var e := Decode(limits, OpenOf(s), s.input + AdmittedRun(limits, s, chunks));
           && d.events == e.events && d.state.error == e.failed
           && (!e.failed ==> d.state.input == e.rest && OpenOf(d.state) == e.open)
    decreases |chunks|
  {
    if chunks == [] {
      assert s.input + [] == s.input;
    } else {
      var first := Feed(limits, true, s, chunks[0]);
      FeedDecodes(limits, s, chunks[0]);
      RunDecodes(limits, first.state, chunks[1..]);
      if !s.error {
        var b, x := s.input + Admitted(limits, s, chunks[0]), AdmittedRun(limits, first.state, chunks[1..]);
        DecodeAppend(limits, OpenOf(s), b, x);
        Assoc(s.input, Admitted(limits, s, chunks[0]), x);
      }
    }
  }

  /**
   Independence from TCP segmentation: the messages, control frames and failure of a run are those
   of one pass over the admitted bytes, and without a frame limit those are all the bytes, so two
   cuttings of the same stream cannot be told apart.
   */
  lemma ChunkingIndependence(limits: Limits, chunks: seq<bytes>)
    ensures var d := Run(limits, true, Fresh, chunks);
      var e := Decode(limits, Idle, AdmittedRun(limits, Fresh, chunks));
      && d.events == e.events && d.state.error == e.failed
      && (limits.frame == 0 ==> e == Decode(limits, Idle, Concat(chunks)))
  {
    RunDecodes(limits, Fresh, chunks);
    assert [] + AdmittedRun(limits, Fresh, chunks) == AdmittedRun(limits, Fresh, chunks);
    if limits.frame == 0 {
      UnlimitedAdmitsAll(limits, Fresh, chunks);
    }
  }

  // ---- The loop as it stands ----

  /**
   No frame, whole or with a reserved bit, is buffered behind a frame that completes a message:
   the condition a caller can check on the bytes before handing them over.
   */
  predicate NoBacklog(limits: Limits, open: Open, b: bytes)
    decreases |b|
  {
    match DecodeFrame(b)
    case Building => true
    case Error => true
    case Ready(frame, consumed) =>
      match Deliver(limits, open, Stored(limits, frame))
      case Violation => true
      case Delivery(events, open') =>
        if events != [] && events[0].Message? then DecodeFrame(b[consumed..]).Building?
        else NoBacklog(limits, open', b[consumed..])
  }

  /** What a caller sees of one feeding. */
  function Seen(d: Drained): (seq<Event>, bool) { (d.events, d.state.error) }

  /** Past a completed message the loop as written only stops on a failure, a control frame or too few bytes. */
  lemma {:induction false} LoopPastMessage(limits: Limits, t: State)
    requires t.message && t.started && t.control.None? && !t.error
    ensures var r := Loop(limits, false, t);
      r.error || r.control.Some? || (r.message && DecodeFrame(r.input).Building?)
    decreases |t.input|
  {
    if DecodeFrame(t.input).Ready? {
      var n := DecodeFrame(t.input).consumed;
      var u := Accept(limits, t.(input := t.input[n..]), Stored(limits, DecodeFrame(t.input).frame));
      if u.control.None? && !u.error {
        LoopPastMessage(limits, u);
      }
    }
  }

  /** The event a state with one flag set is about to yield. */
  function Next(t: State): Event
    requires t.control.Some? || t.message
  {
    if t.control.Some? then Control(t.control.value) else Message(t.messageOpcode, t.partial)
  }

  lemma DrainOne(limits: Limits, retest: bool, t: State)
    requires !t.error && t.control.Some? != t.message
    ensures var d := Drain(limits, retest, Loop(limits, retest, Released(t)));
      Drain(limits, retest, t) == After(Next(t), d)
  {
  }

  /** A frame buffered behind a finished message is always mistreated, visibly. */
  lemma BacklogShows(limits: Limits, t: State)
    requires t.message && t.started && t.control.None? && !t.error && !DecodeFrame(t.input).Building?
    ensures Seen(Drain(limits, false, Loop(limits, false, t))) != Seen(Drain(limits, true, t))
  {
    LoopPastMessage(limits, t);
    var r := Loop(limits, false, t);
    var written, retested := Drain(limits, false, r), Drain(limits, true, t);
    assert retested.events[0] == Message(t.messageOpcode, t.partial);
    if r.error {
      assert written.events == [];
    } else if r.control.Some? {
      assert written.events[0] == Control(r.control.value);
    } else {
      DrainOne(limits, false, r);
      StrayContinuation(limits, t);
    }
  }

  // What the loop as written glued on, the re-tested loop rejects.
  lemma StrayContinuation(limits: Limits, t: State)
    requires t.message && t.started && t.control.None? && !t.error && DecodeFrame(t.input).Ready?
    requires var r := Loop(limits, false, t); !r.error && r.control.None?
    ensures Drain(limits, true, t).state.error
  {
    var frame := DecodeFrame(t.input).frame;
    assert frame.opcode == OPCODE_CONTINUATION;
    assert TakeMessage(limits, true, t).error;
  }

  /** Drained as written and drained re-tested: the same when quiet, visibly different when not. */
  predicate Compared(quiet: bool, written: Drained, retested: Drained) {
    if quiet then written == retested else Seen(written) != Seen(retested)
  }

  function After(e: Event, d: Drained): Drained { d.(events := [e] + d.events) }

  lemma ComparedAfter(quiet: bool, e: Event, written: Drained, retested: Drained)
    requires Compared(quiet, written, retested)
    ensures Compared(quiet, After(e, written), After(e, retested))
  {
    assert After(e, written).events[1..] == written.events;
    assert After(e, retested).events[1..] == retested.events;
  }

  lemma ComparedAtMessage(limits: Limits, t: State)
    requires t.message && t.started && t.control.None? && !t.error
    ensures Compared(
      DecodeFrame(t.input).Building?, Drain(limits, false, Loop(limits, false, t)), Drain(limits, true, t))
  {
    if DecodeFrame(t.input).Building? {
      DrainOne(limits, false, t);
      DrainOne(limits, true, t);
    } else {
      BacklogShows(limits, t);
    }
  }

  /** One turn of both loops, and of the backlog condition, in terms of the state after one frame. */
  lemma OneTurn(limits: Limits, s: State) returns (t: State)
    requires Quiescent(s) && DecodeFrame(s.input).Ready?
    ensures |t.input| < |s.input|
    ensures t.control.Some? ==> !t.message && !t.error && Quiescent(Released(t))
    ensures t.message ==> t.started && !t.error
    ensures !Pending(t) ==> Quiescent(t)
    ensures Loop(limits, true, s) == if Pending(t) then t else Loop(limits, true, t)
    ensures Loop(limits, false, s) == if t.error || t.control.Some? then t else Loop(limits, false, t)
    ensures NoBacklog(limits, OpenOf(s), s.input) ==
      if t.error then true
      else if t.message then DecodeFrame(t.input).Building?
      else NoBacklog(limits, OpenOf(Released(t)), t.input)
  {
    var n := DecodeFrame(s.input).consumed;
    var f := Stored(limits, DecodeFrame(s.input).frame);
    AcceptDelivers(limits, s.(input := s.input[n..]), f);
    t := Accept(limits, s.(input := s.input[n..]), f);
  }

  /** One draining: the two loops agree if and only if there is no backlog. */
  lemma {:induction false} AsWrittenDrain(limits: Limits, s: State)
    requires Quiescent(s)
    ensures Compared(NoBacklog(limits, OpenOf(s), s.input),
                     Drain(limits, false, Loop(limits, false, s)), Drain(limits, true, Loop(limits, true, s)))
    decreases |s.input|
  {
    if DecodeFrame(s.input).Ready? {
      var t := OneTurn(limits, s);
      if t.message {
        ComparedAtMessage(limits, t);
      } else if !t.error {
        AsWrittenDrain(limits, Released(t));
        if t.control.Some? {
          var u := Released(t);
          DrainOne(limits, false, t);
          DrainOne(limits, true, t);
          ComparedAfter(NoBacklog(limits, OpenOf(u), u.input), Next(t),
                        Drain(limits, false, Loop(limits, false, u)), Drain(limits, true, Loop(limits, true, u)));
        }
      }
    }
  }

  /** What a caller sees after each chunk of a run. */
  function Trace(limits: Limits, retest: bool, s: State, chunks: seq<bytes>): seq<(seq<Event>, bool)>
    decreases |chunks|
  {
    if chunks == [] then [] else
    var d := Feed(limits, retest, s, chunks[0]);
    [Seen(d)] + Trace(limits, retest, d.state, chunks[1..])
  }

  /** No chunk of the run ever leaves a backlog. */
  predicate NoBacklogRun(limits: Limits, s: State, chunks: seq<bytes>)
    requires Waiting(limits, s)
    decreases |chunks|
  {
    chunks != [] && !s.error ==>
      && NoBacklog(limits, OpenOf(s), s.input + Admitted(limits, s, chunks[0]))
      && (FeedDecodes(limits, s, chunks[0]); NoBacklogRun(limits, Feed(limits, true, s, chunks[0]).state, chunks[1..]))
  }

  /**
   The code as it stands shows its caller what the re-tested loop shows, chunk after chunk, if and
   only if no chunk leaves a frame buffered behind a completed message.
   */
  lemma {:induction false} AsWrittenAgreesExactly(limits: Limits, s: State, chunks: seq<bytes>)
    requires Waiting(limits, s)
    ensures Trace(limits, false, s, chunks) == Trace(limits, true, s, chunks) <==> NoBacklogRun(limits, s, chunks)
    decreases |chunks|
  {
    if chunks != [] {
      var written, retested := Feed(limits, false, s, chunks[0]), Feed(limits, true, s, chunks[0]);
      FeedDecodes(limits, s, chunks[0]);
      if !s.error && AppendOk(2 * limits.frame, s.input, chunks[0]) {
        AsWrittenDrain(limits, s.(input := s.input + Admitted(limits, s, chunks[0])));
      }
      assert Trace(limits, false, s, chunks)[0] == Seen(written) && Trace(limits, true, s, chunks)[0] == Seen(retested);
      if written == retested {
        AsWrittenAgreesExactly(limits, retested.state, chunks[1..]);
        assert Trace(limits, false, s, chunks)[1..] == Trace(limits, false, retested.state, chunks[1..]);
        assert Trace(limits, true, s, chunks)[1..] == Trace(limits, true, retested.state, chunks[1..]);
      }
    }
  }

  /** Two one-byte text messages in one segment: the code as it stands fails and delivers neither. */
  lemma TwoMessagesInOneSegment()
    ensures var chunk: bytes := [0x81, 0x01, 0x61, 0x81, 0x01, 0x62];
      && Seen(Feed(Limits(0, 0), false, Fresh, chunk)) == ([], true)
      && Seen(Feed(Limits(0, 0), true, Fresh, chunk)) == ([Message(1, [0x61]), Message(1, [0x62])], false)
  {
    var chunk: bytes := [0x81, 0x01, 0x61, 0x81, 0x01, 0x62];
    assert [] + chunk == chunk;
    assert DecodeFrame(chunk) == Ready(Frame(true, OPCODE_TEXT, false, [0x61]), 3);
    assert DecodeFrame(chunk[3..]) == Ready(Frame(true, OPCODE_TEXT, false, [0x62]), 3);
    assert chunk[3..][3..] == [];
    TwoTexts(chunk, 3, [0x61], [0x62]);
  }

  // Any two single-frame texts with nothing behind them.
  lemma TwoTexts(b: bytes, n: nat, p: bytes, q: bytes)
    requires DecodeFrame(b) == Ready(Frame(true, OPCODE_TEXT, false, p), n)
    requires DecodeFrame(b[n..]) == Ready(Frame(true, OPCODE_TEXT, false, q), |b| - n)
    ensures Seen(Feed(Limits(0, 0), false, Fresh, b)) == ([], true)
    ensures Seen(Feed(Limits(0, 0), true, Fresh, b)) == ([Message(1, p), Message(1, q)], false)
  {
    assert Fresh.input + b == b;
    TextBehindText(b, n, p, q);
    assert Add(Limits(0, 0), false, Fresh, b) == Loop(Limits(0, 0), false, Fresh.(input := b));
    DecodeTwoTexts(b, n, p, q);
    FreshFeed(b);
  }

  lemma FreshFeed(b: bytes)
    ensures Agrees(Feed(Limits(0, 0), true, Fresh, b), Decode(Limits(0, 0), Idle, b))
  {
    assert Fresh.input + b == b;
    FeedDecodes(Limits(0, 0), Fresh, b);
  }

  lemma DecodeTwoTexts(b: bytes, n: nat, p: bytes, q: bytes)
    requires DecodeFrame(b) == Ready(Frame(true, OPCODE_TEXT, false, p), n)
    requires DecodeFrame(b[n..]) == Ready(Frame(true, OPCODE_TEXT, false, q), |b| - n)
    ensures Decode(Limits(0, 0), Idle, b) == Decoded([Message(1, p), Message(1, q)], false, [], Idle)
  {
    assert b[n..][|b| - n..] == [];
    OneText(b[n..], |b| - n, q);
    OneText(b, n, p);
    assert Decode(Limits(0, 0), Idle, []) == Decoded([], false, [], Idle);
  }

  lemma OneText(b: bytes, n: nat, p: bytes)
    requires DecodeFrame(b) == Ready(Frame(true, OPCODE_TEXT, false, p), n)
    ensures var d := Decode(Limits(0, 0), Idle, b[n..]);
      Decode(Limits(0, 0), Idle, b) == d.(events := [Message(1, p)] + d.events)
  {
    assert [] + p == p;
  }

  lemma TextBehindText(b: bytes, n: nat, p: bytes, q: bytes)
    requires DecodeFrame(b) == Ready(Frame(true, OPCODE_TEXT, false, p), n)
    requires DecodeFrame(b[n..]) == Ready(Frame(true, OPCODE_TEXT, false, q), |b| - n)
    ensures Loop(Limits(0, 0), false, Fresh.(input := b)).error
  {
    var first := Accept(Limits(0, 0), Fresh.(input := b[n..]), Frame(true, OPCODE_TEXT, false, p));
    assert Loop(Limits(0, 0), false, first).error;
  }

  // ---- Termination ----

  /** Every flag the loop raises has been paid for with the two bytes of a frame header. */
  lemma {:induction false} LoopPays(limits: Limits, retest: bool, s: State)
    requires s.control.None? && !s.error
    ensures var r := Loop(limits, retest, s); |r.input| + 2 * Flags(r) <= |s.input| + 2 * Flags(s)
    decreases |s.input|
  {
    if DecodeFrame(s.input).Ready? {
      var n := DecodeFrame(s.input).consumed;
      var t := Accept(limits, s.(input := s.input[n..]), Stored(limits, DecodeFrame(s.input).frame));
      assert Flags(t) <= Flags(s) + 1 && |t.input| + 2 <= |s.input|;
      if t.control.None? && !t.error {
        LoopPays(limits, retest, t);
      }
    }
  }

  /** Draining ends, with either loop, after at most half as many events as bytes were buffered. */
  lemma {:induction false} DrainIsShort(limits: Limits, retest: bool, s: State)
    ensures var d := Drain(limits, retest, s); 2 * |d.events| + |d.state.input| <= |s.input| + 2 * Flags(s)
    decreases |s.input|, Flags(s)
  {
    if !s.error && (s.control.Some? || s.message) {
      var next := Released(s);
      if !Pending(next) {
        LoopPays(limits, retest, next);
      }
      DrainIsShort(limits, retest, Process(limits, retest, next));
    }
  }

  // ---- Sizes and survival ----

  /** The three buffers within their limits. */
  predicate Bounded(limits: Limits, s: State) {
    && Fits(2 * limits.frame, s.input)
    && (s.control.Some? ==> Fits(limits.frame, s.control.value.payload))
    && Fits(limits.message, s.partial)
  }

  lemma {:induction false} LoopBounded(limits: Limits, retest: bool, s: State)
    requires Bounded(limits, s) && s.control.None? && !s.error
    ensures Bounded(limits, Loop(limits, retest, s))
    decreases |s.input|
  {
    if DecodeFrame(s.input).Ready? {
      var n := DecodeFrame(s.input).consumed;
      var t := Accept(limits, s.(input := s.input[n..]), Stored(limits, DecodeFrame(s.input).frame));
      if t.control.None? && !t.error {
        LoopBounded(limits, retest, t);
      }
    }
  }

  /** One call on the engine; taking is only possible when the flag is set. */
  datatype Call = AddBytes(chunk: bytes) | GetControl | GetMessage

  function Perform(limits: Limits, retest: bool, s: State, call: Call): State {
    match call
    case AddBytes(chunk) => Add(limits, retest, s, chunk)
    case GetControl => if s.control.Some? then TakeControl(limits, retest, s) else s
    case GetMessage => if s.message then TakeMessage(limits, retest, s) else s
  }

  function PerformAll(limits: Limits, retest: bool, s: State, calls: seq<Call>): State
    decreases |calls|
  {
    if calls == [] then s else PerformAll(limits, retest, Perform(limits, retest, s, calls[0]), calls[1..])
  }

  /** Whatever is called, in whatever order, with either loop, no buffer outgrows its limit. */
  lemma {:induction false} AlwaysBounded(limits: Limits, retest: bool, s: State, calls: seq<Call>)
    requires Bounded(limits, s)
    ensures Bounded(limits, PerformAll(limits, retest, s, calls))
    decreases |calls|
  {
    if calls != [] {
      var next := match calls[0]
        case AddBytes(chunk) => s.(input := Cut(2 * limits.frame, s.input + chunk))
        case GetControl => s.(control := None)
        case GetMessage => s.(message := false, started := false, partial := []);
      if !Pending(next) {
        LoopBounded(limits, retest, next);
      }
      AlwaysBounded(limits, retest, Perform(limits, retest, s, calls[0]), calls[1..]);
    }
  }

  /** A pending control frame, and a pending message, survive any bytes added before they are taken. */
  lemma {:induction false} PendingSurvives(limits: Limits, retest: bool, s: State, calls: seq<Call>)
    requires Bounded(limits, s) && Pending(s) && forall i :: 0 <= i < |calls| ==> calls[i].AddBytes?
    ensures var r := PerformAll(limits, retest, s, calls);
      r.(input := s.input) == s && s.input <= r.input
    decreases |calls|
  {
    if calls != [] {
      PendingSurvives(limits, retest, Perform(limits, retest, s, calls[0]), calls[1..]);
    }
  }

  /**
   A frame buffer filled to its limit by a frame that does not fit never recovers: whatever is
   added, nothing is yielded and no failure is reported.
   */
  lemma {:induction false} FullBufferStalls(limits: Limits, retest: bool, s: State, chunks: seq<bytes>)
    requires Quiescent(s) && DecodeFrame(s.input).Building?
    requires limits.frame > 0 && |s.input| == 2 * limits.frame
    ensures Run(limits, retest, s, chunks) == Drained([], s)
    decreases |chunks|
  {
    if chunks != [] {
      assert s.input + [] == s.input;
      assert Add(limits, retest, s, chunks[0]) == s;
      FullBufferStalls(limits, retest, s, chunks[1..]);
    }
  }
}
