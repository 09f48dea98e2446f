/**
 What the loop of _wsmsg_process yields as it stands, over lists of frames and without an engine. Up to a
 completed message it is what the frames come to. Behind one, continuations are joined to the message; a
 control frame then is taken first, and the message after it; any other frame, and a reserved bit, fails the
 engine and the message is lost.
 */
module WrittenLoop {
  import opened Wrappers
  import opened Bytes
  import opened Buffers
  import opened FrameCodec
  import opened Reassembly

  datatype Yield = Yield(events: seq<Event>, failed: bool)

  /** There is room for this payload in a message that holds this much. */
  predicate HasRoom(limits: Limits, content: bytes, payload: bytes) {
    payload == [] || limits.message == 0 || |content| < limits.message
  }

  /** How many frames behind a completed message are continuations that there is room for. */
  function Joining(limits: Limits, content: bytes, fs: seq<Frame>): (k: nat)
    ensures k <= |fs|
    decreases |fs|
  {
    if fs == [] || fs[0].opcode != OPCODE_CONTINUATION then 0
    else if !HasRoom(limits, content, Stored(limits, fs[0]).payload) then 0
    else 1 + Joining(limits, Longer(limits, content, fs[0]), fs[1..])
  }

  /** A message with the payload of one more frame. */
  function Longer(limits: Limits, content: bytes, f: Frame): bytes {
    Cut(limits.message, content + Stored(limits, f).payload)
  }

  /** A message with the payloads of these frames joined to it. */
  function JoinedTo(limits: Limits, content: bytes, fs: seq<Frame>): bytes
    decreases |fs|
  {
    if fs == [] then content else JoinedTo(limits, Longer(limits, content, fs[0]), fs[1..])
  }

  /** The payloads of these frames, each cut to the frame limit, one behind the other. */
  function AllStored(limits: Limits, fs: seq<Frame>): bytes
    decreases |fs|
  {
    if fs == [] then [] else Stored(limits, fs[0]).payload + AllStored(limits, fs[1..])
  }

  /** That is their payloads behind the message, cut once. */
  lemma {:induction false} JoinedAtOnce(limits: Limits, content: bytes, fs: seq<Frame>)
    requires Fits(limits.message, content)
    ensures JoinedTo(limits, content, fs) == Cut(limits.message, content + AllStored(limits, fs))
    decreases |fs|
  {
    if fs == [] {
      assert content + [] == content;
    } else {
      var payload, rest := Stored(limits, fs[0]).payload, AllStored(limits, fs[1..]);
      JoinedAtOnce(limits, Longer(limits, content, fs[0]), fs[1..]);
      CutOfCut(limits.message, content + payload, rest);
      Assoc(content, payload, rest);
    }
  }

  /** What buffered frames come to; `broken` is that a frame with a reserved bit follows them. */
  function Yields(limits: Limits, open: Open, fs: seq<Frame>, broken: bool): Yield
    decreases |fs|
  {
    if fs == [] then Yield([], broken) else
    match Deliver(limits, open, Stored(limits, fs[0]))
    case Violation => Yield([], true)
    case Delivery(events, open') =>
      if events == [] || events[0].Control? then
        var y := Yields(limits, open', fs[1..], broken);
        y.(events := events + y.events)
      else Behind(limits, events[0].opcode, events[0].payload, fs[1..], broken)
  }

  /** What a completed message and the frames buffered behind it come to. */
  function Behind(limits: Limits, opcode: byte, content: bytes, fs: seq<Frame>, broken: bool): Yield
    decreases |fs|
  {
    var k := Joining(limits, content, fs);
    var message := Message(opcode, JoinedTo(limits, content, fs[..k]));
    if k == |fs| then
      if broken then Yield([], true) else Yield([message], false)
    else if IsControl(fs[k].opcode) && fs[k].fin then
      var y := Yields(limits, Idle, fs[k + 1..], broken);
      y.(events := [Control(Stored(limits, fs[k])), message] + y.events)
    else Yield([], true)
  }

  // ---- The loop does that ----

  /** A message is complete, nothing else is pending, and the loop goes on behind it. */
  predicate Completed(t: State) {
    t.message && t.started && t.control.None? && !t.error
  }

  lemma ParseStep(b: bytes)
    requires DecodeFrame(b).Ready?
    ensures var p, q := ParseAll(b), ParseAll(b[DecodeFrame(b).consumed..]);
      p.frames == [DecodeFrame(b).frame] + q.frames && p.rest == q.rest && p.broken == q.broken
  {
  }

  /** The engine with one more continuation joined to its message. */
  lemma JoinOne(limits: Limits, t: State)
    requires Completed(t) && DecodeFrame(t.input).Ready?
    requires Joining(limits, t.partial, ParseAll(t.input).frames) > 0
    ensures var n, f := DecodeFrame(t.input).consumed, DecodeFrame(t.input).frame;
      var u := t.(input := t.input[n..], partial := Longer(limits, t.partial, f));
      Completed(u) && Loop(limits, false, t) == Loop(limits, false, u)
  {
    ParseStep(t.input);
    var n, f := DecodeFrame(t.input).consumed, DecodeFrame(t.input).frame;
    assert ParseAll(t.input).frames[0] == f;
    assert Accept(limits, t.(input := t.input[n..]), Stored(limits, f))
      == t.(input := t.input[n..], partial := Longer(limits, t.partial, f));
  }

  lemma JoiningNeedsFrame(limits: Limits, b: bytes, content: bytes)
    requires Joining(limits, content, ParseAll(b).frames) > 0
    ensures DecodeFrame(b).Ready?
  {
  }

  /** The loop joins every continuation that there is room for. */
  lemma {:induction false} JoinAll(limits: Limits, t: State) returns (u: State)
    requires Completed(t)
    ensures var p, q := ParseAll(t.input), ParseAll(u.input); var k := Joining(limits, t.partial, p.frames);
      && q.frames == p.frames[k..] && q.broken == p.broken
      && u == t.(input := u.input, partial := JoinedTo(limits, t.partial, p.frames[..k])) && |u.input| <= |t.input|
      && Joining(limits, u.partial, q.frames) == 0 && Loop(limits, false, t) == Loop(limits, false, u)
    decreases |t.input|
  {
    var p := ParseAll(t.input);
    var k := Joining(limits, t.partial, p.frames);
    if k == 0 {
      assert p.frames[0..] == p.frames && p.frames[..0] == [];
      return t;
    }
    JoiningNeedsFrame(limits, t.input, t.partial);
    ParseStep(t.input);
    JoinOne(limits, t);
    var n, f := DecodeFrame(t.input).consumed, DecodeFrame(t.input).frame;
    var v := t.(input := t.input[n..], partial := Longer(limits, t.partial, f));
    var fs := ParseAll(v.input).frames;
    assert p.frames[0] == f && p.frames[1..] == fs;
    u := JoinAll(limits, v);
    assert p.frames[..k][0] == f && p.frames[..k][1..] == fs[..k - 1] && p.frames[k..] == fs[k - 1..];
  }

  /** From `u` the loop ends in `r`. */
  predicate StopsSo(limits: Limits, u: State, r: State) {
    var d := DecodeFrame(u.input);
    if d.Building? then r == u
    else if d.Error? then r == u.(error := true)
    else if IsControl(d.frame.opcode) && d.frame.fin then
      r == u.(input := u.input[d.consumed..], control := Some(Stored(limits, d.frame)))
    else r.error
  }

  /** Where nothing more can be joined: the loop stops, is interrupted by a control frame, or fails. */
  lemma StopBehind(limits: Limits, u: State)
    requires Completed(u) && Joining(limits, u.partial, ParseAll(u.input).frames) == 0
    ensures StopsSo(limits, u, Loop(limits, false, u))
  {
    if DecodeFrame(u.input).Ready? {
      ParseStep(u.input);
      assert ParseAll(u.input).frames[0] == DecodeFrame(u.input).frame;
    }
  }

  /** Taking the message leaves an engine that goes on from the next frame. */
  lemma DrainMessage(limits: Limits, u: State)
    requires Completed(u)
    ensures var rest := Drain(limits, false, Loop(limits, false, Released(u)));
      Drain(limits, false, u) == After(Message(u.messageOpcode, u.partial), rest)
  {
  }

  /** The control frame is taken first, then the message it interrupted. */
  lemma DrainInterrupted(limits: Limits, u: State, f: Frame)
    requires Completed(u)
    ensures Drain(limits, false, u.(control := Some(f))) == After(Control(f), Drain(limits, false, u))
  {
    assert u.(control := Some(f)).(control := None) == u;
  }

  predicate SameYield(d: Drained, y: Yield) {
    d.events == y.events && d.state.error == y.failed
  }

  /** The engine stops at `u`, and its message has been joined by what was there to join. */
  predicate Joined(limits: Limits, t: State, u: State) {
    var p, q := ParseAll(t.input), ParseAll(u.input);
    var k := Joining(limits, t.partial, p.frames);
    && q.frames == p.frames[k..] && q.broken == p.broken
    && u == t.(input := u.input, partial := JoinedTo(limits, t.partial, p.frames[..k])) && |u.input| <= |t.input|
    && Joining(limits, u.partial, q.frames) == 0
  }

  lemma {:induction false} DrainBehind(limits: Limits, t: State)
    requires Completed(t)
    ensures var p := ParseAll(t.input);
      SameYield(
        Drain(limits, false, Loop(limits, false, t)), Behind(limits, t.messageOpcode, t.partial, p.frames, p.broken))
    decreases |t.input|, 0
  {
    var p := ParseAll(t.input);
    var u := JoinAll(limits, t);
    if DecodeFrame(u.input).Ready? {
      var f, n := DecodeFrame(u.input).frame, DecodeFrame(u.input).consumed;
      if IsControl(f.opcode) && f.fin {
        var v := u.(input := u.input[n..]);
        DrainYields(limits, Released(v));
        DrainAtControl(limits, t, u, v, f, n);
      } else {
        DrainAtOther(limits, t, u);
      }
    } else {
      DrainAtEnd(limits, t, u);
    }
  }

  lemma DrainAtEnd(limits: Limits, t: State, u: State)
    requires Completed(t) && Joined(limits, t, u) && !DecodeFrame(u.input).Ready?
    ensures var p := ParseAll(t.input);
      SameYield(
        Drain(limits, false, Loop(limits, false, u)), Behind(limits, t.messageOpcode, t.partial, p.frames, p.broken))
  {
    var p := ParseAll(t.input);
    StopBehind(limits, u);
    NothingBehind(limits, u);
    assert p.frames[..|p.frames|] == p.frames;
    if DecodeFrame(u.input).Building? {
      DrainMessage(limits, u);
    }
  }

  lemma DrainAtOther(limits: Limits, t: State, u: State)
    requires Completed(t) && Joined(limits, t, u) && DecodeFrame(u.input).Ready?
    requires !(IsControl(DecodeFrame(u.input).frame.opcode) && DecodeFrame(u.input).frame.fin)
    ensures var p := ParseAll(t.input);
      SameYield(
        Drain(limits, false, Loop(limits, false, u)), Behind(limits, t.messageOpcode, t.partial, p.frames, p.broken))
  {
    var p := ParseAll(t.input);
    StopBehind(limits, u);
    ParseStep(u.input);
    var k := Joining(limits, t.partial, p.frames);
    assert p.frames[k] == p.frames[k..][0] == DecodeFrame(u.input).frame;
  }

  /** The control frame, the message, and what the engine yields from there. */
  lemma ControlThenMessage(limits: Limits, u: State, v: State, f: Frame, n: nat)
    requires Completed(u) && Joining(limits, u.partial, ParseAll(u.input).frames) == 0
    requires DecodeFrame(u.input) == Ready(f, n) && IsControl(f.opcode) && f.fin && v == u.(input := u.input[n..])
    ensures Drain(limits, false, Loop(limits, false, u))
      == After(Control(Stored(limits, f)),
               After(Message(u.messageOpcode, u.partial), Drain(limits, false, Loop(limits, false, Released(v)))))
  {
    StopBehind(limits, u);
    DrainInterrupted(limits, v, Stored(limits, f));
    DrainMessage(limits, v);
  }

  lemma TwoEvents(a: Event, b: Event, d: Drained, y: Yield)
    requires SameYield(d, y)
    ensures SameYield(After(a, After(b, d)), y.(events := [a, b] + y.events))
  {
    assert [a] + ([b] + d.events) == [a, b] + d.events;
  }

  lemma DrainAtControl(limits: Limits, t: State, u: State, v: State, f: Frame, n: nat)
    requires Completed(t) && Joined(limits, t, u) && DecodeFrame(u.input) == Ready(f, n)
    requires IsControl(f.opcode) && f.fin && v == u.(input := u.input[n..])
    requires var q := ParseAll(v.input);
      SameYield(Drain(limits, false, Loop(limits, false, Released(v))), Yields(limits, Idle, q.frames, q.broken))
    ensures var p := ParseAll(t.input);
      SameYield(
        Drain(limits, false, Loop(limits, false, u)), Behind(limits, t.messageOpcode, t.partial, p.frames, p.broken))
  {
    var p, q := ParseAll(t.input), ParseAll(v.input);
    var y, d := Yields(limits, Idle, q.frames, q.broken), Drain(limits, false, Loop(limits, false, Released(v)));
    assert Drain(limits, false, Loop(limits, false, u))
        == After(Control(Stored(limits, f)), After(Message(t.messageOpcode, u.partial), d)) by {
      ControlThenMessage(limits, u, v, f, n);
    }
    assert Behind(limits, t.messageOpcode, t.partial, p.frames, p.broken)
        == y.(events := [Control(Stored(limits, f)), Message(t.messageOpcode, u.partial)] + y.events) by {
      InterruptedYield(limits, t, p, u, f, n);
    }
    TwoEvents(Control(Stored(limits, f)), Message(t.messageOpcode, u.partial), d, y);
  }

  // With nothing behind it the message is all there is.
  lemma NothingBehind(limits: Limits, u: State)
    requires Completed(u) && !DecodeFrame(u.input).Ready?
    ensures ParseAll(u.input).frames == [] && ParseAll(u.input).broken == DecodeFrame(u.input).Error?
    ensures DecodeFrame(u.input).Building? ==>
      var rest := Drain(limits, false, Loop(limits, false, Released(u))); rest.events == [] && !rest.state.error
  {
  }

  // The pieces of an interruption put together.
  lemma InterruptedYield(limits: Limits, t: State, p: Parsing, u: State, f: Frame, n: nat)
    requires p == ParseAll(t.input) && DecodeFrame(u.input) == Ready(f, n) && IsControl(f.opcode) && f.fin
    requires var k := Joining(limits, t.partial, p.frames); var q := ParseAll(u.input);
      q.frames == p.frames[k..] && q.broken == p.broken && u.partial == JoinedTo(limits, t.partial, p.frames[..k])
    ensures var q := ParseAll(u.input[n..]);
      var y := Yields(limits, Idle, q.frames, q.broken);
      Behind(limits, t.messageOpcode, t.partial, p.frames, p.broken)
      == y.(events := [Control(Stored(limits, f)), Message(t.messageOpcode, u.partial)] + y.events)
  {
    var k := Joining(limits, t.partial, p.frames);
    ParseStep(u.input);
    assert p.frames[k] == p.frames[k..][0] == f;
    assert p.frames[k + 1..] == p.frames[k..][1..] == ParseAll(u.input[n..]).frames;
  }

  /** What the first frame contributes, in terms of the engine after it. */
  lemma YieldStep(limits: Limits, s: State, t: State, f: Frame, fs: seq<Frame>, broken: bool)
    requires Quiescent(s) && Matches(s, t, Deliver(limits, OpenOf(s), Stored(limits, f)), Stored(limits, f))
    ensures var y := Yields(limits, OpenOf(s), [f] + fs, broken);
      if t.error then y == Yield([], true)
      else if t.control.Some? then
        var z := Yields(limits, OpenOf(s), fs, broken); y == z.(events := [Control(Stored(limits, f))] + z.events)
      else if t.message then y == Behind(limits, t.messageOpcode, t.partial, fs, broken)
      else y == Yields(limits, OpenOf(t), fs, broken)
  {
    assert ([f] + fs)[1..] == fs;
    var d := Deliver(limits, OpenOf(s), Stored(limits, f));
    if d.Delivery? && d.events == [] {
      var z := Yields(limits, d.open, fs, broken);
      assert [] + z.events == z.events;
    }
  }

  lemma DrainControl(limits: Limits, s: State, t: State, f: Frame)
    requires Quiescent(s) && t == s.(control := Some(f))
    ensures Drain(limits, false, t) == After(Control(f), Drain(limits, false, Loop(limits, false, s)))
  {
    assert t.(control := None) == s;
  }

  /** Draining the engine as it stands yields what the buffered frames come to. */
  lemma {:induction false} DrainYields(limits: Limits, s: State)
    requires Quiescent(s)
    ensures var p := ParseAll(s.input);
      SameYield(Drain(limits, false, Loop(limits, false, s)), Yields(limits, OpenOf(s), p.frames, p.broken))
    decreases |s.input|, 1
  {
    if DecodeFrame(s.input).Ready? {
      var n, f := DecodeFrame(s.input).consumed, DecodeFrame(s.input).frame;
      var u := s.(input := s.input[n..]);
      var t := Accept(limits, u, Stored(limits, f));
      var p := ParseAll(u.input);
      ParseStep(s.input);
      AcceptDelivers(limits, u, Stored(limits, f));
      YieldStep(limits, u, t, f, p.frames, p.broken);
      LoopStep(limits, s, t);
      if t.control.Some? {
        DrainControl(limits, u, t, Stored(limits, f));
        DrainYields(limits, u);
      } else if !t.error {
        if t.message {
          DrainBehind(limits, t);
        } else {
          DrainYields(limits, t);
        }
      }
    }
  }

  lemma LoopStep(limits: Limits, s: State, t: State)
    requires Quiescent(s) && DecodeFrame(s.input).Ready?
    requires t == Accept(limits, s.(input := s.input[DecodeFrame(s.input).consumed..]),
                         Stored(limits, DecodeFrame(s.input).frame))
    ensures Loop(limits, false, s) == if t.control.Some? || t.error then t else Loop(limits, false, t)
  {
  }
}
