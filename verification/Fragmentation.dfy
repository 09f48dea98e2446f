/**
 The rules the code enforces, stated over a list of frames without an engine: fragmentation as in section
 5.4 of RFC 6455, control frames in one piece as in section 5.5, and the server's own message limit. Where
 a message begins and ends, which frame is the first to break a rule, what each frame completes. What else
 the RFC asks for is in Conformance.
 */
module Fragmentation {
  import opened Bytes
  import opened Wrappers
  import opened FrameCodec
  import opened Reassembly

  predicate IsData(f: Frame) { !IsControl(f.opcode) }

  function Init(fs: seq<Frame>): (r: seq<Frame>)
    requires fs != []
    ensures |r| == |fs| - 1 && r + [fs[|fs| - 1]] == fs
  {
    fs[..|fs| - 1]
  }

  function Last(fs: seq<Frame>): Frame
    requires fs != []
  {
    fs[|fs| - 1]
  }

  /** The most recent data frame; control frames in between do not count. */
  function LastData(fs: seq<Frame>): Option<Frame> {
    if fs == [] then None else if IsData(Last(fs)) then Some(Last(fs)) else LastData(Init(fs))
  }

  /** After these frames a fragmented message is still in progress. */
  predicate InMessage(fs: seq<Frame>) {
    LastData(fs).Some? && !LastData(fs).value.fin
  }

  /** Where the latest message begins: the last data frame that is not a continuation. */
  function FirstFragment(fs: seq<Frame>): (i: nat)
    ensures i <= |fs|
    ensures i < |fs| ==> IsData(fs[i]) && fs[i].opcode != OPCODE_CONTINUATION
  {
    if fs == [] then 0
    else if IsData(Last(fs)) && Last(fs).opcode != OPCODE_CONTINUATION then |fs| - 1
    else
      var i := FirstFragment(Init(fs));
      if i == |Init(fs)| then |fs| else i
  }

  /** The payloads of the data frames from position i on, joined. */
  function Body(limits: Limits, fs: seq<Frame>, i: nat): bytes {
    if i >= |fs| then []
    else Body(limits, Init(fs), i) + if IsData(Last(fs)) then Stored(limits, Last(fs)).payload else []
  }

  function Content(limits: Limits, fs: seq<Frame>): bytes {
    Body(limits, fs, FirstFragment(fs))
  }

  /**
   The frame breaks a rule when it comes after `before`: a fragmented control frame, a continuation
   of nothing, a new message inside a message, or bytes for a message already as long as allowed.
   */
  predicate Violates(limits: Limits, before: seq<Frame>, f: Frame) {
    if IsControl(f.opcode) then !f.fin
    else
      || InMessage(before) != (f.opcode == OPCODE_CONTINUATION)
      || (InMessage(before) && Stored(limits, f).payload != []
          && limits.message > 0 && |Content(limits, before)| >= limits.message)
  }

  /** What the last of these frames completes. */
  function Completes(limits: Limits, fs: seq<Frame>): seq<Event>
    requires fs != []
  {
    var f, i := Last(fs), FirstFragment(fs);
    if IsControl(f.opcode) then [Control(Stored(limits, f))]
    else if !f.fin then []
    else [Message(if i < |fs| then fs[i].opcode else f.opcode, Cut(limits.message, Content(limits, fs)))]
  }

  /** The number of frames before the first violation. */
  function Legal(limits: Limits, fs: seq<Frame>): (n: nat)
    ensures n <= |fs|
    ensures forall k :: 0 <= k < n ==> !Violates(limits, fs[..k], fs[k])
    ensures n < |fs| ==> Violates(limits, fs[..n], fs[n])
  {
    if fs == [] then 0 else
    var n := Legal(limits, Init(fs));
    assert forall k :: 0 <= k < |fs| - 1 ==> Init(fs)[..k] == fs[..k];
    if n == |Init(fs)| && !Violates(limits, Init(fs), Last(fs)) then |fs| else n
  }

  /** Everything a list of frames completes, in order. */
  function Completed(limits: Limits, fs: seq<Frame>): seq<Event> {
    if fs == [] then [] else Completed(limits, Init(fs)) + Completes(limits, fs)
  }

  // ---- Frame lists through the decoder ----

  datatype Reassembled = Reassembled(events: seq<Event>, failed: bool, open: Open)

  function Reassemble(limits: Limits, open: Open, fs: seq<Frame>): Reassembled
    decreases |fs|
  {
    if fs == [] then Reassembled([], false, open) else
    match Deliver(limits, open, Stored(limits, fs[0]))
    case Violation => Reassembled([], true, open)
    case Delivery(events, open') =>
      var r := Reassemble(limits, open', fs[1..]);
      r.(events := events + r.events)
  }

  /** Decoding bytes is parsing them into frames and reassembling the frames. */
  lemma {:induction false} DecodeIsReassembly(limits: Limits, open: Open, b: bytes)
    ensures var d := Decode(limits, open, b); var p := ParseAll(b); var r := Reassemble(limits, open, p.frames);
      && d.events == r.events
      && d.failed == (r.failed || p.broken)
      && (!d.failed ==> d.rest == p.rest && d.open == r.open)
    decreases |b|
  {
    if DecodeFrame(b).Ready? {
      var n := DecodeFrame(b).consumed;
      var p := ParseAll(b);
      assert p.frames[0] == DecodeFrame(b).frame && p.frames[1..] == ParseAll(b[n..]).frames;
      var step := Deliver(limits, open, Stored(limits, p.frames[0]));
      if step.Delivery? {
        DecodeIsReassembly(limits, step.open, b[n..]);
      }
    }
  }

  lemma {:induction false} ReassembleLast(limits: Limits, open: Open, fs: seq<Frame>, f: Frame)
    ensures var r := Reassemble(limits, open, fs);
      Reassemble(limits, open, fs + [f]) ==
        if r.failed then r
        else match Deliver(limits, r.open, Stored(limits, f))
          case Violation => r.(failed := true)
          case Delivery(events, open') => Reassembled(r.events + events, false, open')
    decreases |fs|
  {
    if fs == [] {
      assert fs + [f] == [f];
    } else {
      assert (fs + [f])[1..] == fs[1..] + [f];
      var step := Deliver(limits, open, Stored(limits, fs[0]));
      if step.Delivery? {
        ReassembleLast(limits, step.open, fs[1..], f);
        var r := Reassemble(limits, step.open, fs[1..]);
        var last := Deliver(limits, r.open, Stored(limits, f));
        if last.Delivery? {
          Assoc(step.events, r.events, last.events);
        }
      }
    }
  }

  // ---- These rules are what the decoder enforces ----

  /** The message in progress, read off the frames. */
  function InProgress(limits: Limits, fs: seq<Frame>): Open {
    var i := FirstFragment(fs);
    if InMessage(fs) && i < |fs| then Open(fs[i].opcode, Cut(limits.message, Content(limits, fs))) else Idle
  }

  lemma {:induction false} InMessageHasStart(limits: Limits, fs: seq<Frame>)
    requires Legal(limits, fs) == |fs| && InMessage(fs)
    ensures FirstFragment(fs) < |fs|
  {
    var before, f := Init(fs), Last(fs);
    assert fs[..|before|] == before;
    assert !Violates(limits, before, f);
    LegalInit(limits, fs);
    if !IsData(f) || f.opcode == OPCODE_CONTINUATION {
      InMessageHasStart(limits, before);
    }
  }

  lemma LegalInit(limits: Limits, fs: seq<Frame>)
    requires fs != [] && Legal(limits, fs) == |fs|
    ensures Legal(limits, Init(fs)) == |Init(fs)| && !Violates(limits, Init(fs), Last(fs))
  {
    assert fs[..|fs| - 1] == Init(fs);
  }

  /** For its last frame, the rules and the decoder reach the same verdict and the same events. */
  predicate SameVerdict(limits: Limits, fs: seq<Frame>)
    requires fs != []
  {
    match Deliver(limits, InProgress(limits, Init(fs)), Stored(limits, Last(fs)))
    case Violation => Violates(limits, Init(fs), Last(fs))
    case Delivery(events, open) =>
      && !Violates(limits, Init(fs), Last(fs))
      && events == Completes(limits, fs)
      && open == InProgress(limits, fs)
  }

  lemma ControlVerdict(limits: Limits, fs: seq<Frame>)
    requires fs != [] && !IsData(Last(fs))
    ensures SameVerdict(limits, fs)
  {
    var before, i := Init(fs), FirstFragment(Init(fs));
    assert InMessage(fs) == InMessage(before);
    if i < |before| {
      assert Content(limits, fs) == Content(limits, before) + [];
    }
  }

  lemma ContinuationVerdict(limits: Limits, fs: seq<Frame>)
    requires fs != [] && IsData(Last(fs)) && Last(fs).opcode == OPCODE_CONTINUATION
    requires InMessage(Init(fs)) ==> FirstFragment(Init(fs)) < |Init(fs)|
    ensures SameVerdict(limits, fs)
  {
    if InMessage(Init(fs)) {
      var payload := Stored(limits, Last(fs)).payload;
      assert Content(limits, fs) == Content(limits, Init(fs)) + payload;
      CutOfCut(limits.message, Content(limits, Init(fs)), payload);
    }
  }

  lemma OpeningVerdict(limits: Limits, fs: seq<Frame>)
    requires fs != [] && IsData(Last(fs)) && Last(fs).opcode != OPCODE_CONTINUATION
    requires InMessage(Init(fs)) ==> FirstFragment(Init(fs)) < |Init(fs)|
    ensures SameVerdict(limits, fs)
  {
    assert Body(limits, Init(fs), |fs| - 1) == [];
    assert Content(limits, fs) == [] + Stored(limits, Last(fs)).payload;
  }

  lemma OneFrame(limits: Limits, fs: seq<Frame>)
    requires fs != [] && Legal(limits, Init(fs)) == |Init(fs)|
    ensures SameVerdict(limits, fs)
  {
    if InMessage(Init(fs)) {
      InMessageHasStart(limits, Init(fs));
    }
    if !IsData(Last(fs)) {
      ControlVerdict(limits, fs);
    } else if Last(fs).opcode == OPCODE_CONTINUATION {
      ContinuationVerdict(limits, fs);
    } else {
      OpeningVerdict(limits, fs);
    }
  }

  /** These rules over any list of frames: which is the first violation, and every event before it. */
  lemma {:induction false} FollowsTheRules(limits: Limits, fs: seq<Frame>)
    ensures var n := Legal(limits, fs); var r := Reassemble(limits, Idle, fs);
      && r.failed == (n < |fs|)
      && r.events == Completed(limits, fs[..n])
      && (!r.failed ==> r.open == InProgress(limits, fs))
  {
    if fs != [] {
      var before := Init(fs);
      FollowsTheRules(limits, before);
      ReassembleLast(limits, Idle, before, Last(fs));
      var n := Legal(limits, before);
      assert before[..n] == fs[..n] && fs[..|fs|] == fs && before[..|before|] == before;
      if n == |before| {
        OneFrame(limits, fs);
      }
    }
  }

  /** Decoding encoded frames gives what they complete up to the first violation, and fails if there is one. */
  lemma StreamDecodes(limits: Limits, list: seq<Sent>)
    requires AllSendable(list)
    ensures var e := Decode(limits, Idle, Stream(list)); var fs := FramesOf(list); var n := Legal(limits, fs);
      e.events == Completed(limits, fs[..n]) && e.failed == (n < |fs|)
  {
    var fs := FramesOf(list);
    ParseStream(list, []);
    assert Stream(list) + [] == Stream(list) && fs + [] == fs;
    assert ParseAll([]) == Parsing([], [], false);
    DecodeIsReassembly(limits, Idle, Stream(list));
    FollowsTheRules(limits, fs);
  }

  // ---- Control frames in between ----

  function DropControls(fs: seq<Frame>): seq<Frame> {
    if fs == [] then [] else (if IsData(fs[0]) then [fs[0]] else []) + DropControls(fs[1..])
  }

  function Messages(events: seq<Event>): seq<Event> {
    if events == [] then [] else (if events[0].Message? then [events[0]] else []) + Messages(events[1..])
  }

  lemma {:induction false} MessagesAppend(a: seq<Event>, b: seq<Event>)
    ensures Messages(a + b) == Messages(a) + Messages(b)
  {
    if a == [] {
      assert a + b == b;
    } else {
      assert (a + b)[1..] == a[1..] + b;
      MessagesAppend(a[1..], b);
      Assoc(if a[0].Message? then [a[0]] else [], Messages(a[1..]), Messages(b));
    }
  }

  /** Taking every control frame out of a valid list changes no delivered message. */
  lemma {:induction false} ControlTransparency(limits: Limits, open: Open, fs: seq<Frame>)
    requires !Reassemble(limits, open, fs).failed
    ensures var with := Reassemble(limits, open, fs); var without := Reassemble(limits, open, DropControls(fs));
      && !without.failed && without.open == with.open
      && without.events == Messages(with.events)
    decreases |fs|
  {
    if fs != [] {
      var step := Deliver(limits, open, Stored(limits, fs[0]));
      ControlTransparency(limits, step.open, fs[1..]);
      MessagesAppend(step.events, Reassemble(limits, step.open, fs[1..]).events);
      assert Messages([]) == [];
      if IsData(fs[0]) {
        assert DropControls(fs)[0] == fs[0] && DropControls(fs)[1..] == DropControls(fs[1..]);
        assert Messages(step.events) == step.events;
      } else {
        assert DropControls(fs) == DropControls(fs[1..]);
        assert Messages(step.events) == [];
      }
    }
  }
}
