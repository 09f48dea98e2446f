/**
 What the limit on the frame buffer does to a stream: which cuttings lose nothing, and which frames
 can be received at all.
 */
module FrameLimits {
  import opened Bytes
  import opened Buffers
  import opened FrameCodec
  import opened Reassembly
  import opened Fragmentation

  // ---- Cuttings that fit ----

  /**
   Each chunk fits behind the unfinished frame before it. `held` is that unfinished frame: it depends on
   the bytes sent and not on the engine, so a sender can tell.
   */
  predicate Roomy(limits: Limits, held: bytes, chunks: seq<bytes>)
    decreases |chunks|
  {
    chunks != [] ==>
      Fits(2 * limits.frame, held + chunks[0]) && Roomy(limits, ParseAll(held + chunks[0]).rest, chunks[1..])
  }

  lemma {:induction false} UnlimitedRoom(limits: Limits, held: bytes, chunks: seq<bytes>)
    requires limits.frame == 0
    ensures Roomy(limits, held, chunks)
    decreases |chunks|
  {
    if chunks != [] {
      UnlimitedRoom(limits, ParseAll(held + chunks[0]).rest, chunks[1..]);
    }
  }

  lemma AdmittedWhole(limits: Limits, s: State, chunk: bytes)
    requires Fits(2 * limits.frame, s.input)
    ensures |Admitted(limits, s, chunk)| <= |chunk|
    ensures Admitted(limits, s, chunk) == chunk <==> Fits(2 * limits.frame, s.input + chunk)
  {
    if Fits(2 * limits.frame, s.input + chunk) {
      assert (s.input + chunk)[|s.input|..] == chunk;
    }
  }

  /** What a feeding that fits leaves in the engine is the unfinished frame. */
  lemma FeedLeaves(limits: Limits, s: State, chunk: bytes)
    requires Waiting(limits, s) && !s.error && Fits(2 * limits.frame, s.input + chunk)
    ensures var d := Feed(limits, true, s, chunk); var e := Decode(limits, OpenOf(s), s.input + chunk);
      && Waiting(limits, d.state) && d.events == e.events && d.state.error == e.failed
      && (!e.failed ==> d.state.input == e.rest == ParseAll(s.input + chunk).rest && OpenOf(d.state) == e.open)
  {
    AdmittedWhole(limits, s, chunk);
    FeedDecodes(limits, s, chunk);
    DecodeIsReassembly(limits, OpenOf(s), s.input + chunk);
  }

  /** If every chunk fits, a limited engine says what one pass over the whole stream says. */
  lemma {:induction false} RoomyDecodes(limits: Limits, s: State, chunks: seq<bytes>)
    requires Waiting(limits, s) && !s.error && Roomy(limits, s.input, chunks)
    ensures var d := Run(limits, true, s, chunks); var e := Decode(limits, OpenOf(s), s.input + Concat(chunks));
      d.events == e.events && d.state.error == e.failed
    decreases |chunks|
  {
    if chunks == [] {
      assert s.input + [] == s.input;
    } else {
      var b, x := s.input + chunks[0], Concat(chunks[1..]);
      var first := Feed(limits, true, s, chunks[0]);
      Assoc(s.input, chunks[0], x);
      FeedLeaves(limits, s, chunks[0]);
      DecodeAppend(limits, OpenOf(s), b, x);
      if first.state.error {
        RunDecodes(limits, first.state, chunks[1..]);
      } else {
        RoomyDecodes(limits, first.state, chunks[1..]);
      }
    }
  }

  lemma {:induction false} AdmittedAtMost(limits: Limits, s: State, chunks: seq<bytes>)
    requires Waiting(limits, s)
    ensures |AdmittedRun(limits, s, chunks)| <= |Concat(chunks)|
    decreases |chunks|
  {
    if chunks != [] {
      AdmittedWhole(limits, s, chunks[0]);
      FeedDecodes(limits, s, chunks[0]);
      AdmittedAtMost(limits, Feed(limits, true, s, chunks[0]).state, chunks[1..]);
    }
  }

  /** Of a stream without a violation every byte is let in if and only if every chunk fits. */
  lemma {:induction false} RoomyExactly(limits: Limits, s: State, chunks: seq<bytes>)
    requires Waiting(limits, s) && !s.error && !Decode(limits, OpenOf(s), s.input + Concat(chunks)).failed
    ensures AdmittedRun(limits, s, chunks) == Concat(chunks) <==> Roomy(limits, s.input, chunks)
    decreases |chunks|
  {
    if chunks != [] {
      var x, taken := Concat(chunks[1..]), Admitted(limits, s, chunks[0]);
      var first := Feed(limits, true, s, chunks[0]);
      FeedDecodes(limits, s, chunks[0]);
      var more := AdmittedRun(limits, first.state, chunks[1..]);
      AdmittedWhole(limits, s, chunks[0]);
      AdmittedAtMost(limits, first.state, chunks[1..]);
      if taken == chunks[0] {
        Assoc(s.input, chunks[0], x);
        FeedLeaves(limits, s, chunks[0]);
        DecodeAppend(limits, OpenOf(s), s.input + chunks[0], x);
        RoomyExactly(limits, first.state, chunks[1..]);
        Halves(chunks[0], more);
        Halves(chunks[0], x);
      } else {
        assert |taken + more| < |chunks[0] + x|;
      }
    }
  }

  /**
   From the sender's frames to the receiver's events. Encode any frames with any mask keys, cut the
   stream anywhere the frame buffer has room: the engine yields what the frames complete up to the first
   violation, and fails if and only if there is one.
   */
  lemma EndToEnd(limits: Limits, list: seq<Sent>, chunks: seq<bytes>)
    requires AllSendable(list) && Concat(chunks) == Stream(list) && Roomy(limits, [], chunks)
    ensures var d := Run(limits, true, Fresh, chunks); var fs := FramesOf(list); var n := Legal(limits, fs);
      && d.events == Completed(limits, fs[..n])
      && d.state.error == (n < |fs|)
  {
    RoomyDecodes(limits, Fresh, chunks);
    assert [] + Stream(list) == Stream(list);
    StreamDecodes(limits, list);
  }

  // ---- One frame ----

  lemma PrefixBuilds(b: bytes, c: bytes)
    requires b <= c && DecodeFrame(c).Building?
    ensures DecodeFrame(b).Building?
  {
    var x := c[|b|..];
    assert b + x == c;
    if !DecodeFrame(b).Building? {
      VerdictStable(b, x);
    }
  }

  /** A new engine with these bytes in its frame buffer. */
  function Holding(held: bytes): State { Fresh.(input := held) }

  lemma CutIsPrefix(limit: nat, b: bytes, x: bytes)
    ensures Cut(limit, b) <= Cut(limit, b + x)
  {
  }

  lemma {:induction false} StallsBehind(limits: Limits, retest: bool, arrived: bytes, chunks: seq<bytes>)
    requires limits.frame > 0 && DecodeFrame(Cut(2 * limits.frame, arrived + Concat(chunks))).Building?
    ensures Run(limits, retest, Holding(Cut(2 * limits.frame, arrived)), chunks)
      == Drained([], Holding(Cut(2 * limits.frame, arrived + Concat(chunks))))
    decreases |chunks|
  {
    var limit := 2 * limits.frame;
    if chunks == [] {
      assert arrived + [] == arrived;
    } else {
      var now, x := arrived + chunks[0], Concat(chunks[1..]);
      Assoc(arrived, chunks[0], x);
      CutIsPrefix(limit, now, x);
      PrefixBuilds(Cut(limit, now), Cut(limit, now + x));
      StalledFeed(limits, retest, arrived, chunks[0]);
      StallsBehind(limits, retest, now, chunks[1..]);
      assert [] + Run(limits, retest, Holding(Cut(limit, now)), chunks[1..]).events == [];
    }
  }

  lemma StalledFeed(limits: Limits, retest: bool, arrived: bytes, chunk: bytes)
    requires limits.frame > 0 && DecodeFrame(Cut(2 * limits.frame, arrived + chunk)).Building?
    ensures Feed(limits, retest, Holding(Cut(2 * limits.frame, arrived)), chunk)
      == Drained([], Holding(Cut(2 * limits.frame, arrived + chunk)))
  {
    var limit := 2 * limits.frame;
    CutOfCut(limit, arrived, chunk);
    if !AppendOk(limit, Cut(limit, arrived), chunk) {
      assert Cut(limit, arrived + chunk) == Cut(limit, arrived);
    }
  }

  /**
   A stream whose first frame is longer than twice the frame limit yields nothing and no failure,
   however it is cut, whatever comes behind that frame, and with either loop.
   */
  lemma OversizedFrameStalls(limits: Limits, retest: bool, chunks: seq<bytes>)
    requires limits.frame > 0
    requires DecodeFrame(Concat(chunks)).Ready? && DecodeFrame(Concat(chunks)).consumed > 2 * limits.frame
    ensures Seen(Run(limits, retest, Fresh, chunks)) == ([], false)
  {
    var b := Concat(chunks);
    ReadyExactly(b, 2 * limits.frame);
    assert [] + b == b;
    StallsBehind(limits, retest, [], chunks);
  }

  /** At most one frame, and perhaps the beginning of another. */
  predicate AtMostOne(b: bytes) {
    DecodeFrame(b).Ready? ==> DecodeFrame(b[DecodeFrame(b).consumed..]).Building?
  }

  lemma BehindOne(b: bytes, x: bytes)
    requires AtMostOne(b + x) && DecodeFrame(b).Ready?
    ensures var rest := b[DecodeFrame(b).consumed..];
      DecodeFrame(rest).Building? && AtMostOne(rest + x)
  {
    var n := DecodeFrame(b).consumed;
    VerdictStable(b, x);
    assert (b + x)[n..] == b[n..] + x;
    PrefixBuilds(b[n..], b[n..] + x);
  }

  lemma AtMostOneQuiet(limits: Limits, open: Open, b: bytes, x: bytes)
    requires AtMostOne(b + x)
    ensures NoBacklog(limits, open, b)
    ensures var e := Decode(limits, open, b); !e.failed ==> AtMostOne(e.rest + x)
  {
    if DecodeFrame(b).Ready? {
      BehindOne(b, x);
    }
  }

  /** A stream of one frame never leaves a backlog. */
  lemma {:induction false} OneFrameIsQuiet(limits: Limits, s: State, chunks: seq<bytes>)
    requires Waiting(limits, s) && Roomy(limits, s.input, chunks) && AtMostOne(s.input + Concat(chunks))
    ensures NoBacklogRun(limits, s, chunks)
    decreases |chunks|
  {
    if chunks != [] && !s.error {
      var x := Concat(chunks[1..]);
      Assoc(s.input, chunks[0], x);
      AdmittedWhole(limits, s, chunks[0]);
      AtMostOneQuiet(limits, OpenOf(s), s.input + chunks[0], x);
      FeedDecodes(limits, s, chunks[0]);
      FeedLeaves(limits, s, chunks[0]);
      var next := Feed(limits, true, s, chunks[0]).state;
      if !next.error {
        OneFrameIsQuiet(limits, next, chunks[1..]);
      }
    }
  }

  /** What a run shows is what its trace shows. */
  lemma {:induction false} TraceShowsRun(limits: Limits, s: State, t: State, chunks: seq<bytes>)
    requires chunks != [] || s.error == t.error
    requires Trace(limits, false, s, chunks) == Trace(limits, true, t, chunks)
    ensures Seen(Run(limits, false, s, chunks)) == Seen(Run(limits, true, t, chunks))
    decreases |chunks|
  {
    if chunks != [] {
      var written, retested := Feed(limits, false, s, chunks[0]), Feed(limits, true, t, chunks[0]);
      var a, b := Trace(limits, false, s, chunks), Trace(limits, true, t, chunks);
      assert a[0] == Seen(written) && b[0] == Seen(retested);
      assert a[1..] == Trace(limits, false, written.state, chunks[1..]);
      assert b[1..] == Trace(limits, true, retested.state, chunks[1..]);
      TraceShowsRun(limits, written.state, retested.state, chunks[1..]);
    }
  }

  lemma {:induction false} ShortStreamIsRoomy(limits: Limits, held: bytes, chunks: seq<bytes>)
    requires Fits(2 * limits.frame, held + Concat(chunks))
    ensures Roomy(limits, held, chunks)
    decreases |chunks|
  {
    if chunks != [] {
      Assoc(held, chunks[0], Concat(chunks[1..]));
      ShortStreamIsRoomy(limits, ParseAll(held + chunks[0]).rest, chunks[1..]);
    }
  }

  /** What a frame comes to on its own. */
  function Alone(limits: Limits, f: Frame): (seq<Event>, bool) {
    match Deliver(limits, Idle, Stored(limits, f))
    case Violation => ([], true)
    case Delivery(events, _) => (events, false)
  }

  lemma EncodedAlone(limits: Limits, s: Sent)
    requires Sendable(s)
    ensures var e := Decode(limits, Idle, Encoded(s));
      (e.events, e.failed) == Alone(limits, FrameOf(s)) && AtMostOne(Encoded(s))
    ensures DecodeFrame(Encoded(s)) == Ready(FrameOf(s), |Encoded(s)|)
  {
    var e := Encoded(s);
    EncodeDecode(s.fin, s.opcode, s.key, s.payload, []);
    OpcodeNibble(s.opcode);
    assert e + [] == e;
    assert e[|e|..] == [];
    var step := Deliver(limits, Idle, Stored(limits, FrameOf(s)));
    if step.Delivery? {
      assert Decode(limits, step.open, []) == Decoded([], false, [], step.open);
      assert step.events + [] == step.events;
    }
  }

  /**
   The exact range of a limited engine: an encoded frame, however it is cut, with either loop, comes to
   what it is, if it is no longer than twice the frame limit, and otherwise to nothing, not even a failure.
   */
  lemma OneFrameExactly(limits: Limits, retest: bool, s: Sent, chunks: seq<bytes>)
    requires Sendable(s) && Concat(chunks) == Encoded(s)
    ensures Seen(Run(limits, retest, Fresh, chunks)) ==
      if limits.frame == 0 || |Encoded(s)| <= 2 * limits.frame then Alone(limits, FrameOf(s)) else ([], false)
  {
    var e := Encoded(s);
    EncodedAlone(limits, s);
    assert [] + e == e;
    if limits.frame == 0 || |e| <= 2 * limits.frame {
      ShortStreamIsRoomy(limits, [], chunks);
      RoomyDecodes(limits, Fresh, chunks);
      if !retest {
        OneFrameIsQuiet(limits, Fresh, chunks);
        AsWrittenAgreesExactly(limits, Fresh, chunks);
        TraceShowsRun(limits, Fresh, Fresh, chunks);
      }
    } else {
      OversizedFrameStalls(limits, retest, chunks);
    }
  }

  /** A message or control frame in one frame is delivered if and only if its encoding is no longer than that. */
  lemma DeliveredExactly(limits: Limits, retest: bool, s: Sent, chunks: seq<bytes>)
    requires Sendable(s) && Concat(chunks) == Encoded(s) && s.fin && s.opcode != OPCODE_CONTINUATION
    ensures var stored := Stored(limits, FrameOf(s));
      var event := if IsControl(s.opcode) then Control(stored)
                   else Message(s.opcode, Cut(limits.message, stored.payload));
      Run(limits, retest, Fresh, chunks).events == [event]
      <==> limits.frame == 0 || |Encoded(s)| <= 2 * limits.frame
  {
    var stored := Stored(limits, FrameOf(s));
    OneFrameExactly(limits, retest, s, chunks);
    assert [] + stored.payload == stored.payload;
  }
}
