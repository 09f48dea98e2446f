/**
 The whole path from the XMPP server to the client, over every run of a connection together with its
 framer: bytes in any chunks, frames cut out of them, cut to the stanza buffer, written as text frames,
 and read back from the wire.
 */
module Downward {
  import opened Bytes
  import opened FrameCodec
  import opened Connection
  import opened OutputDiscipline
  import opened Framing
  import F = FramerRuns

  /** A connection and its framer, with the frames taken from it so far. */
  datatype Pair = Pair(conn: Conn, framing: F.Result)

  /** A read from the XMPP server with what the XML parser makes of it, or anything else that can happen. */
  datatype Moment = UpstreamBytes(acts: seq<F.Act>) | Else(happening: Happening)

  const Beginning := Pair(Initial, F.Result(F.NewFramer, []))

  predicate OnlyAdds(acts: seq<F.Act>) {
    forall i :: 0 <= i < |acts| ==> acts[i].AddChunk?
  }

  /** Only this module's moments bring stanzas, and reads only add. */
  predicate Proper(moments: seq<Moment>) {
    forall i :: 0 <= i < |moments| ==>
      if moments[i].UpstreamBytes? then OnlyAdds(moments[i].acts) else !moments[i].happening.UpstreamStanzas?
  }

  predicate Listening(c: Conn) { c.manager.live && !Deleted(c) }

  /** cm_readcb: everything read is added, then every frame there is goes to the client. */
  function Forward(config: Config, p: Pair, acts: seq<F.Act>): Pair {
    if !Listening(p.conn) then p else
    var r := F.Drained(F.PerformAll(p.framing, acts));
    var n := |p.framing.frames|;
    Pair(Step(config, p.conn, UpstreamStanzas(if n <= |r.frames| then r.frames[n..] else [])), r)
  }

  function Next(config: Config, p: Pair, m: Moment): Pair {
    match m
    case UpstreamBytes(acts) => Forward(config, p, acts)
    case Else(happening) => p.(conn := Step(config, p.conn, happening))
  }

  function RunPair(config: Config, p: Pair, moments: seq<Moment>): Pair
    decreases |moments|
  {
    if moments == [] then p else RunPair(config, Next(config, p, moments[0]), moments[1..])
  }

  /** What the framer is given: reads count while there is an upstream to read from. */
  function Given(config: Config, p: Pair, moments: seq<Moment>): seq<F.Act>
    decreases |moments|
  {
    if moments == [] then [] else
    (if moments[0].UpstreamBytes? && Listening(p.conn) then moments[0].acts else [])
    + Given(config, Next(config, p, moments[0]), moments[1..])
  }

  /** Frames cut to the buffer of cm_readcb. */
  function Trimmed(frames: seq<bytes>): (r: seq<bytes>)
    ensures |r| == |frames| && forall i :: 0 <= i < |r| ==> r[i] == Cut(STANZA_LIMIT, frames[i])
  {
    seq(|frames|, i requires 0 <= i < |frames| => Cut(STANZA_LIMIT, frames[i]))
  }

  lemma TrimmedCons(frame: bytes, frames: seq<bytes>)
    ensures Trimmed([frame] + frames) == [Cut(STANZA_LIMIT, frame)] + Trimmed(frames)
  {
  }

  lemma TrimmedJoin(a: seq<bytes>, b: seq<bytes>)
    ensures Trimmed(a + b) == Trimmed(a) + Trimmed(b)
  {
  }

  // ---- The connection's part ----

  lemma {:induction false} StanzasWritten(c: Conn, stanzas: seq<bytes>)
    ensures WriteStanzas(c, stanzas).history.stanzas == c.history.stanzas + Trimmed(stanzas)
    decreases |stanzas|
  {
    if stanzas == [] {
      assert c.history.stanzas + Trimmed([]) == c.history.stanzas;
    } else {
      StanzasWritten(WriteStanza(c, stanzas[0]), stanzas[1..]);
      assert [stanzas[0]] + stanzas[1..] == stanzas;
      TrimmedCons(stanzas[0], stanzas[1..]);
      Assoc(c.history.stanzas, [Cut(STANZA_LIMIT, stanzas[0])], Trimmed(stanzas[1..]));
    }
  }

  predicate SameStanzas(c: Conn, d: Conn) { d.history.stanzas == c.history.stanzas }

  lemma TurnKeepsStanzas(config: Config, c: Conn)
    ensures SameStanzas(c, LoopTurn(config, c).conn)
  {
    var s := c.engine;
    if !s.error && s.control.Some? {
      ControlKeepsStanzas(c, s.control.value, Reassembly.TakeControl(config.limits, config.retest, s));
    } else if !s.error && s.message {
      var engine := Reassembly.TakeMessage(config.limits, config.retest, s);
      DataKeepsStanzas(config, c, s.messageOpcode, s.partial, engine);
    }
  }

  lemma ControlKeepsStanzas(c: Conn, frame: Frame, engine: Reassembly.State)
    ensures SameStanzas(c, OnControl(c, frame, engine).conn)
  {
  }

  lemma DataKeepsStanzas(config: Config, c: Conn, opcode: byte, payload: bytes, engine: Reassembly.State)
    ensures SameStanzas(c, OnData(config, c, opcode, payload, engine).conn)
  {
  }

  lemma {:induction false} ProcessLoopKeepsStanzas(config: Config, c: Conn)
    ensures SameStanzas(c, ProcessLoop(config, c))
    decreases |c.engine.input|, Reassembly.Flags(c.engine)
  {
    TurnKeepsStanzas(config, c);
    TurnShrinks(config, c);
    if LoopTurn(config, c).more {
      ProcessLoopKeepsStanzas(config, LoopTurn(config, c).conn);
    }
  }

  lemma ReadKeepsStanzas(config: Config, c: Conn, chunk: bytes, outcome: Outcome, used: nat)
    ensures SameStanzas(c, ReadCb(config, c, chunk, outcome, used))
  {
    if c.ws == WS_ST_RECEIVING {
      ProcessLoopKeepsStanzas(config, Admit(config, c.(received := c.received + chunk)));
    }
  }

  lemma OtherStepsKeepStanzas(config: Config, c: Conn, happening: Happening)
    requires !happening.UpstreamStanzas?
    ensures SameStanzas(c, Step(config, c, happening))
  {
    match happening
    case ClientData(chunk, outcome, used) => ReadKeepsStanzas(config, c, chunk, outcome, used);
    case OutputSent(_) =>
    case ClientGone =>
    case UpstreamConnected =>
    case UpstreamFailed =>
  }

  // ---- The framer's part ----

  lemma {:induction false} InputJoin(a: seq<F.Act>, b: seq<F.Act>)
    ensures F.Input(a + b) == F.Input(a) + F.Input(b) && F.Calls(a + b) == F.Calls(a) + F.Calls(b)
    decreases |a|
  {
    if a == [] {
      assert a + b == b;
    } else {
      assert (a + b)[1..] == a[1..] + b;
      InputJoin(a[1..], b);
      if a[0].AddChunk? {
        Assoc(a[0].chunk, F.Input(a[1..]), F.Input(b));
        Assoc(a[0].markup, F.Calls(a[1..]), F.Calls(b));
      }
    }
  }

  lemma {:induction false} TimelyJoin(length: nat, a: seq<F.Act>, b: seq<F.Act>)
    requires F.Timely(length, a + b)
    ensures F.Timely(length, a) && F.Timely(length + |F.Input(a)|, b)
    decreases |a|
  {
    if a == [] {
      assert a + b == b;
    } else {
      assert (a + b)[1..] == a[1..] + b && (a + b)[0] == a[0];
      TimelyJoin(if a[0].AddChunk? then length + |a[0].chunk| else length, a[1..], b);
    }
  }

  lemma {:induction false} AddsTakeNothing(r: F.Result, acts: seq<F.Act>)
    requires OnlyAdds(acts)
    ensures F.PerformAll(r, acts).frames == r.frames
    decreases |acts|
  {
    if acts != [] {
      AddsTakeNothing(F.Perform(r, acts[0]), acts[1..]);
    }
  }

  lemma {:induction false} DrainedExtends(r: F.Result)
    ensures r.frames <= F.Drained(r).frames
    decreases |r.framer.queue|
  {
    if F.Takeable(r.framer) {
      DrainedExtends(F.Perform(r, F.Act.GetFrame));
    }
  }

  // ---- Both together ----

  /** After these bytes and handler calls the framer is aligned and nothing is left to take. */
  predicate Drawn(r: F.Result, stream: bytes, markup: seq<Markup>) {
    F.Aligned(r, stream, markup) && r.framer.queue == [] && F.EndBy(markup, |stream|)
  }

  /** Every frame taken has been written. */
  predicate InStep(p: Pair) {
    p.conn.history.stanzas == Trimmed(p.framing.frames)
  }

  lemma DrawnOn(d: Document, r: F.Result, stream: bytes, markup: seq<Markup>, acts: seq<F.Act>)
    requires F.WellFormed(d) && Drawn(r, stream, markup) && F.Timely(|stream|, acts)
    requires markup + F.Calls(acts) <= DocumentMarkup(d)
    ensures Drawn(F.Drained(F.PerformAll(r, acts)), stream + F.Input(acts), markup + F.Calls(acts))
  {
    F.RunAligned(d, r, stream, markup, acts);
    F.DrainTakesAll(F.PerformAll(r, acts), stream + F.Input(acts), markup + F.Calls(acts));
  }

  lemma StanzasSent(config: Config, c: Conn, stanzas: seq<bytes>)
    requires Listening(c)
    ensures Step(config, c, UpstreamStanzas(stanzas)).history.stanzas == c.history.stanzas + Trimmed(stanzas)
  {
    StanzasWritten(c, stanzas);
  }

  lemma ForwardInStep(config: Config, p: Pair, acts: seq<F.Act>)
    requires InStep(p) && OnlyAdds(acts)
    ensures InStep(Forward(config, p, acts))
  {
    if Listening(p.conn) {
      var added := F.PerformAll(p.framing, acts);
      var before, after := p.framing.frames, F.Drained(added).frames;
      AddsTakeNothing(p.framing, acts);
      DrainedExtends(added);
      StanzasSent(config, p.conn, after[|before|..]);
      TrimmedJoin(before, after[|before|..]);
      assert after == before + after[|before|..];
    }
  }

  lemma {:induction false} RunInStep(config: Config, p: Pair, moments: seq<Moment>)
    requires InStep(p) && Proper(moments)
    ensures InStep(RunPair(config, p, moments))
    decreases |moments|
  {
    if moments != [] {
      match moments[0] {
        case UpstreamBytes(acts) => ForwardInStep(config, p, acts);
        case Else(happening) => OtherStepsKeepStanzas(config, p.conn, happening);
      }
      RunInStep(config, Next(config, p, moments[0]), moments[1..]);
    }
  }

  lemma {:induction false} RunDrawn(
      config: Config, d: Document, p: Pair, stream: bytes, markup: seq<Markup>, moments: seq<Moment>)
    requires F.WellFormed(d) && Drawn(p.framing, stream, markup)
    requires var acts := Given(config, p, moments);
      F.Timely(|stream|, acts) && markup + F.Calls(acts) <= DocumentMarkup(d)
    ensures var acts := Given(config, p, moments);
      Drawn(RunPair(config, p, moments).framing, stream + F.Input(acts), markup + F.Calls(acts))
    decreases |moments|
  {
    if moments == [] {
      assert stream + [] == stream && markup + [] == markup;
    } else {
      var next := Next(config, p, moments[0]);
      var acts := if moments[0].UpstreamBytes? && Listening(p.conn) then moments[0].acts else [];
      var rest := Given(config, next, moments[1..]);
      GivenSplits(stream, markup, acts, rest);
      assert markup + F.Calls(acts) <= DocumentMarkup(d);
      if acts == [] {
        assert stream + [] == stream && markup + [] == markup;
      }
      if moments[0].UpstreamBytes? && Listening(p.conn) {
        DrawnOn(d, p.framing, stream, markup, acts);
      }
      RunDrawn(config, d, next, stream + F.Input(acts), markup + F.Calls(acts), moments[1..]);
    }
  }

  lemma GivenSplits(stream: bytes, markup: seq<Markup>, acts: seq<F.Act>, rest: seq<F.Act>)
    requires F.Timely(|stream|, acts + rest)
    ensures F.Timely(|stream|, acts) && F.Timely(|stream + F.Input(acts)|, rest)
    ensures stream + F.Input(acts + rest) == stream + F.Input(acts) + F.Input(rest)
    ensures markup + F.Calls(acts + rest) == markup + F.Calls(acts) + F.Calls(rest)
  {
    InputJoin(acts, rest);
    TimelyJoin(|stream|, acts, rest);
    Assoc(stream, F.Input(acts), F.Input(rest));
    Assoc(markup, F.Calls(acts), F.Calls(rest));
  }

  /** The payloads of the text frames among these. */
  function TextPayloads(frames: seq<Frame>): seq<bytes> {
    if frames == [] then [] else
    var last := frames[|frames| - 1];
    TextPayloads(frames[..|frames| - 1]) + (if last.opcode == OPCODE_TEXT then [last.payload] else [])
  }

  lemma {:induction false} IntendedTexts(frames: seq<OutFrame>)
    requires OnlyOurs(frames)
    ensures TextPayloads(IntendedAll(frames)) == Payloads(frames, OPCODE_TEXT)
    decreases |frames|
  {
    if frames != [] {
      var before, f := frames[..|frames| - 1], frames[|frames| - 1];
      IntendedTexts(before);
      OpcodeNibble(f.opcode);
      var all := IntendedAll(frames);
      assert all[..|all| - 1] == IntendedAll(before);
    }
  }

  lemma {:induction false} PairIsRun(config: Config, p: Pair, moments: seq<Moment>) returns (happenings: seq<Happening>)
    ensures RunPair(config, p, moments).conn == RunAll(config, p.conn, happenings)
    decreases |moments|
  {
    if moments == [] {
      return [];
    }
    var next := Next(config, p, moments[0]);
    var rest := PairIsRun(config, next, moments[1..]);
    if moments[0].Else? {
      happenings := [moments[0].happening] + rest;
    } else if Listening(p.conn) {
      var r, n := F.Drained(F.PerformAll(p.framing, moments[0].acts)), |p.framing.frames|;
      happenings := [UpstreamStanzas(if n <= |r.frames| then r.frames[n..] else [])] + rest;
    } else {
      happenings := rest;
    }
  }

  /** The documents' frames that have reached the client's side of the connection. */
  predicate FramesSent(d: Document, p: Pair, given: seq<F.Act>) {
    && p.framing.frames <= Frames(d)
    && p.conn.history.stanzas == Trimmed(p.framing.frames)
    && (F.Calls(given) == DocumentMarkup(d) ==> p.framing.frames == Frames(d))
  }

  lemma FramesOfRun(config: Config, d: Document, moments: seq<Moment>)
    requires F.WellFormed(d) && Proper(moments)
    requires var acts := Given(config, Beginning, moments);
      F.Timely(0, acts) && F.Input(acts) <= DocumentBytes(d) && F.Calls(acts) <= DocumentMarkup(d)
    ensures FramesSent(d, RunPair(config, Beginning, moments), Given(config, Beginning, moments))
  {
    var acts, p := Given(config, Beginning, moments), RunPair(config, Beginning, moments);
    var stream, markup := F.Input(acts), F.Calls(acts);
    assert [] + stream == stream && [] + markup == markup;
    RunInStep(config, Beginning, moments);
    RunDrawn(config, d, Beginning, [], [], moments);
    F.FirstFrames(d, p.framing, stream, markup);
  }

  predicate AllShort(payloads: seq<bytes>) {
    forall i :: 0 <= i < |payloads| ==> |payloads[i]| <= 0xffff
  }

  lemma AllShortLast(payloads: seq<bytes>, last: bytes)
    ensures AllShort(payloads + [last]) <==> AllShort(payloads) && |last| <= 0xffff
  {
    if AllShort(payloads + [last]) {
      assert (payloads + [last])[|payloads|] == last;
      assert forall i :: 0 <= i < |payloads| ==> (payloads + [last])[i] == payloads[i];
    }
  }

  /** Of frames of our three kinds, those of each kind must be short. */
  lemma {:induction false} EncodableByKind(frames: seq<OutFrame>)
    requires OnlyOurs(frames)
    ensures Encodable(frames) <==>
      && AllShort(Payloads(frames, OPCODE_TEXT)) && AllShort(Payloads(frames, OPCODE_PONG))
      && AllShort(Payloads(frames, OPCODE_CLOSE))
    decreases |frames|
  {
    if frames != [] {
      var before, f := frames[..|frames| - 1], frames[|frames| - 1];
      EncodableByKind(before);
      EncodableLast(before, f);
      assert before + [f] == frames;
      PayloadsLast(before, f, OPCODE_TEXT);
      PayloadsLast(before, f, OPCODE_PONG);
      PayloadsLast(before, f, OPCODE_CLOSE);
    }
  }

  lemma EncodableLast(before: seq<OutFrame>, f: OutFrame)
    ensures Encodable(before + [f]) <==> Encodable(before) && |f.payload| <= 0xffff
  {
    if Encodable(before + [f]) {
      assert (before + [f])[|before|] == f;
      assert forall i :: 0 <= i < |before| ==> (before + [f])[i] == before[i];
    }
  }

  lemma PayloadsLast(before: seq<OutFrame>, f: OutFrame, opcode: byte)
    ensures AllShort(Payloads(before + [f], opcode)) <==>
      AllShort(Payloads(before, opcode)) && (f.opcode == opcode ==> |f.payload| <= 0xffff)
  {
    assert (before + [f])[..|before|] == before;
    AllShortLast(Payloads(before, opcode), f.payload);
    assert Payloads(before, opcode) + [] == Payloads(before, opcode);
  }

  /** A frame is short if and only if it is after the stanza buffer has cut it, which then has not happened. */
  lemma TrimmedShort(frames: seq<bytes>)
    ensures AllShort(Trimmed(frames)) <==> AllShort(frames)
    ensures AllShort(frames) ==> Trimmed(frames) == frames
  {
    if AllShort(Trimmed(frames)) {
      forall i | 0 <= i < |frames|
        ensures |frames[i]| <= 0xffff
      {
        assert |Trimmed(frames)[i]| <= 0xffff;
      }
    }
  }

  /** What the client finds behind the handshake response. */
  function Received(c: Conn): bytes {
    var all := c.history.onWire + c.outgoing;
    if |c.history.response| <= |all| then all[|c.history.response|..] else []
  }

  /**
   Over every run: the text frames written to the client are the document's frames, from the first on, in
   order, each cut to the stanza buffer; once the parser has reported the whole document they are all of its
   frames. The client decodes every frame as it was meant if and only if no frame of the document taken so
   far, no Ping answered and no Close written has more than 65535 bytes; and then the texts it decodes are
   the document's frames themselves.
   */
  lemma FromServerToClient(config: Config, d: Document, moments: seq<Moment>)
    requires F.WellFormed(d) && Proper(moments)
    requires var acts := Given(config, Beginning, moments);
      F.Timely(0, acts) && F.Input(acts) <= DocumentBytes(d) && F.Calls(acts) <= DocumentMarkup(d)
    ensures var p, acts := RunPair(config, Beginning, moments), Given(config, Beginning, moments);
      var h, frames, decoded := p.conn.history, p.framing.frames, ParseAll(Received(p.conn));
      var meant := decoded == Parsing(IntendedAll(h.frames), [], false);
      && frames <= Frames(d) && (F.Calls(acts) == DocumentMarkup(d) ==> frames == Frames(d))
      && Payloads(h.frames, OPCODE_TEXT) == Trimmed(frames)
      && (meant <==> AllShort(frames) && AllShort(Taken(h.consumed, OPCODE_PING))
                     && AllShort(Payloads(h.frames, OPCODE_CLOSE)))
      && (meant ==> TextPayloads(decoded.frames) == frames)
  {
    var happenings := PairIsRun(config, Beginning, moments);
    var p := RunPair(config, Beginning, moments);
    EveryRunIsTidy(config, happenings);
    FramesOfRun(config, d, moments);
    EncodableByKind(p.conn.history.frames);
    TrimmedShort(p.framing.frames);
    IntendedTexts(p.conn.history.frames);
  }
}
