/**
 What a connection writes to its client, over every run: after the handshake response whole frames
 only, a Pong for every Ping taken, the upstream stanzas in order, and at most one Close, last.
 */
module OutputDiscipline {
  import opened Bytes
  import opened FrameCodec
  import opened Reassembly
  import opened Connection
  import opened Lifecycle

  /** The bytes of the frames, in order. */
  function Wire(frames: seq<OutFrame>): bytes {
    if frames == [] then []
    else Wire(frames[..|frames| - 1]) + WriteFrame(frames[|frames| - 1].opcode, frames[|frames| - 1].payload)
  }

  /** The payloads of the frames with this opcode. */
  function Payloads(frames: seq<OutFrame>, opcode: byte): seq<bytes> {
    if frames == [] then [] else
    var f := frames[|frames| - 1];
    Payloads(frames[..|frames| - 1], opcode) + (if f.opcode == opcode then [f.payload] else [])
  }

  /** The payloads of the control frames with this opcode among the events taken. */
  function Taken(events: seq<Event>, opcode: byte): seq<bytes> {
    if events == [] then [] else
    var e := events[|events| - 1];
    Taken(events[..|events| - 1], opcode) + (if e.Control? && e.frame.opcode == opcode then [e.frame.payload] else [])
  }

  predicate IsClose(e: Event) { e.Control? && e.frame.opcode == OPCODE_CLOSE }

  /** A Close frame has been written if and only if closing was initiated, and it is the last frame. */
  predicate CloseLast(frames: seq<OutFrame>, closing: bool) {
    && (forall i :: 0 <= i < |frames| - 1 ==> frames[i].opcode != OPCODE_CLOSE)
    && (closing <==> frames != [] && frames[|frames| - 1].opcode == OPCODE_CLOSE)
  }

  predicate OnlyOurs(frames: seq<OutFrame>) {
    forall i :: 0 <= i < |frames| ==>
      frames[i].opcode == OPCODE_TEXT || frames[i].opcode == OPCODE_PONG || frames[i].opcode == OPCODE_CLOSE
  }

  /** A Close frame is the last thing taken from the client, and it is answered. */
  predicate CloseAnswered(consumed: seq<Event>, closing: bool) {
    && (forall i :: 0 <= i < |consumed| - 1 ==> !IsClose(consumed[i]))
    && (consumed != [] && IsClose(consumed[|consumed| - 1]) ==> closing)
  }

  /** Whole frames behind the response, the stanzas among them in order. */
  predicate Framed(c: Conn) {
    var h := c.history;
    && h.onWire + c.outgoing == h.response + Wire(h.frames)
    && (c.ws == WS_ST_START ==> h.frames == [])
    && CloseLast(h.frames, c.wsClosing)
    && OnlyOurs(h.frames)
    && Payloads(h.frames, OPCODE_TEXT) == h.stanzas
  }

  /** What was taken from the client has been answered. */
  predicate Answered(frames: seq<OutFrame>, consumed: seq<Event>, closing: bool) {
    CloseAnswered(consumed, closing) && Payloads(frames, OPCODE_PONG) == Taken(consumed, OPCODE_PING)
  }

  predicate Tidy(c: Conn) {
    Framed(c) && Answered(c.history.frames, c.history.consumed, c.wsClosing)
  }

  // ---- One frame, one event more ----

  lemma WireLast(frames: seq<OutFrame>, f: OutFrame)
    ensures Wire(frames + [f]) == Wire(frames) + WriteFrame(f.opcode, f.payload)
    ensures forall opcode ::
      Payloads(frames + [f], opcode) == Payloads(frames, opcode) + if f.opcode == opcode then [f.payload] else []
  {
    assert (frames + [f])[..|frames|] == frames;
  }

  lemma TakenLast(events: seq<Event>, e: Event)
    ensures forall opcode ::
      Taken(events + [e], opcode)
      == Taken(events, opcode) + if e.Control? && e.frame.opcode == opcode then [e.frame.payload] else []
  {
    assert (events + [e])[..|events|] == events;
  }

  /** One of our frames, written while no Close has been. */
  lemma WriteOne(c: Conn, opcode: byte, payload: bytes)
    requires Framed(c) && !c.wsClosing && c.ws == WS_ST_RECEIVING
    requires opcode == OPCODE_TEXT || opcode == OPCODE_PONG || opcode == OPCODE_CLOSE
    ensures var d := Write(c, opcode, payload); var h := d.history;
      && h == c.history.(frames := c.history.frames + [OutFrame(opcode, payload)])
      && h.onWire + d.outgoing == h.response + Wire(h.frames)
      && CloseLast(h.frames, opcode == OPCODE_CLOSE) && OnlyOurs(h.frames)
      && Payloads(h.frames, OPCODE_PONG)
        == Payloads(c.history.frames, OPCODE_PONG) + (if opcode == OPCODE_PONG then [payload] else [])
      && Payloads(h.frames, OPCODE_TEXT)
        == Payloads(c.history.frames, OPCODE_TEXT) + (if opcode == OPCODE_TEXT then [payload] else [])
  {
    var h := c.history;
    OpcodeNibble(opcode);
    WireLast(h.frames, OutFrame(opcode, payload));
    Assoc(h.onWire, c.outgoing, WriteFrame(opcode, payload));
    Assoc(h.response, Wire(h.frames), WriteFrame(opcode, payload));
  }

  // ---- Parts of callbacks ----

  /** Nothing the output depends on has changed. */
  predicate SameOutput(c: Conn, d: Conn) {
    && d.outgoing == c.outgoing && d.wsClosing == c.wsClosing
    && d.history.(callbacks := [], delivered := [], upstream := [], offered := [], admitted := [])
    == c.history.(callbacks := [], delivered := [], upstream := [], offered := [], admitted := [])
    && (d.ws == WS_ST_START ==> c.ws == WS_ST_START)
  }

  lemma CloseTidy(c: Conn)
    requires Tidy(c)
    ensures Tidy(Close(c))
  {
    assert SameOutput(c, Close(c));
  }

  lemma HandOverTidy(config: Config, c: Conn, payload: bytes)
    requires Tidy(c)
    ensures Tidy(OnMessage(config, Fire(c, WSCB_MESSAGE(payload)), payload))
  {
    assert SameOutput(c, OnMessage(config, Fire(c, WSCB_MESSAGE(payload)), payload));
  }

  /** The Close frame goes behind everything else and changes no other tally. */
  lemma InitiateCloseFramed(c: Conn, status: nat, reason: bytes)
    requires Framed(c) && status < 0x1_0000 && !c.wsClosing && c.ws == WS_ST_RECEIVING
    ensures var d := InitiateClose(c, status, reason);
      && Framed(d) && d.wsClosing && d.history.consumed == c.history.consumed
      && d.history.frames == c.history.frames + [OutFrame(OPCODE_CLOSE, ClosePayload(status, reason))]
      && Payloads(d.history.frames, OPCODE_PONG) == Payloads(c.history.frames, OPCODE_PONG)
  {
    WriteOne(c, OPCODE_CLOSE, ClosePayload(status, reason));
    assert Payloads(c.history.frames, OPCODE_PONG) + [] == Payloads(c.history.frames, OPCODE_PONG);
    assert Payloads(c.history.frames, OPCODE_TEXT) + [] == Payloads(c.history.frames, OPCODE_TEXT);
  }

  lemma AnswerClose(c: Conn, frame: Frame, engine: State, status: nat, reason: bytes)
    requires Tidy(c) && !c.wsClosing && c.ws == WS_ST_RECEIVING && frame.opcode == OPCODE_CLOSE && status < 0x1_0000
    ensures Tidy(InitiateClose(Consume(c, Control(frame), engine), status, reason))
  {
    InitiateCloseFramed(Consume(c, Control(frame), engine), status, reason);
    TakenLast(c.history.consumed, Control(frame));
    assert Taken(c.history.consumed, OPCODE_PING) + [] == Taken(c.history.consumed, OPCODE_PING);
  }

  lemma AnswerPing(c: Conn, frame: Frame, engine: State)
    requires Tidy(c) && !c.wsClosing && c.ws == WS_ST_RECEIVING && frame.opcode == OPCODE_PING
    ensures Tidy(Write(Consume(c, Control(frame), engine), OPCODE_PONG, frame.payload))
  {
    WriteOne(Consume(c, Control(frame), engine), OPCODE_PONG, frame.payload);
    TakenLast(c.history.consumed, Control(frame));
    assert Payloads(c.history.frames, OPCODE_TEXT) + [] == Payloads(c.history.frames, OPCODE_TEXT);
  }

  lemma TakeOther(c: Conn, e: Event, engine: State)
    requires Tidy(c) && !c.wsClosing
    requires e.Control? ==> e.frame.opcode != OPCODE_PING && e.frame.opcode != OPCODE_CLOSE
    requires c.ws == WS_ST_RECEIVING
    ensures Tidy(Consume(c, e, engine))
  {
    TakenLast(c.history.consumed, e);
    assert Taken(c.history.consumed, OPCODE_PING) + [] == Taken(c.history.consumed, OPCODE_PING);
  }

  lemma OnDataTidy(config: Config, c: Conn, opcode: byte, payload: bytes, engine: State)
    requires Tidy(c) && !c.wsClosing && c.ws == WS_ST_RECEIVING
    ensures Tidy(OnData(config, c, opcode, payload, engine).conn)
  {
    var d := Consume(c, Message(opcode, payload), engine);
    TakeOther(c, Message(opcode, payload), engine);
    HandOverTidy(config, d, payload);
    CloseTidy(d);
  }

  lemma OnControlTidy(c: Conn, frame: Frame, engine: State)
    requires Tidy(c) && !c.wsClosing && c.ws == WS_ST_RECEIVING
    ensures Tidy(OnControl(c, frame, engine).conn)
  {
    if frame.opcode == OPCODE_CLOSE {
      AnswerClose(c, frame, engine, CloseReply(frame.payload).0, CloseReply(frame.payload).1);
    } else if frame.opcode == OPCODE_PING {
      AnswerPing(c, frame, engine);
    } else {
      TakeOther(c, Control(frame), engine);
    }
  }

  lemma TurnTidy(config: Config, c: Conn)
    requires Tidy(c) && !c.wsClosing && c.ws == WS_ST_RECEIVING
    ensures Tidy(LoopTurn(config, c).conn)
  {
    var s := c.engine;
    if s.error {
      CloseTidy(c);
    } else if s.control.Some? {
      OnControlTidy(c, s.control.value, TakeControl(config.limits, config.retest, s));
    } else if s.message {
      OnDataTidy(config, c, s.messageOpcode, s.partial, TakeMessage(config.limits, config.retest, s));
    }
  }

  lemma {:induction false} ProcessLoopTidy(config: Config, c: Conn)
    requires Sound(c) && Tidy(c) && c.ws == WS_ST_RECEIVING
    ensures Tidy(ProcessLoop(config, c))
    decreases |c.engine.input|, Flags(c.engine)
  {
    TurnTidy(config, c);
    TurnAdvances(config, c);
    TurnShrinks(config, c);
    if LoopTurn(config, c).more {
      ProcessLoopTidy(config, LoopTurn(config, c).conn);
    }
  }

  lemma {:induction false} WriteStanzasTidy(c: Conn, stanzas: seq<bytes>)
    requires Tidy(c) && c.ws == WS_ST_RECEIVING && !c.wsClosing
    ensures Tidy(WriteStanzas(c, stanzas))
    decreases |stanzas|
  {
    if stanzas != [] {
      var stanza := Cut(STANZA_LIMIT, stanzas[0]);
      WriteOne(c, OPCODE_TEXT, stanza);
      assert Payloads(c.history.frames, OPCODE_PONG) + [] == Payloads(c.history.frames, OPCODE_PONG);
      WriteStanzasTidy(WriteStanza(c, stanzas[0]), stanzas[1..]);
    }
  }

  lemma ConcludeTidy(c: Conn, outcome: Outcome)
    requires Tidy(c) && c.ws == WS_ST_START
    ensures Tidy(Conclude(c, outcome))
  {
    if outcome.Malformed? {
      CloseTidy(c);
    } else if outcome.Refused? {
      RespondTidy(c, outcome.response);
      CloseTidy(Respond(c, outcome.response));
    } else if outcome.Upgraded? {
      RespondTidy(c, outcome.response);
      assert SameOutput(Respond(c, outcome.response), Conclude(c, outcome));
    }
  }

  lemma RespondTidy(c: Conn, response: bytes)
    requires Tidy(c) && c.ws == WS_ST_START
    ensures Tidy(Respond(c, response))
  {
    assert c.history.response + [] == c.history.response;
    assert c.history.response + response + [] == c.history.response + response;
    Assoc(c.history.onWire, c.outgoing, response);
  }

  lemma WriteCbTidy(c: Conn, count: nat)
    requires Tidy(c)
    ensures Tidy(WriteCb(c, count))
  {
    var n := if count <= |c.outgoing| then count else |c.outgoing|;
    assert c.outgoing == c.outgoing[..n] + c.outgoing[n..];
    Assoc(c.history.onWire, c.outgoing[..n], c.outgoing[n..]);
  }

  // ---- Whole runs ----

  lemma ReadCbTidy(config: Config, c: Conn, chunk: bytes, outcome: Outcome, used: nat)
    requires Sound(c) && Tidy(c)
    ensures Tidy(ReadCb(config, c, chunk, outcome, used))
  {
    var input := c.received + chunk;
    if c.ws == WS_ST_START {
      ConcludeTidy(c.(received := if used <= |input| then input[used..] else []), outcome);
    } else if c.ws == WS_ST_RECEIVING {
      ProcessLoopTidy(config, Admit(config, c.(received := input)));
    }
  }

  lemma FailedTidy(c: Conn)
    requires Sound(c) && Tidy(c) && c.manager.live
    ensures Tidy(CloseManager(OnClosed(c)))
  {
    InitiateCloseFramed(c.(cm := CM_ST_CLOSED, cmClosed := true), 1001, UPSTREAM_GONE);
  }

  lemma StepTidy(config: Config, c: Conn, happening: Happening)
    requires Sound(c) && Tidy(c)
    ensures Tidy(Step(config, c, happening))
  {
    if !Deleted(c) {
      match happening
      case ClientData(chunk, outcome, used) => ReadCbTidy(config, c, chunk, outcome, used);
      case OutputSent(count) => WriteCbTidy(c, count);
      case ClientGone => CloseTidy(c);
      case UpstreamStanzas(stanzas) =>
        if c.manager.live {
          WriteStanzasTidy(c, stanzas);
        }
      case UpstreamConnected =>
      case UpstreamFailed =>
        if c.manager.live {
          FailedTidy(c);
        }
    }
  }

  lemma {:induction false} RunTidy(config: Config, c: Conn, happenings: seq<Happening>)
    requires Sound(c) && Tidy(c)
    ensures Tidy(RunAll(config, c, happenings))
    decreases |happenings|
  {
    if happenings != [] {
      StepTidy(config, c, happenings[0]);
      StepAdvances(config, c, happenings[0]);
      RunTidy(config, Step(config, c, happenings[0]), happenings[1..]);
    }
  }

  // ---- What the client can decode ----

  function IntendedAll(frames: seq<OutFrame>): (r: seq<Frame>)
    ensures |r| == |frames| && forall i :: 0 <= i < |r| ==> r[i] == Intended(frames[i].opcode, frames[i].payload)
  {
    if frames == [] then []
    else IntendedAll(frames[..|frames| - 1]) + [Intended(frames[|frames| - 1].opcode, frames[|frames| - 1].payload)]
  }

  lemma {:induction false} ParseAppend(b: bytes, c: bytes)
    requires !ParseAll(b).broken && ParseAll(b).rest == []
    ensures ParseAll(b + c) == ParseAll(c).(frames := ParseAll(b).frames + ParseAll(c).frames)
    decreases |b|
  {
    if b == [] {
      assert b + c == c;
    } else {
      var n := DecodeFrame(b).consumed;
      VerdictStable(b, c);
      assert (b + c)[n..] == b[n..] + c;
      ParseAppend(b[n..], c);
      Assoc([DecodeFrame(b).frame], ParseAll(b[n..]).frames, ParseAll(c).frames);
    }
  }

  /** No payload is longer than the encoder can announce. */
  predicate Encodable(frames: seq<OutFrame>) {
    forall i :: 0 <= i < |frames| ==> |frames[i].payload| <= 0xffff
  }

  lemma {:induction false} EncodableParses(frames: seq<OutFrame>)
    requires Encodable(frames)
    ensures ParseAll(Wire(frames)) == Parsing(IntendedAll(frames), [], false)
    decreases |frames|
  {
    if frames != [] {
      var before, f := frames[..|frames| - 1], frames[|frames| - 1];
      EncodableParses(before);
      OneParses(f);
      ParseAppend(Wire(before), WriteFrame(f.opcode, f.payload));
    }
  }

  lemma OneParses(f: OutFrame)
    requires |f.payload| <= 0xffff
    ensures ParseAll(WriteFrame(f.opcode, f.payload)) == Parsing([Intended(f.opcode, f.payload)], [], false)
  {
    var e := WriteFrame(f.opcode, f.payload);
    WriteFrameRoundTrip(f.opcode, f.payload, []);
    assert e + [] == e && e[|e|..] == [];
    assert ParseAll([]) == Parsing([], [], false);
  }

  /** The first frame read from an oversized one and whatever follows it is not the one that was meant. */
  lemma LongFrameMissed(f: OutFrame, x: bytes)
    requires |f.payload| > 0xffff
    ensures !([Intended(f.opcode, f.payload)] <= ParseAll(WriteFrame(f.opcode, f.payload) + x).frames)
  {
    var b := WriteFrame(f.opcode, f.payload) + x;
    WrittenLengthRead(f.opcode, f.payload, x);
    MisreadDiffers(|f.payload|);
    ReadyPayloadLength(b);
    if DecodeFrame(b).Ready? {
      assert ParseAll(b).frames[0] == DecodeFrame(b).frame;
    }
  }

  /** From the first oversized frame on the client loses the thread, whatever is written behind it. */
  lemma {:induction false} LongFramesMissed(frames: seq<OutFrame>, x: bytes)
    requires !Encodable(frames)
    ensures !(IntendedAll(frames) <= ParseAll(Wire(frames) + x).frames)
    decreases |frames|
  {
    var before, f := frames[..|frames| - 1], frames[|frames| - 1];
    var e := WriteFrame(f.opcode, f.payload);
    Assoc(Wire(before), e, x);
    assert IntendedAll(frames) == IntendedAll(before) + [Intended(f.opcode, f.payload)];
    if Encodable(before) {
      EncodableParses(before);
      ParseAppend(Wire(before), e + x);
      LongFrameMissed(f, x);
      PrefixBehind(IntendedAll(before), [Intended(f.opcode, f.payload)], ParseAll(e + x).frames);
    } else {
      LongFramesMissed(before, e + x);
    }
  }

  lemma PrefixBehind(a: seq<Frame>, b: seq<Frame>, c: seq<Frame>)
    ensures a + b <= a + c ==> b <= c
  {
    if a + b <= a + c {
      assert forall i :: 0 <= i < |b| ==> (a + b)[|a| + i] == b[i] && (a + c)[|a| + i] == c[i];
    }
  }

  /** The client decodes the frames that were written if and only if none is longer than the encoder can announce. */
  lemma WireParses(frames: seq<OutFrame>)
    ensures ParseAll(Wire(frames)) == Parsing(IntendedAll(frames), [], false) <==> Encodable(frames)
  {
    if Encodable(frames) {
      EncodableParses(frames);
    } else {
      LongFramesMissed(frames, []);
      assert Wire(frames) + [] == Wire(frames);
    }
  }

  /**
   The output of every run. Behind the handshake response lie the frames that were written: Pongs
   are the Pings taken, payload for payload; texts are the upstream stanzas; a Close can only be the
   last frame, and nothing is taken from the client behind its own Close. The client decodes exactly
   those frames, with no byte left over, if and only if no payload is longer than 65535 bytes.
   */
  lemma EveryRunIsTidy(config: Config, happenings: seq<Happening>)
    ensures var c := RunAll(config, Initial, happenings); var h := c.history;
      && h.onWire + c.outgoing == h.response + Wire(h.frames)
      && Payloads(h.frames, OPCODE_PONG) == Taken(h.consumed, OPCODE_PING)
      && Payloads(h.frames, OPCODE_TEXT) == h.stanzas
      && OnlyOurs(h.frames) && CloseLast(h.frames, c.wsClosing) && CloseAnswered(h.consumed, c.wsClosing)
      && (ParseAll((h.onWire + c.outgoing)[|h.response|..]) == Parsing(IntendedAll(h.frames), [], false)
          <==> Encodable(h.frames))
  {
    RunTidy(config, Initial, happenings);
    var h := RunAll(config, Initial, happenings).history;
    Halves(h.response, Wire(h.frames));
    WireParses(h.frames);
  }

  /** When draining deletes the connection, the client has been sent everything, ending in a Close frame. */
  lemma GracefulDeletion(config: Config, happenings: seq<Happening>, count: nat)
    requires var c := RunAll(config, Initial, happenings); !Deleted(c) && Deleted(WriteCb(c, count))
    ensures var h := WriteCb(RunAll(config, Initial, happenings), count).history;
      && h.onWire == h.response + Wire(h.frames)
      && h.frames != [] && h.frames[|h.frames| - 1].opcode == OPCODE_CLOSE
  {
    var c := RunAll(config, Initial, happenings);
    RunTidy(config, Initial, happenings);
    RunAdvances(config, Initial, happenings);
    WriteCbTidy(c, count);
    var d := WriteCb(c, count);
    assert d.history.onWire + [] == d.history.onWire;
  }

  /** The answer to a Close frame is its own payload, unless it has no status or status zero. */
  lemma CloseEchoes(payload: bytes)
    ensures var reply := CloseReply(payload);
      ClosePayload(reply.0, reply.1) ==
        if |payload| < 2 then Big16(1001)
        else if payload[0] == 0 && payload[1] == 0 then []
        else payload
  {
    if |payload| >= 2 {
      var status := payload[0] as nat * 256 + payload[1] as nat;
      Big16Inverse(payload[0], payload[1]);
      SameOctet(payload[0], 0);
      SameOctet(payload[1], 0);
      assert payload == [payload[0], payload[1]] + payload[2..];
    }
  }
}
