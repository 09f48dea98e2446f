/**
 How a connection reacts to what it takes, over every run: text messages fire WSCB_MESSAGE with their
 payload, a binary message closes the socket and is the last thing taken, and WSCB_CONNECTED fires
 twice or never.
 */
module Reactions {
  import opened Bytes
  import opened FrameCodec
  import opened Reassembly
  import opened Connection
  import opened Lifecycle
  import opened Forwarding

  predicate IsBinary(e: Event) { e.Message? && e.opcode == OPCODE_BINARY }

  /** A binary message is the last thing taken, and it closes the socket. */
  predicate BinaryLast(consumed: seq<Event>, ws: WsState) {
    && (forall i :: 0 <= i < |consumed| - 1 ==> !IsBinary(consumed[i]))
    && (consumed != [] && IsBinary(consumed[|consumed| - 1]) ==> ws == WS_ST_CLOSED)
  }

  /** The payloads that WSCB_MESSAGE was fired with. */
  function Heard(callbacks: seq<Callback>): seq<bytes> {
    if callbacks == [] then [] else
    var last := callbacks[|callbacks| - 1];
    Heard(callbacks[..|callbacks| - 1]) + (if last.WSCB_MESSAGE? then [last.payload] else [])
  }

  /** How often WSCB_CONNECTED was fired. */
  function Connects(callbacks: seq<Callback>): nat {
    if callbacks == [] then 0 else
    Connects(callbacks[..|callbacks| - 1]) + (if callbacks[|callbacks| - 1] == WSCB_CONNECTED then 1 else 0)
  }

  predicate Reacted(c: Conn) {
    && BinaryLast(c.history.consumed, c.ws)
    && Heard(c.history.callbacks) == Texts(c.history.consumed)
    && Connects(c.history.callbacks) in {0, 2}
    && (c.ws == WS_ST_START ==> Connects(c.history.callbacks) == 0)
    && (c.ws == WS_ST_RECEIVING ==> Connects(c.history.callbacks) == 2)
  }

  lemma CallbackLast(callbacks: seq<Callback>, last: Callback)
    ensures Heard(callbacks + [last]) == Heard(callbacks) + (if last.WSCB_MESSAGE? then [last.payload] else [])
    ensures Connects(callbacks + [last]) == Connects(callbacks) + (if last == WSCB_CONNECTED then 1 else 0)
  {
    assert (callbacks + [last])[..|callbacks|] == callbacks;
  }

  /** Nothing taken and nothing heard, and the socket no more open than before. */
  predicate Unmoved(c: Conn, d: Conn) {
    && d.history.consumed == c.history.consumed
    && Heard(d.history.callbacks) == Heard(c.history.callbacks)
    && Connects(d.history.callbacks) == Connects(c.history.callbacks)
    && Rank(c.ws) <= Rank(d.ws) && (d.ws == WS_ST_RECEIVING ==> c.ws == WS_ST_RECEIVING)
  }

  lemma UnmovedReacts(c: Conn, d: Conn)
    requires Reacted(c) && Unmoved(c, d)
    ensures Reacted(d)
  {
  }

  lemma ReleaseUnmoved(c: Conn)
    ensures Unmoved(c, ReleaseManager(c)) && ReleaseManager(c).ws == c.ws
  {
    CallbackLast(c.history.callbacks, WSCB_CLOSE);
  }

  lemma DeleteUnmoved(c: Conn)
    ensures Unmoved(c, Delete(c)) && Delete(c).ws == c.ws
  {
    CallbackLast(c.history.callbacks, WSCB_DELETE);
  }

  lemma CloseUnmoved(c: Conn)
    ensures Unmoved(c, Close(c)) && Close(c).ws == WS_ST_CLOSED
  {
    ReleaseUnmoved(c.(ws := WS_ST_CLOSED));
    DeleteUnmoved(c.(ws := WS_ST_CLOSED));
  }

  lemma InitiateCloseUnmoved(c: Conn, status: nat, reason: bytes)
    requires status < 0x1_0000 && c.ws == WS_ST_RECEIVING
    ensures Unmoved(c, InitiateClose(c, status, reason))
  {
    CallbackLast(c.history.callbacks, WSCB_CLOSE);
  }

  lemma {:induction false} WriteStanzasUnmoved(c: Conn, stanzas: seq<bytes>)
    ensures Unmoved(c, WriteStanzas(c, stanzas))
    decreases |stanzas|
  {
    if stanzas != [] {
      WriteStanzasUnmoved(WriteStanza(c, stanzas[0]), stanzas[1..]);
    }
  }

  /** Something other than a text or a binary message is taken from an open connection. */
  lemma TakeOtherReacts(c: Conn, e: Event, engine: State)
    requires Reacted(c) && c.ws == WS_ST_RECEIVING
    requires e.Control? || (e.opcode != OPCODE_TEXT && e.opcode != OPCODE_BINARY)
    ensures Reacted(Consume(c, e, engine)) && Consume(c, e, engine).ws == WS_ST_RECEIVING
  {
    TextsLast(c.history.consumed, e);
  }

  lemma OnControlReacts(c: Conn, frame: Frame, engine: State)
    requires Reacted(c) && c.ws == WS_ST_RECEIVING
    ensures Reacted(OnControl(c, frame, engine).conn)
  {
    var d := Consume(c, Control(frame), engine);
    TakeOtherReacts(c, Control(frame), engine);
    if frame.opcode == OPCODE_CLOSE {
      var reply := CloseReply(frame.payload);
      InitiateCloseUnmoved(d, reply.0, reply.1);
      UnmovedReacts(d, InitiateClose(d, reply.0, reply.1));
    }
  }

  lemma TextReacts(config: Config, c: Conn, payload: bytes, engine: State)
    requires Reacted(c) && c.ws == WS_ST_RECEIVING
    ensures Reacted(OnData(config, c, OPCODE_TEXT, payload, engine).conn)
  {
    TextsLast(c.history.consumed, Message(OPCODE_TEXT, payload));
    CallbackLast(c.history.callbacks, WSCB_MESSAGE(payload));
  }

  lemma BinaryReacts(config: Config, c: Conn, payload: bytes, engine: State)
    requires Reacted(c) && c.ws == WS_ST_RECEIVING
    ensures Reacted(OnData(config, c, OPCODE_BINARY, payload, engine).conn)
  {
    TextsLast(c.history.consumed, Message(OPCODE_BINARY, payload));
    CloseUnmoved(Consume(c, Message(OPCODE_BINARY, payload), engine));
  }

  lemma TurnReacts(config: Config, c: Conn)
    requires Reacted(c) && c.ws == WS_ST_RECEIVING
    ensures Reacted(LoopTurn(config, c).conn)
  {
    var s := c.engine;
    if s.error {
      CloseUnmoved(c);
    } else if s.control.Some? {
      OnControlReacts(c, s.control.value, TakeControl(config.limits, config.retest, s));
    } else if s.message {
      var engine := TakeMessage(config.limits, config.retest, s);
      if s.messageOpcode == OPCODE_TEXT {
        TextReacts(config, c, s.partial, engine);
      } else if s.messageOpcode == OPCODE_BINARY {
        BinaryReacts(config, c, s.partial, engine);
      } else {
        TakeOtherReacts(c, Message(s.messageOpcode, s.partial), engine);
      }
    }
  }

  lemma {:induction false} ProcessLoopReacts(config: Config, c: Conn)
    requires Reacted(c) && Sound(c) && c.ws == WS_ST_RECEIVING
    ensures Reacted(ProcessLoop(config, c))
    decreases |c.engine.input|, Flags(c.engine)
  {
    TurnReacts(config, c);
    TurnAdvances(config, c);
    TurnShrinks(config, c);
    if LoopTurn(config, c).more {
      ProcessLoopReacts(config, LoopTurn(config, c).conn);
    }
  }

  lemma ConcludeReacts(c: Conn, outcome: Outcome)
    requires Reacted(c) && c.ws == WS_ST_START
    ensures Reacted(Conclude(c, outcome))
  {
    match outcome
    case Incomplete =>
    case Malformed =>
      CloseUnmoved(c);
    case Refused(response) =>
      CloseUnmoved(Respond(c, response));
    case Upgraded(response) =>
      CallbackLast(c.history.callbacks, WSCB_CONNECTED);
      CallbackLast(c.history.callbacks + [WSCB_CONNECTED], WSCB_CONNECTED);
  }

  lemma ReadReacts(config: Config, c: Conn, chunk: bytes, outcome: Outcome, used: nat)
    requires Reacted(c) && Sound(c)
    ensures Reacted(ReadCb(config, c, chunk, outcome, used))
  {
    var input := c.received + chunk;
    if c.ws == WS_ST_START {
      ConcludeReacts(c.(received := if used <= |input| then input[used..] else []), outcome);
    } else if c.ws == WS_ST_RECEIVING {
      ProcessLoopReacts(config, Admit(config, c.(received := input)));
    }
  }

  lemma SentReacts(c: Conn, count: nat)
    requires Reacted(c)
    ensures Reacted(WriteCb(c, count))
  {
    CallbackLast(c.history.callbacks, WSCB_DELETE);
  }

  lemma FailedReacts(c: Conn)
    requires Reacted(c) && Sound(c) && c.manager.live
    ensures Reacted(CloseManager(OnClosed(c)))
  {
    InitiateCloseUnmoved(c.(cm := CM_ST_CLOSED, cmClosed := true), 1001, UPSTREAM_GONE);
  }

  lemma StepReacts(config: Config, c: Conn, happening: Happening)
    requires Reacted(c) && Sound(c)
    ensures Reacted(Step(config, c, happening))
  {
    if !Deleted(c) {
      match happening
      case ClientData(chunk, outcome, used) => ReadReacts(config, c, chunk, outcome, used);
      case OutputSent(count) => SentReacts(c, count);
      case ClientGone => CloseUnmoved(c);
      case UpstreamStanzas(stanzas) => WriteStanzasUnmoved(c, stanzas);
      case UpstreamConnected =>
      case UpstreamFailed =>
        if c.manager.live {
          FailedReacts(c);
        }
    }
  }

  lemma {:induction false} RunReacts(config: Config, c: Conn, happenings: seq<Happening>)
    requires Reacted(c) && Sound(c)
    ensures Reacted(RunAll(config, c, happenings))
    decreases |happenings|
  {
    if happenings != [] {
      StepReacts(config, c, happenings[0]);
      StepAdvances(config, c, happenings[0]);
      RunReacts(config, Step(config, c, happenings[0]), happenings[1..]);
    }
  }

  /**
   Every run, with either reading of the guard: WSCB_MESSAGE is fired once for each text message taken,
   in order and with its payload; nothing is taken behind a binary message, and it leaves the socket
   closed; WSCB_CONNECTED is fired twice if the handshake ever succeeded, and otherwise never.
   */
  lemma EveryRunReacts(config: Config, happenings: seq<Happening>)
    ensures var c := RunAll(config, Initial, happenings); var h := c.history;
      && Heard(h.callbacks) == Texts(h.consumed)
      && BinaryLast(h.consumed, c.ws)
      && Connects(h.callbacks) == if WSCB_CONNECTED in h.callbacks then 2 else 0
  {
    RunReacts(config, Initial, happenings);
    ConnectsIfAny(RunAll(config, Initial, happenings).history.callbacks);
  }

  lemma {:induction false} ConnectsIfAny(callbacks: seq<Callback>)
    ensures Connects(callbacks) > 0 <==> WSCB_CONNECTED in callbacks
    decreases |callbacks|
  {
    if callbacks != [] {
      var before := callbacks[..|callbacks| - 1];
      ConnectsIfAny(before);
      assert callbacks == before + [callbacks[|callbacks| - 1]];
    }
  }
}
