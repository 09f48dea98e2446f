/**
 The two coupled state machines of wsserver.c and cmanager.c, over every run: which states go
 together, that they only move forward, and in which order callbacks can fire.
 */
module Lifecycle {
  import opened Bytes
  import opened FrameCodec
  import opened Reassembly
  import opened Connection

  predicate MayFollow(earlier: Callback, later: Callback) {
    earlier != WSCB_DELETE && (earlier == WSCB_CLOSE ==> later == WSCB_DELETE)
  }

  /** After WSCB_CLOSE only WSCB_DELETE can follow, and nothing follows WSCB_DELETE. */
  predicate Orderly(callbacks: seq<Callback>) {
    forall i, j :: 0 <= i < j < |callbacks| ==> MayFollow(callbacks[i], callbacks[j])
  }

  /** Neither WSCB_CLOSE nor WSCB_DELETE has fired. */
  predicate Undisturbed(callbacks: seq<Callback>) {
    WSCB_CLOSE !in callbacks && WSCB_DELETE !in callbacks
  }

  /** What holds of a connection between callbacks. */
  predicate Sound(c: Conn) {
    // The coupling of the two machines.
    && c.cm != CM_ST_START
    && (c.cm == CM_ST_CREATED <==> c.ws == WS_ST_START || c.ws == WS_ST_RECEIVING)
    && (c.wsClosing ==> c.cm != CM_ST_CREATED)
    && (c.ws == WS_ST_CLOSING ==> c.wsClosing)
    // The upstream half exists only while the manager is in use, and then from ST_CONNECT on.
    && (c.manager.open <==> c.cm == CM_ST_CREATED)
    && (c.manager.live <==> c.manager.open && c.manager.stage != ST_START)
    && (c.manager.live ==> c.ws == WS_ST_RECEIVING)
    // Callbacks.
    && Orderly(c.history.callbacks)
    && (c.cm == CM_ST_CREATED ==> Undisturbed(c.history.callbacks))
  }

  function Rank(ws: WsState): nat {
    match ws
    case WS_ST_START => 0
    case WS_ST_RECEIVING => 1
    case WS_ST_CLOSING => 2
    case WS_ST_CLOSED => 3
  }

  /** From `c` to `d` the invariant is kept, the socket state moved forward and callbacks were only added. */
  predicate Advanced(c: Conn, d: Conn) {
    Sound(d) && Rank(c.ws) <= Rank(d.ws) && c.history.callbacks <= d.history.callbacks
  }

  // ---- Parts of callbacks ----

  lemma CloseAdvances(c: Conn)
    requires Sound(c) && !Deleted(c)
    ensures Advanced(c, Close(c)) && Close(c).ws == WS_ST_CLOSED
    ensures c.cm == CM_ST_CREATED ==> !Deleted(Close(c))
  {
  }

  lemma InitiateCloseAdvances(c: Conn, status: nat, reason: bytes)
    requires Sound(c) && c.ws == WS_ST_RECEIVING && status < 0x1_0000
    ensures Advanced(c, InitiateClose(c, status, reason))
    ensures !Deleted(InitiateClose(c, status, reason)) && InitiateClose(c, status, reason).ws == WS_ST_CLOSING
  {
  }

  /** A message is handed over only to a manager whose parts are still there. */
  lemma OnMessageKeeps(config: Config, c: Conn, message: bytes)
    requires Sound(c) && c.ws == WS_ST_RECEIVING
    ensures Advanced(c, OnMessage(config, c, message)) && OnMessage(config, c, message).ws == WS_ST_RECEIVING
  {
  }

  lemma OnControlAdvances(c: Conn, frame: Frame, engine: State)
    requires Sound(c) && c.ws == WS_ST_RECEIVING
    ensures var t := OnControl(c, frame, engine);
      Advanced(c, t.conn) && !Deleted(t.conn) && (t.more ==> t.conn.ws == WS_ST_RECEIVING)
  {
    if frame.opcode == OPCODE_CLOSE {
      var reply := CloseReply(frame.payload);
      InitiateCloseAdvances(Consume(c, Control(frame), engine), reply.0, reply.1);
    }
  }

  lemma OnDataAdvances(config: Config, c: Conn, opcode: byte, payload: bytes, engine: State)
    requires Sound(c) && c.ws == WS_ST_RECEIVING
    ensures var t := OnData(config, c, opcode, payload, engine);
      Advanced(c, t.conn) && !Deleted(t.conn) && (t.more ==> t.conn.ws == WS_ST_RECEIVING)
  {
    var d := Consume(c, Message(opcode, payload), engine);
    if opcode == OPCODE_TEXT {
      OnMessageKeeps(config, Fire(d, WSCB_MESSAGE(payload)), payload);
    } else if opcode == OPCODE_BINARY {
      CloseAdvances(d);
    }
  }

  lemma TurnAdvances(config: Config, c: Conn)
    requires Sound(c) && c.ws == WS_ST_RECEIVING
    ensures var t := LoopTurn(config, c);
      Advanced(c, t.conn) && !Deleted(t.conn) && (t.more ==> t.conn.ws == WS_ST_RECEIVING)
  {
    var s := c.engine;
    if s.error {
      CloseAdvances(c);
    } else if s.control.Some? {
      OnControlAdvances(c, s.control.value, TakeControl(config.limits, config.retest, s));
    } else if s.message {
      OnDataAdvances(config, c, s.messageOpcode, s.partial, TakeMessage(config.limits, config.retest, s));
    }
  }

  lemma {:induction false} ProcessLoopAdvances(config: Config, c: Conn)
    requires Sound(c) && c.ws == WS_ST_RECEIVING
    ensures Advanced(c, ProcessLoop(config, c)) && !Deleted(ProcessLoop(config, c))
    decreases |c.engine.input|, Flags(c.engine)
  {
    TurnAdvances(config, c);
    TurnShrinks(config, c);
    if LoopTurn(config, c).more {
      ProcessLoopAdvances(config, LoopTurn(config, c).conn);
    }
  }

  lemma ConcludeAdvances(c: Conn, outcome: Outcome)
    requires Sound(c) && c.ws == WS_ST_START
    ensures Advanced(c, Conclude(c, outcome))
  {
    if outcome.Malformed? {
      CloseAdvances(c);
    } else if outcome.Refused? {
      CloseAdvances(Respond(c, outcome.response));
    }
  }

  lemma {:induction false} WriteStanzasKeeps(c: Conn, stanzas: seq<bytes>)
    requires Sound(c)
    ensures Advanced(c, WriteStanzas(c, stanzas)) && WriteStanzas(c, stanzas).history.callbacks == c.history.callbacks
    decreases |stanzas|
  {
    if stanzas != [] {
      WriteStanzasKeeps(WriteStanza(c, stanzas[0]), stanzas[1..]);
    }
  }

  /**
   While an upstream exists wsconn_onclosed meets an open socket, starts the closing handshake and
   deletes nothing: its other branches are never taken.
   */
  lemma OnClosedOnlyInitiates(c: Conn)
    requires Sound(c) && c.manager.live
    ensures var d := OnClosed(c);
      && d.ws == WS_ST_CLOSING && d.history.callbacks == c.history.callbacks
      && d.history.frames == c.history.frames + [OutFrame(OPCODE_CLOSE, ClosePayload(1001, UPSTREAM_GONE))]
      && Advanced(c, CloseManager(d))
  {
  }

  // ---- What most callbacks leave alone ----

  /** The engine, what was taken from it and what was passed on are as they were. */
  predicate Aside(c: Conn, d: Conn) {
    && d.engine == c.engine
    && d.history.consumed == c.history.consumed && d.history.offered == c.history.offered
    && d.history.admitted == c.history.admitted && d.history.delivered == c.history.delivered
    && d.history.upstream == c.history.upstream && d.manager.stage == c.manager.stage
    && (d.manager.open ==> d.manager == c.manager)
  }

  lemma CloseAside(c: Conn)
    ensures Aside(c, Close(c))
  {
  }

  lemma InitiateCloseAside(c: Conn, status: nat, reason: bytes)
    requires status < 0x1_0000
    ensures Aside(c, InitiateClose(c, status, reason))
  {
  }

  lemma ConcludeAside(c: Conn, outcome: Outcome)
    ensures Aside(c, Conclude(c, outcome))
  {
    if outcome.Refused? {
      CloseAside(Respond(c, outcome.response));
    } else if outcome.Malformed? {
      CloseAside(c);
    }
  }

  lemma {:induction false} WriteStanzasAside(c: Conn, stanzas: seq<bytes>)
    ensures Aside(c, WriteStanzas(c, stanzas))
    decreases |stanzas|
  {
    if stanzas != [] {
      WriteStanzasAside(WriteStanza(c, stanzas[0]), stanzas[1..]);
    }
  }

  lemma FailedAside(c: Conn)
    ensures Aside(c, CloseManager(OnClosed(c)))
  {
    InitiateCloseAside(c.(cm := CM_ST_CLOSED, cmClosed := true), 1001, UPSTREAM_GONE);
  }

  /** Only reading in WS_ST_RECEIVING and the upstream connection move messages. */
  lemma OtherStepsAside(config: Config, c: Conn, happening: Happening)
    requires Deleted(c) || !(happening.ClientData? && c.ws == WS_ST_RECEIVING)
    requires !(happening.UpstreamConnected? && c.manager.live)
    ensures Aside(c, Step(config, c, happening))
  {
    match happening
    case ClientData(chunk, outcome, used) =>
      var input := c.received + chunk;
      ConcludeAside(c.(received := if used <= |input| then input[used..] else []), outcome);
    case OutputSent(count) =>
    case ClientGone => CloseAside(c);
    case UpstreamStanzas(stanzas) => WriteStanzasAside(c, stanzas);
    case UpstreamConnected =>
    case UpstreamFailed => FailedAside(c);
  }

  // ---- Whole runs ----

  lemma StepAdvances(config: Config, c: Conn, happening: Happening)
    requires Sound(c)
    ensures Advanced(c, Step(config, c, happening))
  {
    if !Deleted(c) {
      match happening
      case ClientData(chunk, outcome, used) =>
        var input := c.received + chunk;
        if c.ws == WS_ST_START {
          ConcludeAdvances(c.(received := if used <= |input| then input[used..] else []), outcome);
        } else if c.ws == WS_ST_RECEIVING {
          ProcessLoopAdvances(config, Admit(config, c.(received := input)));
        }
      case OutputSent(count) =>
      case ClientGone => CloseAdvances(c);
      case UpstreamStanzas(stanzas) => WriteStanzasKeeps(c, stanzas);
      case UpstreamConnected =>
      case UpstreamFailed =>
        if c.manager.live {
          OnClosedOnlyInitiates(c);
        }
    }
  }

  /**
   Every run: from any sound connection, so also from a new one, the invariant is kept, the socket
   state only moves forward through START, RECEIVING, CLOSING and CLOSED, and no callback is undone.
   */
  lemma {:induction false} RunAdvances(config: Config, c: Conn, happenings: seq<Happening>)
    requires Sound(c)
    ensures Advanced(c, RunAll(config, c, happenings))
    decreases |happenings|
  {
    if happenings != [] {
      StepAdvances(config, c, happenings[0]);
      RunAdvances(config, Step(config, c, happenings[0]), happenings[1..]);
    }
  }

  function Count(callbacks: seq<Callback>, callback: Callback): nat {
    if callbacks == [] then 0
    else (if callbacks[0] == callback then 1 else 0) + Count(callbacks[1..], callback)
  }

  lemma {:induction false} CountAbsent(callbacks: seq<Callback>, callback: Callback)
    requires callback !in callbacks
    ensures Count(callbacks, callback) == 0
  {
    if callbacks != [] {
      CountAbsent(callbacks[1..], callback);
    }
  }

  lemma {:induction false} OrderlyCounts(callbacks: seq<Callback>)
    requires Orderly(callbacks)
    ensures Count(callbacks, WSCB_CLOSE) <= 1 && Count(callbacks, WSCB_DELETE) <= 1
  {
    if callbacks != [] {
      var rest := callbacks[1..];
      forall i, j | 0 <= i < j < |rest|
        ensures MayFollow(rest[i], rest[j])
      {
        assert rest[i] == callbacks[i + 1] && rest[j] == callbacks[j + 1];
      }
      OrderlyCounts(rest);
      if callbacks[0] == WSCB_CLOSE {
        assert forall j :: 0 <= j < |rest| ==> rest[j] == callbacks[j + 1];
        CountAbsent(rest, WSCB_CLOSE);
      } else if callbacks[0] == WSCB_DELETE {
        assert |callbacks| == 1;
      }
    }
  }

  /**
   Whatever happens to a new connection: WSCB_CLOSE fires at most once, the connection is deleted
   at most once, no message reaches the manager after WSCB_CLOSE, and no callback follows deletion.
   */
  lemma CallbackDiscipline(config: Config, happenings: seq<Happening>)
    ensures var callbacks := RunAll(config, Initial, happenings).history.callbacks;
      && Count(callbacks, WSCB_CLOSE) <= 1
      && Count(callbacks, WSCB_DELETE) <= 1
      && (forall i, j :: 0 <= i < j < |callbacks| && callbacks[j].WSCB_MESSAGE? ==>
            callbacks[i] != WSCB_CLOSE && callbacks[i] != WSCB_DELETE)
      && (forall i :: 0 <= i < |callbacks| && callbacks[i] == WSCB_DELETE ==> i == |callbacks| - 1)
  {
    RunAdvances(config, Initial, happenings);
    var callbacks := RunAll(config, Initial, happenings).history.callbacks;
    OrderlyCounts(callbacks);
    forall i | 0 <= i < |callbacks| && callbacks[i] == WSCB_DELETE
      ensures i == |callbacks| - 1
    {
      var last := callbacks[|callbacks| - 1];
    }
  }
}
