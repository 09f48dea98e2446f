/**
 What a connection passes on to the XMPP server, over every run: each text message taken from the
 client reaches the manager once, and what the manager accepted is what it wrote or still holds.
 */
module Forwarding {
  import opened Bytes
  import opened FrameCodec
  import opened Reassembly
  import opened Connection
  import opened Lifecycle

  /** The bytes the manager accepted: parsed without error in ST_START, or received in ST_FORWARD. */
  function Accepted(delivered: seq<Delivered>): bytes {
    if delivered == [] then [] else
    var d := delivered[|delivered| - 1];
    Accepted(delivered[..|delivered| - 1])
    + (if (d.stage == ST_START && d.verdict != ParserError) || d.stage == ST_FORWARD then d.payload else [])
  }

  /** The text messages among the events taken. */
  function Texts(events: seq<Event>): seq<bytes> {
    if events == [] then [] else
    var e := events[|events| - 1];
    Texts(events[..|events| - 1]) + (if e.Message? && e.opcode == OPCODE_TEXT then [e.payload] else [])
  }

  /** The payloads that reached the manager. */
  function PayloadsOf(delivered: seq<Delivered>): (r: seq<bytes>)
    ensures |r| == |delivered| && forall i :: 0 <= i < |r| ==> r[i] == delivered[i].payload
  {
    if delivered == [] then []
    else PayloadsOf(delivered[..|delivered| - 1]) + [delivered[|delivered| - 1].payload]
  }

  function StageRank(stage: Stage): nat {
    match stage
    case ST_START => 0
    case ST_CONNECT => 1
    case ST_FORWARD => 2
  }

  /** Messages met the stages in order, none later than the stage the manager is in. */
  predicate StagesInOrder(delivered: seq<Delivered>, stage: Stage) {
    && (forall i :: 0 <= i < |delivered| ==> StageRank(delivered[i].stage) <= StageRank(stage))
    && (forall i, j :: 0 <= i < j < |delivered| ==> StageRank(delivered[i].stage) <= StageRank(delivered[j].stage))
  }

  /** Accepted is written plus held, and nothing is written before ST_FORWARD or held from then on. */
  predicate Balanced(m: Manager, upstream: bytes, delivered: seq<Delivered>) {
    && (m.open ==> upstream + m.held == Accepted(delivered))
    && upstream <= Accepted(delivered)
    && (m.stage != ST_FORWARD ==> upstream == [])
    && (m.stage == ST_FORWARD && m.open ==> m.held == [])
    && StagesInOrder(delivered, m.stage)
  }

  predicate Conserved(c: Conn) {
    && Balanced(c.manager, c.history.upstream, c.history.delivered)
    && PayloadsOf(c.history.delivered) == Texts(c.history.consumed)
  }

  lemma AsideConserves(c: Conn, d: Conn)
    requires Conserved(c) && Aside(c, d)
    ensures Conserved(d)
  {
  }

  lemma DeliverOne(delivered: seq<Delivered>, d: Delivered)
    ensures Accepted(delivered + [d]) == Accepted(delivered)
      + (if (d.stage == ST_START && d.verdict != ParserError) || d.stage == ST_FORWARD then d.payload else [])
    ensures PayloadsOf(delivered + [d]) == PayloadsOf(delivered) + [d.payload]
  {
    assert (delivered + [d])[..|delivered|] == delivered;
  }

  lemma StagesExtend(delivered: seq<Delivered>, d: Delivered, stage: Stage, next: Stage)
    requires StagesInOrder(delivered, stage) && d.stage == stage && StageRank(stage) <= StageRank(next)
    ensures StagesInOrder(delivered + [d], next)
  {
  }

  lemma TextsLast(events: seq<Event>, e: Event)
    ensures Texts(events + [e]) == Texts(events) + (if e.Message? && e.opcode == OPCODE_TEXT then [e.payload] else [])
  {
    assert (events + [e])[..|events|] == events;
  }

  /** A message in ST_START is held, unless the parser rejects it; it may move the manager on to ST_CONNECT. */
  lemma DeliverAtStart(
      m: Manager, upstream: bytes, delivered: seq<Delivered>, payload: bytes, verdict: Verdict, n: Manager)
    requires Balanced(m, upstream, delivered) && m.open && n.open && m.stage == ST_START
    requires n.held == if verdict == ParserError then m.held else m.held + payload
    requires n.stage == ST_START || n.stage == ST_CONNECT
    ensures Balanced(n, upstream, delivered + [Delivered(ST_START, payload, verdict)])
  {
    DeliverOne(delivered, Delivered(ST_START, payload, verdict));
    StagesExtend(delivered, Delivered(ST_START, payload, verdict), m.stage, n.stage);
    assert Accepted(delivered) + [] == Accepted(delivered);
    Assoc(upstream, m.held, payload);
  }

  /** In ST_CONNECT a message is lost. */
  lemma DeliverAtConnect(m: Manager, upstream: bytes, delivered: seq<Delivered>, payload: bytes, verdict: Verdict)
    requires Balanced(m, upstream, delivered) && m.open && m.stage == ST_CONNECT
    ensures Balanced(m, upstream, delivered + [Delivered(ST_CONNECT, payload, verdict)])
  {
    DeliverOne(delivered, Delivered(ST_CONNECT, payload, verdict));
    StagesExtend(delivered, Delivered(ST_CONNECT, payload, verdict), m.stage, m.stage);
    assert Accepted(delivered) + [] == Accepted(delivered);
  }

  lemma DeliverAtForward(m: Manager, upstream: bytes, delivered: seq<Delivered>, payload: bytes, verdict: Verdict)
    requires Balanced(m, upstream, delivered) && m.open && m.stage == ST_FORWARD
    ensures Balanced(m, upstream + payload, delivered + [Delivered(ST_FORWARD, payload, verdict)])
  {
    DeliverOne(delivered, Delivered(ST_FORWARD, payload, verdict));
    StagesExtend(delivered, Delivered(ST_FORWARD, payload, verdict), m.stage, m.stage);
    assert upstream + [] == upstream && upstream + payload + [] == upstream + payload;
  }

  lemma OnMessageBalances(config: Config, c: Conn, message: bytes)
    requires Balanced(c.manager, c.history.upstream, c.history.delivered) && c.manager.open
    ensures var d := OnMessage(config, c, message);
      && Balanced(d.manager, d.history.upstream, d.history.delivered)
      && d.history.consumed == c.history.consumed
      && exists verdict :: d.history.delivered == c.history.delivered + [Delivered(c.manager.stage, message, verdict)]
  {
    var m, h := c.manager, c.history;
    assert h.upstream + [] == h.upstream;
    var d, verdict := OnMessage(config, c, message), config.oracle(Fed(h.delivered) + [message]);
    assert d.history.delivered == h.delivered + [Delivered(m.stage, message, verdict)];
    match m.stage
    case ST_START => DeliverAtStart(m, h.upstream, h.delivered, message, verdict, d.manager);
    case ST_CONNECT => DeliverAtConnect(m, h.upstream, h.delivered, message, verdict);
    case ST_FORWARD => DeliverAtForward(m, h.upstream, h.delivered, message, verdict);
  }

  /** cm_onmessage for a text just taken. */
  lemma HandOverConserves(config: Config, c: Conn, payload: bytes, engine: State)
    requires Conserved(c) && c.manager.open
    ensures var d := Consume(c, Message(OPCODE_TEXT, payload), engine);
      Conserved(OnMessage(config, Fire(d, WSCB_MESSAGE(payload)), payload))
  {
    var d := Fire(Consume(c, Message(OPCODE_TEXT, payload), engine), WSCB_MESSAGE(payload));
    OnMessageBalances(config, d, payload);
    var delivered := OnMessage(config, d, payload).history.delivered;
    DeliverOne(c.history.delivered, delivered[|delivered| - 1]);
    TextsLast(c.history.consumed, Message(OPCODE_TEXT, payload));
  }

  lemma TakeOtherConserves(c: Conn, e: Event, engine: State)
    requires Conserved(c) && (e.Message? ==> e.opcode != OPCODE_TEXT)
    ensures Conserved(Consume(c, e, engine))
  {
    TextsLast(c.history.consumed, e);
    assert Texts(c.history.consumed) + [] == Texts(c.history.consumed);
  }

  lemma OnDataConserves(config: Config, c: Conn, opcode: byte, payload: bytes, engine: State)
    requires Conserved(c) && Sound(c) && c.ws == WS_ST_RECEIVING
    ensures Conserved(OnData(config, c, opcode, payload, engine).conn)
  {
    if opcode == OPCODE_TEXT {
      HandOverConserves(config, c, payload, engine);
    } else {
      var d := Consume(c, Message(opcode, payload), engine);
      TakeOtherConserves(c, Message(opcode, payload), engine);
      CloseAside(d);
      AsideConserves(d, Close(d));
    }
  }

  lemma OnControlConserves(c: Conn, frame: Frame, engine: State)
    requires Conserved(c)
    ensures Conserved(OnControl(c, frame, engine).conn)
  {
    var d := Consume(c, Control(frame), engine);
    TakeOtherConserves(c, Control(frame), engine);
    InitiateCloseAside(d, CloseReply(frame.payload).0, CloseReply(frame.payload).1);
    AsideConserves(d, OnControl(c, frame, engine).conn);
  }

  lemma TurnConserves(config: Config, c: Conn)
    requires Conserved(c) && Sound(c) && c.ws == WS_ST_RECEIVING
    ensures Conserved(LoopTurn(config, c).conn)
  {
    var s := c.engine;
    if s.error {
      CloseAside(c);
      AsideConserves(c, Close(c));
    } else if s.control.Some? {
      OnControlConserves(c, s.control.value, TakeControl(config.limits, config.retest, s));
    } else if s.message {
      OnDataConserves(config, c, s.messageOpcode, s.partial, TakeMessage(config.limits, config.retest, s));
    }
  }

  lemma {:induction false} ProcessLoopConserves(config: Config, c: Conn)
    requires Conserved(c) && Sound(c) && c.ws == WS_ST_RECEIVING
    ensures Conserved(ProcessLoop(config, c))
    decreases |c.engine.input|, Flags(c.engine)
  {
    TurnConserves(config, c);
    TurnAdvances(config, c);
    TurnShrinks(config, c);
    if LoopTurn(config, c).more {
      ProcessLoopConserves(config, LoopTurn(config, c).conn);
    }
  }

  lemma ConnectedConserves(c: Conn)
    requires Conserved(c) && Sound(c) && c.manager.live
    ensures Conserved(ConnectedCb(c))
  {
    assert c.history.upstream + c.manager.held + [] == c.history.upstream + c.manager.held;
  }

  lemma StepConserves(config: Config, c: Conn, happening: Happening)
    requires Conserved(c) && Sound(c)
    ensures Conserved(Step(config, c, happening))
  {
    if Deleted(c) {
    } else if happening.ClientData? && c.ws == WS_ST_RECEIVING {
      ProcessLoopConserves(config, Admit(config, c.(received := c.received + happening.chunk)));
    } else if happening.UpstreamConnected? && c.manager.live {
      ConnectedConserves(c);
    } else {
      OtherStepsAside(config, c, happening);
      AsideConserves(c, Step(config, c, happening));
    }
  }

  lemma {:induction false} RunConserves(config: Config, c: Conn, happenings: seq<Happening>)
    requires Conserved(c) && Sound(c)
    ensures Conserved(RunAll(config, c, happenings))
    decreases |happenings|
  {
    if happenings != [] {
      StepConserves(config, c, happenings[0]);
      StepAdvances(config, c, happenings[0]);
      RunConserves(config, Step(config, c, happenings[0]), happenings[1..]);
    }
  }

  /**
   Every run: the text messages taken from the client are the messages the manager met, in order and
   once each; until the manager is closed, the bytes written upstream followed by the bytes still held
   are exactly the accepted ones, those of ST_START before those of ST_FORWARD, and afterwards what was
   written is a prefix of them.
   */
  lemma UpstreamConservation(config: Config, happenings: seq<Happening>)
    ensures var c := RunAll(config, Initial, happenings); var h := c.history;
      && PayloadsOf(h.delivered) == Texts(h.consumed)
      && (c.manager.open ==> h.upstream + c.manager.held == Accepted(h.delivered))
      && h.upstream <= Accepted(h.delivered)
      && StagesInOrder(h.delivered, c.manager.stage)
  {
    RunConserves(config, Initial, happenings);
  }
}
