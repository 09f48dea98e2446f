/**
 When the manager moves on, over every run: it connects exactly when the stream parser knows the server, and
 forwards exactly once it has been told that the connection stands.
 */
module Stages {
  import opened Bytes
  import opened FrameCodec
  import opened Reassembly
  import opened Connection
  import opened Lifecycle
  import opened Forwarding

  /** A message on which the parser came to know the server. */
  predicate FindsServer(d: Delivered) {
    d.stage == ST_START && d.verdict == ServerFound
  }

  predicate NoServer(delivered: seq<Delivered>) {
    forall i :: 0 <= i < |delivered| ==> !FindsServer(delivered[i])
  }

  /** The verdict at this place is the parser's on every text delivered up to there. */
  predicate VerdictAt(oracle: Oracle, delivered: seq<Delivered>, i: nat)
    requires i < |delivered|
  {
    delivered[i].stage == ST_START ==> delivered[i].verdict == oracle(PayloadsOf(delivered[..i + 1]))
  }

  predicate Verdicts(oracle: Oracle, delivered: seq<Delivered>) {
    forall i :: 0 <= i < |delivered| ==> VerdictAt(oracle, delivered, i)
  }

  predicate Staged(oracle: Oracle, stage: Stage, delivered: seq<Delivered>) {
    (stage == ST_START <==> NoServer(delivered)) && Verdicts(oracle, delivered)
  }

  predicate AllAtStart(delivered: seq<Delivered>) {
    forall i :: 0 <= i < |delivered| ==> delivered[i].stage == ST_START
  }

  /** As long as no server is known the parser is fed every text. */
  lemma {:induction false} FedIsAll(delivered: seq<Delivered>)
    requires AllAtStart(delivered)
    ensures Fed(delivered) == PayloadsOf(delivered)
    decreases |delivered|
  {
    if delivered != [] {
      var before, last := delivered[..|delivered| - 1], delivered[|delivered| - 1];
      FedIsAll(before);
      FedLast(before, last);
      assert before + [last] == delivered;
    }
  }

  lemma NoServerLast(delivered: seq<Delivered>, d: Delivered)
    ensures NoServer(delivered + [d]) <==> NoServer(delivered) && !FindsServer(d)
  {
    if NoServer(delivered + [d]) {
      assert (delivered + [d])[|delivered|] == d;
      assert forall i :: 0 <= i < |delivered| ==> (delivered + [d])[i] == delivered[i];
    }
  }

  lemma VerdictsLast(oracle: Oracle, delivered: seq<Delivered>, d: Delivered)
    requires Verdicts(oracle, delivered)
    requires d.stage == ST_START ==> d.verdict == oracle(PayloadsOf(delivered) + [d.payload])
    ensures Verdicts(oracle, delivered + [d])
  {
    var all := delivered + [d];
    forall i | 0 <= i < |all|
      ensures VerdictAt(oracle, all, i)
    {
      if i < |delivered| {
        assert VerdictAt(oracle, delivered, i);
        assert all[..i + 1] == delivered[..i + 1];
      } else {
        DeliverOne(delivered, d);
        assert all[..i + 1] == all;
      }
    }
  }

  /** One more message moves the manager on if and only if the parser now knows the server. */
  lemma OnMessageStaged(config: Config, c: Conn, message: bytes)
    requires Staged(config.oracle, c.manager.stage, c.history.delivered)
    requires StagesInOrder(c.history.delivered, c.manager.stage)
    ensures var d := OnMessage(config, c, message); Staged(config.oracle, d.manager.stage, d.history.delivered)
  {
    var delivered, stage := c.history.delivered, c.manager.stage;
    var verdict := config.oracle(Fed(delivered) + [message]);
    if stage == ST_START {
      FedIsAll(delivered);
    }
    NoServerLast(delivered, Delivered(stage, message, verdict));
    VerdictsLast(config.oracle, delivered, Delivered(stage, message, verdict));
  }

  /** What the messages delivered and the stage depend on. */
  predicate SameStage(c: Conn, d: Conn) {
    d.manager.stage == c.manager.stage && d.history.delivered == c.history.delivered
  }

  lemma TurnStaged(config: Config, c: Conn)
    requires Staged(config.oracle, c.manager.stage, c.history.delivered) && Conserved(c)
    ensures var d := LoopTurn(config, c).conn; Staged(config.oracle, d.manager.stage, d.history.delivered)
  {
    var s := c.engine;
    if s.error {
      CloseAside(c);
    } else if s.control.Some? {
      ControlKeepsStage(c, s.control.value, TakeControl(config.limits, config.retest, s));
    } else if s.message {
      DataStaged(config, c, s.messageOpcode, s.partial, TakeMessage(config.limits, config.retest, s));
    }
  }

  lemma ControlKeepsStage(c: Conn, frame: Frame, engine: State)
    ensures SameStage(c, OnControl(c, frame, engine).conn)
  {
  }

  lemma DataStaged(config: Config, c: Conn, opcode: byte, payload: bytes, engine: State)
    requires Staged(config.oracle, c.manager.stage, c.history.delivered) && Conserved(c)
    ensures var d := OnData(config, c, opcode, payload, engine).conn;
      Staged(config.oracle, d.manager.stage, d.history.delivered)
  {
    var taken := Consume(c, Message(opcode, payload), engine);
    if opcode == OPCODE_TEXT {
      OnMessageStaged(config, Fire(taken, WSCB_MESSAGE(payload)), payload);
    } else {
      CloseAside(taken);
    }
  }

  lemma {:induction false} ProcessLoopStaged(config: Config, c: Conn)
    requires Staged(config.oracle, c.manager.stage, c.history.delivered)
    requires Conserved(c) && Sound(c) && c.ws == WS_ST_RECEIVING
    ensures var d := ProcessLoop(config, c); Staged(config.oracle, d.manager.stage, d.history.delivered)
    decreases |c.engine.input|, Flags(c.engine)
  {
    TurnStaged(config, c);
    TurnConserves(config, c);
    TurnAdvances(config, c);
    TurnShrinks(config, c);
    if LoopTurn(config, c).more {
      ProcessLoopStaged(config, LoopTurn(config, c).conn);
    }
  }

  lemma StepStaged(config: Config, c: Conn, happening: Happening)
    requires Staged(config.oracle, c.manager.stage, c.history.delivered) && Conserved(c) && Sound(c)
    ensures var d := Step(config, c, happening); Staged(config.oracle, d.manager.stage, d.history.delivered)
  {
    if Deleted(c) {
    } else if happening.ClientData? && c.ws == WS_ST_RECEIVING {
      ProcessLoopStaged(config, Admit(config, c.(received := c.received + happening.chunk)));
    } else if happening.UpstreamConnected? && c.manager.live {
    } else {
      OtherStepsAside(config, c, happening);
    }
  }

  lemma {:induction false} RunStaged(config: Config, c: Conn, happenings: seq<Happening>)
    requires Staged(config.oracle, c.manager.stage, c.history.delivered) && Conserved(c) && Sound(c)
    ensures var d := RunAll(config, c, happenings); Staged(config.oracle, d.manager.stage, d.history.delivered)
    decreases |happenings|
  {
    if happenings != [] {
      StepStaged(config, c, happenings[0]);
      StepConserves(config, c, happenings[0]);
      StepAdvances(config, c, happenings[0]);
      RunStaged(config, Step(config, c, happenings[0]), happenings[1..]);
    }
  }

  // ---- From connecting to forwarding ----

  /** The loop never makes the manager forward. */
  lemma {:induction false} LoopKeepsForwarding(config: Config, c: Conn)
    ensures ProcessLoop(config, c).manager.stage == ST_FORWARD <==> c.manager.stage == ST_FORWARD
    decreases |c.engine.input|, Flags(c.engine)
  {
    TurnKeepsForwarding(config, c);
    TurnShrinks(config, c);
    if LoopTurn(config, c).more {
      LoopKeepsForwarding(config, LoopTurn(config, c).conn);
    }
  }

  lemma TurnKeepsForwarding(config: Config, c: Conn)
    ensures LoopTurn(config, c).conn.manager.stage == ST_FORWARD <==> c.manager.stage == ST_FORWARD
  {
    var s := c.engine;
    if s.error {
      CloseAside(c);
    } else if s.control.Some? {
      ControlKeepsStage(c, s.control.value, TakeControl(config.limits, config.retest, s));
    } else if s.message {
      DataKeepsForwarding(config, c, s.messageOpcode, s.partial, TakeMessage(config.limits, config.retest, s));
    }
  }

  lemma DataKeepsForwarding(config: Config, c: Conn, opcode: byte, payload: bytes, engine: State)
    ensures OnData(config, c, opcode, payload, engine).conn.manager.stage == ST_FORWARD
      <==> c.manager.stage == ST_FORWARD
  {
    if opcode == OPCODE_BINARY {
      CloseAside(Consume(c, Message(opcode, payload), engine));
    }
  }

  /** The upstream that exists reports that it is connected. */
  predicate Connects(c: Conn, happening: Happening) {
    happening.UpstreamConnected? && c.manager.live && !Deleted(c)
  }

  lemma StepForwards(config: Config, c: Conn, happening: Happening)
    ensures Step(config, c, happening).manager.stage == ST_FORWARD
      <==> c.manager.stage == ST_FORWARD || Connects(c, happening)
  {
    if Deleted(c) {
    } else if happening.ClientData? && c.ws == WS_ST_RECEIVING {
      LoopKeepsForwarding(config, Admit(config, c.(received := c.received + happening.chunk)));
    } else if happening.UpstreamConnected? && c.manager.live {
    } else {
      OtherStepsAside(config, c, happening);
    }
  }

  /** Somewhere in the run an existing upstream reports that it is connected. */
  predicate ConnectedIn(config: Config, c: Conn, happenings: seq<Happening>)
    decreases |happenings|
  {
    && happenings != []
    && (Connects(c, happenings[0]) || ConnectedIn(config, Step(config, c, happenings[0]), happenings[1..]))
  }

  lemma {:induction false} RunForwards(config: Config, c: Conn, happenings: seq<Happening>)
    ensures RunAll(config, c, happenings).manager.stage == ST_FORWARD
      <==> c.manager.stage == ST_FORWARD || ConnectedIn(config, c, happenings)
    decreases |happenings|
  {
    if happenings != [] {
      StepForwards(config, c, happenings[0]);
      RunForwards(config, Step(config, c, happenings[0]), happenings[1..]);
    }
  }

  /**
   Over every run, with either loop: the manager has not left ST_START if and only if no text delivered made
   the parser know the server, each verdict being the parser's on all the texts up to that one; the upstream
   of a manager that is open exists exactly otherwise; and the manager forwards if and only if that upstream
   has reported that it is connected.
   */
  lemma EveryRunIsStaged(config: Config, happenings: seq<Happening>)
    ensures var c := RunAll(config, Initial, happenings); var delivered := c.history.delivered;
      && Verdicts(config.oracle, delivered)
      && (c.manager.stage == ST_START <==> NoServer(delivered))
      && (c.manager.open ==> (c.manager.live <==> !NoServer(delivered)))
      && (c.manager.stage == ST_FORWARD <==> ConnectedIn(config, Initial, happenings))
  {
    RunStaged(config, Initial, happenings);
    RunForwards(config, Initial, happenings);
    RunAdvances(config, Initial, happenings);
  }
}
