/**
 When a connection that has begun to close can still be deleted, and when it never is, whatever happens
 to it afterwards.
 */
module Deletion {
  import opened Wrappers
  import opened Bytes
  import opened FrameCodec
  import opened Reassembly
  import opened Connection
  import opened Lifecycle

  /** Some sequence of callbacks deletes the connection. */
  ghost predicate Deletable(config: Config, c: Conn) {
    exists happenings :: Deleted(RunAll(config, c, happenings))
  }

  /** The socket is closed, the manager has been released and nothing is left that could report its end. */
  predicate Stranded(c: Conn) {
    c.ws == WS_ST_CLOSED && c.cm != CM_ST_CREATED && !c.cmClosed && !c.manager.live && !Deleted(c)
  }

  lemma StrandedStep(config: Config, c: Conn, happening: Happening)
    requires Stranded(c)
    ensures Stranded(Step(config, c, happening))
  {
  }

  lemma {:induction false} StrandedForever(config: Config, c: Conn, happenings: seq<Happening>)
    requires Stranded(c)
    ensures Stranded(RunAll(config, c, happenings))
    decreases |happenings|
  {
    if happenings != [] {
      StrandedStep(config, c, happenings[0]);
      StrandedForever(config, Step(config, c, happenings[0]), happenings[1..]);
    }
  }

  lemma RunOne(config: Config, c: Conn, happening: Happening)
    ensures RunAll(config, c, [happening]) == Step(config, c, happening)
  {
  }

  /** Draining the output deletes a connection in the closing handshake. */
  lemma DrainingDeletes(config: Config, c: Conn)
    requires !Deleted(c) && c.ws == WS_ST_CLOSING
    ensures Deleted(Step(config, c, OutputSent(|c.outgoing|)))
  {
  }

  /** An end of file deletes a closed connection whose manager is known to be closed. */
  lemma GoneDeletes(config: Config, c: Conn)
    requires !Deleted(c) && c.cm != CM_ST_CREATED && c.cmClosed
    ensures Deleted(Step(config, c, ClientGone))
  {
  }

  /**
   A connection whose manager has been released can still be deleted if and only if its closing handshake
   is on the way or the manager's end has been noted in fl_cm_closed.
   */
  lemma DeletableExactly(config: Config, c: Conn)
    requires Sound(c) && !Deleted(c) && c.cm != CM_ST_CREATED
    ensures Deletable(config, c) <==> c.ws == WS_ST_CLOSING || c.cmClosed
  {
    if c.ws == WS_ST_CLOSING {
      DrainingDeletes(config, c);
      RunOne(config, c, OutputSent(|c.outgoing|));
    } else if c.cmClosed {
      GoneDeletes(config, c);
      RunOne(config, c, ClientGone);
    } else {
      forall happenings: seq<Happening>
        ensures !Deleted(RunAll(config, c, happenings))
      {
        StrandedForever(config, c, happenings);
      }
    }
  }

  /** After an end of file or an error on the socket: deletion can follow if and only if fl_cm_closed was set. */
  lemma GoneDeletableExactly(config: Config, c: Conn)
    requires Sound(c) && !Deleted(c)
    ensures Deletable(config, Step(config, c, ClientGone)) <==> c.cmClosed
  {
    var d := Step(config, c, ClientGone);
    StepAdvances(config, c, ClientGone);
    if Deleted(d) {
      assert RunAll(config, d, []) == d;
    } else {
      DeletableExactly(config, d);
    }
  }

  /** The client leaves behind a successful handshake: nothing that happens afterwards deletes the connection. */
  lemma LostAfterHandshake(config: Config, chunk: bytes, response: bytes, used: nat)
    ensures !Deletable(config, RunAll(config, Initial, [ClientData(chunk, Upgraded(response), used), ClientGone]))
  {
    var upgraded := Step(config, Initial, ClientData(chunk, Upgraded(response), used));
    var happenings := [ClientData(chunk, Upgraded(response), used), ClientGone];
    StepAdvances(config, Initial, happenings[0]);
    assert happenings[1..] == [ClientGone];
    RunOne(config, upgraded, ClientGone);
    GoneDeletableExactly(config, upgraded);
  }

  /** Before the handshake, or after a refusal, the client leaving can always end in deletion. */
  lemma NotLostBeforeHandshake(config: Config, chunk: bytes, response: bytes, used: nat)
    ensures Deletable(config, RunAll(config, Initial, [ClientGone]))
    ensures Deletable(config, RunAll(config, Initial, [ClientData(chunk, Refused(response), used), ClientGone]))
  {
    var refused := Step(config, Initial, ClientData(chunk, Refused(response), used));
    var happenings := [ClientData(chunk, Refused(response), used), ClientGone];
    StepAdvances(config, Initial, happenings[0]);
    assert happenings[1..] == [ClientGone];
    RunOne(config, Initial, ClientGone);
    RunOne(config, refused, ClientGone);
    GoneDeletableExactly(config, Initial);
    GoneDeletableExactly(config, refused);
  }

  // ---- The end of file that deletes is a second one ----

  lemma NoEndNoDeletion(config: Config, c: Conn, happening: Happening)
    requires c.ws == WS_ST_CLOSED && c.cm != CM_ST_CREATED && !c.manager.live && !Deleted(c) && !happening.ClientGone?
    ensures var d := Step(config, c, happening);
      d.ws == WS_ST_CLOSED && d.cm != CM_ST_CREATED && !d.manager.live && !Deleted(d)
  {
  }

  /** Without another end of file a closed connection stays, whatever else happens to it. */
  lemma {:induction false} DeletionNeedsAnotherEnd(config: Config, c: Conn, happenings: seq<Happening>)
    requires c.ws == WS_ST_CLOSED && c.cm != CM_ST_CREATED && !c.manager.live && !Deleted(c)
    requires ClientGone !in happenings
    ensures !Deleted(RunAll(config, c, happenings))
    decreases |happenings|
  {
    if happenings != [] {
      NoEndNoDeletion(config, c, happenings[0]);
      DeletionNeedsAnotherEnd(config, Step(config, c, happenings[0]), happenings[1..]);
    }
  }

  /** An end of file on a connection in use deletes nothing, and nothing does afterwards but a second one. */
  lemma OnlySecondEndDeletes(config: Config, c: Conn, happenings: seq<Happening>)
    requires Sound(c) && !Deleted(c) && c.cm == CM_ST_CREATED && ClientGone !in happenings
    ensures !Deleted(RunAll(config, Step(config, c, ClientGone), happenings))
  {
    StepAdvances(config, c, ClientGone);
    DeletionNeedsAnotherEnd(config, Step(config, c, ClientGone), happenings);
  }

  // ---- Connections in use ----

  lemma RunTwo(config: Config, c: Conn, a: Happening, b: Happening)
    ensures RunAll(config, c, [a, b]) == Step(config, Step(config, c, a), b)
  {
    assert [a, b][1..] == [b];
    RunOne(config, Step(config, c, a), b);
  }

  /** With an upstream: its failure and then draining. */
  lemma ConnectedDeletable(config: Config, c: Conn)
    requires Sound(c) && !Deleted(c) && c.manager.live
    ensures Deletable(config, c)
  {
    var d := Step(config, c, UpstreamFailed);
    OnClosedOnlyInitiates(c);
    DrainingDeletes(config, d);
    RunTwo(config, c, UpstreamFailed, OutputSent(|d.outgoing|));
  }

  /** Nothing buffered and nothing begun. */
  predicate Unoccupied(c: Conn) {
    && c.ws == WS_ST_RECEIVING && !Deleted(c) && c.received == []
    && c.engine.input == [] && Quiescent(c.engine)
  }

  lemma CloseFrameAdded(limits: Limits, retest: bool, s: State)
    requires s.input == [] && Quiescent(s)
    ensures var b: bytes := [0x88, 0x00];
      Reassembly.Add(limits, retest, s, b) == s.(control := Some(Frame(true, OPCODE_CLOSE, false, [])))
  {
    var b: bytes := [0x88, 0x00];
    assert [] + b == b && b[2..2] == [] && b[2..] == [];
    assert DecodeFrame(b) == Decoding.Ready(Frame(true, OPCODE_CLOSE, false, []), 2);
  }

  /** Between messages: a Close frame from the client and then draining. */
  lemma UnoccupiedDeletable(config: Config, c: Conn)
    requires Sound(c) && Unoccupied(c)
    ensures Deletable(config, c)
  {
    var b: bytes := [0x88, 0x00];
    assert [] + b == b;
    var read := ClientData(b, Incomplete, 0);
    CloseFrameAdded(config.limits, config.retest, c.engine);
    var d := Step(config, c, read);
    CloseFrameTaken(config, Admit(config, c.(received := b)));
    DrainingDeletes(config, d);
    RunTwo(config, c, read, OutputSent(|d.outgoing|));
  }

  lemma CloseFrameTaken(config: Config, c: Conn)
    requires Sound(c) && c.ws == WS_ST_RECEIVING && !c.engine.error
    requires c.engine.control == Some(Frame(true, OPCODE_CLOSE, false, []))
    ensures var d := ProcessLoop(config, c); d.ws == WS_ST_CLOSING && !Deleted(d)
  {
    TurnAdvances(config, c);
    var engine := TakeControl(config.limits, config.retest, c.engine);
    assert LoopTurn(config, c) == OnControl(c, Frame(true, OPCODE_CLOSE, false, []), engine);
  }

  /** The frame buffer is full of an unfinished frame, and there is no upstream to fail. */
  predicate Stalled(config: Config, c: Conn) {
    && c.ws == WS_ST_RECEIVING && c.cm == CM_ST_CREATED && !c.cmClosed && !c.manager.live && !Deleted(c)
    && Quiescent(c.engine) && DecodeFrame(c.engine.input).Building?
    && config.limits.frame > 0 && |c.engine.input| == 2 * config.limits.frame
  }

  lemma StalledReads(config: Config, c: Conn)
    requires Stalled(config, c)
    ensures Stalled(config, ProcessFrame(config, c))
  {
    assert c.engine.input + [] == c.engine.input;
    assert Admit(config, c).engine == c.engine;
  }

  lemma StalledStep(config: Config, c: Conn, happening: Happening)
    requires Stalled(config, c)
    ensures Stalled(config, Step(config, c, happening)) || Stranded(Step(config, c, happening))
  {
    if happening.ClientData? {
      StalledReads(config, c.(received := c.received + happening.chunk));
    }
  }

  lemma {:induction false} StalledForever(config: Config, c: Conn, happenings: seq<Happening>)
    requires Stalled(config, c) || Stranded(c)
    ensures !Deleted(RunAll(config, c, happenings))
    decreases |happenings|
  {
    if happenings != [] {
      if Stranded(c) {
        StrandedStep(config, c, happenings[0]);
      } else {
        StalledStep(config, c, happenings[0]);
      }
      StalledForever(config, Step(config, c, happenings[0]), happenings[1..]);
    }
  }

  /** A connection without upstream whose frame buffer a client has stalled can never be deleted. */
  lemma StalledNeverDeletable(config: Config, c: Conn)
    requires Stalled(config, c)
    ensures !Deletable(config, c)
  {
    forall happenings: seq<Happening>
      ensures !Deleted(RunAll(config, c, happenings))
    {
      StalledForever(config, c, happenings);
    }
  }
}
