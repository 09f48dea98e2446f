/**
 When the code as it stands and the re-tested loop take the same steps, exactly: whenever the loop runs and
 completes a message, no frame may be buffered behind it. A backlog that a read never gets to does no harm,
 and one that it gets to always shows in the connection.
 */
module Divergence {
  import opened Bytes
  import opened FrameCodec
  import opened Reassembly
  import opened Fragmentation
  import opened Connection
  import opened Consumption
  import opened Forwarding
  import opened Agreement
  import opened System

  /** Where a run of the loop has ended: no frame behind a completed message. */
  predicate Clear(s: State) {
    s.message ==> DecodeFrame(s.input).Building?
  }

  /** Where the two loops part: `t` is where the re-tested one stops, and the other goes on from there. */
  predicate Parting(limits: Limits, t: State) {
    t.message && t.started && t.control.None? && !t.error && !DecodeFrame(t.input).Building?
  }

  lemma PartingParts(limits: Limits, t: State)
    requires Parting(limits, t)
    ensures Loop(limits, false, t) != t
  {
    LoopPastMessage(limits, t);
  }

  /** One run of the loop: the same, or parted at a completed message. */
  lemma {:induction false} LoopAgreesOrParts(limits: Limits, s: State)
    requires Quiescent(s)
    ensures var t, r := Loop(limits, true, s), Loop(limits, false, s);
      if Clear(t) then r == t else Parting(limits, t) && r == Loop(limits, false, t) && r != t
    decreases |s.input|
  {
    if DecodeFrame(s.input).Ready? {
      var t := OneTurn(limits, s);
      if t.message {
        if !Clear(t) {
          PartingParts(limits, t);
        }
      } else if !Pending(t) {
        LoopAgreesOrParts(limits, t);
      }
    }
  }

  // ---- Parted connections stay apart ----

  lemma {:induction false} ConsumedGrows(config: Config, c: Conn)
    ensures c.history.consumed <= ProcessLoop(config, c).history.consumed
    decreases |c.engine.input|, Flags(c.engine)
  {
    TurnConsumes(config, c);
    TurnShrinks(config, c);
    if LoopTurn(config, c).more {
      ConsumedGrows(config, LoopTurn(config, c).conn);
    }
  }

  /** A turn takes the event whose turn it is, if there is one. */
  lemma TurnConsumes(config: Config, c: Conn)
    ensures var s, consumed := c.engine, LoopTurn(config, c).conn.history.consumed;
      && (s.error || !Pending(s) ==> consumed == c.history.consumed)
      && (!s.error && Pending(s) ==> consumed == c.history.consumed + [Next(s)])
  {
    var s := c.engine;
    if !s.error && s.control.Some? {
      OnControlIntake(c, s.control.value, TakeControl(config.limits, config.retest, s));
    } else if !s.error && s.message {
      OnDataIntake(config, c, s.messageOpcode, s.partial, TakeMessage(config.limits, config.retest, s));
    }
  }

  /** The event whose turn it is stays taken at its place. */
  lemma NextIsConsumed(config: Config, c: Conn)
    requires !c.engine.error && Pending(c.engine)
    ensures var n, consumed := |c.history.consumed|, ProcessLoop(config, c).history.consumed;
      n < |consumed| && consumed[n] == Next(c.engine)
  {
    TurnConsumes(config, c);
    TurnShrinks(config, c);
    var t := LoopTurn(config, c);
    if t.more {
      ConsumedGrows(config, t.conn);
    }
    assert t.conn.history.consumed[|c.history.consumed|] == Next(c.engine);
  }

  lemma NothingConsumed(config: Config, c: Conn)
    requires c.engine.error || !Pending(c.engine)
    ensures ProcessLoop(config, c).history.consumed == c.history.consumed
    ensures ProcessLoop(config, c).engine == c.engine
  {
  }

  /** What the re-tested loop finds behind a message that the other has glued on is a stray continuation. */
  lemma StrayTaken(limits: Limits, t: State)
    requires Parting(limits, t)
    requires var r := Loop(limits, false, t); !r.error && r.control.None?
    ensures TakeMessage(limits, true, t).error
  {
    if DecodeFrame(t.input).Ready? {
      assert DecodeFrame(t.input).frame.opcode == OPCODE_CONTINUATION;
    }
  }

  /** Once the engine has failed behind a message, the connection ends with a failed engine. */
  lemma FailsBehind(config: Config, c: Conn)
    requires !c.engine.error && c.engine.control.None? && c.engine.message
    requires TakeMessage(config.limits, config.retest, c.engine).error
    ensures ProcessLoop(config, c).engine.error
  {
    var engine := TakeMessage(config.limits, config.retest, c.engine);
    TurnShrinks(config, c);
    OnDataIntake(config, c, c.engine.messageOpcode, c.engine.partial, engine);
    var d := LoopTurn(config, c);
    assert d.conn.engine == engine;
    if d.more {
      NothingConsumed(config, d.conn);
    }
  }

  /** Behind a message with too few bytes for another frame, it ends with an engine that has not failed. */
  lemma EndsWell(config: Config, c: Conn)
    requires !c.engine.error && c.engine.control.None? && c.engine.message
    requires DecodeFrame(c.engine.input).Building?
    ensures !ProcessLoop(config, c).engine.error
  {
    var engine := TakeMessage(config.limits, config.retest, c.engine);
    TurnShrinks(config, c);
    OnDataIntake(config, c, c.engine.messageOpcode, c.engine.partial, engine);
    var d := LoopTurn(config, c);
    assert d.conn.engine == engine && !engine.error && !Pending(engine);
    if d.more {
      NothingConsumed(config, d.conn);
    }
  }

  /** Two connections that differ in a parted engine only are told apart by what the rest of the read does. */
  lemma PartedStaysApart(config: Config, c: Conn)
    requires config.retest && Parting(config.limits, c.engine)
    ensures var d := c.(engine := Loop(config.limits, false, c.engine));
      ProcessLoop(AsWritten(config), d) != ProcessLoop(config, c)
  {
    var t, r := c.engine, Loop(config.limits, false, c.engine);
    var d := c.(engine := r);
    LoopPastMessage(config.limits, t);
    NextIsConsumed(config, c);
    if r.error {
      NothingConsumed(AsWritten(config), d);
    } else {
      NextIsConsumed(AsWritten(config), d);
      if r.control.None? {
        StrayTaken(config.limits, t);
        FailsBehind(config, c);
        EndsWell(AsWritten(config), d);
      }
    }
  }

  // ---- A read ----

  /** Every run of the loop during these turns ends clear. */
  predicate ClearTurns(config: Config, c: Conn)
    decreases |c.engine.input|, Flags(c.engine)
  {
    TurnShrinks(config, c);
    var s := c.engine;
    (!s.error && Pending(s) ==> Clear(Taken(config.limits, config.retest, s)))
    && (LoopTurn(config, c).more ==> ClearTurns(config, LoopTurn(config, c).conn))
  }

  lemma ControlLeaves(c: Conn, frame: Frame, one: State, other: State)
    ensures var t, u := OnControl(c, frame, one), OnControl(c, frame, other);
      t.more == u.more && t.conn.engine == one && u.conn == t.conn.(engine := other)
  {
  }

  lemma DataLeaves(config: Config, c: Conn, opcode: byte, payload: bytes, one: State, other: State)
    ensures var t, u := OnData(config, c, opcode, payload, one), OnData(AsWritten(config), c, opcode, payload, other);
      t.more == u.more && t.conn.engine == one && u.conn == t.conn.(engine := other)
  {
  }

  /** The turn depends on the engine that is left only by leaving it. */
  lemma TurnLeaves(config: Config, c: Conn)
    requires config.retest && !c.engine.error && Pending(c.engine)
    ensures var t, u := LoopTurn(config, c), LoopTurn(AsWritten(config), c);
      && t.more == u.more && t.conn.engine == Taken(config.limits, true, c.engine)
      && u.conn == t.conn.(engine := Taken(config.limits, false, c.engine))
  {
    var s := c.engine;
    var one, other := Taken(config.limits, true, s), Taken(config.limits, false, s);
    if s.control.Some? {
      ControlLeaves(c, s.control.value, one, other);
    } else {
      DataLeaves(config, c, s.messageOpcode, s.partial, one, other);
    }
  }

  lemma {:induction false} TurnsAgreeExactly(config: Config, c: Conn)
    requires config.retest && Regular(config.limits, c.engine)
    ensures ProcessLoop(AsWritten(config), c) == ProcessLoop(config, c) <==> ClearTurns(config, c)
    decreases |c.engine.input|, Flags(c.engine)
  {
    TurnShrinks(config, c);
    TurnShrinks(AsWritten(config), c);
    var s := c.engine;
    if !s.error && Pending(s) {
      var t, u := LoopTurn(config, c), LoopTurn(AsWritten(config), c);
      TurnLeaves(config, c);
      LoopAgreesOrParts(config.limits, Released(s));
      LoopRegular(config.limits, Released(s));
      if t.more {
        if Clear(t.conn.engine) {
          TurnsAgreeExactly(config, t.conn);
        } else {
          PartedStaysApart(config, t.conn);
        }
      }
    }
  }

  /** The loop runs when bytes are added to an engine with nothing pending. */
  predicate ClearAdd(limits: Limits, s: State, chunk: bytes) {
    Pending(s) || Clear(Reassembly.Add(limits, true, s, chunk))
  }

  lemma AddAgreesOrParts(limits: Limits, s: State, chunk: bytes)
    requires Regular(limits, s)
    ensures var t, r := Reassembly.Add(limits, true, s, chunk), Reassembly.Add(limits, false, s, chunk);
      Regular(limits, t) && if ClearAdd(limits, s, chunk) then r == t
                            else Parting(limits, t) && r == Loop(limits, false, t) && r != t
  {
    AddContinues(limits, s, chunk);
    if !Pending(s) {
      LoopAgreesOrParts(limits, Loaded(limits, s, chunk));
    }
  }

  /** Every run of the loop during a read ends clear. */
  predicate ClearRead(config: Config, c: Conn, happening: Happening) {
    happening.ClientData? && c.ws == WS_ST_RECEIVING && !Deleted(c) ==>
      var fed := c.(received := c.received + happening.chunk);
      ClearAdd(config.limits, c.engine, fed.received) && ClearTurns(config, Admit(config, fed))
  }

  lemma ReadAgreesExactly(config: Config, c: Conn)
    requires config.retest && Regular(config.limits, c.engine)
    ensures ProcessFrame(AsWritten(config), c) == ProcessFrame(config, c)
      <==> ClearAdd(config.limits, c.engine, c.received) && ClearTurns(config, Admit(config, c))
  {
    var t, u := Admit(config, c), Admit(AsWritten(config), c);
    AddAgreesOrParts(config.limits, c.engine, c.received);
    assert u == t.(engine := Reassembly.Add(config.limits, false, c.engine, c.received));
    if ClearAdd(config.limits, c.engine, c.received) {
      TurnsAgreeExactly(config, t);
    } else {
      PartedStaysApart(config, t);
    }
  }

  lemma StepAgreesExactly(config: Config, c: Conn, happening: Happening)
    requires config.retest && Regular(config.limits, c.engine)
    ensures Step(AsWritten(config), c, happening) == Step(config, c, happening) <==> ClearRead(config, c, happening)
  {
    if happening.ClientData? && c.ws == WS_ST_RECEIVING && !Deleted(c) {
      ReadAgreesExactly(config, c.(received := c.received + happening.chunk));
    }
  }

  // ---- Whole runs ----

  /** After each of these callbacks the two connections are the same. */
  predicate SameRun(config: Config, c: Conn, happenings: seq<Happening>)
    decreases |happenings|
  {
    happenings != [] ==>
      && Step(AsWritten(config), c, happenings[0]) == Step(config, c, happenings[0])
      && SameRun(config, Step(config, c, happenings[0]), happenings[1..])
  }

  predicate ClearRun(config: Config, c: Conn, happenings: seq<Happening>)
    decreases |happenings|
  {
    happenings != [] ==>
      ClearRead(config, c, happenings[0]) && ClearRun(config, Step(config, c, happenings[0]), happenings[1..])
  }

  /**
   Over every run: the code as it stands and the re-tested loop leave the same connection behind after each
   callback if and only if no loop that ran completed a message in front of a buffered frame.
   */
  lemma {:induction false} RunAgreesExactly(config: Config, c: Conn, happenings: seq<Happening>)
    requires config.retest && Faithful(config.limits, c)
    ensures SameRun(config, c, happenings) <==> ClearRun(config, c, happenings)
    decreases |happenings|
  {
    if happenings != [] {
      StepAgreesExactly(config, c, happenings[0]);
      StepFaithful(config, c, happenings[0]);
      RunAgreesExactly(config, Step(config, c, happenings[0]), happenings[1..]);
    }
  }

  lemma {:induction false} SameRunEnds(config: Config, c: Conn, happenings: seq<Happening>)
    requires SameRun(config, c, happenings)
    ensures RunAll(AsWritten(config), c, happenings) == RunAll(config, c, happenings)
    decreases |happenings|
  {
    if happenings != [] {
      SameRunEnds(config, Step(config, c, happenings[0]), happenings[1..]);
    }
  }

  /** From a new connection on. */
  lemma EveryRunAgreesExactly(config: Config, happenings: seq<Happening>)
    requires config.retest
    ensures SameRun(config, Initial, happenings) <==> ClearRun(config, Initial, happenings)
    ensures ClearRun(config, Initial, happenings) ==>
      RunAll(AsWritten(config), Initial, happenings) == RunAll(config, Initial, happenings)
  {
    RunFaithful(config, Initial, []);
    RunAgreesExactly(config, Initial, happenings);
    if SameRun(config, Initial, happenings) {
      SameRunEnds(config, Initial, happenings);
    }
  }

  /** A run in which no read leaves a frame behind a completed message is such a run. */
  lemma {:induction false} QuietIsClear(config: Config, c: Conn, happenings: seq<Happening>)
    requires config.retest && Faithful(config.limits, c) && QuietRun(config, c, happenings)
    ensures ClearRun(config, c, happenings)
    decreases |happenings|
  {
    if happenings != [] {
      StepAgrees(config, c, happenings[0]);
      StepAgreesExactly(config, c, happenings[0]);
      StepFaithful(config, c, happenings[0]);
      QuietIsClear(config, Step(config, c, happenings[0]), happenings[1..]);
    }
  }

  /** On those runs the code as it stands takes the client's stream in order and passes its texts on. */
  lemma AsWrittenFramesToServer(config: Config, happenings: seq<Happening>, list: seq<Sent>)
    requires config.retest && ClearRun(config, Initial, happenings) && AllSendable(list)
    requires RunAll(AsWritten(config), Initial, happenings).history.admitted <= Stream(list)
    ensures var c := RunAll(AsWritten(config), Initial, happenings); var fs := FramesOf(list);
      && c.history.consumed <= Completed(config.limits, fs[..Legal(config.limits, fs)])
      && Decode(config.limits, Idle, c.history.admitted).events
        == c.history.consumed + Drain(config.limits, true, c.engine).events
      && PayloadsOf(c.history.delivered) == Texts(c.history.consumed)
      && c.history.upstream <= Accepted(c.history.delivered)
  {
    EveryRunAgreesExactly(config, happenings);
    TakesTheStreamInOrder(config, happenings);
    FromFramesToServer(config, happenings, list);
  }
}
