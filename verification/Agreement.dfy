/**
 The code as it stands at the level of whole connections: on every run in which no read leaves a frame
 behind a completed message, which can be told from the bytes, it does what the re-tested loop does.
 */
module Agreement {
  import opened Bytes
  import opened Buffers
  import opened FrameCodec
  import opened Reassembly
  import opened Connection
  import opened Consumption

  /** Once what is pending has been taken, no frame is buffered behind a frame that completes a message. */
  predicate Quiet(limits: Limits, s: State) {
    !s.error ==> NoBacklog(limits, OpenOf(Released(s)), s.input)
  }

  lemma {:induction false} LoopAgrees(limits: Limits, s: State)
    requires Quiescent(s) && Quiet(limits, s)
    ensures Loop(limits, false, s) == Loop(limits, true, s) && Quiet(limits, Loop(limits, true, s))
    decreases |s.input|
  {
    if DecodeFrame(s.input).Ready? {
      var t := OneTurn(limits, s);
      if !Pending(t) {
        LoopAgrees(limits, t);
      }
    }
  }

  /** Taking what is pending. */
  function Taken(limits: Limits, retest: bool, s: State): State
    requires s.control.Some? || s.message
  {
    if s.control.Some? then TakeControl(limits, retest, s) else TakeMessage(limits, retest, s)
  }

  lemma TakenAgrees(limits: Limits, s: State)
    requires Regular(limits, s) && Quiet(limits, s) && !s.error && Pending(s)
    ensures Taken(limits, false, s) == Taken(limits, true, s)
    ensures var t := Taken(limits, true, s); Regular(limits, t) && Quiet(limits, t)
  {
    LoopAgrees(limits, Released(s));
    LoopRegular(limits, Released(s));
  }

  /** The configuration of the code as it stands. */
  function AsWritten(config: Config): Config { config.(retest := false) }

  lemma TurnAgrees(config: Config, c: Conn)
    requires config.retest && Regular(config.limits, c.engine) && Quiet(config.limits, c.engine)
    ensures LoopTurn(AsWritten(config), c) == LoopTurn(config, c)
    ensures var d := LoopTurn(config, c).conn; Regular(config.limits, d.engine) && Quiet(config.limits, d.engine)
  {
    var s := c.engine;
    if !s.error && Pending(s) {
      TakenAgrees(config.limits, s);
      var engine := Taken(config.limits, true, s);
      if s.control.Some? {
        OnControlIntake(c, s.control.value, engine);
      } else {
        OnDataIntake(config, c, s.messageOpcode, s.partial, engine);
      }
    }
  }

  lemma {:induction false} ProcessLoopAgrees(config: Config, c: Conn)
    requires config.retest && Regular(config.limits, c.engine) && Quiet(config.limits, c.engine)
    ensures ProcessLoop(AsWritten(config), c) == ProcessLoop(config, c)
    ensures Regular(config.limits, ProcessLoop(config, c).engine)
    decreases |c.engine.input|, Flags(c.engine)
  {
    TurnAgrees(config, c);
    TurnShrinks(config, c);
    if LoopTurn(config, c).more {
      ProcessLoopAgrees(config, LoopTurn(config, c).conn);
    }
  }

  /** The engine with what the frame buffer lets in of a chunk, before anything is processed. */
  function Loaded(limits: Limits, s: State, chunk: bytes): State {
    s.(input := Cut(2 * limits.frame, s.input + chunk))
  }

  lemma AddAgrees(limits: Limits, s: State, chunk: bytes)
    requires Regular(limits, s) && Quiet(limits, Loaded(limits, s, chunk))
    ensures Reassembly.Add(limits, false, s, chunk) == Reassembly.Add(limits, true, s, chunk)
    ensures var t := Reassembly.Add(limits, true, s, chunk); Regular(limits, t) && Quiet(limits, t)
  {
    AddContinues(limits, s, chunk);
    var fed := Loaded(limits, s, chunk);
    if !AppendOk(2 * limits.frame, s.input, chunk) {
      assert fed.input == s.input;
    } else if !Pending(s) {
      LoopAgrees(limits, fed);
    }
  }

  /** A read while frames are being received leaves no backlog. */
  predicate QuietRead(config: Config, c: Conn, happening: Happening) {
    happening.ClientData? && c.ws == WS_ST_RECEIVING && !Deleted(c) ==>
      Quiet(config.limits, Loaded(config.limits, c.engine, c.received + happening.chunk))
  }

  predicate QuietRun(config: Config, c: Conn, happenings: seq<Happening>)
    decreases |happenings|
  {
    happenings != [] ==>
      QuietRead(config, c, happenings[0]) && QuietRun(config, Step(config, c, happenings[0]), happenings[1..])
  }

  lemma ReadAgrees(config: Config, c: Conn)
    requires config.retest && Regular(config.limits, c.engine)
    requires Quiet(config.limits, Loaded(config.limits, c.engine, c.received))
    ensures ProcessFrame(AsWritten(config), c) == ProcessFrame(config, c)
    ensures Regular(config.limits, ProcessFrame(config, c).engine)
  {
    AddAgrees(config.limits, c.engine, c.received);
    assert Admit(AsWritten(config), c) == Admit(config, c);
    ProcessLoopAgrees(config, Admit(config, c));
  }

  lemma StepAgrees(config: Config, c: Conn, happening: Happening)
    requires config.retest && Regular(config.limits, c.engine) && QuietRead(config, c, happening)
    ensures Step(AsWritten(config), c, happening) == Step(config, c, happening)
    ensures Regular(config.limits, Step(config, c, happening).engine)
  {
    if happening.ClientData? && c.ws == WS_ST_RECEIVING && !Deleted(c) {
      ReadAgrees(config, c.(received := c.received + happening.chunk));
    } else {
      StepIntake(config, c, happening);
    }
  }

  /** With no backlog at any read the code as it stands takes every step of the re-tested loop. */
  lemma {:induction false} RunAgrees(config: Config, c: Conn, happenings: seq<Happening>)
    requires config.retest && Regular(config.limits, c.engine) && QuietRun(config, c, happenings)
    ensures RunAll(AsWritten(config), c, happenings) == RunAll(config, c, happenings)
    decreases |happenings|
  {
    if happenings != [] {
      StepAgrees(config, c, happenings[0]);
      RunAgrees(config, Step(config, c, happenings[0]), happenings[1..]);
    }
  }
}
