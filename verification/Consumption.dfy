/**
 What a connection takes from its client, over every run of the re-tested loop: at any moment the
 control frames and messages taken so far are the beginning of what the client's bytes mean, and the
 engine holds exactly the rest, even when the loop breaks off after a Ping.
 */
module Consumption {
  import opened Bytes
  import opened Buffers
  import opened FrameCodec
  import opened Reassembly
  import opened Connection
  import opened Lifecycle

  /** The engine between calls: at most one event pending, and a frame never left unprocessed. */
  predicate Regular(limits: Limits, s: State) {
    && Fits(2 * limits.frame, s.input)
    && (s.error ==> !s.message && s.control.None?)
    && (s.control.Some? ==> !s.message)
    && (s.message ==> s.started)
    && (!s.started ==> s.partial == [])
    && (Pending(s) || DecodeFrame(s.input).Building?)
  }

  lemma {:induction false} LoopRegular(limits: Limits, s: State)
    requires Quiescent(s) && Fits(2 * limits.frame, s.input)
    ensures Regular(limits, Loop(limits, true, s))
    decreases |s.input|
  {
    if DecodeFrame(s.input).Ready? {
      var n := DecodeFrame(s.input).consumed;
      var t := Accept(limits, s.(input := s.input[n..]), Stored(limits, DecodeFrame(s.input).frame));
      if !Pending(t) {
        LoopRegular(limits, t);
      }
    }
  }

  /** Draining `d` continues `before` by decoding `x` more bytes. */
  predicate Continues(limits: Limits, before: Drained, d: Drained, x: bytes) {
    if before.state.error then d.state.error && d.events == before.events
    else
      var m := Decode(limits, OpenOf(before.state), before.state.input + x);
      && d.events == before.events + m.events
      && d.state.error == m.failed
      && (!m.failed ==> d.state.input == m.rest && OpenOf(d.state) == m.open)
  }

  /** More input behind a pending event is more to decode once the event is taken. */
  lemma PendingAdd(limits: Limits, s: State, x: bytes)
    requires Regular(limits, s) && Pending(s) && !s.error
    ensures Continues(limits, Drain(limits, true, s), Drain(limits, true, s.(input := s.input + x)), x)
  {
    var t := s.(input := s.input + x);
    var open := OpenOf(Released(s));
    DrainOne(limits, true, s);
    DrainOne(limits, true, t);
    DrainDecodes(limits, Released(s));
    DrainDecodes(limits, Released(t));
    DecodeAppend(limits, open, s.input, x);
    var m := Decode(limits, open, s.input);
    if !m.failed {
      Assoc([Next(s)], m.events, Decode(limits, m.open, m.rest + x).events);
    }
  }

  lemma AddContinues(limits: Limits, s: State, chunk: bytes)
    requires Regular(limits, s)
    ensures var t := Add(limits, true, s, chunk);
      && Regular(limits, t)
      && Continues(limits, Drain(limits, true, s), Drain(limits, true, t), Admitted(limits, s, chunk))
  {
    var x := Admitted(limits, s, chunk);
    if s.error {
    } else if !AppendOk(2 * limits.frame, s.input, chunk) {
      assert x == [];
      NothingAdded(limits, s);
    } else if Pending(s) {
      PendingAdd(limits, s, x);
    } else {
      IdleAdd(limits, s, x);
    }
  }

  lemma IdleAdd(limits: Limits, s: State, x: bytes)
    requires Regular(limits, s) && !Pending(s) && Fits(2 * limits.frame, s.input + x)
    ensures var t := Loop(limits, true, s.(input := s.input + x));
      Regular(limits, t) && Continues(limits, Drain(limits, true, s), Drain(limits, true, t), x)
  {
    var fed := s.(input := s.input + x);
    assert Drain(limits, true, s) == Drained([], s);
    LoopRegular(limits, fed);
    DrainDecodes(limits, fed);
    assert OpenOf(fed) == OpenOf(s);
  }

  lemma NothingAdded(limits: Limits, s: State)
    requires Regular(limits, s) && !s.error
    ensures Continues(limits, Drain(limits, true, s), Drain(limits, true, s), [])
  {
    if Pending(s) {
      PendingAdd(limits, s, []);
      assert s.input + [] == s.input;
    } else {
      assert s.input + [] == s.input;
    }
  }

  /** Taken so far, plus what the engine would still yield, is what the admitted bytes mean. */
  predicate Faithful(limits: Limits, c: Conn) {
    var d := Drain(limits, true, c.engine);
    var e := Decode(limits, Idle, c.history.admitted);
    && Regular(limits, c.engine)
    && e.events == c.history.consumed + d.events
    && e.failed == d.state.error
    && (!e.failed ==> e.rest == d.state.input && e.open == OpenOf(d.state))
    && (limits.frame == 0 ==> c.history.admitted == c.history.offered)
  }

  /** The parts of a connection this depends on. */
  predicate SameIntake(c: Conn, d: Conn) {
    && d.engine == c.engine && d.history.consumed == c.history.consumed
    && d.history.admitted == c.history.admitted && d.history.offered == c.history.offered
  }

  lemma AdmitFaithful(config: Config, c: Conn)
    requires Faithful(config.limits, c) && config.retest
    ensures Faithful(config.limits, Admit(config, c))
  {
    var limits, s := config.limits, c.engine;
    var x := Admitted(limits, s, c.received);
    var d, e := Drain(limits, true, s), Decode(limits, Idle, c.history.admitted);
    AddContinues(limits, s, c.received);
    DecodeAppend(limits, Idle, c.history.admitted, x);
    if !e.failed {
      Assoc(c.history.consumed, d.events, Decode(limits, e.open, e.rest + x).events);
    }
    if limits.frame == 0 {
      assert (s.input + c.received)[|s.input|..] == c.received;
    }
  }

  /** Taking the pending event moves it from the engine to the events taken. */
  lemma ConsumeFaithful(limits: Limits, c: Conn)
    requires Faithful(limits, c) && !c.engine.error && Pending(c.engine)
    ensures Faithful(limits, Consume(c, Next(c.engine), Loop(limits, true, Released(c.engine))))
  {
    var s := c.engine;
    DrainOne(limits, true, s);
    LoopRegular(limits, Released(s));
    Assoc(c.history.consumed, [Next(s)], Drain(limits, true, Loop(limits, true, Released(s))).events);
  }

  lemma OnControlIntake(c: Conn, frame: Frame, engine: State)
    ensures SameIntake(Consume(c, Control(frame), engine), OnControl(c, frame, engine).conn)
  {
  }

  lemma OnDataIntake(config: Config, c: Conn, opcode: byte, payload: bytes, engine: State)
    ensures SameIntake(Consume(c, Message(opcode, payload), engine), OnData(config, c, opcode, payload, engine).conn)
  {
  }

  lemma TurnFaithful(config: Config, c: Conn)
    requires Faithful(config.limits, c) && config.retest
    ensures Faithful(config.limits, LoopTurn(config, c).conn)
  {
    var s := c.engine;
    if !s.error && Pending(s) {
      ConsumeFaithful(config.limits, c);
      var next := Loop(config.limits, true, Released(s));
      if s.control.Some? {
        OnControlIntake(c, s.control.value, next);
      } else {
        OnDataIntake(config, c, s.messageOpcode, s.partial, next);
      }
    } else {
      assert SameIntake(c, LoopTurn(config, c).conn);
    }
  }

  lemma {:induction false} ProcessLoopFaithful(config: Config, c: Conn)
    requires Faithful(config.limits, c) && config.retest
    ensures Faithful(config.limits, ProcessLoop(config, c))
    decreases |c.engine.input|, Flags(c.engine)
  {
    TurnFaithful(config, c);
    TurnShrinks(config, c);
    if LoopTurn(config, c).more {
      ProcessLoopFaithful(config, LoopTurn(config, c).conn);
    }
  }

  lemma StepFaithful(config: Config, c: Conn, happening: Happening)
    requires Faithful(config.limits, c) && config.retest
    ensures Faithful(config.limits, Step(config, c, happening))
  {
    if !Deleted(c) && happening.ClientData? && c.ws == WS_ST_RECEIVING {
      var d := c.(received := c.received + happening.chunk);
      AdmitFaithful(config, d);
      ProcessLoopFaithful(config, Admit(config, d));
    } else {
      StepIntake(config, c, happening);
      SameIntakeFaithful(config.limits, c, Step(config, c, happening));
    }
  }

  lemma SameIntakeFaithful(limits: Limits, c: Conn, d: Conn)
    requires Faithful(limits, c) && SameIntake(c, d)
    ensures Faithful(limits, d)
  {
  }

  lemma StepIntake(config: Config, c: Conn, happening: Happening)
    requires Deleted(c) || !(happening.ClientData? && c.ws == WS_ST_RECEIVING)
    ensures SameIntake(c, Step(config, c, happening))
  {
    if happening.UpstreamConnected? {
    } else {
      OtherStepsAside(config, c, happening);
    }
  }

  lemma {:induction false} RunFaithful(config: Config, c: Conn, happenings: seq<Happening>)
    requires Faithful(config.limits, c) && config.retest
    ensures Faithful(config.limits, RunAll(config, c, happenings))
    decreases |happenings|
  {
    if happenings != [] {
      StepFaithful(config, c, happenings[0]);
      RunFaithful(config, Step(config, c, happenings[0]), happenings[1..]);
    }
  }

  /**
   Every run of the re-tested loop, with reads, writes, upstream events and breaks after Pings in any
   order: what was taken from the client is a prefix of the decoding of the bytes admitted, which
   without a frame limit are all the bytes read; and the rest is still in the engine.
   */
  lemma TakesTheStreamInOrder(config: Config, happenings: seq<Happening>)
    requires config.retest
    ensures var c := RunAll(config, Initial, happenings);
      var e := Decode(config.limits, Idle, c.history.admitted);
      && c.history.consumed <= e.events
      && e.events == c.history.consumed + Drain(config.limits, true, c.engine).events
      && (config.limits.frame == 0 ==> c.history.admitted == c.history.offered)
  {
    RunFaithful(config, Initial, happenings);
  }
}
