/**
 How much one read takes. The loop of wsconn_process_frame takes what is pending up to and including the
 first Ping, Close or binary message; what lies behind it waits in the engine for another read.
 */
module Taking {
  import opened Wrappers
  import opened Bytes
  import opened FrameCodec
  import opened Reassembly
  import opened Connection
  import opened Consumption
  import opened Agreement
  import opened Divergence

  /** The loop ends behind this event. */
  predicate Stops(e: Event) {
    match e
    case Control(frame) => frame.opcode == OPCODE_PING || frame.opcode == OPCODE_CLOSE
    case Message(opcode, _) => opcode == OPCODE_BINARY
  }

  /** The events up to and including the first at which the loop ends. */
  function Through(events: seq<Event>): seq<Event>
    decreases |events|
  {
    if events == [] then []
    else [events[0]] + if Stops(events[0]) then [] else Through(events[1..])
  }

  /** Only the last of these, if any, ends the loop. */
  predicate OnlyLastStops(events: seq<Event>) {
    forall i :: 0 <= i < |events| - 1 ==> !Stops(events[i])
  }

  lemma {:induction false} ThroughAllExactly(events: seq<Event>)
    ensures Through(events) == events <==> OnlyLastStops(events)
    ensures Through(events) <= events && (events != [] ==> Through(events) != [])
    decreases |events|
  {
    if events != [] {
      var rest := events[1..];
      ThroughAllExactly(rest);
      assert events == [events[0]] + rest;
      if OnlyLastStops(rest) && (rest != [] ==> !Stops(events[0])) {
        forall i | 0 <= i < |events| - 1
          ensures !Stops(events[i])
        {
          assert i > 0 ==> events[i] == rest[i - 1];
        }
      }
      if OnlyLastStops(events) {
        assert forall i :: 0 <= i < |rest| - 1 ==> rest[i] == events[i + 1];
      }
      if Through(events) == events {
        assert Through(events)[1..] == rest;
      }
    }
  }

  /** One turn takes the next event, and goes on if that is not one at which the loop ends. */
  lemma TurnTakes(config: Config, c: Conn)
    requires !c.engine.error && Pending(c.engine)
    ensures var t := LoopTurn(config, c);
      && t.conn.history.consumed == c.history.consumed + [Next(c.engine)]
      && t.conn.engine == Taken(config.limits, config.retest, c.engine)
      && t.more == !Stops(Next(c.engine))
  {
    var s := c.engine;
    var engine := Taken(config.limits, config.retest, s);
    if s.control.Some? {
      OnControlIntake(c, s.control.value, engine);
    } else {
      OnDataIntake(config, c, s.messageOpcode, s.partial, engine);
    }
  }

  lemma DrainNext(limits: Limits, retest: bool, s: State)
    requires !s.error && Pending(s)
    ensures Drain(limits, retest, s) == After(Next(s), Drain(limits, retest, Taken(limits, retest, s)))
  {
  }

  /** With either loop: what the engine would yield is taken up to the first event at which the loop ends. */
  lemma {:induction false} LoopTakes(config: Config, c: Conn)
    ensures var events := Drain(config.limits, config.retest, c.engine).events;
      ProcessLoop(config, c).history.consumed == c.history.consumed + Through(events)
    decreases |c.engine.input|, Flags(c.engine)
  {
    var s := c.engine;
    if !s.error && Pending(s) {
      TurnTakes(config, c);
      TurnShrinks(config, c);
      DrainNext(config.limits, config.retest, s);
      var events := Drain(config.limits, config.retest, Taken(config.limits, config.retest, s)).events;
      assert ([Next(s)] + events)[1..] == events;
      if !Stops(Next(s)) {
        LoopTakes(config, LoopTurn(config, c).conn);
        Assoc(c.history.consumed, [Next(s)], Through(events));
      }
    } else {
      assert c.history.consumed + [] == c.history.consumed;
    }
  }

  lemma {:induction false} LoopAdmitsNothing(config: Config, c: Conn)
    ensures ProcessLoop(config, c).history.admitted == c.history.admitted
    decreases |c.engine.input|, Flags(c.engine)
  {
    TurnAdmitsNothing(config, c);
    TurnShrinks(config, c);
    if LoopTurn(config, c).more {
      LoopAdmitsNothing(config, LoopTurn(config, c).conn);
    }
  }

  lemma TurnAdmitsNothing(config: Config, c: Conn)
    ensures LoopTurn(config, c).conn.history.admitted == c.history.admitted
  {
    var s := c.engine;
    if !s.error && s.control.Some? {
      OnControlIntake(c, s.control.value, TakeControl(config.limits, config.retest, s));
    } else if !s.error && s.message {
      OnDataIntake(config, c, s.messageOpcode, s.partial, TakeMessage(config.limits, config.retest, s));
    }
  }

  /** What the bytes admitted so far still mean beyond what has been taken. */
  function Outstanding(limits: Limits, admitted: bytes, consumed: seq<Event>): seq<Event> {
    var events := Decode(limits, Idle, admitted).events;
    if |consumed| <= |events| then events[|consumed|..] else []
  }

  lemma ReadTakes(config: Config, c: Conn, happening: Happening)
    requires config.retest && Faithful(config.limits, c)
    requires happening.ClientData? && c.ws == WS_ST_RECEIVING && !Deleted(c)
    ensures var d := Step(config, c, happening);
      d.history.consumed
      == c.history.consumed + Through(Outstanding(config.limits, d.history.admitted, c.history.consumed))
  {
    var fed := c.(received := c.received + happening.chunk);
    var loaded := Admit(config, fed);
    AdmitFaithful(config, fed);
    LoopTakes(config, loaded);
    LoopAdmitsNothing(config, loaded);
    Halves(c.history.consumed, Drain(config.limits, true, loaded.engine).events);
  }

  /**
   Over every run: a read takes, of everything admitted and not yet taken, what comes up to the first Ping,
   Close or binary message and that event itself. It takes everything if and only if no such event comes
   before the last one.
   */
  lemma ReadTakesExactly(config: Config, happenings: seq<Happening>, chunk: bytes, outcome: Outcome, used: nat)
    requires config.retest
    requires var c := RunAll(config, Initial, happenings); c.ws == WS_ST_RECEIVING && !Deleted(c)
    ensures var c := RunAll(config, Initial, happenings);
      var d := Step(config, c, ClientData(chunk, outcome, used));
      var waiting := Outstanding(config.limits, d.history.admitted, c.history.consumed);
      && d.history.consumed == c.history.consumed + Through(waiting)
      && (d.history.consumed == Decode(config.limits, Idle, d.history.admitted).events <==> OnlyLastStops(waiting))
  {
    var c := RunAll(config, Initial, happenings);
    var read := ClientData(chunk, outcome, used);
    var d := Step(config, c, read);
    RunFaithful(config, Initial, happenings);
    ReadTakes(config, c, read);
    StepFaithful(config, c, read);
    var events, waiting := Decode(config.limits, Idle, d.history.admitted).events,
      Outstanding(config.limits, d.history.admitted, c.history.consumed);
    ConsumedIsPrefix(c.history.consumed, Through(waiting), events);
    ThroughAllExactly(waiting);
    SameBehind(c.history.consumed, Through(waiting), waiting);
  }

  lemma ConsumedIsPrefix(a: seq<Event>, b: seq<Event>, events: seq<Event>)
    requires a + b <= events
    ensures |a| <= |events| && events == a + events[|a|..]
  {
    assert a == (a + b)[..|a|] == events[..|a|];
  }

  lemma SameBehind(a: seq<Event>, b: seq<Event>, c: seq<Event>)
    ensures a + b == a + c <==> b == c
  {
    Halves(a, b);
    Halves(a, c);
  }

  /** For the code as it stands too, on the runs on which it does what the re-tested loop does. */
  lemma AsWrittenReadTakesExactly(
      config: Config, happenings: seq<Happening>, chunk: bytes, outcome: Outcome, used: nat)
    requires config.retest && ClearRun(config, Initial, happenings)
    requires var c := RunAll(config, Initial, happenings);
      c.ws == WS_ST_RECEIVING && !Deleted(c) && ClearRead(config, c, ClientData(chunk, outcome, used))
    ensures var c := RunAll(AsWritten(config), Initial, happenings);
      var d := Step(AsWritten(config), c, ClientData(chunk, outcome, used));
      var waiting := Outstanding(config.limits, d.history.admitted, c.history.consumed);
      && d.history.consumed == c.history.consumed + Through(waiting)
      && (d.history.consumed == Decode(config.limits, Idle, d.history.admitted).events <==> OnlyLastStops(waiting))
  {
    EveryRunAgreesExactly(config, happenings);
    RunFaithful(config, Initial, happenings);
    StepAgreesExactly(config, RunAll(config, Initial, happenings), ClientData(chunk, outcome, used));
    ReadTakesExactly(config, happenings, chunk, outcome, used);
  }

  // ---- An input ----

  lemma DecodePingText(limits: Limits, b: bytes, n: nat, p: bytes, q: bytes)
    requires limits.frame == 0 && limits.message == 0
    requires DecodeFrame(b) == Ready(Frame(true, OPCODE_PING, false, p), n)
    requires DecodeFrame(b[n..]) == Ready(Frame(true, OPCODE_TEXT, false, q), |b| - n)
    ensures Decode(limits, Idle, b).events
      == [Control(Frame(true, OPCODE_PING, false, p)), Message(OPCODE_TEXT, q)]
  {
    DecodeText(limits, b[n..], q);
    var ping := Control(Frame(true, OPCODE_PING, false, p));
    assert Deliver(limits, Idle, Frame(true, OPCODE_PING, false, p)) == Delivery([ping], Idle);
    assert [ping] + [Message(OPCODE_TEXT, q)] == [ping, Message(OPCODE_TEXT, q)];
  }

  lemma DecodeText(limits: Limits, b: bytes, q: bytes)
    requires limits.frame == 0 && limits.message == 0
    requires DecodeFrame(b) == Ready(Frame(true, OPCODE_TEXT, false, q), |b|)
    ensures Decode(limits, Idle, b).events == [Message(OPCODE_TEXT, q)]
  {
    var frame := Frame(true, OPCODE_TEXT, false, q);
    assert b[|b|..] == [] && [] + q == q;
    assert Deliver(limits, Idle, frame) == Delivery([Message(OPCODE_TEXT, q)], Idle);
    assert Decode(limits, Idle, []) == Decoded([], false, [], Idle);
  }

  /** A connection that has just been upgraded and has read nothing else. */
  predicate JustUpgraded(c: Conn) {
    && c.ws == WS_ST_RECEIVING && !Deleted(c) && c.engine == Fresh && c.received == []
    && c.history.consumed == [] && c.history.admitted == [] && c.history.offered == []
  }

  /** A read whose first event is a Ping takes that and leaves the connection open with nothing unread. */
  lemma PingStopsRead(config: Config, c: Conn, b: bytes, frame: Frame, others: seq<Event>)
    requires config.retest && config.limits.frame == 0 && JustUpgraded(c) && frame.opcode == OPCODE_PING
    requires Decode(config.limits, Idle, b).events == [Control(frame)] + others
    ensures var d := Step(config, c, ClientData(b, Incomplete, 0));
      && d.history.consumed == [Control(frame)] && d.history.admitted == b && Faithful(config.limits, d)
      && d.ws == WS_ST_RECEIVING && !Deleted(d) && d.received == []
  {
    var read, loaded := ClientData(b, Incomplete, 0), Admit(config, c.(received := [] + b));
    assert [] + b == b;
    FreshFaithful(config.limits, c);
    ReadTakes(config, c, read);
    StepFaithful(config, c, read);
    OfferedByRead(config, c, b);
    assert Through([Control(frame)] + others) == [Control(frame)];
    AdmitFaithful(config, c.(received := b));
    FirstIsPending(config.limits, loaded.engine, Control(frame), others);
    PingTurn(config, loaded, frame);
  }

  lemma PingTurn(config: Config, c: Conn, frame: Frame)
    requires c.engine.control == Some(frame) && !c.engine.error && frame.opcode == OPCODE_PING
    ensures var d := ProcessLoop(config, c);
      d.ws == c.ws && d.history.callbacks == c.history.callbacks && d.received == c.received
  {
    var engine := TakeControl(config.limits, config.retest, c.engine);
    assert LoopTurn(config, c) == OnControl(c, frame, engine);
  }

  lemma FirstIsPending(limits: Limits, s: State, first: Event, others: seq<Event>)
    requires Regular(limits, s) && Drain(limits, true, s).events == [first] + others
    ensures !s.error && Pending(s) && Next(s) == first
  {
    if !s.error && Pending(s) {
      DrainOne(limits, true, s);
      assert ([first] + others)[0] == first;
    }
  }

  lemma FreshFaithful(limits: Limits, c: Conn)
    requires JustUpgraded(c)
    ensures Faithful(limits, c)
  {
    assert Decode(limits, Idle, []) == Decoded([], false, [], Idle);
  }

  lemma {:induction false} LoopOffersNothing(config: Config, c: Conn)
    ensures ProcessLoop(config, c).history.offered == c.history.offered
    decreases |c.engine.input|, Flags(c.engine)
  {
    TurnOffersNothing(config, c);
    TurnShrinks(config, c);
    if LoopTurn(config, c).more {
      LoopOffersNothing(config, LoopTurn(config, c).conn);
    }
  }

  lemma TurnOffersNothing(config: Config, c: Conn)
    ensures LoopTurn(config, c).conn.history.offered == c.history.offered
  {
    var s := c.engine;
    if !s.error && s.control.Some? {
      OnControlIntake(c, s.control.value, TakeControl(config.limits, config.retest, s));
    } else if !s.error && s.message {
      OnDataIntake(config, c, s.messageOpcode, s.partial, TakeMessage(config.limits, config.retest, s));
    }
  }

  lemma OfferedByRead(config: Config, c: Conn, chunk: bytes)
    requires c.ws == WS_ST_RECEIVING && !Deleted(c)
    ensures Step(config, c, ClientData(chunk, Incomplete, 0)).history.offered
      == c.history.offered + (c.received + chunk)
  {
    LoopOffersNothing(config, Admit(config, c.(received := c.received + chunk)));
  }

  /** A Ping and a text in one segment: the read takes the Ping, and the text waits for another read. */
  lemma TextWaitsBehindPing(config: Config)
    requires config.retest && config.limits == Limits(0, 0)
    ensures var b: bytes := [0x89, 0x00, 0x81, 0x01, 0x61];
      var open := Step(config, Initial, ClientData([], Upgraded([]), 0));
      var once := Step(config, open, ClientData(b, Incomplete, 0));
      var twice := Step(config, once, ClientData([], Incomplete, 0));
      && once.history.consumed == [Control(Frame(true, OPCODE_PING, false, []))]
      && twice.history.consumed == [Control(Frame(true, OPCODE_PING, false, [])), Message(OPCODE_TEXT, [0x61])]
  {
    var b: bytes := [0x89, 0x00, 0x81, 0x01, 0x61];
    assert b[2..2] == [] && b[2..] == [0x81, 0x01, 0x61];
    var text: bytes := [0x81, 0x01, 0x61];
    assert text[2..3] == [0x61];
    TextWaits(config, b, 2, [], [0x61]);
  }

  lemma TextWaits(config: Config, b: bytes, n: nat, p: bytes, q: bytes)
    requires config.retest && config.limits == Limits(0, 0)
    requires DecodeFrame(b) == Ready(Frame(true, OPCODE_PING, false, p), n)
    requires DecodeFrame(b[n..]) == Ready(Frame(true, OPCODE_TEXT, false, q), |b| - n)
    ensures var open := Step(config, Initial, ClientData([], Upgraded([]), 0));
      var once := Step(config, open, ClientData(b, Incomplete, 0));
      var twice := Step(config, once, ClientData([], Incomplete, 0));
      && once.history.consumed == [Control(Frame(true, OPCODE_PING, false, p))]
      && twice.history.consumed == [Control(Frame(true, OPCODE_PING, false, p)), Message(OPCODE_TEXT, q)]
  {
    var frame := Frame(true, OPCODE_PING, false, p);
    var open := Step(config, Initial, ClientData([], Upgraded([]), 0));
    UpgradedJustNow(config);
    DecodePingText(config.limits, b, n, p, q);
    assert [Control(frame), Message(OPCODE_TEXT, q)] == [Control(frame)] + [Message(OPCODE_TEXT, q)];
    PingStopsRead(config, open, b, frame, [Message(OPCODE_TEXT, q)]);
    SecondRead(config, Step(config, open, ClientData(b, Incomplete, 0)), b, Control(frame), Message(OPCODE_TEXT, q));
  }

  lemma UpgradedJustNow(config: Config)
    ensures JustUpgraded(Step(config, Initial, ClientData([], Upgraded([]), 0)))
  {
  }

  /** A read of no bytes takes what the one before left. */
  lemma SecondRead(config: Config, c: Conn, b: bytes, first: Event, second: Event)
    requires config.retest && Faithful(config.limits, c) && config.limits.frame == 0
    requires c.ws == WS_ST_RECEIVING && !Deleted(c) && c.received == []
    requires c.history.admitted == b && c.history.consumed == [first]
    requires Decode(config.limits, Idle, b).events == [first, second]
    ensures Step(config, c, ClientData([], Incomplete, 0)).history.consumed == [first, second]
  {
    var read := ClientData([], Incomplete, 0);
    var d := Step(config, c, read);
    ReadTakes(config, c, read);
    StepFaithful(config, c, read);
    OfferedByRead(config, c, []);
    assert b + ([] + []) == b;
    assert [first, second][1..] == [second] && Through([second]) == [second] + [];
    assert [first] + [second] == [first, second];
  }
}
