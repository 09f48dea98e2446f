/**
 What a read does to the socket, and what it does with the code as it stands: which events are taken, and
 whether the connection is then open, closing or closed, in terms of the bytes and frames that have arrived.
 */
module Reads {
  import opened Wrappers
  import opened Bytes
  import opened Buffers
  import opened FrameCodec
  import opened Reassembly
  import opened Connection
  import opened Lifecycle
  import opened Consumption
  import opened Agreement
  import opened WrittenLoop
  import opened Taking

  // ---- The socket after a read ----

  /** The socket behind an event at which the loop ends. */
  function AfterStop(e: Event): WsState {
    match e
    case Control(frame) => if frame.opcode == OPCODE_PING then WS_ST_RECEIVING else WS_ST_CLOSING
    case Message(_, _) => WS_ST_CLOSED
  }

  /** The socket behind these events, and a failure after them. */
  function SocketAfter(events: seq<Event>, failed: bool): WsState
    decreases |events|
  {
    if events == [] then if failed then WS_ST_CLOSED else WS_ST_RECEIVING
    else if Stops(events[0]) then AfterStop(events[0])
    else SocketAfter(events[1..], failed)
  }

  predicate NoneStops(events: seq<Event>) {
    forall i :: 0 <= i < |events| ==> !Stops(events[i])
  }

  lemma {:induction false} NoneStopsLeavesOpen(events: seq<Event>, failed: bool)
    requires NoneStops(events)
    ensures SocketAfter(events, failed) == if failed then WS_ST_CLOSED else WS_ST_RECEIVING
    decreases |events|
  {
    if events != [] {
      NoneStopsLeavesOpen(events[1..], failed);
    }
  }

  lemma CloseFires(c: Conn)
    requires c.cm == CM_ST_CREATED
    ensures Close(c).ws == WS_ST_CLOSED && WSCB_CLOSE in Close(c).history.callbacks
  {
  }

  lemma InitiateCloseFires(c: Conn, status: nat, reason: bytes)
    requires c.cm == CM_ST_CREATED && !c.wsClosing && status < 0x1_0000
    ensures var d := InitiateClose(c, status, reason);
      d.ws == WS_ST_CLOSING && WSCB_CLOSE in d.history.callbacks
  {
  }

  /** A turn that ends the loop leaves the socket as the event asks. */
  lemma TurnEnds(config: Config, c: Conn)
    requires Sound(c) && c.ws == WS_ST_RECEIVING && !c.engine.error && Pending(c.engine) && Stops(Next(c.engine))
    ensures var d := LoopTurn(config, c).conn;
      d.ws == AfterStop(Next(c.engine)) && (d.ws != WS_ST_RECEIVING ==> WSCB_CLOSE in d.history.callbacks)
  {
    var s := c.engine;
    var engine := Taken(config.limits, config.retest, s);
    if s.control.Some? {
      var taken := Consume(c, Control(s.control.value), engine);
      var reply := CloseReply(s.control.value.payload);
      InitiateCloseFires(taken, reply.0, reply.1);
    } else {
      CloseFires(Consume(c, Message(s.messageOpcode, s.partial), engine));
    }
  }

  /** With either loop: where the socket is when the loop has ended, and that a closed one has been announced. */
  lemma {:induction false} LoopEnds(config: Config, c: Conn)
    requires Sound(c) && c.ws == WS_ST_RECEIVING
    ensures var drained, d := Drain(config.limits, config.retest, c.engine), ProcessLoop(config, c);
      && d.ws == SocketAfter(drained.events, drained.state.error)
      && (d.ws != WS_ST_RECEIVING ==> WSCB_CLOSE in d.history.callbacks)
    decreases |c.engine.input|, Flags(c.engine)
  {
    var s := c.engine;
    if s.error {
      CloseFires(c);
    } else if Pending(s) {
      var rest := Drain(config.limits, config.retest, Taken(config.limits, config.retest, s));
      TurnTakes(config, c);
      TurnShrinks(config, c);
      TurnAdvances(config, c);
      DrainNext(config.limits, config.retest, s);
      assert ([Next(s)] + rest.events)[1..] == rest.events;
      if Stops(Next(s)) {
        TurnEnds(config, c);
      } else {
        LoopEnds(config, LoopTurn(config, c).conn);
      }
    }
  }

  lemma ReadEnds(config: Config, c: Conn, happening: Happening)
    requires config.retest && Faithful(config.limits, c) && Sound(c)
    requires happening.ClientData? && c.ws == WS_ST_RECEIVING && !Deleted(c)
    ensures var d := Step(config, c, happening);
      && d.ws == SocketAfter(Outstanding(config.limits, d.history.admitted, c.history.consumed),
                             Decode(config.limits, Idle, d.history.admitted).failed)
      && (d.ws != WS_ST_RECEIVING ==> WSCB_CLOSE in d.history.callbacks)
  {
    var fed := c.(received := c.received + happening.chunk);
    var loaded := Admit(config, fed);
    AdmitFaithful(config, fed);
    LoopEnds(config, loaded);
    LoopAdmitsNothing(config, loaded);
    Halves(c.history.consumed, Drain(config.limits, true, loaded.engine).events);
  }

  /**
   Over every run: a read leaves the socket closed if the bytes admitted decode with a failure and none of the
   events still to be taken is a Ping, Close or binary message; otherwise the first of these decides, a Ping
   leaving it open; and without them or a failure it stays open. A socket that is no longer open has been
   announced with WSCB_CLOSE.
   */
  lemma ReadEndsExactly(config: Config, happenings: seq<Happening>, chunk: bytes, outcome: Outcome, used: nat)
    requires config.retest
    requires var c := RunAll(config, Initial, happenings); c.ws == WS_ST_RECEIVING && !Deleted(c)
    ensures var c := RunAll(config, Initial, happenings);
      var d := Step(config, c, ClientData(chunk, outcome, used));
      var waiting := Outstanding(config.limits, d.history.admitted, c.history.consumed);
      var failed := Decode(config.limits, Idle, d.history.admitted).failed;
      && d.ws == SocketAfter(waiting, failed)
      && (NoneStops(waiting) ==> (d.ws == WS_ST_CLOSED <==> failed))
      && (d.ws != WS_ST_RECEIVING ==> WSCB_CLOSE in d.history.callbacks)
  {
    var c := RunAll(config, Initial, happenings);
    RunFaithful(config, Initial, happenings);
    RunAdvances(config, Initial, happenings);
    ReadEnds(config, c, ClientData(chunk, outcome, used));
    var d := Step(config, c, ClientData(chunk, outcome, used));
    var waiting := Outstanding(config.limits, d.history.admitted, c.history.consumed);
    if NoneStops(waiting) {
      NoneStopsLeavesOpen(waiting, Decode(config.limits, Idle, d.history.admitted).failed);
    }
  }

  /** A failure that a Ping has put off closes the socket with the next read, whatever it brings. */
  lemma NextReadCloses(config: Config, happenings: seq<Happening>, chunk: bytes, outcome: Outcome, used: nat)
    requires config.retest
    requires var c := RunAll(config, Initial, happenings);
      && c.ws == WS_ST_RECEIVING && !Deleted(c)
      && Decode(config.limits, Idle, c.history.admitted).failed
      && NoneStops(Outstanding(config.limits, c.history.admitted, c.history.consumed))
    ensures var d := Step(config, RunAll(config, Initial, happenings), ClientData(chunk, outcome, used));
      d.ws == WS_ST_CLOSED && WSCB_CLOSE in d.history.callbacks
  {
    var c := RunAll(config, Initial, happenings);
    var d := Step(config, c, ClientData(chunk, outcome, used));
    ReadEndsExactly(config, happenings, chunk, outcome, used);
    RunFaithful(config, Initial, happenings);
    AdmittedGrows(config, c, c.received + chunk);
    var more := d.history.admitted[|c.history.admitted|..];
    assert d.history.admitted == c.history.admitted + more;
    DecodeAppend(config.limits, Idle, c.history.admitted, more);
  }

  /** What a read adds to the bytes admitted: all of it, or as much as fills the frame buffer. */
  lemma AdmittedGrows(config: Config, c: Conn, chunk: bytes)
    requires Regular(config.limits, c.engine)
    ensures var d := ProcessFrame(config, c.(received := chunk)); var x := Admitted(config.limits, c.engine, chunk);
      && d.history.admitted == c.history.admitted + x && x <= chunk
      && (x == chunk || |c.engine.input + x| == 2 * config.limits.frame)
  {
    LoopAdmitsNothing(config, Admit(config, c.(received := chunk)));
    if config.limits.frame == 0 || |c.engine.input + chunk| <= 2 * config.limits.frame {
      assert (c.engine.input + chunk)[|c.engine.input|..] == chunk;
    }
  }

  // ---- The code as it stands ----

  /** Where calls on an engine can leave it, with either loop. */
  predicate Coherent(s: State) {
    && (s.message ==> s.started) && (!s.started ==> s.partial == [])
    && (s.error || Pending(s) || DecodeFrame(s.input).Building?)
  }

  lemma {:induction false} LoopCoherent(limits: Limits, retest: bool, s: State)
    requires s.control.None? && !s.error && (s.message ==> s.started) && (!s.started ==> s.partial == [])
    ensures Coherent(Loop(limits, retest, s))
    decreases |s.input|
  {
    if DecodeFrame(s.input).Ready? {
      var n := DecodeFrame(s.input).consumed;
      var t := Accept(limits, s.(input := s.input[n..]), Stored(limits, DecodeFrame(s.input).frame));
      if t.control.None? && !t.error {
        LoopCoherent(limits, retest, t);
      }
    }
  }

  lemma TakenCoherent(limits: Limits, retest: bool, s: State)
    requires Coherent(s) && !s.error && Pending(s)
    ensures Coherent(Taken(limits, retest, s))
  {
    var released := Released(s);
    if !Pending(released) {
      LoopCoherent(limits, retest, released);
    }
  }

  lemma AddCoherent(limits: Limits, retest: bool, s: State, chunk: bytes)
    requires Coherent(s)
    ensures Coherent(Reassembly.Add(limits, retest, s, chunk))
  {
    if !Pending(s) {
      LoopCoherent(limits, retest, Loaded(limits, s, chunk));
    }
  }

  lemma {:induction false} ProcessLoopCoherent(config: Config, c: Conn)
    requires Coherent(c.engine)
    ensures Coherent(ProcessLoop(config, c).engine)
    decreases |c.engine.input|, Flags(c.engine)
  {
    if !c.engine.error && Pending(c.engine) {
      TurnTakes(config, c);
      TurnShrinks(config, c);
      TakenCoherent(config.limits, config.retest, c.engine);
      if LoopTurn(config, c).more {
        ProcessLoopCoherent(config, LoopTurn(config, c).conn);
      }
    }
  }

  lemma StepCoherent(config: Config, c: Conn, happening: Happening)
    requires Coherent(c.engine)
    ensures Coherent(Step(config, c, happening).engine)
  {
    if !Deleted(c) && happening.ClientData? && c.ws == WS_ST_RECEIVING {
      var fed := c.(received := c.received + happening.chunk);
      AddCoherent(config.limits, config.retest, c.engine, fed.received);
      ProcessLoopCoherent(config, Admit(config, fed));
    } else {
      StepIntake(config, c, happening);
    }
  }

  lemma {:induction false} RunCoherent(config: Config, c: Conn, happenings: seq<Happening>)
    requires Coherent(c.engine)
    ensures Coherent(RunAll(config, c, happenings).engine)
    decreases |happenings|
  {
    if happenings != [] {
      StepCoherent(config, c, happenings[0]);
      RunCoherent(config, Step(config, c, happenings[0]), happenings[1..]);
    }
  }

  /** What is pending in an engine. */
  function Waiting(s: State): seq<Event> {
    (if s.control.Some? then [Control(s.control.value)] else [])
    + (if s.message then [Message(s.messageOpcode, s.partial)] else [])
  }

  /** What an engine with these bytes in its frame buffer comes to: what is pending, then what the frames come to. */
  function Offers(limits: Limits, s: State): Yield {
    if s.error then Yield([], true) else
    var p := ParseAll(s.input);
    var y := Yields(limits, if s.message then Idle else OpenOf(s), p.frames, p.broken);
    y.(events := Waiting(s) + y.events)
  }

  lemma NothingWaiting(y: Yield)
    ensures y.(events := ([] + []) + y.events) == y
  {
    assert [] + y.events == y.events;
  }

  lemma MessageWaits(limits: Limits, s: State)
    requires !s.error && s.message && s.started && s.control.None?
    ensures SameYield(Drain(limits, false, s), Offers(limits, s))
  {
    DrainMessage(limits, s);
    DrainYields(limits, Released(s));
    assert [] + [Message(s.messageOpcode, s.partial)] == [Message(s.messageOpcode, s.partial)];
  }

  lemma PendingOffers(limits: Limits, s: State)
    requires Coherent(s)
    ensures SameYield(Drain(limits, false, s), Offers(limits, s))
  {
    if !s.error {
      if s.control.Some? {
        var u := s.(control := None);
        DrainNext(limits, false, s);
        if s.message {
          MessageWaits(limits, u);
          TwoWait(s, Offers(limits, u), Yields(limits, Idle, ParseAll(s.input).frames, ParseAll(s.input).broken));
        } else {
          DrainYields(limits, u);
          assert [Control(s.control.value)] + [] == [Control(s.control.value)];
        }
      } else if s.message {
        MessageWaits(limits, s);
      } else {
        NothingWaiting(Yields(limits, OpenOf(s), [], false));
      }
    }
  }

  lemma TwoWait(s: State, z: Yield, y: Yield)
    requires s.control.Some? && s.message && z.events == Waiting(s.(control := None)) + y.events
    ensures [Control(s.control.value)] + z.events == Waiting(s) + y.events
  {
    var control, message := [Control(s.control.value)], [Message(s.messageOpcode, s.partial)];
    assert Waiting(s.(control := None)) == [] + message == message;
    assert control + (message + y.events) == (control + message) + y.events;
  }

  lemma AddOffers(limits: Limits, s: State, chunk: bytes)
    requires Coherent(s) && Fits(2 * limits.frame, s.input)
    ensures var t := Reassembly.Add(limits, false, s, chunk);
      SameYield(Drain(limits, false, t), Offers(limits, Loaded(limits, s, chunk)))
  {
    var t := Loaded(limits, s, chunk);
    if !AppendOk(2 * limits.frame, s.input, chunk) {
      assert t.input == s.input;
      PendingOffers(limits, s);
    } else if Pending(s) {
      PendingOffers(limits, t);
    } else {
      var p := ParseAll(t.input);
      DrainYields(limits, t);
      NothingWaiting(Yields(limits, OpenOf(t), p.frames, p.broken));
    }
  }

  lemma {:induction false} RunFits(config: Config, happenings: seq<Happening>)
    ensures Fits(2 * config.limits.frame, RunAll(config, Initial, happenings).engine.input)
  {
    RunKeepsFit(config, Initial, happenings);
  }

  lemma {:induction false} LoopShortens(config: Config, c: Conn)
    ensures |ProcessLoop(config, c).engine.input| <= |c.engine.input|
    decreases |c.engine.input|, Flags(c.engine)
  {
    TurnShrinks(config, c);
    if LoopTurn(config, c).more {
      LoopShortens(config, LoopTurn(config, c).conn);
    } else if !c.engine.error && Pending(c.engine) {
      TurnTakes(config, c);
      ReleaseShrinks(config.limits, config.retest, c.engine);
    }
  }

  lemma {:induction false} RunKeepsFit(config: Config, c: Conn, happenings: seq<Happening>)
    requires Fits(2 * config.limits.frame, c.engine.input)
    ensures Fits(2 * config.limits.frame, RunAll(config, c, happenings).engine.input)
    decreases |happenings|
  {
    if happenings != [] {
      var happening := happenings[0];
      if !Deleted(c) && happening.ClientData? && c.ws == WS_ST_RECEIVING {
        var loaded := Admit(config, c.(received := c.received + happening.chunk));
        LoopShortens(config, loaded);
      } else {
        StepIntake(config, c, happening);
      }
      RunKeepsFit(config, Step(config, c, happening), happenings[1..]);
    }
  }

  /**
   Over every run of the code as it stands: a read takes, of what was pending and what the frames buffered
   then come to, what comes up to the first Ping, Close or binary message and that event; and it leaves the
   socket as these and a failure after them ask.
   */
  lemma WrittenReadExactly(config: Config, happenings: seq<Happening>, chunk: bytes, outcome: Outcome, used: nat)
    requires !config.retest
    requires var c := RunAll(config, Initial, happenings); c.ws == WS_ST_RECEIVING && !Deleted(c)
    ensures var c := RunAll(config, Initial, happenings);
      var d := Step(config, c, ClientData(chunk, outcome, used));
      var y := Offers(config.limits, Loaded(config.limits, c.engine, c.received + chunk));
      && d.history.consumed == c.history.consumed + Through(y.events)
      && d.ws == SocketAfter(y.events, y.failed)
      && (d.ws != WS_ST_RECEIVING ==> WSCB_CLOSE in d.history.callbacks)
  {
    var c := RunAll(config, Initial, happenings);
    RunCoherent(config, Initial, happenings);
    RunFits(config, happenings);
    RunAdvances(config, Initial, happenings);
    WrittenRead(config, c, c.received + chunk);
  }

  lemma WrittenRead(config: Config, c: Conn, chunk: bytes)
    requires !config.retest && Coherent(c.engine) && Fits(2 * config.limits.frame, c.engine.input)
    requires Sound(c) && c.ws == WS_ST_RECEIVING
    ensures var d := ProcessFrame(config, c.(received := chunk));
      var y := Offers(config.limits, Loaded(config.limits, c.engine, chunk));
      && d.history.consumed == c.history.consumed + Through(y.events)
      && d.ws == SocketAfter(y.events, y.failed)
      && (d.ws != WS_ST_RECEIVING ==> WSCB_CLOSE in d.history.callbacks)
  {
    var loaded := Admit(config, c.(received := chunk));
    AddOffers(config.limits, c.engine, chunk);
    LoopTakes(config, loaded);
    LoopEnds(config, loaded);
  }
}
