/**
 Which of a client's texts never reach the XMPP server, and a run on which one is lost.
 */
module Losses {
  import opened Bytes
  import opened FrameCodec
  import opened Reassembly
  import opened Connection
  import opened Forwarding

  /** The manager passed the message over: it met ST_CONNECT, or the parser failed on it. */
  predicate PassedOver(d: Delivered) {
    d.stage == ST_CONNECT || (d.stage == ST_START && d.verdict == ParserError)
  }

  predicate NothingLost(delivered: seq<Delivered>) {
    forall i :: 0 <= i < |delivered| && PassedOver(delivered[i]) ==> delivered[i].payload == []
  }

  lemma {:induction false} AcceptedAtMost(delivered: seq<Delivered>)
    ensures |Accepted(delivered)| <= |Concat(PayloadsOf(delivered))|
    decreases |delivered|
  {
    if delivered != [] {
      var before, last := delivered[..|delivered| - 1], delivered[|delivered| - 1];
      AcceptedAtMost(before);
      ConcatSnoc(PayloadsOf(before), last.payload);
    }
  }

  /** Everything delivered is accepted if and only if no message with content was passed over. */
  lemma {:induction false} AllAcceptedExactly(delivered: seq<Delivered>)
    ensures Accepted(delivered) == Concat(PayloadsOf(delivered)) <==> NothingLost(delivered)
    decreases |delivered|
  {
    if delivered != [] {
      var before, last := delivered[..|delivered| - 1], delivered[|delivered| - 1];
      AllAcceptedExactly(before);
      AcceptedAtMost(before);
      ConcatSnoc(PayloadsOf(before), last.payload);
      NothingLostLast(before, last);
      assert before + [last] == delivered;
      SameEnd(Accepted(before), Concat(PayloadsOf(before)), last.payload);
      if PassedOver(last) {
        assert Accepted(delivered) == Accepted(before) + [] == Accepted(before);
      }
    }
  }

  lemma NothingLostLast(before: seq<Delivered>, last: Delivered)
    ensures NothingLost(before + [last]) <==> NothingLost(before) && (PassedOver(last) ==> last.payload == [])
  {
    if NothingLost(before + [last]) {
      assert (before + [last])[|before|] == last;
      assert forall i :: 0 <= i < |before| ==> (before + [last])[i] == before[i];
    }
  }

  lemma SameEnd(a: bytes, b: bytes, end: bytes)
    ensures a + end == b + end <==> a == b
  {
    if a + end == b + end {
      Halves(a, end);
      Halves(b, end);
    }
  }

  /**
   Over every run, until the manager is closed: every text taken from the client has reached the XMPP
   server or is still held for it, in order, if and only if none of them met ST_CONNECT or a parser error.
   */
  lemma EveryTextForwardedExactly(config: Config, happenings: seq<Happening>)
    requires RunAll(config, Initial, happenings).manager.open
    ensures var c := RunAll(config, Initial, happenings); var h := c.history;
      h.upstream + c.manager.held == Concat(Texts(h.consumed)) <==> NothingLost(h.delivered)
  {
    UpstreamConservation(config, happenings);
    AllAcceptedExactly(RunAll(config, Initial, happenings).history.delivered);
  }

  // ---- A run on which a text is lost ----

  /** An engine between messages with nothing buffered. */
  predicate Resting(s: State) {
    s.input == [] && Quiescent(s) && !s.started
  }

  /** An engine without limits that has been given one text in one frame, before and after it is taken. */
  lemma EngineOneText(retest: bool, s: State, b: bytes, payload: bytes)
    requires Resting(s) && DecodeFrame(b) == Ready(Frame(true, OPCODE_TEXT, false, payload), |b|)
    ensures var t := s.(partial := payload, started := true, messageOpcode := OPCODE_TEXT, message := true);
      && Reassembly.Add(Limits(0, 0), retest, s, b) == t
      && TakeMessage(Limits(0, 0), retest, t) == s.(messageOpcode := OPCODE_TEXT)
  {
    assert [] + b == b && b[|b|..] == [] && [] + payload == payload;
    assert s.partial == [];
    var t := s.(partial := payload, started := true, messageOpcode := OPCODE_TEXT, message := true);
    assert Accept(Limits(0, 0), s, Frame(true, OPCODE_TEXT, false, payload)) == t;
    assert Loop(Limits(0, 0), retest, t) == t;
  }

  /** A connection that waits for frames, with nothing buffered and no message begun. */
  predicate Idling(c: Conn) {
    c.ws == WS_ST_RECEIVING && !Deleted(c) && c.received == [] && Resting(c.engine)
  }

  /** The connection after a text has been taken and handed over. */
  function AfterText(config: Config, c: Conn, payload: bytes): Conn {
    var taken := Consume(c, Message(OPCODE_TEXT, payload), c.engine.(messageOpcode := OPCODE_TEXT));
    OnMessage(config, Fire(taken, WSCB_MESSAGE(payload)), payload)
  }

  lemma LoopOneText(config: Config, c: Conn, b: bytes, payload: bytes)
    requires config.limits == Limits(0, 0) && c.ws == WS_ST_RECEIVING && Resting(c.engine)
    requires DecodeFrame(b) == Ready(Frame(true, OPCODE_TEXT, false, payload), |b|)
    ensures ProcessLoop(config, c.(engine := Reassembly.Add(config.limits, config.retest, c.engine, b)))
      == AfterText(config, c, payload)
  {
    EngineOneText(config.retest, c.engine, b, payload);
    var one := c.(engine := Reassembly.Add(config.limits, config.retest, c.engine, b));
    var turn := LoopTurn(config, one);
    assert turn == Turn(AfterText(config, c, payload), true);
    assert LoopTurn(config, turn.conn) == Turn(turn.conn, false);
  }

  /** One text in one read, with either loop: it is taken, heard and handed to the manager. */
  lemma ReadOneText(config: Config, c: Conn, b: bytes, payload: bytes)
    requires Idling(c) && config.limits == Limits(0, 0)
    requires DecodeFrame(b) == Ready(Frame(true, OPCODE_TEXT, false, payload), |b|)
    ensures var d := Step(config, c, ClientData(b, Incomplete, 0));
      var verdict := config.oracle(Fed(c.history.delivered) + [payload]);
      && Idling(d)
      && d.manager == Receive(c.manager, verdict, payload).0
      && d.history.upstream == c.history.upstream + Receive(c.manager, verdict, payload).1
      && d.history.consumed == c.history.consumed + [Message(OPCODE_TEXT, payload)]
  {
    assert [] + b == b;
    var fed := Admit(config, c.(received := b));
    var bare := fed.(engine := c.engine);
    LoopOneText(config, bare, b, payload);
  }

  /** A text that arrives while the XMPP server is being connected to reaches neither it nor the buffer. */
  lemma TextLostWhileConnecting(config: Config, c: Conn, b: bytes, payload: bytes)
    requires Idling(c) && config.limits == Limits(0, 0) && c.manager.stage == ST_CONNECT
    requires DecodeFrame(b) == Ready(Frame(true, OPCODE_TEXT, false, payload), |b|)
    ensures var d := Step(config, c, ClientData(b, Incomplete, 0));
      && d.manager == c.manager && d.history.upstream == c.history.upstream
      && d.history.consumed == c.history.consumed + [Message(OPCODE_TEXT, payload)]
  {
    ReadOneText(config, c, b, payload);
    assert c.history.upstream + [] == c.history.upstream;
  }

  /** A new connection after a successful handshake. */
  lemma Upgrades(config: Config)
    ensures var c := Step(config, Initial, ClientData([], Upgraded([]), 0));
      && Idling(c) && c.manager == Initial.manager
      && c.history.upstream == [] && c.history.consumed == [] && c.history.delivered == []
  {
  }

  /** Of two texts, one to find the server and one while it is being connected to, the second is lost. */
  lemma SecondTextLost(config: Config, first: bytes, a: bytes, second: bytes, b: bytes)
    requires config.limits == Limits(0, 0) && config.oracle([a]) == ServerFound
    requires DecodeFrame(first) == Ready(Frame(true, OPCODE_TEXT, false, a), |first|)
    requires DecodeFrame(second) == Ready(Frame(true, OPCODE_TEXT, false, b), |second|)
    ensures var c := RunAll(config, Initial,
        [ClientData([], Upgraded([]), 0), ClientData(first, Incomplete, 0), ClientData(second, Incomplete, 0)]);
      && c.history.consumed == [Message(OPCODE_TEXT, a), Message(OPCODE_TEXT, b)]
      && c.history.upstream + c.manager.held == a
  {
    var upgrade, one, two :=
      ClientData([], Upgraded([]), 0), ClientData(first, Incomplete, 0), ClientData(second, Incomplete, 0);
    var open := Step(config, Initial, upgrade);
    Upgrades(config);
    assert [] + [a] == [a] && [] + a == a;
    ReadOneText(config, open, first, a);
    TextLostWhileConnecting(config, Step(config, open, one), second, b);
    ThreeSteps(config, upgrade, one, two);
  }

  /** With the bytes of the texts "a" and "b". */
  lemma SecondLetterLost(config: Config)
    requires config.limits == Limits(0, 0) && config.oracle([[0x61]]) == ServerFound
    ensures var first: bytes, second: bytes := [0x81, 0x01, 0x61], [0x81, 0x01, 0x62];
      var c := RunAll(config, Initial,
        [ClientData([], Upgraded([]), 0), ClientData(first, Incomplete, 0), ClientData(second, Incomplete, 0)]);
      && c.history.consumed == [Message(OPCODE_TEXT, [0x61]), Message(OPCODE_TEXT, [0x62])]
      && c.history.upstream + c.manager.held == [0x61]
  {
    OneLetter(0x61);
    OneLetter(0x62);
    SecondTextLost(config, [0x81, 0x01, 0x61], [0x61], [0x81, 0x01, 0x62], [0x62]);
  }

  lemma OneLetter(letter: byte)
    ensures DecodeFrame([0x81, 0x01, letter]) == Ready(Frame(true, OPCODE_TEXT, false, [letter]), 3)
  {
    var b: bytes := [0x81, 0x01, letter];
    assert b[2..3] == [letter];
  }

  lemma ThreeSteps(config: Config, a: Happening, b: Happening, c: Happening)
    ensures RunAll(config, Initial, [a, b, c]) == Step(config, Step(config, Step(config, Initial, a), b), c)
  {
    var one := Step(config, Initial, a);
    assert [a, b, c][1..] == [b, c] && [b, c][1..] == [c];
    assert RunAll(config, one, [b, c]) == RunAll(config, Step(config, one, b), [c]);
    assert RunAll(config, Step(config, one, b), [c]) == Step(config, Step(config, one, b), c);
  }
}
