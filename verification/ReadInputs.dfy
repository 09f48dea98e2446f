/**
 Reads at particular inputs: a control frame behind a message in the code as it stands, two messages in one
 segment there, and a frame with reserved bits.
 */
module ReadInputs {
  import opened Bytes
  import opened FrameCodec
  import opened Reassembly
  import opened Connection
  import opened Lifecycle
  import opened Agreement
  import opened WrittenLoop
  import opened Taking
  import opened Reads

  /** What the loop does not take it leaves to be taken. */
  lemma {:induction false} LoopLeaves(config: Config, c: Conn)
    ensures var events := Drain(config.limits, config.retest, c.engine).events;
      events == Through(events) + Drain(config.limits, config.retest, ProcessLoop(config, c).engine).events
    decreases |c.engine.input|, Flags(c.engine)
  {
    var s := c.engine;
    if !s.error && Pending(s) {
      var next := Taken(config.limits, config.retest, s);
      var events := Drain(config.limits, config.retest, next).events;
      TurnTakes(config, c);
      TurnShrinks(config, c);
      DrainNext(config.limits, config.retest, s);
      assert ([Next(s)] + events)[1..] == events;
      if Stops(Next(s)) {
        assert [Next(s)] + [] == [Next(s)];
      } else {
        LoopLeaves(config, LoopTurn(config, c).conn);
        Assoc([Next(s)], Through(events), Drain(config.limits, config.retest, ProcessLoop(config, c).engine).events);
      }
    } else {
      assert Drain(config.limits, config.retest, s).events == [];
    }
  }

  /** A read of nothing takes from what the one before left. */
  lemma ReadNothing(config: Config, c: Conn)
    requires config.limits.frame == 0 && Pending(c.engine)
    ensures ProcessFrame(config, c.(received := [])).history.consumed
      == c.history.consumed + Through(Drain(config.limits, config.retest, c.engine).events)
  {
    var loaded := Admit(config, c.(received := []));
    assert c.engine.input + [] == c.engine.input;
    LoopTakes(config, loaded);
  }

  /** The two reads of a segment that holds two events, the first of which ends the loop and leaves it open. */
  lemma TwoReads(config: Config, c: Conn, b: bytes, first: Event, second: Event)
    requires !config.retest && config.limits == Limits(0, 0) && Sound(c) && JustUpgraded(c)
    requires Offers(config.limits, c.engine.(input := b)) == Yield([first, second], false)
    requires Stops(first) && AfterStop(first) == WS_ST_RECEIVING
    ensures var once := ProcessFrame(config, c.(received := b));
      && once.history.consumed == [first] && once.ws == WS_ST_RECEIVING
      && ProcessFrame(config, once.(received := [])).history.consumed == [first] + Through([second])
  {
    assert [] + b == b && [] + [first] == [first];
    var loaded := Admit(config, c.(received := b));
    var once := ProcessLoop(config, loaded);
    assert Loaded(config.limits, c.engine, b) == c.engine.(input := b);
    WrittenRead(config, c, b);
    AddOffers(config.limits, c.engine, b);
    assert [first, second][0] == first && Through([first, second]) == [first] + [] == [first];
    LoopLeaves(config, loaded);
    var left := Drain(config.limits, false, once.engine).events;
    assert [first, second] == [first] + [second];
    SameBehind([first], left, [second]);
    ReadNothing(config, once);
  }

  lemma ParseTwo(b: bytes, f: Frame, n: nat, g: Frame)
    requires DecodeFrame(b) == Ready(f, n) && DecodeFrame(b[n..]) == Ready(g, |b| - n)
    ensures ParseAll(b) == Parsing([f, g], [], false)
  {
    assert b[n..][|b| - n..] == [];
    assert ParseAll([]) == Parsing([], [], false);
    ParseStep(b[n..]);
    assert [g] + [] == [g] && [f] + [g] == [f, g];
  }

  /** A text and a control frame behind it, in one segment: the control frame comes first, then the text unchanged. */
  lemma TextThenControl(limits: Limits, text: bytes, control: Frame)
    requires limits == Limits(0, 0) && IsControl(control.opcode) && control.fin
    ensures Yields(limits, Idle, [Frame(true, OPCODE_TEXT, false, text), control], false)
      == Yield([Control(control), Message(OPCODE_TEXT, text)], false)
  {
    var frame := Frame(true, OPCODE_TEXT, false, text);
    var fs := [frame, control];
    assert [] + text == text && fs[1..] == [control];
    assert Deliver(limits, Idle, Stored(limits, frame)) == Delivery([Message(OPCODE_TEXT, text)], Idle);
    assert [control][1..] == [] && [control][..0] == [];
    assert Joining(limits, text, [control]) == 0;
    assert Yields(limits, Idle, [], false) == Yield([], false);
    var both := [Control(control), Message(OPCODE_TEXT, text)];
    assert both + [] == both;
  }

  /** The text "a" and a Ping in one segment, as the code stands: the Ping is answered, and the text follows. */
  lemma PingBehindText(config: Config, c: Conn)
    requires !config.retest && config.limits == Limits(0, 0) && Sound(c) && JustUpgraded(c)
    ensures var once := ProcessFrame(config, c.(received := [0x81, 0x01, 0x61, 0x89, 0x00]));
      && once.ws == WS_ST_RECEIVING
      && once.history.consumed == [Control(Frame(true, OPCODE_PING, false, []))]
      && ProcessFrame(config, once.(received := [])).history.consumed
         == [Control(Frame(true, OPCODE_PING, false, [])), Message(OPCODE_TEXT, [0x61])]
  {
    var b: bytes := [0x81, 0x01, 0x61, 0x89, 0x00];
    var text, ping := Frame(true, OPCODE_TEXT, false, [0x61]), Frame(true, OPCODE_PING, false, []);
    assert b[2..3] == [0x61] && b[3..] == [0x89, 0x00];
    PingFrame(b[3..]);
    assert DecodeFrame(b) == Ready(text, 3);
    OneSegment(config, c, b, 3, [0x61], ping);
  }

  lemma PingFrame(b: bytes)
    requires b == [0x89, 0x00]
    ensures DecodeFrame(b) == Ready(Frame(true, OPCODE_PING, false, []), 2)
  {
    assert b[2..2] == [];
  }

  lemma OneSegment(config: Config, c: Conn, b: bytes, n: nat, text: bytes, ping: Frame)
    requires !config.retest && config.limits == Limits(0, 0) && Sound(c) && JustUpgraded(c)
    requires DecodeFrame(b) == Ready(Frame(true, OPCODE_TEXT, false, text), n)
    requires DecodeFrame(b[n..]) == Ready(ping, |b| - n) && ping.opcode == OPCODE_PING && ping.fin
    ensures var once := ProcessFrame(config, c.(received := b));
      && once.ws == WS_ST_RECEIVING && once.history.consumed == [Control(ping)]
      && ProcessFrame(config, once.(received := [])).history.consumed == [Control(ping), Message(OPCODE_TEXT, text)]
  {
    PingOffered(config.limits, c.engine, b, n, text, ping);
    TwoReads(config, c, b, Control(ping), Message(OPCODE_TEXT, text));
    TextGoesThrough(text);
    assert [Control(ping)] + [Message(OPCODE_TEXT, text)] == [Control(ping), Message(OPCODE_TEXT, text)];
  }

  lemma PingOffered(limits: Limits, s: State, b: bytes, n: nat, text: bytes, ping: Frame)
    requires limits == Limits(0, 0) && s == Fresh
    requires DecodeFrame(b) == Ready(Frame(true, OPCODE_TEXT, false, text), n)
    requires DecodeFrame(b[n..]) == Ready(ping, |b| - n) && ping.opcode == OPCODE_PING && ping.fin
    ensures Offers(limits, s.(input := b)) == Yield([Control(ping), Message(OPCODE_TEXT, text)], false)
  {
    var events := [Control(ping), Message(OPCODE_TEXT, text)];
    ParseTwo(b, Frame(true, OPCODE_TEXT, false, text), n, ping);
    TextThenControl(limits, text, ping);
    assert [] + [] + events == events;
  }

  lemma TextGoesThrough(text: bytes)
    ensures Through([Message(OPCODE_TEXT, text)]) == [Message(OPCODE_TEXT, text)]
  {
    assert [Message(OPCODE_TEXT, text)] + [] == [Message(OPCODE_TEXT, text)];
  }

  /** A frame with reserved bits closes the connection, with either loop. */
  lemma ReservedBitsClose(config: Config, c: Conn, b: bytes)
    requires config.limits == Limits(0, 0) && Sound(c) && JustUpgraded(c) && DecodeFrame(b).Error?
    ensures var d := ProcessFrame(config, c.(received := b));
      d.ws == WS_ST_CLOSED && WSCB_CLOSE in d.history.callbacks && d.history.consumed == []
  {
    assert [] + b == b;
    var loaded := Admit(config, c.(received := b));
    assert loaded.engine == c.engine.(input := b, error := true);
    LoopTakes(config, loaded);
    LoopEnds(config, loaded);
  }

  lemma ReservedBits()
    ensures DecodeFrame([0xf1, 0x00]).Error?
  {
  }
}
