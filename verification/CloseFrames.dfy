/**
 What stands in the Close frame a connection writes, over every run, to the byte: the client's own payload if
 it closed first, and otherwise the news that the XMPP server is gone.
 */
module CloseFrames {
  import opened Bytes
  import opened FrameCodec
  import opened Reassembly
  import opened Connection
  import opened Lifecycle
  import opened OutputDiscipline

  /** The answer to a Close with this payload. */
  function CloseAnswer(payload: bytes): bytes {
    if |payload| < 2 then [0x03, 0xe9]
    else if payload[0] == 0 && payload[1] == 0 then []
    else payload
  }

  /** Status 1001 and "XMPP server closed". */
  const UpstreamNews: bytes := [
    0x03, 0xe9,
    0x58, 0x4d, 0x50, 0x50, 0x20, 0x73, 0x65, 0x72, 0x76, 0x65, 0x72, 0x20, 0x63, 0x6c, 0x6f, 0x73, 0x65, 0x64]

  /** What the last frame must hold, if it is a Close. */
  predicate CloseSays(frames: seq<OutFrame>, consumed: seq<Event>) {
    frames != [] && frames[|frames| - 1].opcode == OPCODE_CLOSE ==>
      frames[|frames| - 1].payload ==
        if consumed != [] && IsClose(consumed[|consumed| - 1]) then CloseAnswer(consumed[|consumed| - 1].frame.payload)
        else UpstreamNews
  }

  /** 1001 in network order. */
  lemma GoingAway()
    ensures Big16(1001) == [0x03, 0xe9]
  {
    Big16Inverse(0x03, 0xe9);
    NatOf();
  }

  lemma NatOf()
    ensures (0x03 as byte) as nat == 3 && (0xe9 as byte) as nat == 233
  {
  }

  lemma AnswerIs(payload: bytes)
    ensures var reply := CloseReply(payload); ClosePayload(reply.0, reply.1) == CloseAnswer(payload)
  {
    CloseEchoes(payload);
    GoingAway();
  }

  lemma NewsIs()
    ensures ClosePayload(1001, UPSTREAM_GONE) == UpstreamNews
  {
    GoingAway();
  }

  /** Taking a Close writes its answer. */
  lemma AnswersClose(c: Conn, frame: Frame, engine: State)
    requires !c.wsClosing && frame.opcode == OPCODE_CLOSE
    ensures var d := OnControl(c, frame, engine).conn;
      && d.history.frames == c.history.frames + [OutFrame(OPCODE_CLOSE, CloseAnswer(frame.payload))]
      && d.history.consumed == c.history.consumed + [Control(frame)]
  {
    AnswerIs(frame.payload);
    OpcodeNibble(OPCODE_CLOSE);
  }

  lemma TurnSays(config: Config, c: Conn)
    requires Sound(c) && c.ws == WS_ST_RECEIVING && LoopTurn(config, c).conn.wsClosing
    ensures var d := LoopTurn(config, c).conn; CloseSays(d.history.frames, d.history.consumed)
    ensures !LoopTurn(config, c).more
  {
    var s := c.engine;
    if !s.error && s.control.Some? && s.control.value.opcode == OPCODE_CLOSE {
      AnswersClose(c, s.control.value, TakeControl(config.limits, config.retest, s));
    }
  }

  /** A loop that has begun to close has answered a Close. */
  lemma {:induction false} LoopSays(config: Config, c: Conn)
    requires Sound(c) && c.ws == WS_ST_RECEIVING && ProcessLoop(config, c).wsClosing
    ensures var d := ProcessLoop(config, c); CloseSays(d.history.frames, d.history.consumed)
    decreases |c.engine.input|, Flags(c.engine)
  {
    TurnAdvances(config, c);
    TurnShrinks(config, c);
    var t := LoopTurn(config, c);
    if t.more {
      LoopSays(config, t.conn);
    } else {
      TurnSays(config, c);
    }
  }

  /** Once closing has begun nothing more is written or taken. */
  lemma ClosingIsOver(config: Config, c: Conn, happening: Happening)
    requires Sound(c) && c.wsClosing
    ensures var d := Step(config, c, happening);
      d.history.frames == c.history.frames && d.history.consumed == c.history.consumed
  {
  }

  /** The upstream's failure is passed on as news. */
  lemma FailureSays(c: Conn)
    requires Sound(c) && Tidy(c) && c.manager.live
    ensures var d := CloseManager(OnClosed(c)); CloseSays(d.history.frames, d.history.consumed)
  {
    OnClosedOnlyInitiates(c);
    NewsIs();
  }

  lemma StepSays(config: Config, c: Conn, happening: Happening)
    requires Sound(c) && Tidy(c) && CloseSays(c.history.frames, c.history.consumed)
    ensures var d := Step(config, c, happening); CloseSays(d.history.frames, d.history.consumed)
  {
    StepTidy(config, c, happening);
    var d := Step(config, c, happening);
    if c.wsClosing {
      ClosingIsOver(config, c, happening);
    } else if d.wsClosing {
      NowClosing(config, c, happening);
    }
  }

  lemma NowClosing(config: Config, c: Conn, happening: Happening)
    requires Sound(c) && Tidy(c) && !c.wsClosing && Step(config, c, happening).wsClosing
    ensures var d := Step(config, c, happening); CloseSays(d.history.frames, d.history.consumed)
  {
    match happening
    case ClientData(chunk, outcome, used) =>
      if c.ws == WS_ST_RECEIVING {
        LoopSays(config, Admit(config, c.(received := c.received + chunk)));
      }
    case OutputSent(_) =>
    case ClientGone =>
    case UpstreamStanzas(stanzas) => WriteStanzasStayOpen(c, stanzas);
    case UpstreamConnected =>
    case UpstreamFailed => FailureSays(c);
  }

  lemma {:induction false} WriteStanzasStayOpen(c: Conn, stanzas: seq<bytes>)
    ensures WriteStanzas(c, stanzas).wsClosing == c.wsClosing
    decreases |stanzas|
  {
    if stanzas != [] {
      WriteStanzasStayOpen(WriteStanza(c, stanzas[0]), stanzas[1..]);
    }
  }

  lemma {:induction false} RunSays(config: Config, c: Conn, happenings: seq<Happening>)
    requires Sound(c) && Tidy(c) && CloseSays(c.history.frames, c.history.consumed)
    ensures var d := RunAll(config, c, happenings); CloseSays(d.history.frames, d.history.consumed)
    decreases |happenings|
  {
    if happenings != [] {
      StepSays(config, c, happenings[0]);
      StepTidy(config, c, happenings[0]);
      StepAdvances(config, c, happenings[0]);
      RunSays(config, Step(config, c, happenings[0]), happenings[1..]);
    }
  }

  /**
   Over every run, with either loop: if the last event taken from the client is a Close, the last frame
   written is a Close with its payload, or with status 1001 if it had none, or empty if its status was zero;
   and a Close written without one is the news that the XMPP server is gone.
   */
  lemma EveryCloseSays(config: Config, happenings: seq<Happening>)
    ensures var h := RunAll(config, Initial, happenings).history; var n, m := |h.frames|, |h.consumed|;
      && (m > 0 && IsClose(h.consumed[m - 1]) ==>
            && n > 0 && h.frames[n - 1] == OutFrame(OPCODE_CLOSE, CloseAnswer(h.consumed[m - 1].frame.payload)))
      && (n > 0 && h.frames[n - 1].opcode == OPCODE_CLOSE && !(m > 0 && IsClose(h.consumed[m - 1])) ==>
            h.frames[n - 1].payload == UpstreamNews)
  {
    RunSays(config, Initial, happenings);
    EveryRunIsTidy(config, happenings);
  }
}
