/**
 One proxied connection on values: wsconn_t of wsserver.c with the cmanager_t it owns. Each libevent
 callback is a function from the connection before it to the connection after it. The record also
 keeps a history (frames written, bytes sent, events consumed, callbacks fired) that no code reads.
 */
module Connection {
  import opened Bytes
  import opened FrameCodec
  import opened Reassembly

  datatype WsState = WS_ST_START | WS_ST_RECEIVING | WS_ST_CLOSING | WS_ST_CLOSED
  datatype CmState = CM_ST_START | CM_ST_CREATED | CM_ST_CLOSING | CM_ST_CLOSED
  datatype Stage = ST_START | ST_CONNECT | ST_FORWARD

  /** What the stream parser says once it has been fed one more message. */
  datatype Verdict = ParserError | NoServerYet | ServerFound
  type Oracle = seq<bytes> -> Verdict

  /** The size of data_buffer in cm_readcb: longer stanzas are cut. */
  const STANZA_LIMIT := 65536

  datatype Config = Config(limits: Limits, retest: bool, oracle: Oracle)

  /** cmanager_t: `live` is bev != NULL, `open` is that cm_close has not freed its parts. */
  datatype Manager = Manager(stage: Stage, live: bool, open: bool, held: bytes)

  datatype OutFrame = OutFrame(opcode: byte, payload: bytes)
  datatype Callback = WSCB_CONNECTED | WSCB_MESSAGE(payload: bytes) | WSCB_CLOSE | WSCB_DELETE

  /** A message handed to cm_onmessage: the stage it met, and the parser's verdict if that was ST_START. */
  datatype Delivered = Delivered(stage: Stage, payload: bytes, verdict: Verdict)

  datatype Conn = Conn(
    ws: WsState,
    cm: CmState,
    wsClosing: bool,            // fl_ws_closing
    cmClosed: bool,             // fl_cm_closed
    engine: State,              // wsmsg
    received: bytes,            // input evbuffer, not read yet
    outgoing: bytes,            // output evbuffer, not sent yet
    manager: Manager,
    history: History)

  datatype History = History(
    callbacks: seq<Callback>,
    response: bytes,            // the handshake response
    frames: seq<OutFrame>,      // frames given to wsconn_write_frame
    onWire: bytes,              // bytes that have left the output evbuffer
    consumed: seq<Event>,       // control frames and messages taken from wsmsg
    offered: bytes,             // bytes read from the client behind the handshake
    admitted: bytes,            // those of them the frame buffer let in
    delivered: seq<Delivered>,  // messages that reached cm_onmessage
    stanzas: seq<bytes>,        // frames extracted from the XMPP stream, as cm_readcb cut them
    upstream: bytes)            // bytes written towards the XMPP server

  /** wsconn_create, with the connection manager created. */
  const Initial := Conn(WS_ST_START, CM_ST_CREATED, false, true, Fresh, [], [],
                        Manager(ST_START, false, true, []), History([], [], [], [], [], [], [], [], [], []))

  predicate Deleted(c: Conn) { WSCB_DELETE in c.history.callbacks }

  // ---- Parts of callbacks ----

  /** wsconn_write_frame. */
  function Write(c: Conn, opcode: byte, payload: bytes): Conn {
    c.(outgoing := c.outgoing + WriteFrame(opcode, payload),
       history := c.history.(frames := c.history.frames + [OutFrame(opcode & 0x0f, payload)]))
  }

  /** cm_close. */
  function CloseManager(c: Conn): Conn {
    c.(manager := c.manager.(live := false, open := false, held := []))
  }

  function Fire(c: Conn, callback: Callback): Conn {
    c.(history := c.history.(callbacks := c.history.callbacks + [callback]))
  }

  /** The WSCB_CLOSE branch shared by wsconn_close and wsconn_initiate_close. */
  function ReleaseManager(c: Conn): Conn {
    CloseManager(Fire(c, WSCB_CLOSE)).(cm := CM_ST_CLOSING)
  }

  /** wsconn_delete. */
  function Delete(c: Conn): Conn { CloseManager(Fire(c, WSCB_DELETE)) }

  /** wsconn_close. */
  function Close(c: Conn): Conn {
    var d := c.(ws := WS_ST_CLOSED);
    if d.cm == CM_ST_CREATED then ReleaseManager(d)
    else if d.cmClosed then Delete(d)
    else d
  }

  /** The payload of the Close frame of wsconn_initiate_close. */
  function ClosePayload(status: nat, reason: bytes): bytes
    requires status < 0x1_0000
  {
    if status > 0 then Big16(status) + reason else []
  }

  /** wsconn_initiate_close. */
  function InitiateClose(c: Conn, status: nat, reason: bytes): Conn
    requires status < 0x1_0000
  {
    if c.wsClosing then c else
    var d := Write(c, OPCODE_CLOSE, ClosePayload(status, reason)).(ws := WS_ST_CLOSING);
    var e := if d.cm == CM_ST_CREATED then ReleaseManager(d) else d;
    e.(wsClosing := true)
  }

  /** "XMPP server closed". */
  const UPSTREAM_GONE: bytes :=
    [0x58, 0x4d, 0x50, 0x50, 0x20, 0x73, 0x65, 0x72, 0x76, 0x65, 0x72, 0x20, 0x63, 0x6c, 0x6f, 0x73, 0x65, 0x64]

  /** wsconn_onclosed. */
  function OnClosed(c: Conn): Conn {
    var d := c.(cm := CM_ST_CLOSED, cmClosed := true);
    if d.ws == WS_ST_RECEIVING then InitiateClose(d, 1001, UPSTREAM_GONE)
    else if d.ws == WS_ST_CLOSED then Delete(d)
    else d
  }

  /** Everything the stream parser has been fed. */
  function Fed(delivered: seq<Delivered>): seq<bytes> {
    if delivered == [] then [] else
    (if delivered[0].stage == ST_START then [delivered[0].payload] else []) + Fed(delivered[1..])
  }

  lemma {:induction false} FedLast(delivered: seq<Delivered>, d: Delivered)
    ensures Fed(delivered + [d]) == Fed(delivered) + (if d.stage == ST_START then [d.payload] else [])
    decreases |delivered|
  {
    if delivered == [] {
      assert delivered + [d] == [d];
    } else {
      assert (delivered + [d])[1..] == delivered[1..] + [d];
      FedLast(delivered[1..], d);
    }
  }

  /** cm_onmessage: the manager after a message, and the bytes it writes upstream. */
  function Receive(m: Manager, verdict: Verdict, message: bytes): (Manager, bytes) {
    match m.stage
    case ST_START =>
      if verdict == ParserError then (m, [])
      else if verdict == ServerFound then (m.(held := m.held + message, live := true, stage := ST_CONNECT), [])
      else (m.(held := m.held + message), [])
    case ST_CONNECT => (m, [])
    case ST_FORWARD => (m, message)
  }

  function OnMessage(config: Config, c: Conn, message: bytes): Conn {
    var h := c.history;
    var verdict := config.oracle(Fed(h.delivered) + [message]);
    var (manager, written) := Receive(c.manager, verdict, message);
    c.(manager := manager,
       history := h.(delivered := h.delivered + [Delivered(c.manager.stage, message, verdict)],
                     upstream := h.upstream + written))
  }

  /** The Close frame that answers a Close frame with this payload (wsserver.c:353-385). */
  function CloseReply(payload: bytes): (reply: (nat, bytes))
    ensures reply.0 < 0x1_0000
  {
    if |payload| < 2 then (1001, []) else (payload[0] as nat * 256 + payload[1] as nat, payload[2..])
  }

  function Consume(c: Conn, e: Event, engine: State): Conn {
    c.(engine := engine, history := c.history.(consumed := c.history.consumed + [e]))
  }

  /** The connection after a turn of the loop, and whether the loop goes on. */
  datatype Turn = Turn(conn: Conn, more: bool)

  /** A control frame has been taken: Close is answered and ends the loop, and so does Ping; Pong is ignored. */
  function OnControl(c: Conn, frame: Frame, engine: State): (t: Turn)
    ensures t.more ==> t.conn.engine == engine
  {
    var d := Consume(c, Control(frame), engine);
    if frame.opcode == OPCODE_CLOSE then
      var reply := CloseReply(frame.payload);
      Turn(InitiateClose(d, reply.0, reply.1), false)
    else if frame.opcode == OPCODE_PING then Turn(Write(d, OPCODE_PONG, frame.payload), false)
    else Turn(d, true)
  }

  /** A message has been taken: text goes to the manager, binary closes the connection, the rest is ignored. */
  function OnData(config: Config, c: Conn, opcode: byte, payload: bytes, engine: State): (t: Turn)
    ensures t.more ==> t.conn.engine == engine
  {
    var d := Consume(c, Message(opcode, payload), engine);
    if opcode == OPCODE_TEXT then Turn(OnMessage(config, Fire(d, WSCB_MESSAGE(payload)), payload), true)
    else if opcode == OPCODE_BINARY then Turn(Close(d), false)
    else Turn(d, true)
  }

  function LoopTurn(config: Config, c: Conn): Turn {
    var s := c.engine;
    if s.error then Turn(Close(c), false)
    else if s.control.Some? then OnControl(c, s.control.value, TakeControl(config.limits, config.retest, s))
    else if s.message then OnData(config, c, s.messageOpcode, s.partial, TakeMessage(config.limits, config.retest, s))
    else Turn(c, false)
  }

  /** Every event taken costs the engine bytes or a flag. */
  lemma TurnShrinks(config: Config, c: Conn)
    ensures var t := LoopTurn(config, c); t.more ==>
      && |t.conn.engine.input| <= |c.engine.input|
      && (|t.conn.engine.input| == |c.engine.input| ==> Flags(t.conn.engine) < Flags(c.engine))
  {
    if !c.engine.error && Pending(c.engine) {
      ReleaseShrinks(config.limits, config.retest, c.engine);
    }
  }

  lemma ReleaseShrinks(limits: Limits, retest: bool, s: State)
    requires !s.error && Pending(s)
    ensures var t := if s.control.Some? then TakeControl(limits, retest, s) else TakeMessage(limits, retest, s);
      |t.input| <= |s.input| && (|t.input| == |s.input| ==> Flags(t) < Flags(s))
  {
  }

  /** The loop of wsconn_process_frame. */
  function ProcessLoop(config: Config, c: Conn): Conn
    decreases |c.engine.input|, Flags(c.engine)
  {
    TurnShrinks(config, c);
    var t := LoopTurn(config, c);
    if t.more then ProcessLoop(config, t.conn) else t.conn
  }

  /** wsmsg_add of everything in the input evbuffer. */
  function Admit(config: Config, c: Conn): Conn {
    var taken := Cut(2 * config.limits.frame, c.engine.input + c.received);
    var admitted := if |c.engine.input| <= |taken| then taken[|c.engine.input|..] else [];
    c.(received := [],
       engine := Add(config.limits, config.retest, c.engine, c.received),
       history := c.history.(offered := c.history.offered + c.received, admitted := c.history.admitted + admitted))
  }

  /** wsconn_process_frame. */
  function ProcessFrame(config: Config, c: Conn): Conn {
    ProcessLoop(config, Admit(config, c))
  }

  /** What the request lines in the input come to. */
  datatype Outcome = Incomplete | Malformed | Refused(response: bytes) | Upgraded(response: bytes)

  function Respond(c: Conn, response: bytes): Conn {
    c.(outgoing := c.outgoing + response, history := c.history.(response := c.history.response + response))
  }

  /** wsconn_handshake, or the failure of wsconn_read_cb. */
  function Conclude(c: Conn, outcome: Outcome): Conn {
    match outcome
    case Incomplete => c
    case Malformed => Close(c)
    case Refused(response) => Close(Respond(c, response))
    case Upgraded(response) =>
      Fire(Fire(Respond(c, response), WSCB_CONNECTED).(ws := WS_ST_RECEIVING, cmClosed := false), WSCB_CONNECTED)
  }

  /** A stanza is cut to the buffer of cm_readcb and written as text. */
  function WriteStanza(c: Conn, stanza: bytes): Conn {
    var kept := Cut(STANZA_LIMIT, stanza);
    var d := Write(c, OPCODE_TEXT, kept);
    d.(history := d.history.(stanzas := d.history.stanzas + [kept]))
  }

  /** cm_readcb for the frames its framer yields. */
  function WriteStanzas(c: Conn, stanzas: seq<bytes>): Conn
    decreases |stanzas|
  {
    if stanzas == [] then c else WriteStanzas(WriteStanza(c, stanzas[0]), stanzas[1..])
  }

  // ---- Callbacks ----

  /** What libevent can report. */
  datatype Happening =
    // Bytes arrived; in WS_ST_START the request parser uses up some of the input and reaches an outcome.
    | ClientData(chunk: bytes, outcome: Outcome, used: nat)
    | OutputSent(count: nat)
    | ClientGone
    | UpstreamStanzas(stanzas: seq<bytes>)
    | UpstreamConnected
    | UpstreamFailed

  /** wsconn_read_cb. */
  function ReadCb(config: Config, c: Conn, chunk: bytes, outcome: Outcome, used: nat): Conn {
    var input := c.received + chunk;
    match c.ws
    case WS_ST_START => Conclude(c.(received := if used <= |input| then input[used..] else []), outcome)
    case WS_ST_RECEIVING => ProcessFrame(config, c.(received := input))
    case _ => c.(received := input)
  }

  /** The first bytes of the output leave, then wsconn_write_cb. */
  function WriteCb(c: Conn, count: nat): Conn {
    var n := if count <= |c.outgoing| then count else |c.outgoing|;
    var d := c.(outgoing := c.outgoing[n..], history := c.history.(onWire := c.history.onWire + c.outgoing[..n]));
    if d.ws == WS_ST_CLOSING && d.outgoing == [] then Delete(d) else d
  }

  /** cm_eventcb, connected. */
  function ConnectedCb(c: Conn): Conn {
    c.(manager := c.manager.(held := [], stage := ST_FORWARD),
       history := c.history.(upstream := c.history.upstream + c.manager.held))
  }

  /**
   One callback. Nothing is reported for a deleted connection, whose bufferevent is freed, and
   nothing for an upstream that does not exist or has been freed by cm_close.
   */
  function Step(config: Config, c: Conn, happening: Happening): Conn {
    if Deleted(c) then c else
    match happening
    case ClientData(chunk, outcome, used) => ReadCb(config, c, chunk, outcome, used)
    case OutputSent(count) => WriteCb(c, count)
    case ClientGone => Close(c)
    case UpstreamStanzas(stanzas) => if c.manager.live then WriteStanzas(c, stanzas) else c
    case UpstreamConnected => if c.manager.live then ConnectedCb(c) else c
    case UpstreamFailed => if c.manager.live then CloseManager(OnClosed(c)) else c
  }

  function RunAll(config: Config, c: Conn, happenings: seq<Happening>): Conn
    decreases |happenings|
  {
    if happenings == [] then c else RunAll(config, Step(config, c, happenings[0]), happenings[1..])
  }
}
