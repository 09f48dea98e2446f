/**
 wsconn_t and cmanager_t as objects whose callbacks update them in place. Every callback is proved
 to do to the objects what the function of the same name in Connection does to their value, so the
 results about whole runs are results about these methods.
 */
module ConnectionObject {
  import opened Bytes
  import opened Buffers
  import opened FrameCodec
  import opened FrameWriter
  import opened Reassembly
  import opened MessageEngine
  import opened Connection
  import opened Lifecycle

  /** cmanager_t. Its buffer is NULL once cm_close has run. */
  class CManager {
    var stage: Stage
    var bev: bool             // bev != NULL
    var buffer: Buffer?
    var fed: seq<bytes>       // everything the stream parser has been given
    var written: bytes        // everything written to the XMPP server

    ghost predicate Valid()
      reads this, buffer
    {
      buffer != null ==> buffer.Valid() && buffer.maxLength == 0
    }

    ghost function Repr(): set<object>
      reads this, buffer
    {
      if buffer == null then {this} else var b: Buffer := buffer; {this, b, b.data}
    }

    ghost function Abs(): Manager
      requires Valid()
      reads this, buffer, if buffer == null then {} else {buffer.data}
    {
      Manager(stage, bev, buffer != null, if buffer == null then [] else buffer.Contents())
    }

    constructor ()
      ensures Valid() && fresh(Repr()) && fed == [] && written == []
      ensures Abs() == Manager(ST_START, false, true, [])
    {
      stage, bev, fed, written := ST_START, false, [], [];
      buffer := new Buffer(0);
    }

    /** cm_onmessage; it may only be called before cm_close. */
    method OnMessage(oracle: Oracle, message: Buffer)
      requires Valid() && buffer != null && message.Valid() && {message, message.data} !! Repr()
      modifies Repr()
      ensures Valid() && fresh(Repr() - old(Repr())) && buffer == old(buffer)
      ensures message.Contents() == old(message.Contents())
      ensures var verdict := oracle(old(fed) + [message.Contents()]);
        var (manager, added) := Receive(old(Abs()), verdict, message.Contents());
        && Abs() == manager && written == old(written) + added
        && fed == if old(stage) == ST_START then old(fed) + [message.Contents()] else old(fed)
    {
      match stage
      case ST_START =>
        fed := fed + [message.data[..message.length]];
        if oracle(fed) == ParserError {
          return;
        }
        assert message.data[0..message.length] == message.Contents();
        var _ := buffer.Append(message.data, 0, message.length);
        if oracle(fed) == ServerFound {
          bev := true;
          stage := ST_CONNECT;
        }
      case ST_CONNECT =>
        assert written + [] == written;
      case ST_FORWARD =>
        written := written + message.data[..message.length];
    }

    /** cm_close. */
    method Close()
      requires Valid()
      modifies this
      ensures Valid() && buffer == null && fed == old(fed) && written == old(written)
      ensures Abs() == old(Abs()).(live := false, open := false, held := [])
    {
      buffer := null;
      bev := false;
    }

    /** cm_eventcb, BEV_EVENT_CONNECTED. */
    method Connected()
      requires Valid() && buffer != null
      modifies Repr()
      ensures Valid() && Repr() == old(Repr()) && fed == old(fed)
      ensures Abs() == old(Abs()).(held := [], stage := ST_FORWARD)
      ensures written == old(written) + old(Abs()).held
    {
      written := written + buffer.data[..buffer.length];
      buffer.RemoveData(buffer.length);
      stage := ST_FORWARD;
    }
  }

  /** wsconn_t. */
  class WsConn {
    const config: Config
    var wsState: WsState
    var cmState: CmState
    var wsClosing: bool
    var cmClosed: bool
    const wsmsg: WsMsg
    const messageBuffer: Buffer
    const cm: CManager
    var input: bytes          // input evbuffer
    var output: bytes         // output evbuffer
    ghost var history: History

    ghost predicate Valid()
      reads this, wsmsg, wsmsg.frameBuffer, wsmsg.frameData, wsmsg.messageBuffer, messageBuffer, cm, cm.buffer
    {
      && wsmsg.Valid() && wsmsg.limits == config.limits && wsmsg.retest == config.retest
      && messageBuffer.Valid() && messageBuffer.maxLength == 0
      && cm.Valid()
      && wsmsg.Apart(messageBuffer)
      && (cm.buffer != null ==>
            wsmsg.Apart(cm.buffer) && cm.buffer != messageBuffer && cm.buffer.data != messageBuffer.data)
      && history.upstream == cm.written
      && Fed(history.delivered) == cm.fed
    }

    ghost function Repr(): set<object>
      reads this, wsmsg, wsmsg.frameBuffer, wsmsg.frameData, wsmsg.messageBuffer, messageBuffer, cm, cm.buffer
    {
      {this, messageBuffer, messageBuffer.data} + wsmsg.Repr() + cm.Repr()
    }

    ghost function Abs(): Conn
      requires Valid()
      reads this, messageBuffer, wsmsg, wsmsg.frameBuffer, wsmsg.frameData, wsmsg.messageBuffer
      reads wsmsg.frameBuffer.data, wsmsg.frameData.data, wsmsg.messageBuffer.data
      reads cm, cm.buffer, if cm.buffer == null then {} else {cm.buffer.data}
    {
      Conn(wsState, cmState, wsClosing, cmClosed, wsmsg.Abs(), input, output, cm.Abs(), history)
    }

    constructor (config: Config)
      ensures fresh(wsmsg.Repr()) && fresh(cm.Repr()) && fresh(messageBuffer) && fresh(messageBuffer.data)
      ensures Valid() && this.config == config && Abs() == Initial
    {
      this.config := config;
      wsState, cmState, wsClosing, cmClosed := WS_ST_START, CM_ST_CREATED, false, true;
      wsmsg := new WsMsg(config.limits, config.retest);
      messageBuffer := new Buffer(0);
      cm := new CManager();
      input, output := [], [];
      history := Initial.history;
    }

    // ---- Parts of callbacks ----

    /** wsconn_write_frame. */
    method WriteFrame(opcode: byte, data: array<byte>, size: nat)
      requires Valid() && size <= data.Length
      modifies this`output, this`history
      ensures Valid() && Abs() == Write(old(Abs()), opcode, data[..size])
    {
      var buffer := BuildFrame(opcode, data, size);
      output := output + buffer.data[..buffer.length];
      history := history.(frames := history.frames + [OutFrame(opcode & 0x0f, data[..size])]);
    }

    method WriteBytes(opcode: byte, message: bytes)
      requires Valid()
      modifies this`output, this`history
      ensures Valid() && Abs() == Write(old(Abs()), opcode, message)
    {
      var data := new byte[|message|](i requires 0 <= i < |message| => message[i]);
      assert data[..|message|] == message;
      WriteFrame(opcode, data, |message|);
    }

    /** wsconn_delete; a second call would free the connection twice. */
    method Delete()
      requires Valid() && !Deleted(Abs())
      modifies this`history, cm
      ensures Valid() && Abs() == Connection.Delete(old(Abs()))
      ensures cm.buffer == null || cm.buffer == old(cm.buffer)
    {
      history := history.(callbacks := history.callbacks + [WSCB_DELETE]);
      cm.Close();
    }

    method ReleaseManager()
      requires Valid()
      modifies this`history, this`cmState, cm
      ensures Valid() && Abs() == Connection.ReleaseManager(old(Abs()))
      ensures cm.buffer == null || cm.buffer == old(cm.buffer)
    {
      history := history.(callbacks := history.callbacks + [WSCB_CLOSE]);
      cm.Close();
      cmState := CM_ST_CLOSING;
    }

    /** wsconn_close. */
    method Close()
      requires Valid() && !Deleted(Abs())
      modifies this`wsState, this`cmState, this`history, cm
      ensures Valid() && Abs() == Connection.Close(old(Abs()))
      ensures cm.buffer == null || cm.buffer == old(cm.buffer)
    {
      wsState := WS_ST_CLOSED;
      if cmState == CM_ST_CREATED {
        ReleaseManager();
      } else if cmClosed {
        Delete();
      }
    }

    /** wsconn_initiate_close. */
    method InitiateClose(status: nat, reason: bytes)
      requires Valid() && status < 0x1_0000
      modifies this`wsState, this`cmState, this`wsClosing, this`output, this`history, cm
      ensures Valid() && Abs() == Connection.InitiateClose(old(Abs()), status, reason)
      ensures cm.buffer == null || cm.buffer == old(cm.buffer)
    {
      if wsClosing {
        return;
      }
      WriteBytes(OPCODE_CLOSE, if status > 0 then Big16(status) + reason else []);
      wsState := WS_ST_CLOSING;
      if cmState == CM_ST_CREATED {
        ReleaseManager();
      }
      wsClosing := true;
    }

    /** wsconn_onclosed. */
    method OnClosed()
      requires Valid() && !Deleted(Abs())
      modifies this`wsState, this`cmState, this`wsClosing, this`cmClosed, this`output, this`history, cm
      ensures Valid() && Abs() == Connection.OnClosed(old(Abs()))
      ensures cm.buffer == null || cm.buffer == old(cm.buffer)
    {
      cmState := CM_ST_CLOSED;
      cmClosed := true;
      if wsState == WS_ST_RECEIVING {
        InitiateClose(1001, UPSTREAM_GONE);
      } else if wsState == WS_ST_CLOSED {
        Delete();
      }
    }

    // ---- wsconn_process_frame ----

    /** Each buffer the connection reaches still lives where it did, or in a block allocated since. */
    twostate predicate Kept()
      reads this, wsmsg.frameBuffer, wsmsg.frameData, wsmsg.messageBuffer, messageBuffer, cm, cm.buffer
    {
      && wsmsg.Kept()
      && (messageBuffer.data == old(messageBuffer.data) || fresh(messageBuffer.data))
      && (cm.buffer == null || (
        cm.buffer == old(cm.buffer) && (cm.buffer.data == old(cm.buffer.data) || fresh(cm.buffer.data))))
    }

    ghost method Record(e: Event)
      requires Valid()
      modifies this`history
      ensures Valid() && Abs() == Consume(old(Abs()), e, wsmsg.Abs())
    {
      history := history.(consumed := history.consumed + [e]);
    }

    // wsmsg_get_frame. The move goes to an unlimited buffer, so it cannot fail.
    method TakeFrame() returns (op: byte, payload: bytes)
      requires Valid() && wsmsg.frame
      modifies this`history, wsmsg.Repr()
      ensures Valid() && Kept()
      ensures wsmsg.Abs() == TakeControl(config.limits, config.retest, old(wsmsg.Abs()))
      ensures var frame := old(wsmsg.Abs()).control.value;
        && op == frame.opcode && payload == frame.payload
        && Abs() == Consume(old(Abs()), Control(frame), wsmsg.Abs())
    {
      ghost var frame := wsmsg.Abs().control.value;
      op, payload := FetchFrame();
      Record(Control(frame));
    }

    method FetchFrame() returns (op: byte, payload: bytes)
      requires Valid() && wsmsg.frame
      modifies wsmsg.Repr()
      ensures Valid() && Kept() && cm.Abs() == old(cm.Abs())
      ensures wsmsg.Abs() == TakeControl(config.limits, config.retest, old(wsmsg.Abs()))
      ensures var frame := old(wsmsg.Abs()).control.value; op == frame.opcode && payload == frame.payload
    {
      op, payload := wsmsg.TakeFrame();
    }

    // wsmsg_get_message into conn->message_buffer.
    method TakeText() returns (op: byte)
      requires Valid() && wsmsg.message
      modifies this`history, wsmsg.Repr(), messageBuffer, messageBuffer.data
      ensures Valid() && Kept()
      ensures wsmsg.Abs() == TakeMessage(config.limits, config.retest, old(wsmsg.Abs()))
      ensures var s := old(wsmsg.Abs());
        && op == s.messageOpcode && messageBuffer.Contents() == s.partial
        && Abs() == Consume(old(Abs()), Message(s.messageOpcode, s.partial), wsmsg.Abs())
    {
      ghost var s := wsmsg.Abs();
      op := FetchMessage();
      Record(Message(s.messageOpcode, s.partial));
    }

    method FetchMessage() returns (op: byte)
      requires Valid() && wsmsg.message
      modifies wsmsg.Repr(), messageBuffer, messageBuffer.data
      ensures Valid() && Kept() && cm.Abs() == old(cm.Abs())
      ensures wsmsg.Abs() == TakeMessage(config.limits, config.retest, old(wsmsg.Abs()))
      ensures op == old(wsmsg.Abs()).messageOpcode && messageBuffer.Contents() == old(wsmsg.Abs()).partial
    {
      var ok;
      ok, op := wsmsg.GetMessage(messageBuffer);
    }

    // WSCB_MESSAGE with the message in message_buffer.
    method HandOver()
      requires Valid() && cm.buffer != null
      modifies this`history, cm.Repr()
      ensures Valid() && Kept()
      ensures var payload := old(messageBuffer.Contents());
        Abs() == Connection.OnMessage(config, Fire(old(Abs()), WSCB_MESSAGE(payload)), payload)
    {
      ghost var payload := messageBuffer.Contents();
      ghost var verdict := config.oracle(Fed(history.delivered) + [payload]);
      ghost var delivered := Delivered(cm.stage, payload, verdict);
      FedLast(history.delivered, delivered);
      cm.OnMessage(config.oracle, messageBuffer);
      history := history.(callbacks := history.callbacks + [WSCB_MESSAGE(payload)],
                          delivered := history.delivered + [delivered], upstream := cm.written);
    }

    // What follows once a control frame has been taken.
    method AnswerFrame(ghost before: Conn, ghost frame: Frame, op: byte, payload: bytes) returns (more: bool)
      requires Valid() && op == frame.opcode && payload == frame.payload
      requires Abs() == Consume(before, Control(frame), wsmsg.Abs())
      modifies this, cm
      ensures Valid() && Kept()
      ensures Turn(Abs(), more) == OnControl(before, frame, old(wsmsg.Abs()))
    {
      if op == OPCODE_CLOSE {
        var status, reason := 1001, [];
        if |payload| >= 2 {
          status, reason := payload[0] as nat * 256 + payload[1] as nat, payload[2..];
        }
        InitiateClose(status, reason);
        return false;
      }
      if op == OPCODE_PING {
        WriteBytes(OPCODE_PONG, payload);
        return false;
      }
      return true;
    }

    // What follows once a message has been taken into message_buffer.
    method AnswerMessage(ghost before: Conn, op: byte) returns (more: bool)
      requires Valid() && cm.buffer != null && !Deleted(before)
      requires Abs() == Consume(before, Message(op, messageBuffer.Contents()), wsmsg.Abs())
      modifies this, cm.Repr()
      ensures Valid() && Kept()
      ensures Turn(Abs(), more) == OnData(config, before, op, old(messageBuffer.Contents()), old(wsmsg.Abs()))
    {
      if op == OPCODE_TEXT {
        HandOver();
      } else if op == OPCODE_BINARY {
        Close();
        return false;
      }
      return true;
    }

    // One turn of the loop of wsconn_process_frame.
    method ProcessTurn() returns (more: bool)
      requires Valid() && !Deleted(Abs()) && cm.buffer != null
      modifies Repr()
      ensures Valid() && Kept()
      ensures Turn(Abs(), more) == LoopTurn(config, old(Abs()))
    {
      ghost var before := Abs();
      if wsmsg.error {
        Close();
        return false;
      }
      if wsmsg.frame {
        var op, payload := TakeFrame();
        more := AnswerFrame(before, before.engine.control.value, op, payload);
        return;
      }
      if !wsmsg.message {
        return false;
      }
      var op := TakeText();
      more := AnswerMessage(before, op);
    }

    method ProcessLoop()
      requires Valid() && Sound(Abs()) && wsState == WS_ST_RECEIVING
      modifies Repr()
      ensures Valid() && Kept()
      ensures Abs() == Connection.ProcessLoop(config, old(Abs()))
    {
      ghost var now := Abs();
      ghost var result := Connection.ProcessLoop(config, now);
      var more := true;
      while more
        invariant Valid() && Kept() && now == Abs()
        invariant more ==> Sound(now) && now.ws == WS_ST_RECEIVING
        invariant result == if more then Connection.ProcessLoop(config, now) else now
        decreases more, |now.engine.input|, Flags(now.engine)
      {
        TurnAdvances(config, now);
        TurnShrinks(config, now);
        more := ProcessTurn();
        now := Abs();
      }
    }

    // wsmsg_add of everything in the input evbuffer.
    method Admit()
      requires Valid()
      modifies this`input, this`history, wsmsg.Repr()
      ensures Valid() && Kept()
      ensures Abs() == Connection.Admit(config, old(Abs()))
    {
      var chunk := input;
      ghost var taken := Cut(2 * config.limits.frame, wsmsg.Abs().input + chunk);
      ghost var admitted := if |wsmsg.Abs().input| <= |taken| then taken[|wsmsg.Abs().input|..] else [];
      AddInput(chunk);
      input := [];
      history := history.(offered := history.offered + chunk, admitted := history.admitted + admitted);
    }

    method AddInput(chunk: bytes)
      requires Valid()
      modifies wsmsg.Repr()
      ensures Valid() && Kept()
      ensures Abs() == old(Abs()).(engine := Reassembly.Add(config.limits, config.retest, old(Abs()).engine, chunk))
    {
      var data := new byte[|chunk|](i requires 0 <= i < |chunk| => chunk[i]);
      assert data[..|chunk|] == chunk;
      var _ := wsmsg.Add(data, |chunk|);
    }

    /** wsconn_process_frame. */
    method ProcessFrame()
      requires Valid() && Sound(Abs()) && wsState == WS_ST_RECEIVING
      modifies Repr()
      ensures Valid() && Kept() && Abs() == Connection.ProcessFrame(config, old(Abs()))
    {
      Admit();
      ProcessLoop();
    }

    // ---- Callbacks ----

    /** The end of wsconn_read_cb in WS_ST_START, once the request parser has an outcome. */
    method Conclude(outcome: Outcome)
      requires Valid() && Sound(Abs()) && wsState == WS_ST_START && !Deleted(Abs())
      modifies this, cm
      ensures Valid() && Kept() && Abs() == Connection.Conclude(old(Abs()), outcome)
    {
      match outcome
      case Incomplete =>
      case Malformed =>
        Close();
      case Refused(response) =>
        output := output + response;
        history := history.(response := history.response + response);
        Close();
      case Upgraded(response) =>
        output := output + response;
        history := history.(response := history.response + response,
                            callbacks := history.callbacks + [WSCB_CONNECTED] + [WSCB_CONNECTED]);
        wsState := WS_ST_RECEIVING;
        cmClosed := false;
    }

    /** wsconn_read_cb. */
    method ReadCb(chunk: bytes, outcome: Outcome, used: nat)
      requires Valid() && Sound(Abs()) && !Deleted(Abs())
      modifies Repr()
      ensures Valid() && Kept()
      ensures Abs() == Step(config, old(Abs()), ClientData(chunk, outcome, used))
    {
      if wsState == WS_ST_START {
        ReadRequest(chunk, outcome, used);
      } else {
        input := input + chunk;
        if wsState == WS_ST_RECEIVING {
          ProcessFrame();
        }
      }
    }

    // The chunk arrives and the request lines leave the input.
    method UseUp(chunk: bytes, used: nat)
      requires Valid()
      modifies this`input
      ensures Valid()
      ensures var all := old(input) + chunk;
        Abs() == old(Abs()).(received := if used <= |all| then all[used..] else [])
    {
      input := input + chunk;
      input := if used <= |input| then input[used..] else [];
    }

    // wsconn_read_cb before the handshake: what the request parser uses up leaves the input.
    method ReadRequest(chunk: bytes, outcome: Outcome, used: nat)
      requires Valid() && Sound(Abs()) && wsState == WS_ST_START && !Deleted(Abs())
      modifies this, cm
      ensures Valid() && Kept()
      ensures Abs() == Step(config, old(Abs()), ClientData(chunk, outcome, used))
    {
      ghost var before := Abs();
      UseUp(chunk, used);
      Conclude(outcome);
      ReadsRequest(config, before, chunk, outcome, used);
    }

    /** wsconn_write_cb, after `count` bytes have left. */
    method WriteCb(count: nat)
      requires Valid() && Sound(Abs()) && !Deleted(Abs())
      modifies this, cm
      ensures Valid() && Kept()
      ensures Abs() == Step(config, old(Abs()), OutputSent(count))
    {
      var n := if count <= |output| then count else |output|;
      history := history.(onWire := history.onWire + output[..n]);
      output := output[n..];
      if wsState == WS_ST_CLOSING && |output| == 0 {
        Delete();
      }
    }

    /** wsconn_event_cb for EOF and errors. */
    method EventCb()
      requires Valid() && Sound(Abs()) && !Deleted(Abs())
      modifies this, cm
      ensures Valid() && Kept()
      ensures Abs() == Step(config, old(Abs()), ClientGone)
    {
      Close();
    }

    method WriteOneStanza(stanza: bytes)
      requires Valid()
      modifies this`output, this`history
      ensures Valid() && Abs() == WriteStanza(old(Abs()), stanza)
    {
      var kept := if |stanza| > STANZA_LIMIT then stanza[..STANZA_LIMIT] else stanza;
      WriteBytes(OPCODE_TEXT, kept);
      history := history.(stanzas := history.stanzas + [kept]);
    }

    /** cm_readcb, for the frames the framer yields. */
    method UpstreamReadCb(stanzas: seq<bytes>)
      requires Valid() && Sound(Abs()) && cm.bev && !Deleted(Abs())
      modifies this`output, this`history
      ensures Valid() && Kept()
      ensures Abs() == Step(config, old(Abs()), UpstreamStanzas(stanzas))
    {
      var k := 0;
      while k < |stanzas|
        invariant 0 <= k <= |stanzas| && Valid()
        invariant WriteStanzas(Abs(), stanzas[k..]) == WriteStanzas(old(Abs()), stanzas)
      {
        assert stanzas[k..][0] == stanzas[k] && stanzas[k..][1..] == stanzas[k + 1..];
        WriteOneStanza(stanzas[k]);
        k := k + 1;
      }
    }

    /** cm_eventcb, BEV_EVENT_CONNECTED. */
    method UpstreamConnectedCb()
      requires Valid() && Sound(Abs()) && cm.bev && !Deleted(Abs())
      modifies this`history, cm.Repr()
      ensures Valid() && Kept()
      ensures Abs() == Step(config, old(Abs()), UpstreamConnected)
    {
      cm.Connected();
      history := history.(upstream := cm.written);
    }

    /** cm_eventcb, BEV_EVENT_ERROR: the connection is not deleted under cm_close. */
    method UpstreamErrorCb()
      requires Valid() && Sound(Abs()) && cm.bev && !Deleted(Abs())
      modifies this, cm
      ensures Valid() && Kept() && !Deleted(Abs())
      ensures Abs() == Step(config, old(Abs()), UpstreamFailed)
    {
      OnClosedOnlyInitiates(Abs());
      OnClosed();
      cm.Close();
    }
  }

  /** Before the handshake a read uses up request lines and comes to its outcome. */
  lemma ReadsRequest(config: Config, c: Conn, chunk: bytes, outcome: Outcome, used: nat)
    requires c.ws == WS_ST_START && !Deleted(c)
    ensures var input := c.received + chunk;
      Step(config, c, ClientData(chunk, outcome, used))
      == Connection.Conclude(c.(received := if used <= |input| then input[used..] else []), outcome)
  {
  }
}
