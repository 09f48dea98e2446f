/**
 wsmsg_t of wsmessage.c: three buffers and a handful of flags updated in place. Every call is
 proved to do to the object what the function of the same name in Reassembly does to its value.
 */
module MessageEngine {
  import opened Wrappers
  import opened Bytes
  import opened Buffers
  import opened FrameCodec
  import opened FrameDecoder
  import opened Reassembly

  class WsMsg {
    const limits: Limits
    // Whether the guard of the loop is tested again on every turn; the code as it stands does not.
    const retest: bool

    var frame: bool
    var message: bool
    var error: bool
    const frameBuffer: Buffer
    const frameData: Buffer
    var fin: bool
    var opcode: byte
    var mask: bool
    const messageBuffer: Buffer
    var messageOpcode: byte
    var messageStarted: bool

    ghost predicate Valid()
      reads this, frameBuffer, frameData, messageBuffer
    {
      && frameBuffer != frameData && frameBuffer != messageBuffer && frameData != messageBuffer
      && frameBuffer.data != frameData.data && frameBuffer.data != messageBuffer.data
      && frameData.data != messageBuffer.data
      && frameBuffer.Valid() && frameBuffer.maxLength == 2 * limits.frame
      && frameData.Valid() && frameData.maxLength == limits.frame
      && messageBuffer.Valid() && messageBuffer.maxLength == limits.message
    }

    /** A buffer, and the block it uses, that are none of the engine's own. */
    ghost predicate Apart(b: Buffer)
      reads this, frameBuffer, frameData, messageBuffer, b
    {
      && b != frameBuffer && b != frameData && b != messageBuffer
      && b.data != frameBuffer.data && b.data != frameData.data && b.data != messageBuffer.data
    }

    ghost function Repr(): set<object>
      reads this, frameBuffer, frameData, messageBuffer
    {
      {this, frameBuffer, frameData, messageBuffer, frameBuffer.data, frameData.data, messageBuffer.data}
    }

    /** Each buffer still lives where it did, or in a block allocated since. */
    twostate predicate Kept()
      reads frameBuffer, frameData, messageBuffer
    {
      && (frameBuffer.data == old(frameBuffer.data) || fresh(frameBuffer.data))
      && (frameData.data == old(frameData.data) || fresh(frameData.data))
      && (messageBuffer.data == old(messageBuffer.data) || fresh(messageBuffer.data))
    }

    /** The shared frame_data counts only while a control frame waits in it. */
    ghost function Abs(): State
      requires Valid()
      reads this, frameBuffer, frameData, messageBuffer, frameBuffer.data, frameData.data, messageBuffer.data
    {
      State(
        frameBuffer.Contents(),
        if frame then Some(Frame(fin, opcode, mask, frameData.Contents())) else None,
        messageBuffer.Contents(),
        messageStarted,
        messageOpcode,
        message,
        error)
    }

    constructor (limits: Limits, retest: bool)
      ensures Valid() && fresh(Repr()) && this.limits == limits && this.retest == retest
      ensures Abs() == Fresh
    {
      this.limits, this.retest := limits, retest;
      frame, message, error := false, false, false;
      fin, opcode, mask := false, 0, false;
      messageOpcode, messageStarted := 0, false;
      frameBuffer := new Buffer(2 * limits.frame);
      messageBuffer := new Buffer(limits.message);
      frameData := new Buffer(limits.frame);
    }

    method AppendPayload() returns (res: bool)
      requires Valid() && !frame
      modifies messageBuffer, messageBuffer.data
      ensures Valid() && Kept() && frameData.Contents() == old(frameData.Contents())
      ensures res == AppendOk(limits.message, old(Abs()).partial, frameData.Contents())
      ensures Abs() == old(Abs()).(partial := Cut(limits.message, old(Abs()).partial + frameData.Contents()))
    {
      assert frameData.data[0..frameData.length] == frameData.Contents();
      res := messageBuffer.Append(frameData.data, 0, frameData.length);
    }

    // What the loop does with a data frame once its payload is in frameData.
    method AddFragment(fragmentFin: bool, fragmentOpcode: byte) returns (accepted: bool)
      requires Valid() && !frame && !error && !IsControl(fragmentOpcode)
      modifies Repr() - {frameBuffer, frameBuffer.data}
      ensures Valid() && Kept()
      ensures var f := Frame(fragmentFin, fragmentOpcode, false, old(frameData.Contents()));
        && Accept(limits, old(Abs()), f) == Abs().(error := !accepted)
        && !error && frameBuffer.data == old(frameBuffer.data)
    {
      if messageStarted && fragmentOpcode != OPCODE_CONTINUATION {
        return false;
      }
      if !messageStarted && fragmentOpcode == OPCODE_CONTINUATION {
        return false;
      }
      var res := AppendPayload();
      if !res {
        return false;
      }
      if !messageStarted {
        messageStarted := true;
        messageOpcode := fragmentOpcode;
      }
      if fragmentFin {
        message := true;
      }
      frameData.RemoveData(frameData.length);
      return true;
    }

    /** What one turn of the loop, up to its `goto Error`, makes of the engine. */
    ghost predicate Turned(before: State, after: State, more: bool, failed: bool) {
      match DecodeFrame(before.input)
      case Building => after == before && !more && !failed
      case Error => after == before && !more && failed
      case Ready(ready, n) =>
        && after.(error := failed) == Accept(limits, before.(input := before.input[n..]), Stored(limits, ready))
        && more == !(failed || after.control.Some? || (retest && after.message))
    }

    // get_frame over the engine's own buffers.
    method FetchFrame() returns (status: FrameStatus, f: bool, op: byte, m: bool)
      requires Valid() && !frame
      modifies Repr()
      ensures Valid() && Kept() && !frame
      ensures Abs() == old(Abs()).(input := Remaining(old(Abs()).input))
      ensures Reports(status, f, op, m, frameData.Contents(), limits.frame, old(Abs()).input)
    {
      status, f, op, m := GetFrame(frameBuffer, frameData);
    }

    method Turn() returns (more: bool, failed: bool)
      requires Valid() && !frame && !error
      modifies Repr()
      ensures Valid() && Kept() && !error
      ensures Turned(old(Abs()), Abs(), more, failed)
    {
      var status, f, op, m := FetchFrame();
      if status == FS_BUILDING {
        return false, false;
      }
      if status == FS_ERROR {
        return false, true;
      }
      more, failed := HandleReady(f, op, m);
    }

    // The frame is in frameData: keep it there if it is a control frame, or else join it on.
    method HandleReady(f: bool, op: byte, m: bool) returns (more: bool, failed: bool)
      requires Valid() && !frame && !error
      modifies Repr() - {frameBuffer, frameBuffer.data}
      ensures Valid() && Kept() && !error
      ensures Abs().(error := failed) == Accept(limits, old(Abs()), Frame(f, op, m, old(frameData.Contents())))
      ensures more == !(failed || frame || (retest && message))
    {
      if op == OPCODE_CLOSE || op == OPCODE_PING || op == OPCODE_PONG {
        if !f {
          return false, true;
        }
        frame, fin, opcode, mask := true, f, op, m;
        return false, false;
      }
      var accepted := AddFragment(f, op);
      return accepted && !(retest && message), !accepted;
    }

    lemma TurnOfLoop(before: State, after: State, more: bool, failed: bool)
      requires before.control.None? && !before.error && !after.error && Turned(before, after, more, failed)
      ensures more ==> after.control.None? && |after.input| < |before.input|
      ensures Loop(limits, retest, before) == if more then Loop(limits, retest, after) else after.(error := failed)
    {
    }

    // A whole turn, the error flag included.
    method Advance() returns (more: bool)
      requires Valid() && !frame && !error
      modifies Repr()
      ensures Valid() && Kept()
      ensures more ==> !frame && !error && frameBuffer.length < old(frameBuffer.length)
      ensures Loop(limits, retest, old(Abs())) == if more then Loop(limits, retest, Abs()) else Abs()
    {
      ghost var before := Abs();
      var failed;
      more, failed := Turn();
      TurnOfLoop(before, Abs(), more, failed);
      error := failed;
    }

    method RunLoop()
      requires Valid() && !frame && !error
      modifies Repr()
      ensures Valid() && Kept()
      ensures Abs() == Loop(limits, retest, old(Abs()))
    {
      ghost var result := Loop(limits, retest, Abs());
      var more := true;
      while more
        invariant Valid() && Kept()
        invariant more ==> !frame && !error
        invariant result == if more then Loop(limits, retest, Abs()) else Abs()
        decreases more, frameBuffer.length
      {
        more := Advance();
      }
    }

    method Process()
      requires Valid()
      modifies Repr()
      ensures Valid() && Kept()
      ensures Abs() == Reassembly.Process(limits, retest, old(Abs()))
    {
      if message || frame || error {
        return;
      }
      RunLoop();
    }

    method Add(data: array<byte>, length: nat) returns (ok: bool)
      requires Valid() && length <= data.Length && data !in Repr()
      modifies Repr()
      ensures Valid() && Kept()
      ensures ok == AppendOk(2 * limits.frame, old(Abs()).input, old(data[..length]))
      ensures Abs() == Reassembly.Add(limits, retest, old(Abs()), old(data[..length]))
    {
      assert data[0..length] == data[..length];
      ok := frameBuffer.Append(data, 0, length);
      if ok {
        Process();
      }
    }

    /** wsmsg_get_message: answers no when no message waits, and otherwise hands it over. */
    method GetMessage(buffer: Buffer) returns (ok: bool, messageOpcode: byte)
      requires Valid() && buffer.Valid() && buffer !in Repr() && buffer.data !in Repr()
      modifies Repr(), buffer, buffer.data
      ensures Valid() && Kept()
      ensures buffer.Valid() && (buffer.data == old(buffer.data) || fresh(buffer.data)) && buffer.data !in Repr()
      ensures ok == old(message)
      ensures if ok then
          && messageOpcode == old(Abs()).messageOpcode
          && buffer.Contents() == Cut(buffer.maxLength, old(Abs()).partial)
          && Abs() == TakeMessage(limits, retest, old(Abs()))
        else
          Abs() == old(Abs()) && buffer.Contents() == old(buffer.Contents())
    {
      if !message {
        return false, 0;
      }
      message := false;
      messageStarted := false;
      ok := messageBuffer.MoveTo(buffer);
      messageOpcode := this.messageOpcode;
      Process();
    }

    /** wsmsg_get_frame: the same for a control frame, whose payload has waited in frame_data. */
    method GetControlFrame(buffer: Buffer) returns (ok: bool, f: bool, op: byte, m: bool)
      requires Valid() && buffer.Valid() && buffer !in Repr() && buffer.data !in Repr()
      modifies Repr(), buffer, buffer.data
      ensures Valid() && Kept()
      ensures buffer.Valid() && (buffer.data == old(buffer.data) || fresh(buffer.data)) && buffer.data !in Repr()
      ensures ok == old(frame)
      ensures if ok then
          var waiting := old(Abs()).control.value;
          && Frame(f, op, m, buffer.Contents()) == waiting.(payload := Cut(buffer.maxLength, waiting.payload))
          && Abs() == TakeControl(limits, retest, old(Abs()))
        else
          Abs() == old(Abs()) && buffer.Contents() == old(buffer.Contents())
    {
      if !frame {
        return false, false, 0, false;
      }
      frame := false;
      ok := frameData.MoveTo(buffer);
      f, op, m := fin, opcode, mask;
      Process();
    }

    /** A waiting control frame, through a buffer of its own, which is unlimited and so takes it whole. */
    method TakeFrame() returns (op: byte, payload: bytes)
      requires Valid() && frame
      modifies Repr()
      ensures Valid() && Kept()
      ensures Abs() == TakeControl(limits, retest, old(Abs()))
      ensures op == old(Abs()).control.value.opcode && payload == old(Abs()).control.value.payload
    {
      var buffer := new Buffer(0);
      var ok, fin, mask;
      ok, fin, op, mask := GetControlFrame(buffer);
      payload := buffer.data[..buffer.length];
    }
  }
}
