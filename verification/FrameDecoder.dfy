/**
 get_frame of wsmessage.c over two real buffers. The payload is copied out before the check that
 it has arrived, so the destination means something only when the status is FS_READY.
 */
module FrameDecoder {
  import opened Bytes
  import opened Buffers
  import opened FrameCodec

  datatype FrameStatus = FS_BUILDING | FS_READY | FS_ERROR

  /** What a status, the flags and the destination say about the bytes that were buffered. */
  ghost predicate Reports(
      status: FrameStatus, fin: bool, opcode: byte, mask: bool, stored: bytes, limit: nat, before: bytes) {
    match DecodeFrame(before)
    case Building => status.FS_BUILDING?
    case Error => status.FS_ERROR?
    case Ready(frame, _) =>
      status.FS_READY? && Frame(fin, opcode, mask, stored) == frame.(payload := Cut(limit, frame.payload))
  }

  /** The bytes still buffered after get_frame has looked at `before`. */
  function Remaining(before: bytes): bytes {
    match DecodeFrame(before)
    case Building => before
    case Error => before
    case Ready(_, consumed) => before[consumed..]
  }

  // The payload length stored in the header, once the header is there.
  method ReadLength(data: array<byte>, length: nat, length7: nat) returns (arrived: bool, n: nat)
    requires length <= data.Length && 2 <= length
    ensures arrived == (HeaderLength(length7) <= length)
    ensures arrived ==> n == PayloadLength(data[..length], length7)
  {
    n := length7;
    if length7 == 126 {
      if length < 4 {
        return false, 0;
      }
      n := data[2] as nat * 256 + data[3] as nat;
    } else if length7 == 127 {
      if length < 10 {
        return false, 0;
      }
      assert data[..length][6..10] == data[6..10];
      n := Value32(data[6..10]);
    }
    return true, n;
  }

  method GetFrame(source: Buffer, target: Buffer)
    returns (status: FrameStatus, fin: bool, opcode: byte, mask: bool)
    requires source.Valid() && target.Valid() && source != target && source.data != target.data
    modifies source`length, source.data, target, target.data
    ensures source.Valid() && target.Valid() && source.data != target.data
    ensures target.data == old(target.data) || fresh(target.data)
    ensures Reports(status, fin, opcode, mask, target.Contents(), target.maxLength, old(source.Contents()))
    ensures source.Contents() == Remaining(old(source.Contents()))
  {
    fin, opcode, mask := false, 0, false;
    var data, length := source.data, source.length;
    ghost var before := source.Contents();
    if length < 2 {
      return FS_BUILDING, fin, opcode, mask;
    }
    var head := ReadHead(data[0], data[1]);
    assert DecodeFrame(before) == DecodeBody(before, head);
    if head.rsv {
      return FS_ERROR, fin, opcode, mask;
    }
    var arrived, messageLength := ReadLength(data, length, head.length7);
    if !arrived {
      return FS_BUILDING, fin, opcode, mask;
    }
    var ready := TakePayload(source, target, head, messageLength);
    return if ready then FS_READY else FS_BUILDING, head.fin, head.opcode, head.mask;
  }

  /**
   Copies the payload out, and once the frame has arrived unmasks the copy and removes the frame.
   The copy takes messageLength bytes from memory whether they have arrived or not: what lies
   beyond the buffered bytes is arbitrary here.
   */
  method TakePayload(source: Buffer, target: Buffer, head: Head, messageLength: nat) returns (ready: bool)
    requires source.Valid() && target.Valid() && source != target && source.data != target.data
    requires !head.rsv && HeaderLength(head.length7) <= source.length
    requires PayloadLength(source.Contents(), head.length7) == messageLength
    modifies source`length, source.data, target, target.data
    ensures source.Valid() && target.Valid() && source.data != target.data
    ensures target.data == old(target.data) || fresh(target.data)
    ensures TookFrame(old(source.Contents()), head, ready, target.Contents(), target.maxLength, source.Contents())
  {
    var start := PayloadStart(head);
    var frameLength := start + messageLength;
    CopyPayload(source, target, start, messageLength);
    ready := frameLength <= source.length;
    if ready {
      TakeArrived(source, target, head, start, frameLength);
    }
  }

  // The whole frame is there, and its payload in the destination.
  method TakeArrived(source: Buffer, target: Buffer, head: Head, start: nat, frameLength: nat)
    requires source.Valid() && target.Valid() && source != target && source.data != target.data
    requires !head.rsv && HeaderLength(head.length7) <= source.length && start == PayloadStart(head)
    requires frameLength == start + PayloadLength(source.Contents(), head.length7) <= source.length
    requires target.Contents() == Cut(target.maxLength, source.Contents()[start..frameLength])
    modifies source`length, source.data, target.data
    ensures source.Valid() && target.Valid()
    ensures TookFrame(old(source.Contents()), head, true, target.Contents(), target.maxLength, source.Contents())
  {
    ArrivedFrame(source.Contents(), head, start, frameLength);
    FinishFrame(source, target, head.mask, start, frameLength);
  }

  /** What has been taken of the bytes `before`: nothing yet, or the frame at their front. */
  ghost predicate TookFrame(before: bytes, head: Head, ready: bool, stored: bytes, limit: nat, after: bytes) {
    match DecodeBody(before, head)
    case Building => !ready && after == before
    case Error => false
    case Ready(frame, consumed) =>
      && ready && frame == Frame(head.fin, head.opcode, head.mask, frame.payload)
      && stored == Cut(limit, frame.payload) && after == before[consumed..]
  }

  /** How many of that many bytes a destination with this limit takes. */
  function Copied(limit: nat, count: nat): nat {
    if limit > 0 && count > limit then limit else count
  }

  /** The early copy stays inside the block, whose capacity is this, that holds the bytes `b`. */
  predicate CopiesInside(limit: nat, capacity: nat, b: bytes, head: Head) {
    |b| >= HeaderLength(head.length7) ==>
      PayloadStart(head) + Copied(limit, PayloadLength(b, head.length7)) <= capacity
  }

  /** Of a frame that has arrived it does. */
  lemma ArrivedCopiesInside(limit: nat, capacity: nat, b: bytes, head: Head)
    requires DecodeBody(b, head).Ready? && |b| <= capacity
    ensures CopiesInside(limit, capacity, b, head)
  {
  }

  /** Of any frame it does when the block has room for the largest header and the limit. */
  lemma LimitedCopiesInside(limit: nat, capacity: nat, b: bytes, head: Head)
    requires 0 < limit && limit + 14 <= capacity
    ensures CopiesInside(limit, capacity, b, head)
  {
  }

  /** The four bytes of a header that announces 65535 more, in a new block: the copy goes beyond it. */
  lemma EarlyCopyLeavesBlock()
    ensures var b: bytes := [0x81, 126, 0xff, 0xff]; !CopiesInside(0, INIT_BUFFER_SIZE, b, ReadHead(b[0], b[1]))
  {
    var b: bytes := [0x81, 126, 0xff, 0xff];
    assert PayloadLength(b, 126) == 65535;
  }

  // buffer_set_data from the source's block: what it holds there, as long as the copy stays inside.
  method CopyOut(source: Buffer, target: Buffer, start: nat, count: nat)
    requires source.Valid() && target.Valid() && source != target && source.data != target.data
    modifies target, target.data
    ensures target.Valid() && source.data != target.data
    ensures target.data == old(target.data) || fresh(target.data)
    ensures start + Copied(target.maxLength, count) <= source.data.Length ==>
      target.Contents() == source.data[start..start + Copied(target.maxLength, count)]
  {
    var window := CopyWindow(source.data, start, count);
    var stored := target.SetData(window, 0, count);
    assert stored;
    assert window[0..count] == window[..];
    ghost var n := Copied(target.maxLength, count);
    assert target.Contents() == window[..n];
    if start + n <= source.data.Length {
      assert window[..n] == source.data[start..start + n];
    }
  }

  // The payload, before anything is known of whether it has arrived.
  method CopyPayload(source: Buffer, target: Buffer, start: nat, count: nat)
    requires source.Valid() && target.Valid() && source != target && source.data != target.data
    modifies target, target.data
    ensures target.Valid() && source.data != target.data
    ensures target.data == old(target.data) || fresh(target.data)
    ensures start + count <= source.length ==>
      target.Contents() == Cut(target.maxLength, source.Contents()[start..start + count])
  {
    CopyOut(source, target, start, count);
    if start + count <= source.length {
      CopiedIsCut(source.data[..], source.length, target.maxLength, start, count);
    }
  }

  lemma CopiedIsCut(data: bytes, length: nat, limit: nat, start: nat, count: nat)
    requires start + count <= length <= |data|
    ensures data[start..start + Copied(limit, count)] == Cut(limit, data[..length][start..start + count])
  {
  }

  // The bytes FinishFrame works on are the frame.
  lemma ArrivedFrame(b: bytes, head: Head, start: nat, end: nat)
    requires !head.rsv && HeaderLength(head.length7) <= |b| && start == PayloadStart(head)
    requires end == start + PayloadLength(b, head.length7) <= |b|
    ensures var raw := b[start..end];
      DecodeBody(b, head) == Ready(
        Frame(head.fin, head.opcode, head.mask, if head.mask then Masked(raw, b[start - 4..start]) else raw), end)
  {
  }

  // The frame has arrived: unmask the stored copy, then drop the frame from the source.
  method FinishFrame(source: Buffer, target: Buffer, mask: bool, start: nat, frameLength: nat)
    requires source.Valid() && target.Valid() && source != target && source.data != target.data
    requires (if mask then 4 else 0) <= start <= frameLength <= source.length
    requires target.Contents() == Cut(target.maxLength, source.Contents()[start..frameLength])
    modifies source`length, source.data, target.data
    ensures source.Valid() && target.Valid()
    ensures var before := old(source.Contents()); var raw := before[start..frameLength];
      && target.Contents() == Cut(target.maxLength, if mask then Masked(raw, before[start - 4..start]) else raw)
      && source.Contents() == before[frameLength..]
  {
    ghost var before := source.Contents();
    if mask {
      SliceOfPrefixOf(source.data, source.length, start - 4, start);
      UnmaskStored(target, source.data, start - 4, before[start..frameLength], before[start - 4..start]);
    }
    assert source.Contents() == before;
    ghost var stored := target.Contents();
    source.RemoveData(frameLength);
    assert target.Contents() == stored;
  }

  lemma SliceOfPrefixOf(data: array<byte>, n: nat, i: nat, j: nat)
    requires i <= j <= n <= data.Length
    ensures data[..n][i..j] == data[i..j]
  {
  }

  method CopyWindow(data: array<byte>, start: nat, count: nat) returns (window: array<byte>)
    ensures fresh(window) && window.Length == count
    ensures forall i :: 0 <= i < count && start + i < data.Length ==> window[i] == data[start + i]
  {
    window := new byte[count];
    forall i | 0 <= i < count && start + i < data.Length {
      window[i] := data[start + i];
    }
  }

  method UnmaskStored(target: Buffer, keyData: array<byte>, keyOffset: nat, ghost raw: bytes, ghost key: bytes)
    requires target.Valid() && keyOffset + 4 <= keyData.Length && keyData != target.data
    requires keyData[keyOffset..keyOffset + 4] == key
    requires target.Contents() == Cut(target.maxLength, raw)
    modifies target.data
    ensures target.Contents() == Cut(target.maxLength, Masked(raw, key))
  {
    Unmask(target.data, target.length, keyData, keyOffset);
    MaskOfCut(target.maxLength, raw, key);
  }
}
