/** The buffer that wsconn_write_frame fills before handing it to the output. */
module FrameWriter {
  import opened Bytes
  import opened Buffers
  import opened FrameCodec

  // MASK and length: one, three or nine bytes of block1.
  method LengthBlock(size: nat) returns (block1: array<byte>, count: nat)
    ensures fresh(block1) && count <= block1.Length
    ensures block1[..count] == [WrittenLength7(size)] + WrittenExtendedLength(size)
  {
    block1 := new byte[9](_ => 0);
    var low := Big16(size % 0x1_0000);
    if size <= 125 {
      block1[0] := Octet(size);
      count := 1;
    } else if size < (2 * 0x1_0000) - 1 {
      block1[0] := 126;
      block1[1], block1[2] := low[0], low[1];
      count := 3;
    } else {
      block1[0] := 127;
      block1[5], block1[6] := low[0], low[1];
      count := 9;
    }
  }

  method BuildFrame(opcode: byte, data: array<byte>, size: nat) returns (buffer: Buffer)
    requires size <= data.Length
    ensures fresh(buffer) && fresh(buffer.data) && buffer.Valid()
    ensures buffer.Contents() == WriteFrame(opcode, data[..size])
  {
    var block0 := new byte[1](_ => 0x80 + (0x0f & opcode));
    buffer := new Buffer(0);
    var res := buffer.Append(block0, 0, 1);
    assert buffer.Contents() == [0x80 + (0x0f & opcode)];
    var block1, count := LengthBlock(size);
    assert block1[0..count] == block1[..count];
    res := buffer.Append(block1, 0, count);
    assert buffer.Contents() == [0x80 + (0x0f & opcode), WrittenLength7(size)] + WrittenExtendedLength(size);
    assert data[0..size] == data[..size];
    res := buffer.Append(data, 0, size);
  }
}
