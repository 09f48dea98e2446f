/**
 The examples of section 5.7 of RFC 6455, byte for byte.
 */
module SampleFrames {
  import opened Bytes
  import opened Buffers
  import opened FrameCodec
  import opened Reassembly

  const HELLO: bytes := [0x48, 0x65, 0x6c, 0x6c, 0x6f]
  const HELLO_KEY: bytes := [0x37, 0xfa, 0x21, 0x3d]
  const HELLO_MASKED: bytes := [0x7f, 0x9f, 0x4d, 0x51, 0x58]

  lemma HelloUnmasks(raw: bytes, key: bytes)
    requires raw == HELLO_MASKED && key == HELLO_KEY
    ensures Masked(raw, key) == HELLO
  {
    var text := Masked(raw, key);
    assert text[0] == raw[0] ^ key[0] && text[1] == raw[1] ^ key[1] && text[2] == raw[2] ^ key[2];
    assert text[3] == raw[3] ^ key[3] && text[4] == raw[4] ^ key[0];
  }

  /** A frame of this head in the seven-bit form is its two bytes, the key and the payload. */
  lemma ShortFrame(b: bytes, h: Head, raw: bytes, x: bytes)
    requires h == Head(false, h.fin, h.opcode, false, |raw|) && |raw| < 126
    requires |b| >= 2 && ReadHead(b[0], b[1]) == h && b == [b[0], b[1]] + raw + x
    ensures DecodeFrame(b) == Ready(Frame(h.fin, h.opcode, false, raw), 2 + |raw|)
  {
    assert b[2..2 + |raw|] == raw;
  }

  lemma ShortMaskedFrame(b: bytes, h: Head, key: bytes, raw: bytes, x: bytes)
    requires h == Head(false, h.fin, h.opcode, true, |raw|) && |raw| < 126 && |key| == 4
    requires |b| >= 2 && ReadHead(b[0], b[1]) == h && b == [b[0], b[1]] + key + raw + x
    ensures DecodeFrame(b) == Ready(Frame(h.fin, h.opcode, true, Masked(raw, key)), 6 + |raw|)
  {
    assert b[2..6] == key && b[6..6 + |raw|] == raw;
  }

  /** A single-frame text message, and a Ping, unmasked. */
  lemma UnmaskedExamples(x: bytes)
    ensures DecodeFrame([0x81, 0x05] + HELLO + x) == Ready(Frame(true, OPCODE_TEXT, false, HELLO), 7)
    ensures DecodeFrame([0x89, 0x05] + HELLO + x) == Ready(Frame(true, OPCODE_PING, false, HELLO), 7)
  {
    ShortFrame([0x81, 0x05] + HELLO + x, Head(false, true, OPCODE_TEXT, false, 5), HELLO, x);
    ShortFrame([0x89, 0x05] + HELLO + x, Head(false, true, OPCODE_PING, false, 5), HELLO, x);
  }

  /** The same message masked, and a masked Pong. */
  lemma MaskedExamples(x: bytes)
    ensures DecodeFrame([0x81, 0x85] + HELLO_KEY + HELLO_MASKED + x)
      == Ready(Frame(true, OPCODE_TEXT, true, HELLO), 11)
    ensures DecodeFrame([0x8a, 0x85] + HELLO_KEY + HELLO_MASKED + x)
      == Ready(Frame(true, OPCODE_PONG, true, HELLO), 11)
  {
    HelloUnmasks(HELLO_MASKED, HELLO_KEY);
    ShortMaskedFrame([0x81, 0x85] + HELLO_KEY + HELLO_MASKED + x,
                     Head(false, true, OPCODE_TEXT, true, 5), HELLO_KEY, HELLO_MASKED, x);
    ShortMaskedFrame([0x8a, 0x85] + HELLO_KEY + HELLO_MASKED + x,
                     Head(false, true, OPCODE_PONG, true, 5), HELLO_KEY, HELLO_MASKED, x);
  }

  /** 256 bytes of binary data with a 16-bit length, and 64 KiB with a 64-bit one. */
  lemma LongExamples(data: bytes, x: bytes)
    ensures |data| == 256 ==>
      DecodeFrame([0x82, 0x7e, 0x01, 0x00] + data + x) == Ready(Frame(true, OPCODE_BINARY, false, data), 260)
    ensures |data| == 65536 ==>
      DecodeFrame([0x82, 0x7f, 0x00, 0x00, 0x00, 0x00, 0x00, 0x01, 0x00, 0x00] + data + x)
      == Ready(Frame(true, OPCODE_BINARY, false, data), 65546)
  {
    if |data| == 256 {
      LongFrame([0x82, 0x7e, 0x01, 0x00], 126, data, x);
    } else if |data| == 65536 {
      LongFrame([0x82, 0x7f, 0x00, 0x00, 0x00, 0x00, 0x00, 0x01, 0x00, 0x00], 127, data, x);
    }
  }

  lemma LongFrame(header: bytes, length7: nat, data: bytes, x: bytes)
    requires length7 in {126, 127} && |header| == HeaderLength(length7)
    requires ReadHead(header[0], header[1]) == Head(false, true, OPCODE_BINARY, false, length7)
    requires PayloadLength(header, length7) == |data|
    ensures DecodeFrame(header + data + x) == Ready(Frame(true, OPCODE_BINARY, false, data), |header| + |data|)
  {
    var b := header + data + x;
    Assoc(header, data, x);
    assert b[0] == header[0] && b[1] == header[1];
    LengthIsLocal(header, b, length7);
    Middle(header, data, x);
  }

  lemma TwoFragments(limits: Limits, b: bytes, n: nat, first: bytes, second: bytes)
    requires limits == Limits(0, 0)
    requires DecodeFrame(b) == Ready(Frame(false, OPCODE_TEXT, false, first), n)
    requires DecodeFrame(b[n..]) == Ready(Frame(true, OPCODE_CONTINUATION, false, second), |b| - n)
    ensures Decode(limits, Idle, b) == Decoded([Message(OPCODE_TEXT, first + second)], false, [], Idle)
  {
    assert [] + first == first;
    assert b[n..][|b| - n..] == [];
    var whole := Message(OPCODE_TEXT, first + second);
    assert [whole] + [] == [whole] && [] + [whole] == [whole];
    assert Decode(limits, Open(OPCODE_TEXT, first), b[n..]) == Decoded([whole], false, [], Idle);
  }

  /** The message in two fragments comes out as one. */
  lemma FragmentedExample(b: bytes)
    requires b == [0x01, 0x03, 0x48, 0x65, 0x6c, 0x80, 0x02, 0x6c, 0x6f]
    ensures Decode(Limits(0, 0), Idle, b) == Decoded([Message(OPCODE_TEXT, HELLO)], false, [], Idle)
  {
    var hel: bytes, lo: bytes := [0x48, 0x65, 0x6c], [0x6c, 0x6f];
    ShortFrame(b, Head(false, false, OPCODE_TEXT, false, 3), hel, b[5..]);
    ShortFrame(b[5..], Head(false, true, OPCODE_CONTINUATION, false, 2), lo, []);
    TwoFragments(Limits(0, 0), b, 5, hel, lo);
    assert hel + lo == HELLO;
  }

  /** What the server writes for the text and for the Pong that answers the Ping. */
  lemma WrittenExamples()
    ensures WriteFrame(OPCODE_TEXT, HELLO) == [0x81, 0x05] + HELLO
    ensures WriteFrame(OPCODE_PONG, HELLO) == [0x8a, 0x05] + HELLO
  {
    assert Octet(5) == 5;
  }
}
