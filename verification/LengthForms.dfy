/**
 The three forms a length can take in section 5.2 of RFC 6455. get_frame reads each of them whatever the
 length; the RFC asks for the shortest, and a frame is in it exactly when its encoder could have written it.
 */
module LengthForms {
  import opened Bytes
  import opened Buffers
  import opened FrameCodec

  /** The 16-bit form is for more than 125, the 64-bit form for what does not fit in the 16-bit form. */
  predicate ShortestForm(b: bytes) {
    |b| >= 2 &&
    var length7 := ReadHead(b[0], b[1]).length7;
    && |b| >= HeaderLength(length7)
    && (length7 == 126 ==> PayloadLength(b, 126) > 125)
    && (length7 == 127 ==> Value32(b[2..6]) == 0 && PayloadLength(b, 127) > 0xffff)
  }

  /** The bytes are an encoding of the frame as the RFC asks for it, under some mask key. */
  ghost predicate Encodes(b: bytes, f: Frame) {
    |f.payload| < LONGEST && exists key :: ValidKey(key) && b == EncodeFrame(f.fin, f.opcode, key, f.payload)
  }

  lemma FormIsLocal(b: bytes, c: bytes)
    requires c <= b && |c| >= 2 && |c| >= HeaderLength(ReadHead(c[0], c[1]).length7)
    ensures ShortestForm(b) <==> ShortestForm(c)
  {
    var length7 := ReadHead(c[0], c[1]).length7;
    LengthIsLocal(c, b, length7);
    if length7 == 127 {
      SliceOfPrefix(c, b, 2, 6);
    }
  }

  // ---- What an encoder writes is in the shortest form ----

  lemma FormOfLength(b: bytes, n: nat)
    requires |b| >= 2 && ReadHead(b[0], b[1]).length7 == Length7(n) as nat
    requires |b| >= HeaderLength(Length7(n) as nat) && PayloadLength(b, Length7(n) as nat) == n
    requires n > 0xffff ==> Value32(b[2..6]) == 0
    ensures ShortestForm(b)
  {
  }

  lemma EncodedIsShortest(fin: bool, opcode: byte, key: Key, payload: bytes)
    requires ValidKey(key) && |payload| < LOW_HALF
    ensures ShortestForm(EncodeFrame(fin, opcode, key, payload))
  {
    var n, mask := |payload|, key.MaskKey?;
    var two := [FirstByte(fin, opcode), SecondByte(mask, Length7(n))];
    Assoc(two + ExtendedLength(n), KeyBytes(key), OnWire(key, payload));
    HeaderIsShortest(fin, opcode, mask, n, two, KeyBytes(key) + OnWire(key, payload));
  }

  lemma HeaderIsShortest(fin: bool, opcode: byte, mask: bool, n: nat, two: bytes, behind: bytes)
    requires n < LOW_HALF && two == [FirstByte(fin, opcode), SecondByte(mask, Length7(n))]
    ensures ShortestForm(two + ExtendedLength(n) + behind)
  {
    HeaderRead(fin, opcode, mask, n, behind);
    LowHalfOfLow(n);
    if n > 0xffff {
      HighHalf(two, n, behind);
    }
    FormOfLength(two + ExtendedLength(n) + behind, n);
  }

  lemma HighHalf(two: bytes, n: nat, behind: bytes)
    requires |two| == 2 && 0xffff < n < LOW_HALF
    ensures Value32((two + ExtendedLength(n) + behind)[2..6]) == 0
  {
    var high, low := Big32(n / LOW_HALF), Big32(n % LOW_HALF);
    assert n / LOW_HALF == 0;
    Assoc(two, high, low);
    Assoc(two + high, low, behind);
    Middle(two, high, low + behind);
  }

  // ---- What is in the shortest form an encoder could have written ----

  lemma HeadBytes(b0: byte, b1: byte)
    requires b0 & 0x70 == 0
    ensures b0 == FirstByte(b0 & 0x80 != 0, b0 & 0x0f) && b1 == SecondByte(b1 & 0x80 != 0, b1 & 0x7f)
  {
  }

  lemma ShortestLength7(b: bytes)
    requires ShortestForm(b)
    ensures var n := PayloadLength(b, ReadHead(b[0], b[1]).length7); n < LOW_HALF && Length7(n) == b[1] & 0x7f
  {
    var length7 := ReadHead(b[0], b[1]).length7;
    if length7 == 127 {
      Big32Inverse(b[6..10]);
    }
    SameOctet(Length7(PayloadLength(b, length7)), b[1] & 0x7f);
  }

  lemma ShortestExtension(b: bytes)
    requires ShortestForm(b)
    ensures var length7 := ReadHead(b[0], b[1]).length7; var n := PayloadLength(b, length7);
      n < LOW_HALF && ExtendedLength(n) == b[2..HeaderLength(length7)]
  {
    var length7 := ReadHead(b[0], b[1]).length7;
    ShortestLength7(b);
    if length7 == 126 {
      NarrowExtension(b[2], b[3]);
    } else if length7 == 127 {
      WideExtension(b[2..6], b[6..10]);
    }
    ExtensionParts(b, length7);
  }

  lemma ExtensionParts(b: bytes, length7: nat)
    requires |b| >= HeaderLength(length7)
    ensures b[2..HeaderLength(length7)] ==
      if length7 == 126 then [b[2], b[3]] else if length7 == 127 then b[2..6] + b[6..10] else []
  {
  }

  lemma NarrowExtension(high: byte, low: byte)
    requires high as nat * 256 + low as nat > 125
    ensures ExtendedLength(high as nat * 256 + low as nat) == [high, low]
  {
    var _ := TwoOctets(high, low);
  }

  lemma WideExtension(high: bytes, low: bytes)
    requires |high| == 4 && |low| == 4 && Value32(high) == 0 && Value32(low) > 0xffff
    ensures Value32(low) < LOW_HALF && ExtendedLength(Value32(low)) == high + low
  {
    var n := Value32(low);
    Big32Inverse(low);
    Big32Inverse(high);
    LowHalfOfLow(n);
    assert n / LOW_HALF == 0;
  }

  lemma FourParts(b: bytes, i: nat, j: nat, k: nat, n: nat)
    requires i <= j <= k <= n <= |b|
    ensures b[..n] == b[..i] + b[i..j] + b[j..k] + b[k..n]
  {
  }

  /** The key that stands in the frame. */
  function KeyOf(b: bytes, h: Head): (key: Key)
    requires |b| >= PayloadStart(h)
    ensures ValidKey(key) && key.MaskKey? == h.mask
    ensures KeyBytes(key) == b[HeaderLength(h.length7)..PayloadStart(h)]
  {
    var start := PayloadStart(h);
    if h.mask then MaskKey(b[start - 4..start]) else Unmasked
  }

  /** A frame is put together again from its parts. */
  lemma PartsEncode(b: bytes, h: Head, key: Key, payload: bytes, n: nat)
    requires 2 <= HeaderLength(h.length7) <= PayloadStart(h) <= n <= |b| && |payload| < LONGEST
    requires ValidKey(key) && key.MaskKey? == h.mask
    requires b[0] == FirstByte(h.fin, h.opcode) && b[1] == SecondByte(h.mask, Length7(|payload|))
    requires ExtendedLength(|payload|) == b[2..HeaderLength(h.length7)]
    requires KeyBytes(key) == b[HeaderLength(h.length7)..PayloadStart(h)]
    requires OnWire(key, payload) == b[PayloadStart(h)..n]
    ensures b[..n] == EncodeFrame(h.fin, h.opcode, key, payload)
  {
    FourParts(b, 2, HeaderLength(h.length7), PayloadStart(h), n);
    assert b[..2] == [b[0], b[1]];
  }

  lemma ShortestIsEncoded(b: bytes)
    requires DecodeFrame(b).Ready? && ShortestForm(b)
    ensures Encodes(b[..DecodeFrame(b).consumed], DecodeFrame(b).frame)
  {
    var h, f, n := ReadHead(b[0], b[1]), DecodeFrame(b).frame, DecodeFrame(b).consumed;
    var key := KeyOf(b, h);
    HeadBytes(b[0], b[1]);
    ReadyPayloadLength(b);
    ShortestLength7(b);
    ShortestExtension(b);
    WireBack(key, b[PayloadStart(h)..n]);
    PartsEncode(b, h, key, f.payload, n);
  }

  lemma WireBack(key: Key, raw: bytes)
    requires ValidKey(key)
    ensures var payload := if key.MaskKey? then Masked(raw, key.key) else raw; OnWire(key, payload) == raw
  {
    if key.MaskKey? {
      MaskTwice(raw, key.key);
    }
  }

  /**
   Of the frames get_frame accepts, those whose length is in its shortest form are exactly those that the
   encoder of section 5.2 writes, under some mask key.
   */
  lemma ShortestExactly(b: bytes)
    requires DecodeFrame(b).Ready?
    ensures Encodes(b[..DecodeFrame(b).consumed], DecodeFrame(b).frame) <==> ShortestForm(b)
  {
    var f, e := DecodeFrame(b).frame, b[..DecodeFrame(b).consumed];
    if ShortestForm(b) {
      ShortestIsEncoded(b);
    }
    if Encodes(e, f) {
      var key :| ValidKey(key) && e == EncodeFrame(f.fin, f.opcode, key, f.payload);
      PayloadIsLow(b);
      EncodedIsShortest(f.fin, f.opcode, key, f.payload);
      FormIsLocal(b, e);
    }
  }

  lemma PayloadIsLow(b: bytes)
    requires DecodeFrame(b).Ready?
    ensures |DecodeFrame(b).frame.payload| < LOW_HALF
  {
    ReadyPayloadLength(b);
    if ReadHead(b[0], b[1]).length7 == 127 {
      Big32Inverse(b[6..10]);
    }
  }

  /** A text of one byte with its length in the 16-bit form is accepted, and no encoder writes it so. */
  lemma LongFormAccepted()
    ensures var b: bytes := [0x81, 126, 0, 1, 0x61];
      && DecodeFrame(b) == Ready(Frame(true, OPCODE_TEXT, false, [0x61]), 5)
      && !Encodes(b, Frame(true, OPCODE_TEXT, false, [0x61]))
  {
    var b: bytes := [0x81, 126, 0, 1, 0x61];
    assert b[4..5] == [0x61];
    ShortestExactly(b);
    assert b[..5] == b;
  }
}
