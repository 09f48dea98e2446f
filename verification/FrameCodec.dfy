/**
 WebSocket frames on the wire: get_frame of wsmessage.c as a function of the buffered bytes,
 the encoder of wsserver.c as it stands, and the encoder sections 5.2 and 5.3 of RFC 6455 ask for.
 */
module FrameCodec {
  import opened Bytes
  import opened Buffers

  const OPCODE_CONTINUATION: byte := 0x00
  const OPCODE_TEXT: byte := 0x01
  const OPCODE_BINARY: byte := 0x02
  const OPCODE_CLOSE: byte := 0x08
  const OPCODE_PING: byte := 0x09
  const OPCODE_PONG: byte := 0x0a

  /** A decoded frame; its payload is already unmasked. */
  datatype Frame = Frame(fin: bool, opcode: byte, mask: bool, payload: bytes)

  /** FS_BUILDING, FS_ERROR, or FS_READY with the frame and the bytes it took from the buffer. */
  datatype Decoding = Building | Error | Ready(frame: Frame, consumed: nat)

  /** The fields of the first two bytes. */
  datatype Head = Head(rsv: bool, fin: bool, opcode: byte, mask: bool, length7: nat)

  function ReadHead(b0: byte, b1: byte): Head {
    Head(b0 & 0x70 != 0, b0 & 0x80 != 0, b0 & 0x0f, b1 & 0x80 != 0, (b1 & 0x7f) as nat)
  }

  /** Bytes before the mask key: two, four or ten. */
  function HeaderLength(length7: nat): nat {
    if length7 == 126 then 4 else if length7 == 127 then 10 else 2
  }

  /** The payload length; of the 64-bit form only the low four bytes are read. */
  function PayloadLength(b: bytes, length7: nat): nat
    requires |b| >= HeaderLength(length7)
  {
    if length7 == 126 then b[2] as nat * 256 + b[3] as nat
    else if length7 == 127 then Value32(b[6..10])
    else length7
  }

  function PayloadStart(h: Head): nat {
    HeaderLength(h.length7) + if h.mask then 4 else 0
  }

  /** The frame at the front of `b`, whose first two bytes are already read. */
  function DecodeBody(b: bytes, h: Head): (d: Decoding)
    ensures d.Ready? ==> 2 <= d.consumed <= |b|
  {
    if h.rsv then Error
    else if |b| < HeaderLength(h.length7) then Building
    else
      var start := PayloadStart(h);
      var end := start + PayloadLength(b, h.length7);
      if end > |b| then Building
      else
        var raw := b[start..end];
        var payload := if h.mask then Masked(raw, b[start - 4..start]) else raw;
        Ready(Frame(h.fin, h.opcode, h.mask, payload), end)
  }

  /** get_frame: the frame at the front of `b`, if it has arrived. */
  function DecodeFrame(b: bytes): (d: Decoding)
    ensures d.Ready? ==> 2 <= d.consumed <= |b|
  {
    if |b| < 2 then Building else DecodeBody(b, ReadHead(b[0], b[1]))
  }

  // ---- Stability under arrival ----

  lemma LengthIsLocal(b: bytes, c: bytes, length7: nat)
    requires HeaderLength(length7) <= |b| && b <= c
    ensures PayloadLength(b, length7) == PayloadLength(c, length7)
  {
    if length7 == 127 {
      assert b[6..10] == c[6..10];
    }
  }

  /** Beyond the last byte of a frame nothing matters. */
  lemma BodyIsLocal(b: bytes, c: bytes, h: Head)
    requires b <= c && (h.rsv || (DecodeBody(c, h).Ready? && DecodeBody(c, h).consumed <= |b|))
    ensures DecodeBody(b, h) == DecodeBody(c, h)
  {
    if !h.rsv {
      LengthIsLocal(b, c, h.length7);
      var start, end := PayloadStart(h), DecodeBody(c, h).consumed;
      SliceOfPrefix(b, c, start, end);
      if h.mask {
        SliceOfPrefix(b, c, start - 4, start);
      }
    }
  }

  lemma SliceOfPrefix(b: bytes, c: bytes, i: nat, j: nat)
    requires b <= c && i <= j <= |b|
    ensures b[i..j] == c[i..j]
  {
  }

  /** Bytes that arrive later never change a verdict already reached. */
  lemma VerdictStable(b: bytes, x: bytes)
    requires !DecodeFrame(b).Building?
    ensures DecodeFrame(b + x) == DecodeFrame(b)
  {
    var h := ReadHead(b[0], b[1]);
    BodyExtends(b, b + x, h);
  }

  lemma BodyExtends(b: bytes, c: bytes, h: Head)
    requires b <= c && !DecodeBody(b, h).Building?
    ensures DecodeBody(b, h) == DecodeBody(c, h)
  {
    if !h.rsv {
      LengthIsLocal(b, c, h.length7);
      BodyIsLocal(b, c, h);
    }
  }

  /**
   A frame is building on every proper prefix of itself, and ready on itself alone: of what has
   arrived, exactly its own bytes decide.
   */
  lemma ReadyExactly(b: bytes, k: nat)
    requires DecodeFrame(b).Ready? && k <= |b|
    ensures DecodeFrame(b[..k]) == if k < DecodeFrame(b).consumed then Building else DecodeFrame(b)
  {
    if k >= 2 {
      var h := ReadHead(b[0], b[1]);
      assert b[..k][0] == b[0] && b[..k][1] == b[1];
      if DecodeFrame(b).consumed <= k {
        BodyIsLocal(b[..k], b, h);
      } else if k >= HeaderLength(h.length7) {
        LengthIsLocal(b[..k], b, h.length7);
      }
    }
  }

  // ---- Encoders ----

  function FirstByte(fin: bool, opcode: byte): byte {
    (if fin then 0x80 else 0) | (opcode & 0x0f)
  }

  function SecondByte(mask: bool, length7: byte): byte
    requires length7 < 128
  {
    (if mask then 0x80 else 0) | length7
  }

  lemma HeadRoundTrip(fin: bool, opcode: byte, mask: bool, length7: byte)
    requires length7 < 128
    ensures ReadHead(FirstByte(fin, opcode), SecondByte(mask, length7))
         == Head(false, fin, opcode & 0x0f, mask, length7 as nat)
  {
  }

  /** The seven-bit length that announces a payload of n bytes. */
  function Length7(n: nat): (b: byte)
    ensures b < 128 && b as nat == if n <= 125 then n else if n < 0x1_0000 then 126 else 127
  {
    if n <= 125 then SmallOctet(n); Octet(n) else if n < 0x1_0000 then 126 else 127
  }

  lemma SmallOctet(n: nat)
    requires n <= 125
    ensures Octet(n) < 128
  {
  }

  const LOW_HALF: nat := 0x1_0000_0000
  const LONGEST: nat := 0x8000_0000_0000_0000

  /** The extended length of section 5.2 of RFC 6455; the top bit of the 64-bit form is clear. */
  function ExtendedLength(n: nat): bytes
    requires n < LONGEST
  {
    if n <= 125 then [] else if n < 0x1_0000 then Big16(n)
    else Big32(n / LOW_HALF) + Big32(n % LOW_HALF)
  }

  datatype Key = Unmasked | MaskKey(key: bytes)

  predicate ValidKey(key: Key) { key.MaskKey? ==> |key.key| == 4 }

  function KeyBytes(key: Key): bytes { if key.MaskKey? then key.key else [] }

  function OnWire(key: Key, payload: bytes): (r: bytes)
    requires ValidKey(key)
    ensures |r| == |payload|
  {
    if key.MaskKey? then Masked(payload, key.key) else payload
  }

  /** Sections 5.2 and 5.3 of RFC 6455. */
  function EncodeFrame(fin: bool, opcode: byte, key: Key, payload: bytes): bytes
    requires ValidKey(key) && |payload| < LONGEST
  {
    [FirstByte(fin, opcode), SecondByte(key.MaskKey?, Length7(|payload|))] + ExtendedLength(|payload|)
    + KeyBytes(key) + OnWire(key, payload)
  }

  /** Of the length the RFC puts on the wire get_frame reads back the low four bytes. */
  lemma LengthRoundTrip(two: bytes, n: nat, x: bytes)
    requires n < LONGEST && |two| == 2
    ensures HeaderLength(Length7(n) as nat) == |two + ExtendedLength(n)|
    ensures PayloadLength(two + ExtendedLength(n) + x, Length7(n) as nat) == n % LOW_HALF
  {
    if 125 < n < 0x1_0000 {
      NarrowLength(two, n, x);
    } else if n > 125 {
      WideLength(two, Big32(n / LOW_HALF), Big32(n % LOW_HALF), x);
    }
  }

  lemma NarrowLength(two: bytes, n: nat, x: bytes)
    requires |two| == 2 && n < 0x1_0000
    ensures PayloadLength(two + Big16(n) + x, 126) == n
  {
    Middle(two, Big16(n), x);
  }

  lemma WideLength(two: bytes, high: bytes, low: bytes, x: bytes)
    requires |two| == 2 && |high| == 4 && |low| == 4
    ensures PayloadLength(two + (high + low) + x, 127) == Value32(low)
  {
    assert two + (high + low) + x == (two + high) + low + x;
    Middle(two + high, low, x);
  }

  /**
   The exact range of get_frame: a frame encoded as the RFC says, masked or not, whatever follows
   it, decodes to the same frame and leaves exactly what follows, if and only if its length fits in
   the four bytes that are read of it.
   */
  lemma EncodeDecode(fin: bool, opcode: byte, key: Key, payload: bytes, x: bytes)
    requires ValidKey(key) && |payload| < LONGEST
    ensures var e := EncodeFrame(fin, opcode, key, payload);
      && (e + x)[|e|..] == x
      && (DecodeFrame(e + x) == Ready(Frame(fin, opcode & 0x0f, key.MaskKey?, payload), |e|)
          <==> |payload| < LOW_HALF)
  {
    var e := EncodeFrame(fin, opcode, key, payload);
    Halves(e, x);
    if |payload| < LOW_HALF {
      ShortFrameDecodes(fin, opcode, key, payload, x);
    } else {
      LongFrameMisread(fin, opcode, key, payload, x);
    }
  }

  /** The header in front of anything reads back as the frame's fields and the low half of its length. */
  lemma HeaderRead(fin: bool, opcode: byte, mask: bool, n: nat, behind: bytes)
    requires n < LONGEST
    ensures var length7 := Length7(n) as nat;
      var header := [FirstByte(fin, opcode), SecondByte(mask, Length7(n))] + ExtendedLength(n);
      var b := header + behind;
      && DecodeFrame(b) == DecodeBody(b, Head(false, fin, opcode & 0x0f, mask, length7))
      && ReadHead(b[0], b[1]).length7 == length7
      && |header| == HeaderLength(length7) && PayloadLength(b, length7) == n % LOW_HALF
  {
    HeadRoundTrip(fin, opcode, mask, Length7(n));
    LengthRoundTrip([FirstByte(fin, opcode), SecondByte(mask, Length7(n))], n, behind);
  }

  lemma LongFrameMisread(fin: bool, opcode: byte, key: Key, payload: bytes, x: bytes)
    requires ValidKey(key) && LOW_HALF <= |payload| < LONGEST
    ensures var d := DecodeFrame(EncodeFrame(fin, opcode, key, payload) + x);
      d.Ready? ==> |d.frame.payload| == |payload| % LOW_HALF < |payload|
  {
    var n, mask := |payload|, key.MaskKey?;
    var header := [FirstByte(fin, opcode), SecondByte(mask, Length7(n))] + ExtendedLength(n);
    var behind := KeyBytes(key) + OnWire(key, payload) + x;
    HeaderRead(fin, opcode, mask, n, behind);
    Assoc4(header, KeyBytes(key), OnWire(key, payload), x);
    ReadyPayloadLength(header + behind);
  }

  /** A header that announces 2^32 bytes is read as an empty frame. */
  lemma LongLengthReadAsZero()
    ensures var header: bytes := [0x81, 127, 0, 0, 0, 1, 0, 0, 0, 0];
      && Value32(header[2..6]) * LOW_HALF + Value32(header[6..10]) == LOW_HALF
      && DecodeFrame(header) == Ready(Frame(true, OPCODE_TEXT, false, []), 10)
  {
    var header: bytes := [0x81, 127, 0, 0, 0, 1, 0, 0, 0, 0];
    assert header[2..6] == [0, 0, 0, 1];
    ZeroLength(header);
  }

  lemma LowHalfOfLow(n: nat)
    requires n < LOW_HALF
    ensures n % LOW_HALF == n
  {
  }

  lemma ZeroLength(header: bytes)
    requires |header| == 10 && header[0] == 0x81 && header[1] == 127 && header[6..] == [0, 0, 0, 0]
    ensures DecodeFrame(header) == Ready(Frame(true, OPCODE_TEXT, false, []), 10)
  {
    assert header[6..10] == header[6..];
    assert header[10..10] == [];
  }

  lemma ShortFrameDecodes(fin: bool, opcode: byte, key: Key, payload: bytes, x: bytes)
    requires ValidKey(key) && |payload| < LOW_HALF
    ensures var e := EncodeFrame(fin, opcode, key, payload);
      DecodeFrame(e + x) == Ready(Frame(fin, opcode & 0x0f, key.MaskKey?, payload), |e|)
  {
    var n, mask, wire := |payload|, key.MaskKey?, OnWire(key, payload);
    var length7 := Length7(n) as nat;
    var header := [FirstByte(fin, opcode), SecondByte(mask, Length7(n))] + ExtendedLength(n);
    HeaderRead(fin, opcode, mask, n, KeyBytes(key) + wire + x);
    Assoc4(header, KeyBytes(key), wire, x);
    LowHalfOfLow(n);
    assert PayloadLength(header + KeyBytes(key) + wire + x, length7) == n;
    BodyOf(Head(false, fin, opcode & 0x0f, mask, length7), header, key, payload, x);
  }

  lemma BodyOf(h: Head, header: bytes, key: Key, payload: bytes, x: bytes)
    requires ValidKey(key) && !h.rsv && h.mask == key.MaskKey? && |header| == HeaderLength(h.length7)
    requires PayloadLength(header + KeyBytes(key) + OnWire(key, payload) + x, h.length7) == |payload|
    ensures DecodeBody(header + KeyBytes(key) + OnWire(key, payload) + x, h)
         == Ready(Frame(h.fin, h.opcode, h.mask, payload), |header + KeyBytes(key) + OnWire(key, payload)|)
  {
    BodyDecodes(h, header, KeyBytes(key), OnWire(key, payload), x);
    OffWire(key, payload);
  }

  lemma OffWire(key: Key, payload: bytes)
    requires ValidKey(key)
    ensures (if key.MaskKey? then Masked(OnWire(key, payload), KeyBytes(key)) else OnWire(key, payload)) == payload
  {
    if key.MaskKey? {
      MaskTwice(payload, key.key);
    }
  }

  /** A header, a key if the mask bit is set, and as many payload bytes as announced make a frame. */
  lemma BodyDecodes(h: Head, header: bytes, key: bytes, wire: bytes, x: bytes)
    requires !h.rsv && |header| == HeaderLength(h.length7) && |key| == if h.mask then 4 else 0
    requires var b := header + key + wire + x; PayloadLength(b, h.length7) == |wire|
    ensures DecodeBody(header + key + wire + x, h)
         == Ready(Frame(h.fin, h.opcode, h.mask, if h.mask then Masked(wire, key) else wire), |header + key + wire|)
  {
    var b, start := header + key + wire + x, PayloadStart(h);
    Middle(header + key, wire, x);
    assert b == header + key + (wire + x) by { Assoc(header + key, wire, x); }
    Middle(header, key, wire + x);
  }

  // ---- wsconn_write_frame ----

  /**
   The length bytes of wsconn_write_frame as written: the 16-bit form serves every size below
   (2 << 16) - 1 and keeps only 16 bits of it, and the 64-bit form passes the size through htons,
   whose 16-bit result a little-endian host then stores as a 32-bit number.
   */
  function WrittenExtendedLength(n: nat): bytes {
    if n <= 125 then []
    else if n < (2 * 0x1_0000) - 1 then Big16(n % 0x1_0000)
    else [0, 0, 0, 0] + (Big16(n % 0x1_0000) + [0, 0])
  }

  function WrittenLength7(n: nat): byte {
    if n <= 125 then Octet(n) else if n < (2 * 0x1_0000) - 1 then 126 else 127
  }

  /** Every byte wsconn_write_frame adds to the output for one frame. */
  function WriteFrame(opcode: byte, payload: bytes): bytes {
    [0x80 + (0x0f & opcode), WrittenLength7(|payload|)] + WrittenExtendedLength(|payload|) + payload
  }

  /** The frame wsconn_write_frame means to send. */
  function Intended(opcode: byte, payload: bytes): Frame {
    Frame(true, opcode & 0x0f, false, payload)
  }

  lemma WrittenFirstByte(opcode: byte)
    ensures 0x80 + (0x0f & opcode) == FirstByte(true, opcode)
  {
  }

  lemma UnmaskedSecondByte(length7: byte)
    requires length7 < 128
    ensures SecondByte(false, length7) == length7
  {
  }

  /** Up to 65535 bytes the encoder as written is the encoder of the RFC. */
  lemma WriteFrameConforms(opcode: byte, payload: bytes)
    requires |payload| <= 0xffff
    ensures WriteFrame(opcode, payload) == EncodeFrame(true, opcode, Unmasked, payload)
  {
    WrittenFirstByte(opcode);
    UnmaskedSecondByte(Length7(|payload|));
    WrittenLengthConforms(|payload|);
    var header := [FirstByte(true, opcode), Length7(|payload|)] + ExtendedLength(|payload|);
    assert header + [] == header;
  }

  lemma WrittenLengthConforms(n: nat)
    requires n <= 0xffff
    ensures WrittenExtendedLength(n) == ExtendedLength(n) && WrittenLength7(n) == Length7(n)
  {
    assert n % 0x1_0000 == n;
  }

  /** The length get_frame reads from an oversized frame of wsconn_write_frame. */
  function MisreadLength(n: nat): nat
    requires n > 0xffff
  {
    if n < 0x1_ffff then n - 0x1_0000 else n % 0x1_0000 * 0x1_0000
  }

  lemma WrittenLengthRead(opcode: byte, payload: bytes, x: bytes)
    requires |payload| > 0xffff
    ensures var b := WriteFrame(opcode, payload) + x; var length7 := if |payload| < 0x1_ffff then 126 else 127;
      && ReadHead(b[0], b[1]) == Head(false, true, opcode & 0x0f, false, length7)
      && |b| >= HeaderLength(length7)
      && PayloadLength(b, length7) == MisreadLength(|payload|)
  {
    var n := |payload|;
    var first, length7 := 0x80 + (0x0f & opcode), WrittenLength7(n);
    WrittenFirstByte(opcode);
    HeadRoundTrip(true, opcode, false, length7);
    UnmaskedSecondByte(length7);
    Assoc([first, length7] + WrittenExtendedLength(n), payload, x);
    MisreadRead([first, length7], n, payload + x);
  }

  lemma MisreadRead(two: bytes, n: nat, tail: bytes)
    requires n > 0xffff && |two| == 2
    ensures var b := two + WrittenExtendedLength(n) + tail; var length7 := if n < 0x1_ffff then 126 else 127;
      |b| >= HeaderLength(length7) && PayloadLength(b, length7) == MisreadLength(n)
  {
    var low := n % 0x1_0000;
    if n < 0x1_ffff {
      assert low == n - 0x1_0000;
      NarrowLength(two, low, tail);
    } else {
      WideLength(two, [0, 0, 0, 0], Big16(low) + [0, 0], tail);
      ShiftedLength(low);
    }
  }

  lemma ShiftedLength(low: nat)
    requires low < 0x1_0000
    ensures Value32(Big16(low) + [0, 0]) == low * 0x1_0000
  {
  }

  /** An oversized length is never read back as itself. */
  lemma MisreadDiffers(n: nat)
    requires n > 0xffff
    ensures MisreadLength(n) != n
  {
  }

  /**
   The exact range of the round trip: whatever bytes follow, get_frame recovers the frame that
   wsconn_write_frame meant to send, and leaves what follows, if and only if the payload has at
   most 65535 bytes.
   */
  lemma WriteFrameRoundTrip(opcode: byte, payload: bytes, x: bytes)
    ensures DecodeFrame(WriteFrame(opcode, payload) + x)
         == Ready(Intended(opcode, payload), |WriteFrame(opcode, payload)|)
      <==> |payload| <= 0xffff
  {
    if |payload| <= 0xffff {
      WriteFrameConforms(opcode, payload);
      EncodeDecode(true, opcode, Unmasked, payload, x);
    } else {
      WrittenLengthRead(opcode, payload, x);
      MisreadDiffers(|payload|);
      ReadyPayloadLength(WriteFrame(opcode, payload) + x);
    }
  }

  lemma ReadyPayloadLength(b: bytes)
    requires |b| >= 2
    ensures var length7 := ReadHead(b[0], b[1]).length7;
      DecodeFrame(b).Ready? ==>
        |b| >= HeaderLength(length7) && |DecodeFrame(b).frame.payload| == PayloadLength(b, length7)
  {
  }

  /** A stanza of 65536 bytes, which cm_readcb lets through, is announced with length zero. */
  lemma WriteFrameFailsAt65536(payload: bytes)
    requires |payload| == 0x1_0000
    ensures DecodeFrame(WriteFrame(OPCODE_TEXT, payload)) == Ready(Frame(true, OPCODE_TEXT, false, []), 4)
  {
    var b := WriteFrame(OPCODE_TEXT, payload);
    assert b + [] == b;
    WrittenLengthRead(OPCODE_TEXT, payload, []);
    OpcodeNibble(OPCODE_TEXT);
    assert b[4..4] == [];
  }

  lemma OpcodeNibble(opcode: byte)
    requires opcode < 16
    ensures opcode & 0x0f == opcode
  {
  }

  // ---- Streams of frames ----

  /** A frame together with the way its sender chose to mask it; its length is one get_frame can read. */
  datatype Sent = Sent(fin: bool, opcode: byte, key: Key, payload: bytes)

  predicate Sendable(s: Sent) {
    ValidKey(s.key) && s.opcode < 16 && |s.payload| < LOW_HALF
  }

  predicate AllSendable(list: seq<Sent>) {
    forall i :: 0 <= i < |list| ==> Sendable(list[i])
  }

  function FrameOf(s: Sent): Frame { Frame(s.fin, s.opcode, s.key.MaskKey?, s.payload) }

  function FramesOf(list: seq<Sent>): (r: seq<Frame>)
    ensures |r| == |list| && forall i :: 0 <= i < |r| ==> r[i] == FrameOf(list[i])
  {
    if list == [] then [] else [FrameOf(list[0])] + FramesOf(list[1..])
  }

  function Encoded(s: Sent): bytes
    requires Sendable(s)
  {
    EncodeFrame(s.fin, s.opcode, s.key, s.payload)
  }

  function Stream(list: seq<Sent>): bytes
    requires AllSendable(list)
  {
    if list == [] then []
    else Encoded(list[0]) + Stream(list[1..])
  }

  /** All the frames at the front of `b`, what is left behind them, and whether it is beyond repair. */
  datatype Parsing = Parsing(frames: seq<Frame>, rest: bytes, broken: bool)

  function ParseAll(b: bytes): (p: Parsing)
    ensures |p.rest| + 2 * |p.frames| <= |b|
    decreases |b|
  {
    match DecodeFrame(b)
    case Building => Parsing([], b, false)
    case Error => Parsing([], b, true)
    case Ready(frame, n) =>
      var p := ParseAll(b[n..]);
      p.(frames := [frame] + p.frames)
  }

  lemma ParseEncoded(s: Sent, x: bytes)
    requires Sendable(s)
    ensures ParseAll(Encoded(s) + x) == ParseAll(x).(frames := [FrameOf(s)] + ParseAll(x).frames)
  {
    EncodeDecode(s.fin, s.opcode, s.key, s.payload, x);
    OpcodeNibble(s.opcode);
  }

  /** Parsing a stream of encoded frames gives the frames back, in order, and then what follows. */
  lemma {:induction false} ParseStream(list: seq<Sent>, x: bytes)
    requires AllSendable(list)
    ensures var p := ParseAll(x);
      ParseAll(Stream(list) + x) == p.(frames := FramesOf(list) + p.frames)
  {
    if list == [] {
      assert Stream(list) + x == x;
      assert FramesOf(list) + ParseAll(x).frames == ParseAll(x).frames;
    } else {
      var s, rest := list[0], Stream(list[1..]) + x;
      Assoc(Encoded(s), Stream(list[1..]), x);
      ParseEncoded(s, rest);
      ParseStream(list[1..], x);
      Assoc([FrameOf(s)], FramesOf(list[1..]), ParseAll(x).frames);
    }
  }
}
