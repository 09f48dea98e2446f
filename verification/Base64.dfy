/**
 The Base64 codec of base64.c: loops that append to a bounded string, overwrite the padding in
 place and decode through a table, against the encoding of section 4 of RFC 4648.
 */
module Base64 {
  import opened Bytes

  const PAD := '='

  /** str_t: a C string in a fixed block. */
  class Str {
    const buffer: array<char>
    var length: nat

    ghost predicate Valid()
      reads this, buffer
    {
      length < buffer.Length && buffer[length] == '\0'
    }

    ghost function Contents(): string
      requires Valid()
      reads this, buffer
    {
      buffer[..length]
    }

    constructor (buffer: array<char>)
      requires buffer.Length > 0
      modifies buffer
      ensures Valid() && this.buffer == buffer && Contents() == ""
    {
      this.buffer := buffer;
      length := 0;
      new;
      buffer[0] := '\0';
    }

    method Clear()
      requires Valid()
      modifies this`length, buffer
      ensures Valid() && Contents() == ""
    {
      buffer[0] := '\0';
      length := 0;
    }

    /** str_append_char; a full string stays as it is. */
    method AppendChar(ch: char)
      requires Valid()
      modifies this`length, buffer
      ensures Valid()
      ensures Contents() == if old(length) + 1 == buffer.Length then old(Contents()) else old(Contents()) + [ch]
    {
      if length + 1 == buffer.Length {
        return;
      }
      buffer[length] := ch;
      buffer[length + 1] := '\0';
      length := length + 1;
    }
  }

  // ---- Section 4 of RFC 4648 ----

  type octet = n: nat | n < 256
  type sextet = n: nat | n < 64

  predicate IsDigit(c: char) {
    'A' <= c <= 'Z' || 'a' <= c <= 'z' || '0' <= c <= '9' || c == '+' || c == '/'
  }

  predicate AllDigits(s: string) {
    forall i :: 0 <= i < |s| ==> IsDigit(s[i])
  }

  /** encoding_table: A to Z, a to z, 0 to 9, plus, slash. */
  function Digit(v: sextet): (c: char)
    ensures IsDigit(c)
  {
    if v < 26 then ('A' as int + v) as char
    else if v < 52 then ('a' as int + (v - 26)) as char
    else if v < 62 then ('0' as int + (v - 52)) as char
    else if v == 62 then '+'
    else '/'
  }

  /** The value of a digit. */
  function Value(c: char): (v: sextet)
    requires IsDigit(c)
    ensures Digit(v) == c
  {
    if 'A' <= c <= 'Z' then c as int - 'A' as int
    else if 'a' <= c <= 'z' then c as int - 'a' as int + 26
    else if '0' <= c <= '9' then c as int - '0' as int + 52
    else if c == '+' then 62
    else 63
  }

  /** The digits in their order. */
  const ALPHABET := "ABCDEFGHIJKLMNOPQRSTUVWXYZ" + "abcdefghijklmnopqrstuvwxyz" + "0123456789+/"

  lemma UpperIs(v: sextet)
    ensures v < 26 ==> Digit(v) == "ABCDEFGHIJKLMNOPQRSTUVWXYZ"[v]
  {
  }

  lemma LowerIs(v: sextet)
    ensures 26 <= v < 52 ==> Digit(v) == "abcdefghijklmnopqrstuvwxyz"[v - 26]
  {
  }

  lemma NumberIs(v: sextet)
    ensures 52 <= v ==> Digit(v) == "0123456789+/"[v - 52]
  {
  }

  lemma ThreeParts(a: string, b: string, c: string, v: nat)
    requires v < |a| + |b| + |c|
    ensures (a + b + c)[v]
      == if v < |a| then a[v] else if v < |a| + |b| then b[v - |a|] else c[v - |a| - |b|]
  {
  }

  lemma DigitIs(v: sextet)
    ensures |ALPHABET| == 64 && Digit(v) == ALPHABET[v]
  {
    UpperIs(v);
    LowerIs(v);
    NumberIs(v);
    ThreeParts("ABCDEFGHIJKLMNOPQRSTUVWXYZ", "abcdefghijklmnopqrstuvwxyz", "0123456789+/", v);
  }

  lemma DigitOnce(v: sextet)
    ensures Value(Digit(v)) == v && Digit(v) != PAD
  {
  }

  /** The four digits of three octets: six bits each, from the top. */
  function Digits(a: octet, b: octet, c: octet): (s: string)
    ensures |s| == 4 && AllDigits(s)
  {
    [Digit(a / 4), Digit(a % 4 * 16 + b / 16), Digit(b % 16 * 4 + c / 64), Digit(c % 64)]
  }

  /** The 24-bit number both loops work with. */
  function Triple(a: octet, b: octet, c: octet): nat {
    a * 0x1_0000 + b * 0x100 + c
  }

  function Joined(a: int, b: int, c: int, d: int): int {
    a * 0x4_0000 + b * 0x1000 + c * 0x40 + d
  }

  /** Shifting a joined triple right and masking six bits gives each value back. */
  lemma SextetShifts(a: sextet, b: sextet, c: sextet, d: sextet)
    ensures var t := Joined(a, b, c, d);
      t / 0x4_0000 % 64 == a && t / 0x1000 % 64 == b && t / 0x40 % 64 == c && t % 64 == d
  {
    var t := Joined(a, b, c, d);
    var high: nat, middle: nat := a * 0x40 + b, a * 0x1000 + b * 0x40 + c;
    assert t == 0x40 * middle + d && middle == 0x40 * high + c;
    Shift12(t, high, c * 0x40 + d);
    Shift18(t, a, b * 0x1000 + c * 0x40 + d);
    Shift6(t, middle, d);
    Shift6(middle, high, c);
    Shift6(high, a, b);
  }

  lemma Shift6(t: nat, quotient: nat, rest: nat)
    requires t == 0x40 * quotient + rest && rest < 0x40
    ensures t / 0x40 == quotient && t % 0x40 == rest
  {
  }

  lemma Shift12(t: nat, quotient: nat, rest: nat)
    requires t == 0x1000 * quotient + rest && rest < 0x1000
    ensures t / 0x1000 == quotient
  {
  }

  lemma Shift18(t: nat, quotient: nat, rest: nat)
    requires t == 0x4_0000 * quotient + rest && rest < 0x4_0000
    ensures t / 0x4_0000 == quotient
  {
  }

  /** The triple of three octets is the joined triple of their digits' values. */
  lemma TripleIsJoined(a: octet, b: octet, c: octet)
    ensures Triple(a, b, c) == Joined(a / 4, a % 4 * 16 + b / 16, b % 16 * 4 + c / 64, c % 64)
  {
  }

  /** Shifting the triple and masking six bits gives those digits. */
  lemma TripleDigits(a: octet, b: octet, c: octet)
    ensures var t := Triple(a, b, c);
      Digits(a, b, c) == [Digit(t / 0x4_0000 % 64), Digit(t / 0x1000 % 64), Digit(t / 0x40 % 64), Digit(t % 64)]
  {
    TripleIsJoined(a, b, c);
    SextetShifts(a / 4, a % 4 * 16 + b / 16, b % 16 * 4 + c / 64, c % 64);
  }

  const OnePad := [PAD]
  const TwoPads := [PAD, PAD]

  /** Whole groups first; one or two octets at the end are padded. */
  function Encoded(data: seq<octet>): string {
    if data == [] then ""
    else if |data| == 1 then Digits(data[0], 0, 0)[..2] + TwoPads
    else if |data| == 2 then Digits(data[0], data[1], 0)[..3] + OnePad
    else Digits(data[0], data[1], data[2]) + Encoded(data[3..])
  }

  /** Two pads after one octet, one after two, none after three (mod_table). */
  function PadCount(n: nat): (k: nat)
    ensures k <= 2
  {
    if n % 3 == 0 then 0 else 3 - n % 3
  }

  function Pads(n: nat): (s: string)
    requires n <= 2
    ensures |s| == n
  {
    if n == 0 then "" else if n == 1 then OnePad else TwoPads
  }

  /** A third of the octets, rounded up. */
  function GroupCount(n: nat): nat { (n + 2) / 3 }

  lemma OneGroupMore(n: nat)
    ensures PadCount(n + 3) == PadCount(n) && GroupCount(n + 3) == GroupCount(n) + 1
  {
  }

  // ---- The encoder ----

  /** What the loop appends: every group in full, missing octets read as zero. */
  function Unpadded(data: seq<octet>): string {
    if data == [] then ""
    else if |data| == 1 then Digits(data[0], 0, 0)
    else if |data| == 2 then Digits(data[0], data[1], 0)
    else Digits(data[0], data[1], data[2]) + Unpadded(data[3..])
  }

  lemma {:induction false} UnpaddedDigits(data: seq<octet>)
    ensures |Unpadded(data)| == 4 * GroupCount(|data|) && AllDigits(Unpadded(data))
    decreases |data|
  {
    if |data| >= 3 {
      UnpaddedDigits(data[3..]);
      OneGroupMore(|data| - 3);
    }
  }

  /** Overwriting the last digits of the whole groups gives the padded encoding. */
  lemma {:induction false} PaddingOverwrites(data: seq<octet>)
    ensures var s := Unpadded(data); var n := |s| - PadCount(|data|);
      n >= 0 && Encoded(data) == s[..n] + Pads(PadCount(|data|))
    decreases |data|
  {
    if |data| >= 3 {
      PaddingOverwrites(data[3..]);
      OneGroupMore(|data| - 3);
      TailCons(Digits(data[0], data[1], data[2]), Unpadded(data[3..]), PadCount(|data|));
    }
  }

  /** The length and shape of an encoding: digits, and '=' only as the padding at the end. */
  lemma EncodedShape(data: seq<octet>)
    ensures var s := Encoded(data); var n := |s| - PadCount(|data|);
      && |s| == 4 * GroupCount(|data|)
      && n >= 0 && AllDigits(s[..n]) && s[n..] == Pads(PadCount(|data|))
  {
    var s, k := Unpadded(data), PadCount(|data|);
    UnpaddedDigits(data);
    PaddingOverwrites(data);
    Halves(s[..|s| - k], Pads(k));
  }

  lemma TailCons(head: string, rest: string, k: nat)
    requires k <= |rest| && k <= 2
    ensures var s := head + rest; s[..|s| - k] + Pads(k) == head + (rest[..|rest| - k] + Pads(k))
  {
    assert (head + rest)[..|head| + |rest| - k] == head + rest[..|rest| - k];
    Assoc(head, rest[..|rest| - k], Pads(k));
  }

  /** The string after appending `s`, as far as it fits. */
  function Appended(capacity: nat, held: string, s: string): string
    requires |held| < capacity
  {
    if |held + s| < capacity then held + s else (held + s)[..capacity - 1]
  }

  lemma AppendedTwice(capacity: nat, held: string, a: string, b: string)
    requires |held| < capacity
    ensures Appended(capacity, Appended(capacity, held, a), b) == Appended(capacity, held, a + b)
  {
    Assoc(held, a, b);
    if |held + a| >= capacity {
      var cut := (held + a)[..capacity - 1];
      assert (cut + b)[..capacity - 1] == cut == (held + a + b)[..capacity - 1];
    }
  }

  method DigitsOfTriple(a: octet, b: octet, c: octet) returns (s: string)
    ensures s == Digits(a, b, c)
  {
    var triple := Triple(a, b, c);
    s := [Digit(triple / 0x4_0000 % 64), Digit(triple / 0x1000 % 64), Digit(triple / 0x40 % 64), Digit(triple % 64)];
    TripleDigits(a, b, c);
  }

  method AppendDigits(out: Str, a: octet, b: octet, c: octet)
    requires out.Valid()
    modifies out`length, out.buffer
    ensures out.Valid() && out.Contents() == Appended(out.buffer.Length, old(out.Contents()), Digits(a, b, c))
  {
    ghost var held, capacity := out.Contents(), out.buffer.Length;
    var s := DigitsOfTriple(a, b, c);
    var k := 0;
    while k < 4
      invariant 0 <= k <= 4 && out.Valid()
      invariant out.Contents() == Appended(capacity, held, s[..k])
    {
      AppendedTwice(capacity, held, s[..k], [s[k]]);
      assert s[..k] + [s[k]] == s[..k + 1];
      out.AppendChar(s[k]);
      k := k + 1;
    }
    assert s[..4] == s;
  }

  /** base64_encode, into a string of any size that the padding can be overwritten in. */
  method Encode(data: seq<octet>, out: Str)
    requires out.Valid() && out.buffer.Length > 2
    modifies out`length, out.buffer
    ensures out.Valid()
    ensures out.buffer.Length > 4 * GroupCount(|data|) ==> out.Contents() == Encoded(data)
    ensures out.buffer.Length <= 4 * GroupCount(|data|) ==> out.length == out.buffer.Length - 1
  {
    out.Clear();
    var n := |data|;
    var j := PadCount(n);
    var i := 0;
    ghost var capacity := out.buffer.Length;
    ghost var done := "";
    while i < n
      invariant 0 <= i <= n && out.Valid()
      invariant out.Contents() == Appended(capacity, "", done)
      invariant done + Unpadded(data[i..]) == Unpadded(data)
    {
      ghost var at := i;
      var a, b, c: octet := data[i], 0, 0;
      i := i + 1;
      if i < n {
        b := data[i];
        i := i + 1;
      }
      if i < n {
        c := data[i];
        i := i + 1;
      }
      ghost var digits := Digits(a, b, c);
      ghost var rest := data[at..];
      assert Unpadded(rest) == digits + Unpadded(data[i..]);
      Assoc(done, digits, Unpadded(data[i..]));
      AppendedTwice(capacity, "", done, digits);
      AppendDigits(out, a, b, c);
      done := done + digits;
    }
    assert done == Unpadded(data);
    PaddingOverwrites(data);
    UnpaddedDigits(data);
    OverwritePadding(out, j);
  }

  // The last lines of base64_encode.
  method OverwritePadding(out: Str, j: nat)
    requires out.Valid() && j <= 2 && j <= out.length
    modifies out.buffer
    ensures out.Valid() && out.Contents() == old(out.Contents())[..out.length - j] + Pads(j)
  {
    var end := out.length;
    if j > 0 {
      out.buffer[end - 1] := PAD;
    }
    if j > 1 {
      out.buffer[end - 2] := PAD;
    }
  }

  // ---- The decoder ----

  predicate Decodable(s: string) {
    forall i :: 0 <= i < |s| ==> s[i] == PAD || IsDigit(s[i])
  }

  /** A pad counts as zero. */
  function SextetOf(c: char): sextet
    requires c == PAD || IsDigit(c)
  {
    if c == PAD then 0 else Value(c)
  }

  /** The three octets of four values: eight bits each, from the top. */
  function OctetsOf(a: sextet, b: sextet, c: sextet, d: sextet): (r: seq<octet>)
    ensures |r| == 3
  {
    [a * 4 + b / 16, b % 16 * 16 + c / 4, c % 4 * 64 + d]
  }

  /** Shifting a triple right and masking eight bits gives each octet back. */
  lemma OctetShifts(a: octet, b: octet, c: octet)
    ensures var t := Triple(a, b, c); t / 0x1_0000 % 256 == a && t / 0x100 % 256 == b && t % 256 == c
  {
    var t := Triple(a, b, c);
    var high: nat := a * 0x100 + b;
    assert t == 0x100 * high + c;
    Shift8(t, high, c);
    Shift8(high, a, b);
    Shift16(t, a, b * 0x100 + c);
  }

  lemma Shift8(t: nat, quotient: nat, rest: nat)
    requires t == 0x100 * quotient + rest && rest < 0x100
    ensures t / 0x100 == quotient && t % 0x100 == rest
  {
  }

  lemma Shift16(t: nat, quotient: nat, rest: nat)
    requires t == 0x1_0000 * quotient + rest && rest < 0x1_0000
    ensures t / 0x1_0000 == quotient
  {
  }

  lemma JoinedIsTriple(a: sextet, b: sextet, c: sextet, d: sextet)
    ensures Joined(a, b, c, d) == Triple(a * 4 + b / 16, b % 16 * 16 + c / 4, c % 4 * 64 + d)
  {
  }

  /** Shifting the triple and masking eight bits gives those octets. */
  lemma JoinedOctets(a: sextet, b: sextet, c: sextet, d: sextet)
    ensures var t := Joined(a, b, c, d);
      OctetsOf(a, b, c, d) == [t / 0x1_0000 % 256, t / 0x100 % 256, t % 256]
  {
    JoinedIsTriple(a, b, c, d);
    OctetShifts(a * 4 + b / 16, b % 16 * 16 + c / 4, c % 4 * 64 + d);
  }

  function Octets(four: string): (r: seq<octet>)
    requires |four| == 4 && Decodable(four)
    ensures |r| == 3
  {
    OctetsOf(SextetOf(four[0]), SextetOf(four[1]), SextetOf(four[2]), SextetOf(four[3]))
  }

  /** The octets of each group of four characters. */
  function OctetGroups(s: string): (r: seq<seq<octet>>)
    requires Decodable(s)
    ensures |r| == |s| / 4 && forall i :: 0 <= i < |r| ==> r[i] == Octets(s[4 * i..4 * i + 4])
  {
    seq(|s| / 4, i requires 0 <= i < |s| / 4 => Octets(s[4 * i..4 * i + 4]))
  }

  function AllOctets(s: string): seq<octet>
    requires Decodable(s)
  {
    Concat(OctetGroups(s))
  }

  predicate Triples(parts: seq<seq<octet>>) {
    forall i :: 0 <= i < |parts| ==> |parts[i]| == 3
  }

  lemma {:induction false} TriplesLength(parts: seq<seq<octet>>)
    requires Triples(parts)
    ensures |Concat(parts)| == 3 * |parts|
    decreases |parts|
  {
    if parts != [] {
      TriplesLength(parts[1..]);
    }
  }

  /** How many octets the decoder keeps: one less for each of the last two characters that is a pad. */
  function OutputLength(s: string): nat
    requires |s| % 4 == 0 && s != ""
  {
    |s| / 4 * 3 - (if s[|s| - 1] == PAD then 1 else 0) - (if s[|s| - 2] == PAD then 1 else 0)
  }

  function Decoded(s: string): seq<octet>
    requires |s| % 4 == 0 && s != "" && Decodable(s)
  {
    TriplesLength(OctetGroups(s));
    AllOctets(s)[..OutputLength(s)]
  }

  /** build_decoding_table: the digits' places are filled, the rest is whatever malloc left. */
  method BuildDecodingTable() returns (table: array<int>)
    ensures fresh(table) && TableFilled(table)
  {
    table := new int[256];
    var i := 0;
    while i < 64
      invariant 0 <= i <= 64
      invariant forall v: sextet :: v < i ==> table[Digit(v) as int] == v
    {
      forall v: sextet | v < i
        ensures Digit(v) != Digit(i)
      {
        DigitOnce(v);
        DigitOnce(i);
      }
      table[Digit(i) as int] := i;
      i := i + 1;
    }
    forall c: char | IsDigit(c)
      ensures table[c as int] == Value(c)
    {
      assert Digit(Value(c)) == c;
    }
  }

  predicate TableFilled(table: array<int>)
    reads table
  {
    table.Length == 256 && forall c: char :: IsDigit(c) ==> table[c as int] == Value(c)
  }

  /** What a char may hold and still be an index; one above 127 is negative where char is signed. */
  predicate Ascii(s: string) {
    forall i :: 0 <= i < |s| ==> s[i] < 128 as char
  }

  // A place that was never filled gives any number.
  method NextSextet(c: char, table: array<int>) returns (v: int)
    requires c < 128 as char && TableFilled(table)
    ensures c == PAD || IsDigit(c) ==> v == SextetOf(c)
  {
    if c == PAD {
      v := 0;
    } else {
      v := table[c as int];
    }
  }

  method NextOctets(four: string, table: array<int>) returns (octets: seq<octet>)
    requires |four| == 4 && Ascii(four) && TableFilled(table)
    ensures |octets| == 3 && (Decodable(four) ==> octets == Octets(four))
  {
    var a := NextSextet(four[0], table);
    var b := NextSextet(four[1], table);
    var c := NextSextet(four[2], table);
    var d := NextSextet(four[3], table);
    octets := Shifted(Joined(a, b, c, d));
    if Decodable(four) {
      GroupJoined(four);
    }
  }

  lemma GroupJoined(four: string)
    requires |four| == 4 && Decodable(four)
    ensures Shifted(Joined(SextetOf(four[0]), SextetOf(four[1]), SextetOf(four[2]), SextetOf(four[3]))) == Octets(four)
  {
    JoinedOctets(SextetOf(four[0]), SextetOf(four[1]), SextetOf(four[2]), SextetOf(four[3]));
  }

  /** The three low bytes of a number. */
  function Shifted(triple: int): (octets: seq<octet>)
    ensures |octets| == 3
  {
    [triple / 0x1_0000 % 256, triple / 0x100 % 256, triple % 256]
  }

  // decoded_data[j++] for as long as the output has room.
  method Store(decoded: array<octet>, j: nat, octets: seq<octet>) returns (next: nat)
    requires j <= decoded.Length
    modifies decoded
    ensures next <= decoded.Length && decoded[..next] == UpTo(decoded.Length, old(decoded[..j]) + octets)
  {
    next := j;
    var k := 0;
    while k < |octets|
      invariant 0 <= k <= |octets| && j <= next <= decoded.Length
      invariant next == if j + k < decoded.Length then j + k else decoded.Length
      invariant decoded[..next] == (old(decoded[..j]) + octets)[..next]
    {
      if next < decoded.Length {
        decoded[next] := octets[k];
        next := next + 1;
      }
      k := k + 1;
    }
  }

  /** As much as the output has room for. */
  function UpTo(length: nat, octets: seq<octet>): seq<octet> {
    if |octets| < length then octets else octets[..length]
  }

  lemma UpToMore(length: nat, a: seq<octet>, b: seq<octet>)
    ensures UpTo(length, UpTo(length, a) + b) == UpTo(length, a + b)
  {
    if |a| >= length {
      assert (a[..length] + b)[..length] == a[..length] == (a + b)[..length];
    }
  }

  function Group(data: string, g: nat): (four: string)
    requires 4 * g + 4 <= |data|
    ensures |four| == 4
  {
    data[4 * g..4 * g + 4]
  }

  /** The octets of one group, if it is one of digits and pads. */
  predicate PartOf(data: string, g: nat, part: seq<octet>)
    requires g < |data| / 4
  {
    |part| == 3 && (Decodable(Group(data, g)) ==> part == Octets(Group(data, g)))
  }

  /** Every group of digits and pads is decoded to its octets, whatever stands in the other groups. */
  predicate PartsOf(data: string, parts: seq<seq<octet>>) {
    |parts| <= |data| / 4 && forall g :: 0 <= g < |parts| ==> PartOf(data, g, parts[g])
  }

  lemma PartsOfDecodable(data: string, parts: seq<seq<octet>>)
    requires PartsOf(data, parts) && Decodable(data) && |parts| == |data| / 4
    ensures Concat(parts) == AllOctets(data)
  {
    forall g | 0 <= g < |parts|
      ensures parts[g] == OctetGroups(data)[g]
    {
      assert PartOf(data, g, parts[g]) && Decodable(Group(data, g));
    }
    assert parts == OctetGroups(data);
  }

  /** base64_decode of a non-empty string. */
  method Decode(data: string) returns (decoded: array?<octet>, ghost parts: seq<seq<octet>>)
    requires data != "" && Ascii(data)
    ensures decoded == null <==> |data| % 4 != 0
    ensures decoded != null ==> fresh(decoded) && decoded.Length == OutputLength(data)
    ensures decoded != null ==>
      && PartsOf(data, parts) && decoded.Length <= |Concat(parts)|
      && decoded[..] == Concat(parts)[..decoded.Length]
    ensures decoded != null && Decodable(data) ==> decoded[..] == Decoded(data)
  {
    var table := BuildDecodingTable();
    parts := [];
    if |data| % 4 != 0 {
      return null, parts;
    }
    var outputLength := |data| / 4 * 3;
    if data[|data| - 1] == PAD {
      outputLength := outputLength - 1;
    }
    if data[|data| - 2] == PAD {
      outputLength := outputLength - 1;
    }
    decoded := new octet[outputLength];
    parts := DecodeInto(data, table, decoded);
    if Decodable(data) {
      PartsOfDecodable(data, parts);
    }
  }

  // The loop of base64_decode.
  method DecodeInto(data: string, table: array<int>, decoded: array<octet>) returns (ghost parts: seq<seq<octet>>)
    requires data != "" && |data| % 4 == 0 && Ascii(data) && TableFilled(table) && decoded as object != table
    requires decoded.Length <= |data| / 4 * 3
    modifies decoded
    ensures PartsOf(data, parts) && |parts| == |data| / 4 && |Concat(parts)| == |data| / 4 * 3
    ensures decoded[..] == Concat(parts)[..decoded.Length]
  {
    var i, j: nat := 0, 0;
    parts := [];
    ghost var groups := |data| / 4;
    while i < |data|
      invariant |data| == 4 * groups && i == 4 * |parts| && |parts| <= groups && TableFilled(table)
      invariant PartsOf(data, parts)
      invariant j <= decoded.Length && decoded[..j] == UpTo(decoded.Length, Concat(parts))
    {
      assert data[i..i + 4] == Group(data, |parts|);
      var octets := NextOctets(data[i..i + 4], table);
      OnePartMore(data, parts, octets, decoded.Length);
      j := Store(decoded, j, octets);
      parts := parts + [octets];
      i := i + 4;
    }
    assert forall g :: 0 <= g < |parts| ==> PartOf(data, g, parts[g]);
    TriplesLength(parts);
    assert decoded[..j] == decoded[..];
  }

  lemma OnePartMore(data: string, parts: seq<seq<octet>>, octets: seq<octet>, length: nat)
    requires PartsOf(data, parts) && |parts| < |data| / 4 && PartOf(data, |parts|, octets)
    ensures PartsOf(data, parts + [octets])
    ensures UpTo(length, UpTo(length, Concat(parts)) + octets) == UpTo(length, Concat(parts + [octets]))
  {
    MorePartsOf(data, parts, octets);
    UpToMore(length, Concat(parts), octets);
    ConcatSnoc(parts, octets);
  }

  lemma MorePartsOf(data: string, parts: seq<seq<octet>>, octets: seq<octet>)
    requires PartsOf(data, parts) && |parts| < |data| / 4 && PartOf(data, |parts|, octets)
    ensures PartsOf(data, parts + [octets])
  {
    forall g | 0 <= g < |parts|
      ensures PartOf(data, g, (parts + [octets])[g])
    {
      assert PartOf(data, g, parts[g]);
    }
  }

  // ---- The codec undoes itself ----

  const OneZero: seq<octet> := [0]
  const TwoZeros: seq<octet> := [0, 0]

  lemma SixBits(a: octet, b: octet, c: octet)
    ensures OctetsOf(a / 4, a % 4 * 16 + b / 16, b % 16 * 4 + c / 64, c % 64) == [a, b, c]
  {
    var v, w: nat := a % 4 * 16 + b / 16, b % 16 * 4 + c / 64;
    assert v / 16 == a % 4 && v % 16 == b / 16;
    assert w / 4 == b % 16 && w % 4 == c / 64;
  }

  function DigitString(a: sextet, b: sextet, c: sextet, d: sextet): string {
    [Digit(a), Digit(b), Digit(c), Digit(d)]
  }

  lemma SextetsBack(a: sextet, b: sextet, c: sextet, d: sextet)
    ensures Octets(DigitString(a, b, c, d)) == OctetsOf(a, b, c, d)
    ensures Octets([Digit(a), Digit(b), Digit(c), PAD]) == OctetsOf(a, b, c, 0)
    ensures Octets([Digit(a), Digit(b), PAD, PAD]) == OctetsOf(a, b, 0, 0)
  {
    DigitOnce(a);
    DigitOnce(b);
    DigitOnce(c);
    DigitOnce(d);
  }

  lemma DigitsBack(a: octet, b: octet, c: octet)
    ensures Octets(Digits(a, b, c)) == [a, b, c]
  {
    SextetsBack(a / 4, a % 4 * 16 + b / 16, b % 16 * 4 + c / 64, c % 64);
    SixBits(a, b, c);
  }

  lemma OnePadBack(a: octet, b: octet)
    ensures Octets(Digits(a, b, 0)[..3] + OnePad) == [a, b] + OneZero
  {
    SextetsBack(a / 4, a % 4 * 16 + b / 16, b % 16 * 4, 0);
    SixBits(a, b, 0);
    OnePadText(a, b);
  }

  lemma OnePadText(a: octet, b: octet)
    ensures Digits(a, b, 0)[..3] + OnePad == [Digit(a / 4), Digit(a % 4 * 16 + b / 16), Digit(b % 16 * 4), PAD]
  {
  }

  lemma TwoPadsBack(a: octet)
    ensures Octets(Digits(a, 0, 0)[..2] + TwoPads) == [a] + TwoZeros
  {
    SextetsBack(a / 4, a % 4 * 16, 0, 0);
    SixBits(a, 0, 0);
    assert Digits(a, 0, 0)[..2] + TwoPads == [Digit(a / 4), Digit(a % 4 * 16), PAD, PAD];
  }

  lemma GroupsCons(four: string, rest: string)
    requires |four| == 4 && Decodable(four) && Decodable(rest)
    ensures Decodable(four + rest) && AllOctets(four + rest) == Octets(four) + AllOctets(rest)
  {
    var s := four + rest;
    assert s[0..4] == four;
    forall i | 0 < i < |s| / 4
      ensures s[4 * i..4 * i + 4] == rest[4 * (i - 1)..4 * (i - 1) + 4]
    {
    }
    assert OctetGroups(s) == [Octets(four)] + OctetGroups(rest);
  }

  lemma GroupsOfOne(four: string)
    requires |four| == 4 && Decodable(four)
    ensures AllOctets(four) == Octets(four)
  {
    GroupsCons(four, "");
    assert four + "" == four;
    assert Concat(OctetGroups("")) == [];
  }

  function Zeros(n: nat): (r: seq<octet>)
    requires n <= 2
    ensures |r| == n
  {
    if n == 0 then [] else if n == 1 then OneZero else TwoZeros
  }

  lemma ThreeThen(data: seq<octet>, z: seq<octet>)
    requires |data| >= 3
    ensures [data[0], data[1], data[2]] + (data[3..] + z) == data + z
  {
  }

  lemma {:induction false} EncodedOctets(data: seq<octet>)
    ensures Decodable(Encoded(data)) && AllOctets(Encoded(data)) == data + Zeros(PadCount(|data|))
    decreases |data|
  {
    if data == [] {
      assert Concat(OctetGroups("")) == [];
    } else if |data| == 1 {
      TwoPadsBack(data[0]);
      GroupsOfOne(Encoded(data));
    } else if |data| == 2 {
      OnePadBack(data[0], data[1]);
      GroupsOfOne(Encoded(data));
    } else {
      EncodedOctets(data[3..]);
      EncodedGroupMore(data);
    }
  }

  lemma EncodedGroupMore(data: seq<octet>)
    requires |data| >= 3 && Decodable(Encoded(data[3..]))
    requires AllOctets(Encoded(data[3..])) == data[3..] + Zeros(PadCount(|data| - 3))
    ensures Decodable(Encoded(data)) && AllOctets(Encoded(data)) == data + Zeros(PadCount(|data|))
  {
    DigitsBack(data[0], data[1], data[2]);
    GroupsCons(Digits(data[0], data[1], data[2]), Encoded(data[3..]));
    OneGroupMore(|data| - 3);
    ThreeThen(data, Zeros(PadCount(|data|)));
  }

  /** The last two characters tell how many octets there were. */
  lemma EncodedLength(data: seq<octet>)
    requires data != []
    ensures |Encoded(data)| % 4 == 0 && Encoded(data) != "" && OutputLength(Encoded(data)) == |data|
  {
    EncodedShape(data);
    LengthFromGroups(|data|);
    LengthFromEnd(Encoded(data), |Encoded(data)| - PadCount(|data|));
  }

  lemma LengthFromEnd(s: string, n: nat)
    requires s != "" && |s| % 4 == 0 && n <= |s| <= n + 2
    requires AllDigits(s[..n]) && s[n..] == Pads(|s| - n)
    ensures OutputLength(s) == |s| / 4 * 3 - (|s| - n)
  {
    assert s == s[..n] + Pads(|s| - n);
    if n == |s| {
      assert s[..n][n - 1] == s[n - 1] && s[..n][n - 2] == s[n - 2];
    } else if n + 1 == |s| {
      assert s[..n][n - 1] == s[n - 1];
    }
  }

  lemma LengthFromGroups(n: nat)
    requires n > 0
    ensures n == 3 * GroupCount(n) - PadCount(n) && GroupCount(n) > 0
  {
  }

  /** Decoding an encoding gives the octets back, whatever they are. */
  lemma EncodeDecode(data: seq<octet>)
    requires data != []
    ensures |Encoded(data)| % 4 == 0 && Encoded(data) != "" && Decodable(Encoded(data))
    ensures Decoded(Encoded(data)) == data
  {
    EncodedOctets(data);
    EncodedLength(data);
    Halves(data, Zeros(PadCount(|data|)));
  }

  /** Whole groups of digits, then one that may be padded, with no bits left over under the padding. */
  predicate Canonical(s: string) {
    if |s| < 4 then false
    else if |s| > 4 then AllDigits(s[..4]) && Canonical(s[4..])
    else
      || AllDigits(s)
      || (AllDigits(s[..3]) && s[3] == PAD && SextetValue(s[2]) % 4 == 0)
      || (AllDigits(s[..2]) && s[2] == PAD && s[3] == PAD && SextetValue(s[1]) % 16 == 0)
  }

  function SextetValue(c: char): sextet { if IsDigit(c) then Value(c) else 0 }

  lemma {:induction false} EncodedCanonical(data: seq<octet>)
    requires data != []
    ensures Canonical(Encoded(data))
    decreases |data|
  {
    if |data| == 1 {
      DigitOnce(data[0] % 4 * 16);
      assert Encoded(data)[..2] == Digits(data[0], 0, 0)[..2];
    } else if |data| == 2 {
      DigitOnce(data[1] % 16 * 4);
      assert Encoded(data)[..3] == Digits(data[0], data[1], 0)[..3];
    } else {
      var head := Digits(data[0], data[1], data[2]);
      if |data| == 3 {
        assert head + "" == head;
      } else {
        EncodedCanonical(data[3..]);
        Halves(head, Encoded(data[3..]));
      }
    }
  }

  // ---- The other way round ----

  lemma SplitAt4(n: nat, quotient: nat, rest: nat)
    requires n == 4 * quotient + rest && rest < 4
    ensures n / 4 == quotient && n % 4 == rest
  {
  }

  lemma SplitAt16(n: nat, quotient: nat, rest: nat)
    requires n == 16 * quotient + rest && rest < 16
    ensures n / 16 == quotient && n % 16 == rest
  {
  }

  // The two parts of a middle digit meet again in the octets.
  lemma OctetsBack(x: octet, y: octet, z: octet, a: sextet, bHigh: nat, bLow: nat, cHigh: nat, cLow: nat, d: sextet)
    requires x == 4 * a + bHigh && y == 16 * bLow + cHigh && z == 0x40 * cLow + d
    requires bHigh < 4 && bLow < 16 && cHigh < 16 && cLow < 4
    ensures Digits(x, y, z) == DigitString(a, 16 * bHigh + bLow, 4 * cHigh + cLow, d)
  {
    SplitAt4(x, a, bHigh);
    SplitAt16(y, bLow, cHigh);
    Shift6(z, cLow, d);
  }

  lemma QuartersOf(v: sextet) returns (high: nat, low: nat)
    ensures high < 16 && low < 4 && v == 4 * high + low && v / 4 == high && v % 4 == low
  {
    high, low := v / 4, v % 4;
  }

  lemma SixteenthsOf(v: sextet) returns (high: nat, low: nat)
    ensures high < 4 && low < 16 && v == 16 * high + low && v / 16 == high && v % 16 == low
  {
    high, low := v / 16, v % 16;
  }

  lemma FourBack(a: sextet, b: sextet, c: sextet, d: sextet)
    ensures var r := OctetsOf(a, b, c, d); Digits(r[0], r[1], r[2]) == DigitString(a, b, c, d)
  {
    var bHigh, bLow := SixteenthsOf(b);
    var cHigh, cLow := QuartersOf(c);
    var r := OctetsOf(a, b, c, d);
    OctetsBack(r[0], r[1], r[2], a, bHigh, bLow, cHigh, cLow, d);
  }

  lemma GroupBack(four: string)
    requires |four| == 4 && AllDigits(four)
    ensures Decodable(four) && var r := Octets(four); Digits(r[0], r[1], r[2]) == four
  {
    FourBack(Value(four[0]), Value(four[1]), Value(four[2]), Value(four[3]));
  }

  lemma EncodedTwo(a: sextet, b: sextet, c: sextet)
    requires c % 4 == 0
    ensures Encoded(OctetsOf(a, b, c, 0)[..2]) == [Digit(a), Digit(b), Digit(c)] + OnePad
  {
    var r := OctetsOf(a, b, c, 0);
    FourBack(a, b, c, 0);
    assert r[2] == 0 && |r[..2]| == 2;
    assert DigitString(a, b, c, 0)[..3] == [Digit(a), Digit(b), Digit(c)];
  }

  lemma EncodedOne(a: sextet, b: sextet)
    requires b % 16 == 0
    ensures Encoded(OctetsOf(a, b, 0, 0)[..1]) == [Digit(a), Digit(b)] + TwoPads
  {
    var r := OctetsOf(a, b, 0, 0);
    FourBack(a, b, 0, 0);
    assert r[1] == 0 && r[2] == 0 && |r[..1]| == 1;
    assert DigitString(a, b, 0, 0)[..2] == [Digit(a), Digit(b)];
  }

  lemma OnePadGroup(four: string)
    requires |four| == 4 && AllDigits(four[..3]) && four[3] == PAD && SextetValue(four[2]) % 4 == 0
    ensures Decodable(four) && Encoded(Octets(four)[..2]) == four
  {
    assert four[..3][0] == four[0] && four[..3][1] == four[1] && four[..3][2] == four[2];
    EncodedTwo(Value(four[0]), Value(four[1]), Value(four[2]));
    assert four == [four[0], four[1], four[2]] + OnePad;
  }

  lemma TwoPadGroup(four: string)
    requires |four| == 4 && AllDigits(four[..2]) && four[2] == PAD && four[3] == PAD && SextetValue(four[1]) % 16 == 0
    ensures Decodable(four) && Encoded(Octets(four)[..1]) == four
  {
    assert four[..2][0] == four[0] && four[..2][1] == four[1];
    EncodedOne(Value(four[0]), Value(four[1]));
    assert four == [four[0], four[1]] + TwoPads;
  }

  lemma OneGroup(four: string)
    requires |four| == 4 && Decodable(four) && Canonical(four)
    ensures Encoded(Decoded(four)) == four
  {
    GroupsOfOne(four);
    TriplesLength(OctetGroups(four));
    var r := Octets(four);
    if four[3] != PAD {
      GroupBack(four);
      assert r[..3] == r && Encoded(r) == four + "" == four;
    } else if four[2] != PAD {
      OnePadGroup(four);
    } else {
      TwoPadGroup(four);
    }
  }

  lemma CutAfter(head: seq<octet>, rest: seq<octet>, n: nat)
    requires n <= |rest|
    ensures (head + rest)[..|head| + n] == head + rest[..n]
  {
  }

  lemma OneGroupLonger(four: string, rest: string)
    requires |four| == 4 && |rest| % 4 == 0 && rest != ""
    ensures |four + rest| % 4 == 0 && OutputLength(four + rest) == 3 + OutputLength(rest)
  {
    var s := four + rest;
    assert s[|s| - 1] == rest[|rest| - 1] && s[|s| - 2] == rest[|rest| - 2];
  }

  lemma DecodedCons(four: string, rest: string)
    requires |four| == 4 && Decodable(four) && Decodable(rest) && |rest| % 4 == 0 && rest != ""
    ensures |four + rest| % 4 == 0 && Decodable(four + rest)
    ensures Decoded(four + rest) == Octets(four) + Decoded(rest)
  {
    GroupsCons(four, rest);
    TriplesLength(OctetGroups(rest));
    OneGroupLonger(four, rest);
    CutAfter(Octets(four), AllOctets(rest), OutputLength(rest));
  }

  lemma EncodedCons(r: seq<octet>, rest: seq<octet>)
    requires |r| == 3
    ensures Encoded(r + rest) == Digits(r[0], r[1], r[2]) + Encoded(rest)
  {
    assert (r + rest)[3..] == rest;
  }

  lemma {:induction false} CanonicalBack(s: string)
    requires |s| % 4 == 0 && s != "" && Decodable(s) && Canonical(s)
    ensures Encoded(Decoded(s)) == s
    decreases |s|
  {
    if |s| == 4 {
      OneGroup(s);
    } else {
      var four, rest := s[..4], s[4..];
      assert s == four + rest;
      CanonicalBack(rest);
      GroupBack(four);
      DecodedCons(four, rest);
      EncodedCons(Octets(four), Decoded(rest));
    }
  }

  /** Encoding a decoded string gives it back exactly when it was canonical. */
  lemma DecodeEncode(s: string)
    requires |s| % 4 == 0 && s != "" && Decodable(s)
    ensures Encoded(Decoded(s)) == s <==> Canonical(s)
  {
    if Canonical(s) {
      CanonicalBack(s);
    } else {
      TriplesLength(OctetGroups(s));
      EncodedCanonical(Decoded(s));
    }
  }
}
