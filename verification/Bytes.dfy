/**
 Octets, octet strings and the one arithmetic fact about them that the rest of the
 project needs: a number below 256 fits in a byte and comes back out unchanged.
 */
module Bytes {
  type byte = bv8
  type bytes = seq<byte>

  lemma Increment(b: byte)
    requires b < 255
    ensures (b + 1) as nat == b as nat + 1
  {
  }

  /** The byte whose unsigned value is `n`. */
  function Octet(n: nat): (b: byte)
    requires n < 256
    ensures b as nat == n
  {
    if n == 0 then 0 else
    var previous := Octet(n - 1);
    assert previous as nat < 255;
    Increment(previous);
    previous + 1
  }

  /** Big-endian 16-bit number, the network byte order of htons and ntohs. */
  function Big16(n: nat): (s: bytes)
    requires n < 0x1_0000
    ensures |s| == 2 && s[0] as nat * 256 + s[1] as nat == n
  {
    [Octet(n / 256), Octet(n % 256)]
  }

  /** Big-endian 32-bit number. */
  function Big32(n: nat): (s: bytes)
    requires n < 0x1_0000_0000
    ensures |s| == 4 && Value32(s) == n
  {
    Big16(n / 0x1_0000) + Big16(n % 0x1_0000)
  }

  function Value32(s: bytes): nat
    requires |s| == 4
  {
    (s[0] as nat * 256 + s[1] as nat) * 0x1_0000 + (s[2] as nat * 256 + s[3] as nat)
  }

  lemma Assoc<T>(a: seq<T>, b: seq<T>, c: seq<T>)
    ensures (a + b) + c == a + (b + c)
  {
  }

  lemma Assoc4<T>(a: seq<T>, b: seq<T>, c: seq<T>, d: seq<T>)
    ensures a + b + c + d == a + (b + c + d)
  {
    Assoc(a, b, c);
    Assoc(a, b + c, d);
  }

  lemma Halves<T>(a: seq<T>, b: seq<T>)
    ensures (a + b)[..|a|] == a && (a + b)[|a|..] == b
  {
  }

  lemma Middle<T>(a: seq<T>, b: seq<T>, c: seq<T>)
    ensures (a + b + c)[|a|..|a| + |b|] == b && (a + b + c)[|a| + |b|..] == c
  {
    Halves(a + b, c);
    Halves(a, b);
    assert (a + b + c)[|a|..|a| + |b|] == (a + b + c)[..|a + b|][|a|..];
  }

  /** All the parts, joined in order. */
  function Concat<T>(parts: seq<seq<T>>): seq<T> {
    if parts == [] then [] else parts[0] + Concat(parts[1..])
  }

  lemma {:induction false} ConcatAppend<T>(a: seq<seq<T>>, b: seq<seq<T>>)
    ensures Concat(a + b) == Concat(a) + Concat(b)
  {
    if a == [] {
      assert a + b == b;
    } else {
      assert (a + b)[1..] == a[1..] + b;
      ConcatAppend(a[1..], b);
    }
  }

  lemma ConcatSnoc<T>(a: seq<seq<T>>, x: seq<T>)
    ensures Concat(a + [x]) == Concat(a) + x
  {
    ConcatAppend(a, [x]);
    assert Concat([x]) == x + Concat([]);
  }

  /** The longest prefix of `s` that a buffer limited to `limit` bytes can hold; 0 is "no limit". */
  function Cut(limit: nat, s: bytes): (r: bytes)
    ensures r <= s && (limit > 0 ==> |r| <= limit)
  {
    if limit == 0 || |s| <= limit then s else s[..limit]
  }

  /** Cutting early and cutting late come to the same thing. */
  lemma CutOfCut(limit: nat, a: bytes, b: bytes)
    ensures Cut(limit, Cut(limit, a) + b) == Cut(limit, a + b)
  {
    if limit > 0 && |a| > limit {
      assert (a + b)[..limit] == a[..limit];
      assert (a[..limit] + b)[..limit] == a[..limit];
    }
  }

  /** The big-endian number of two octets gives them back. */
  lemma Big16Inverse(high: byte, low: byte)
    ensures Big16(high as nat * 256 + low as nat) == [high, low]
  {
    Big16Digits(high as nat, low as nat);
    SameOctet(Octet(high as nat), high);
    SameOctet(Octet(low as nat), low);
  }

  lemma Big16Digits(high: nat, low: nat)
    requires high < 256 && low < 256
    ensures Big16(high * 256 + low) == [Octet(high), Octet(low)]
  {
    assert (high * 256 + low) / 256 == high && (high * 256 + low) % 256 == low;
  }

  lemma SameOctet(a: byte, b: byte)
    ensures a as nat == b as nat <==> a == b
  {
  }

  lemma Big32OfHalves(high: nat, low: nat)
    requires high < 0x1_0000 && low < 0x1_0000
    ensures high * 0x1_0000 + low < 0x1_0000_0000
    ensures Big32(high * 0x1_0000 + low) == Big16(high) + Big16(low)
  {
    assert (high * 0x1_0000 + low) / 0x1_0000 == high && (high * 0x1_0000 + low) % 0x1_0000 == low;
  }

  lemma TwoOctets(high: byte, low: byte) returns (n: nat)
    ensures n == high as nat * 256 + low as nat < 0x1_0000 && Big16(n) == [high, low]
  {
    n := high as nat * 256 + low as nat;
    Big16Inverse(high, low);
  }

  /** So does that of four. */
  lemma Big32Inverse(s: bytes)
    requires |s| == 4
    ensures Value32(s) < 0x1_0000_0000 && Big32(Value32(s)) == s
  {
    var high := TwoOctets(s[0], s[1]);
    var low := TwoOctets(s[2], s[3]);
    FourOctets(s, high, low);
  }

  lemma FourOctets(s: bytes, high: nat, low: nat)
    requires |s| == 4 && high < 0x1_0000 && low < 0x1_0000 && Value32(s) == high * 0x1_0000 + low
    requires Big16(high) == [s[0], s[1]] && Big16(low) == [s[2], s[3]]
    ensures Value32(s) < 0x1_0000_0000 && Big32(Value32(s)) == s
  {
    Big32OfHalves(high, low);
    assert s == [s[0], s[1]] + [s[2], s[3]];
  }
}
