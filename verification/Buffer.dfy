/**
 The growable byte buffer of util.c, its fixed-size cousin data_t, and the unmasking loop.
 A buffer is specified by its contents: whatever is appended or stored is cut at the limit.
 */
module Buffers {
  import opened Bytes

  const INIT_BUFFER_SIZE := 128
  const GROWTH := 1024

  /** What buffer_append answers: it refuses only when there is something to add and no room at all. */
  predicate AppendOk(limit: nat, held: bytes, offered: bytes) {
    offered == [] || limit == 0 || |held| < limit
  }

  lemma CutAppended(limit: nat, held: bytes, offered: bytes, n: nat)
    requires n <= |offered| && (n == |offered| || (limit > 0 && |held| + n == limit))
    requires limit > 0 ==> |held| + n <= limit
    ensures Cut(limit, held + offered) == held + offered[..n]
  {
    assert held + offered == held + offered[..n] + offered[n..];
  }

  method MemCpy(target: array<byte>, at: nat, source: array<byte>, offset: nat, count: nat)
    requires at + count <= target.Length && offset + count <= source.Length && source != target
    modifies target
    ensures target[..at + count] == old(target[..at]) + source[offset..offset + count]
  {
    forall j | at <= j < at + count {
      target[j] := source[offset + (j - at)];
    }
  }

  class Buffer {
    var data: array<byte>
    var length: nat
    const maxLength: nat  // 0 means unlimited

    ghost predicate Valid()
      reads this
    {
      length <= data.Length && (maxLength > 0 ==> data.Length <= maxLength)
    }

    ghost function Contents(): (s: bytes)
      requires Valid()
      reads this, data
      ensures |s| == length
    {
      data[..length]
    }

    constructor (maxLength: nat)
      ensures Valid() && fresh(data) && this.maxLength == maxLength
      ensures Contents() == []
      ensures data.Length == if 0 < maxLength < INIT_BUFFER_SIZE then maxLength else INIT_BUFFER_SIZE
    {
      var capacity := INIT_BUFFER_SIZE;
      if maxLength > 0 && maxLength < capacity {
        capacity := maxLength;
      }
      this.maxLength := maxLength;
      data := new byte[capacity];
      length := 0;
    }

    method Clear()
      requires Valid()
      modifies this`length
      ensures Valid() && Contents() == []
    {
      length := 0;
    }

    // The realloc: a larger block that starts with what was held.
    method Grow(capacity: nat)
      requires Valid() && data.Length < capacity && (maxLength > 0 ==> capacity <= maxLength)
      modifies this`data
      ensures Valid() && fresh(data) && data.Length == capacity
      ensures Contents() == old(Contents())
    {
      var larger := new byte[capacity];
      forall i | 0 <= i < length {
        larger[i] := data[i];
      }
      data := larger;
    }

    method Append(source: array<byte>, offset: nat, count: nat) returns (ok: bool)
      requires Valid() && offset + count <= source.Length && source != data
      modifies this, data
      ensures Valid() && (data == old(data) || fresh(data))
      ensures ok == AppendOk(maxLength, old(Contents()), source[offset..offset + count])
      ensures Contents() == Cut(maxLength, old(Contents()) + source[offset..offset + count])
    {
      if count == 0 {
        return true;
      }
      var n := count;
      if maxLength == 0 {
        if length + n > data.Length {
          Grow(length + n + GROWTH);
        }
      } else {
        if length + n > maxLength {
          n := maxLength - length;
        }
        if n == 0 {
          return false;
        }
        if length + n > data.Length {
          var capacity := length + n + GROWTH;
          if capacity > maxLength {
            capacity := maxLength;
          }
          Grow(capacity);
        }
      }
      MemCpy(data, length, source, offset, n);
      length := length + n;
      CutAppended(maxLength, old(Contents()), source[offset..offset + count], n);
      assert source[offset..offset + count][..n] == source[offset..offset + n];
      return true;
    }

    method SetData(source: array<byte>, offset: nat, count: nat) returns (ok: bool)
      requires Valid() && offset + count <= source.Length && source != data
      modifies this, data
      ensures Valid() && (data == old(data) || fresh(data))
      ensures ok == AppendOk(maxLength, [], source[offset..offset + count])
      ensures Contents() == Cut(maxLength, source[offset..offset + count])
    {
      length := 0;
      ok := Append(source, offset, count);
      assert [] + source[offset..offset + count] == source[offset..offset + count];
    }

    // The memmove shifts the whole block, not just the bytes in use.
    method RemoveData(count: nat)
      requires Valid() && count <= length
      modifies this`length, data
      ensures Valid() && Contents() == old(Contents())[count..]
    {
      forall i | 0 <= i < data.Length - count {
        data[i] := data[i + count];
      }
      length := length - count;
    }

    /** buffer_move: this buffer is emptied into `target`, which forgets what it held. */
    method MoveTo(target: Buffer) returns (ok: bool)
      requires Valid() && target.Valid() && target != this && target.data != data
      modifies this`length, target, target.data
      ensures Valid() && target.Valid() && (target.data == old(target.data) || fresh(target.data))
      ensures ok && target.Contents() == Cut(target.maxLength, old(Contents()))
      ensures Contents() == []
    {
      target.Clear();
      ok := target.Append(data, 0, length);
      assert [] + old(Contents()) == old(Contents());
      Clear();
    }
  }

  // ---- Conservation over whole runs ----

  /** MoveIn and MoveOut are the two ends of a buffer_move: this buffer is its target, or its source. */
  datatype Op =
    | Append(offered: bytes)
    | SetData(offered: bytes)
    | RemoveData(count: nat)
    | MoveIn(offered: bytes)
    | MoveOut

  predicate Offers(op: Op) {
    op.Append? || op.SetData? || op.MoveIn?
  }

  /** What operations do: the bytes now held, those that left, and those let in or turned away. */
  datatype Effect = Effect(held: bytes, left: bytes, taken: bytes, dropped: bytes)

  predicate Fits(limit: nat, held: bytes) {
    limit > 0 ==> |held| <= limit
  }

  function Apply(limit: nat, held: bytes, op: Op): (e: Effect)
    requires Fits(limit, held)
    requires op.RemoveData? ==> op.count <= |held|
    ensures Fits(limit, e.held)
    ensures held + e.taken == e.left + e.held
    ensures if Offers(op) then op.offered == e.taken + e.dropped else e.taken == [] == e.dropped
  {
    match op
    case Append(offered) =>
      var all := Cut(limit, held + offered);
      Effect(all, [], all[|held|..], offered[|all| - |held|..])
    case SetData(offered) =>
      Replaced(limit, held, offered)
    case MoveIn(offered) =>
      Replaced(limit, held, offered)
    case MoveOut =>
      Effect([], held, [], [])
    case RemoveData(count) =>
      Effect(held[count..], held[..count], [], [])
  }

  /** What was held leaves and what is offered takes its place, as far as it fits. */
  function Replaced(limit: nat, held: bytes, offered: bytes): (e: Effect)
    ensures Fits(limit, e.held) && held + e.taken == e.left + e.held && offered == e.taken + e.dropped
  {
    var all := Cut(limit, offered);
    Effect(all, held, all, offered[|all|..])
  }

  /** No operation of the run removes more than is held at that moment. */
  predicate Sensible(limit: nat, held: bytes, ops: seq<Op>)
    requires Fits(limit, held)
    decreases |ops|
  {
    ops != [] ==>
      && (ops[0].RemoveData? ==> ops[0].count <= |held|)
      && Sensible(limit, Apply(limit, held, ops[0]).held, ops[1..])
  }

  /** The joint effect of a run. */
  function ApplyAll(limit: nat, held: bytes, ops: seq<Op>): (e: Effect)
    requires Fits(limit, held) && Sensible(limit, held, ops)
    ensures Fits(limit, e.held)
    decreases |ops|
  {
    if ops == [] then Effect(held, [], [], []) else
    var first := Apply(limit, held, ops[0]);
    var rest := ApplyAll(limit, first.held, ops[1..]);
    Effect(rest.held, first.left + rest.left, first.taken + rest.taken, first.dropped + rest.dropped)
  }

  function Offered(ops: seq<Op>): bytes {
    if ops == [] then [] else
    (if Offers(ops[0]) then ops[0].offered else []) + Offered(ops[1..])
  }

  lemma Telescope(a: bytes, t: bytes, l: bytes, b: bytes, t': bytes, l': bytes, c: bytes)
    requires a + t == l + b && b + t' == l' + c
    ensures a + (t + t') == (l + l') + c
  {
    assert a + (t + t') == (a + t) + t';
    assert (l + b) + t' == l + (b + t');
    assert l + (l' + c) == (l + l') + c;
  }

  /**
   Nothing is lost, duplicated or reordered: what was held at the start followed by every
   byte let in is what left the buffer followed by what it still holds, and every byte
   offered was let in or dropped at the limit.
   */
  lemma {:induction false} Conservation(limit: nat, held: bytes, ops: seq<Op>)
    requires Fits(limit, held) && Sensible(limit, held, ops)
    ensures var e := ApplyAll(limit, held, ops);
      && held + e.taken == e.left + e.held
      && |Offered(ops)| == |e.taken| + |e.dropped|
      && (limit == 0 ==> e.taken == Offered(ops))
    decreases |ops|
  {
    if ops != [] {
      var first := Apply(limit, held, ops[0]);
      var rest := ApplyAll(limit, first.held, ops[1..]);
      Conservation(limit, first.held, ops[1..]);
      Telescope(held, first.taken, first.left, first.held, rest.taken, rest.left, rest.held);
    }
  }

  method ArrayOf(offered: bytes) returns (source: array<byte>)
    ensures fresh(source) && source[..] == offered == source[0..source.Length]
  {
    source := new byte[|offered|](i requires 0 <= i < |offered| => offered[i]);
  }

  // buffer_move from another buffer that holds these bytes.
  method MoveInto(buffer: Buffer, source: array<byte>)
    requires buffer.Valid() && source != buffer.data
    modifies buffer, buffer.data
    ensures buffer.Valid() && (buffer.data == old(buffer.data) || fresh(buffer.data))
    ensures buffer.Contents() == Cut(buffer.maxLength, old(source[..]))
  {
    var other := new Buffer(0);
    assert source[0..source.Length] == source[..] && [] + source[..] == source[..];
    var _ := other.Append(source, 0, source.Length);
    var _ := other.MoveTo(buffer);
  }

  lemma HeldAfterOffer(limit: nat, held: bytes, op: Op)
    requires Fits(limit, held) && Offers(op)
    ensures Apply(limit, held, op).held == Cut(limit, if op.Append? then held + op.offered else op.offered)
  {
  }

  method Offer(buffer: Buffer, op: Op)
    requires buffer.Valid() && Offers(op)
    modifies buffer, buffer.data
    ensures buffer.Valid() && (buffer.data == old(buffer.data) || fresh(buffer.data))
    ensures var held := old(buffer.Contents());
      buffer.Contents() == Cut(buffer.maxLength, if op.Append? then held + op.offered else op.offered)
  {
    var source := ArrayOf(op.offered);
    if op.Append? {
      var _ := buffer.Append(source, 0, source.Length);
    } else if op.SetData? {
      var _ := buffer.SetData(source, 0, source.Length);
    } else {
      MoveInto(buffer, source);
    }
  }

  method Perform(buffer: Buffer, op: Op)
    requires buffer.Valid() && (op.RemoveData? ==> op.count <= buffer.length)
    modifies buffer, buffer.data
    ensures buffer.Valid() && (buffer.data == old(buffer.data) || fresh(buffer.data))
    ensures buffer.Contents() == Apply(buffer.maxLength, old(buffer.Contents()), op).held
  {
    if op.RemoveData? {
      buffer.RemoveData(op.count);
    } else if op.MoveOut? {
      var target := new Buffer(0);
      var _ := buffer.MoveTo(target);
    } else {
      HeldAfterOffer(buffer.maxLength, buffer.Contents(), op);
      Offer(buffer, op);
    }
  }

  /** The array-backed buffer follows the specification through any sensible run. */
  method Drive(buffer: Buffer, ops: seq<Op>)
    requires buffer.Valid() && Sensible(buffer.maxLength, buffer.Contents(), ops)
    modifies buffer, buffer.data
    ensures buffer.Valid() && (buffer.data == old(buffer.data) || fresh(buffer.data))
    ensures buffer.Contents() == ApplyAll(buffer.maxLength, old(buffer.Contents()), ops).held
  {
    var k := 0;
    while k < |ops|
      invariant 0 <= k <= |ops| && buffer.Valid() && (buffer.data == old(buffer.data) || fresh(buffer.data))
      invariant Sensible(buffer.maxLength, buffer.Contents(), ops[k..])
      invariant ApplyAll(buffer.maxLength, buffer.Contents(), ops[k..]).held
             == ApplyAll(buffer.maxLength, old(buffer.Contents()), ops).held
      decreases |ops| - k
    {
      assert ops[k..][0] == ops[k] && ops[k..][1..] == ops[k + 1..];
      Perform(buffer, ops[k]);
      k := k + 1;
    }
  }

  // ---- data_t and unmask ----

  /** What a block of this size keeps. */
  function Filled(length: nat, s: bytes): bytes {
    if |s| < length then s else s[..length]
  }

  /** The fixed-size destination of framer_get_frame2. */
  class Data {
    const buffer: array<byte>
    var length: nat

    ghost predicate Valid()
      reads this
    {
      length <= buffer.Length
    }

    ghost function Contents(): bytes
      requires Valid()
      reads this, buffer
    {
      buffer[..length]
    }

    constructor (buffer: array<byte>)
      ensures Valid() && this.buffer == buffer && length == 0
    {
      this.buffer := buffer;
      length := 0;
    }

    method SetData(source: array<byte>, count: nat)
      requires Valid() && count <= source.Length && source != buffer
      modifies this`length, buffer
      ensures Valid()
      ensures Contents() == Filled(buffer.Length, source[..count])
    {
      var size := count;
      if size >= buffer.Length {
        size := buffer.Length;
      }
      var i := 0;
      while i < size
        invariant 0 <= i <= size
        invariant buffer[..i] == source[..i]
      {
        buffer[i] := source[i];
        i := i + 1;
      }
      length := i;
      assert size < count ==> source[..count][..size] == source[..size];
    }
  }

  /** Section 5.3 of RFC 6455: octet i is combined with octet i modulo 4 of the key. */
  function Masked(payload: bytes, key: bytes): (r: bytes)
    requires |key| == 4
    ensures |r| == |payload| && forall i :: 0 <= i < |r| ==> r[i] == payload[i] ^ key[i % 4]
  {
    seq(|payload|, i requires 0 <= i < |payload| => payload[i] ^ key[i % 4])
  }

  lemma XorTwice(a: byte, k: byte)
    ensures (a ^ k) ^ k == a
  {
  }

  lemma MaskTwice(payload: bytes, key: bytes)
    requires |key| == 4
    ensures Masked(Masked(payload, key), key) == payload
  {
    forall i | 0 <= i < |payload|
      ensures Masked(Masked(payload, key), key)[i] == payload[i]
    {
      XorTwice(payload[i], key[i % 4]);
    }
  }

  lemma MaskOfCut(limit: nat, payload: bytes, key: bytes)
    requires |key| == 4
    ensures Masked(Cut(limit, payload), key) == Cut(limit, Masked(payload, key))
  {
  }

  /** The in-place loop, with its own wrapping index into the key. */
  method Unmask(data: array<byte>, length: nat, mask: array<byte>, maskOffset: nat)
    requires length <= data.Length && maskOffset + 4 <= mask.Length && mask != data
    modifies data
    ensures data[..length] == Masked(old(data[..length]), mask[maskOffset..maskOffset + 4])
    ensures data[length..] == old(data[length..])
  {
    var i, index := 0, 0;
    ghost var key := mask[maskOffset..maskOffset + 4];
    while i < length
      invariant 0 <= i <= length && index == i % 4
      invariant mask[maskOffset..maskOffset + 4] == key
      invariant forall k :: 0 <= k < i ==> data[k] == old(data[k]) ^ key[k % 4]
      invariant forall k :: i <= k < data.Length ==> data[k] == old(data[k])
    {
      data[i] := data[i] ^ mask[maskOffset + index];
      index := index + 1;
      if index == 4 {
        index := 0;
      }
      i := i + 1;
    }
  }
}
