/**
 What RFC 6455 asks of a client's frames, beyond what the code checks: the mask bit of section 5.1, the
 opcodes of section 5.2 and the short control frames of section 5.5. The code stops at the first frame
 that breaks the RFC exactly when it has not overlooked one before.
 */
module Conformance {
  import opened Bytes
  import opened FrameCodec
  import opened Reassembly
  import opened Fragmentation
  import opened FrameLimits

  const MAX_CONTROL := 125

  predicate Reserved(opcode: byte) {
    !IsControl(opcode) && opcode != OPCODE_CONTINUATION && opcode != OPCODE_TEXT && opcode != OPCODE_BINARY
  }

  /** The opcodes of section 5.2 by their numbers. */
  lemma OpcodesAre(opcode: byte)
    requires opcode < 0x10
    ensures IsControl(opcode) <==> 0x8 <= opcode <= 0xa
    ensures Reserved(opcode) <==> 0x3 <= opcode <= 0x7 || 0xb <= opcode <= 0xf
  {
  }

  /** Not masked, of no defined opcode, or a control frame that is too long: rules the code does not know. */
  predicate Overlooked(f: Frame) {
    !f.mask || Reserved(f.opcode) || (IsControl(f.opcode) && |f.payload| > MAX_CONTROL)
  }

  /** A fragmented control frame, a continuation of nothing, or a new message inside a message. */
  predicate OutOfPlace(before: seq<Frame>, f: Frame) {
    if IsControl(f.opcode) then !f.fin else InMessage(before) != (f.opcode == OPCODE_CONTINUATION)
  }

  /** More bytes for a message that is already as long as this server allows, which the RFC leaves open. */
  predicate OverLimit(limits: Limits, before: seq<Frame>, f: Frame) {
    && !IsControl(f.opcode) && f.opcode == OPCODE_CONTINUATION && InMessage(before)
    && Stored(limits, f).payload != [] && limits.message > 0 && |Content(limits, before)| >= limits.message
  }

  /** The frame breaks the RFC when it comes after `before`. */
  predicate Breaks(before: seq<Frame>, f: Frame) {
    Overlooked(f) || OutOfPlace(before, f)
  }

  /** The number of frames before the first that breaks the RFC. */
  function Lawful(fs: seq<Frame>): (n: nat)
    ensures n <= |fs|
    ensures forall k :: 0 <= k < n ==> !Breaks(fs[..k], fs[k])
    ensures n < |fs| ==> Breaks(fs[..n], fs[n])
  {
    if fs == [] then 0 else
    var n := Lawful(Init(fs));
    assert forall k :: 0 <= k < |fs| - 1 ==> Init(fs)[..k] == fs[..k];
    if n == |Init(fs)| && !Breaks(Init(fs), Last(fs)) then |fs| else n
  }

  lemma ViolatesExactly(limits: Limits, before: seq<Frame>, f: Frame)
    ensures Violates(limits, before, f) <==> OutOfPlace(before, f) || OverLimit(limits, before, f)
  {
  }

  /** The rules both know, the server's own limit, and the rules it does not know, at one place of a list. */
  predicate OutOfPlaceAt(fs: seq<Frame>, k: nat)
    requires k < |fs|
  {
    OutOfPlace(fs[..k], fs[k])
  }

  predicate OverLimitAt(limits: Limits, fs: seq<Frame>, k: nat)
    requires k < |fs|
  {
    OverLimit(limits, fs[..k], fs[k])
  }

  predicate OverlookedAt(fs: seq<Frame>, k: nat)
    requires k < |fs|
  {
    Overlooked(fs[k])
  }

  /** No frame that is overlooked comes before the first one that stops the code. */
  predicate OverlooksNothing(limits: Limits, fs: seq<Frame>) {
    forall k :: 0 <= k < |fs| && OverlookedAt(fs, k) ==>
      exists j :: 0 <= j <= k && (OutOfPlaceAt(fs, j) || OverLimitAt(limits, fs, j))
  }

  /** No frame that is over the server's limit comes before the first one that breaks the RFC. */
  predicate LimitsNothing(limits: Limits, fs: seq<Frame>) {
    forall k :: 0 <= k < |fs| && OverLimitAt(limits, fs, k) ==>
      exists j :: 0 <= j <= k && (OutOfPlaceAt(fs, j) || OverlookedAt(fs, j))
  }

  lemma StopsAt(limits: Limits, fs: seq<Frame>, k: nat)
    requires k < |fs|
    ensures OutOfPlaceAt(fs, k) || OverLimitAt(limits, fs, k) ==> Legal(limits, fs) <= k
    ensures OutOfPlaceAt(fs, k) || OverlookedAt(fs, k) ==> Lawful(fs) <= k
  {
    ViolatesExactly(limits, fs[..k], fs[k]);
  }

  /** What is wrong with the frame at which the code, or the RFC, stops. */
  lemma StopsThere(limits: Limits, fs: seq<Frame>)
    ensures var n := Legal(limits, fs); n < |fs| ==> OutOfPlaceAt(fs, n) || OverLimitAt(limits, fs, n)
    ensures var m := Lawful(fs); m < |fs| ==> OutOfPlaceAt(fs, m) || OverlookedAt(fs, m)
  {
    var n := Legal(limits, fs);
    if n < |fs| {
      ViolatesExactly(limits, fs[..n], fs[n]);
    }
  }

  lemma SameStop(limits: Limits, fs: seq<Frame>)
    requires Legal(limits, fs) == Lawful(fs)
    ensures OverlooksNothing(limits, fs) && LimitsNothing(limits, fs)
  {
    var n := Lawful(fs);
    StopsThere(limits, fs);
    forall k | 0 <= k < |fs|
      ensures OverlookedAt(fs, k) ==> exists j :: 0 <= j <= k && (OutOfPlaceAt(fs, j) || OverLimitAt(limits, fs, j))
      ensures OverLimitAt(limits, fs, k) ==> exists j :: 0 <= j <= k && (OutOfPlaceAt(fs, j) || OverlookedAt(fs, j))
    {
      StopsAt(limits, fs, k);
      if OverlookedAt(fs, k) || OverLimitAt(limits, fs, k) {
        assert n <= k;
      }
    }
  }

  lemma EarlyStop(limits: Limits, fs: seq<Frame>)
    requires Legal(limits, fs) < Lawful(fs)
    ensures !LimitsNothing(limits, fs)
  {
    var n := Legal(limits, fs);
    StopsThere(limits, fs);
    forall j | 0 <= j <= n
      ensures !OutOfPlaceAt(fs, j) && !OverlookedAt(fs, j)
    {
      StopsAt(limits, fs, j);
    }
  }

  lemma LateStop(limits: Limits, fs: seq<Frame>)
    requires Lawful(fs) < Legal(limits, fs)
    ensures !OverlooksNothing(limits, fs)
  {
    var m := Lawful(fs);
    StopsThere(limits, fs);
    forall j | 0 <= j <= m
      ensures !OutOfPlaceAt(fs, j) && !OverLimitAt(limits, fs, j)
    {
      StopsAt(limits, fs, j);
    }
  }

  /**
   The code stops at the first frame that breaks the RFC if and only if no frame that is unmasked, of a
   reserved opcode or an oversized control frame comes before the first one that is out of place or over the
   message limit, and none that is over the message limit before the first one that breaks the RFC.
   */
  lemma ConformsExactly(limits: Limits, fs: seq<Frame>)
    ensures Legal(limits, fs) == Lawful(fs) <==> OverlooksNothing(limits, fs) && LimitsNothing(limits, fs)
  {
    if Legal(limits, fs) == Lawful(fs) {
      SameStop(limits, fs);
    } else if Legal(limits, fs) < Lawful(fs) {
      EarlyStop(limits, fs);
    } else {
      LateStop(limits, fs);
    }
  }

  /**
   With no message limit: if and only if no overlooked frame comes before the first one that is out of place;
   and the code never stops before the RFC does.
   */
  lemma UnlimitedConformsExactly(limits: Limits, fs: seq<Frame>)
    requires limits.message == 0
    ensures Legal(limits, fs) == Lawful(fs) <==>
      forall k :: 0 <= k < |fs| && OverlookedAt(fs, k) ==> exists j :: 0 <= j <= k && OutOfPlaceAt(fs, j)
    ensures Lawful(fs) <= Legal(limits, fs)
  {
    ConformsExactly(limits, fs);
    assert forall k :: 0 <= k < |fs| ==> !OverLimitAt(limits, fs, k);
    if Legal(limits, fs) < Lawful(fs) {
      EarlyStop(limits, fs);
    }
  }

  /**
   A client that masks, uses the defined opcodes and keeps its control frames short: however its stream is
   cut, the engine delivers what the frames before the first violation of the RFC complete, and fails if
   and only if there is one.
   */
  lemma ConformingEndToEnd(limits: Limits, list: seq<Sent>, chunks: seq<bytes>)
    requires AllSendable(list) && Concat(chunks) == Stream(list) && Roomy(limits, [], chunks) && limits.message == 0
    requires forall k :: 0 <= k < |list| ==> !Overlooked(FrameOf(list[k]))
    ensures var d := Run(limits, true, Fresh, chunks); var fs := FramesOf(list);
      && d.events == Completed(limits, fs[..Lawful(fs)])
      && d.state.error == (Lawful(fs) < |fs|)
  {
    EndToEnd(limits, list, chunks);
    UnlimitedConformsExactly(limits, FramesOf(list));
    assert forall k :: 0 <= k < |list| ==> !OverlookedAt(FramesOf(list), k);
  }

  lemma OneFrameLegal(limits: Limits, f: Frame)
    requires f.fin && f.opcode != OPCODE_CONTINUATION
    ensures Legal(limits, [f]) == 1
    ensures Lawful([f]) == if Overlooked(f) then 0 else 1
  {
    assert Init([f]) == [] && Last([f]) == f;
    assert LastData([]).None?;
  }

  /** A Ping of 126 bytes breaks section 5.5, and is delivered however it is cut. */
  lemma LongPingDelivered(key: bytes, payload: bytes, chunks: seq<bytes>)
    requires |key| == 4 && |payload| == 126
    requires Concat(chunks) == Encoded(Sent(true, OPCODE_PING, MaskKey(key), payload))
    ensures var f := Frame(true, OPCODE_PING, true, payload); var unlimited := Limits(0, 0);
      && Lawful([f]) == 0 && Legal(unlimited, [f]) == 1
      && Run(unlimited, true, Fresh, chunks).events == [Control(f)]
      && Run(unlimited, false, Fresh, chunks).events == [Control(f)]
  {
    var s := Sent(true, OPCODE_PING, MaskKey(key), payload);
    OneFrameLegal(Limits(0, 0), FrameOf(s));
    DeliveredExactly(Limits(0, 0), true, s, chunks);
    DeliveredExactly(Limits(0, 0), false, s, chunks);
  }

  /** A reserved opcode and a missing mask are overlooked in the same way. */
  lemma OverlookedDelivered(limits: Limits, retest: bool, s: Sent, chunks: seq<bytes>)
    requires Sendable(s) && Concat(chunks) == Encoded(s) && s.fin && s.opcode != OPCODE_CONTINUATION
    requires Overlooked(FrameOf(s)) && limits.frame == 0
    ensures Lawful([FrameOf(s)]) == 0 && Legal(limits, [FrameOf(s)]) == 1
    ensures |Run(limits, retest, Fresh, chunks).events| == 1
  {
    OneFrameLegal(limits, FrameOf(s));
    DeliveredExactly(limits, retest, s, chunks);
  }

  /** The frame on its own breaks the RFC, and is accepted. */
  predicate AcceptedAgainst(limits: Limits, f: Frame) {
    Lawful([f]) == 0 && Legal(limits, [f]) == 1
  }

  /** Frames of a reserved data opcode, of a reserved control opcode, and without a mask. */
  lemma ThreeOverlooked(limits: Limits)
    ensures AcceptedAgainst(limits, Frame(true, 0x03, true, []))
    ensures AcceptedAgainst(limits, Frame(true, 0x0b, true, []))
    ensures AcceptedAgainst(limits, Frame(true, OPCODE_TEXT, false, []))
  {
    OneFrameLegal(limits, Frame(true, 0x03, true, []));
    OneFrameLegal(limits, Frame(true, 0x0b, true, []));
    OneFrameLegal(limits, Frame(true, OPCODE_TEXT, false, []));
  }

  /** get_frame itself refuses a frame exactly for its reserved bits. */
  lemma RefusedExactly(b: bytes)
    ensures DecodeFrame(b).Error? <==> |b| >= 2 && b[0] & 0x70 != 0
  {
  }
}
