/**
 framer_t on values, over whole runs: chunks are added, handlers are called, frames are taken, in any
 order. The buffer always stands at buffer_index in the stream, and every frame taken is the stretch of
 the stream its range names, so for a well-formed document the cutting of the input cannot be told.
 */
module FramerRuns {
  import opened Bytes
  import opened Framing

  /** framer_t without its parser: level, index, the list of frames, the buffer and where it stands. */
  datatype Framer = Framer(level: int, index: int, queue: seq<Range>, buffer: bytes, bufferIndex: int)

  const NewFramer := Framer(0, 0, [], [], 0)

  function ScanOf(f: Framer): Scan { Scan(f.level, f.index, f.queue) }

  /** framer_add: the parser calls the handlers, then the chunk is appended to the buffer. */
  function Add(f: Framer, chunk: bytes, markup: seq<Markup>): Framer {
    var s := ScanAll(ScanOf(f), markup);
    Framer(s.level, s.index, s.ranges, f.buffer + chunk, f.bufferIndex)
  }

  /** Bytes between the buffer's position and the first frame, such as line breaks between stanzas. */
  function Gap(f: Framer): nat
    requires f.queue != []
  {
    if f.queue[0].index > f.bufferIndex then f.queue[0].index - f.bufferIndex else 0
  }

  /** The first frame lies within the buffer. */
  predicate Takeable(f: Framer) {
    f.queue != [] && f.queue[0].size >= 0 && Gap(f) + f.queue[0].size <= |f.buffer|
  }

  /** framer_get_frame, and framer_get_frame2 before its copy is cut: the frame, and the framer without it. */
  function Get(f: Framer): (Framer, bytes)
    requires Takeable(f)
  {
    var gap, size := Gap(f), f.queue[0].size;
    (f.(queue := f.queue[1..], buffer := f.buffer[gap + size..], bufferIndex := f.bufferIndex + gap + size),
     f.buffer[gap..gap + size])
  }

  /** The gap dropped, a framer whose first frame begins its buffer. */
  function Skipped(f: Framer): Framer
    requires Takeable(f)
  {
    f.(buffer := f.buffer[Gap(f)..], bufferIndex := f.bufferIndex + Gap(f))
  }

  /** The first frame dropped from buffer and list. */
  function Dropped(f: Framer, size: nat): Framer
    requires f.queue != [] && size <= |f.buffer|
  {
    f.(queue := f.queue[1..], buffer := f.buffer[size..], bufferIndex := f.bufferIndex + size)
  }

  /** Taking a frame is skipping, copying and dropping. */
  lemma GetInSteps(f: Framer)
    requires Takeable(f)
    ensures var g, size := Skipped(f), f.queue[0].size;
      size <= |g.buffer| && Get(f) == (Dropped(g, size), g.buffer[..size])
  {
    var gap, size := Gap(f), f.queue[0].size;
    assert f.buffer[gap..][size..] == f.buffer[gap + size..];
    assert f.buffer[gap..][..size] == f.buffer[gap..gap + size];
  }

  datatype Act = AddChunk(chunk: bytes, markup: seq<Markup>) | GetFrame

  datatype Result = Result(framer: Framer, frames: seq<bytes>)

  /** A frame is taken when framer_has_frame says there is one. */
  function Perform(r: Result, act: Act): Result {
    match act
    case AddChunk(chunk, markup) => r.(framer := Add(r.framer, chunk, markup))
    case GetFrame =>
      if Takeable(r.framer) then var (f, frame) := Get(r.framer); Result(f, r.frames + [frame]) else r
  }

  function PerformAll(r: Result, acts: seq<Act>): Result
    decreases |acts|
  {
    if acts == [] then r else PerformAll(Perform(r, acts[0]), acts[1..])
  }

  function Input(acts: seq<Act>): bytes {
    if acts == [] then [] else (if acts[0].AddChunk? then acts[0].chunk else []) + Input(acts[1..])
  }

  function Calls(acts: seq<Act>): seq<Markup> {
    if acts == [] then [] else (if acts[0].AddChunk? then acts[0].markup else []) + Calls(acts[1..])
  }

  function MarkupEnd(m: Markup): nat { m.index + m.count }

  predicate EndBy(markup: seq<Markup>, length: nat) {
    forall i :: 0 <= i < |markup| ==> MarkupEnd(markup[i]) <= length
  }

  /** The parser reports nothing that lies beyond the bytes it has been given. */
  predicate Timely(length: nat, acts: seq<Act>)
    decreases |acts|
  {
    acts != [] ==>
      if acts[0].AddChunk? then
        EndBy(acts[0].markup, length + |acts[0].chunk|) && Timely(length + |acts[0].chunk|, acts[1..])
      else Timely(length, acts[1..])
  }

  // ---- Ranges and the part of the stream that has arrived ----

  predicate RangesEndBy(ranges: seq<Range>, length: int) {
    forall i :: 0 <= i < |ranges| ==> ranges[i].index + ranges[i].size <= length
  }

  lemma {:induction false} ScanEndsBy(s: Scan, markup: seq<Markup>, length: nat)
    requires EndBy(markup, length) && RangesEndBy(s.ranges, length)
    ensures RangesEndBy(ScanAll(s, markup).ranges, length)
    decreases |markup|
  {
    if markup != [] {
      assert MarkupEnd(markup[0]) <= length;
      ScanEndsBy(OnMarkup(s, markup[0]), markup[1..], length);
    }
  }

  /** A chain whose ranges have all arrived is a chain in what has arrived. */
  lemma {:induction false} ChainCap(ranges: seq<Range>, at: int, end: int, length: int)
    requires Chain(ranges, at, end) && at <= length && RangesEndBy(ranges, length)
    ensures Chain(ranges, at, length)
    decreases |ranges|
  {
    if ranges != [] {
      assert ranges[0].index + ranges[0].size <= length;
      assert forall i :: 0 <= i < |ranges| - 1 ==> ranges[1..][i] == ranges[i + 1];
      ChainCap(ranges[1..], ranges[0].index + ranges[0].size, end, length);
    }
  }

  lemma {:induction false} ChainPrefix(ranges: seq<Range>, k: nat, at: int, end: int)
    requires Chain(ranges, at, end) && k <= |ranges|
    ensures Chain(ranges[..k], at, end) && at <= end
    decreases |ranges|
  {
    if ranges != [] {
      var next := ranges[0].index + ranges[0].size;
      ChainPrefix(ranges[1..], if k == 0 then 0 else k - 1, next, end);
      if k > 0 {
        assert ranges[..k][0] == ranges[0] && ranges[..k][1..] == ranges[1..][..k - 1];
      }
    }
  }

  /** Where the first k ranges of a chain end. */
  function EndOf(ranges: seq<Range>, k: nat, at: int): int
    requires k <= |ranges|
  {
    if k == 0 then at else ranges[k - 1].index + ranges[k - 1].size
  }

  lemma {:induction false} ChainDrop(ranges: seq<Range>, k: nat, at: int, end: int)
    requires Chain(ranges, at, end) && k <= |ranges|
    ensures Chain(ranges[k..], EndOf(ranges, k, at), end) && at <= EndOf(ranges, k, at) <= end
    decreases |ranges|
  {
    if k == 0 {
      ChainPrefix(ranges, 0, at, end);
      assert ranges[0..] == ranges;
    } else {
      var next := ranges[0].index + ranges[0].size;
      ChainDrop(ranges[1..], k - 1, next, end);
      assert ranges[1..][k - 1..] == ranges[k..];
    }
  }

  /** More bytes do not change what has arrived. */
  lemma {:induction false} SliceStable(stream: bytes, x: bytes, ranges: seq<Range>, at: int)
    requires 0 <= at && Chain(ranges, at, |stream|)
    ensures SliceAll(stream + x, ranges) == SliceAll(stream, ranges)
    decreases |ranges|
  {
    if ranges != [] {
      var r := ranges[0];
      ChainPrefix(ranges[1..], 0, r.index + r.size, |stream|);
      assert (stream + x)[r.index..r.index + r.size] == stream[r.index..r.index + r.size];
      SliceStable(stream, x, ranges[1..], r.index + r.size);
    }
  }

  // ---- The alignment invariant ----

  /**
   After the bytes `stream` and the handler calls `markup`: the list holds the ranges recorded and not
   yet taken, the buffer is the stream from buffer_index on, and what was taken is what the ranges name.
   */
  predicate Aligned(r: Result, stream: bytes, markup: seq<Markup>) {
    var s, f, taken := ScanAll(Unscanned, markup), r.framer, |r.frames|;
    && f.level == s.level && f.index == s.index
    && taken <= |s.ranges| && f.queue == s.ranges[taken..]
    && f.bufferIndex == EndOf(s.ranges, taken, 0)
    && 0 <= f.bufferIndex <= |stream| && f.buffer == stream[f.bufferIndex..]
    && r.frames == SliceAll(stream, s.ranges[..taken])
    && Chain(s.ranges, 0, |stream|)
  }

  /** A list that is not empty can be taken from: its first range is inside the buffer and not behind it. */
  lemma AlignedTakeable(r: Result, stream: bytes, markup: seq<Markup>)
    requires Aligned(r, stream, markup) && r.framer.queue != []
    ensures Takeable(r.framer) && r.framer.bufferIndex <= r.framer.queue[0].index
    ensures Get(r.framer).1 == Slice(stream, r.framer.queue[0])
  {
    var s, f := ScanAll(Unscanned, markup), r.framer;
    ChainDrop(s.ranges, |r.frames|, 0, |stream|);
    var head := f.queue[0];
    ChainPrefix(f.queue[1..], 0, head.index + head.size, |stream|);
    var gap := head.index - f.bufferIndex;
    assert stream[f.bufferIndex..][gap..gap + head.size] == stream[head.index..head.index + head.size];
  }

  lemma GetAligned(r: Result, stream: bytes, markup: seq<Markup>)
    requires Aligned(r, stream, markup)
    ensures Aligned(Perform(r, GetFrame), stream, markup)
  {
    var ranges, f, k := ScanAll(Unscanned, markup).ranges, r.framer, |r.frames|;
    if f.queue != [] {
      AlignedTakeable(r, stream, markup);
      ChainDrop(ranges, k + 1, 0, |stream|);
      assert f.queue[0] == ranges[k] && f.queue[1..] == ranges[k + 1..];
      assert ranges[..k + 1] == ranges[..k] + [ranges[k]];
      SliceJoin(stream, ranges[..k], [ranges[k]]);
      var used := Gap(f) + f.queue[0].size;
      assert stream[f.bufferIndex..][used..] == stream[f.bufferIndex + used..];
    }
  }

  lemma AddAligned(r: Result, stream: bytes, markup: seq<Markup>, chunk: bytes, more: seq<Markup>)
    requires Aligned(r, stream, markup)
    requires Chain(ScanAll(Unscanned, markup + more).ranges, 0, |stream + chunk|)
    ensures Aligned(Perform(r, AddChunk(chunk, more)), stream + chunk, markup + more)
  {
    var s, t, k := ScanAll(Unscanned, markup), ScanAll(Unscanned, markup + more), |r.frames|;
    ScanAppend(Unscanned, markup, more);
    ScanOnlyAdds(s, more);
    ScanShift(s, k, more);
    ChainPrefix(s.ranges, k, 0, |stream|);
    SliceStable(stream, chunk, s.ranges[..k], 0);
    assert t.ranges[..k] == s.ranges[..k];
    assert (stream + chunk)[r.framer.bufferIndex..] == stream[r.framer.bufferIndex..] + chunk;
  }

  /** Having taken the first k ranges makes no difference to what the handlers record. */
  lemma {:induction false} ScanShift(s: Scan, k: nat, markup: seq<Markup>)
    requires k <= |s.ranges|
    ensures var t := ScanAll(s, markup);
      k <= |t.ranges| && ScanAll(s.(ranges := s.ranges[k..]), markup) == t.(ranges := t.ranges[k..])
    decreases |markup|
  {
    if markup != [] {
      var t := OnMarkup(s, markup[0]);
      assert OnMarkup(s.(ranges := s.ranges[k..]), markup[0]) == t.(ranges := t.ranges[k..]);
      ScanShift(t, k, markup[1..]);
    }
  }

  /** Frames taken for as long as there are any: the second loop of cm_readcb. */
  function Drained(r: Result): Result
    decreases |r.framer.queue|
  {
    if Takeable(r.framer) then Drained(Perform(r, Act.GetFrame)) else r
  }

  /** Draining leaves no frame behind: everything recorded has been taken, in order. */
  lemma {:induction false} DrainTakesAll(r: Result, stream: bytes, markup: seq<Markup>)
    requires Aligned(r, stream, markup)
    ensures var q := Drained(r);
      && Aligned(q, stream, markup) && q.framer.queue == []
      && q.frames == SliceAll(stream, ScanAll(Unscanned, markup).ranges)
    decreases |r.framer.queue|
  {
    var ranges := ScanAll(Unscanned, markup).ranges;
    if r.framer.queue == [] {
      assert ranges[..|r.frames|] == ranges;
    } else {
      AlignedTakeable(r, stream, markup);
      GetAligned(r, stream, markup);
      DrainTakesAll(Perform(r, GetFrame), stream, markup);
    }
  }

  // ---- Documents ----

  predicate WellFormed(d: Document) {
    d.open != [] && NoStreams(d.items) && Tagged(d.items) && Namespaced(d.items)
  }

  /** What is recorded after a beginning of a document's handler calls is a beginning of its frames. */
  lemma PrefixRecorded(d: Document, markup: seq<Markup>, length: nat)
    requires WellFormed(d) && markup <= DocumentMarkup(d) && EndBy(markup, length)
    ensures var ranges := ScanAll(Unscanned, markup).ranges;
      ranges <= FrameRanges(d) && Chain(ranges, 0, length)
  {
    var rest := DocumentMarkup(d)[|markup|..];
    assert DocumentMarkup(d) == markup + rest;
    ScanAppend(Unscanned, markup, rest);
    var s := ScanAll(Unscanned, markup);
    ScanOnlyAdds(s, rest);
    DocumentRecorded(d);
    DocumentSliced(d);
    assert s.ranges == FrameRanges(d)[..|s.ranges|];
    ChainPrefix(FrameRanges(d), |s.ranges|, 0, |DocumentBytes(d)|);
    ScanEndsBy(Unscanned, markup, length);
    ChainCap(s.ranges, 0, |DocumentBytes(d)|, length);
  }

  lemma {:induction false} RunAligned(d: Document, r: Result, stream: bytes, markup: seq<Markup>, acts: seq<Act>)
    requires WellFormed(d) && Aligned(r, stream, markup) && EndBy(markup, |stream|) && Timely(|stream|, acts)
    requires markup + Calls(acts) <= DocumentMarkup(d)
    ensures Aligned(PerformAll(r, acts), stream + Input(acts), markup + Calls(acts))
    ensures EndBy(markup + Calls(acts), |stream + Input(acts)|)
    decreases |acts|
  {
    if acts == [] {
      assert stream + [] == stream && markup + [] == markup;
    } else if acts[0].GetFrame? {
      GetAligned(r, stream, markup);
      assert [] + Input(acts[1..]) == Input(acts[1..]) && [] + Calls(acts[1..]) == Calls(acts[1..]);
      RunAligned(d, Perform(r, acts[0]), stream, markup, acts[1..]);
    } else {
      var chunk, more := acts[0].chunk, acts[0].markup;
      Assoc(stream, chunk, Input(acts[1..]));
      Assoc(markup, more, Calls(acts[1..]));
      assert markup + more <= DocumentMarkup(d);
      PrefixRecorded(d, markup + more, |stream + chunk|);
      AddAligned(r, stream, markup, chunk, more);
      RunAligned(d, Perform(r, acts[0]), stream + chunk, markup + more, acts[1..]);
    }
  }

  /**
   Every run over a beginning of a well-formed document: the frames taken are the first of its frames,
   the list holds the others recorded so far and can always be taken from, and once every handler call
   has been made and the list is empty the frames are exactly the document's.
   */
  lemma FramesOfDocument(d: Document, acts: seq<Act>)
    requires WellFormed(d) && Timely(0, acts)
    requires Input(acts) <= DocumentBytes(d) && Calls(acts) <= DocumentMarkup(d)
    ensures var r := PerformAll(Result(NewFramer, []), acts);
      && Aligned(r, Input(acts), Calls(acts))
      && r.frames <= Frames(d)
      && (r.framer.queue != [] ==> Takeable(r.framer))
      && (Calls(acts) == DocumentMarkup(d) ==> |r.frames| + |r.framer.queue| == |Frames(d)|)
      && (Calls(acts) == DocumentMarkup(d) && r.framer.queue == [] ==> r.frames == Frames(d))
  {
    var r, stream, markup := PerformAll(Result(NewFramer, []), acts), Input(acts), Calls(acts);
    assert [] + stream == stream && [] + markup == markup;
    RunAligned(d, Result(NewFramer, []), [], [], acts);
    FirstFrames(d, r, stream, markup);
    if r.framer.queue != [] {
      AlignedTakeable(r, stream, markup);
    }
  }

  /** An aligned framer has taken the first frames of the document and holds those recorded since. */
  lemma FirstFrames(d: Document, r: Result, stream: bytes, markup: seq<Markup>)
    requires WellFormed(d) && Aligned(r, stream, markup) && EndBy(markup, |stream|)
    requires stream <= DocumentBytes(d) && markup <= DocumentMarkup(d)
    ensures r.frames <= Frames(d)
    ensures markup == DocumentMarkup(d) ==>
      |r.frames| + |r.framer.queue| == |Frames(d)| && (r.framer.queue == [] ==> r.frames == Frames(d))
  {
    var ranges, unread := ScanAll(Unscanned, markup).ranges, DocumentBytes(d)[|stream|..];
    PrefixRecorded(d, markup, |stream|);
    ChainPrefix(ranges, |r.frames|, 0, |stream|);
    var taken, others := ranges[..|r.frames|], FrameRanges(d)[|r.frames|..];
    assert FrameRanges(d) == taken + others && DocumentBytes(d) == stream + unread;
    TakenPrefix(d, taken, others, stream, unread);
    if markup == DocumentMarkup(d) {
      DocumentRecorded(d);
      DocumentSliced(d);
    }
  }

  lemma TakenPrefix(d: Document, taken: seq<Range>, others: seq<Range>, stream: bytes, unread: bytes)
    requires DocumentBytes(d) == stream + unread && FrameRanges(d) == taken + others
    requires Chain(taken, 0, |stream|)
    ensures SliceAll(stream, taken) <= Frames(d)
  {
    SliceStable(stream, unread, taken, 0);
    DocumentSliced(d);
    SliceJoin(stream + unread, taken, others);
  }

  /** Two ways of cutting, and of interleaving additions with extractions, give the same frames. */
  lemma CuttingDoesNotShow(d: Document, a: seq<Act>, b: seq<Act>)
    requires WellFormed(d) && Timely(0, a) && Timely(0, b)
    requires Input(a) == DocumentBytes(d) == Input(b) && Calls(a) == DocumentMarkup(d) == Calls(b)
    requires PerformAll(Result(NewFramer, []), a).framer.queue == []
    requires PerformAll(Result(NewFramer, []), b).framer.queue == []
    ensures PerformAll(Result(NewFramer, []), a).frames == PerformAll(Result(NewFramer, []), b).frames
  {
    FramesOfDocument(d, a);
    FramesOfDocument(d, b);
  }

  // ---- A stanza without a namespace ----

  /**
   A root and one stanza that carries no namespace: its frame is recorded from the beginning of the stream.
   Once the root's tag has been taken, taking it would need more bytes than the buffer holds.
   */
  lemma BareStanza(open: bytes, item: Item)
    requires open != [] && item.Element? && !item.ns && NoStream(item)
    ensures var d := Document([], open, [item], false, []);
      var acts := [AddChunk(DocumentBytes(d), DocumentMarkup(d)), Act.GetFrame];
      var r := PerformAll(Result(NewFramer, []), acts);
      && r.frames == [open] && r.framer.buffer == ItemBytes(item)
      && r.framer.queue == [Range(0, |open| + |ItemBytes(item)|)]
      && r.framer.bufferIndex == |open| && !Takeable(r.framer)
  {
    var d := Document([], open, [item], false, []);
    var r := Perform(Result(NewFramer, []), AddChunk(DocumentBytes(d), DocumentMarkup(d)));
    BareStanzaAdded(open, item);
    var gap, size := Gap(r.framer), r.framer.queue[0].size;
    assert gap == 0 && r.framer.buffer == open + ItemBytes(item);
    Halves(open, ItemBytes(item));
    TwoActs(Result(NewFramer, []), AddChunk(DocumentBytes(d), DocumentMarkup(d)), Act.GetFrame);
  }

  lemma TwoActs(r: Result, a: Act, b: Act)
    ensures PerformAll(r, [a, b]) == Perform(Perform(r, a), b)
  {
    assert [a, b][1..] == [b] && [b][1..] == [];
    assert PerformAll(Perform(r, a), [b]) == PerformAll(Perform(Perform(r, a), b), []);
  }

  lemma BareStanzaAdded(open: bytes, item: Item)
    requires open != [] && item.Element? && !item.ns && NoStream(item)
    ensures var d := Document([], open, [item], false, []);
      Add(NewFramer, DocumentBytes(d), DocumentMarkup(d))
      == Framer(1, 0, [Range(0, |open|), Range(0, |open| + |ItemBytes(item)|)], open + ItemBytes(item), 0)
  {
    var d := Document([], open, [item], false, []);
    var root := Start(true, true, 0, |open|);
    var rooted := Scan(1, 0, [Range(0, |open|)]);
    assert ItemsMarkup([], |open| + |ItemBytes(item)|) == [] && ItemsBytes([]) == [];
    assert ItemsMarkup([item], |open|) == ItemMarkup(item, |open|);
    assert ItemsBytes([item]) == ItemBytes(item);
    assert DocumentMarkup(d) == [root] + ItemMarkup(item, |open|);
    assert DocumentBytes(d) == open + ItemBytes(item);
    ScanAppend(Unscanned, [root], ItemMarkup(item, |open|));
    assert ScanAll(Unscanned, [root]) == rooted;
    StanzaRecorded(rooted, item, |open|);
    assert [] + (open + ItemBytes(item)) == open + ItemBytes(item);
  }
}
