/**
 The XML stream framer of framer.c on values: what its Expat handlers record, what it cuts out of
 its buffer, and the proof that for a well-formed stream the frames are the root's open tag, the
 bytes of every depth-1 element, and the root's close tag, however the input was cut.
 */
module Framing {
  import opened Bytes

  /**
   A handler call: whether the name carries a namespace and is "stream", and the byte index and
   count Expat reports. An empty-element tag starts with its whole tag and ends with no bytes.
   */
  datatype Markup =
    | Start(ns: bool, stream: bool, index: nat, count: nat)
    | End(ns: bool, stream: bool, index: nat, count: nat)

  /** frame_t: where a frame begins in the stream and how long it is. */
  datatype Range = Range(index: int, size: int)

  /** level and index of framer_t, and every range added to its list so far. */
  datatype Scan = Scan(level: int, index: int, ranges: seq<Range>)

  const Unscanned := Scan(0, 0, [])

  /** framer_start. */
  function OnStart(s: Scan, m: Markup): Scan
    requires m.Start?
  {
    if m.ns && m.stream then Scan(1, s.index, s.ranges + [Range(m.index, m.count)])
    else if m.ns && s.level == 1 then Scan(2, m.index, s.ranges)
    else s.(level := s.level + 1)
  }

  /** framer_end. */
  function OnEnd(s: Scan, m: Markup): Scan
    requires m.End?
  {
    var t := s.(level := s.level - 1);
    if t.level == 1 then t.(ranges := s.ranges + [Range(s.index, m.index + m.count - s.index)])
    else if m.ns && m.stream then t.(ranges := s.ranges + [Range(m.index, m.count)])
    else t
  }

  function OnMarkup(s: Scan, m: Markup): Scan {
    if m.Start? then OnStart(s, m) else OnEnd(s, m)
  }

  function ScanAll(s: Scan, ms: seq<Markup>): Scan
    decreases |ms|
  {
    if ms == [] then s else ScanAll(OnMarkup(s, ms[0]), ms[1..])
  }

  lemma {:induction false} ScanAppend(s: Scan, a: seq<Markup>, b: seq<Markup>)
    ensures ScanAll(s, a + b) == ScanAll(ScanAll(s, a), b)
    decreases |a|
  {
    if a == [] {
      assert a + b == b;
    } else {
      assert (a + b)[0] == a[0] && (a + b)[1..] == a[1..] + b;
      ScanAppend(OnMarkup(s, a[0]), a[1..], b);
    }
  }

  /** Ranges are only ever added at the end. */
  lemma {:induction false} ScanOnlyAdds(s: Scan, ms: seq<Markup>)
    ensures s.ranges <= ScanAll(s, ms).ranges
    decreases |ms|
  {
    if ms != [] {
      ScanOnlyAdds(OnMarkup(s, ms[0]), ms[1..]);
    }
  }

  // ---- Documents ----

  datatype Item =
    | Text(raw: bytes)
    | Element(open: bytes, ns: bool, stream: bool, kids: seq<Item>, close: bytes)

  /** A stream: what precedes the root, its open tag, what it holds so far, and its close tag if there. */
  datatype Document = Document(prolog: bytes, open: bytes, items: seq<Item>, closed: bool, close: bytes)

  function ItemBytes(item: Item): bytes
    decreases item, 0
  {
    match item
    case Text(raw) => raw
    case Element(open, _, _, kids, close) => open + ItemsBytes(kids) + close
  }

  function ItemsBytes(items: seq<Item>): bytes
    decreases items, 1
  {
    if items == [] then [] else ItemBytes(items[0]) + ItemsBytes(items[1..])
  }

  /** The handler calls for an item that begins at byte `at`. */
  function ItemMarkup(item: Item, at: nat): seq<Markup>
    decreases item, 0
  {
    match item
    case Text(_) => []
    case Element(open, ns, stream, kids, close) =>
      [Start(ns, stream, at, |open|)]
      + ItemsMarkup(kids, at + |open|)
      + [End(ns, stream, at + |open| + |ItemsBytes(kids)|, |close|)]
  }

  function ItemsMarkup(items: seq<Item>, at: nat): seq<Markup>
    decreases items, 1
  {
    if items == [] then [] else ItemMarkup(items[0], at) + ItemsMarkup(items[1..], at + |ItemBytes(items[0])|)
  }

  function Content(d: Document): nat { |d.prolog| + |d.open| }

  function DocumentBytes(d: Document): bytes {
    d.prolog + d.open + ItemsBytes(d.items) + if d.closed then d.close else []
  }

  function DocumentMarkup(d: Document): seq<Markup> {
    [Start(true, true, |d.prolog|, |d.open|)]
    + ItemsMarkup(d.items, Content(d))
    + if d.closed then [End(true, true, Content(d) + |ItemsBytes(d.items)|, |d.close|)] else []
  }

  /** No element here, at any depth, is a namespaced "stream". */
  predicate NoStream(item: Item)
    decreases item, 0
  {
    item.Element? ==> !(item.ns && item.stream) && NoStreams(item.kids)
  }

  predicate NoStreams(items: seq<Item>)
    decreases items, 1
  {
    items != [] ==> NoStream(items[0]) && NoStreams(items[1..])
  }

  /** Every stanza, that is every element directly under the root, carries a namespace. */
  predicate Namespaced(items: seq<Item>) {
    forall i :: 0 <= i < |items| && items[i].Element? ==> items[i].ns
  }

  /** A tag has at least one byte. */
  predicate Tagged(items: seq<Item>) {
    forall i :: 0 <= i < |items| && items[i].Element? ==> items[i].open != []
  }

  /** What should be cut out: the bytes of each element, in order. */
  function Stanzas(items: seq<Item>): seq<bytes> {
    if items == [] then [] else
    (if items[0].Element? then [ItemBytes(items[0])] else []) + Stanzas(items[1..])
  }

  function Frames(d: Document): seq<bytes> {
    [d.open] + Stanzas(d.items) + if d.closed then [d.close] else []
  }

  /** Where those bytes are. */
  function StanzaRanges(items: seq<Item>, at: nat): seq<Range> {
    if items == [] then [] else
    (if items[0].Element? then [Range(at, |ItemBytes(items[0])|)] else [])
    + StanzaRanges(items[1..], at + |ItemBytes(items[0])|)
  }

  function FrameRanges(d: Document): seq<Range> {
    [Range(|d.prolog|, |d.open|)]
    + StanzaRanges(d.items, Content(d))
    + if d.closed then [Range(Content(d) + |ItemsBytes(d.items)|, |d.close|)] else []
  }

  // ---- What the handlers record for a document ----

  /** Below the stanzas nothing is recorded and the level comes back. */
  lemma {:induction false} DeepItem(s: Scan, item: Item, at: nat)
    requires s.level >= 2 && NoStream(item)
    ensures ScanAll(s, ItemMarkup(item, at)) == s
    decreases item, 0
  {
    if item.Element? {
      var first := Start(item.ns, item.stream, at, |item.open|);
      var inner := ItemsMarkup(item.kids, at + |item.open|);
      var last := End(item.ns, item.stream, at + |item.open| + |ItemsBytes(item.kids)|, |item.close|);
      var entered := OnStart(s, first);
      DeepItems(entered, item.kids, at + |item.open|);
      Nested(s, first, inner, last);
    }
  }

  lemma {:induction false} DeepItems(s: Scan, items: seq<Item>, at: nat)
    requires s.level >= 2 && NoStreams(items)
    ensures ScanAll(s, ItemsMarkup(items, at)) == s
    decreases items, 1
  {
    if items != [] {
      var next := at + |ItemBytes(items[0])|;
      ScanAppend(s, ItemMarkup(items[0], at), ItemsMarkup(items[1..], next));
      DeepItem(s, items[0], at);
      DeepItems(s, items[1..], next);
    }
  }

  lemma Nested(s: Scan, first: Markup, inner: seq<Markup>, last: Markup)
    ensures ScanAll(s, [first] + inner + [last]) == OnMarkup(ScanAll(OnMarkup(s, first), inner), last)
  {
    ScanAppend(s, [first] + inner, [last]);
    ScanAppend(s, [first], inner);
  }

  lemma StanzaOpened(s: Scan, m: Markup)
    requires s.level == 1 && m.Start? && !(m.ns && m.stream)
    ensures OnMarkup(s, m) == Scan(2, if m.ns then m.index else s.index, s.ranges)
  {
  }

  lemma StanzaClosed(s: Scan, m: Markup, end: nat)
    requires s.level == 2 && m.End? && m.index + m.count == end
    ensures OnMarkup(s, m) == Scan(1, s.index, s.ranges + [Range(s.index, end - s.index)])
  {
  }

  lemma StanzaScanned(s: Scan, entered: Scan, first: Markup, inner: seq<Markup>, last: Markup, end: nat)
    requires OnMarkup(s, first) == entered && entered.level == 2 && ScanAll(entered, inner) == entered
    requires last.End? && last.index + last.count == end
    ensures ScanAll(s, [first] + inner + [last])
      == Scan(1, entered.index, entered.ranges + [Range(entered.index, end - entered.index)])
  {
    Nested(s, first, inner, last);
    StanzaClosed(entered, last, end);
  }

  /** A stanza is recorded from its own start if it carries a namespace, and otherwise from a stale one. */
  lemma StanzaRecorded(s: Scan, item: Item, at: nat)
    requires s.level == 1 && item.Element? && NoStream(item)
    ensures var index := if item.ns then at else s.index;
      ScanAll(s, ItemMarkup(item, at)) == Scan(1, index, s.ranges + [Range(index, at + |ItemBytes(item)| - index)])
  {
    var first := Start(item.ns, item.stream, at, |item.open|);
    var inner := ItemsMarkup(item.kids, at + |item.open|);
    var last := End(item.ns, item.stream, at + |item.open| + |ItemsBytes(item.kids)|, |item.close|);
    var entered := Scan(2, if item.ns then at else s.index, s.ranges);
    StanzaOpened(s, first);
    DeepItems(entered, item.kids, at + |item.open|);
    StanzaScanned(s, entered, first, inner, last, at + |ItemBytes(item)|);
  }

  /** The ranges recorded for these items are the stanzas' own, if and only if every stanza carries a namespace. */
  predicate Recorded(s: Scan, items: seq<Item>, at: nat) {
    var t := ScanAll(s, ItemsMarkup(items, at));
    && t.level == 1 && s.ranges <= t.ranges && |t.ranges| == |s.ranges| + |StanzaRanges(items, at)|
    && (t.ranges[|s.ranges|..] == StanzaRanges(items, at) <==> Namespaced(items))
  }

  /** What the first item, if it is a stanza, does to the handlers' state. */
  lemma FirstStanza(s: Scan, items: seq<Item>, at: nat) returns (u: Scan)
    requires s.level == 1 && items != [] && items[0].Element? && NoStream(items[0])
    ensures var next := at + |ItemBytes(items[0])|; var index := if items[0].ns then at else s.index;
      && u == Scan(1, index, s.ranges + [Range(index, next - index)])
      && ScanAll(s, ItemsMarkup(items, at)) == ScanAll(u, ItemsMarkup(items[1..], next))
  {
    var next := at + |ItemBytes(items[0])|;
    StanzaRecorded(s, items[0], at);
    ScanAppend(s, ItemMarkup(items[0], at), ItemsMarkup(items[1..], next));
    u := ScanAll(s, ItemMarkup(items[0], at));
  }

  lemma {:induction false} StanzasRecorded(s: Scan, items: seq<Item>, at: nat)
    requires s.level == 1 && s.index < at && NoStreams(items) && Tagged(items)
    ensures Recorded(s, items, at)
    decreases |items|
  {
    if items != [] {
      var next := at + |ItemBytes(items[0])|;
      NamespacedCons(items);
      if items[0].Element? {
        var u := FirstStanza(s, items, at);
        StanzasRecorded(u, items[1..], next);
        ElementRecorded(s, items, at);
      } else {
        ScanAppend(s, [], ItemsMarkup(items[1..], next));
        StanzasRecorded(s, items[1..], next);
        assert [] + StanzaRanges(items[1..], next) == StanzaRanges(items[1..], next);
      }
    }
  }

  lemma ElementRecorded(s: Scan, items: seq<Item>, at: nat)
    requires s.index < at && items != [] && items[0].Element?
    requires Namespaced(items) <==> items[0].ns && Namespaced(items[1..])
    requires var next := at + |ItemBytes(items[0])|; var index := if items[0].ns then at else s.index;
      var u := Scan(1, index, s.ranges + [Range(index, next - index)]);
      Recorded(u, items[1..], next) && ScanAll(s, ItemsMarkup(items, at)) == ScanAll(u, ItemsMarkup(items[1..], next))
    ensures Recorded(s, items, at)
  {
    var next := at + |ItemBytes(items[0])|;
    var index := if items[0].ns then at else s.index;
    OneMore(s.ranges, Range(index, next - index), ScanAll(s, ItemsMarkup(items, at)).ranges,
            Range(at, next - at), StanzaRanges(items[1..], next));
  }

  lemma OneMore<T>(a: seq<T>, x: T, whole: seq<T>, y: T, ys: seq<T>)
    requires a + [x] <= whole
    ensures a <= whole
    ensures whole[|a|..] == [y] + ys <==> x == y && whole[|a| + 1..] == ys
  {
    Tail(a, x, whole);
    Cons(x, whole[|a| + 1..], y, ys);
    assert a == (a + [x])[..|a|] == whole[..|a|];
  }

  lemma NamespacedCons(items: seq<Item>)
    requires items != []
    ensures Namespaced(items) <==> (items[0].Element? ==> items[0].ns) && Namespaced(items[1..])
  {
    if Namespaced(items[1..]) && (items[0].Element? ==> items[0].ns) {
      forall i | 0 <= i < |items| && items[i].Element?
        ensures items[i].ns
      {
        assert i > 0 ==> items[i] == items[1..][i - 1];
      }
    }
  }

  lemma Tail<T>(a: seq<T>, x: T, whole: seq<T>)
    requires a + [x] <= whole
    ensures whole[|a|..] == [x] + whole[|a| + 1..]
  {
    assert whole[|a|] == (a + [x])[|a|];
  }

  lemma Cons<T>(x: T, xs: seq<T>, y: T, ys: seq<T>)
    ensures [x] + xs == [y] + ys <==> x == y && xs == ys
  {
    if [x] + xs == [y] + ys {
      assert ([x] + xs)[0] == x && ([y] + ys)[0] == y;
      assert ([x] + xs)[1..] == xs && ([y] + ys)[1..] == ys;
    }
  }

  /**
   A stream that begins in any state of the handlers, in the middle of other elements or behind other
   streams: recorded behind what was there are the root's open tag, every stanza, and the close tag if it has
   come, if and only if every stanza carries a namespace.
   */
  lemma RestartRecorded(s: Scan, d: Document)
    requires s.index < Content(d) && NoStreams(d.items) && Tagged(d.items)
    ensures ScanAll(s, DocumentMarkup(d)).ranges == s.ranges + FrameRanges(d) <==> Namespaced(d.items)
  {
    var first := Start(true, true, |d.prolog|, |d.open|);
    var inner := ItemsMarkup(d.items, Content(d));
    var at := Content(d) + |ItemsBytes(d.items)|;
    var last := if d.closed then [End(true, true, at, |d.close|)] else [];
    var u := OnStart(s, first);
    ScanAppend(s, [first] + inner, last);
    ScanAppend(s, [first], inner);
    StanzasRecorded(u, d.items, Content(d));
    var t := ScanAll(u, inner);
    var close := if d.closed then [Range(at, |d.close|)] else [];
    assert ScanAll(s, DocumentMarkup(d)).ranges == t.ranges + close;
    Between(s.ranges, Range(|d.prolog|, |d.open|), t.ranges, StanzaRanges(d.items, Content(d)), close);
  }

  lemma Between<T>(before: seq<T>, root: T, all: seq<T>, stanzas: seq<T>, close: seq<T>)
    requires before + [root] <= all && |all| == |before| + 1 + |stanzas|
    ensures all + close == before + ([root] + stanzas + close) <==> all[|before| + 1..] == stanzas
  {
    var n := |before| + 1;
    assert all == before + [root] + all[n..];
    Assoc4(before, [root], stanzas, close);
    if all + close == before + ([root] + stanzas + close) {
      assert (all + close)[n..|all|] == all[n..];
      assert (before + [root] + stanzas + close)[n..|all|] == stanzas;
    }
  }

  /**
   What the handlers record for a whole stream whose only namespaced "stream" element is the root:
   the root's open tag, every stanza, the close tag if it has come; and this is so if and only if
   every stanza carries a namespace.
   */
  lemma DocumentRecorded(d: Document)
    requires d.open != [] && NoStreams(d.items) && Tagged(d.items)
    ensures ScanAll(Unscanned, DocumentMarkup(d)).ranges == FrameRanges(d) <==> Namespaced(d.items)
  {
    RestartRecorded(Unscanned, d);
    assert [] + FrameRanges(d) == FrameRanges(d);
  }

  // ---- The ranges are where the frames are ----

  function Slice(stream: bytes, r: Range): bytes {
    if 0 <= r.index && 0 <= r.size && r.index + r.size <= |stream| then stream[r.index..r.index + r.size] else []
  }

  function SliceAll(stream: bytes, ranges: seq<Range>): (r: seq<bytes>)
    ensures |r| == |ranges|
  {
    if ranges == [] then [] else [Slice(stream, ranges[0])] + SliceAll(stream, ranges[1..])
  }

  /** Disjoint and increasing, from byte `at` on and by byte `end`. */
  predicate Chain(ranges: seq<Range>, at: int, end: int) {
    if ranges == [] then at <= end
    else at <= ranges[0].index && 0 <= ranges[0].size && Chain(ranges[1..], ranges[0].index + ranges[0].size, end)
  }

  lemma {:induction false} ChainJoin(a: seq<Range>, b: seq<Range>, at: int, mid: int, end: int)
    requires Chain(a, at, mid) && Chain(b, mid, end)
    ensures Chain(a + b, at, end)
    decreases |a|
  {
    if a == [] {
      assert a + b == b;
      ChainFrom(b, at, mid, end);
    } else {
      assert (a + b)[0] == a[0] && (a + b)[1..] == a[1..] + b;
      ChainJoin(a[1..], b, a[0].index + a[0].size, mid, end);
    }
  }

  lemma ChainFrom(ranges: seq<Range>, at: int, mid: int, end: int)
    requires at <= mid && Chain(ranges, mid, end)
    ensures Chain(ranges, at, end)
  {
    if ranges == [] {
    }
  }

  lemma {:induction false} SliceJoin(stream: bytes, a: seq<Range>, b: seq<Range>)
    ensures SliceAll(stream, a + b) == SliceAll(stream, a) + SliceAll(stream, b)
    decreases |a|
  {
    if a == [] {
      assert a + b == b;
    } else {
      assert (a + b)[0] == a[0] && (a + b)[1..] == a[1..] + b;
      SliceJoin(stream, a[1..], b);
    }
  }

  lemma {:induction false} StanzasChain(items: seq<Item>, at: nat)
    ensures Chain(StanzaRanges(items, at), at, at + |ItemsBytes(items)|)
    decreases |items|
  {
    if items != [] {
      var next := at + |ItemBytes(items[0])|;
      StanzasChain(items[1..], next);
      var rest := StanzaRanges(items[1..], next);
      if items[0].Element? {
        assert StanzaRanges(items, at)[0] == Range(at, next - at) && StanzaRanges(items, at)[1..] == rest;
      } else {
        assert [] + rest == rest;
        ChainFrom(rest, at, next, at + |ItemsBytes(items)|);
      }
    }
  }

  lemma {:induction false} StanzasSliced(before: bytes, items: seq<Item>, after: bytes)
    ensures SliceAll(before + ItemsBytes(items) + after, StanzaRanges(items, |before|)) == Stanzas(items)
    decreases |items|
  {
    if items != [] {
      var item, rest := ItemBytes(items[0]), ItemsBytes(items[1..]);
      var stream := before + ItemsBytes(items) + after;
      Rebracket(before, item, rest, after);
      StanzasSliced(before + item, items[1..], after);
      Middle(before, item, rest + after);
      var ranges := StanzaRanges(items[1..], |before + item|);
      if items[0].Element? {
        SliceJoin(stream, [Range(|before|, |item|)], ranges);
        assert SliceAll(stream, [Range(|before|, |item|)]) == [item];
      } else {
        assert [] + ranges == ranges && [] + Stanzas(items[1..]) == Stanzas(items[1..]);
      }
    }
  }

  lemma Rebracket(a: bytes, b: bytes, c: bytes, d: bytes)
    ensures a + (b + c) + d == (a + b) + c + d
    ensures a + (b + c) + d == a + b + (c + d)
  {
    Assoc(a, b, c);
    Assoc(a + b, c, d);
  }

  /** The recorded ranges of a document are its frames, in order and apart. */
  lemma DocumentSliced(d: Document)
    ensures Chain(FrameRanges(d), 0, |DocumentBytes(d)|)
    ensures SliceAll(DocumentBytes(d), FrameRanges(d)) == Frames(d)
  {
    var items, close := ItemsBytes(d.items), if d.closed then d.close else [];
    var before := d.prolog + d.open;
    var at := |before| + |items|;
    var root, ranges := Range(|d.prolog|, |d.open|), StanzaRanges(d.items, |before|);
    var last := if d.closed then [Range(at, |close|)] else [];
    StanzasChain(d.items, |before|);
    ChainJoin([root], ranges, 0, |before|, at);
    ChainJoin([root] + ranges, last, 0, at, at + |close|);
    StanzasSliced(before, d.items, close);
    SliceJoin(DocumentBytes(d), [root] + ranges, last);
    SliceJoin(DocumentBytes(d), [root], ranges);
    RootSlice(d.prolog, d.open, items, close);
    LastSlice(before + items, close);
  }

  lemma RootSlice(prolog: bytes, open: bytes, items: bytes, close: bytes)
    ensures SliceAll(prolog + open + items + close, [Range(|prolog|, |open|)]) == [open]
  {
    Assoc(prolog + open, items, close);
    Middle(prolog, open, items + close);
  }

  lemma LastSlice(before: bytes, close: bytes)
    ensures SliceAll(before + close, [Range(|before|, |close|)]) == [close]
  {
    Middle(before, close, []);
    assert before + close + [] == before + close;
  }
}
