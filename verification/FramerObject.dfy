/**
 framer_t as an object: the linked list of frames with its head and tail, the level and positions, and
 the byte buffer, updated in place and proved to follow the value model.
 */
module FramerObject {
  import opened Bytes
  import opened Buffers
  import opened Framing
  import opened FramerRuns

  /** frame_t. */
  class Node {
    const range: Range
    var next: Node?

    constructor (range: Range)
      ensures this.range == range && next == null
    {
      this.range := range;
      next := null;
    }
  }

  /** The ranges in a list of nodes. */
  ghost function RangesOf(nodes: seq<Node>): (r: seq<Range>)
    ensures |r| == |nodes| && forall i :: 0 <= i < |r| ==> r[i] == nodes[i].range
  {
    seq(|nodes|, i requires 0 <= i < |nodes| => nodes[i].range)
  }

  class FramerT {
    var level: int
    var index: int
    var head: Node?
    var tail: Node?
    var buffer: Buffer
    var bufferIndex: int
    ghost var nodes: seq<Node>

    /** The list runs from head to tail through `nodes` and ends there. */
    ghost predicate Linked()
      reads this, nodes
    {
      && (nodes == [] ==> head == null && tail == null)
      && (nodes != [] ==> head == nodes[0] && tail == nodes[|nodes| - 1] && nodes[|nodes| - 1].next == null)
      && (forall i :: 0 <= i < |nodes| - 1 ==> nodes[i].next == nodes[i + 1])
      && (forall i, j :: 0 <= i < j < |nodes| ==> nodes[i] != nodes[j])
    }

    ghost predicate Valid()
      reads this, buffer, nodes
    {
      Linked() && buffer.Valid() && buffer.maxLength == 0
    }

    /** Nodes are only added at the end, and only new ones. */
    twostate predicate Grown()
      reads this
    {
      && |old(nodes)| <= |nodes| && nodes[..|old(nodes)|] == old(nodes)
      && forall i :: |old(nodes)| <= i < |nodes| ==> fresh(nodes[i])
    }

    ghost function Abs(): Framer
      requires Valid()
      reads this, buffer, buffer.data, nodes
    {
      Framer(level, index, RangesOf(nodes), buffer.Contents(), bufferIndex)
    }

    constructor ()
      ensures Valid() && fresh(buffer) && fresh(buffer.data) && nodes == []
      ensures Abs() == NewFramer
    {
      level, index, bufferIndex := 0, 0, 0;
      head, tail, nodes := null, null, [];
      buffer := new Buffer(0);
    }

    /** framer_add_frame. */
    method AddFrame(index: int, size: int)
      requires Valid()
      modifies this`head, this`tail, this`nodes, if tail == null then {} else {tail}
      ensures Valid() && Grown()
      ensures RangesOf(nodes) == old(RangesOf(nodes)) + [Range(index, size)]
    {
      var node := new Node(Range(index, size));
      if tail != null {
        tail.next := node;
      } else {
        head := node;
      }
      tail := node;
      nodes := nodes + [node];
    }

    /** framer_remove_frame. */
    method RemoveFrame()
      requires Valid()
      modifies this`head, this`tail, this`nodes
      ensures Valid()
      ensures RangesOf(nodes) == if old(nodes) == [] then [] else old(RangesOf(nodes))[1..]
      ensures nodes == if old(nodes) == [] then [] else old(nodes)[1..]
    {
      if head != null {
        head := head.next;
        if head == null {
          tail := null;
        }
        nodes := nodes[1..];
      }
    }

    /** framer_has_frame. */
    method HasFrame() returns (has: bool)
      requires Valid()
      ensures has == (Abs().queue != [])
    {
      has := head != null;
    }

    /** framer_start. */
    method HandleStart(m: Markup)
      requires Valid() && m.Start?
      modifies this`level, this`index, this`head, this`tail, this`nodes, nodes
      ensures Valid() && Grown()
      ensures ScanOf(Abs()) == OnStart(old(ScanOf(Abs())), m)
      ensures buffer.Contents() == old(buffer.Contents())
    {
      if m.ns {
        if m.stream {
          level := 0;
          AddFrame(m.index, m.count);
        } else if level == 1 {
          index := m.index;
        }
      }
      level := level + 1;
    }

    /** framer_end. */
    method HandleEnd(m: Markup)
      requires Valid() && m.End?
      modifies this`level, this`head, this`tail, this`nodes, nodes
      ensures Valid() && Grown()
      ensures ScanOf(Abs()) == OnEnd(old(ScanOf(Abs())), m)
      ensures buffer.Contents() == old(buffer.Contents())
    {
      level := level - 1;
      if level == 1 {
        AddFrame(index, m.index + m.count - index);
      } else if m.ns && m.stream {
        AddFrame(m.index, m.count);
      }
    }

    /** One handler call. */
    method Handle(m: Markup)
      requires Valid()
      modifies this`level, this`index, this`head, this`tail, this`nodes, nodes
      ensures Valid() && Grown()
      ensures ScanOf(Abs()) == OnMarkup(old(ScanOf(Abs())), m)
      ensures buffer.Contents() == old(buffer.Contents())
    {
      if m.Start? {
        HandleStart(m);
      } else {
        HandleEnd(m);
      }
    }

    /** framer_add: the handler calls made by the parser, then the append. */
    method Add(message: array<byte>, length: nat, markup: seq<Markup>)
      requires Valid() && length <= message.Length && message != buffer.data
      modifies this, nodes, buffer, buffer.data
      ensures Valid() && buffer == old(buffer) && (buffer.data == old(buffer.data) || fresh(buffer.data))
      ensures Grown()
      ensures Abs() == FramerRuns.Add(old(Abs()), old(message[..length]), markup)
    {
      CallHandlers(markup);
      assert message[0..length] == message[..length];
      var _ := buffer.Append(message, 0, length);
    }

    method CallHandlers(markup: seq<Markup>)
      requires Valid()
      modifies this`level, this`index, this`head, this`tail, this`nodes, nodes
      ensures Valid() && Grown()
      ensures ScanOf(Abs()) == ScanAll(old(ScanOf(Abs())), markup)
      ensures buffer.Contents() == old(buffer.Contents())
    {
      var k := 0;
      while k < |markup|
        invariant 0 <= k <= |markup| && Valid() && Grown()
        invariant ScanAll(ScanOf(Abs()), markup[k..]) == ScanAll(old(ScanOf(Abs())), markup)
        invariant buffer.Contents() == old(buffer.Contents())
      {
        assert markup[k..][0] == markup[k] && markup[k..][1..] == markup[k + 1..];
        Handle(markup[k]);
        k := k + 1;
      }
    }

    // Drops the bytes before the first frame, such as line breaks between stanzas.
    method SkipGap()
      requires Valid() && Takeable(Abs())
      modifies this`bufferIndex, buffer`length, buffer.data
      ensures Valid()
      ensures Abs() == Skipped(old(Abs()))
    {
      var at := head.range.index;
      if at > bufferIndex {
        var delta := at - bufferIndex;
        buffer.RemoveData(delta);
        bufferIndex := bufferIndex + delta;
      }
    }

    // Drops the first frame from the buffer and from the list.
    method DropFrame(size: nat)
      requires Valid() && head != null && size <= buffer.length
      modifies this`bufferIndex, this`head, this`tail, this`nodes, buffer`length, buffer.data
      ensures Valid()
      ensures Abs() == Dropped(old(Abs()), size)
    {
      ghost var before := Abs();
      buffer.RemoveData(size);
      assert buffer.Contents() == before.buffer[size..] && RangesOf(nodes) == before.queue;
      RemoveFrame();
      bufferIndex := bufferIndex + size;
    }

    /** framer_get_frame: the frame as a block of its own. */
    method GetFrame() returns (data: array<byte>)
      requires Valid() && Takeable(Abs())
      modifies this`bufferIndex, this`head, this`tail, this`nodes, buffer`length, buffer.data
      ensures Valid() && fresh(data)
      ensures (Abs(), data[..]) == Get(old(Abs()))
    {
      GetInSteps(Abs());
      SkipGap();
      var size := head.range.size;
      data := new byte[size];
      forall i | 0 <= i < size {
        data[i] := buffer.data[i];
      }
      assert data[..] == buffer.Contents()[..size];
      DropFrame(size);
    }

    /** framer_get_frame2: the frame into a fixed block, cut if it does not fit; its full size is reported. */
    method GetFrame2(data: Data) returns (size: nat)
      requires Valid() && Takeable(Abs()) && data.Valid() && data.buffer != buffer.data
      modifies this`bufferIndex, this`head, this`tail, this`nodes, buffer`length, buffer.data, data`length, data.buffer
      ensures Valid() && data.Valid()
      ensures var (f, frame) := Get(old(Abs()));
        && Abs() == f && size == |frame|
        && data.Contents() == Filled(data.buffer.Length, frame)
    {
      GetInSteps(Abs());
      SkipGap();
      size := head.range.size;
      data.SetData(buffer.data, size);
      DropFrame(size);
    }

    /**
     The second loop of cm_readcb, after chunks and handler calls that leave the framer aligned with the
     stream: every frame recorded is taken, in order, and cut to the block it is copied into.
     */
    method ForwardAll(data: Data, ghost before: Result, ghost stream: bytes, ghost markup: seq<Markup>)
      returns (frames: seq<bytes>)
      requires Valid() && data.Valid() && data.buffer != buffer.data
      requires before.framer == Abs() && Aligned(before, stream, markup)
      modifies this`bufferIndex, this`head, this`tail, this`nodes, buffer`length, buffer.data, data`length, data.buffer
      ensures Valid() && data.Valid() && Abs().queue == []
      ensures var r := Drained(before);
        && Abs() == r.framer && before.frames <= r.frames
        && frames == CutAll(data.buffer.Length, r.frames[|before.frames|..])
    {
      frames := [];
      ghost var now := before;
      var more := HasFrame();
      while more
        invariant Valid() && data.Valid() && Abs() == now.framer && more == (now.framer.queue != [])
        invariant Draining(before, now, stream, markup, data.buffer.Length, frames)
        decreases |now.framer.queue|
      {
        DrainStep(before, now, stream, markup, data.buffer.Length, frames);
        var frame;
        frame, more := TakeNext(data);
        frames := frames + [frame];
        now := FramerRuns.Perform(now, Act.GetFrame);
      }
      DrainOver(before, now, stream, markup, data.buffer.Length, frames);
    }

    // One turn of that loop.
    method TakeNext(data: Data) returns (frame: bytes, more: bool)
      requires Valid() && Takeable(Abs()) && data.Valid() && data.buffer != buffer.data
      modifies this`bufferIndex, this`head, this`tail, this`nodes, buffer`length, buffer.data, data`length, data.buffer
      ensures Valid() && data.Valid()
      ensures Abs() == Get(old(Abs())).0 && frame == Filled(data.buffer.Length, Get(old(Abs())).1)
      ensures more == (Abs().queue != [])
    {
      var _ := GetFrame2(data);
      frame := data.buffer[..data.length];
      more := HasFrame();
    }
  }

  /** `frames` is what has been taken since `before`, each cut to its block, and what is left comes to the same. */
  ghost predicate Draining(
    before: Result, now: Result, stream: bytes, markup: seq<Markup>, length: nat, frames: seq<bytes>)
  {
    && Aligned(now, stream, markup) && Drained(now) == Drained(before)
    && before.frames <= now.frames && frames == CutAll(length, now.frames[|before.frames|..])
  }

  lemma DrainOver(before: Result, now: Result, stream: bytes, markup: seq<Markup>, length: nat, frames: seq<bytes>)
    requires Draining(before, now, stream, markup, length, frames) && now.framer.queue == []
    ensures var r := Drained(before);
      r == now && before.frames <= r.frames && frames == CutAll(length, r.frames[|before.frames|..])
  {
  }

  lemma DrainStep(before: Result, now: Result, stream: bytes, markup: seq<Markup>, length: nat, frames: seq<bytes>)
    requires Draining(before, now, stream, markup, length, frames) && now.framer.queue != []
    ensures Takeable(now.framer)
    ensures var (f, frame) := Get(now.framer);
      var next := FramerRuns.Perform(now, Act.GetFrame);
      next.framer == f && Draining(before, next, stream, markup, length, frames + [Filled(length, frame)])
  {
    AlignedTakeable(now, stream, markup);
    GetAligned(now, stream, markup);
    var frame, n := Get(now.framer).1, |before.frames|;
    assert (now.frames + [frame])[n..] == now.frames[n..] + [frame];
    CutAllSnoc(length, now.frames[n..], frame);
  }

  function CutAll(length: nat, frames: seq<bytes>): (r: seq<bytes>)
    ensures |r| == |frames| && forall i :: 0 <= i < |r| ==> r[i] == Filled(length, frames[i])
  {
    seq(|frames|, i requires 0 <= i < |frames| => Filled(length, frames[i]))
  }

  lemma CutAllSnoc(length: nat, frames: seq<bytes>, frame: bytes)
    ensures CutAll(length, frames + [frame]) == CutAll(length, frames) + [Filled(length, frame)]
  {
  }
}
