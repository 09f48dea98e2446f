/**
 The two read callbacks with everything they drive: the client's request lines through the request
 parser, and the XMPP server's bytes through the framer.
 */
module Callbacks {
  import opened Bytes
  import opened Buffers
  import opened Connection
  import opened ConnectionObject
  import opened Lifecycle
  import opened RequestObject
  import opened FramerObject
  import Q = Request
  import R = RequestReader
  import D = Downward
  import F = FramerRuns
  import O = Opening
  import X = Framing

  /** What the request parser has come to, as an outcome for the connection. */
  method OutcomeNow(site: O.Site, request: HttpRequest, failed: bool, finished: bool) returns (outcome: Outcome)
    requires !(failed && finished)
    ensures outcome == if failed then Malformed
      else if finished then O.OutcomeOf(site, R.Finished(request.fields, "")) else Incomplete
  {
    if failed {
      return Malformed;
    }
    if !finished {
      return Incomplete;
    }
    var ok, response := Decide(request.fields, site.config, site.sha1);
    return if ok then Upgraded(site.render(response)) else Refused(site.render(response));
  }

  // The complete lines among the characters that have arrived, and what they come to.
  method TakeLines(site: O.Site, request: HttpRequest, arrived: string, ghost parts: set<object>)
    returns (used: nat, outcome: Outcome, ghost next: R.Reading)
    requires request.Valid() && parts == {request, request.line, request.line.block}
    requires request.line.Guarded() || R.ShortLines(request.Snapshot(), arrived)
    modifies parts
    ensures request.Valid() && (old(request.line.Guarded()) ==> request.line.Guarded())
    ensures next == R.Read(old(request.Snapshot()), arrived)
    ensures outcome == O.OutcomeOf(site, next) && used + R.Unread(next) == |arrived|
    ensures next.Finished? ==> next.fields == request.fields
    ensures next.NeedMore? ==> next.parser == request.Snapshot() && next.input == arrived[used..]
  {
    ghost var p := request.Snapshot();
    next := R.Read(p, arrived);
    R.LeavesAnEnd(p, arrived);
    var rest, failed, finished := R.ReadRequest(request, arrived);
    outcome := OutcomeNow(site, request, failed, finished);
    used := if failed then |arrived| else |arrived| - |rest|;
  }

  /** The connection's part of the step, once the lines have been read. */
  lemma ArriveIs(site: O.Site, c: Conn, p: Q.Parser, chunk: bytes, used: nat, next: R.Reading)
    requires next == R.Read(p, O.Chars(c.received + chunk)) && used + R.Unread(next) == |c.received + chunk|
    ensures O.Arrive(site, O.Progress(c, R.NeedMore(p, O.Chars(c.received))), chunk)
      == O.Progress(Step(site.proxy, c, ClientData(chunk, O.OutcomeOf(site, next), used)), next)
  {
    var r := R.NeedMore(p, O.Chars(c.received));
    O.CharsJoin(c.received, chunk);
    ArriveOne(site, c, r, chunk, used, next, O.OutcomeOf(site, next));
  }

  lemma ArriveOne(site: O.Site, c: Conn, r: R.Reading, chunk: bytes, used: nat, next: R.Reading, outcome: Outcome)
    requires next == R.More(r, O.Chars(chunk)) && used + R.Unread(next) == |c.received + chunk|
    requires outcome == O.OutcomeOf(site, next)
    ensures O.Arrive(site, O.Progress(c, r), chunk)
      == O.Progress(Step(site.proxy, c, ClientData(chunk, outcome, used)), next)
  {
  }

  /** What is left of the bytes reads as what is left of the characters. */
  lemma InputLeft(config: Config, c: Conn, chunk: bytes, used: nat)
    requires c.ws == WS_ST_START && !Deleted(c) && used <= |c.received + chunk|
    ensures O.Chars(Step(config, c, ClientData(chunk, Incomplete, used)).received)
      == O.Chars(c.received + chunk)[used..]
  {
  }

  /**
   wsconn_read_cb in WS_ST_START: complete lines go to the request parser, the handshake is decided, and
   the connection takes its step. By ArriveIs that is the step of the composed model.
   */
  method ReadRequestCb(site: O.Site, conn: WsConn, request: HttpRequest, chunk: bytes,
                       ghost own: set<object>, ghost parts: set<object>)
    returns (used: nat, ghost next: R.Reading)
    requires conn.Valid() && Sound(conn.Abs()) && !Deleted(conn.Abs()) && conn.wsState == WS_ST_START
    requires request.Valid()
    requires request.line.Guarded() || R.ShortLines(request.Snapshot(), O.Chars(conn.input + chunk))
    requires own == conn.Repr() && parts == {request, request.line, request.line.block} && own !! parts
    modifies own + parts
    ensures conn.Valid() && request.Valid() && (old(request.line.Guarded()) ==> request.line.Guarded())
    ensures next == R.Read(old(request.Snapshot()), O.Chars(old(conn.input) + chunk))
    ensures used + R.Unread(next) == |old(conn.input) + chunk|
    ensures conn.Abs() == Step(conn.config, old(conn.Abs()), ClientData(chunk, O.OutcomeOf(site, next), used))
    ensures next.Finished? ==> next.fields == request.fields
    ensures next.NeedMore? ==> next == R.NeedMore(request.Snapshot(), O.Chars(conn.input))
  {
    ghost var c := conn.Abs();
    label before:
    var arrived := O.Chars(conn.input + chunk);
    var outcome;
    used, outcome, next := TakeLines(site, request, arrived, parts);
    Untouched@before(conn);
    conn.ReadCb(chunk, outcome, used);
    if next.NeedMore? {
      InputLeft(conn.config, c, chunk, used);
    }
  }

  /** A connection none of whose parts has been written to is as it was. */
  twostate lemma Untouched(conn: WsConn)
    requires old(conn.Valid())
    requires unchanged(old(conn.Repr()))
    ensures conn.Valid() && conn.Abs() == old(conn.Abs()) && conn.Repr() == old(conn.Repr())
  {
  }

  // ---- cm_readcb ----

  /** The reads of one callback, each with what the XML parser reports for it. */
  function Reads(chunks: seq<bytes>, markup: seq<seq<X.Markup>>): (acts: seq<F.Act>)
    requires |markup| == |chunks|
    ensures |acts| == |chunks| && D.OnlyAdds(acts)
  {
    seq(|chunks|, i requires 0 <= i < |chunks| => F.AddChunk(chunks[i], markup[i]))
  }

  lemma {:induction false} PerformAllLast(r: F.Result, acts: seq<F.Act>, act: F.Act)
    ensures F.PerformAll(r, acts + [act]) == F.Perform(F.PerformAll(r, acts), act)
    decreases |acts|
  {
    if acts == [] {
      assert [] + [act] == [act];
      assert F.PerformAll(F.Perform(r, act), []) == F.Perform(r, act);
    } else {
      assert (acts + [act])[1..] == acts[1..] + [act];
      PerformAllLast(F.Perform(r, acts[0]), acts[1..], act);
    }
  }

  // One chunk as it comes from the input evbuffer.
  method AddOne(framer: FramerT, chunk: bytes, markup: seq<X.Markup>)
    requires framer.Valid()
    modifies framer, framer.nodes, framer.buffer, framer.buffer.data
    ensures framer.Valid() && framer.Grown()
    ensures framer.buffer == old(framer.buffer)
    ensures framer.buffer.data == old(framer.buffer.data) || fresh(framer.buffer.data)
    ensures framer.Abs() == F.Add(old(framer.Abs()), chunk, markup)
  {
    var message := new byte[|chunk|](i requires 0 <= i < |chunk| => chunk[i]);
    assert message[..|chunk|] == chunk;
    framer.Add(message, |chunk|, markup);
  }

  /** The first loop of cm_readcb. */
  method AddAll(framer: FramerT, chunks: seq<bytes>, markup: seq<seq<X.Markup>>, ghost taken: seq<bytes>)
    requires framer.Valid() && |markup| == |chunks|
    modifies framer, framer.nodes, framer.buffer, framer.buffer.data
    ensures framer.Valid() && framer.Grown()
    ensures framer.buffer == old(framer.buffer)
    ensures framer.buffer.data == old(framer.buffer.data) || fresh(framer.buffer.data)
    ensures F.Result(framer.Abs(), taken) == F.PerformAll(F.Result(old(framer.Abs()), taken), Reads(chunks, markup))
  {
    ghost var acts, before := Reads(chunks, markup), F.Result(framer.Abs(), taken);
    var k := 0;
    while k < |chunks|
      invariant 0 <= k <= |chunks| && framer.Valid() && framer.Grown() && framer.buffer == old(framer.buffer)
      invariant framer.buffer.data == old(framer.buffer.data) || fresh(framer.buffer.data)
      invariant F.Result(framer.Abs(), taken) == F.PerformAll(before, acts[..k])
    {
      AddOne(framer, chunks[k], markup[k]);
      assert acts[..k + 1] == acts[..k] + [acts[k]];
      PerformAllLast(before, acts[..k], acts[k]);
      k := k + 1;
    }
    assert acts[..k] == acts;
  }

  lemma CutToStanza(stanza: bytes)
    ensures Cut(STANZA_LIMIT, Filled(STANZA_LIMIT, stanza)) == Cut(STANZA_LIMIT, stanza)
  {
    if |stanza| == STANZA_LIMIT {
      assert stanza[..STANZA_LIMIT] == stanza;
    }
  }

  lemma {:induction false} CutOnceMore(c: Conn, stanzas: seq<bytes>)
    ensures WriteStanzas(c, CutAll(STANZA_LIMIT, stanzas)) == WriteStanzas(c, stanzas)
    decreases |stanzas|
  {
    if stanzas != [] {
      var cut := CutAll(STANZA_LIMIT, stanzas);
      assert cut[1..] == CutAll(STANZA_LIMIT, stanzas[1..]);
      CutToStanza(stanzas[0]);
      assert WriteStanza(c, cut[0]) == WriteStanza(c, stanzas[0]);
      CutOnceMore(WriteStanza(c, stanzas[0]), stanzas[1..]);
    }
  }

  /** The framer's parts, none of which the connection shares. */
  ghost function FramerParts(framer: FramerT): set<object>
    reads framer, framer.buffer
  {
    {framer, framer.buffer, framer.buffer.data} + (set node | node in framer.nodes :: node as object)
  }

  // The framer's part of cm_readcb.
  method DrawFrames(framer: FramerT, data: Data, chunks: seq<bytes>, markup: seq<seq<X.Markup>>,
                    ghost d: X.Document, ghost taken: seq<bytes>, ghost stream: bytes, ghost told: seq<X.Markup>,
                    ghost parts: set<object>)
    returns (frames: seq<bytes>)
    requires parts == FramerParts(framer) + {data, data.buffer}
    requires framer.Valid() && data.Valid() && data.buffer.Length == STANZA_LIMIT && |markup| == |chunks|
    requires {data, data.buffer} !! FramerParts(framer)
    requires Reporting(d, F.Result(framer.Abs(), taken), stream, told, Reads(chunks, markup))
    modifies parts
    ensures framer.Valid() && data.Valid()
    ensures var r := F.Drained(F.PerformAll(F.Result(old(framer.Abs()), taken), Reads(chunks, markup)));
      && framer.Abs() == r.framer && taken <= r.frames
      && frames == CutAll(STANZA_LIMIT, r.frames[|taken|..])
  {
    ghost var acts, start := Reads(chunks, markup), F.Result(framer.Abs(), taken);
    F.RunAligned(d, start, stream, told, acts);
    D.AddsTakeNothing(start, acts);
    AddAll(framer, chunks, markup, taken);
    frames := framer.ForwardAll(data, F.PerformAll(start, acts), stream + F.Input(acts), told + F.Calls(acts));
  }

  /** The framer is drained and stands where the stream does, and the parser reports a document in time. */
  ghost predicate Reporting(d: X.Document, r: F.Result, stream: bytes, told: seq<X.Markup>, acts: seq<F.Act>) {
    && D.Drawn(r, stream, told) && F.WellFormed(d)
    && F.Timely(|stream|, acts) && told + F.Calls(acts) <= X.DocumentMarkup(d)
  }

  /** The connection's part of the step, once the frames have been drawn. */
  lemma ForwardIs(config: Config, c: Conn, start: F.Result, acts: seq<F.Act>, frames: seq<bytes>)
    requires D.Listening(c)
    requires var r := F.Drained(F.PerformAll(start, acts));
      start.frames <= r.frames && frames == CutAll(STANZA_LIMIT, r.frames[|start.frames|..])
    ensures D.Forward(config, D.Pair(c, start), acts)
      == D.Pair(Step(config, c, UpstreamStanzas(frames)), F.Drained(F.PerformAll(start, acts)))
  {
    CutOnceMore(c, F.Drained(F.PerformAll(start, acts)).frames[|start.frames|..]);
  }

  /**
   cm_readcb: every chunk read is added, and every frame there then is goes to the client. By ForwardIs
   connection and framer together take the step of the composed model.
   */
  method ReadUpstreamCb(conn: WsConn, framer: FramerT, data: Data, chunks: seq<bytes>, markup: seq<seq<X.Markup>>,
                        ghost d: X.Document, ghost taken: seq<bytes>, ghost stream: bytes, ghost told: seq<X.Markup>,
                        ghost own: set<object>, ghost parts: set<object>)
    returns (frames: seq<bytes>)
    requires own == conn.Repr() && parts == FramerParts(framer) + {data, data.buffer} && own !! parts
    requires conn.Valid() && Sound(conn.Abs()) && conn.cm.bev && !Deleted(conn.Abs())
    requires framer.Valid() && data.Valid() && data.buffer.Length == STANZA_LIMIT && |markup| == |chunks|
    requires {data, data.buffer} !! FramerParts(framer)
    requires Reporting(d, F.Result(framer.Abs(), taken), stream, told, Reads(chunks, markup))
    modifies conn`output, conn`history, parts
    ensures conn.Valid() && framer.Valid() && data.Valid()
    ensures var r := F.Drained(F.PerformAll(F.Result(old(framer.Abs()), taken), Reads(chunks, markup)));
      framer.Abs() == r.framer && taken <= r.frames && frames == CutAll(STANZA_LIMIT, r.frames[|taken|..])
    ensures conn.Abs() == Step(conn.config, old(conn.Abs()), UpstreamStanzas(frames))
  {
    label before:
    frames := DrawFrames(framer, data, chunks, markup, d, taken, stream, told, parts);
    Untouched@before(conn);
    conn.UpstreamReadCb(frames);
  }
}
