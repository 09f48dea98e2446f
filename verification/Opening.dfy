/**
 The opening handshake of a connection: wsserver.c and rqparser.c together. The outcome and the input
 used up, which the connection takes as given, are here what reading the arrived bytes comes to.
 */
module Opening {
  import opened Bytes
  import opened Request
  import opened RequestReader
  import C = Connection
  import H = Handshake

  /** Bytes read as C characters. */
  function Chars(b: bytes): (s: string)
    ensures |s| == |b|
  {
    seq(|b|, i requires 0 <= i < |b| => b[i] as char)
  }

  lemma CharsJoin(a: bytes, b: bytes)
    ensures Chars(a + b) == Chars(a) + Chars(b)
  {
  }

  /** A server: how it is configured on either side of the handshake, its hash, how it writes a response. */
  datatype Site = Site(proxy: C.Config, config: H.Config, sha1: string -> H.digest, render: H.Response -> bytes)

  function AnswerBytes(site: Site, f: Fields): bytes {
    site.render(H.Answer(f, site.config, site.sha1))
  }

  predicate Accepts(site: Site, f: Fields) {
    H.Analyze(f, site.config) == H.Accepted
  }

  function OutcomeOf(site: Site, r: Reading): C.Outcome {
    match r
    case NeedMore(_, _) => C.Incomplete
    case Failed => C.Malformed
    case Finished(f, _) =>
      if Accepts(site, f) then C.Upgraded(AnswerBytes(site, f)) else C.Refused(AnswerBytes(site, f))
  }

  datatype Progress = Progress(conn: C.Conn, reading: Reading)

  /** One read callback before the handshake is over. */
  function Arrive(site: Site, o: Progress, chunk: bytes): Progress {
    var next := More(o.reading, Chars(chunk));
    var n := |o.conn.received + chunk|;
    var used := if Unread(next) <= n then n - Unread(next) else 0;
    Progress(C.Step(site.proxy, o.conn, C.ClientData(chunk, OutcomeOf(site, next), used)), next)
  }

  function ArriveAll(site: Site, o: Progress, chunks: seq<bytes>): Progress
    decreases |chunks|
  {
    if chunks == [] then o else ArriveAll(site, Arrive(site, o, chunks[0]), chunks[1..])
  }

  /** A connection that has read and written nothing. */
  predicate Untouched(c: C.Conn) {
    && c.ws == C.WS_ST_START && c.cm == C.CM_ST_CREATED && c.outgoing == []
    && c.history.callbacks == [] && c.history.offered == []
  }

  function Holding(c: C.Conn, received: bytes): C.Conn { c.(received := received) }

  lemma StartStep(config: C.Config, c: C.Conn, chunk: bytes, outcome: C.Outcome, used: nat)
    requires Untouched(c) && used <= |c.received + chunk|
    ensures C.Step(config, c, C.ClientData(chunk, outcome, used))
      == C.Conclude(Holding(c, (c.received + chunk)[used..]), outcome)
  {
  }

  lemma ArriveConcludes(site: Site, c: C.Conn, held: bytes, r: Reading, chunk: bytes, next: Reading)
    requires Untouched(c) && next == More(r, Chars(chunk)) && Unread(next) <= |held + chunk|
    ensures var input := held + chunk;
      Arrive(site, Progress(Holding(c, held), r), chunk)
      == Progress(C.Conclude(Holding(c, input[|input| - Unread(next)..]), OutcomeOf(site, next)), next)
  {
    StartStep(site.proxy, Holding(c, held), chunk, OutcomeOf(site, next), |held + chunk| - Unread(next));
  }

  lemma EndOfEnd(whole: bytes, held: bytes, chunk: bytes, end: bytes)
    requires EndsWith(whole, held) && EndsWith(held + chunk, end)
    ensures EndsWith(whole + chunk, end)
  {
    var n := |whole| - |held|;
    assert (whole + chunk)[n..] == held + chunk;
    EndOfTail(whole + chunk, n, end);
  }

  /**
   The request has not been read to its end: `held` is the end of all that has arrived, `p` the parser
   it began with.
   */
  predicate Underway(p: Parser, r: Reading, arrived: bytes, held: bytes) {
    r == Read(p, Chars(arrived)) && r.NeedMore? && |r.input| == |held| && EndsWith(arrived, held)
  }

  lemma ReadsOn(p: Parser, r: Reading, arrived: bytes, held: bytes, chunk: bytes)
    requires Underway(p, r, arrived, held)
    ensures var next := More(r, Chars(chunk));
      next == Read(p, Chars(arrived + chunk)) && Unread(next) <= |held + chunk|
  {
    CharsJoin(arrived, chunk);
    ReadInTwo(p, Chars(arrived), Chars(chunk));
    LeavesAnEnd(r.parser, r.input + Chars(chunk));
  }

  /** What a chunk leaves in the input is an end of everything that has arrived. */
  lemma ArriveLeaves(site: Site, c: C.Conn, p: Parser, r: Reading, arrived: bytes, held: bytes, chunk: bytes)
    returns (left: bytes)
    requires Untouched(c) && Underway(p, r, arrived, held)
    ensures var next, all := Read(p, Chars(arrived + chunk)), arrived + chunk;
      && |left| == Unread(next) && EndsWith(all, left)
      && Arrive(site, Progress(Holding(c, held), r), chunk)
        == Progress(C.Conclude(Holding(c, left), OutcomeOf(site, next)), next)
  {
    var next, input := More(r, Chars(chunk)), held + chunk;
    ReadsOn(p, r, arrived, held, chunk);
    left := input[|input| - Unread(next)..];
    EndOfEnd(arrived, held, chunk, left);
    ArriveConcludes(site, c, held, r, chunk, next);
  }

  /** Before the end of the request more is needed. */
  lemma NeedsMore(p: Parser, a: string, b: string)
    requires b != "" && Read(p, a + b).Finished? && Read(p, a + b).input == ""
    ensures Read(p, a).NeedMore?
  {
    ReadInTwo(p, a, b);
  }

  lemma {:induction false} ArriveBeforeEnd(
      site: Site, c: C.Conn, p: Parser, r: Reading, arrived: bytes, held: bytes, chunks: seq<bytes>, tail: bytes)
    returns (q: Reading, left: bytes)
    requires Untouched(c) && Underway(p, r, arrived, held) && tail != []
    requires var whole := Read(p, Chars(arrived + Concat(chunks) + tail)); whole.Finished? && whole.input == ""
    ensures ArriveAll(site, Progress(Holding(c, held), r), chunks) == Progress(Holding(c, left), q)
    ensures Underway(p, q, arrived + Concat(chunks), left)
    decreases |chunks|
  {
    if chunks == [] {
      assert arrived + [] == arrived;
      return r, held;
    }
    var now, behind := arrived + chunks[0], Concat(chunks[1..]) + tail;
    Assoc(arrived, chunks[0], Concat(chunks[1..]));
    Assoc(now, Concat(chunks[1..]), tail);
    CharsJoin(now, behind);
    NeedsMore(p, Chars(now), Chars(behind));
    var next := ArriveLeaves(site, c, p, r, arrived, held, chunks[0]);
    q, left := ArriveBeforeEnd(site, c, p, Read(p, Chars(now)), now, next, chunks[1..], tail);
  }

  lemma {:induction false} ArriveLast(site: Site, o: Progress, chunks: seq<bytes>, last: bytes)
    ensures ArriveAll(site, o, chunks + [last]) == Arrive(site, ArriveAll(site, o, chunks), last)
    decreases |chunks|
  {
    if chunks == [] {
      assert [] + [last] == [last];
    } else {
      assert (chunks + [last])[1..] == chunks[1..] + [last];
      ArriveLast(site, Arrive(site, o, chunks[0]), chunks[1..], last);
    }
  }

  /** The connection once the request has been read; `behind` followed the request. */
  predicate Decided(c: C.Conn, accepted: bool, behind: bytes) {
    && c.received == behind && c.history.offered == []
    && c.ws == (if accepted then C.WS_ST_RECEIVING else C.WS_ST_CLOSED)
    && c.cm == (if accepted then C.CM_ST_CREATED else C.CM_ST_CLOSING)
    && (accepted <==> C.WSCB_CONNECTED in c.history.callbacks)
    && (accepted <==> C.WSCB_CLOSE !in c.history.callbacks)
  }

  lemma ConcludeDecides(site: Site, c: C.Conn, f: Fields, rest: string, behind: bytes)
    requires Untouched(c)
    ensures var d := C.Conclude(Holding(c, behind), OutcomeOf(site, Finished(f, rest)));
      Decided(d, Accepts(site, f), behind) && d.outgoing == AnswerBytes(site, f)
  {
  }

  lemma Tail(before: bytes, last: bytes, request: bytes, behind: bytes) returns (tail: bytes)
    requires before + last == request + behind && |before| < |request|
    ensures request == before + tail && tail != []
  {
    tail := request[|before|..];
    Halves(before, last);
    assert (request + behind)[..|before|] == request[..|before|];
  }

  lemma ReadBehind(p: Parser, request: bytes, behind: bytes, f: Fields)
    requires Read(p, Chars(request)) == Finished(f, "")
    ensures Read(p, Chars(request + behind)) == Finished(f, Chars(behind))
  {
    CharsJoin(request, behind);
    ReadInTwo(p, Chars(request), Chars(behind));
    assert "" + Chars(behind) == Chars(behind);
  }

  /** The chunks are the request with something behind it, and the last of them holds the request's end. */
  predicate EndsInLast(chunks: seq<bytes>, last: bytes, request: bytes, behind: bytes) {
    Concat(chunks) + last == request + behind && |Concat(chunks)| < |request|
  }

  lemma ArriveDecides(
      site: Site, c: C.Conn, p: Parser, chunks: seq<bytes>, last: bytes, request: bytes, behind: bytes, f: Fields)
    requires Untouched(c) && Underway(p, NeedMore(p, ""), [], [])
    requires EndsInLast(chunks, last, request, behind)
    requires Read(p, Chars(request)) == Finished(f, "")
    ensures var d := ArriveAll(site, Progress(Holding(c, []), NeedMore(p, "")), chunks + [last]).conn;
      Decided(d, Accepts(site, f), behind) && d.outgoing == AnswerBytes(site, f)
  {
    var before := Concat(chunks);
    var tail := Tail(before, last, request, behind);
    assert [] + before == before;
    var q, held := ArriveBeforeEnd(site, c, p, NeedMore(p, ""), [], [], chunks, tail);
    ArriveDecidesLast(site, c, p, q, before, held, last, request, behind, f);
    ArriveLast(site, Progress(Holding(c, []), NeedMore(p, "")), chunks, last);
  }

  lemma ArriveDecidesLast(
      site: Site, c: C.Conn, p: Parser, r: Reading, arrived: bytes, held: bytes, last: bytes,
      request: bytes, behind: bytes, f: Fields)
    requires Untouched(c) && Underway(p, r, arrived, held)
    requires arrived + last == request + behind && Read(p, Chars(request)) == Finished(f, "")
    ensures var d := Arrive(site, Progress(Holding(c, held), r), last).conn;
      Decided(d, Accepts(site, f), behind) && d.outgoing == AnswerBytes(site, f)
  {
    ReadBehind(p, request, behind, f);
    var left := ArriveLeaves(site, c, p, r, arrived, held, last);
    Halves(request, behind);
    assert left == behind;
    ConcludeDecides(site, c, f, Chars(behind), behind);
  }

  lemma ReadRequestText(
      requestLine: string, folded: seq<Folded>, headers: seq<Header>, c: H.Config, sha1: string -> H.digest)
    returns (f: Fields)
    requires GoodRequestLine(requestLine) && FoldingsOf(folded, headers)
    requires AllPlain([requestLine] + AllLines(folded))
    ensures Read(Created, Wire([requestLine] + AllLines(folded) + [""])) == Finished(f, "")
    ensures H.Analyze(f, c) == H.Accepted <==> H.Acceptable(Tokens(requestLine, BLANKS), headers, c)
    ensures H.Answer(f, c, sha1) == H.AnswerTo(Tokens(requestLine, BLANKS), headers, c, sha1)
  {
    var text := Wire([requestLine] + AllLines(folded) + [""]);
    assert Concat([text]) == text + [] == text && text + "" == text;
    DecidedByItsHeaders(requestLine, folded, headers, [text], "", c, sha1);
    ChunksDoNotShow(Created, [text]);
    f := Read(Created, text).fields;
  }

  /**
   A new connection is sent a request, its headers folded in any way, with anything behind it, and the
   bytes arrive in any chunks, of which the last holds the end of the request. Then the connection has
   been upgraded exactly if the headers are acceptable and has closed if they are not; all it has written
   is the answer that the headers ask for; and what was sent behind the request, to the byte, is what waits
   to be read as frames.
   */
  lemma OpeningHandshake(
      site: Site, requestLine: string, folded: seq<Folded>, headers: seq<Header>,
      request: bytes, behind: bytes, chunks: seq<bytes>, last: bytes)
    requires GoodRequestLine(requestLine) && FoldingsOf(folded, headers)
    requires AllPlain([requestLine] + AllLines(folded))
    requires Chars(request) == Wire([requestLine] + AllLines(folded) + [""])
    requires EndsInLast(chunks, last, request, behind)
    ensures var start := Progress(C.Initial, NeedMore(Created, ""));
      var words, d := Tokens(requestLine, BLANKS), ArriveAll(site, start, chunks + [last]).conn;
      && Decided(d, H.Acceptable(words, headers, site.config), behind)
      && d.outgoing == site.render(H.AnswerTo(words, headers, site.config, site.sha1))
  {
    var f := ReadRequestText(requestLine, folded, headers, site.config, site.sha1);
    assert Chars([]) == "" && Read(Created, "") == NeedMore(Created, "");
    assert Holding(C.Initial, []) == C.Initial;
    ArriveDecides(site, C.Initial, Created, chunks, last, request, behind, f);
  }

  // ---- A request that cannot be read ----

  /** Closed without an answer. */
  predicate Broken(c: C.Conn) {
    && c.ws == C.WS_ST_CLOSED && C.WSCB_CLOSE in c.history.callbacks
    && c.outgoing == [] && c.history.offered == [] && C.WSCB_CONNECTED !in c.history.callbacks
  }

  lemma BreaksOff(c: C.Conn, received: bytes)
    requires Untouched(c)
    ensures Broken(C.Conclude(Holding(c, received), C.Malformed))
  {
  }

  lemma {:induction false} StaysBroken(site: Site, o: Progress, chunks: seq<bytes>)
    requires Broken(o.conn)
    ensures Broken(ArriveAll(site, o, chunks).conn)
    decreases |chunks|
  {
    if chunks != [] {
      StaysBroken(site, Arrive(site, o, chunks[0]), chunks[1..]);
    }
  }

  /** What has been read to its end stays read. */
  lemma SettledThen(p: Parser, a: bytes, b: bytes)
    requires !Read(p, Chars(a)).NeedMore?
    ensures Read(p, Chars(a + b)).Failed? <==> Read(p, Chars(a)).Failed?
  {
    CharsJoin(a, b);
    ReadInTwo(p, Chars(a), Chars(b));
  }

  lemma {:induction false} FailureCloses(
      site: Site, c: C.Conn, p: Parser, r: Reading, arrived: bytes, held: bytes, chunks: seq<bytes>)
    requires Untouched(c) && Underway(p, r, arrived, held)
    requires Read(p, Chars(arrived + Concat(chunks))).Failed?
    ensures Broken(ArriveAll(site, Progress(Holding(c, held), r), chunks).conn)
    decreases |chunks|
  {
    assert chunks == [] ==> arrived + Concat(chunks) == arrived;
    if chunks != [] {
      var now := arrived + chunks[0];
      Assoc(arrived, chunks[0], Concat(chunks[1..]));
      var next := ArriveLeaves(site, c, p, r, arrived, held, chunks[0]);
      var reading := Read(p, Chars(now));
      if reading.NeedMore? {
        FailureCloses(site, c, p, reading, now, next, chunks[1..]);
      } else {
        SettledThen(p, now, Concat(chunks[1..]));
        BreaksOff(c, next);
        StaysBroken(site, Arrive(site, Progress(Holding(c, held), r), chunks[0]), chunks[1..]);
      }
    }
  }

  /**
   A new connection whose request line or one of whose headers is malformed, its bytes arriving in any
   chunks with anything behind them, has been closed without an answer.
   */
  lemma MalformedCloses(
      site: Site, requestLine: string, lines: seq<string>, request: bytes, behind: bytes, chunks: seq<bytes>)
    requires Plain(requestLine) && AllPlain(lines) && NonEmpty(lines)
    requires Chars(request) == Wire([requestLine] + (lines + [""])) && Concat(chunks) == request + behind
    requires Unreadable(requestLine, lines)
    ensures Broken(ArriveAll(site, Progress(C.Initial, NeedMore(Created, "")), chunks).conn)
  {
    FailsExactly(requestLine, lines, Chars(behind));
    CharsJoin(request, behind);
    assert [] + Concat(chunks) == Concat(chunks);
    assert Chars([]) == "" && Read(Created, "") == NeedMore(Created, "");
    assert Holding(C.Initial, []) == C.Initial;
    FailureCloses(site, C.Initial, Created, NeedMore(Created, ""), [], [], chunks);
  }
}
