/**
 The WS_ST_START branch of wsconn_read_cb: complete lines are taken from the input and fed to the
 request parser until it is done, fails, or no complete line is left. What it makes of a request
 does not depend on how its bytes arrived.
 */
module RequestReader {
  import opened Bytes
  import opened Request
  import opened Handshake
  import opened RequestObject

  const LF := '\n'
  const CR := '\r'

  /** What the input so far comes to, with the characters not used up. */
  datatype Reading = NeedMore(parser: Parser, input: string) | Failed | Finished(fields: Fields, input: string)

  /** Where the first line ends; the length of the input if it does not. */
  function LineEnd(s: string): (n: nat)
    ensures n <= |s| && (n < |s| ==> s[n] == LF) && forall i :: 0 <= i < n ==> s[i] != LF
  {
    if s == "" || s[0] == LF then 0 else 1 + LineEnd(s[1..])
  }

  /** A line as evbuffer_readln returns it, without CRLF or LF, and read as a C string. */
  function LineText(s: string): string {
    TextIn(if s != "" && s[|s| - 1] == CR then s[..|s| - 1] else s)
  }

  function Read(p: Parser, input: string): Reading
    decreases |input|
  {
    var n := LineEnd(input);
    if n == |input| then NeedMore(p, input)
    else
      var q := AddLine(p, LineText(input[..n]));
      if q.error then Failed
      else if q.done then Finished(q.fields, input[n + 1..])
      else Read(q, input[n + 1..])
  }

  /** The reading after more characters have arrived. */
  function More(r: Reading, chunk: string): Reading {
    match r
    case NeedMore(p, input) => Read(p, input + chunk)
    case Failed => Failed
    case Finished(fields, input) => Finished(fields, input + chunk)
  }

  function ReadChunks(r: Reading, chunks: seq<string>): Reading
    decreases |chunks|
  {
    if chunks == [] then r else ReadChunks(More(r, chunks[0]), chunks[1..])
  }

  lemma SameLine(a: string, b: string)
    requires LineEnd(a) < |a|
    ensures var n := LineEnd(a);
      LineEnd(a + b) == n && (a + b)[..n] == a[..n] && (a + b)[n + 1..] == a[n + 1..] + b
  {
    var n, m := LineEnd(a), LineEnd(a + b);
    assert (a + b)[n] == a[n] == LF;
    assert forall i :: 0 <= i < n ==> (a + b)[i] == a[i];
    assert m == n;
  }

  // The first line is read alike; so is the rest, by induction.
  lemma FirstLineInTwo(p: Parser, a: string, b: string, n: nat)
    requires n == LineEnd(a) < |a|
    requires var q := AddLine(p, LineText(a[..n])); Read(q, a[n + 1..] + b) == More(Read(q, a[n + 1..]), b)
    ensures Read(p, a + b) == More(Read(p, a), b)
  {
    SameLine(a, b);
  }

  /** Reading in two parts is reading the whole. */
  lemma {:induction false} ReadInTwo(p: Parser, a: string, b: string)
    ensures Read(p, a + b) == More(Read(p, a), b)
    decreases |a|
  {
    var n := LineEnd(a);
    if n < |a| {
      ReadInTwo(AddLine(p, LineText(a[..n])), a[n + 1..], b);
      FirstLineInTwo(p, a, b, n);
    }
  }

  lemma {:induction false} MoreInTwo(r: Reading, a: string, b: string)
    ensures More(More(r, a), b) == More(r, a + b)
  {
    match r
    case NeedMore(p, input) =>
      Assoc(input, a, b);
      ReadInTwo(p, input + a, b);
    case Failed =>
    case Finished(_, input) =>
      Assoc(input, a, b);
  }

  /** However the request is cut into chunks, the reading is that of the whole. */
  lemma {:induction false} ChunksDoNotShow(p: Parser, chunks: seq<string>)
    ensures ReadChunks(Read(p, ""), chunks) == Read(p, Concat(chunks))
  {
    ChunksAfter(Read(p, ""), chunks);
    if chunks == [] {
      assert Read(p, "") == NeedMore(p, "");
    } else {
      assert "" + Concat(chunks) == Concat(chunks);
    }
  }

  lemma {:induction false} ChunksAfter(r: Reading, chunks: seq<string>)
    ensures chunks != [] ==> ReadChunks(r, chunks) == More(r, Concat(chunks))
    decreases |chunks|
  {
    if |chunks| == 1 {
      assert Concat(chunks) == chunks[0] + "" == chunks[0];
    } else if chunks != [] {
      ChunksAfter(More(r, chunks[0]), chunks[1..]);
      MoreInTwo(r, chunks[0], Concat(chunks[1..]));
    }
  }

  /** How much of the input a reading leaves. */
  function Unread(r: Reading): nat {
    if r.Failed? then 0 else |r.input|
  }

  predicate EndsWith<T(==)>(s: seq<T>, end: seq<T>) {
    |end| <= |s| && s[|s| - |end|..] == end
  }

  lemma EndOfTail<T>(s: seq<T>, n: nat, end: seq<T>)
    requires n <= |s| && EndsWith(s[n..], end)
    ensures EndsWith(s, end)
  {
  }

  /** A reading leaves an end of what it was given. */
  lemma {:induction false} LeavesAnEnd(p: Parser, input: string)
    ensures Unread(Read(p, input)) <= |input|
    ensures var r := Read(p, input); !r.Failed? ==> EndsWith(input, r.input)
    decreases |input|
  {
    var n := LineEnd(input);
    if n < |input| {
      var q, rest := AddLine(p, LineText(input[..n])), input[n + 1..];
      if !q.error && !q.done {
        LeavesAnEnd(q, rest);
        if !Read(q, rest).Failed? {
          EndOfTail(input, n + 1, Read(q, rest).input);
        }
      }
    }
  }

  /** Lines as a client writes them, each ended by CRLF. */
  function Wire(lines: seq<string>): string
    decreases |lines|
  {
    if lines == [] then "" else lines[0] + [CR, LF] + Wire(lines[1..])
  }

  predicate Plain(line: string) {
    NUL !in line && CR !in line && LF !in line
  }

  lemma {:induction false} TextInPlain(s: string)
    requires NUL !in s
    ensures TextIn(s) == s
  {
    if s != "" {
      TextInPlain(s[1..]);
      assert [s[0]] + s[1..] == s;
    }
  }

  lemma LineEndsThere(s: string, n: nat)
    requires n < |s| && s[n] == LF && forall i :: 0 <= i < n ==> s[i] != LF
    ensures LineEnd(s) == n
  {
    var m := LineEnd(s);
    assert m <= n;
  }

  lemma FirstLine(line: string, rest: string)
    requires Plain(line)
    ensures var s := line + [CR, LF] + rest; var n := LineEnd(s);
      n == |line| + 1 && n < |s| && LineText(s[..n]) == line && s[n + 1..] == rest
  {
    var s, n := line + [CR, LF] + rest, |line| + 1;
    assert s[n] == LF && s[n - 1] == CR;
    assert forall i :: 0 <= i < n - 1 ==> s[i] == line[i];
    LineEndsThere(s, n);
    assert s[..n] == line + [CR];
    assert (line + [CR])[..|line|] == line;
    TextInPlain(line);
  }

  predicate AllPlain(lines: seq<string>) {
    forall i :: 0 <= i < |lines| ==> Plain(lines[i])
  }

  /** Neither done nor in error on the way. */
  predicate Undecided(p: Parser, lines: seq<string>)
    decreases |lines|
  {
    lines != [] ==>
      var q := AddLine(p, lines[0]);
      !q.error && !q.done && Undecided(q, lines[1..])
  }

  /** A request written line by line is read line by line; what follows it is left alone. */
  lemma {:induction false} ReadsLines(p: Parser, lines: seq<string>, last: string, rest: string)
    requires AllPlain(lines) && Plain(last) && Undecided(p, lines)
    requires AddLines(p, lines + [last]).done && !AddLines(p, lines + [last]).error
    ensures Read(p, Wire(lines + [last]) + rest) == Finished(AddLines(p, lines + [last]).fields, rest)
    decreases |lines|
  {
    var all := lines + [last];
    var tail := all[1..];
    var remaining := Wire(tail) + rest;
    Assoc(all[0] + [CR, LF], Wire(tail), rest);
    FirstLine(all[0], remaining);
    if lines == [] {
      assert tail == [];
      assert Wire(tail) + rest == rest;
    } else {
      assert all[0] == lines[0] && tail == lines[1..] + [last];
      ReadsLines(AddLine(p, lines[0]), lines[1..], last, rest);
    }
  }

  lemma {:induction false} NoErrorBefore(p: Parser, lines: seq<string>, last: string)
    requires !p.done && NonEmpty(lines) && !AddLines(p, lines + [last]).error
    ensures Undecided(p, lines)
    decreases |lines|
  {
    if lines != [] {
      var q := AddLine(p, lines[0]);
      assert lines + [last] == [lines[0]] + (lines[1..] + [last]);
      AddLinesCons(p, lines[0], lines[1..] + [last]);
      if q.error {
        ErrorStays(q, lines[1..] + [last]);
      }
      NoErrorBefore(q, lines[1..], last);
    }
  }

  /**
   From bytes to the decision: a request whose headers are folded in any way and whose bytes arrive
   in any chunks is decided by what its headers say, and what follows it stays in the input.
   */
  lemma DecidedByItsHeaders(
      requestLine: string, folded: seq<Folded>, headers: seq<Header>, chunks: seq<string>, rest: string,
      c: Config, sha1: string -> digest)
    requires GoodRequestLine(requestLine) && FoldingsOf(folded, headers)
    requires AllPlain([requestLine] + AllLines(folded))
    requires Concat(chunks) == Wire([requestLine] + AllLines(folded) + [""]) + rest
    ensures var r := ReadChunks(Read(Created, ""), chunks);
      && r.Finished? && r.input == rest
      && (Analyze(r.fields, c) == Accepted <==> Acceptable(Tokens(requestLine, BLANKS), headers, c))
      && Answer(r.fields, c, sha1) == AnswerTo(Tokens(requestLine, BLANKS), headers, c, sha1)
  {
    var lines := [requestLine] + AllLines(folded);
    Assoc([requestLine], AllLines(folded), [""]);
    AcceptedExactly(requestLine, folded, headers, c);
    AnsweredExactly(requestLine, folded, headers, c, sha1);
    NonEmptyLines(folded, headers);
    NoErrorBefore(Created, lines, "");
    ReadsLines(Created, lines, "", rest);
    ChunksDoNotShow(Created, chunks);
  }

  // ---- Lines ended by a bare LF, lines with a NUL ----

  /** Lines ended by LF alone where `bare` says so, and by CRLF elsewhere. */
  function WireWith(lines: seq<string>, bare: seq<bool>): string
    requires |bare| == |lines|
    decreases |lines|
  {
    if lines == [] then "" else lines[0] + (if bare[0] then "\n" else "\r\n") + WireWith(lines[1..], bare[1..])
  }

  /** The same parser or fields; what follows a finished request is not compared. */
  predicate ReadAlike(r: Reading, q: Reading) {
    match r
    case NeedMore(_, _) => r == q
    case Failed => q.Failed?
    case Finished(fields, _) => q.Finished? && q.fields == fields
  }

  lemma FirstBareLine(line: string, rest: string)
    requires Plain(line)
    ensures var s := line + "\n" + rest; var n := LineEnd(s);
      n == |line| && n < |s| && LineText(s[..n]) == line && s[n + 1..] == rest
  {
    var s, n := line + "\n" + rest, |line|;
    assert s[n] == LF;
    assert forall i :: 0 <= i < n ==> s[i] == line[i];
    LineEndsThere(s, n);
    assert s[..n] == line;
    TextInPlain(line);
  }

  lemma FirstBareLineRead(p: Parser, line: string, wire: string, rest: string)
    requires Plain(line)
    ensures var q := AddLine(p, line);
      Read(p, line + "\n" + wire + rest)
      == if q.error then Failed else if q.done then Finished(q.fields, wire + rest) else Read(q, wire + rest)
  {
    Assoc(line + "\n", wire, rest);
    FirstBareLine(line, wire + rest);
  }

  /** How a line ends does not show. */
  lemma {:induction false} EndingsDoNotShow(p: Parser, lines: seq<string>, bare: seq<bool>, rest: string)
    requires |bare| == |lines| && AllPlain(lines)
    ensures ReadAlike(Read(p, WireWith(lines, bare) + rest), Read(p, Wire(lines) + rest))
    decreases |lines|
  {
    if lines != [] {
      FirstLineRead(p, lines[0], Wire(lines[1..]), rest);
      if bare[0] {
        FirstBareLineRead(p, lines[0], WireWith(lines[1..], bare[1..]), rest);
      } else {
        FirstLineRead(p, lines[0], WireWith(lines[1..], bare[1..]), rest);
      }
      EndingsDoNotShow(AddLine(p, lines[0]), lines[1..], bare[1..], rest);
    }
  }

  /** Behind a NUL nothing of a line is read. */
  lemma {:induction false} NulEndsLine(line: string, lost: string)
    requires NUL !in line
    ensures TextIn(line + "\0" + lost) == line
    decreases |line|
  {
    var s := line + "\0" + lost;
    if line == "" {
      assert s[0] == NUL;
    } else {
      assert s[0] == line[0] && s[1..] == line[1..] + "\0" + lost;
      NulEndsLine(line[1..], lost);
    }
  }

  /** If adding the lines ends in an error, so does reading them. */
  lemma {:induction false} FailsOnTheWay(p: Parser, lines: seq<string>, rest: string)
    requires p.started && !p.done && !p.error && AllPlain(lines) && NonEmpty(lines)
    requires AddLines(p, lines + [""]).error
    ensures Read(p, Wire(lines + [""]) + rest).Failed?
    decreases |lines|
  {
    var all := lines + [""];
    var q, tail := AddLine(p, all[0]), all[1..];
    FirstLineRead(p, all[0], Wire(tail), rest);
    if lines != [] && !q.error {
      assert tail == lines[1..] + [""];
      FailsOnTheWay(q, lines[1..], rest);
    }
  }

  lemma FirstLineRead(p: Parser, line: string, wire: string, rest: string)
    requires Plain(line)
    ensures var q := AddLine(p, line);
      Read(p, line + [CR, LF] + wire + rest)
      == if q.error then Failed else if q.done then Finished(q.fields, wire + rest) else Read(q, wire + rest)
  {
    Assoc(line + [CR, LF], wire, rest);
    FirstLine(line, wire + rest);
  }

  /** Fewer than three words in the request line, or a header without a colon among the characters that are kept. */
  predicate Unreadable(requestLine: string, lines: seq<string>) {
    || |Tokens(requestLine, " \t")| < 3
    || exists text :: text in Unfold("", lines) && text != "" && ':' !in Fit(4096, text)
  }

  lemma UnreadableIs(requestLine: string, lines: seq<string>)
    ensures Unreadable(requestLine, lines) <==> !GoodRequestLine(requestLine) || !Readable(Unfold("", lines))
  {
    var texts := Unfold("", lines);
    assert forall text :: HasColon(text) <==> ':' in Fit(4096, text);
    if !Readable(texts) {
      var i :| 0 <= i < |texts| && texts[i] != "" && !HasColon(texts[i]);
      assert texts[i] in texts;
    }
  }

  /** A request fails to be read if and only if its request line or one of its headers is malformed. */
  lemma FailsExactly(requestLine: string, lines: seq<string>, rest: string)
    requires Plain(requestLine) && AllPlain(lines) && NonEmpty(lines)
    ensures var r := Read(Created, Wire([requestLine] + (lines + [""])) + rest);
      && (r.Failed? <==> Unreadable(requestLine, lines))
      && (!r.Failed? ==> r.Finished? && r.input == rest)
  {
    var p, all := AddLine(Created, requestLine), lines + [""];
    UnreadableIs(requestLine, lines);
    assert ([requestLine] + all)[1..] == all;
    FirstLineRead(Created, requestLine, Wire(all), rest);
    if GoodRequestLine(requestLine) {
      UnfoldsThenSplits(p, "", lines);
      if AddLines(p, all).error {
        FailsOnTheWay(p, lines, rest);
      } else {
        NoErrorBefore(p, lines, "");
        ReadsLines(p, lines, "", rest);
      }
    }
  }

  // ---- Requests whose headers leave room for a NUL ----

  /** No logical header takes up the last character but one of the line before the reading ends. */
  predicate ShortLines(p: Parser, input: string)
    decreases |input|
  {
    var n := LineEnd(input);
    n < |input| ==>
      var q := AddLine(p, LineText(input[..n]));
      |q.line| < LINE_SIZE - 1 && (!q.error && !q.done ==> ShortLines(q, input[n + 1..]))
  }

  /** The same of lines that have been taken apart. */
  predicate StaysShort(p: Parser, lines: seq<string>)
    decreases |lines|
  {
    lines != [] ==>
      var q := AddLine(p, lines[0]);
      |q.line| < LINE_SIZE - 1 && (!q.error && !q.done ==> StaysShort(q, lines[1..]))
  }

  predicate ShortTexts(texts: seq<string>) {
    forall i :: 0 <= i < |texts| ==> |texts[i]| < LINE_SIZE - 1
  }

  lemma {:induction false} UnfoldGrows(held: string, lines: seq<string>)
    ensures var texts := Unfold(held, lines); texts != [] && |held| <= |texts[0]|
    decreases |lines|
  {
    if lines != [] && Continues(lines[0]) {
      UnfoldGrows(held + lines[0][1..], lines[1..]);
    }
  }

  /** If no logical header is longer, the line never is. */
  lemma {:induction false} ShortTextsStayShort(p: Parser, held: string, lines: seq<string>)
    requires p.started && p.line == held && NonEmpty(lines) && ShortTexts(Unfold(held, lines))
    ensures StaysShort(p, lines + [""])
    decreases |lines|
  {
    UnfoldGrows(held, lines);
    assert |held| < LINE_SIZE - 1;
    if lines == [] {
      assert [] + [""] == [""] && [""][1..] == [];
    } else {
      var line, rest := lines[0], lines[1..];
      assert (lines + [""])[0] == line && (lines + [""])[1..] == rest + [""];
      var q := AddLine(p, line);
      if Continues(line) {
        UnfoldGrows(held + line[1..], rest);
        ShortTextsStayShort(q, held + line[1..], rest);
      } else {
        UnfoldGrows(line, rest);
        assert Unfold(held, lines) == [held] + Unfold(line, rest);
        assert ShortTexts(Unfold(line, rest)) by {
          ShortTail(held, Unfold(line, rest));
        }
        if !q.error {
          ShortTextsStayShort(q, line, rest);
        }
      }
    }
  }

  lemma ShortTail(text: string, texts: seq<string>)
    requires ShortTexts([text] + texts)
    ensures ShortTexts(texts)
  {
    assert forall i :: 0 <= i < |texts| ==> ([text] + texts)[i + 1] == texts[i];
  }

  lemma {:induction false} WireStaysShort(p: Parser, lines: seq<string>, last: string, rest: string)
    requires AllPlain(lines) && Plain(last) && Undecided(p, lines) && StaysShort(p, lines + [last])
    requires AddLines(p, lines + [last]).done
    ensures ShortLines(p, Wire(lines + [last]) + rest)
    decreases |lines|
  {
    var all := lines + [last];
    var tail := all[1..];
    var remaining := Wire(tail) + rest;
    Assoc(all[0] + [CR, LF], Wire(tail), rest);
    FirstLine(all[0], remaining);
    if lines != [] {
      assert all[0] == lines[0] && tail == lines[1..] + [last];
      WireStaysShort(AddLine(p, lines[0]), lines[1..], last, rest);
    } else {
      assert tail == [];
    }
  }

  /** A request whose headers have fewer than 4095 characters needs no NUL at the end of the line. */
  lemma ShortRequest(requestLine: string, folded: seq<Folded>, headers: seq<Header>, rest: string)
    requires GoodRequestLine(requestLine) && FoldingsOf(folded, headers) && ShortTexts(AllTexts(folded))
    requires AllPlain([requestLine] + AllLines(folded))
    ensures ShortLines(Created, Wire([requestLine] + AllLines(folded) + [""]) + rest)
  {
    var lines := [requestLine] + AllLines(folded);
    var p := AddLine(Created, requestLine);
    Assoc([requestLine], AllLines(folded), [""]);
    FoldingDoesNotShow(requestLine, folded, headers);
    NonEmptyLines(folded, headers);
    NoErrorBefore(Created, lines, "");
    UnfoldAll("", folded, headers);
    assert ShortTexts([""] + AllTexts(folded));
    ShortTextsStayShort(p, "", AllLines(folded));
    assert (lines + [""])[0] == requestLine && (lines + [""])[1..] == AllLines(folded) + [""];
    WireStaysShort(Created, lines, "", rest);
  }

  /** The loop over evbuffer_readln. */
  method ReadRequest(h: HttpRequest, arrived: string) returns (input: string, failed: bool, finished: bool)
    requires h.Valid() && (h.line.Guarded() || ShortLines(h.Snapshot(), arrived))
    modifies h, h.line.block
    ensures h.Valid() && (old(h.line.Guarded()) ==> h.line.Guarded())
    ensures var r := Read(old(h.Snapshot()), arrived);
      && failed == r.Failed? && finished == r.Finished?
      && (finished ==> r == Finished(h.fields, input))
      && (r.NeedMore? ==> r == NeedMore(h.Snapshot(), input))
  {
    input := arrived;
    ghost var r := Read(h.Snapshot(), arrived);
    while true
      invariant h.Valid() && Read(h.Snapshot(), input) == r
      invariant h.line.Guarded() || ShortLines(h.Snapshot(), input)
      invariant old(h.line.Guarded()) ==> h.line.Guarded()
      decreases |input|
    {
      var n := FindLine(input);
      if n == |input| {
        return input, false, false;
      }
      input := ReadLine(h, input, n);
      if h.error {
        return input, true, false;
      }
      if h.done {
        return input, false, true;
      }
    }
  }

  /** The reading after one line, in terms of the parser after it. */
  predicate GoesOn(p: Parser, input: string, q: Parser, rest: string) {
    && Read(p, input) == (if q.error then Failed else if q.done then Finished(q.fields, rest) else Read(q, rest))
    && (ShortLines(p, input) ==> |q.line| < LINE_SIZE - 1 && (!q.error && !q.done ==> ShortLines(q, rest)))
  }

  lemma OneLineOn(p: Parser, input: string, n: nat)
    requires n == LineEnd(input) < |input|
    ensures GoesOn(p, input, AddLine(p, LineText(input[..n])), input[n + 1..])
  {
  }

  // One line goes to the request parser, whose state after it is known.
  method AddText(h: HttpRequest, text: string, ghost q: Parser)
    requires h.Valid() && CString(text) && q == AddLine(h.Snapshot(), text) && h.Holds(q)
    modifies h, h.line.block
    ensures h.Valid() && h.Snapshot() == q && (old(h.line.Guarded()) ==> h.line.Guarded())
  {
    h.AddLine(text);
  }

  // The first line of the input; the request parser's flags tell whether to go on.
  method ReadLine(h: HttpRequest, input: string, n: nat) returns (rest: string)
    requires h.Valid() && n == LineEnd(input) < |input|
    requires h.line.Guarded() || ShortLines(h.Snapshot(), input)
    modifies h, h.line.block
    ensures h.Valid() && |rest| < |input| && (old(h.line.Guarded()) ==> h.line.Guarded())
    ensures GoesOn(old(h.Snapshot()), input, h.Snapshot(), rest)
  {
    ghost var q := AddLine(h.Snapshot(), LineText(input[..n]));
    OneLineOn(h.Snapshot(), input, n);
    var line := TakeLine(input[..n]);
    AddText(h, line, q);
    rest := input[n + 1..];
  }

  method FindLine(s: string) returns (n: nat)
    ensures n == LineEnd(s)
  {
    n := 0;
    while n < |s| && s[n] != LF
      invariant n <= |s| && LineEnd(s) == n + LineEnd(s[n..])
    {
      n := n + 1;
    }
  }

  method TakeLine(s: string) returns (line: string)
    ensures line == LineText(s) && CString(line)
  {
    var text := if s != "" && s[|s| - 1] == CR then s[..|s| - 1] else s;
    var n := 0;
    while n < |text| && text[n] != NUL
      invariant n <= |text| && forall i :: 0 <= i < n ==> text[i] != NUL
    {
      n := n + 1;
    }
    line := text[..n];
    if n < |text| {
      TextEnds(text, n);
    } else {
      TextInPlain(text);
    }
  }
}
