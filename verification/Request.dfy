/**
 The HTTP upgrade request of rqparser.c on values: lines unfolded into headers, headers into
 fields, fields into a decision; and what that decision says about the header list.
 */
module Request {
  import opened Bytes

  // ---- Characters and C strings ----

  /** isspace in the C locale. */
  predicate IsSpace(c: char) {
    c == ' ' || '\t' <= c <= '\r'
  }

  function Lower(c: char): char {
    if 'A' <= c <= 'Z' then (c as int + 32) as char else c
  }

  lemma SpacesAre(c: char)
    ensures IsSpace(c) <==> c in " \t\n\U{0b}\U{0c}\r"
  {
  }

  /** The letters are lowered one by one, and nothing else is. */
  lemma LettersAre(k: nat, c: char)
    ensures k < 26 ==> Lower("ABCDEFGHIJKLMNOPQRSTUVWXYZ"[k]) == "abcdefghijklmnopqrstuvwxyz"[k]
    ensures c !in "ABCDEFGHIJKLMNOPQRSTUVWXYZ" ==> Lower(c) == c
  {
    if 'A' <= c <= 'Z' {
      UpperAt(c as int - 'A' as int);
    }
    if k < 26 {
      UpperAt(k);
      LowerAt(k);
    }
  }

  lemma UpperAt(k: nat)
    ensures k < 26 ==> "ABCDEFGHIJKLMNOPQRSTUVWXYZ"[k] == ('A' as int + k) as char
  {
  }

  lemma LowerAt(k: nat)
    ensures k < 26 ==> "abcdefghijklmnopqrstuvwxyz"[k] == ('a' as int + k) as char
  {
  }

  function Lowered(s: string): (r: string)
    ensures |r| == |s|
  {
    seq(|s|, i requires 0 <= i < |s| => Lower(s[i]))
  }

  /** strcasecmp. */
  predicate NoCase(a: string, b: string) {
    Lowered(a) == Lowered(b)
  }

  /** What a block of `capacity` characters keeps of a string. */
  function Fit(capacity: nat, s: string): (r: string)
    requires capacity > 0
    ensures |r| < capacity && r <= s
  {
    if |s| < capacity then s else s[..capacity - 1]
  }

  lemma FitTwice(capacity: nat, a: string, b: string)
    requires capacity > 0
    ensures Fit(capacity, Fit(capacity, a) + b) == Fit(capacity, a + b)
  {
    if |a| >= capacity {
      var n := capacity - 1;
      assert (a[..n] + b)[..n] == a[..n] == (a + b)[..n];
    }
  }

  function TrimStart(s: string): string {
    if s != "" && IsSpace(s[0]) then TrimStart(s[1..]) else s
  }

  function TrimEnd(s: string): string {
    if s != "" && IsSpace(s[|s| - 1]) then TrimEnd(s[..|s| - 1]) else s
  }

  function Trim(s: string): string {
    TrimEnd(TrimStart(s))
  }

  predicate Blank(s: string) {
    forall i :: 0 <= i < |s| ==> IsSpace(s[i])
  }

  /** Nothing left to trim. */
  predicate Tight(s: string) {
    s != "" ==> !IsSpace(s[0]) && !IsSpace(s[|s| - 1])
  }

  lemma {:induction false} TrimStartOf(blank: string, s: string)
    requires Blank(blank)
    requires s == "" || !IsSpace(s[0])
    ensures TrimStart(blank + s) == s
    decreases |blank|
  {
    if blank == "" {
      assert blank + s == s;
    } else {
      assert (blank + s)[1..] == blank[1..] + s;
      TrimStartOf(blank[1..], s);
    }
  }

  lemma {:induction false} TrimEndOf(s: string, blank: string)
    requires Blank(blank)
    requires s == "" || !IsSpace(s[|s| - 1])
    ensures TrimEnd(s + blank) == s
    decreases |blank|
  {
    if blank == "" {
      assert s + blank == s;
    } else {
      var n := |blank| - 1;
      assert (s + blank)[..|s| + n] == s + blank[..n];
      TrimEndOf(s, blank[..n]);
    }
  }

  /** Trimming takes off all the white space around a string and nothing else. */
  lemma TrimOf(before: string, s: string, after: string)
    requires Blank(before) && Blank(after) && Tight(s)
    ensures Trim(before + s + after) == s
  {
    Assoc(before, s, after);
    if s == "" {
      assert before + s + after == (before + after) + "";
      TrimStartOf(before + after, "");
    } else {
      assert (s + after)[0] == s[0];
      TrimStartOf(before, s + after);
      TrimEndOf(s, after);
    }
  }

  // ---- strtok ----

  /** How many characters come before the first delimiter. */
  function TokenLength(s: string, delimiters: string): (n: nat)
    ensures n <= |s| && (n < |s| ==> s[n] in delimiters)
    ensures forall i :: 0 <= i < n ==> s[i] !in delimiters
  {
    if s == "" || s[0] in delimiters then 0 else 1 + TokenLength(s[1..], delimiters)
  }

  /** The tokens that repeated calls of strtok return. */
  function Tokens(s: string, delimiters: string): seq<string>
    decreases |s|
  {
    if s == "" then []
    else if s[0] in delimiters then Tokens(s[1..], delimiters)
    else
      var n := TokenLength(s, delimiters);
      [s[..n]] + Tokens(s[n..], delimiters)
  }

  /** What strtok, which ends each token with a NUL, leaves to be read of a string: up to the end of the first token. */
  function FirstPart(s: string, delimiters: string): string {
    if s == "" then ""
    else if s[0] in delimiters then [s[0]] + FirstPart(s[1..], delimiters)
    else s[..TokenLength(s, delimiters)]
  }

  predicate Without(s: string, delimiters: string) {
    forall i :: 0 <= i < |s| ==> s[i] !in delimiters
  }

  predicate Only(s: string, delimiters: string) {
    forall i :: 0 <= i < |s| ==> s[i] in delimiters
  }

  lemma {:induction false} TokensAfterGap(gap: string, s: string, delimiters: string)
    requires Only(gap, delimiters)
    ensures Tokens(gap + s, delimiters) == Tokens(s, delimiters)
    decreases |gap|
  {
    if gap == "" {
      assert gap + s == s;
    } else {
      assert (gap + s)[1..] == gap[1..] + s;
      TokensAfterGap(gap[1..], s, delimiters);
    }
  }

  lemma TokensCons(token: string, rest: string, delimiters: string)
    requires token != "" && Without(token, delimiters) && (rest == "" || rest[0] in delimiters)
    ensures Tokens(token + rest, delimiters) == [token] + Tokens(rest, delimiters)
  {
    var s, n := token + rest, TokenLength(token + rest, delimiters);
    assert s[0] == token[0];
    assert forall i :: 0 <= i < |token| ==> s[i] == token[i];
    assert rest != "" ==> s[|token|] == rest[0];
    Halves(token, rest);
  }

  /** That is the delimiters in front of the first token and the token. */
  lemma {:induction false} FirstPartOf(gap: string, token: string, rest: string, delimiters: string)
    requires Only(gap, delimiters) && Without(token, delimiters) && (rest == "" || rest[0] in delimiters)
    requires token == "" ==> rest == ""
    ensures FirstPart(gap + (token + rest), delimiters) == gap + token
    decreases |gap|
  {
    var s := gap + (token + rest);
    if gap != "" {
      assert s[1..] == gap[1..] + (token + rest);
      FirstPartOf(gap[1..], token, rest, delimiters);
    } else if token != "" {
      assert s == token + rest && s[0] == token[0];
      assert TokenLength(s, delimiters) == |token| by {
        assert forall i :: 0 <= i < |token| ==> s[i] == token[i];
        assert rest != "" ==> s[|token|] == rest[0];
      }
    }
  }

  /** Each token followed by the delimiters after it. */
  function Joined(tokens: seq<string>, gaps: seq<string>): string
    requires |gaps| == |tokens|
  {
    if tokens == [] then "" else tokens[0] + (gaps[0] + Joined(tokens[1..], gaps[1..]))
  }

  /** Tokens, and at least one delimiter after each but the last. */
  predicate Separated(tokens: seq<string>, gaps: seq<string>, delimiters: string)
    requires |gaps| == |tokens|
  {
    && (forall i :: 0 <= i < |tokens| ==> tokens[i] != "" && Without(tokens[i], delimiters))
    && (forall i :: 0 <= i < |tokens| ==> Only(gaps[i], delimiters))
    && (forall i :: 0 <= i < |tokens| - 1 ==> gaps[i] != "")
  }

  /** Tokenising finds the tokens again, whatever delimiters separate them. */
  lemma {:induction false} TokensOfJoined(tokens: seq<string>, gaps: seq<string>, delimiters: string)
    requires |gaps| == |tokens| && Separated(tokens, gaps, delimiters)
    ensures Tokens(Joined(tokens, gaps), delimiters) == tokens
    decreases |tokens|
  {
    if tokens != [] {
      var rest := Joined(tokens[1..], gaps[1..]);
      TokensOfJoined(tokens[1..], gaps[1..], delimiters);
      TokensAfterGap(gaps[0], rest, delimiters);
      if gaps[0] == "" {
        assert gaps[0] + rest == "";
      }
      TokensCons(tokens[0], gaps[0] + rest, delimiters);
      assert [tokens[0]] + tokens[1..] == tokens;
    }
  }

  // ---- The fields of a request ----

  const METHOD_SIZE: nat := 16
  const RESOURCE_SIZE: nat := 256
  const VERSION_SIZE: nat := 16
  const HOST_SIZE: nat := 256
  const LIST_SIZE: nat := 64
  const ELEMENT_SIZE: nat := 16
  const WS_VERSION_SIZE: nat := 32
  const ORIGIN_SIZE: nat := 256
  const LINE_SIZE: nat := 4096

  const COMMA := ","
  const BLANKS := " \t"

  const HOST := "host"
  const UPGRADE := "upgrade"
  const CONNECTION := "connection"
  const KEY := "sec-websocket-key"
  const PROTOCOL := "sec-websocket-protocol"
  const VERSION := "sec-websocket-version"
  const ORIGIN := "origin"
  const WEBSOCKET := "websocket"
  const XMPP := "xmpp"

  datatype Fields = Fields(
    verb: string,
    resource: string,
    httpVersion: string,
    host: string,
    upgrade: string,
    connection: string,
    key: string,
    version: string,
    origin: string,
    protocol: string,
    protocols: seq<string>,
    upgradeFound: bool,
    connectionFound: bool)

  const Blanked := Fields("", "", "", "", "", "", "", "", "", "", [], false, false)

  datatype Header = Header(key: string, value: string)

  /** One element of a list, without the white space around it. */
  function Element(token: string): string {
    Fit(ELEMENT_SIZE, Trim(token))
  }

  /** New elements go to the head of the list. */
  function Prepended(list: seq<string>, tokens: seq<string>): seq<string>
    decreases |tokens|
  {
    if tokens == [] then list else Prepended([Element(tokens[0])] + list, tokens[1..])
  }

  /** _find_connection_upgrade, with 0 for its missing last return. */
  predicate ListsUpgrade(tokens: seq<string>) {
    exists t :: t in tokens && NoCase(Element(t), UPGRADE)
  }

  /** The seven headers the server looks at. */
  datatype Name = Host | Upgrade | Connection | Key | Protocol | Version | Origin | Other

  /** The name a key stands for: the comparisons of _process, in its order. */
  function NameOf(key: string): Name {
    if NoCase(key, HOST) then Host
    else if NoCase(key, UPGRADE) then Upgrade
    else if NoCase(key, CONNECTION) then Connection
    else if NoCase(key, KEY) then Key
    else if NoCase(key, PROTOCOL) then Protocol
    else if NoCase(key, VERSION) then Version
    else if NoCase(key, ORIGIN) then Origin
    else Other
  }

  /** _process. */
  function Process(f: Fields, h: Header): Fields {
    Record(f, NameOf(h.key), TrimStart(h.value))
  }

  function Record(f: Fields, name: Name, value: string): Fields {
    match name
    case Host => f.(host := Fit(HOST_SIZE, value))
    case Upgrade =>
      var text := Fit(LIST_SIZE, value);
      f.(upgrade := text, upgradeFound := f.upgradeFound || NoCase(text, WEBSOCKET))
    case Connection =>
      var text := Fit(LIST_SIZE, value);
      f.(connection := text, connectionFound := f.connectionFound || ListsUpgrade(Tokens(text, COMMA)))
    case Key => f.(key := Fit(LIST_SIZE, value))
    case Protocol =>
      var text := Fit(LIST_SIZE, value);
      f.(protocol := FirstPart(text, COMMA), protocols := Prepended(f.protocols, Tokens(text, COMMA)))
    case Version => f.(version := Fit(WS_VERSION_SIZE, value))
    case Origin => f.(origin := Lowered(Fit(ORIGIN_SIZE, value)))
    case Other => f
  }

  function ProcessAll(f: Fields, headers: seq<Header>): Fields
    decreases |headers|
  {
    if headers == [] then f else ProcessAll(Process(f, headers[0]), headers[1..])
  }

  /** parse_request_line; rqparser.c:336 stores the resource in the place of the HTTP version. */
  function RequestLine(f: Fields, line: string): Fields {
    var tokens := Tokens(line, BLANKS);
    var f := if |tokens| > 0 then f.(verb := Fit(METHOD_SIZE, tokens[0])) else f;
    var f := if |tokens| > 1 then f.(resource := Fit(RESOURCE_SIZE, tokens[1])) else f;
    if |tokens| > 2 then f.(httpVersion := Fit(VERSION_SIZE, tokens[1])) else f
  }

  predicate GoodRequestLine(line: string) {
    |Tokens(line, BLANKS)| > 2
  }

  // ---- Lines ----

  /** request_t; `line` is the logical header read so far. */
  datatype Parser = Parser(started: bool, line: string, done: bool, error: bool, fields: Fields)

  /** Where the first colon is; the length of the text if there is none. */
  function ColonAt(s: string): (n: nat)
    ensures n <= |s| && (n < |s| ==> s[n] == ':') && forall i :: 0 <= i < n ==> s[i] != ':'
  {
    if s == "" || s[0] == ':' then 0 else 1 + ColonAt(s[1..])
  }

  function HeaderOf(text: string): Header
    requires ColonAt(text) < |text|
  {
    Header(text[..ColonAt(text)], text[ColonAt(text) + 1..])
  }

  predicate Continues(line: string) {
    line != "" && IsSpace(line[0])
  }

  /** The end of rq_add_line: the line starts a new header or continues the one before. */
  function Store(p: Parser, line: string): Parser {
    if line == "" then p
    else p.(line := Fit(LINE_SIZE, if Continues(line) then p.line + line[1..] else line))
  }

  /** rq_add_line after the request line. */
  function HeaderLine(p: Parser, line: string): Parser {
    var p := p.(done := p.done || line == "");
    if Continues(line) || p.line == "" then Store(p, line)
    else if ColonAt(p.line) == |p.line| then p.(error := true)
    else Store(p.(fields := Process(p.fields, HeaderOf(p.line))), line)
  }

  /** rq_add_line. */
  function AddLine(p: Parser, line: string): Parser {
    if p.started then HeaderLine(p, line)
    else
      var p := p.(fields := RequestLine(p.fields, line));
      if GoodRequestLine(line) then p.(started := true, line := "") else p.(error := true)
  }

  function AddLines(p: Parser, lines: seq<string>): Parser
    decreases |lines|
  {
    if lines == [] then p else AddLines(AddLine(p, lines[0]), lines[1..])
  }

  const Created := Parser(false, "", false, false, Blanked)

  // ---- Unfold, then split ----

  /** The logical headers: each line joined with the lines that continue it. */
  function Unfold(held: string, lines: seq<string>): seq<string>
    decreases |lines|
  {
    if lines == [] then [held]
    else if Continues(lines[0]) then Unfold(held + lines[0][1..], lines[1..])
    else [held] + Unfold(lines[0], lines[1..])
  }

  predicate NonEmpty(lines: seq<string>) {
    forall i :: 0 <= i < |lines| ==> lines[i] != ""
  }

  predicate HasColon(text: string) {
    ColonAt(Fit(LINE_SIZE, text)) < |Fit(LINE_SIZE, text)|
  }

  /** An empty logical header is passed over. */
  predicate Readable(texts: seq<string>) {
    forall i :: 0 <= i < |texts| ==> texts[i] == "" || HasColon(texts[i])
  }

  /** Each logical header, cut to the size of the line, split at its first colon. */
  function SplitAll(texts: seq<string>): seq<Header>
    requires Readable(texts)
    decreases |texts|
  {
    if texts == [] then []
    else (if texts[0] == "" then [] else [HeaderOf(Fit(LINE_SIZE, texts[0]))]) + SplitAll(texts[1..])
  }

  lemma {:induction false} ErrorStays(p: Parser, lines: seq<string>)
    requires p.error
    ensures AddLines(p, lines).error
    decreases |lines|
  {
    if lines != [] {
      ErrorStays(AddLine(p, lines[0]), lines[1..]);
    }
  }

  lemma AddLinesCons(p: Parser, line: string, rest: seq<string>)
    ensures AddLines(p, [line] + rest) == AddLines(AddLine(p, line), rest)
  {
    assert ([line] + rest)[1..] == rest;
  }

  /** Reading the rest of a request whose logical header so far is `held`. */
  predicate ReadsTo(p: Parser, held: string, lines: seq<string>, q: Parser)
  {
    var texts := Unfold(held, lines);
    && q.done
    && (q.error <==> !Readable(texts))
    && (Readable(texts) ==> q.fields == ProcessAll(p.fields, SplitAll(texts)))
  }

  lemma LastLine(p: Parser, held: string)
    requires p.started && !p.error && p.line == Fit(LINE_SIZE, held)
    ensures ReadsTo(p, held, [], AddLine(p, ""))
  {
    assert Unfold(held, []) == [held] && [held][0] == held;
    if held != "" && HasColon(held) {
      var h := HeaderOf(Fit(LINE_SIZE, held));
      assert SplitAll([held]) == [h];
      assert ProcessAll(p.fields, [h]) == Process(p.fields, h);
    }
  }

  /** The lines up to the empty one are unfolded, then split; a header without a colon is an error. */
  lemma {:induction false} UnfoldsThenSplits(p: Parser, held: string, lines: seq<string>)
    requires p.started && !p.error && p.line == Fit(LINE_SIZE, held) && NonEmpty(lines)
    ensures ReadsTo(p, held, lines, AddLines(p, lines + [""]))
    decreases |lines|
  {
    if lines == [] {
      LastLine(p, held);
      assert [] + [""] == [""];
      AddLinesCons(p, "", []);
    } else {
      var line, rest := lines[0], lines[1..];
      assert lines + [""] == [line] + (rest + [""]);
      AddLinesCons(p, line, rest + [""]);
      var q := AddLine(p, line);
      if Continues(line) {
        FitTwice(LINE_SIZE, held, line[1..]);
        UnfoldsThenSplits(q, held + line[1..], rest);
      } else if held == "" || HasColon(held) {
        UnfoldsThenSplits(q, line, rest);
        NewHeader(p, held, line, rest, AddLines(q, rest + [""]));
      } else {
        ErrorStays(q, rest + [""]);
        EndsDone(q, rest);
        assert Unfold(held, lines)[0] == held;
      }
    }
  }

  lemma {:induction false} EndsDone(p: Parser, lines: seq<string>)
    requires p.started
    ensures AddLines(p, lines + [""]).done
    decreases |lines|
  {
    if lines == [] {
      assert [] + [""] == [""];
      AddLinesCons(p, "", []);
    } else {
      assert lines + [""] == [lines[0]] + (lines[1..] + [""]);
      AddLinesCons(p, lines[0], lines[1..] + [""]);
      EndsDone(AddLine(p, lines[0]), lines[1..]);
    }
  }

  // A line that starts a new header closes the one before.
  lemma NewHeader(p: Parser, held: string, line: string, rest: seq<string>, r: Parser)
    requires p.started && !p.error && p.line == Fit(LINE_SIZE, held) && line != "" && !Continues(line)
    requires held == "" || HasColon(held)
    requires ReadsTo(AddLine(p, line), line, rest, r)
    ensures ReadsTo(p, held, [line] + rest, r)
  {
    var texts := Unfold(line, rest);
    assert ([line] + rest)[1..] == rest;
    assert Unfold(held, [line] + rest) == [held] + texts;
    assert ([held] + texts)[1..] == texts;
    ReadableCons(held, texts);
    if held != "" && Readable(texts) {
      var h := HeaderOf(Fit(LINE_SIZE, held));
      assert ([h] + SplitAll(texts))[1..] == SplitAll(texts);
    }
    if held == "" && Readable(texts) {
      assert [] + SplitAll(texts) == SplitAll(texts);
    }
  }

  lemma ReadableCons(text: string, texts: seq<string>)
    ensures Readable([text] + texts) <==> (text == "" || HasColon(text)) && Readable(texts)
  {
    if Readable([text] + texts) {
      assert ([text] + texts)[0] == text;
      assert forall i :: 0 <= i < |texts| ==> ([text] + texts)[i + 1] == texts[i];
    }
  }

  // ---- Folding and back ----

  /** A continuation line: one white space, then text that may be empty. */
  datatype Continuation = Continuation(space: char, text: string)

  /** A header written on several lines. */
  datatype Folded = Folded(first: string, more: seq<Continuation>)

  function MoreLines(more: seq<Continuation>): (r: seq<string>)
    ensures |r| == |more|
    decreases |more|
  {
    if more == [] then [] else [[more[0].space] + more[0].text] + MoreLines(more[1..])
  }

  function MoreText(more: seq<Continuation>): string
    decreases |more|
  {
    if more == [] then "" else more[0].text + MoreText(more[1..])
  }

  function LinesOf(folded: Folded): seq<string> {
    [folded.first] + MoreLines(folded.more)
  }

  /** The header without its line breaks. */
  function TextOf(folded: Folded): string {
    folded.first + MoreText(folded.more)
  }

  predicate AllSpaces(more: seq<Continuation>) {
    forall i :: 0 <= i < |more| ==> IsSpace(more[i].space)
  }

  /** A folding of a header that fits the line. */
  predicate FoldingOf(folded: Folded, h: Header) {
    && folded.first != "" && !IsSpace(folded.first[0]) && AllSpaces(folded.more)
    && TextOf(folded) == h.key + ":" + h.value && |TextOf(folded)| < LINE_SIZE
    && ':' !in h.key
  }

  function AllLines(folded: seq<Folded>): seq<string>
    decreases |folded|
  {
    if folded == [] then [] else LinesOf(folded[0]) + AllLines(folded[1..])
  }

  function AllTexts(folded: seq<Folded>): seq<string>
    decreases |folded|
  {
    if folded == [] then [] else [TextOf(folded[0])] + AllTexts(folded[1..])
  }

  predicate FoldingsOf(folded: seq<Folded>, headers: seq<Header>)
    decreases |folded|
  {
    if folded == [] || headers == [] then folded == [] && headers == []
    else FoldingOf(folded[0], headers[0]) && FoldingsOf(folded[1..], headers[1..])
  }

  lemma {:induction false} UnfoldMore(held: string, more: seq<Continuation>, rest: seq<string>)
    requires AllSpaces(more)
    ensures Unfold(held, MoreLines(more) + rest) == Unfold(held + MoreText(more), rest)
    decreases |more|
  {
    if more == [] {
      assert MoreLines(more) + rest == rest && held + MoreText(more) == held;
    } else {
      var line, lines := [more[0].space] + more[0].text, MoreLines(more[1..]) + rest;
      assert MoreLines(more) + rest == [line] + lines && ([line] + lines)[1..] == lines;
      assert line[1..] == more[0].text;
      UnfoldMore(held + more[0].text, more[1..], rest);
      Assoc(held, more[0].text, MoreText(more[1..]));
    }
  }

  lemma UnfoldOne(held: string, folded: Folded, rest: seq<string>)
    requires folded.first != "" && !IsSpace(folded.first[0]) && AllSpaces(folded.more)
    ensures Unfold(held, LinesOf(folded) + rest) == [held] + Unfold(TextOf(folded), rest)
  {
    var lines := MoreLines(folded.more) + rest;
    assert LinesOf(folded) + rest == [folded.first] + lines && ([folded.first] + lines)[1..] == lines;
    UnfoldMore(folded.first, folded.more, rest);
  }

  /** Unfolding gives each header back on one line. */
  lemma {:induction false} UnfoldAll(held: string, folded: seq<Folded>, headers: seq<Header>)
    requires FoldingsOf(folded, headers)
    ensures Unfold(held, AllLines(folded)) == [held] + AllTexts(folded)
    decreases |folded|
  {
    if folded == [] {
      assert [held] + [] == [held];
    } else {
      UnfoldOne(held, folded[0], AllLines(folded[1..]));
      UnfoldAll(TextOf(folded[0]), folded[1..], headers[1..]);
    }
  }

  lemma {:induction false} FirstColon(key: string, value: string)
    requires ':' !in key
    ensures ColonAt(key + ":" + value) == |key|
    decreases |key|
  {
    if key != "" {
      assert (key + ":" + value)[1..] == key[1..] + ":" + value;
      FirstColon(key[1..], value);
    }
  }

  lemma HeaderBack(h: Header)
    requires ':' !in h.key
    ensures var text := h.key + ":" + h.value; ColonAt(text) < |text| && HeaderOf(text) == h
  {
    FirstColon(h.key, h.value);
    Middle(h.key, ":", h.value);
    Assoc(h.key, ":", h.value);
    Halves(h.key, ":" + h.value);
  }

  /** Splitting the unfolded headers gives every key and value back, in order. */
  lemma {:induction false} SplitBack(folded: seq<Folded>, headers: seq<Header>)
    requires FoldingsOf(folded, headers)
    ensures Readable(AllTexts(folded)) && SplitAll(AllTexts(folded)) == headers
    decreases |folded|
  {
    if folded != [] {
      var text, rest := TextOf(folded[0]), AllTexts(folded[1..]);
      SplitBack(folded[1..], headers[1..]);
      HeaderBack(headers[0]);
      ReadableCons(text, rest);
      assert ([text] + rest)[1..] == rest;
      assert [headers[0]] + headers[1..] == headers;
    }
  }

  lemma {:induction false} NonEmptyLines(folded: seq<Folded>, headers: seq<Header>)
    requires FoldingsOf(folded, headers)
    ensures NonEmpty(AllLines(folded))
    decreases |folded|
  {
    if folded != [] {
      NonEmptyLines(folded[1..], headers[1..]);
      NonEmptyMore(folded[0].more);
    }
  }

  lemma {:induction false} NonEmptyMore(more: seq<Continuation>)
    ensures NonEmpty(MoreLines(more))
    decreases |more|
  {
    if more != [] {
      NonEmptyMore(more[1..]);
    }
  }

  /** However the headers are folded, exactly they are processed, in order and without an error. */
  lemma FoldingDoesNotShow(requestLine: string, folded: seq<Folded>, headers: seq<Header>)
    requires GoodRequestLine(requestLine) && FoldingsOf(folded, headers)
    ensures var p := AddLines(Created, [requestLine] + (AllLines(folded) + [""]));
      p.done && !p.error && p.fields == ProcessAll(RequestLine(Blanked, requestLine), headers)
  {
    var p, lines := AddLine(Created, requestLine), AllLines(folded);
    AddLinesCons(Created, requestLine, lines + [""]);
    NonEmptyLines(folded, headers);
    UnfoldsThenSplits(p, "", lines);
    UnfoldAll("", folded, headers);
    SplitBack(folded, headers);
    ReadableCons("", AllTexts(folded));
    assert ([""] + AllTexts(folded))[1..] == AllTexts(folded);
    assert [] + headers == headers;
  }
}
