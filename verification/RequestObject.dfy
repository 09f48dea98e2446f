/**
 rqparser.c as it is written: a fixed block the lines are folded into, loops that trim and tokenise,
 and a request whose fields each line updates. Every method is tied to the functions of Request.
 */
module RequestObject {
  import opened Request
  import opened Handshake
  import Base64

  const NUL := '\0'

  /** What a block holds as a C string. */
  function TextIn(block: string): (r: string)
    ensures |r| <= |block| && r <= block
  {
    if block == "" || block[0] == NUL then "" else [block[0]] + TextIn(block[1..])
  }

  predicate CString(s: string) {
    NUL !in s
  }

  lemma {:induction false} TextEnds(block: string, n: nat)
    requires n < |block| && block[n] == NUL && forall i :: 0 <= i < n ==> block[i] != NUL
    ensures TextIn(block) == block[..n]
    decreases n
  {
    if n > 0 {
      TextEnds(block[1..], n - 1);
    }
  }

  lemma {:induction false} TextInside(block: string)
    requires NUL in block
    ensures var n := |TextIn(block)|; n < |block| && block[n] == NUL && CString(TextIn(block))
    decreases |block|
  {
    if block[0] != NUL {
      TextInside(block[1..]);
    }
  }

  /** h->line: a block that nothing has been written to, and whose last character is never written. */
  class LineBuffer {
    const block: array<char>

    ghost predicate Valid()
      reads block
    {
      block.Length == LINE_SIZE
    }

    /** The block holds a C string. */
    ghost predicate Terminated()
      reads block
    {
      NUL in block[..]
    }

    /** Its last character happens to be NUL, so that it always will. */
    ghost predicate Guarded()
      reads block
    {
      Valid() && block[LINE_SIZE - 1] == NUL
    }

    ghost function Contents(): string
      reads block
    {
      TextIn(block[..])
    }

    constructor (block: array<char>)
      requires block.Length == LINE_SIZE
      ensures Valid() && this.block == block
    {
      this.block := block;
    }

    /** line[0] = '\0'. */
    method Clear()
      requires Valid()
      modifies block
      ensures Valid() && Terminated() && Contents() == ""
      ensures old(Guarded()) ==> Guarded()
    {
      block[0] := NUL;
      assert block[..][0] == NUL;
    }

    /** strlen. */
    method Length() returns (n: nat)
      requires Valid() && Terminated()
      ensures n == |Contents()| && n < LINE_SIZE
    {
      TextInside(block[..]);
      n := 0;
      while block[n] != NUL
        invariant n <= |TextIn(block[..])| < LINE_SIZE
        invariant forall i :: 0 <= i < n ==> block[i] != NUL
        decreases LINE_SIZE - n
      {
        n := n + 1;
      }
      TextEnds(block[..], n);
    }

    method Text() returns (s: string)
      requires Valid() && Terminated()
      ensures s == Contents()
    {
      var n := Length();
      s := block[..n];
    }

    /**
     strncpy behind what is there: cut to the room that is left, or padded with NULs. The block holds a C
     string afterwards if and only if there was room for a NUL or the last character was one.
     */
    method Append(line: string)
      requires Valid() && Terminated() && CString(line)
      modifies block
      ensures Valid() && block[LINE_SIZE - 1] == old(block[LINE_SIZE - 1])
      ensures Terminated() <==> |old(Contents()) + line| < LINE_SIZE - 1 || block[LINE_SIZE - 1] == NUL
      ensures Terminated() ==> Contents() == Fit(LINE_SIZE, old(Contents()) + line)
    {
      ghost var held := Contents();
      TextInside(block[..]);
      var n := Length();
      var left := LINE_SIZE - n - 1;
      var k := 0;
      while k < left
        invariant 0 <= k <= left && Valid() && block[LINE_SIZE - 1] == old(block[LINE_SIZE - 1])
        invariant block[..n] == held
        invariant forall i :: n <= i < n + k ==> block[i] == if i - n < |line| then line[i - n] else NUL
      {
        block[n + k] := if k < |line| then line[k] else NUL;
        k := k + 1;
      }
      if |line| < left {
        assert block[..][n + |line|] == NUL;
        EndsThere(block[..], held, line, n + |line|);
      } else if block[LINE_SIZE - 1] == NUL {
        assert block[..][LINE_SIZE - 1] == NUL;
        EndsThere(block[..], held, line, LINE_SIZE - 1);
      } else {
        FullBlock(block[..], held, line);
      }
    }
  }

  lemma FullBlock(block: string, held: string, line: string)
    requires |block| == LINE_SIZE && CString(held) && CString(line) && |held| < LINE_SIZE
    requires block[..|held|] == held && |held| + |line| >= LINE_SIZE - 1 && block[LINE_SIZE - 1] != NUL
    requires forall i :: |held| <= i < LINE_SIZE - 1 ==> block[i] == line[i - |held|]
    ensures NUL !in block
  {
    assert forall i :: 0 <= i < |held| ==> block[i] == block[..|held|][i];
  }

  lemma EndsThere(block: string, held: string, line: string, end: nat)
    requires |block| == LINE_SIZE && CString(held) && CString(line) && |held| < LINE_SIZE
    requires end == if |held| + |line| < LINE_SIZE - 1 then |held| + |line| else LINE_SIZE - 1
    requires block[..|held|] == held && block[end] == NUL
    requires forall i :: |held| <= i < end ==> block[i] == line[i - |held|]
    ensures TextIn(block) == Fit(LINE_SIZE, held + line)
  {
    assert forall i :: 0 <= i < |held| ==> block[i] == block[..|held|][i];
    assert forall i :: 0 <= i < end ==> block[i] == (held + line)[i];
    TextEnds(block, end);
    assert block[..end] == Fit(LINE_SIZE, held + line);
  }

  // ---- The string helpers ----

  /** The loop of str_trim_beginning. */
  method TrimBeginning(capacity: nat, s: string) returns (r: string)
    requires capacity > 0
    ensures r == Fit(capacity, TrimStart(s))
  {
    var i := 0;
    while i < |s| && IsSpace(s[i])
      invariant 0 <= i <= |s|
      invariant TrimStart(s[i..]) == TrimStart(s)
    {
      i := i + 1;
    }
    r := Fit(capacity, s[i..]);
  }

  lemma TrimBetween(s: string, first: nat, last: nat)
    requires first <= last < |s| && Blank(s[..first]) && Blank(s[last + 1..])
    requires !IsSpace(s[first]) && !IsSpace(s[last])
    ensures Trim(s) == s[first..last + 1]
  {
    var middle := s[first..last + 1];
    assert s == s[..first] + middle + s[last + 1..];
    TrimOf(s[..first], middle, s[last + 1..]);
  }

  lemma TrimBlank(s: string)
    requires Blank(s)
    ensures Trim(s) == ""
  {
    assert s + "" + "" == s;
    TrimOf(s, "", "");
  }

  /** str_trim_whitespace: one pass that remembers the first and the last character to keep. */
  method TrimWhitespace(capacity: nat, s: string) returns (r: string)
    requires capacity > 0
    ensures r == Fit(capacity, Trim(s))
  {
    var found, first, last := false, 0, 0;
    var i := 0;
    while i < |s|
      invariant 0 <= i <= |s|
      invariant found ==> first <= last < i && !IsSpace(s[first]) && !IsSpace(s[last])
      invariant forall k :: 0 <= k < (if found then first else i) ==> IsSpace(s[k])
      invariant found ==> forall k :: last < k < i ==> IsSpace(s[k])
    {
      if !IsSpace(s[i]) {
        if !found {
          found, first := true, i;
        }
        last := i;
      }
      i := i + 1;
    }
    if found {
      TrimBetween(s, first, last);
      r := Fit(capacity, s[first..last + 1]);
    } else {
      TrimBlank(s);
      r := Fit(capacity, "");
    }
  }

  // Past the delimiters in front.
  method SkipDelimiters(s: string, delimiters: string) returns (i: nat)
    ensures i <= |s| && (i < |s| ==> s[i] !in delimiters)
    ensures Tokens(s[i..], delimiters) == Tokens(s, delimiters)
    ensures FirstPart(s, delimiters) == s[..i] + FirstPart(s[i..], delimiters)
  {
    i := 0;
    while i < |s| && s[i] in delimiters
      invariant 0 <= i <= |s|
      invariant Tokens(s[i..], delimiters) == Tokens(s, delimiters)
      invariant FirstPart(s, delimiters) == s[..i] + FirstPart(s[i..], delimiters)
    {
      FirstPartStep(s, i, delimiters);
      i := i + 1;
    }
  }

  lemma FirstPartStep(s: string, i: nat, delimiters: string)
    requires i < |s| && s[i] in delimiters
    ensures s[..i] + FirstPart(s[i..], delimiters) == s[..i + 1] + FirstPart(s[i + 1..], delimiters)
  {
    assert s[i..][1..] == s[i + 1..] && s[..i + 1] == s[..i] + [s[i]];
    Bytes.Assoc(s[..i], [s[i]], FirstPart(s[i + 1..], delimiters));
  }

  // The characters before the next delimiter.
  method MeasureToken(s: string, delimiters: string) returns (n: nat)
    ensures n == TokenLength(s, delimiters)
  {
    n := 0;
    while n < |s| && s[n] !in delimiters
      invariant n <= |s| && TokenLength(s, delimiters) == n + TokenLength(s[n..], delimiters)
    {
      n := n + 1;
    }
  }

  /** One call of strtok_r on what the calls before left over. */
  method NextToken(s: string, delimiters: string) returns (token: string, rest: string)
    ensures token == "" <==> Tokens(s, delimiters) == []
    ensures token != "" ==> Tokens(s, delimiters) == [token] + Tokens(rest, delimiters) && |rest| < |s|
  {
    var i := SkipDelimiters(s, delimiters);
    var n := MeasureToken(s[i..], delimiters);
    token := s[i..][..n];
    // The delimiter behind the token is overwritten with a NUL and passed over.
    rest := if i + n < |s| then s[i + n + 1..] else "";
    TokenBehind(s[i..], n, rest, delimiters);
  }

  lemma TokenBehind(s: string, n: nat, rest: string, delimiters: string)
    requires (s != "" ==> s[0] !in delimiters) && n == TokenLength(s, delimiters)
    requires rest == if n < |s| then s[n + 1..] else ""
    ensures s[..n] == "" <==> Tokens(s, delimiters) == []
    ensures s[..n] != "" ==> Tokens(s, delimiters) == [s[..n]] + Tokens(rest, delimiters)
  {
    if n < |s| {
      assert s[n..][1..] == s[n + 1..];
    }
  }

  /** What strtok leaves to be read of the string it cuts up. */
  method Remains(s: string, delimiters: string) returns (r: string)
    ensures r == FirstPart(s, delimiters)
  {
    var i := SkipDelimiters(s, delimiters);
    var n := MeasureToken(s[i..], delimiters);
    r := s[..i + n];
    assert r == s[..i] + s[i..][..n];
  }

  // ---- The request ----

  /** request_t. */
  class HttpRequest {
    const line: LineBuffer
    var started: bool
    var done: bool
    var error: bool
    var fields: Fields

    /** Before the request line has been read, nobody has written to the line. */
    ghost predicate Valid()
      reads this, line, line.block
    {
      line.Valid() && (started ==> line.Terminated())
    }

    ghost function Snapshot(): Parser
      reads this, line, line.block
    {
      Parser(started, if started then line.Contents() else "", done, error, fields)
    }

    /** rq_create. */
    constructor (line: LineBuffer)
      requires line.Valid()
      ensures Valid() && this.line == line && Snapshot() == Created
    {
      this.line := line;
      started, done, error := false, false, false;
      fields := Blanked;
    }

    /** The line has room for what it holds after `p`, or happens to end in a NUL. */
    ghost predicate Holds(p: Parser)
      reads line, line.block
    {
      line.Guarded() || |p.line| < LINE_SIZE - 1
    }

    /** rq_add_line. */
    method AddLine(text: string)
      requires Valid() && CString(text) && Holds(Request.AddLine(Snapshot(), text))
      modifies this, line.block
      ensures Valid() && Snapshot() == Request.AddLine(old(Snapshot()), text)
      ensures old(line.Guarded()) ==> line.Guarded()
    {
      if !started {
        var ok := ParseRequestLine(text);
        if !ok {
          error := true;
          return;
        }
        started := true;
        line.Clear();
        return;
      }
      AddHeaderLine(text);
    }

    method AddHeaderLine(text: string)
      requires Valid() && CString(text) && started && Holds(HeaderLine(Snapshot(), text))
      modifies this, line.block
      ensures Valid() && Snapshot() == HeaderLine(old(Snapshot()), text)
      ensures old(line.Guarded()) ==> line.Guarded()
    {
      if text == "" {
        done := true;
      }
      if text == "" || !IsSpace(text[0]) {
        var ok := CloseHeader();
        if !ok {
          return;
        }
      }
      StoreLine(text);
    }

    // The logical header read so far is complete: it is processed, or is an error.
    method CloseHeader() returns (ok: bool)
      requires Valid() && started
      modifies this`fields, this`error
      ensures var p := old(Snapshot());
        && ok == (p.line == "" || ColonAt(p.line) < |p.line|)
        && Snapshot() == if !ok then p.(error := true)
                         else if p.line == "" then p else p.(fields := Process(p.fields, HeaderOf(p.line)))
    {
      var header := line.Text();
      if header != "" {
        var colon := FindColon(header);
        if colon == |header| {
          error := true;
          return false;
        }
        ProcessHeader(header[..colon], header[colon + 1..]);
      }
      return true;
    }

    method StoreLine(text: string)
      requires Valid() && CString(text) && started && Holds(Store(Snapshot(), text))
      modifies line.block
      ensures Valid() && Snapshot() == Store(old(Snapshot()), text)
      ensures old(line.Guarded()) ==> line.Guarded()
    {
      if text == "" {
        return;
      }
      if IsSpace(text[0]) {
        line.Append(text[1..]);
      } else {
        line.Clear();
        line.Append(text);
        assert "" + text == text;
      }
    }

    /** parse_request_line; the words found before one is missing are kept. */
    method ParseRequestLine(text: string) returns (ok: bool)
      modifies this`fields
      ensures fields == RequestLine(old(fields), text) && ok == GoodRequestLine(text)
    {
      var verb, afterVerb := NextToken(text, BLANKS);
      if verb == "" {
        return false;
      }
      fields := fields.(verb := Fit(METHOD_SIZE, verb));
      var resource, afterResource := NextToken(afterVerb, BLANKS);
      if resource == "" {
        return false;
      }
      fields := fields.(resource := Fit(RESOURCE_SIZE, resource));
      var version, _ := NextToken(afterResource, BLANKS);
      if version == "" {
        return false;
      }
      fields := fields.(httpVersion := Fit(VERSION_SIZE, resource));
      return true;
    }

    /** _process. */
    method ProcessHeader(key: string, value: string)
      modifies this`fields
      ensures fields == Process(old(fields), Header(key, value))
    {
      if NoCase(key, HOST) {
        var text := TrimBeginning(HOST_SIZE, value);
        fields := fields.(host := text);
      } else if NoCase(key, UPGRADE) {
        var text := TrimBeginning(LIST_SIZE, value);
        fields := fields.(upgrade := text, upgradeFound := fields.upgradeFound || NoCase(text, WEBSOCKET));
      } else if NoCase(key, CONNECTION) {
        var text := TrimBeginning(LIST_SIZE, value);
        var found := FindConnectionUpgrade(text);
        fields := fields.(connection := text, connectionFound := fields.connectionFound || found);
      } else if NoCase(key, KEY) {
        var text := TrimBeginning(LIST_SIZE, value);
        fields := fields.(key := text);
      } else if NoCase(key, PROTOCOL) {
        var text := TrimBeginning(LIST_SIZE, value);
        GetProtocols(text);
      } else if NoCase(key, VERSION) {
        var text := TrimBeginning(WS_VERSION_SIZE, value);
        fields := fields.(version := text);
      } else if NoCase(key, ORIGIN) {
        var text := TrimBeginning(ORIGIN_SIZE, value);
        fields := fields.(origin := Lowered(text));
      }
    }

    /** _get_protocols; strtok_r cuts up the string it reads. */
    method GetProtocols(text: string)
      modifies this`fields
      ensures fields == old(fields).(
        protocol := FirstPart(text, COMMA), protocols := Prepended(old(fields).protocols, Tokens(text, COMMA)))
    {
      ghost var before := fields;
      var token, rest := NextToken(text, COMMA);
      while token != ""
        invariant fields == before.(protocols := fields.protocols)
        invariant Prepended(fields.protocols, Left(token, rest)) == Prepended(before.protocols, Tokens(text, COMMA))
        decreases token != "", |rest|
      {
        var element := TrimWhitespace(ELEMENT_SIZE, token);
        assert ([token] + Tokens(rest, COMMA))[1..] == Tokens(rest, COMMA);
        fields := fields.(protocols := [element] + fields.protocols);
        token, rest := NextToken(rest, COMMA);
      }
      var left := Remains(text, COMMA);
      fields := fields.(protocol := left);
    }
  }

  /** The list elements that are left: the token at hand, if any, and those behind it. */
  function Left(token: string, rest: string): seq<string> {
    if token == "" then [] else [token] + Tokens(rest, COMMA)
  }

  /** strchr for a colon. */
  method FindColon(s: string) returns (n: nat)
    ensures n == ColonAt(s)
  {
    n := 0;
    while n < |s| && s[n] != ':'
      invariant n <= |s| && ColonAt(s) == n + ColonAt(s[n..])
    {
      n := n + 1;
    }
  }

  /** _find_connection_upgrade. */
  method FindConnectionUpgrade(text: string) returns (found: bool)
    ensures found == ListsUpgrade(Tokens(text, COMMA))
  {
    var token, rest := NextToken(text, COMMA);
    while token != ""
      invariant ListsUpgrade(Tokens(text, COMMA)) <==> ListsUpgrade(Left(token, rest))
      decreases token != "", |rest|
    {
      var element := TrimWhitespace(ELEMENT_SIZE, token);
      ListsUpgradeCons(token, Tokens(rest, COMMA));
      if NoCase(element, UPGRADE) {
        return true;
      }
      token, rest := NextToken(rest, COMMA);
    }
    return false;
  }

  lemma ListsUpgradeCons(token: string, tokens: seq<string>)
    ensures ListsUpgrade([token] + tokens) <==> NoCase(Element(token), UPGRADE) || ListsUpgrade(tokens)
  {
  }

  /** rq_protocols_contains. */
  method ProtocolsContains(list: seq<string>, protocol: string) returns (found: bool)
    ensures found == (protocol in list)
  {
    var i := 0;
    while i < |list|
      invariant 0 <= i <= |list| && protocol !in list[..i]
    {
      if list[i] == protocol {
        return true;
      }
      i := i + 1;
    }
    return false;
  }

  /** rq_get_access, into a string of 64 characters. */
  method GetAccess(key: string, sha1: string -> digest) returns (accept: string)
    ensures accept == Base64.Encoded(sha1(key + "258EAFA5-E914-47DA-95CA-C5AB0DC85B11")) && |accept| == 28
  {
    var block := new char[64];
    var out := new Base64.Str(block);
    var hash := sha1(key + GUID);
    Base64.Encode(hash, out);
    Base64.EncodedShape(hash);
    accept := out.buffer[..out.length];
  }

  /** rq_analyze. */
  method Decide(f: Fields, c: Config, sha1: string -> digest) returns (ok: bool, response: Response)
    ensures response == Answer(f, c, sha1) && ok == (Analyze(f, c) == Accepted)
    ensures ok <==> response.Switching?
  {
    if !NoCase(f.verb, GET) {
      return false, Refused(405);
    }
    if !c.originOk(f.origin) {
      return false, Refused(403);
    }
    var offered := ProtocolsContains(f.protocols, XMPP);
    if !offered {
      return false, Refused(400);
    }
    if f.key == "" {
      return false, Refused(400);
    }
    if c.host.Some? && c.host.value != f.host {
      return false, Refused(400);
    }
    if !f.upgradeFound {
      return false, Refused(400);
    }
    if !f.connectionFound {
      return false, Refused(400);
    }
    if c.resource.Some? && !NoCase(f.resource, c.resource.value) {
      return false, Refused(404);
    }
    if f.version != THIRTEEN {
      return false, Refused(426);
    }
    var accept := GetAccess(f.key, sha1);
    return true, Switching(f.connection, accept);
  }
}
