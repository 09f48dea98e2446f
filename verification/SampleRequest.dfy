/**
 The request of section 1.3 of RFC 6455, with "xmpp" among the protocols offered, and its answer.
 */
module SampleRequest {
  import opened Wrappers
  import opened Request
  import opened Handshake
  import Base64

  const REQUEST_LINE := "GET /chat HTTP/1.1"

  /** The headers, one line each, as the RFC has them but for the protocols. */
  const HEADERS := [
    Header("Host", " " + "server.example.com"),
    Header("Upgrade", " " + "websocket"),
    Header("Connection", " " + "Upgrade"),
    Header("Sec-WebSocket-Key", " " + "dGhlIHNhbXBsZSBub25jZQ=="),
    Header("Origin", " " + "http://example.com"),
    Header("Sec-WebSocket-Protocol", " " + "chat, xmpp"),
    Header("Sec-WebSocket-Version", " " + "13")
  ]

  function LineOf(h: Header): Folded {
    Folded(h.key + ":" + h.value, [])
  }

  function LinesFor(headers: seq<Header>): seq<Folded>
    decreases |headers|
  {
    if headers == [] then [] else [LineOf(headers[0])] + LinesFor(headers[1..])
  }

  predicate Proper(h: Header) {
    h.key != "" && !IsSpace(h.key[0]) && ':' !in h.key && |h.key| + 1 + |h.value| < 4096
  }

  predicate AllProper(headers: seq<Header>) {
    forall i :: 0 <= i < |headers| ==> Proper(headers[i])
  }

  lemma {:induction false} LinesFold(headers: seq<Header>)
    requires AllProper(headers)
    ensures FoldingsOf(LinesFor(headers), headers)
    decreases |headers|
  {
    if headers != [] {
      LinesFold(headers[1..]);
      var h := headers[0];
      var text := h.key + ":" + h.value;
      assert MoreText([]) == "" && text + "" == text && text[0] == h.key[0];
      assert TextOf(LineOf(h)) == text;
    }
  }

  lemma ThreeWords(a: string, b: string, c: string)
    requires a != "" && b != "" && c != ""
    requires Without(a, BLANKS) && Without(b, BLANKS) && Without(c, BLANKS)
    ensures Tokens(a + (" " + (b + (" " + c))), BLANKS) == [a, b, c]
  {
    TokensCons(c, "", BLANKS);
    assert c + "" == c;
    TokensAfterGap(" ", c, BLANKS);
    TokensCons(b, " " + c, BLANKS);
    TokensAfterGap(" ", b + (" " + c), BLANKS);
    TokensCons(a, " " + (b + (" " + c)), BLANKS);
    assert [a] + ([b] + ([c] + [])) == [a, b, c];
  }

  lemma WordsJoined(verb: string, resource: string, version: string)
    requires verb == "GET" && resource == "/chat" && version == "HTTP/1.1"
    ensures verb + (" " + (resource + (" " + version))) == REQUEST_LINE
  {
  }

  lemma SampleWords(verb: string, resource: string, version: string)
    requires verb == "GET" && resource == "/chat" && version == "HTTP/1.1"
    ensures Tokens(REQUEST_LINE, BLANKS) == [verb, resource, version]
  {
    ThreeWords(verb, resource, version);
    WordsJoined(verb, resource, version);
  }

  /** What the code keeps as the HTTP version is the resource. */
  lemma ResourceAsVersion(f: Fields, verb: string, resource: string, version: string)
    requires verb == "GET" && resource == "/chat" && version == "HTTP/1.1"
    ensures RequestLine(f, REQUEST_LINE) == f.(verb := verb, resource := resource, httpVersion := resource)
  {
    SampleWords(verb, resource, version);
    RequestLineSets(f, REQUEST_LINE, verb, resource, version);
  }

  lemma RequestLineSets(f: Fields, line: string, verb: string, resource: string, version: string)
    requires Tokens(line, BLANKS) == [verb, resource, version] && |verb| < 16 && |resource| < 16
    ensures RequestLine(f, line) == f.(verb := verb, resource := resource, httpVersion := resource)
  {
  }

  lemma HostName()
    ensures NoCase("Host", "host")
  {
  }

  lemma UpgradeName()
    ensures NoCase("Upgrade", "upgrade")
  {
  }

  lemma ConnectionName()
    ensures NoCase("Connection", "connection")
  {
  }

  lemma KeyName()
    ensures NoCase("Sec-WebSocket-Key", "sec-websocket-key")
  {
  }

  lemma OriginName()
    ensures NoCase("Origin", "origin")
  {
  }

  lemma ProtocolName()
    ensures NoCase("Sec-WebSocket-Protocol", "sec-websocket-protocol")
  {
    assert Lowered("Sec-WebSocket-Protocol") == "sec-websocket-protocol";
  }

  lemma VersionName()
    ensures NoCase("Sec-WebSocket-Version", "sec-websocket-version")
  {
  }

  lemma {:induction false} LastAt(headers: seq<Header>, k: nat, name: string)
    requires k < |headers| && NoCase(headers[k].key, name)
    requires forall i :: k < i < |headers| ==> |headers[i].key| != |name|
    ensures Last(headers, name) == TrimStart(headers[k].value)
    decreases |headers|
  {
    var n := |headers| - 1;
    if k < n {
      assert !NoCase(headers[n].key, name) by {
        assert |Lowered(headers[n].key)| != |Lowered(name)|;
      }
      LastAt(headers[..n], k, name);
    }
  }

  lemma ValueAt(headers: seq<Header>, k: nat, name: string, value: string)
    requires k < |headers| && NoCase(headers[k].key, name)
    requires forall i :: k < i < |headers| ==> |headers[i].key| != |name|
    requires headers[k].value == " " + value && value != "" && !IsSpace(value[0])
    ensures Last(headers, name) == value
  {
    LastAt(headers, k, name);
    TrimStartOf(" ", value);
  }

  predicate KeyLengths(headers: seq<Header>) {
    && |headers| == 7 && |headers[0].key| == 4 && |headers[1].key| == 7 && |headers[2].key| == 10
    && |headers[3].key| == 17 && |headers[4].key| == 6 && |headers[5].key| == 22 && |headers[6].key| == 21
  }

  lemma HostValue(headers: seq<Header>, value: string)
    requires KeyLengths(headers) && headers[0] == Header("Host", " " + value)
    requires value == "server.example.com"
    ensures Last(headers, "host") == value
  {
    HostName();
    ValueAt(headers, 0, "host", value);
  }

  lemma ConnectionValue(headers: seq<Header>, value: string)
    requires KeyLengths(headers) && headers[2] == Header("Connection", " " + value)
    requires value == "Upgrade"
    ensures Last(headers, "connection") == value
  {
    ConnectionName();
    ValueAt(headers, 2, "connection", value);
  }

  lemma KeyValue(headers: seq<Header>, value: string)
    requires KeyLengths(headers) && headers[3] == Header("Sec-WebSocket-Key", " " + value)
    requires value == "dGhlIHNhbXBsZSBub25jZQ=="
    ensures Last(headers, "sec-websocket-key") == value
  {
    KeyName();
    ValueAt(headers, 3, "sec-websocket-key", value);
  }

  lemma OriginValue(headers: seq<Header>, value: string)
    requires KeyLengths(headers) && headers[4] == Header("Origin", " " + value)
    requires value == "http://example.com"
    ensures Last(headers, "origin") == value
  {
    OriginName();
    ValueAt(headers, 4, "origin", value);
  }

  lemma VersionValue(headers: seq<Header>, value: string)
    requires KeyLengths(headers) && headers[6] == Header("Sec-WebSocket-Version", " " + value)
    requires value == "13"
    ensures Last(headers, "sec-websocket-version") == value
  {
    VersionName();
    ValueAt(headers, 6, "sec-websocket-version", value);
  }

  lemma OneAsksWebSocket(h: Header, value: string)
    requires NoCase(h.key, UPGRADE) && h.value == " " + value && NoCase(value, WEBSOCKET)
    requires value != "" && !IsSpace(value[0])
    ensures AsksWebSocket(h)
  {
    TrimStartOf(" ", value);
  }

  lemma OneToken(word: string)
    requires word != "" && Without(word, COMMA)
    ensures Tokens(word, COMMA) == [word]
  {
    TokensCons(word, "", COMMA);
    assert word + "" == word;
    assert [word] + [] == [word];
  }

  lemma OneAsksUpgrade(h: Header, value: string)
    requires NoCase(h.key, CONNECTION) && h.value == " " + value && NoCase(value, UPGRADE)
    requires value != "" && Tight(value) && Without(value, COMMA) && |value| < 64
    ensures AsksUpgrade(h)
  {
    TrimStartOf(" ", value);
    TrimOf("", value, "");
    assert "" + value + "" == value;
    OneToken(value);
    assert value in [value];
  }

  lemma TwoTokens(first: string, second: string)
    requires first != "" && second != "" && Without(first, COMMA) && Without(second, COMMA)
    ensures Tokens(first + ("," + second), COMMA) == [first, second]
  {
    OneToken(second);
    TokensAfterGap(",", second, COMMA);
    TokensCons(first, "," + second, COMMA);
    assert [first] + [second] == [first, second];
  }

  lemma SecondInList(value: string, first: string, second: string)
    requires value == first + ("," + (" " + second)) && |value| < 64
    requires first != "" && Without(first, COMMA) && second != "" && Tight(second) && Without(second, COMMA)
    ensures var list := Tokens(Fit(64, value), COMMA); |list| == 2 && Trim(list[1]) == second
  {
    TwoTokens(first, " " + second);
    TrimOf(" ", second, "");
    assert " " + second + "" == " " + second;
  }

  lemma SecondOffersXmpp(h: Header, value: string, first: string)
    requires NoCase(h.key, PROTOCOL) && h.value == " " + value && value == first + ("," + (" " + XMPP))
    requires first != "" && !IsSpace(first[0]) && Without(first, COMMA) && |value| < 64
    ensures OffersXmpp(h)
  {
    TrimStartOf(" ", value);
    SecondInList(value, first, XMPP);
    assert ListOf(h)[1] in ListOf(h);
  }

  /** A configuration that has nothing against this host, resource and origin. */
  predicate Suits(c: Config) {
    && c.originOk("http://example.com")
    && (c.host == None || c.host == Some("server.example.com"))
    && (c.resource == None || c.resource == Some("/chat"))
  }

  /** What the headers say. */
  predicate SaysSo(headers: seq<Header>) {
    && Last(headers, "host") == "server.example.com" && Last(headers, "origin") == "http://example.com"
    && Last(headers, "sec-websocket-key") == "dGhlIHNhbXBsZSBub25jZQ=="
    && Last(headers, "sec-websocket-version") == "13" && Last(headers, "connection") == "Upgrade"
    && SomeAsksWebSocket(headers) && SomeAsksUpgrade(headers) && SomeOffersXmpp(headers)
  }

  lemma Members(headers: seq<Header>, a: Header, b: Header, c: Header)
    requires a in headers && b in headers && c in headers
    requires AsksWebSocket(a) && AsksUpgrade(b) && OffersXmpp(c)
    ensures SomeAsksWebSocket(headers) && SomeAsksUpgrade(headers) && SomeOffersXmpp(headers)
  {
  }

  lemma SampleAsksWebSocket(h: Header)
    requires h == Header("Upgrade", " " + "websocket")
    ensures AsksWebSocket(h)
  {
    UpgradeName();
    OneAsksWebSocket(h, WEBSOCKET);
  }

  lemma SampleAsksUpgrade(h: Header)
    requires h == Header("Connection", " " + "Upgrade")
    ensures AsksUpgrade(h)
  {
    ConnectionName();
    UpgradeName();
    OneAsksUpgrade(h, "Upgrade");
  }

  lemma SampleOffersXmpp(h: Header)
    requires h == Header("Sec-WebSocket-Protocol", " " + "chat, xmpp")
    ensures OffersXmpp(h)
  {
    ProtocolName();
    SecondOffersXmpp(h, "chat, xmpp", "chat");
  }

  lemma SampleLists(headers: seq<Header>, a: Header, b: Header, c: Header)
    requires a in headers && b in headers && c in headers
    requires a == Header("Upgrade", " " + "websocket") && b == Header("Connection", " " + "Upgrade")
    requires c == Header("Sec-WebSocket-Protocol", " " + "chat, xmpp")
    ensures SomeAsksWebSocket(headers) && SomeAsksUpgrade(headers) && SomeOffersXmpp(headers)
  {
    SampleAsksWebSocket(a);
    SampleAsksUpgrade(b);
    SampleOffersXmpp(c);
    Members(headers, a, b, c);
  }

  lemma SampleLengths(headers: seq<Header>)
    requires headers == HEADERS
    ensures KeyLengths(headers)
  {
  }

  lemma SampleHost(headers: seq<Header>)
    requires KeyLengths(headers) && headers[0] == Header("Host", " " + "server.example.com")
    ensures Last(headers, "host") == "server.example.com"
  {
    HostValue(headers, "server.example.com");
  }

  lemma SampleConnection(headers: seq<Header>)
    requires KeyLengths(headers) && headers[2] == Header("Connection", " " + "Upgrade")
    ensures Last(headers, "connection") == "Upgrade"
  {
    ConnectionValue(headers, "Upgrade");
  }

  lemma SampleKey(headers: seq<Header>)
    requires KeyLengths(headers) && headers[3] == Header("Sec-WebSocket-Key", " " + "dGhlIHNhbXBsZSBub25jZQ==")
    ensures Last(headers, "sec-websocket-key") == "dGhlIHNhbXBsZSBub25jZQ=="
  {
    KeyValue(headers, "dGhlIHNhbXBsZSBub25jZQ==");
  }

  lemma SampleOrigin(headers: seq<Header>)
    requires KeyLengths(headers) && headers[4] == Header("Origin", " " + "http://example.com")
    ensures Last(headers, "origin") == "http://example.com"
  {
    OriginValue(headers, "http://example.com");
  }

  lemma SampleVersion(headers: seq<Header>)
    requires KeyLengths(headers) && headers[6] == Header("Sec-WebSocket-Version", " " + "13")
    ensures Last(headers, "sec-websocket-version") == "13"
  {
    VersionValue(headers, "13");
  }

  lemma SampleSays(headers: seq<Header>)
    requires headers == HEADERS
    ensures SaysSo(headers)
  {
    SampleLengths(headers);
    SampleHost(headers);
    SampleConnection(headers);
    SampleKey(headers);
    SampleOrigin(headers);
    SampleVersion(headers);
    SampleLists(headers, headers[1], headers[2], headers[5]);
  }

  lemma OriginIsLower()
    ensures Lowered("http://example.com") == "http://example.com"
  {
  }

  lemma SampleAcceptable(headers: seq<Header>, words: seq<string>, c: Config)
    requires SaysSo(headers) && Suits(c) && words == ["GET", "/chat", "HTTP/1.1"]
    ensures Acceptable(words, headers, c)
  {
    OriginIsLower();
    assert Lowered("GET") == "get";
  }

  lemma SampleProper(headers: seq<Header>)
    requires headers == HEADERS
    ensures AllProper(headers)
  {
  }

  /** The hash that section 1.3 gives of the key and the fixed string. */
  const HASH: digest := [
    0xb3, 0x7a, 0x4f, 0x2c, 0xc0, 0x62, 0x4f, 0x16, 0x90, 0xf6,
    0x46, 0x06, 0xcf, 0x38, 0x59, 0x45, 0xb2, 0xbe, 0xc4, 0xea]

  lemma Group(data: seq<Base64.octet>, a: Base64.octet, b: Base64.octet, c: Base64.octet, rest: seq<Base64.octet>)
    requires data == [a, b, c] + rest
    ensures Base64.Encoded(data) == Base64.Digits(a, b, c) + Base64.Encoded(rest)
  {
    assert data[3..] == rest && data[0] == a && data[1] == b && data[2] == c;
  }

  lemma Grouped(a: Base64.octet, b: Base64.octet, c: Base64.octet, rest: seq<Base64.octet>, digits: string)
    requires Base64.Digits(a, b, c) == digits
    ensures Base64.Encoded([a, b, c] + rest) == digits + Base64.Encoded(rest)
  {
    Group([a, b, c] + rest, a, b, c, rest);
  }

  lemma LastGroup()
    ensures Base64.Encoded([0xc4, 0xea]) == "xOo="
  {
    assert Base64.Digits(0xc4, 0xea, 0) == "xOoA";
    assert "xOoA"[..3] == "xOo";
  }

  lemma HashDigits()
    ensures Base64.Digits(0xb3, 0x7a, 0x4f) == "s3pP" && Base64.Digits(0x2c, 0xc0, 0x62) == "LMBi"
    ensures Base64.Digits(0x4f, 0x16, 0x90) == "TxaQ" && Base64.Digits(0xf6, 0x46, 0x06) == "9kYG"
    ensures Base64.Digits(0xcf, 0x38, 0x59) == "zzhZ" && Base64.Digits(0x45, 0xb2, 0xbe) == "RbK+"
  {
  }

  lemma FirstHalf(rest: seq<Base64.octet>)
    ensures Base64.Encoded([0xb3, 0x7a, 0x4f] + ([0x2c, 0xc0, 0x62] + ([0x4f, 0x16, 0x90] + rest)))
      == "s3pP" + ("LMBi" + ("TxaQ" + Base64.Encoded(rest)))
  {
    HashDigits();
    Grouped(0x4f, 0x16, 0x90, rest, "TxaQ");
    Grouped(0x2c, 0xc0, 0x62, [0x4f, 0x16, 0x90] + rest, "LMBi");
    Grouped(0xb3, 0x7a, 0x4f, [0x2c, 0xc0, 0x62] + ([0x4f, 0x16, 0x90] + rest), "s3pP");
  }

  lemma SecondHalf(rest: seq<Base64.octet>)
    ensures Base64.Encoded([0xf6, 0x46, 0x06] + ([0xcf, 0x38, 0x59] + ([0x45, 0xb2, 0xbe] + rest)))
      == "9kYG" + ("zzhZ" + ("RbK+" + Base64.Encoded(rest)))
  {
    HashDigits();
    Grouped(0x45, 0xb2, 0xbe, rest, "RbK+");
    Grouped(0xcf, 0x38, 0x59, [0x45, 0xb2, 0xbe] + rest, "zzhZ");
    Grouped(0xf6, 0x46, 0x06, [0xcf, 0x38, 0x59] + ([0x45, 0xb2, 0xbe] + rest), "9kYG");
  }

  lemma HashSplit(rest: seq<Base64.octet>, end: seq<Base64.octet>)
    requires end == [0xc4, 0xea]
    requires rest == [0xf6, 0x46, 0x06] + ([0xcf, 0x38, 0x59] + ([0x45, 0xb2, 0xbe] + end))
    ensures HASH == [0xb3, 0x7a, 0x4f] + ([0x2c, 0xc0, 0x62] + ([0x4f, 0x16, 0x90] + rest))
  {
  }

  lemma TextJoined(end: string, more: string)
    requires end == "xOo=" && more == "9kYG" + ("zzhZ" + ("RbK+" + end))
    ensures "s3pP" + ("LMBi" + ("TxaQ" + more)) == "s3pPLMBiTxaQ9kYGzzhZRbK+xOo="
  {
  }

  lemma HashEncoded(end: seq<Base64.octet>)
    requires end == [0xc4, 0xea]
    ensures Base64.Encoded(HASH) == "s3pPLMBiTxaQ9kYGzzhZRbK+xOo="
  {
    var rest: seq<Base64.octet> := [0xf6, 0x46, 0x06] + ([0xcf, 0x38, 0x59] + ([0x45, 0xb2, 0xbe] + end));
    FirstHalf(rest);
    SecondHalf(end);
    LastGroup();
    TextJoined(Base64.Encoded(end), Base64.Encoded(rest));
    HashSplit(rest, end);
  }

  lemma SampleAnswer(headers: seq<Header>, words: seq<string>, c: Config, sha1: string -> digest, key: string)
    requires |words| > 2 && Acceptable(words, headers, c) && Last(headers, "connection") == "Upgrade"
    requires Last(headers, "sec-websocket-key") == key && |key| < 64
    ensures AnswerTo(words, headers, c, sha1)
      == Switching("Upgrade", Base64.Encoded(sha1(key + "258EAFA5-E914-47DA-95CA-C5AB0DC85B11")))
  {
    StatusExactly(words, headers, c);
  }

  /** Every configuration that suits accepts the request, read line by line, and answers as the RFC says. */
  lemma SampleAnswered(c: Config, sha1: string -> digest)
    requires Suits(c) && sha1("dGhlIHNhbXBsZSBub25jZQ==" + "258EAFA5-E914-47DA-95CA-C5AB0DC85B11") == HASH
    ensures var p := AddLines(Created, [REQUEST_LINE] + (AllLines(LinesFor(HEADERS)) + [""]));
      && p.done && !p.error
      && Answer(p.fields, c, sha1) == Switching("Upgrade", "s3pPLMBiTxaQ9kYGzzhZRbK+xOo=")
  {
    var headers := HEADERS;
    SampleProper(headers);
    LinesFold(headers);
    SampleSays(headers);
    SampleWords("GET", "/chat", "HTTP/1.1");
    SampleAcceptable(headers, ["GET", "/chat", "HTTP/1.1"], c);
    SampleAnswer(headers, ["GET", "/chat", "HTTP/1.1"], c, sha1, "dGhlIHNhbXBsZSBub25jZQ==");
    HashEncoded([0xc4, 0xea]);
    AnsweredExactly(REQUEST_LINE, LinesFor(headers), headers, c, sha1);
  }
}
