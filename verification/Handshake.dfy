/**
 The decision of rq_analyze, and what it says about the headers a client sent: which of several
 headers of one name counts, and which lists are searched.
 */
module Handshake {
  import opened Wrappers
  import opened Request
  import Base64

  /** The configuration; `originOk` stands for the list of origin patterns. */
  datatype Config = Config(host: Option<string>, resource: Option<string>, originOk: string -> bool)

  datatype Verdict = Accepted | MethodNotAllowed | Forbidden | BadRequest | NotFound | UpgradeRequired

  const GET := "GET"
  const THIRTEEN := "13"

  /** rq_analyze: the checks in their order. */
  function Analyze(f: Fields, c: Config): Verdict {
    if !NoCase(f.verb, GET) then MethodNotAllowed
    else if !c.originOk(f.origin) then Forbidden
    else if XMPP !in f.protocols then BadRequest
    else if f.key == "" then BadRequest
    else if c.host.Some? && c.host.value != f.host then BadRequest
    else if !f.upgradeFound then BadRequest
    else if !f.connectionFound then BadRequest
    else if c.resource.Some? && !NoCase(f.resource, c.resource.value) then NotFound
    else if f.version != THIRTEEN then UpgradeRequired
    else Accepted
  }

  // ---- What the fields say about the headers ----

  /** The value of the last header of this name in any case, without leading white space; empty if there is none. */
  function Last(headers: seq<Header>, name: string): string
    decreases |headers|
  {
    if headers == [] then ""
    else
      var h := headers[|headers| - 1];
      if NoCase(h.key, name) then TrimStart(h.value) else Last(headers[..|headers| - 1], name)
  }

  /** The elements of a list, cut where the block for it ends. */
  function ListOf(h: Header): seq<string> {
    Tokens(Fit(64, TrimStart(h.value)), ",")
  }

  predicate OffersXmpp(h: Header) {
    NoCase(h.key, "sec-websocket-protocol") && exists t :: t in ListOf(h) && Trim(t) == "xmpp"
  }

  predicate AsksWebSocket(h: Header) {
    NoCase(h.key, "upgrade") && NoCase(TrimStart(h.value), "websocket")
  }

  predicate AsksUpgrade(h: Header) {
    NoCase(h.key, "connection") && exists t :: t in ListOf(h) && NoCase(Trim(t), "upgrade")
  }

  predicate SomeAsksWebSocket(headers: seq<Header>) {
    exists h :: h in headers && AsksWebSocket(h)
  }

  predicate SomeAsksUpgrade(headers: seq<Header>) {
    exists h :: h in headers && AsksUpgrade(h)
  }

  predicate SomeOffersXmpp(headers: seq<Header>) {
    exists h :: h in headers && OffersXmpp(h)
  }

  /** The flags, found once, stay; so do the protocols. */
  predicate Found(f: Fields, headers: seq<Header>) {
    && (f.upgradeFound <==> SomeAsksWebSocket(headers))
    && (f.connectionFound <==> SomeAsksUpgrade(headers))
    && ("xmpp" in f.protocols <==> SomeOffersXmpp(headers))
  }

  /** Of the single values the last one counts. */
  predicate Latest(f: Fields, headers: seq<Header>) {
    && f.host == Fit(256, Last(headers, "host"))
    && f.key == Fit(64, Last(headers, "sec-websocket-key"))
    && f.version == Fit(32, Last(headers, "sec-websocket-version"))
    && f.origin == Lowered(Fit(256, Last(headers, "origin")))
    && f.upgrade == Fit(64, Last(headers, "upgrade"))
    && f.connection == Fit(64, Last(headers, "connection"))
  }

  /** Cutting to the block's size never makes or breaks a match with something short. */
  lemma FitMatches(capacity: nat, s: string, short: string)
    requires |short| + 1 < capacity
    ensures NoCase(Fit(capacity, s), short) <==> NoCase(s, short)
    ensures Fit(capacity, s) == short <==> s == short
  {
    if |s| >= capacity {
      assert |Lowered(Fit(capacity, s))| == capacity - 1 > |short|;
    }
  }

  lemma ElementMatches(token: string)
    ensures NoCase(Element(token), UPGRADE) <==> NoCase(Trim(token), UPGRADE)
    ensures Element(token) == XMPP <==> Trim(token) == XMPP
  {
    FitMatches(ELEMENT_SIZE, Trim(token), UPGRADE);
    FitMatches(ELEMENT_SIZE, Trim(token), XMPP);
  }

  lemma ListsUpgradeExactly(tokens: seq<string>)
    ensures ListsUpgrade(tokens) <==> exists t :: t in tokens && NoCase(Trim(t), UPGRADE)
  {
    forall t | t in tokens
      ensures NoCase(Element(t), UPGRADE) <==> NoCase(Trim(t), UPGRADE)
    {
      ElementMatches(t);
    }
  }

  /** The list grows by exactly the trimmed tokens. */
  lemma {:induction false} PrependedHolds(list: seq<string>, tokens: seq<string>)
    ensures XMPP in Prepended(list, tokens) <==> XMPP in list || exists t :: t in tokens && Trim(t) == XMPP
    decreases |tokens|
  {
    if tokens != [] {
      PrependedHolds([Element(tokens[0])] + list, tokens[1..]);
      ElementMatches(tokens[0]);
      assert tokens == [tokens[0]] + tokens[1..];
    }
  }

  /** The seven names apart. */
  lemma NamesSpelled(key: string)
    ensures NameOf(key) == Host <==> NoCase(key, "host")
    ensures NameOf(key) == Upgrade <==> NoCase(key, "upgrade")
    ensures NameOf(key) == Connection <==> NoCase(key, "connection")
    ensures NameOf(key) == Key <==> NoCase(key, "sec-websocket-key")
    ensures NameOf(key) == Protocol <==> NoCase(key, "sec-websocket-protocol")
    ensures NameOf(key) == Version <==> NoCase(key, "sec-websocket-version")
    ensures NameOf(key) == Origin <==> NoCase(key, "origin")
  {
  }

  lemma LastSnoc(headers: seq<Header>, h: Header, name: string)
    ensures Last(headers + [h], name) == if NoCase(h.key, name) then TrimStart(h.value) else Last(headers, name)
  {
    assert (headers + [h])[..|headers|] == headers;
  }

  lemma LatestStep(f: Fields, headers: seq<Header>, h: Header)
    requires Latest(f, headers)
    ensures Latest(Process(f, h), headers + [h])
  {
    NamesSpelled(h.key);
    LastSnoc(headers, h, HOST);
    LastSnoc(headers, h, KEY);
    LastSnoc(headers, h, VERSION);
    LastSnoc(headers, h, ORIGIN);
    LastSnoc(headers, h, UPGRADE);
    LastSnoc(headers, h, CONNECTION);
  }

  lemma SnocMembers(headers: seq<Header>, h: Header)
    ensures SomeAsksWebSocket(headers + [h]) <==> SomeAsksWebSocket(headers) || AsksWebSocket(h)
    ensures SomeAsksUpgrade(headers + [h]) <==> SomeAsksUpgrade(headers) || AsksUpgrade(h)
    ensures SomeOffersXmpp(headers + [h]) <==> SomeOffersXmpp(headers) || OffersXmpp(h)
  {
    assert h in headers + [h];
    assert forall g :: g in headers ==> g in headers + [h];
    assert forall g :: g in headers + [h] ==> g in headers || g == h;
  }

  lemma FlagStep(f: Fields, h: Header)
    ensures Process(f, h).upgradeFound <==> f.upgradeFound || AsksWebSocket(h)
  {
    NamesSpelled(h.key);
    FitMatches(LIST_SIZE, TrimStart(h.value), WEBSOCKET);
  }

  lemma ConnectionStep(f: Fields, h: Header)
    ensures Process(f, h).connectionFound <==> f.connectionFound || AsksUpgrade(h)
  {
    NamesSpelled(h.key);
    ListsUpgradeExactly(ListOf(h));
  }

  lemma ProtocolStep(f: Fields, h: Header)
    ensures XMPP in Process(f, h).protocols <==> XMPP in f.protocols || OffersXmpp(h)
  {
    NamesSpelled(h.key);
    ProtocolsAfter(f, NameOf(h.key), TrimStart(h.value));
    PrependedHolds(f.protocols, ListOf(h));
  }

  lemma ProtocolsAfter(f: Fields, name: Name, value: string)
    ensures Record(f, name, value).protocols
      == if name == Protocol then Prepended(f.protocols, Tokens(Fit(LIST_SIZE, value), COMMA)) else f.protocols
  {
  }

  // ---- What one header sets ----

  /** The trimmed elements, the last of them first, in front of the list as it was. */
  predicate InFront(list: seq<string>, tokens: seq<string>, result: seq<string>) {
    && |result| == |tokens| + |list| && result[|tokens|..] == list
    && forall k :: 0 <= k < |tokens| ==> result[k] == Fit(16, Trim(tokens[|tokens| - 1 - k]))
  }

  lemma {:induction false} PrependedInFront(list: seq<string>, tokens: seq<string>)
    ensures InFront(list, tokens, Prepended(list, tokens))
    decreases |tokens|
  {
    if tokens != [] {
      var more := [Element(tokens[0])] + list;
      PrependedInFront(more, tokens[1..]);
      var result, n := Prepended(more, tokens[1..]), |tokens| - 1;
      assert result[n..][0] == more[0] && result[n..][1..] == more[1..] == list;
      assert result[n..][1..] == result[n + 1..];
    }
  }

  /** A header with one of the seven names, in any case, sets exactly its own field; any other header none. */
  predicate SetsItsField(f: Fields, h: Header, g: Fields) {
    var value := TrimStart(h.value);
    && (NoCase(h.key, "host") ==> g == f.(host := Fit(256, value)))
    && (NoCase(h.key, "origin") ==> g == f.(origin := Lowered(Fit(256, value))))
    && (NoCase(h.key, "sec-websocket-key") ==> g == f.(key := Fit(64, value)))
    && (NoCase(h.key, "sec-websocket-version") ==> g == f.(version := Fit(32, value)))
    && (NoCase(h.key, "upgrade") ==>
      g == f.(upgrade := Fit(64, value), upgradeFound := f.upgradeFound || NoCase(value, "websocket")))
    && (NoCase(h.key, "connection") ==>
      g == f.(connection := Fit(64, value), connectionFound := f.connectionFound || AsksUpgrade(h)))
    && (NoCase(h.key, "sec-websocket-protocol") ==>
      && g == f.(protocol := g.protocol, protocols := g.protocols)
      && g.protocol == FirstPart(Fit(64, value), ",") && InFront(f.protocols, ListOf(h), g.protocols))
    && (Unknown(h.key) ==> g == f)
  }

  predicate Unknown(key: string) {
    && !NoCase(key, "host") && !NoCase(key, "upgrade") && !NoCase(key, "connection") && !NoCase(key, "origin")
    && !NoCase(key, "sec-websocket-key") && !NoCase(key, "sec-websocket-protocol")
    && !NoCase(key, "sec-websocket-version")
  }

  lemma EachHeaderSets(f: Fields, h: Header)
    ensures SetsItsField(f, h, Process(f, h))
  {
    NamesSpelled(h.key);
    FlagStep(f, h);
    ConnectionStep(f, h);
    PrependedInFront(f.protocols, ListOf(h));
  }

  lemma FoundStep(f: Fields, headers: seq<Header>, h: Header)
    requires Found(f, headers)
    ensures Found(Process(f, h), headers + [h])
  {
    SnocMembers(headers, h);
    FlagStep(f, h);
    ConnectionStep(f, h);
    ProtocolStep(f, h);
  }

  lemma SameLine(f: Fields, h: Header)
    ensures Process(f, h).verb == f.verb && Process(f, h).resource == f.resource
  {
  }

  lemma {:induction false} FieldsOf(f: Fields, headers: seq<Header>, more: seq<Header>)
    requires Latest(f, headers) && Found(f, headers)
    ensures var r := ProcessAll(f, more);
      && Latest(r, headers + more) && Found(r, headers + more)
      && r.verb == f.verb && r.resource == f.resource
    decreases |more|
  {
    if more == [] {
      assert headers + more == headers;
    } else {
      LatestStep(f, headers, more[0]);
      FoundStep(f, headers, more[0]);
      SameLine(f, more[0]);
      FieldsOf(Process(f, more[0]), headers + [more[0]], more[1..]);
      assert [more[0]] + more[1..] == more;
      Bytes.Assoc(headers, [more[0]], more[1..]);
    }
  }

  /** What a client must send to be accepted, in terms of the request line's words and the headers. */
  predicate Acceptable(words: seq<string>, headers: seq<Header>, c: Config)
    requires |words| > 2
  {
    && NoCase(words[0], "get")
    && (c.resource.Some? ==> NoCase(Fit(256, words[1]), c.resource.value))
    && c.originOk(Lowered(Fit(256, Last(headers, "origin"))))
    && (c.host.Some? ==> Fit(256, Last(headers, "host")) == c.host.value)
    && Last(headers, "sec-websocket-key") != ""
    && Last(headers, "sec-websocket-version") == "13"
    && SomeAsksWebSocket(headers) && SomeAsksUpgrade(headers) && SomeOffersXmpp(headers)
  }

  lemma DecisionExactly(f: Fields, words: seq<string>, headers: seq<Header>, c: Config)
    requires |words| > 2 && Latest(f, headers) && Found(f, headers)
    requires f.verb == Fit(METHOD_SIZE, words[0]) && f.resource == Fit(RESOURCE_SIZE, words[1])
    ensures Analyze(f, c) == Accepted <==> Acceptable(words, headers, c)
  {
    FitMatches(METHOD_SIZE, words[0], GET);
    FitMatches(WS_VERSION_SIZE, Last(headers, VERSION), THIRTEEN);
    FitMatches(LIST_SIZE, Last(headers, KEY), "");
  }

  /** A request, however its headers are folded, is accepted exactly when it is acceptable. */
  lemma AcceptedExactly(requestLine: string, folded: seq<Folded>, headers: seq<Header>, c: Config)
    requires GoodRequestLine(requestLine) && FoldingsOf(folded, headers)
    ensures var p := AddLines(Created, [requestLine] + (AllLines(folded) + [""]));
      && p.done && !p.error
      && (Analyze(p.fields, c) == Accepted <==> Acceptable(Tokens(requestLine, BLANKS), headers, c))
  {
    var f := RequestLine(Blanked, requestLine);
    FoldingDoesNotShow(requestLine, folded, headers);
    StartsEmpty(requestLine);
    FieldsOf(f, [], headers);
    assert [] + headers == headers;
    DecisionExactly(ProcessAll(f, headers), Tokens(requestLine, BLANKS), headers, c);
  }

  lemma StartsEmpty(requestLine: string)
    ensures Latest(RequestLine(Blanked, requestLine), []) && Found(RequestLine(Blanked, requestLine), [])
  {
    assert Lowered("") == "";
  }

  // ---- The answer ----

  /** The parts of a response that vary: the status, and what a successful one echoes and proves. */
  datatype Response = Refused(status: nat) | Switching(connection: string, accept: string)

  function StatusOf(v: Verdict): nat {
    match v
    case Accepted => 101
    case MethodNotAllowed => 405
    case Forbidden => 403
    case BadRequest => 400
    case NotFound => 404
    case UpgradeRequired => 426
  }

  const GUID := "258EAFA5-E914-47DA-95CA-C5AB0DC85B11"

  type digest = d: seq<Base64.octet> | |d| == 20 witness seq(20, _ => 0)

  /** Section 4.2.2 of RFC 6455: the key and the fixed string, hashed and encoded. */
  function AcceptOf(key: string, sha1: string -> digest): string {
    Base64.Encoded(sha1(key + GUID))
  }

  function Answer(f: Fields, c: Config, sha1: string -> digest): Response {
    var v := Analyze(f, c);
    if v == Accepted then Switching(f.connection, AcceptOf(f.key, sha1)) else Refused(StatusOf(v))
  }

  // ---- The answer in terms of the headers ----

  /** The status: of the first condition that is not met. */
  function StatusFor(words: seq<string>, headers: seq<Header>, c: Config): nat
    requires |words| > 2
  {
    if !NoCase(words[0], "get") then 405
    else if !c.originOk(Lowered(Fit(256, Last(headers, "origin")))) then 403
    else if !SomeOffersXmpp(headers) || Last(headers, "sec-websocket-key") == "" then 400
    else if c.host.Some? && Fit(256, Last(headers, "host")) != c.host.value then 400
    else if !SomeAsksWebSocket(headers) || !SomeAsksUpgrade(headers) then 400
    else if c.resource.Some? && !NoCase(Fit(256, words[1]), c.resource.value) then 404
    else if Last(headers, "sec-websocket-version") != "13" then 426
    else 101
  }

  /** A successful answer echoes Connection and proves, by section 4.2.2 of RFC 6455, that it has read the key. */
  function AnswerTo(words: seq<string>, headers: seq<Header>, c: Config, sha1: string -> digest): Response
    requires |words| > 2
  {
    var status := StatusFor(words, headers, c);
    if status != 101 then Refused(status)
    else
      var key := Fit(64, Last(headers, "sec-websocket-key"));
      Switching(
        Fit(64, Last(headers, "connection")), Base64.Encoded(sha1(key + "258EAFA5-E914-47DA-95CA-C5AB0DC85B11")))
  }

  lemma StatusExactly(words: seq<string>, headers: seq<Header>, c: Config)
    requires |words| > 2
    ensures StatusFor(words, headers, c) == 101 <==> Acceptable(words, headers, c)
  {
  }

  lemma StatusOfFields(f: Fields, words: seq<string>, headers: seq<Header>, c: Config)
    requires |words| > 2 && Latest(f, headers) && Found(f, headers)
    requires f.verb == Fit(METHOD_SIZE, words[0]) && f.resource == Fit(RESOURCE_SIZE, words[1])
    ensures StatusOf(Analyze(f, c)) == StatusFor(words, headers, c)
  {
    FitMatches(METHOD_SIZE, words[0], GET);
    FitMatches(WS_VERSION_SIZE, Last(headers, VERSION), THIRTEEN);
    FitMatches(LIST_SIZE, Last(headers, KEY), "");
  }

  /** A request, however its headers are folded, gets exactly this answer. */
  lemma AnsweredExactly(
      requestLine: string, folded: seq<Folded>, headers: seq<Header>, c: Config, sha1: string -> digest)
    requires GoodRequestLine(requestLine) && FoldingsOf(folded, headers)
    ensures var p := AddLines(Created, [requestLine] + (AllLines(folded) + [""]));
      && p.done && !p.error
      && Answer(p.fields, c, sha1) == AnswerTo(Tokens(requestLine, BLANKS), headers, c, sha1)
  {
    var f, words := RequestLine(Blanked, requestLine), Tokens(requestLine, BLANKS);
    FoldingDoesNotShow(requestLine, folded, headers);
    StartsEmpty(requestLine);
    FieldsOf(f, [], headers);
    assert [] + headers == headers;
    StatusOfFields(ProcessAll(f, headers), words, headers, c);
  }
}
