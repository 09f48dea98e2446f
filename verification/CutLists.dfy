/**
 The lists of Connection and Sec-WebSocket-Protocol are cut to their block before they are searched. Which
 lists are searched whole, and when the search of a cut list finds what a search of the whole one would.
 */
module CutLists {
  import opened Bytes
  import opened Request
  import opened Handshake

  // ---- Which lists are searched whole ----

  /** How many characters are part of some token. */
  function TokenChars(s: string, delimiters: string): nat {
    if s == "" then 0 else (if s[0] in delimiters then 0 else 1) + TokenChars(s[1..], delimiters)
  }

  lemma {:induction false} TokenCharsJoin(a: string, b: string, delimiters: string)
    ensures TokenChars(a + b, delimiters) == TokenChars(a, delimiters) + TokenChars(b, delimiters)
    decreases |a|
  {
    if a == "" {
      assert a + b == b;
    } else {
      assert (a + b)[1..] == a[1..] + b;
      TokenCharsJoin(a[1..], b, delimiters);
    }
  }

  lemma {:induction false} NoTokenChars(s: string, delimiters: string)
    ensures TokenChars(s, delimiters) == 0 <==> Only(s, delimiters)
    ensures Without(s, delimiters) ==> TokenChars(s, delimiters) == |s|
    decreases |s|
  {
    if s != "" {
      NoTokenChars(s[1..], delimiters);
      assert s == [s[0]] + s[1..];
      assert Only(s, delimiters) <==> s[0] in delimiters && Only(s[1..], delimiters);
    }
  }

  /** All the characters of the tokens. */
  lemma {:induction false} TokensHoldThem(s: string, delimiters: string)
    ensures |Concat(Tokens(s, delimiters))| == TokenChars(s, delimiters)
    decreases |s|
  {
    if s != "" {
      if s[0] in delimiters {
        TokensHoldThem(s[1..], delimiters);
      } else {
        var n := TokenLength(s, delimiters);
        TokensHoldThem(s[n..], delimiters);
        NoTokenChars(s[..n], delimiters);
        TokenCharsJoin(s[..n], s[n..], delimiters);
        assert s[..n] + s[n..] == s;
      }
    }
  }

  lemma {:induction false} TokensBeforeGap(s: string, gap: string, delimiters: string)
    requires Only(gap, delimiters)
    ensures Tokens(s + gap, delimiters) == Tokens(s, delimiters)
    decreases |s|
  {
    TokensJoinAtGap(s, gap, delimiters);
    TokensAfterGap(gap, "", delimiters);
    assert gap + "" == gap;
    assert Tokens(s, delimiters) + [] == Tokens(s, delimiters);
  }

  /** Where a delimiter or an end is, tokenising can be done in two parts. */
  lemma {:induction false} TokensJoinAtGap(a: string, b: string, delimiters: string)
    requires a == "" || b == "" || a[|a| - 1] in delimiters || b[0] in delimiters
    ensures Tokens(a + b, delimiters) == Tokens(a, delimiters) + Tokens(b, delimiters)
    decreases |a|
  {
    if a == "" {
      assert a + b == b;
    } else if b == "" {
      assert a + b == a;
    } else if a[0] in delimiters {
      assert (a + b)[1..] == a[1..] + b;
      TokensJoinAtGap(a[1..], b, delimiters);
    } else {
      var n := TokenLength(a, delimiters);
      TokensJoinAtGap(a[n..], b, delimiters);
      assert a == a[..n] + a[n..];
      FirstToken(a[..n], a[n..], b, delimiters);
    }
  }

  lemma FirstToken(token: string, tail: string, b: string, delimiters: string)
    requires token != "" && Without(token, delimiters)
    requires (tail == "" || tail[0] in delimiters) && (tail + b == "" || (tail + b)[0] in delimiters)
    requires Tokens(tail + b, delimiters) == Tokens(tail, delimiters) + Tokens(b, delimiters)
    ensures Tokens(token + tail + b, delimiters) == Tokens(token + tail, delimiters) + Tokens(b, delimiters)
  {
    TokensCons(token, tail, delimiters);
    TokensCons(token, tail + b, delimiters);
    Assoc(token, tail, b);
    Assoc([token], Tokens(tail, delimiters), Tokens(b, delimiters));
  }

  /** The cut makes no difference to a list if and only if it takes off nothing but commas. */
  lemma SearchedWholeExactly(h: Header)
    ensures var value := TrimStart(h.value);
      ListOf(h) == Tokens(value, COMMA) <==> |value| < LIST_SIZE || Only(value[LIST_SIZE - 1..], COMMA)
  {
    var value := TrimStart(h.value);
    if |value| >= LIST_SIZE {
      var kept, gone := value[..LIST_SIZE - 1], value[LIST_SIZE - 1..];
      assert value == kept + gone;
      if Only(gone, COMMA) {
        TokensBeforeGap(kept, gone, COMMA);
      } else {
        TokensHoldThem(kept, COMMA);
        TokensHoldThem(value, COMMA);
        TokenCharsJoin(kept, gone, COMMA);
        NoTokenChars(gone, COMMA);
      }
    }
  }

  // ---- When the search finds the same ----

  predicate Finds(tokens: seq<string>, sought: string -> bool) {
    exists t :: t in tokens && sought(t)
  }

  lemma FindsJoin(a: seq<string>, b: seq<string>, sought: string -> bool)
    ensures Finds(a + b, sought) <==> Finds(a, sought) || Finds(b, sought)
  {
    assert forall t :: t in a + b <==> t in a || t in b;
  }

  /** Where the word that a text ends in begins. */
  function LastWord(s: string): (n: nat)
    ensures n <= |s| && Without(s[n..], COMMA) && (n > 0 ==> s[n - 1] in COMMA)
  {
    if s == "" || s[|s| - 1] in COMMA then |s| else LastWord(s[..|s| - 1])
  }

  /** A text in three parts: up to the last comma the block keeps, the word there, what follows the word. */
  datatype Parts = Parts(before: string, kept: string, gone: string, after: string)

  function PartsOf(value: string): (p: Parts)
    requires |value| >= LIST_SIZE
    ensures value[..LIST_SIZE - 1] == p.before + p.kept && value[LIST_SIZE - 1..] == p.gone + p.after
    ensures Without(p.kept, COMMA) && Without(p.gone, COMMA)
    ensures p.before == "" || p.before[|p.before| - 1] in COMMA
    ensures p.after == "" || p.after[0] in COMMA
  {
    var cut, rest := value[..LIST_SIZE - 1], value[LIST_SIZE - 1..];
    var n, m := LastWord(cut), TokenLength(rest, COMMA);
    Parts(cut[..n], cut[n..], rest[..m], rest[m..])
  }

  /** A word that a search can find. */
  predicate Hit(word: string, sought: string -> bool) { word != "" && sought(word) }

  lemma FindsWord(word: string, sought: string -> bool)
    requires Without(word, COMMA)
    ensures Finds(Tokens(word, COMMA), sought) <==> Hit(word, sought)
  {
    if word != "" {
      TokensCons(word, "", COMMA);
      assert word + "" == word && [word] + [] == [word];
    }
  }

  lemma FindsCut(p: Parts, sought: string -> bool)
    requires Without(p.kept, COMMA) && (p.before == "" || p.before[|p.before| - 1] in COMMA)
    ensures Finds(Tokens(p.before + p.kept, COMMA), sought)
      <==> Finds(Tokens(p.before, COMMA), sought) || Hit(p.kept, sought)
  {
    TokensJoinAtGap(p.before, p.kept, COMMA);
    FindsJoin(Tokens(p.before, COMMA), Tokens(p.kept, COMMA), sought);
    FindsWord(p.kept, sought);
  }

  lemma FindsWhole(p: Parts, sought: string -> bool)
    requires Without(p.kept, COMMA) && Without(p.gone, COMMA)
    requires (p.before == "" || p.before[|p.before| - 1] in COMMA) && (p.after == "" || p.after[0] in COMMA)
    ensures Finds(Tokens(p.before + (p.kept + p.gone + p.after), COMMA), sought)
      <==> || Finds(Tokens(p.before, COMMA), sought)
           || Hit(p.kept + p.gone, sought) || Finds(Tokens(p.after, COMMA), sought)
  {
    var word := p.kept + p.gone;
    TokensJoinAtGap(p.before, word + p.after, COMMA);
    TokensJoinAtGap(word, p.after, COMMA);
    FindsJoin(Tokens(p.before, COMMA), Tokens(word + p.after, COMMA), sought);
    FindsJoin(Tokens(word, COMMA), Tokens(p.after, COMMA), sought);
    FindsWord(word, sought);
  }

  /**
   Either what is looked for stands before the word the cut goes through, or what the block keeps of that
   word is it exactly when the whole word is or it stands behind.
   */
  predicate CutHarmless(value: string, sought: string -> bool) {
    |value| >= LIST_SIZE ==>
      var p := PartsOf(value);
      || Finds(Tokens(p.before, COMMA), sought)
      || (Hit(p.kept, sought) <==> Hit(p.kept + p.gone, sought) || Finds(Tokens(p.after, COMMA), sought))
  }

  /** The search of the cut list finds the same as a search of the whole one if and only if the cut is harmless. */
  lemma SearchAgreesExactly(value: string, sought: string -> bool)
    ensures (Finds(Tokens(Fit(LIST_SIZE, value), COMMA), sought) <==> Finds(Tokens(value, COMMA), sought))
      <==> CutHarmless(value, sought)
  {
    if |value| >= LIST_SIZE {
      var p := PartsOf(value);
      FindsCut(p, sought);
      FindsWhole(p, sought);
      assert value == value[..LIST_SIZE - 1] + value[LIST_SIZE - 1..];
      Assoc(p.kept, p.gone, p.after);
      Assoc(p.before, p.kept, p.gone + p.after);
    }
  }

  predicate IsUpgrade(token: string) { NoCase(Trim(token), UPGRADE) }

  predicate IsXmpp(token: string) { Trim(token) == XMPP }

  lemma AsksIfFound(h: Header)
    requires NoCase(h.key, CONNECTION)
    ensures AsksUpgrade(h) <==> Finds(ListOf(h), IsUpgrade)
  {
  }

  lemma OffersIfFound(h: Header)
    requires NoCase(h.key, PROTOCOL)
    ensures OffersXmpp(h) <==> Finds(ListOf(h), IsXmpp)
  {
  }

  /** So the searches for "Upgrade" and for "xmpp" are right exactly then. */
  lemma AsksUpgradeExactly(h: Header, value: string)
    requires NoCase(h.key, "connection") && value == TrimStart(h.value)
    ensures (AsksUpgrade(h) <==> Finds(Tokens(value, COMMA), IsUpgrade)) <==> CutHarmless(value, IsUpgrade)
  {
    AsksIfFound(h);
    SearchAgreesExactly(value, IsUpgrade);
  }

  lemma OffersXmppExactly(h: Header, value: string)
    requires NoCase(h.key, "sec-websocket-protocol") && value == TrimStart(h.value)
    ensures (OffersXmpp(h) <==> Finds(Tokens(value, COMMA), IsXmpp)) <==> CutHarmless(value, IsXmpp)
  {
    OffersIfFound(h);
    SearchAgreesExactly(value, IsXmpp);
  }

  // ---- Inputs ----

  function Commas(n: nat): (s: string)
    ensures |s| == n && Only(s, COMMA)
  {
    seq(n, _ => ',')
  }

  lemma CommasThenWord(n: nat, word: string)
    requires word == "" || Without(word, COMMA)
    ensures Tokens(Commas(n) + word, COMMA) == if word == "" then [] else [word]
  {
    TokensAfterGap(Commas(n), word, COMMA);
    if word != "" {
      TokensCons(word, "", COMMA);
      assert word + "" == word;
      assert [word] + [] == [word];
    }
  }

  lemma CommasAreTight(n: nat, word: string)
    requires n > 0
    ensures TrimStart(Commas(n) + word) == Commas(n) + word
  {
  }

  /** The cut makes "Upgrade" of "Upgrades" behind 56 commas, and so finds what is not in the list. */
  lemma CutWordFound()
    ensures var value := Commas(56) + "Upgrades"; var h := Header("Connection", value);
      ListOf(h) == ["Upgrade"] && Tokens(TrimStart(value), COMMA) == ["Upgrades"]
  {
    CommasAreTight(56, "Upgrades");
    CommasThenWord(56, "Upgrades");
    CommasThenWord(56, "Upgrade");
    assert "Upgrades"[..7] == "Upgrade";
    assert (Commas(56) + "Upgrades")[..63] == Commas(56) + "Upgrades"[..7];
  }

  /** Behind 63 commas it loses "Upgrade", which is in the list. */
  lemma LateWordLost()
    ensures var value := Commas(63) + "Upgrade"; var h := Header("Connection", value);
      ListOf(h) == [] && Tokens(TrimStart(value), COMMA) == ["Upgrade"]
  {
    CommasAreTight(63, "Upgrade");
    CommasThenWord(63, "Upgrade");
    CommasThenWord(63, "");
    assert (Commas(63) + "Upgrade")[..63] == Commas(63) + "";
  }
}
