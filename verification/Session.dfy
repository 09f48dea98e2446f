/**
 A whole session: a request that opens a connection, then frames, as bytes in any chunks and with anything
 else happening in between, to the bytes at the XMPP server.
 */
module Session {
  import opened Bytes
  import opened FrameCodec
  import opened Fragmentation
  import opened Request
  import opened RequestReader
  import opened Connection
  import opened Lifecycle
  import opened Forwarding
  import opened System
  import O = Opening
  import H = Handshake

  /** All that comes from the client. */
  function FromClient(happenings: seq<Happening>): bytes
    decreases |happenings|
  {
    if happenings == [] then []
    else (if happenings[0].ClientData? then happenings[0].chunk else []) + FromClient(happenings[1..])
  }

  lemma {:induction false} RunInTwo(config: Config, c: Conn, a: seq<Happening>, b: seq<Happening>)
    ensures RunAll(config, c, a + b) == RunAll(config, RunAll(config, c, a), b)
    decreases |a|
  {
    if a == [] {
      assert a + b == b;
    } else {
      assert (a + b)[1..] == a[1..] + b;
      RunInTwo(config, Step(config, c, a[0]), a[1..], b);
    }
  }

  /** The chunks of an opening handshake are a run of the connection. */
  lemma {:induction false} OpeningIsRun(site: O.Site, o: O.Progress, chunks: seq<bytes>)
    returns (happenings: seq<Happening>)
    ensures O.ArriveAll(site, o, chunks).conn == RunAll(site.proxy, o.conn, happenings)
    decreases |chunks|
  {
    if chunks == [] {
      return [];
    }
    var next := More(o.reading, O.Chars(chunks[0]));
    var n := |o.conn.received + chunks[0]|;
    var used := if Unread(next) <= n then n - Unread(next) else 0;
    var rest := OpeningIsRun(site, O.Arrive(site, o, chunks[0]), chunks[1..]);
    happenings := [ClientData(chunks[0], O.OutcomeOf(site, next), used)] + rest;
    assert happenings[1..] == rest;
  }

  /** What has been read as frames and what waits to be, behind the handshake, is what has come. */
  predicate Accounted(c: Conn, came: bytes) {
    if Deleted(c) then c.history.offered <= came else c.history.offered + c.received == came
  }

  lemma {:induction false} LoopAccounts(config: Config, c: Conn)
    ensures var d := ProcessLoop(config, c);
      d.history.offered == c.history.offered && d.received == c.received
    decreases |c.engine.input|, Reassembly.Flags(c.engine)
  {
    TurnAccounts(config, c);
    TurnShrinks(config, c);
    if LoopTurn(config, c).more {
      LoopAccounts(config, LoopTurn(config, c).conn);
    }
  }

  lemma TurnAccounts(config: Config, c: Conn)
    ensures var d := LoopTurn(config, c).conn; d.history.offered == c.history.offered && d.received == c.received
  {
    var s := c.engine;
    if !s.error && s.control.Some? {
      ControlAccounts(c, s.control.value, Reassembly.TakeControl(config.limits, config.retest, s));
    } else if !s.error && s.message {
      var engine := Reassembly.TakeMessage(config.limits, config.retest, s);
      DataAccounts(config, c, s.messageOpcode, s.partial, engine);
    }
  }

  lemma ControlAccounts(c: Conn, frame: Frame, engine: Reassembly.State)
    ensures var d := OnControl(c, frame, engine).conn;
      d.history.offered == c.history.offered && d.received == c.received
  {
  }

  lemma DataAccounts(config: Config, c: Conn, opcode: byte, payload: bytes, engine: Reassembly.State)
    ensures var d := OnData(config, c, opcode, payload, engine).conn;
      d.history.offered == c.history.offered && d.received == c.received
  {
  }

  lemma ReadAccounts(config: Config, c: Conn, chunk: bytes, outcome: Outcome, used: nat)
    requires c.ws != WS_ST_START
    ensures var d := ReadCb(config, c, chunk, outcome, used);
      d.history.offered + d.received == c.history.offered + c.received + chunk
  {
    Assoc(c.history.offered, c.received, chunk);
    if c.ws == WS_ST_RECEIVING {
      LoopAccounts(config, Admit(config, c.(received := c.received + chunk)));
    }
  }

  lemma {:induction false} WriteStanzasAccount(c: Conn, stanzas: seq<bytes>)
    ensures var d := WriteStanzas(c, stanzas); d.history.offered == c.history.offered && d.received == c.received
    decreases |stanzas|
  {
    if stanzas != [] {
      WriteStanzasAccount(WriteStanza(c, stanzas[0]), stanzas[1..]);
    }
  }

  lemma OtherStepsAccount(config: Config, c: Conn, happening: Happening)
    requires !happening.ClientData?
    ensures var d := Step(config, c, happening); d.history.offered == c.history.offered && d.received == c.received
  {
    if happening.UpstreamStanzas? {
      WriteStanzasAccount(c, happening.stanzas);
    }
  }

  lemma StepAccounts(config: Config, c: Conn, happening: Happening, came: bytes)
    requires c.ws != WS_ST_START && Accounted(c, came)
    ensures Accounted(Step(config, c, happening), came + if happening.ClientData? then happening.chunk else [])
  {
    assert came + [] == came;
    if happening.ClientData? {
      if !Deleted(c) {
        ReadAccounts(config, c, happening.chunk, happening.outcome, happening.used);
      }
    } else {
      OtherStepsAccount(config, c, happening);
    }
  }

  lemma {:induction false} RunAccounts(config: Config, c: Conn, happenings: seq<Happening>, came: bytes)
    requires Sound(c) && c.ws != WS_ST_START && Accounted(c, came)
    ensures Accounted(RunAll(config, c, happenings), came + FromClient(happenings))
    decreases |happenings|
  {
    if happenings == [] {
      assert came + [] == came;
    } else {
      var chunk := if happenings[0].ClientData? then happenings[0].chunk else [];
      StepAccounts(config, c, happenings[0], came);
      StepAdvances(config, c, happenings[0]);
      Assoc(came, chunk, FromClient(happenings[1..]));
      RunAccounts(config, Step(config, c, happenings[0]), happenings[1..], came + chunk);
    }
  }

  /** Of a connection that has been upgraded with these bytes behind its request. */
  lemma OfferedIsPrefix(config: Config, c: Conn, happenings: seq<Happening>, behind: bytes)
    requires Sound(c) && O.Decided(c, true, behind)
    ensures RunAll(config, c, happenings).history.offered <= behind + FromClient(happenings)
  {
    assert [] + behind == behind;
    RunAccounts(config, c, happenings, behind);
  }

  /** What the client sends is a beginning of the encoding of these frames. */
  predicate BeginsStream(behind: bytes, happenings: seq<Happening>, list: seq<Sent>) {
    AllSendable(list) && behind + FromClient(happenings) <= Stream(list)
  }

  /** Its request line and headers, folded so, can be read and are written by these bytes. */
  predicate Writes(request: bytes, requestLine: string, folded: seq<Folded>, headers: seq<Header>) {
    && GoodRequestLine(requestLine) && FoldingsOf(folded, headers)
    && AllPlain([requestLine] + AllLines(folded))
    && O.Chars(request) == Wire([requestLine] + AllLines(folded) + [""])
  }

  /**
   A session without a frame limit. The request is acceptable, its headers folded in any way; the request
   and the beginning of the frames arrive in any chunks; then anything happens. If what the client sends
   behind the request is a beginning of its encoded frames, then what is taken from it is a beginning of what
   those frames complete before the first violation, the texts among it are what the manager met, and what
   reaches the XMPP server is a beginning of what the manager accepted.
   */
  lemma FromRequestToServer(
      site: O.Site, requestLine: string, folded: seq<Folded>, headers: seq<Header>,
      request: bytes, behind: bytes, chunks: seq<bytes>, last: bytes,
      happenings: seq<Happening>, list: seq<Sent>)
    requires Writes(request, requestLine, folded, headers)
    requires O.EndsInLast(chunks, last, request, behind)
    requires H.Acceptable(Tokens(requestLine, BLANKS), headers, site.config)
    requires site.proxy.retest && site.proxy.limits.frame == 0
    requires BeginsStream(behind, happenings, list)
    ensures var open := O.ArriveAll(site, O.Progress(Initial, NeedMore(Created, "")), chunks + [last]).conn;
      var h, fs := RunAll(site.proxy, open, happenings).history, FramesOf(list);
      && open.ws == WS_ST_RECEIVING
      && h.consumed <= Completed(site.proxy.limits, fs[..Legal(site.proxy.limits, fs)])
      && PayloadsOf(h.delivered) == Texts(h.consumed)
      && h.upstream <= Accepted(h.delivered)
  {
    var start := O.Progress(Initial, NeedMore(Created, ""));
    var open := O.ArriveAll(site, start, chunks + [last]).conn;
    O.OpeningHandshake(site, requestLine, folded, headers, request, behind, chunks, last);
    var opening := OpeningIsRun(site, start, chunks + [last]);
    Afterwards(site.proxy, opening, open, happenings, behind, list);
  }

  lemma Afterwards(
      config: Config, opening: seq<Happening>, open: Conn, happenings: seq<Happening>, behind: bytes, list: seq<Sent>)
    requires open == RunAll(config, Initial, opening) && O.Decided(open, true, behind)
    requires config.retest && config.limits.frame == 0
    requires BeginsStream(behind, happenings, list)
    ensures var h, fs := RunAll(config, open, happenings).history, FramesOf(list);
      && h.consumed <= Completed(config.limits, fs[..Legal(config.limits, fs)])
      && PayloadsOf(h.delivered) == Texts(h.consumed)
      && h.upstream <= Accepted(h.delivered)
  {
    RunAdvances(config, Initial, opening);
    OfferedIsPrefix(config, open, happenings, behind);
    RunInTwo(config, Initial, opening, happenings);
    UnlimitedFramesToServer(config, opening + happenings, list);
  }
}
