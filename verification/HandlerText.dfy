/** What can be read, word by word, from the text that a served request prints. */
module HandlerText {
  import opened Common
  import opened Headers
  import opened Recorder
  import opened Bodies
  import opened Handler
  import opened HandlerResults
  import opened TraceFormat
  import opened TraceLegs
  import opened TraceReader

  /** The leg gives back this host and every header's values, in order. */
  ghost predicate ShowsFields(item: Item, host: string, h: Header) {
    item.Leg? && forall name ::
      ValuesNamed(item.fields, name) == (if name == "Host" && host != "" then [host] else []) + Values(h, name)
  }

  lemma SectionShowsFields(k: Kind, first: string, host: string, h: Header, body: string, maxBody: int)
    ensures ShowsFields(T.Section(k, first, host, h, body, maxBody), host, h)
  {
    forall name
      ensures ValuesNamed(LegFields(host, h), name)
           == (if name == "Host" && host != "" then [host] else []) + Values(h, name)
    {
      LegFieldsRecoverHeader(host, h, name);
    }
  }

  // ---------------------------------------------------------------- the request

  /** The first two items give back the number, the connection, the request line and the headers. */
  ghost predicate ItemsShowRequest(items: seq<Item>, id: nat, info: T.RequestInfo) {
    && |items| >= 2 && items[0].Info? && items[1].Leg? && items[1].kind == ClientRequest
    && (PlainConnection(info) ==>
          ReadRequestInfo(items[0].text)
          == Some(Incoming(id, info.remoteAddr, info.scheme, Connection(info.proto, info.tlsVersion, info.sni))))
    && (Word(info.method_) && Word(info.requestUri) && Word(info.proto) ==>
          ReadRequestLine(items[1].first) == Some((info.method_, info.requestUri, info.proto)))
    && ShowsFields(items[1], info.host, info.header)
  }

  lemma RequestItemsShow(maxBody: int, id: nat, info: T.RequestInfo, items: seq<Item>)
    requires |items| >= 2 && items[..2] == T.RequestItems(maxBody, id, info)
    ensures ItemsShowRequest(items, id, info)
  {
    var front := T.RequestItems(maxBody, id, info);
    assert items[0] == front[0] && items[1] == front[1];
    if PlainConnection(info) {
      RequestInfoReads(id, info);
    }
    if Word(info.method_) && Word(info.requestUri) && Word(info.proto) {
      RequestLineReads(info);
    }
    SectionShowsFields(ClientRequest, T.RequestLine(info), info.host, info.header, info.body, maxBody);
  }

  /** From the text that a served request prints one reads who asked for what. */
  lemma PrintedTextShowsRequest(cfg: Config, r: Request, w: World, id: nat, h: Header)
    requires cfg.verbose && Relays(cfg, r, w) && PrintsOneLine(cfg, r, w, id, h)
    ensures var parsed := Parse(PrintedBy(cfg, r, w, id, Outcome(cfg, r, w), h));
            parsed.Some? && ItemsShowRequest(parsed.value, id, r.info)
  {
    var info := r.info.(body := ReadBody(cfg, r));
    ReadsAs(cfg, r, w, id, h);
    EndsOfTrace(cfg, r, w, id, h);
    RequestItemsShow(cfg.maxBodySize, id, info, TracedItems(cfg, r, w, id, h));
  }

  lemma ResponseEntryShows(maxBody: int, id: nat, r: Request, w: World, s: State, h: Header)
    ensures ShowsFields(T.EntryItems(maxBody, id, ResponseEntry(r, w, s, h))[1], "", h)
  {
    var first := T.StatusLine(r.info.proto, Observed(s), w.statusText(Observed(s)));
    SectionShowsFields(ClientResponse, first, "", h, s.body, maxBody);
  }

  lemma LastItemShows(cfg: Config, r: Request, w: World, id: nat, h: Header)
    requires Relays(cfg, r, w)
    ensures var items := TracedItems(cfg, r, w, id, h); items != [] && ShowsFields(items[|items| - 1], "", h)
  {
    var items := TracedItems(cfg, r, w, id, h);
    EndsOfTrace(cfg, r, w, id, h);
    ResponseEntryShows(cfg.maxBodySize, id, r, w, Outcome(cfg, r, w), h);
    assert items[|items| - 1] == items[|items| - 2..][1];
  }

  /** And which headers were sent back. */
  lemma PrintedTextShowsResponseHeader(cfg: Config, r: Request, w: World, id: nat, h: Header)
    requires cfg.verbose && Relays(cfg, r, w) && PrintsOneLine(cfg, r, w, id, h)
    ensures var parsed := Parse(PrintedBy(cfg, r, w, id, Outcome(cfg, r, w), h));
            parsed.Some? && parsed.value != [] && ShowsFields(parsed.value[|parsed.value| - 1], "", h)
  {
    ReadsAs(cfg, r, w, id, h);
    LastItemShows(cfg, r, w, id, h);
  }

  // ---------------------------------------------------------------- the upstream

  /** A request leg upstream: its target twice, its method, its headers, and its body. */
  ghost predicate ShowsForwarded(info: Item, leg: Item, verb: string, sent: Sent, body: View) {
    && info.Info? && Strip(info.text, "Forwarding to ", "") == Some(sent.target)
    && LegShows(leg, UpstreamRequest, body) && ShowsFields(leg, sent.host, sent.header)
    && (Word(verb) ==> ReadPair(leg.first) == Some((verb, sent.target)))
  }

  /** The reply with its protocol, status, headers and body, or the error. */
  ghost predicate ShowsReply(item: Item, u: Upstream, max: nat) {
    match u
    case Unreachable(error, _) => item.Info? && Strip(item.text, "Forward error: ", "") == Some(error)
    case Replied(proto, status, _, h, body) =>
      && LegShows(item, UpstreamResponse, Promised(body, max)) && ShowsFields(item, "", h)
      && (Word(proto) ==> ReadPair(item.first) == Some((proto, status)))
  }

  lemma ForwardedShows(maxBody: int, id: nat, verb: string, sent: Sent, body: string)
    ensures var items := T.EntryItems(maxBody, id, T.Forwarding(sent.target, verb, sent.host, sent.header, body));
            |items| == 2 && ShowsForwarded(items[0], items[1], verb, sent, Dumped(body, maxBody))
  {
    ForwardInfoReads(sent.target);
    SectionShows(UpstreamRequest, verb + " " + sent.target, sent.host, sent.header, body, maxBody);
    SectionShowsFields(UpstreamRequest, verb + " " + sent.target, sent.host, sent.header, body, maxBody);
    if Word(verb) {
      PairReads(verb, sent.target);
    }
  }

  lemma ReplyShows(cfg: Config, r: Request, w: World, id: nat)
    requires cfg.maxBodySize > 0
    ensures var items := T.EntryItems(cfg.maxBodySize, id, UpstreamEntries(cfg, r, w)[1]);
            |items| == 1 && ShowsReply(items[0], w.upstream, cfg.maxBodySize)
  {
    match w.upstream
    case Unreachable(error, _) => ForwardErrorReads(error);
    case Replied(proto, status, _, h, body) =>
      SectionShows(UpstreamResponse, proto + " " + status, "", h, body, cfg.maxBodySize);
      SectionShowsFields(UpstreamResponse, proto + " " + status, "", h, body, cfg.maxBodySize);
      if Word(proto) {
        PairReads(proto, status);
      }
  }

  /** The four parts of the trace of a forwarded request. */
  lemma PartsOfTrace(cfg: Config, r: Request, w: World, id: nat, h: Header)
    requires RouteOf(cfg, r, w).Forwarded?
    ensures var entries := UpstreamEntries(cfg, r, w);
            TracedItems(cfg, r, w, id, h)
            == T.RequestItems(cfg.maxBodySize, id, r.info.(body := ReadBody(cfg, r)))
               + (T.EntryItems(cfg.maxBodySize, id, entries[0]) + T.EntryItems(cfg.maxBodySize, id, entries[1]))
               + T.EntryItems(cfg.maxBodySize, id, ResponseEntry(r, w, Outcome(cfg, r, w), h))
  {
    var entries := UpstreamEntries(cfg, r, w);
    TraceItems(cfg, r, w, id, Outcome(cfg, r, w), h);
    P.EntriesItemsOfTwo(cfg.maxBodySize, id, entries[0], entries[1]);
    assert entries == [entries[0], entries[1]];
  }

  /** The items of the upstream leg show what was sent and what came back. */
  lemma MiddleOfTrace(cfg: Config, r: Request, w: World, id: nat, h: Header)
    requires cfg.maxBodySize > 0 && RouteOf(cfg, r, w).Forwarded?
    ensures ItemsShowUpstream(TracedItems(cfg, r, w, id, h), r.info.method_, w.sent,
                              Dumped(ReadBody(cfg, r), cfg.maxBodySize), w.upstream, cfg.maxBodySize)
  {
    var entries := UpstreamEntries(cfg, r, w);
    PartsOfTrace(cfg, r, w, id, h);
    ForwardedShows(cfg.maxBodySize, id, r.info.method_, w.sent, ReadBody(cfg, r));
    ReplyShows(cfg, r, w, id);
    FourSegments(T.RequestItems(cfg.maxBodySize, id, r.info.(body := ReadBody(cfg, r))),
                 T.EntryItems(cfg.maxBodySize, id, entries[0]), T.EntryItems(cfg.maxBodySize, id, entries[1]),
                 T.EntryItems(cfg.maxBodySize, id, ResponseEntry(r, w, Outcome(cfg, r, w), h)));
  }

  /** The third to fifth item of a forwarded exchange. */
  ghost predicate ItemsShowUpstream(items: seq<Item>, verb: string, sent: Sent, body: View, u: Upstream, max: nat) {
    |items| == 7 && ShowsForwarded(items[2], items[3], verb, sent, body) && ShowsReply(items[4], u, max)
  }

  lemma FourSegments(a: seq<Item>, b: seq<Item>, c: seq<Item>, d: seq<Item>)
    requires |a| == 2 && |b| == 2 && |c| == 1 && |d| == 2
    ensures var all := a + (b + c) + d; |all| == 7 && all[2] == b[0] && all[3] == b[1] && all[4] == c[0]
  {
  }

  /** From the text that a forwarded request prints one reads what was sent upstream, and what came back. */
  lemma PrintedTextShowsUpstream(cfg: Config, r: Request, w: World, id: nat, h: Header)
    requires cfg.maxBodySize > 0 && cfg.verbose && RouteOf(cfg, r, w).Forwarded? && PrintsOneLine(cfg, r, w, id, h)
    ensures var parsed := Parse(PrintedBy(cfg, r, w, id, Outcome(cfg, r, w), h));
            && parsed.Some?
            && ItemsShowUpstream(parsed.value, r.info.method_, w.sent,
                                 Dumped(ReadBody(cfg, r), cfg.maxBodySize), w.upstream, cfg.maxBodySize)
  {
    ReadsAs(cfg, r, w, id, h);
    MiddleOfTrace(cfg, r, w, id, h);
  }

  // ---------------------------------------------------------------- an upgrade

  /** From the text that an upgrade prints one reads the request, without a body, and that it upgraded. */
  lemma PrintedTextShowsUpgrade(cfg: Config, r: Request, w: World, id: nat, s: State, h: Header)
    requires cfg.verbose && RouteOf(cfg, r, w).Upgrade?
    requires var t := TraceOf(cfg, r, w, id, s, h); P.PlainTrace(t) && P.OneLineTrace(t)
    ensures var parsed := Parse(PrintedBy(cfg, r, w, id, s, h));
            && parsed.Some? && |parsed.value| == 3 && ItemsShowRequest(parsed.value, id, r.info)
            && LegShows(parsed.value[1], ClientRequest, View("", false))
            && parsed.value[2] == Info("WebSocket upgrade")
  {
    var t := TraceOf(cfg, r, w, id, s, h);
    var items := P.Items(cfg.maxBodySize, t);
    P.TraceReadsBackIff(cfg.maxBodySize, t);
    P.EntriesItemsOfOne(cfg.maxBodySize, id, T.Upgrade);
    assert items[..2] == T.RequestItems(cfg.maxBodySize, id, t.info);
    RequestItemsShow(cfg.maxBodySize, id, t.info, items);
    SectionShows(ClientRequest, T.RequestLine(t.info), t.info.host, t.info.header, "", cfg.maxBodySize);
    assert items[1] == items[..2][1];
  }
}
