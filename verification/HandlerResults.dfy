/** What holds of every request that the handler serves: status, header, log, and the printed text. */
module HandlerResults {
  import opened Common
  import opened Int64
  import opened Headers
  import opened Cors
  import opened Recorder
  import opened Bodies
  import opened Handler
  import opened TraceFormat
  import opened TraceLegs
  import opened TraceInputs
  import opened TraceReader
  import X = Text

  // ----------------------------------------------------------------- status

  /** On every route, the underlying header is written at most once. */
  lemma HeaderWrittenAtMostOnce(cfg: Config, r: Request, w: World)
    ensures Outcome(cfg, r, w).wire.headerCalls <= 1
  {
    FirstCallDecides(cfg.http2, DumpCap(cfg.verbose, cfg.maxBodySize), CallsOf(cfg, r, w));
  }

  /**
   * On the routes that the handler answers itself, the observed status is the
   * code sent; it is delivered too exactly when it is no interim code, unless
   * the client left, and then nothing reached the wire.
   */
  lemma StatusIsObservedAndDelivered(cfg: Config, r: Request, w: World)
    requires SentCode(cfg, r, w).Some? && !Crashes(cfg, r, w)
    ensures var s := Outcome(cfg, r, w); var code := SentCode(cfg, r, w).value;
            && Observed(s) == code
            && (if Aborts(cfg, r, w) then code == ABORTED && s.wire == Wire(None, 0, "")
                else Delivered(s) == code <==> !Informational(cfg.http2, code))
  {
    var cap := DumpCap(cfg.verbose, cfg.maxBodySize);
    FirstCallDecides(cfg.http2, cap, CallsOf(cfg, r, w));
    if Aborts(cfg, r, w) {
      RunOfOne(cfg.http2, cap, Abort(ABORTED));
    } else if CallsOf(cfg, r, w) == [Status(SentCode(cfg, r, w).value)] {
      RunOfOne(cfg.http2, cap, Status(SentCode(cfg, r, w).value));
    } else {
      RunOfTwo(cfg.http2, cap, Status(SentCode(cfg, r, w).value), Data(SentBody(cfg, r, w)));
    }
  }

  /** A shaped 150 is what log, metrics and trace report, while the client gets 200. */
  lemma ShapedInterimIsNotDelivered(cfg: Config, r: Request, w: World)
    requires RouteOf(cfg, r, w).Echoed? && !AnswersPreflight(cfg, r) && !w.clientLeft && r.shaped == Some(150)
    ensures Observed(Outcome(cfg, r, w)) == 150 && Delivered(Outcome(cfg, r, w)) == 200
  {
    var cap := DumpCap(cfg.verbose, cfg.maxBodySize);
    StatusIsObservedAndDelivered(cfg, r, w);
    FirstCallDecides(cfg.http2, cap, CallsOf(cfg, r, w));
  }

  /** A remote status of 99 crashes the request, so it is neither logged nor printed. */
  lemma LowStatusCrashes(cfg: Config, r: Request, w: World, proto: string, status: string, h: Header)
    requires RouteOf(cfg, r, w).Forwarded? && w.upstream == Replied(proto, status, 99, h, "")
    ensures Crashes(cfg, r, w)
  {
  }

  // ----------------------------------------------------------------- bodies

  /** The response entry of a traced exchange. */
  function LastEntry(t: P.Trace): T.Entry
    requires t.entries != []
  {
    t.entries[|t.entries| - 1]
  }

  predicate Relays(cfg: Config, r: Request, w: World) {
    RouteOf(cfg, r, w).Forwarded? || RouteOf(cfg, r, w).Echoed?
  }

  /**
   * A traced exchange shows the code sent, and the promised views of the
   * request body and of the bytes sent, exactly when the limits allow it.
   */
  lemma TraceShowsPromisedViewsIff(cfg: Config, r: Request, w: World, id: nat, h: Header)
    requires 0 < cfg.maxBodySize <= MAX_INT64 && cfg.verbose
    requires Relays(cfg, r, w) && !Crashes(cfg, r, w)
    ensures var t := TraceOf(cfg, r, w, id, Outcome(cfg, r, w), h);
            && LastEntry(t).Responding? && LastEntry(t).code == SentCode(cfg, r, w).value
            && (Dumped(t.info.body, cfg.maxBodySize) == Promised(r.body, cfg.maxBodySize)
                <==> RequestViewsAgree(r.body, cfg.forwarding, cfg.maxBodySize))
            && var sent := Outcome(cfg, r, w).wire.sent;
               Dumped(LastEntry(t).body, cfg.maxBodySize) == Promised(sent, cfg.maxBodySize)
               <==> cfg.maxBodySize < MAX_INT64 || sent == ""
  {
    LimitedViewsAgreeIff(r.body, BodyLimit(cfg.forwarding, cfg.maxBodySize), cfg.maxBodySize);
    ResponseViewAgreesIff(Outcome(cfg, r, w).wire.sent, cfg.maxBodySize);
    CaptureIsPrefix(cfg.http2, DumpCap(cfg.verbose, cfg.maxBodySize), CallsOf(cfg, r, w));
    StatusIsObservedAndDelivered(cfg, r, w);
  }

  /**
   * The upstream legs and the forward object of the log show the same bodies:
   * the upstream request as the client's, the reply as promised, whatever the limits.
   */
  lemma UpstreamViewsAgree(cfg: Config, r: Request, w: World, id: nat, h: Header)
    requires 0 < cfg.maxBodySize <= MAX_INT64 && RouteOf(cfg, r, w).Forwarded?
    ensures var t := TraceOf(cfg, r, w, id, Outcome(cfg, r, w), h);
            var forward := LoggedAs(cfg, r, w, Outcome(cfg, r, w)).forward;
            && |t.entries| == 3 && t.entries[0].Forwarding? && t.entries[0].body == t.info.body
            && forward.Some?
            && match w.upstream {
                 case Unreachable(error, _) =>
                   t.entries[1] == T.ForwardFailure(error) && forward.value == Failed(error)
                 case Replied(_, _, code, _, body) =>
                   && t.entries[1].ForwardReply?
                   && Dumped(t.entries[1].body, cfg.maxBodySize) == Promised(body, cfg.maxBodySize)
                   && forward.value == Relayed(code, Promised(body, cfg.maxBodySize))
               }
  {
    if w.upstream.Replied? {
      LimitedViewsAgreeIff(w.upstream.body, |w.upstream.body|, cfg.maxBodySize);
      assert ReadLimited(w.upstream.body, |w.upstream.body|) == w.upstream.body;
    }
  }

  /**
   * With response_body_only the client gets the promised part of its own body,
   * exactly if the limit fits or it sent none.
   */
  lemma BodyOnlyReturnsPromisedBodyIff(cfg: Config, r: Request, w: World)
    requires 0 < cfg.maxBodySize <= MAX_INT64 && RouteOf(cfg, r, w).Echoed? && !Aborts(cfg, r, w)
    requires !AnswersPreflight(cfg, r) && cfg.echoBack && !cfg.overrideFile && r.bodyOnly
    ensures Outcome(cfg, r, w).wire.sent == Promised(r.body, cfg.maxBodySize).bytes
            <==> cfg.maxBodySize < MAX_INT64 || r.body == ""
  {
    WrapNext(cfg.maxBodySize);
    RequestViewsAgreeIff(r.body, false, cfg.maxBodySize);
    CaptureIsPrefix(cfg.http2, DumpCap(cfg.verbose, cfg.maxBodySize), CallsOf(cfg, r, w));
    WrittenByResponse(EchoStatus(r), SentBody(cfg, r, w));
  }

  lemma WrittenByResponse(code: nat, body: string)
    ensures Written([Status(code), Data(body)]) == body
  {
    var calls := [Status(code), Data(body)];
    assert calls[..1] == [Status(code)] && calls[..1][..0] == [];
    assert Written(calls[..1]) == "" + "";
    assert "" + body == body;
  }

  // ------------------------------------------------------------ printed text

  /** The leg gives back this view of a body, line-end carriage returns apart. */
  predicate LegShows(item: Item, k: Kind, view: View) {
    && item.Leg? && item.kind == k
    && X.Join(item.body, "\n") == DropLineCRs(view.bytes) && item.truncated == view.truncated
  }

  lemma SectionShows(k: Kind, first: string, host: string, h: Header, body: string, maxBody: int)
    ensures LegShows(T.Section(k, first, host, h, body, maxBody), k, Dumped(body, maxBody))
  {
    BodyIsRecovered(Shown(body, maxBody));
  }

  lemma RepliesFollowForwarding(cfg: Config, r: Request, w: World, id: nat, s: State, h: Header)
    requires Relays(cfg, r, w)
    ensures P.RepliesFollow(TraceOf(cfg, r, w, id, s, h).entries)
  {
    var entries := TraceOf(cfg, r, w, id, s, h).entries;
    if cfg.forwarding {
      assert entries[..1] == [entries[0]];
    }
  }

  /** The text that a request prints reads back as its exchange exactly if none of its texts holds a newline. */
  lemma PrintedTextReadsBackIff(cfg: Config, r: Request, w: World, id: nat, h: Header)
    requires cfg.verbose && Relays(cfg, r, w) && P.PlainTrace(TraceOf(cfg, r, w, id, Outcome(cfg, r, w), h))
    ensures var t := TraceOf(cfg, r, w, id, Outcome(cfg, r, w), h);
            Parse(PrintedBy(cfg, r, w, id, Outcome(cfg, r, w), h)) == Some(P.Items(cfg.maxBodySize, t))
            <==> P.OneLineTrace(t)
  {
    RepliesFollowForwarding(cfg, r, w, id, Outcome(cfg, r, w), h);
    P.TraceReadsBackIff(cfg.maxBodySize, TraceOf(cfg, r, w, id, Outcome(cfg, r, w), h));
  }

  /** The first two and the last two items of a traced exchange. */
  lemma EndsOfTrace(cfg: Config, r: Request, w: World, id: nat, h: Header)
    requires Relays(cfg, r, w)
    ensures var s := Outcome(cfg, r, w);
            var items := P.Items(cfg.maxBodySize, TraceOf(cfg, r, w, id, s, h));
            && |items| >= 4
            && items[..2] == T.RequestItems(cfg.maxBodySize, id, r.info.(body := ReadBody(cfg, r)))
            && items[|items| - 2..] == T.EntryItems(cfg.maxBodySize, id, ResponseEntry(r, w, s, h))
  {
    TraceItems(cfg, r, w, id, Outcome(cfg, r, w), h);
  }

  /** The text of a status, as http.StatusText gives it, has no space around it. */
  predicate PlainStatus(proto: string, text: string) {
    Word(proto) && X.TrimSpace(text) == text
  }

  /**
   * Read word by word, the last item but one reports this number, code and
   * time, and the response's first line its protocol, this code and its text.
   */
  predicate ItemsShowCode(items: seq<Item>, id: nat, r: Request, w: World, code: Option<nat>) {
    var n := |items|;
    && n >= 4 && code.Some?
    && items[n - 2].Info? && ReadResponseInfo(items[n - 2].text) == Some((id, code.value, w.ms))
    && items[n - 1].Leg?
    && (PlainStatus(r.info.proto, w.statusText(code.value)) ==>
          ReadStatusLine(items[n - 1].first) == Some((r.info.proto, code.value, w.statusText(code.value))))
  }

  /** A text that reads back shows this code and these views. */
  ghost predicate TextShows(text: string, id: nat, r: Request, w: World, code: Option<nat>,
                            request: View, response: View) {
    && Parse(text).Some?
    && ItemsShowCode(Parse(text).value, id, r, w, code) && ItemsShowViews(Parse(text).value, request, response)
  }

  /** None of the texts of the printed exchange holds a newline, and its header names are plain. */
  ghost predicate PrintsOneLine(cfg: Config, r: Request, w: World, id: nat, h: Header) {
    var t := TraceOf(cfg, r, w, id, Outcome(cfg, r, w), h);
    P.PlainTrace(t) && P.OneLineTrace(t)
  }

  lemma ReadsAs(cfg: Config, r: Request, w: World, id: nat, h: Header)
    requires cfg.verbose && Relays(cfg, r, w) && PrintsOneLine(cfg, r, w, id, h)
    ensures Parse(PrintedBy(cfg, r, w, id, Outcome(cfg, r, w), h)) == Some(TracedItems(cfg, r, w, id, h))
  {
    PrintedTextReadsBackIff(cfg, r, w, id, h);
  }

  /** The items show these views, in the client's request leg and in the response leg. */
  predicate ItemsShowViews(items: seq<Item>, request: View, response: View) {
    |items| >= 4 && LegShows(items[1], ClientRequest, request) && LegShows(items[|items| - 1], ClientResponse, response)
  }

  /** The views of the bodies, as promised wherever the limits allow it. */
  predicate ViewsArePromised(cfg: Config, r: Request, w: World, request: View, response: View)
    requires cfg.maxBodySize > 0
  {
    var sent := Outcome(cfg, r, w).wire.sent;
    && (RequestViewsAgree(r.body, cfg.forwarding, cfg.maxBodySize) ==> request == Promised(r.body, cfg.maxBodySize))
    && (cfg.maxBodySize < MAX_INT64 || sent == "" ==> response == Promised(sent, cfg.maxBodySize))
  }

  /**
   * From the text that a served request prints one reads the code sent, and
   * the promised views of the request body and of the bytes sent.
   */
  lemma PrintedTextShowsExchange(cfg: Config, r: Request, w: World, id: nat, h: Header)
    returns (request: View, response: View)
    requires 0 < cfg.maxBodySize <= MAX_INT64 && cfg.verbose && Relays(cfg, r, w) && !Crashes(cfg, r, w)
    requires PrintsOneLine(cfg, r, w, id, h)
    ensures TextShows(PrintedBy(cfg, r, w, id, Outcome(cfg, r, w), h), id, r, w, SentCode(cfg, r, w), request, response)
    ensures ViewsArePromised(cfg, r, w, request, response)
  {
    request, response := Dumped(ReadBody(cfg, r), cfg.maxBodySize), Dumped(Outcome(cfg, r, w).body, cfg.maxBodySize);
    ReadsAs(cfg, r, w, id, h);
    TraceShowsCode(cfg, r, w, id, h);
    TraceShowsViews(cfg, r, w, id, h);
    DumpedViewsArePromised(cfg, r, w);
  }

  ghost function TracedItems(cfg: Config, r: Request, w: World, id: nat, h: Header): seq<Item> {
    P.Items(cfg.maxBodySize, TraceOf(cfg, r, w, id, Outcome(cfg, r, w), h))
  }

  lemma LastTwoShowCode(items: seq<Item>, maxBody: int, id: nat, r: Request, w: World, s: State, h: Header)
    requires |items| >= 4 && items[|items| - 2..] == T.EntryItems(maxBody, id, ResponseEntry(r, w, s, h))
    ensures ItemsShowCode(items, id, r, w, Some(Observed(s)))
  {
    var tail := T.EntryItems(maxBody, id, ResponseEntry(r, w, s, h));
    assert items[|items| - 2] == tail[0] && items[|items| - 1] == tail[1];
    ResponseInfoReads(id, Observed(s), w.ms);
    if PlainStatus(r.info.proto, w.statusText(Observed(s))) {
      StatusLineReads(r.info.proto, Observed(s), w.statusText(Observed(s)));
    }
  }

  lemma ObservedIsSent(cfg: Config, r: Request, w: World)
    requires Relays(cfg, r, w) && !Crashes(cfg, r, w)
    ensures SentCode(cfg, r, w) == Some(Observed(Outcome(cfg, r, w)))
  {
    StatusIsObservedAndDelivered(cfg, r, w);
  }

  lemma TraceShowsCode(cfg: Config, r: Request, w: World, id: nat, h: Header)
    requires Relays(cfg, r, w) && !Crashes(cfg, r, w)
    ensures ItemsShowCode(TracedItems(cfg, r, w, id, h), id, r, w, SentCode(cfg, r, w))
  {
    ObservedIsSent(cfg, r, w);
    EndsOfTrace(cfg, r, w, id, h);
    LastTwoShowCode(TracedItems(cfg, r, w, id, h), cfg.maxBodySize, id, r, w, Outcome(cfg, r, w), h);
  }

  lemma TraceShowsViews(cfg: Config, r: Request, w: World, id: nat, h: Header)
    requires Relays(cfg, r, w)
    ensures ItemsShowViews(TracedItems(cfg, r, w, id, h), Dumped(ReadBody(cfg, r), cfg.maxBodySize),
                           Dumped(Outcome(cfg, r, w).body, cfg.maxBodySize))
  {
    var items := TracedItems(cfg, r, w, id, h);
    EndsOfTrace(cfg, r, w, id, h);
    ShownRequest(cfg, r);
    ShownResponse(cfg, r, w, Outcome(cfg, r, w), h);
    assert items[1] == items[..2][1];
    assert items[|items| - 1] == items[|items| - 2..][1];
  }

  lemma DumpedViewsArePromised(cfg: Config, r: Request, w: World)
    requires 0 < cfg.maxBodySize <= MAX_INT64 && cfg.verbose && Relays(cfg, r, w) && !Crashes(cfg, r, w)
    ensures ViewsArePromised(cfg, r, w, Dumped(ReadBody(cfg, r), cfg.maxBodySize),
                             Dumped(Outcome(cfg, r, w).body, cfg.maxBodySize))
  {
    LimitedViewsAgreeIff(r.body, BodyLimit(cfg.forwarding, cfg.maxBodySize), cfg.maxBodySize);
    ResponseViewAgreesIff(Outcome(cfg, r, w).wire.sent, cfg.maxBodySize);
    CaptureIsPrefix(cfg.http2, DumpCap(cfg.verbose, cfg.maxBodySize), CallsOf(cfg, r, w));
  }

  lemma ShownRequest(cfg: Config, r: Request)
    ensures var info := r.info.(body := ReadBody(cfg, r));
            forall id :: LegShows(T.RequestItems(cfg.maxBodySize, id, info)[1], ClientRequest,
                                  Dumped(info.body, cfg.maxBodySize))
  {
    var info := r.info.(body := ReadBody(cfg, r));
    SectionShows(ClientRequest, T.RequestLine(info), info.host, info.header, info.body, cfg.maxBodySize);
  }

  lemma ShownResponse(cfg: Config, r: Request, w: World, s: State, h: Header)
    ensures forall id :: LegShows(T.EntryItems(cfg.maxBodySize, id, ResponseEntry(r, w, s, h))[1], ClientResponse,
                                  Dumped(s.body, cfg.maxBodySize))
  {
    var status := T.StatusLine(r.info.proto, Observed(s), w.statusText(Observed(s)));
    SectionShows(ClientResponse, status, "", h, s.body, cfg.maxBodySize);
  }

  // ---------------------------------------------------- a shaped content type

  /** What a policy and a request put into the granted headers. */
  predicate OneLineCors(p: Policy, a: Asked) {
    OneLine(p.methods) && OneLine(p.headers) && OneLine(a.origin) && OneLine(a.headers)
  }

  lemma GrantedIsOneLine(p: Policy, a: Asked, name: string, v: string)
    requires OneLineCors(p, a) && v in Granted(p, a, name)
    ensures OneLine(v)
  {
    assert OneLine("*") && OneLine("true") && OneLine("Origin") && OneLine(DEFAULT_METHODS);
  }

  lemma GrantsAreOneLine(cfg: Config, r: Request, granted: Header)
    requires OneLineCors(cfg.cors, r.asked) && IsGranted(cfg, r, granted)
    ensures OneLineValues(granted)
  {
    forall name, v | name in granted && v in granted[name] ensures OneLine(v) {
      assert Values(granted, name) == Granted(cfg.cors, r.asked, name);
      GrantedIsOneLine(cfg.cors, r.asked, name, v);
    }
  }

  lemma PlainConstants()
    ensures forall n :: n in {ALLOW_ORIGIN, ALLOW_CREDENTIALS, ALLOW_METHODS, ALLOW_HEADERS, VARY, CONTENT_TYPE}
                        ==> ':' !in n && OneLine(n)
  {
  }

  /** The echo route sets only headers with plain names. */
  lemma EchoNamesArePlain(cfg: Config, r: Request, w: World, h: Header)
    requires IsEchoHeader(cfg, r, w, h)
    ensures PlainNames(h)
  {
    PlainConstants();
    var granted :| IsGranted(cfg, r, granted) && h == WithType(cfg, r, w, granted);
    forall name | name in h ensures ':' !in name && OneLine(name) {
      if name != CONTENT_TYPE {
        assert Granted(cfg.cors, r.asked, name) != [];
      }
    }
  }

  /** Is the shaped content type printed? */
  predicate PrintsShapedType(cfg: Config, r: Request, w: World) {
    !AnswersPreflight(cfg, r) && !w.clientLeft
  }

  lemma EchoHeaderIsOneLineIff(cfg: Config, r: Request, w: World, h: Header)
    requires OneLineCors(cfg.cors, r.asked) && IsEchoHeader(cfg, r, w, h)
    ensures OneLineValues(h) <==> OneLine(r.shapedType) || !PrintsShapedType(cfg, r, w)
  {
    var granted :| IsGranted(cfg, r, granted) && h == WithType(cfg, r, w, granted);
    GrantsAreOneLine(cfg, r, granted);
    assert OneLine(JSON);
    var kind := EchoType(cfg, r, w);
    if h != granted || (PrintsShapedType(cfg, r, w) && kind != "") {
      assert h == Set(granted, CONTENT_TYPE, kind);
      assert CONTENT_TYPE in h && h[CONTENT_TYPE] == [kind] && kind in h[CONTENT_TYPE];
    }
  }

  lemma StatusLineIsOneLine(proto: string, code: nat, text: string)
    requires OneLine(proto) && OneLine(text)
    ensures OneLine(T.StatusLine(proto, code, text))
  {
    var full := T.Decimal(code) + " " + text;
    T.DecimalHasNoColon(code);
    SpacedIsOneLineIff(T.Decimal(code), text);
    var left, right := X.TrimSpaceIs(full);
    OneLineConcat(left + X.TrimSpace(full), right);
    OneLineConcat(left, X.TrimSpace(full));
    SpacedIsOneLineIff(proto, X.TrimSpace(full));
  }

  /**
   * When a request, its origin and the configured texts hold no newline, the
   * printed text of its echo reads back exactly if the shaped content type
   * holds none either, or is not set because the request was answered as a
   * preflight or aborted.
   */
  lemma ShapedTypeDecidesReadBack(cfg: Config, r: Request, w: World, id: nat, h: Header)
    requires cfg.verbose && RouteOf(cfg, r, w).Echoed? && IsResponseHeader(cfg, r, w, h)
    requires PlainNames(r.info.header)
    requires OneLineRequest(r.info) && OneLineCors(cfg.cors, r.asked) && forall code :: OneLine(w.statusText(code))
    ensures var s := Outcome(cfg, r, w);
            Parse(PrintedBy(cfg, r, w, id, s, h)) == Some(P.Items(cfg.maxBodySize, TraceOf(cfg, r, w, id, s, h)))
            <==> OneLine(r.shapedType) || !PrintsShapedType(cfg, r, w)
  {
    var s := Outcome(cfg, r, w);
    var t := TraceOf(cfg, r, w, id, s, h);
    var e := ResponseEntry(r, w, s, h);
    assert t.entries == [e];
    EchoHeaderIsOneLineIff(cfg, r, w, h);
    EchoNamesArePlain(cfg, r, w, h);
    StatusLineIsOneLine(r.info.proto, Observed(s), w.statusText(Observed(s)));
    assert OneLineEntry(e) <==> OneLineValues(h);
    assert P.OneLineTrace(t) <==> OneLineEntry(t.entries[0]);
    PrintedTextReadsBackIff(cfg, r, w, id, h);
  }
}
