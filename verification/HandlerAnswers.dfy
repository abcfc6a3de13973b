/**
 * The answers of the handler as a table: from the configuration, the request
 * and the outside world to what reaches the wire and what is observed.
 */
module HandlerAnswers {
  import opened Common
  import opened Headers
  import opened Cors
  import opened Recorder
  import opened Bodies
  import opened Handler

  // ------------------------------------------------------------------- cases

  predicate AsksMetrics(cfg: Config, r: Request) {
    cfg.metricsPath.Some? && r.path == cfg.metricsPath.value
  }

  predicate AsksAuthority(cfg: Config, r: Request) {
    !AsksMetrics(cfg, r) && cfg.caPem.Some? && cfg.caEndpoint != "" && r.path == cfg.caEndpoint
  }

  predicate AsksUpgrade(cfg: Config, r: Request) {
    !AsksMetrics(cfg, r) && !AsksAuthority(cfg, r) && cfg.wsEnabled && r.wsUpgrade
  }

  /** Any other request. */
  predicate AsksContent(cfg: Config, r: Request) {
    !AsksMetrics(cfg, r) && !AsksAuthority(cfg, r) && !AsksUpgrade(cfg, r)
  }

  predicate IsForwarded(cfg: Config, r: Request, w: World) {
    AsksContent(cfg, r) && w.readError.None? && cfg.forwarding
  }

  predicate IsPreflight(cfg: Config, r: Request) {
    (cfg.cors.all || cfg.cors.origins != []) && r.asked.options && r.asked.verb != ""
  }

  predicate IsEchoed(cfg: Config, r: Request, w: World) {
    AsksContent(cfg, r) && w.readError.None? && !cfg.forwarding && !IsPreflight(cfg, r)
  }

  /** One header and one body: this code is final and observed, and this body is sent. */
  predicate Answered(s: State, code: nat, body: string) {
    s.wire == Wire(Some(code), 1, body) && Observed(s) == code
  }

  /** An interim code: observed, but 200 is final. */
  predicate AnsweredInterim(s: State, code: nat, body: string) {
    s.wire == Wire(Some(200), 1, body) && Observed(s) == code
  }

  lemma ResponseIs(http2: bool, cap: int, code: nat, body: string)
    ensures var s := Run(http2, cap, [Status(code), Data(body)]);
            if 100 <= code <= 199 && (http2 || code != 101) then AnsweredInterim(s, code, body)
            else Answered(s, code, body)
  {
    RunOfTwo(http2, cap, Status(code), Data(body));
    assert "" + body == body;
  }

  // ------------------------------------------------------------------- table

  lemma MetricsAnswers(cfg: Config, r: Request, w: World)
    requires AsksMetrics(cfg, r)
    ensures Outcome(cfg, r, w) == Run(cfg.http2, DumpCap(cfg.verbose, cfg.maxBodySize), w.metrics)
  {
  }

  /** The CA path: 200 and the PEM text. */
  lemma AuthorityAnswers(cfg: Config, r: Request, w: World, h: Header)
    requires AsksAuthority(cfg, r)
    ensures Answered(Outcome(cfg, r, w), 200, cfg.caPem.value)
    ensures IsResponseHeader(cfg, r, w, h) ==> h == map["Content-Type" := ["application/x-pem-file"]]
  {
    ResponseIs(cfg.http2, DumpCap(cfg.verbose, cfg.maxBodySize), 200, cfg.caPem.value);
  }

  /** An upgrade is handled here, even when everything else is forwarded. */
  lemma UpgradeAnswers(cfg: Config, r: Request, w: World)
    requires AsksUpgrade(cfg, r)
    ensures Outcome(cfg, r, w) == Run(cfg.http2, DumpCap(cfg.verbose, cfg.maxBodySize), w.upgrade)
  {
  }

  /** A body that cannot be read: 400 and the error. */
  lemma UnreadableAnswers(cfg: Config, r: Request, w: World, h: Header)
    requires AsksContent(cfg, r) && w.readError.Some?
    ensures IsResponseHeader(cfg, r, w, h) ==>
              h == map["Content-Type" := ["text/plain; charset=utf-8"], "X-Content-Type-Options" := ["nosniff"]]
    ensures Answered(Outcome(cfg, r, w), 400, "reading request body: " + w.readError.value + "\n")
  {
    var message := "reading request body: " + w.readError.value + "\n";
    ResponseIs(cfg.http2, DumpCap(cfg.verbose, cfg.maxBodySize), 400, message);
  }

  /** A preflight: 204 and no body. */
  lemma PreflightAnswers(cfg: Config, r: Request, w: World, h: Header)
    requires AsksContent(cfg, r) && w.readError.None? && !cfg.forwarding && IsPreflight(cfg, r)
    ensures Answered(Outcome(cfg, r, w), 204, "")
    ensures IsResponseHeader(cfg, r, w, h) ==> Grants(cfg.cors, r.asked, h)
  {
    RunOfOne(cfg.http2, DumpCap(cfg.verbose, cfg.maxBodySize), Status(204));
  }

  /** A client that left during the delay: 499 is observed, and nothing reaches the wire. */
  lemma LeftClientAnswers(cfg: Config, r: Request, w: World)
    requires IsEchoed(cfg, r, w) && w.clientLeft
    ensures Outcome(cfg, r, w).wire == Wire(None, 0, "") && Observed(Outcome(cfg, r, w)) == 499
  {
    RunOfOne(cfg.http2, DumpCap(cfg.verbose, cfg.maxBodySize), Abort(499));
  }

  /** What an echo sends: nothing, the file, the request's own body, or the rendered echo. */
  predicate IsEchoBody(cfg: Config, r: Request, w: World, body: string) {
    && (!cfg.echoBack ==> body == "")
    && (cfg.echoBack && cfg.overrideFile && w.file.Some? ==> body == w.file.value)
    && (cfg.echoBack && cfg.overrideFile && w.file.None? ==> body == w.rendered)
    && (cfg.echoBack && !cfg.overrideFile && !r.bodyOnly ==> body == w.rendered)
    && (cfg.echoBack && !cfg.overrideFile && r.bodyOnly && 0 < cfg.maxBodySize < 0x7fff_ffff_ffff_ffff ==>
          body == if |r.body| <= cfg.maxBodySize then r.body else r.body[..cfg.maxBodySize])
  }

  lemma EchoBodyIs(cfg: Config, r: Request, w: World)
    requires !cfg.forwarding
    ensures IsEchoBody(cfg, r, w, EchoBody(cfg, r, w))
  {
    if cfg.echoBack && !cfg.overrideFile && r.bodyOnly && 0 < cfg.maxBodySize < 0x7fff_ffff_ffff_ffff {
      RequestViewsAgreeIff(r.body, false, cfg.maxBodySize);
    }
  }

  /** An echo: the shaped code where it is one that may be set, 200 otherwise, with the body above. */
  lemma EchoAnswers(cfg: Config, r: Request, w: World) returns (body: string)
    requires IsEchoed(cfg, r, w) && !w.clientLeft
    ensures IsEchoBody(cfg, r, w, body)
    ensures r.shaped.None? ==> Answered(Outcome(cfg, r, w), 200, body)
    ensures r.shaped.Some? ==>
              var v := r.shaped.value;
              if v < 100 || v > 599 then Answered(Outcome(cfg, r, w), 200, body)
              else if v >= 200 || (v == 101 && !cfg.http2) then Answered(Outcome(cfg, r, w), v, body)
              else AnsweredInterim(Outcome(cfg, r, w), v, body)
  {
    body := EchoBody(cfg, r, w);
    EchoBodyIs(cfg, r, w);
    ResponseIs(cfg.http2, DumpCap(cfg.verbose, cfg.maxBodySize), EchoStatus(r), body);
  }

  /** The content type of an echo: the shaped one, JSON for a rendered echo, none otherwise. */
  lemma EchoTypeIs(cfg: Config, r: Request, w: World, h: Header)
    requires IsEchoed(cfg, r, w) && !w.clientLeft && IsResponseHeader(cfg, r, w, h)
    ensures r.shapedType != "" ==> "Content-Type" in h && h["Content-Type"] == [r.shapedType]
    ensures r.shapedType == "" && cfg.echoBack && (if cfg.overrideFile then w.file.None? else !r.bodyOnly) ==>
              "Content-Type" in h && h["Content-Type"] == ["application/json; charset=utf-8"]
    ensures r.shapedType == "" && !(cfg.echoBack && (if cfg.overrideFile then w.file.None? else !r.bodyOnly)) ==>
              "Content-Type" !in h
  {
    var granted :| IsGranted(cfg, r, granted) && h == WithType(cfg, r, w, granted);
    ContentTypeIsNotGranted(cfg, r, granted);
  }

  lemma ContentTypeIsNotGranted(cfg: Config, r: Request, granted: Header)
    requires IsGranted(cfg, r, granted)
    ensures "Content-Type" !in granted
  {
    NamesDiffer();
    assert |"Content-Type"| == 12;
    if Active(cfg.cors) {
      assert "Content-Type" in granted <==> Granted(cfg.cors, r.asked, "Content-Type") != [];
    }
  }

  /** A reply is relayed whole, status, headers and body; codes that net/http refuses crash the request. */
  lemma ReplyIsRelayed(cfg: Config, r: Request, w: World, h: Header)
    requires IsForwarded(cfg, r, w) && w.upstream.Replied?
    ensures Crashes(cfg, r, w) <==> w.upstream.code < 100 || w.upstream.code > 999
    ensures var s := Outcome(cfg, r, w); var code := w.upstream.code;
            if 100 <= code <= 199 && (cfg.http2 || code != 101) then AnsweredInterim(s, code, w.upstream.body)
            else Answered(s, code, w.upstream.body)
    ensures IsResponseHeader(cfg, r, w, h) ==> h == w.upstream.header
  {
    ResponseIs(cfg.http2, DumpCap(cfg.verbose, cfg.maxBodySize), w.upstream.code, w.upstream.body);
  }

  /** A remote failure: 502 and the message, as JSON. */
  lemma FailureAnswers(cfg: Config, r: Request, w: World, h: Header)
    requires IsForwarded(cfg, r, w) && w.upstream.Unreachable?
    ensures !Crashes(cfg, r, w) && Answered(Outcome(cfg, r, w), 502, w.upstream.message)
    ensures IsResponseHeader(cfg, r, w, h) ==> h == map["Content-Type" := ["application/json; charset=utf-8"]]
  {
    ResponseIs(cfg.http2, DumpCap(cfg.verbose, cfg.maxBodySize), 502, w.upstream.message);
  }

  // ------------------------------------------------------------ log and trace

  /** Reserved are the metrics and CA paths; a forward object is logged exactly for forwarded requests. */
  lemma LogIs(cfg: Config, r: Request, w: World, s: State)
    ensures LoggedAs(cfg, r, w, s).reserved <==> AsksMetrics(cfg, r) || AsksAuthority(cfg, r)
    ensures LoggedAs(cfg, r, w, s).forward.Some? <==> IsForwarded(cfg, r, w)
    ensures LoggedAs(cfg, r, w, s).status == if s.wroteHeader then s.status else 200
  {
  }

  /** Printed is, in verbose mode, every upgrade and every other request whose body was read, reserved paths apart. */
  lemma TracedIff(cfg: Config, r: Request, w: World)
    ensures IsTraced(cfg, r, w)
            <==> cfg.verbose && (AsksUpgrade(cfg, r) || (AsksContent(cfg, r) && w.readError.None?))
  {
  }
}
