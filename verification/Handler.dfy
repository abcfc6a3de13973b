/**
 * Request handling: which calls each route makes on the recorder, which
 * headers it sets, and what is finished and printed.
 */
module Handler {
  import opened Common
  import opened Int64
  import opened Headers
  import opened Cors
  import opened Recorder
  import opened Bodies
  import T = TraceExchange
  import opened TraceFormat
  import P = TracePrinter

  datatype Config = Config(
    maxBodySize: nat, verbose: bool, forwarding: bool, http2: bool,
    metricsPath: Option<string>, caPem: Option<string>, caEndpoint: string,
    wsEnabled: bool, cors: Policy, echoBack: bool, overrideFile: bool)

  /**
   * What the source reads off a request: its line and headers as the trace
   * prints them (`info`, whose body field is not used), its body, the shaped
   * status once parsed as a number, and the shaped content type.
   */
  datatype Request = Request(
    path: string, wsUpgrade: bool, info: T.RequestInfo, body: string, asked: Asked,
    shaped: Option<int>, shapedType: string, bodyOnly: bool)

  /** The request as sent upstream. */
  datatype Sent = Sent(target: string, host: string, header: Header)

  /** A reply, its headers already relayed; or an error, with the JSON message that reports it to the client. */
  datatype Upstream =
    | Replied(proto: string, status: string, code: nat, header: Header, body: string)
    | Unreachable(error: string, message: string)

  /** What the outside decides: delegated handlers, failures, the client, the remote server, texts and times. */
  datatype World = World(
    metrics: seq<Call>, upgrade: seq<Call>, readError: Option<string>, clientLeft: bool,
    file: Option<string>, rendered: string, sent: Sent, upstream: Upstream,
    statusText: nat -> string, ms: nat)

  /** net/http panics on these codes. */
  predicate Panics(code: nat) {
    code < 100 || code > 999
  }

  predicate Delegated(calls: seq<Call>) {
    forall c :: c in calls ==> !c.Abort? && (c.Status? ==> !Panics(c.code))
  }

  predicate Possible(cfg: Config, w: World) {
    Delegated(w.metrics) && Delegated(w.upgrade) && 0 < cfg.maxBodySize <= MAX_INT64
  }

  datatype Route = Metrics | Authority | Upgrade | Unreadable | Forwarded | Echoed

  function RouteOf(cfg: Config, r: Request, w: World): Route {
    if cfg.metricsPath == Some(r.path) then Metrics
    else if cfg.caPem.Some? && cfg.caEndpoint != "" && r.path == cfg.caEndpoint then Authority
    else if cfg.wsEnabled && r.wsUpgrade then Upgrade
    else if w.readError.Some? then Unreadable
    else if cfg.forwarding then Forwarded
    else Echoed
  }

  function ReadBody(cfg: Config, r: Request): string {
    ReadLimited(r.body, BodyLimit(cfg.forwarding, cfg.maxBodySize))
  }

  /** Is the request a preflight that the echo route answers? */
  predicate AnswersPreflight(cfg: Config, r: Request) {
    Active(cfg.cors) && Preflight(r.asked)
  }

  // ------------------------------------------------------------------ calls

  /** The shaped status, or 200 when it is missing or out of range. */
  function EchoStatus(r: Request): nat {
    if r.shaped.Some? && 100 <= r.shaped.value <= 599 then r.shaped.value else 200
  }

  /** Is the echoed body the JSON echo? */
  predicate EchoIsJson(cfg: Config, r: Request, w: World) {
    cfg.echoBack && (if cfg.overrideFile then w.file.None? else !r.bodyOnly)
  }

  function EchoBody(cfg: Config, r: Request, w: World): string {
    if !cfg.echoBack then ""
    else if EchoIsJson(cfg, r, w) then w.rendered
    else if cfg.overrideFile then w.file.value
    else CapBody(ReadBody(cfg, r), cfg.maxBodySize).bytes
  }

  const ABORTED: nat := 499

  /** The code that a route settles; None when the metrics or upgrade handler decides. */
  function SentCode(cfg: Config, r: Request, w: World): Option<nat> {
    match RouteOf(cfg, r, w)
    case Metrics => None
    case Upgrade => None
    case Authority => Some(200)
    case Unreadable => Some(400)
    case Forwarded => if w.upstream.Replied? then Some(w.upstream.code) else Some(502)
    case Echoed =>
      if AnswersPreflight(cfg, r) then Some(204)
      else if w.clientLeft then Some(ABORTED)
      else Some(EchoStatus(r))
  }

  predicate Aborts(cfg: Config, r: Request, w: World) {
    RouteOf(cfg, r, w).Echoed? && !AnswersPreflight(cfg, r) && w.clientLeft
  }

  /** The response body of a route that sends one. */
  function SentBody(cfg: Config, r: Request, w: World): string {
    match RouteOf(cfg, r, w)
    case Authority => cfg.caPem.value
    case Unreadable => "reading request body: " + w.readError.value + "\n"
    case Forwarded => if w.upstream.Replied? then w.upstream.body else w.upstream.message
    case Echoed => if AnswersPreflight(cfg, r) || w.clientLeft then "" else EchoBody(cfg, r, w)
    case _ => ""
  }

  /** Does relaying the upstream status make net/http panic? */
  predicate Crashes(cfg: Config, r: Request, w: World) {
    RouteOf(cfg, r, w).Forwarded? && w.upstream.Replied? && Panics(w.upstream.code)
  }

  /** Everything that a request leads the handler to call on the recorder. */
  function CallsOf(cfg: Config, r: Request, w: World): seq<Call> {
    match RouteOf(cfg, r, w)
    case Metrics => w.metrics
    case Upgrade => w.upgrade
    case route =>
      var code := SentCode(cfg, r, w).value;
      if Aborts(cfg, r, w) then [Abort(code)]
      else if route.Echoed? && AnswersPreflight(cfg, r) then [Status(code)]
      else [Status(code), Data(SentBody(cfg, r, w))]
  }

  function Outcome(cfg: Config, r: Request, w: World): State {
    Run(cfg.http2, DumpCap(cfg.verbose, cfg.maxBodySize), CallsOf(cfg, r, w))
  }

  // ---------------------------------------------------------------- headers

  const CONTENT_TYPE := "Content-Type"
  const JSON := "application/json; charset=utf-8"

  /** What applyCORS leaves, when it is called at all. */
  ghost predicate IsGranted(cfg: Config, r: Request, h: Header) {
    if Active(cfg.cors) then Grants(cfg.cors, r.asked, h) else h == map[]
  }

  function EchoType(cfg: Config, r: Request, w: World): string {
    if r.shapedType == "" && EchoIsJson(cfg, r, w) then JSON else r.shapedType
  }

  /** The granted headers, and a content type unless the request is answered or aborted before, or has none. */
  function WithType(cfg: Config, r: Request, w: World, granted: Header): Header {
    if AnswersPreflight(cfg, r) || w.clientLeft || EchoType(cfg, r, w) == "" then granted
    else Set(granted, CONTENT_TYPE, EchoType(cfg, r, w))
  }

  /** h is what the echo route sets. */
  ghost predicate IsEchoHeader(cfg: Config, r: Request, w: World, h: Header) {
    exists granted :: IsGranted(cfg, r, granted) && h == WithType(cfg, r, w, granted)
  }

  /** The response headers that the handler sets on a route of its own. */
  ghost predicate IsResponseHeader(cfg: Config, r: Request, w: World, h: Header) {
    match RouteOf(cfg, r, w)
    case Authority => h == map[CONTENT_TYPE := ["application/x-pem-file"]]
    case Unreadable => h == map[CONTENT_TYPE := ["text/plain; charset=utf-8"], "X-Content-Type-Options" := ["nosniff"]]
    case Forwarded => h == if w.upstream.Replied? then w.upstream.header else map[CONTENT_TYPE := [JSON]]
    case Echoed => IsEchoHeader(cfg, r, w, h)
    case _ => true
  }

  // ------------------------------------------------------------------ trace

  /** The entries of the upstream leg. */
  function UpstreamEntries(cfg: Config, r: Request, w: World): seq<T.Entry> {
    [T.Forwarding(w.sent.target, r.info.method_, w.sent.host, w.sent.header, ReadBody(cfg, r)),
     match w.upstream
     case Replied(proto, status, _, h, body) => T.ForwardReply(proto, status, h, body)
     case Unreachable(error, _) => T.ForwardFailure(error)]
  }

  function ResponseEntry(r: Request, w: World, s: State, h: Header): T.Entry {
    T.Responding(r.info.proto, Observed(s), w.statusText(Observed(s)), w.ms, h, s.body)
  }

  predicate IsTraced(cfg: Config, r: Request, w: World) {
    cfg.verbose && var route := RouteOf(cfg, r, w); route.Upgrade? || route.Forwarded? || route.Echoed?
  }

  function EntriesBefore(cfg: Config, r: Request, w: World): seq<T.Entry> {
    if cfg.forwarding then UpstreamEntries(cfg, r, w) else []
  }

  /** The exchange that a traced request prints, when it leaves the recorder in state s and the headers h. */
  function TraceOf(cfg: Config, r: Request, w: World, id: nat, s: State, h: Header): P.Trace {
    if RouteOf(cfg, r, w).Upgrade? then P.Trace(id, r.info.(body := ""), [T.Upgrade], true)
    else P.Trace(id, r.info.(body := ReadBody(cfg, r)), EntriesBefore(cfg, r, w) + [ResponseEntry(r, w, s, h)], true)
  }

  /** The text that a request prints. */
  ghost function PrintedBy(cfg: Config, r: Request, w: World, id: nat, s: State, h: Header): string {
    if IsTraced(cfg, r, w) then Render(P.Items(cfg.maxBodySize, TraceOf(cfg, r, w, id, s, h))) else ""
  }

  ghost function ItemsBefore(cfg: Config, r: Request, w: World, id: nat): seq<Item> {
    T.RequestItems(cfg.maxBodySize, id, r.info.(body := ReadBody(cfg, r)))
    + P.EntriesItems(cfg.maxBodySize, id, EntriesBefore(cfg, r, w))
  }

  /** A traced exchange prints its request, its upstream legs and its response, in that order. */
  lemma TraceItems(cfg: Config, r: Request, w: World, id: nat, s: State, h: Header)
    requires !RouteOf(cfg, r, w).Upgrade?
    ensures P.Items(cfg.maxBodySize, TraceOf(cfg, r, w, id, s, h))
         == ItemsBefore(cfg, r, w, id) + T.EntryItems(cfg.maxBodySize, id, ResponseEntry(r, w, s, h))
  {
    var info := r.info.(body := ReadBody(cfg, r));
    P.ItemsOfSnoc(cfg.maxBodySize, id, info, EntriesBefore(cfg, r, w), ResponseEntry(r, w, s, h));
  }

  // -------------------------------------------------------------------- log

  /** What the request log says of a forwarded exchange. */
  datatype ForwardLog = Relayed(code: nat, body: View) | Failed(error: string)

  /** What finish records for metrics and log. */
  datatype Logged = Logged(status: nat, forward: Option<ForwardLog>, reserved: bool)

  function ForwardLogged(cfg: Config, u: Upstream): ForwardLog {
    if u.Replied? then Relayed(u.code, CapBody(u.body, cfg.maxBodySize)) else Failed(u.error)
  }

  function LoggedAs(cfg: Config, r: Request, w: World, s: State): Logged {
    var route := RouteOf(cfg, r, w);
    Logged(Observed(s), if route.Forwarded? then Some(ForwardLogged(cfg, w.upstream)) else None,
           route.Metrics? || route.Authority?)
  }

  class Handler {
    const cfg: Config
    /** What finish has recorded. */
    var finished: seq<Logged>
    /** The printer: how many exchanges were started, and its output. */
    var started: nat
    var output: string

    constructor (cfg: Config)
      ensures this.cfg == cfg && finished == [] && started == 0 && output == ""
    {
      this.cfg := cfg;
      finished, started, output := [], 0, "";
    }

    /** finish, as far as the observed status and the forward object go. */
    method Finish(rec: Recorder, forward: Option<ForwardLog>, reserved: bool)
      modifies this`finished
      ensures finished == old(finished) + [Logged(Observed(rec.Value()), forward, reserved)]
    {
      finished := finished + [Logged(Observed(rec.Value()), forward, reserved)];
    }

    /** Start, with the section of the request. */
    method StartTrace(info: T.RequestInfo) returns (ex: T.Exchange)
      modifies this`started
      ensures fresh(ex) && ex.Valid() && ex.maxBody == cfg.maxBodySize && started == old(started) + 1
      ensures ex.id == P.Number(old(started)) && ex.items == T.RequestItems(cfg.maxBodySize, ex.id, info)
    {
      ex := new T.Exchange(P.Number(started), cfg.maxBodySize);
      started := started + 1;
      ex.Request(info);
    }

    /** Flush: one write of the whole block. */
    method FlushTrace(ex: T.Exchange)
      requires ex.Valid()
      modifies this`output
      ensures output == old(output) + Render(ex.items)
    {
      output := output + ex.buf;
    }

    /** serve; `crashed` when net/http panicked and unwound the handler. */
    method Serve(writer: ResponseWriter, r: Request, w: World) returns (crashed: bool)
      requires Possible(cfg, w) && writer.http2 == cfg.http2
      requires writer.wire == Wire(None, 0, "") && writer.header == map[]
      modifies this, writer
      ensures crashed == Crashes(cfg, r, w)
      ensures started == old(started) + if IsTraced(cfg, r, w) then 1 else 0
      ensures var s := Outcome(cfg, r, w);
              if crashed then finished == old(finished) && output == old(output) && writer.wire == old(writer.wire)
              else
                && finished == old(finished) + [LoggedAs(cfg, r, w, s)]
                && writer.wire == s.wire && IsResponseHeader(cfg, r, w, writer.header)
                && output == old(output) + PrintedBy(cfg, r, w, P.Number(old(started)), s, writer.header)
    {
      var rec := new Recorder(writer, DumpCap(cfg.verbose, cfg.maxBodySize));
      crashed := false;
      if cfg.metricsPath == Some(r.path) {
        ServeDelegated(rec, w.metrics, true);
      } else if cfg.caPem.Some? && cfg.caEndpoint != "" && r.path == cfg.caEndpoint {
        ServeText(rec, map[CONTENT_TYPE := ["application/x-pem-file"]], 200, cfg.caPem.value, true);
      } else if cfg.wsEnabled && r.wsUpgrade {
        HandleWebSocket(rec, r, w);
      } else if w.readError.Some? {
        ServeText(rec, map[CONTENT_TYPE := ["text/plain; charset=utf-8"], "X-Content-Type-Options" := ["nosniff"]],
                  400, "reading request body: " + w.readError.value + "\n", false);
      } else {
        crashed := Exchange(rec, r, w, ReadBody(cfg, r));
      }
    }

    method ServeDelegated(rec: Recorder, calls: seq<Call>, reserved: bool)
      requires rec.Valid() && rec.Value() == FRESH
      modifies this`finished, rec, rec.writer`wire
      ensures var s := Run(rec.writer.http2, rec.bodyCap, calls);
              && rec.writer.wire == s.wire
              && finished == old(finished) + [Logged(Observed(s), None, reserved)]
    {
      rec.Play(calls);
      Finish(rec, None, reserved);
    }

    method ServeText(rec: Recorder, header: Header, code: nat, body: string, reserved: bool)
      requires rec.Valid() && rec.Value() == FRESH
      modifies this`finished, rec, rec.writer
      ensures var s := Run(rec.writer.http2, rec.bodyCap, [Status(code), Data(body)]);
              && rec.writer.wire == s.wire && rec.writer.header == header
              && finished == old(finished) + [Logged(Observed(s), None, reserved)]
    {
      rec.writer.header := header;
      Respond(rec, code, body);
      Finish(rec, None, reserved);
    }

    /** handleWebSocket up to its finish: the trace block is printed before the upgrade is tried. */
    method HandleWebSocket(rec: Recorder, r: Request, w: World)
      requires rec.Valid() && rec.Value() == FRESH && RouteOf(cfg, r, w).Upgrade?
      modifies this, rec, rec.writer`wire
      ensures var s := Run(rec.writer.http2, rec.bodyCap, w.upgrade);
              && finished == old(finished) + [LoggedAs(cfg, r, w, s)]
              && rec.writer.wire == s.wire
              && started == old(started) + (if cfg.verbose then 1 else 0)
              && output == old(output) + PrintedBy(cfg, r, w, P.Number(old(started)), s, rec.writer.header)
    {
      if cfg.verbose {
        var ex := StartTrace(r.info.(body := ""));
        ex.WebSocketUpgrade();
        FlushTrace(ex);
        P.EntriesItemsOfOne(cfg.maxBodySize, ex.id, T.Upgrade);
      }
      ServeDelegated(rec, w.upgrade, false);
    }

    /** The rest of serve: forward or echo, print, finish. */
    method Exchange(rec: Recorder, r: Request, w: World, body: string) returns (crashed: bool)
      requires rec.Valid() && rec.Value() == FRESH && rec.writer.header == map[]
      requires RouteOf(cfg, r, w).Forwarded? || RouteOf(cfg, r, w).Echoed?
      requires body == ReadBody(cfg, r) && 0 < cfg.maxBodySize
      modifies this, rec, rec.writer
      ensures crashed == Crashes(cfg, r, w)
      ensures started == old(started) + if cfg.verbose then 1 else 0
      ensures var s := Run(rec.writer.http2, rec.bodyCap, CallsOf(cfg, r, w));
              if crashed then
                finished == old(finished) && output == old(output) && rec.writer.wire == old(rec.writer.wire)
              else
                && finished == old(finished) + [LoggedAs(cfg, r, w, s)]
                && rec.writer.wire == s.wire && IsResponseHeader(cfg, r, w, rec.writer.header)
                && output == old(output) + PrintedBy(cfg, r, w, P.Number(old(started)), s, rec.writer.header)
    {
      var ex: T.Exchange? := null;
      if cfg.verbose {
        ex := StartTrace(r.info.(body := body));
      }
      var forward;
      crashed, forward := Relay(rec, r, w, body, ex);
      if crashed {
        return;
      }
      if ex != null {
        Print(rec, r, w, ex);
      }
      Finish(rec, forward, false);
    }

    /** Forward or echo. */
    method Relay(rec: Recorder, r: Request, w: World, body: string, ex: T.Exchange?)
      returns (crashed: bool, forward: Option<ForwardLog>)
      requires rec.Valid() && rec.Value() == FRESH && rec.writer.header == map[]
      requires RouteOf(cfg, r, w).Forwarded? || RouteOf(cfg, r, w).Echoed?
      requires body == ReadBody(cfg, r) && 0 < cfg.maxBodySize
      requires ex != null ==> ex.Valid() && ex.maxBody == cfg.maxBodySize
      modifies rec, rec.writer, if ex == null then {} else {ex}
      ensures crashed == Crashes(cfg, r, w)
      ensures ex != null ==>
                && ex.Valid()
                && ex.items == old(ex.items) + P.EntriesItems(cfg.maxBodySize, ex.id, EntriesBefore(cfg, r, w))
      ensures if crashed then rec.writer.wire == old(rec.writer.wire)
              else
                && rec.Value() == Run(rec.writer.http2, rec.bodyCap, CallsOf(cfg, r, w))
                && IsResponseHeader(cfg, r, w, rec.writer.header)
                && forward == LoggedAs(cfg, r, w, rec.Value()).forward
    {
      if cfg.forwarding {
        crashed, forward := HandleForward(rec, r, w, ex);
      } else {
        crashed, forward := false, None;
        HandleEcho(rec, r, w, CapBody(body, cfg.maxBodySize).bytes);
        assert ex != null ==> ex.items + [] == ex.items;
      }
    }

    /** The response section of the trace, and its flush. */
    method Print(rec: Recorder, r: Request, w: World, ex: T.Exchange)
      requires ex.Valid() && ex.maxBody == cfg.maxBodySize && cfg.verbose
      requires RouteOf(cfg, r, w).Forwarded? || RouteOf(cfg, r, w).Echoed?
      requires ex.items == ItemsBefore(cfg, r, w, ex.id)
      modifies this`output, ex
      ensures output == old(output) + PrintedBy(cfg, r, w, ex.id, rec.Value(), rec.writer.header)
    {
      ghost var s, h := rec.Value(), rec.writer.header;
      TraceItems(cfg, r, w, ex.id, s, h);
      TraceResponse(rec, r, w, ex);
      assert ex.items == P.Items(cfg.maxBodySize, TraceOf(cfg, r, w, ex.id, s, h));
      FlushTrace(ex);
    }

    method TraceResponse(rec: Recorder, r: Request, w: World, ex: T.Exchange)
      requires ex.Valid()
      modifies ex
      ensures ex.Valid()
      ensures var e := ResponseEntry(r, w, rec.Value(), rec.writer.header);
              ex.items == old(ex.items) + T.EntryItems(ex.maxBody, ex.id, e)
    {
      var status := if rec.wroteHeader then rec.status else 200;
      ex.Response(r.info.proto, status, w.statusText(status), w.ms, rec.writer.header, rec.body);
    }

    method Respond(rec: Recorder, code: nat, body: string)
      requires rec.Valid() && rec.Value() == FRESH
      modifies rec, rec.writer`wire
      ensures rec.Valid() && rec.Value() == Run(rec.writer.http2, rec.bodyCap, [Status(code), Data(body)])
    {
      rec.WriteHeader(code);
      rec.Write(body);
      RunOfTwo(rec.writer.http2, rec.bodyCap, Status(code), Data(body));
    }

    /** handleForward: the upstream sections of the trace, the log object, and the relayed response. */
    method HandleForward(rec: Recorder, r: Request, w: World, ex: T.Exchange?)
      returns (crashed: bool, forward: Option<ForwardLog>)
      requires rec.Valid() && rec.Value() == FRESH && rec.writer.header == map[]
      requires ex != null ==> ex.Valid() && ex.maxBody == cfg.maxBodySize
      modifies rec, rec.writer, if ex == null then {} else {ex}
      ensures crashed == (w.upstream.Replied? && Panics(w.upstream.code))
      ensures forward == Some(ForwardLogged(cfg, w.upstream))
      ensures rec.writer.header == if w.upstream.Replied? then w.upstream.header else map[CONTENT_TYPE := [JSON]]
      ensures if crashed then rec.writer.wire == old(rec.writer.wire)
              else rec.Value() == Run(rec.writer.http2, rec.bodyCap,
                     if w.upstream.Replied? then [Status(w.upstream.code), Data(w.upstream.body)]
                     else [Status(502), Data(w.upstream.message)])
      ensures ex != null ==>
                ex.Valid()
                && ex.items == old(ex.items) + P.EntriesItems(ex.maxBody, ex.id, UpstreamEntries(cfg, r, w))
    {
      if ex != null {
        TraceUpstream(r, w, ex);
      }
      crashed := false;
      if w.upstream.Unreachable? {
        forward := Some(Failed(w.upstream.error));
        rec.writer.header := Set(rec.writer.header, CONTENT_TYPE, JSON);
        Respond(rec, 502, w.upstream.message);
        return;
      }
      forward := Some(Relayed(w.upstream.code, CapBody(w.upstream.body, cfg.maxBodySize)));
      CopyHeader(rec.writer, w.upstream.header);
      if Panics(w.upstream.code) {
        crashed := true;
      } else {
        Respond(rec, w.upstream.code, w.upstream.body);
      }
    }

    method TraceUpstream(r: Request, w: World, ex: T.Exchange)
      requires ex.Valid() && ex.maxBody == cfg.maxBodySize
      modifies ex
      ensures ex.Valid() && ex.items == old(ex.items) + P.EntriesItems(ex.maxBody, ex.id, UpstreamEntries(cfg, r, w))
    {
      ghost var entries := UpstreamEntries(cfg, r, w);
      ex.Forward(w.sent.target, r.info.method_, w.sent.host, w.sent.header, ReadBody(cfg, r));
      match w.upstream {
        case Replied(proto, status, _, h, body) => ex.ForwardResponse(proto, status, h, body);
        case Unreachable(error, _) => ex.ForwardError(error);
      }
      P.EntriesItemsOfTwo(ex.maxBody, ex.id, entries[0], entries[1]);
      assert entries == [entries[0], entries[1]];
      Regroup(old(ex.items), T.EntryItems(ex.maxBody, ex.id, entries[0]), T.EntryItems(ex.maxBody, ex.id, entries[1]));
    }

    /** The loop that copies the reply's headers, in whatever order the map yields them. */
    method CopyHeader(writer: ResponseWriter, source: Header)
      requires writer.header == map[]
      modifies writer`header
      ensures writer.header == source
    {
      var todo := source.Keys;
      while todo != {}
        invariant todo <= source.Keys
        invariant writer.header == source - todo
        decreases todo
      {
        var name :| name in todo;
        writer.header := writer.header[name := source[name]];
        todo := todo - {name};
      }
    }

    method HandleEcho(rec: Recorder, r: Request, w: World, body: string)
      requires rec.Valid() && rec.Value() == FRESH && rec.writer.header == map[]
      requires body == CapBody(ReadBody(cfg, r), cfg.maxBodySize).bytes
      modifies rec, rec.writer
      ensures IsEchoHeader(cfg, r, w, rec.writer.header)
      ensures rec.Value() == Run(rec.writer.http2, rec.bodyCap,
                if AnswersPreflight(cfg, r) then [Status(204)]
                else if w.clientLeft then [Abort(ABORTED)]
                else [Status(EchoStatus(r)), Data(EchoBody(cfg, r, w))])
    {
      var answered := false;
      if cfg.cors.all || cfg.cors.origins != [] {
        rec.writer.header, answered := Apply(cfg.cors, r.asked);
      }
      assert IsGranted(cfg, r, rec.writer.header);
      if answered {
        rec.WriteHeader(204);
        RunOfOne(rec.writer.http2, rec.bodyCap, Status(204));
      } else {
        Shape(rec, r, w, body);
      }
    }

    /** handleEcho after applyCORS. */
    method Shape(rec: Recorder, r: Request, w: World, body: string)
      requires rec.Valid() && rec.Value() == FRESH && !AnswersPreflight(cfg, r)
      requires body == CapBody(ReadBody(cfg, r), cfg.maxBodySize).bytes
      modifies rec, rec.writer
      ensures rec.writer.header == WithType(cfg, r, w, old(rec.writer.header))
      ensures rec.Value() == Run(rec.writer.http2, rec.bodyCap,
                if w.clientLeft then [Abort(ABORTED)] else [Status(EchoStatus(r)), Data(EchoBody(cfg, r, w))])
    {
      var status: nat := 200;
      if r.shaped.Some? && 100 <= r.shaped.value <= 599 {
        status := r.shaped.value;
      }
      var contentType := r.shapedType;
      if w.clientLeft {
        rec.Abandon(ABORTED);
        RunOfOne(rec.writer.http2, rec.bodyCap, Abort(ABORTED));
        return;
      }
      var respBody, isJson := ChooseBody(r, w, body);
      if contentType == "" && isJson {
        contentType := JSON;
      }
      if contentType != "" {
        rec.writer.header := Set(rec.writer.header, CONTENT_TYPE, contentType);
      }
      Respond(rec, status, respBody);
    }

    /** The switch over what to echo. */
    method ChooseBody(r: Request, w: World, body: string) returns (respBody: string, isJson: bool)
      requires body == CapBody(ReadBody(cfg, r), cfg.maxBodySize).bytes
      ensures respBody == EchoBody(cfg, r, w) && isJson == EchoIsJson(cfg, r, w)
    {
      respBody, isJson := "", false;
      if !cfg.echoBack {
      } else if cfg.overrideFile {
        if w.file.None? {
          respBody, isJson := w.rendered, true;
        } else {
          respBody := w.file.value;
        }
      } else if r.bodyOnly {
        respBody := body;
      } else {
        respBody, isJson := w.rendered, true;
      }
    }
  }

  lemma RunOfOne(http2: bool, bodyCap: int, a: Call)
    ensures Run(http2, bodyCap, [a]) == Step(http2, bodyCap, FRESH, a)
  {
    assert [a][..0] == [];
  }

  lemma RunOfTwo(http2: bool, bodyCap: int, a: Call, b: Call)
    ensures Run(http2, bodyCap, [a, b]) == Step(http2, bodyCap, Step(http2, bodyCap, FRESH, a), b)
  {
    assert [a, b][..1] == [a];
    RunOfOne(http2, bodyCap, a);
  }
}
