/**
 * What an exchange prints from outside, and when all of it fits on lines:
 * exactly if none of the texts it is given holds a newline.
 */
module TraceInputs {
  import opened Common
  import opened Headers
  import opened TraceFormat
  import opened TraceLegs
  import opened TraceExchange

  /** Header names as net/http admits them: no colon and no newline, among other things. */
  predicate PlainNames(h: Header) {
    forall name :: name in h ==> ':' !in name && OneLine(name)
  }

  ghost predicate OneLineValues(h: Header) {
    forall name, v :: name in h && v in h[name] ==> OneLine(v)
  }

  /** The texts of a request that are printed outside its body. */
  ghost predicate OneLineRequest(info: RequestInfo) {
    && OneLine(info.remoteAddr) && OneLine(info.scheme) && OneLine(info.proto) && OneLine(info.tlsVersion)
    && OneLine(info.sni) && OneLine(info.method_) && OneLine(info.requestUri) && OneLine(info.host)
    && OneLineValues(info.header)
  }

  ghost predicate OneLineEntry(e: Entry) {
    match e
    case Forwarding(target, verb, host, h, _) => OneLine(target) && OneLine(verb) && OneLine(host) && OneLineValues(h)
    case ForwardReply(proto, status, h, _) => OneLine(proto) && OneLine(status) && OneLineValues(h)
    case ForwardFailure(error) => OneLine(error)
    case Responding(proto, code, statusText, _, h, _) =>
      OneLine(StatusLine(proto, code, statusText)) && OneLineValues(h)
    case Upgrade => true
  }

  function EntryHeader(e: Entry): Header {
    match e
    case Forwarding(_, _, _, h, _) => h
    case ForwardReply(_, _, h, _) => h
    case Responding(_, _, _, _, h, _) => h
    case _ => map[]
  }

  // --------------------------------------------------------------- texts and items

  lemma OneLineConcat(a: string, b: string)
    ensures OneLine(a + b) <==> OneLine(a) && OneLine(b)
  {
  }

  lemma AllOneLineConcat(a: seq<Item>, b: seq<Item>)
    ensures AllOneLine(a + b) <==> AllOneLine(a) && AllOneLine(b)
  {
    LinesConcat(a, b);
    assert forall l :: l in Lines(a) ==> l in Lines(a + b);
    assert forall l :: l in Lines(b) ==> l in Lines(a + b);
  }

  lemma AllOneLineItem(item: Item)
    ensures AllOneLine([item]) <==> forall l :: l in ItemLines(item) ==> OneLine(l)
  {
    SingleItemLines(item);
  }

  lemma InfoIsOneLineIff(text: string)
    ensures AllOneLine([Info(text)]) <==> OneLine(text)
  {
    AllOneLineItem(Info(text));
    OneLineConcat("* ", text);
    assert "* " + text in ItemLines(Info(text));
  }

  lemma LegIsOneLineIff(k: Kind, first: string, host: string, h: Header, body: string, maxBody: int)
    requires PlainNames(h)
    ensures AllOneLine([Section(k, first, host, h, body, maxBody)])
            <==> OneLine(first) && OneLine(host) && OneLineValues(h)
  {
    AllOneLineItem(Section(k, first, host, h, body, maxBody));
    SectionIsOneLineIff(k, first, host, h, body, maxBody);
  }

  /** An informational line and a leg. */
  lemma PairIsOneLineIff(text: string, k: Kind, first: string, host: string, h: Header, body: string, maxBody: int)
    requires PlainNames(h)
    ensures AllOneLine([Info(text), Section(k, first, host, h, body, maxBody)])
            <==> OneLine(text) && OneLine(first) && OneLine(host) && OneLineValues(h)
  {
    var leg := Section(k, first, host, h, body, maxBody);
    assert [Info(text), leg] == [Info(text)] + [leg];
    AllOneLineConcat([Info(text)], [leg]);
    InfoIsOneLineIff(text);
    LegIsOneLineIff(k, first, host, h, body, maxBody);
  }

  // ------------------------------------------------------------------ first lines

  lemma ConnectionIsOneLineIff(info: RequestInfo)
    ensures OneLine(ConnectionText(info))
            <==> OneLine(info.scheme) && OneLine(info.proto) && OneLine(info.tlsVersion) && OneLine(info.sni)
  {
    var start := info.scheme + " (" + info.proto;
    var tls := if info.tlsVersion == "" then "" else ", " + info.tlsVersion;
    var sni := if info.sni == "" then "" else ", SNI " + info.sni;
    OneLineConcat(info.scheme + " (", info.proto);
    OneLineConcat(info.scheme, " (");
    OneLineConcat(", ", info.tlsVersion);
    OneLineConcat(", SNI ", info.sni);
    OneLineConcat(start, tls);
    OneLineConcat(start + tls, sni);
    OneLineConcat(start + tls + sni, ")");
  }

  lemma RequestTextIsOneLineIff(id: nat, info: RequestInfo)
    ensures OneLine(RequestText(id, info)) <==> OneLine(info.remoteAddr) && OneLine(ConnectionText(info))
  {
    var arrow := info.remoteAddr + " \U{2192} ";
    DecimalHasNoColon(id);
    OneLineConcat(info.remoteAddr, " \U{2192} ");
    OneLineConcat(arrow, ConnectionText(info));
    OneLineConcat(": ", arrow + ConnectionText(info));
    OneLineConcat(Decimal(id), ": " + (arrow + ConnectionText(info)));
    OneLineConcat(REQUEST, Decimal(id) + (": " + (arrow + ConnectionText(info))));
  }

  lemma RequestLineIsOneLineIff(info: RequestInfo)
    ensures OneLine(RequestLine(info)) <==> OneLine(info.method_) && OneLine(info.requestUri) && OneLine(info.proto)
  {
    OneLineConcat(info.method_, " ");
    OneLineConcat(info.method_ + " ", info.requestUri);
    OneLineConcat(info.method_ + " " + info.requestUri, " ");
    OneLineConcat(info.method_ + " " + info.requestUri + " ", info.proto);
  }

  lemma ResponseTextIsOneLine(id: nat, code: nat, ms: nat)
    ensures OneLine(ResponseText(id, code, ms))
  {
    DecimalHasNoColon(id);
    DecimalHasNoColon(code);
    DecimalHasNoColon(ms);
  }

  lemma SpacedIsOneLineIff(a: string, b: string)
    ensures OneLine(a + " " + b) <==> OneLine(a) && OneLine(b)
  {
    OneLineConcat(a, " ");
    OneLineConcat(a + " ", b);
  }

  // -------------------------------------------------------------------- exchanges

  /** The items of a request fit on lines exactly if its texts do. */
  lemma RequestIsOneLineIff(maxBody: int, id: nat, info: RequestInfo)
    requires PlainNames(info.header)
    ensures AllOneLine(RequestItems(maxBody, id, info)) <==> OneLineRequest(info)
  {
    ConnectionIsOneLineIff(info);
    RequestTextIsOneLineIff(id, info);
    RequestLineIsOneLineIff(info);
    PairIsOneLineIff(RequestText(id, info), ClientRequest, RequestLine(info), info.host, info.header,
                     info.body, maxBody);
  }

  lemma ForwardingIsOneLineIff(maxBody: int, id: nat, e: Entry)
    requires e.Forwarding? && PlainNames(e.header)
    ensures AllOneLine(EntryItems(maxBody, id, e)) <==> OneLineEntry(e)
  {
    OneLineConcat("Forwarding to ", e.target);
    SpacedIsOneLineIff(e.verb, e.target);
    PairIsOneLineIff("Forwarding to " + e.target, UpstreamRequest, e.verb + " " + e.target, e.host, e.header,
                     e.body, maxBody);
  }

  lemma ReplyIsOneLineIff(maxBody: int, id: nat, e: Entry)
    requires e.ForwardReply? && PlainNames(e.header)
    ensures AllOneLine(EntryItems(maxBody, id, e)) <==> OneLineEntry(e)
  {
    SpacedIsOneLineIff(e.proto, e.status);
    LegIsOneLineIff(UpstreamResponse, e.proto + " " + e.status, "", e.header, e.body, maxBody);
  }

  lemma RespondingIsOneLineIff(maxBody: int, id: nat, e: Entry)
    requires e.Responding? && PlainNames(e.header)
    ensures AllOneLine(EntryItems(maxBody, id, e)) <==> OneLineEntry(e)
  {
    ResponseTextIsOneLine(id, e.code, e.ms);
    PairIsOneLineIff(ResponseText(id, e.code, e.ms), ClientResponse, StatusLine(e.proto, e.code, e.statusText), "",
                     e.header, e.body, maxBody);
  }

  /** The items of an entry fit on lines exactly if its texts do. */
  lemma EntryIsOneLineIff(maxBody: int, id: nat, e: Entry)
    requires PlainNames(EntryHeader(e))
    ensures AllOneLine(EntryItems(maxBody, id, e)) <==> OneLineEntry(e)
  {
    match e
    case Forwarding(_, _, _, _, _) => ForwardingIsOneLineIff(maxBody, id, e);
    case ForwardReply(_, _, _, _) => ReplyIsOneLineIff(maxBody, id, e);
    case Responding(_, _, _, _, _, _) => RespondingIsOneLineIff(maxBody, id, e);
    case ForwardFailure(error) =>
      OneLineConcat("Forward error: ", error);
      InfoIsOneLineIff("Forward error: " + error);
    case Upgrade => InfoIsOneLineIff("WebSocket upgrade");
  }

  /** The fields of a leg have no colon in their names. */
  lemma FieldNamesArePlain(host: string, h: Header)
    requires PlainNames(h)
    ensures forall f: Field :: f in LegFields(host, h) ==> ':' !in f.0
  {
    var names := SortedNames(h.Keys);
    forall n | n in names ensures n in h { assert n in Elems(names); }
    forall f: Field | f in LegFields(host, h) ensures ':' !in f.0 {
      if f in FieldsOf(names, h) {
        assert f == (f.0, f.1);
        FieldsComeFrom(names, h, f.0, f.1);
      }
    }
  }
}
