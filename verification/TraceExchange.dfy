/** An exchange of the verbose trace: its writers append to a text buffer. */
module TraceExchange {
  import opened Common
  import opened Text
  import opened Headers
  import opened TraceFormat
  import opened TraceLegs

  datatype RequestInfo = RequestInfo(
    remoteAddr: string, scheme: string, proto: string, tlsVersion: string, sni: string,
    method_: string, requestUri: string, host: string, header: Header, body: string)

  function Digit(d: nat): char
    requires d < 10
  {
    "0123456789"[d]
  }

  /** Decimal notation. */
  function Decimal(n: nat): string {
    if n < 10 then [Digit(n)] else Decimal(n / 10) + [Digit(n % 10)]
  }

  function ConnectionText(info: RequestInfo): string {
    info.scheme + " (" + info.proto
    + (if info.tlsVersion == "" then "" else ", " + info.tlsVersion)
    + (if info.sni == "" then "" else ", SNI " + info.sni)
    + ")"
  }

  const REQUEST := "Request #"

  function RequestText(id: nat, info: RequestInfo): string {
    REQUEST + (Decimal(id) + (": " + (info.remoteAddr + " \U{2192} " + ConnectionText(info))))
  }

  function ResponseText(id: nat, code: nat, ms: nat): string {
    "Response #" + (Decimal(id) + (": " + (Decimal(code) + " (" + Decimal(ms) + "ms)")))
  }

  /** One leg as `section` prints it. */
  ghost function Section(k: Kind, first: string, host: string, h: Header, body: string, maxBody: int): Item {
    Leg(k, first, LegFields(host, h), BodyLines(Shown(body, maxBody)), Truncates(body, maxBody))
  }

  /** What an exchange writes after its request. */
  datatype Entry =
    | Forwarding(target: string, verb: string, host: string, header: Header, body: string)
    | ForwardReply(proto: string, status: string, header: Header, body: string)
    | ForwardFailure(error: string)
    | Responding(proto: string, code: nat, statusText: string, ms: nat, header: Header, body: string)
    | Upgrade

  function RequestLine(info: RequestInfo): string {
    info.method_ + " " + info.requestUri + " " + info.proto
  }

  /** The status, without the gap that a code without status text leaves. */
  function StatusLine(proto: string, code: nat, statusText: string): string {
    proto + " " + TrimSpace(Decimal(code) + " " + statusText)
  }

  /** The items of the incoming request. */
  ghost function RequestItems(maxBody: int, id: nat, info: RequestInfo): seq<Item> {
    [Info(RequestText(id, info)), Section(ClientRequest, RequestLine(info), info.host, info.header, info.body, maxBody)]
  }

  ghost function EntryItems(maxBody: int, id: nat, e: Entry): seq<Item> {
    match e
    case Forwarding(target, verb, host, h, body) =>
      [Info("Forwarding to " + target), Section(UpstreamRequest, verb + " " + target, host, h, body, maxBody)]
    case ForwardReply(proto, status, h, body) =>
      [Section(UpstreamResponse, proto + " " + status, "", h, body, maxBody)]
    case ForwardFailure(error) => [Info("Forward error: " + error)]
    case Responding(proto, code, statusText, ms, h, body) =>
      [Info(ResponseText(id, code, ms)),
       Section(ClientResponse, StatusLine(proto, code, statusText), "", h, body, maxBody)]
    case Upgrade => [Info("WebSocket upgrade")]
  }

  class Exchange {
    const id: nat
    const maxBody: int
    var buf: string
    ghost var items: seq<Item>

    /** The buffer is the text of the items written so far. */
    ghost predicate Valid()
      reads this
    {
      buf == Render(items)
    }

    constructor (id: nat, maxBody: int)
      ensures Valid() && items == [] && this.id == id && this.maxBody == maxBody
    {
      this.id := id;
      this.maxBody := maxBody;
      buf := "";
      items := [];
    }

    method WriteLine(line: string)
      modifies this`buf
      ensures buf == old(buf) + line + "\n"
    {
      buf := buf + line + "\n";
    }

    method WriteInfo(text: string)
      requires Valid()
      modifies this
      ensures Valid() && items == old(items) + [Info(text)]
    {
      InfoText(text);
      RenderConcat(items, [Info(text)]);
      WriteLine("* " + text);
      items := items + [Info(text)];
      Regroup(old(buf), "* " + text, "\n");
    }

    method WritePrefixed(k: Kind, texts: seq<string>)
      modifies this`buf
      ensures buf == old(buf) + Block(k, texts)
    {
      for i := 0 to |texts|
        invariant buf == old(buf) + Block(k, texts[..i])
      {
        WriteLine(Prefix(k) + " " + texts[i]);
        BlockStep(k, texts, i);
        Regroup(old(buf), Block(k, texts[..i]), Prefix(k) + " " + texts[i] + "\n");
      }
      assert texts[..|texts|] == texts;
    }

    method WriteHeader(k: Kind, h: Header)
      modifies this`buf
      ensures buf == old(buf) + Block(k, FieldTexts(FieldsOf(SortedNames(h.Keys), h)))
    {
      var names := SortNames(h.Keys);
      for i := 0 to |names|
        invariant buf == old(buf) + Block(k, FieldTexts(FieldsOf(names[..i], h)))
      {
        assert names[i] in Elems(names);
        WritePrefixed(k, FieldTexts(FieldsNamed(names[i], h[names[i]])));
        HeaderStep(k, names, i, h);
        Regroup(old(buf), Block(k, FieldTexts(FieldsOf(names[..i], h))),
                    Block(k, FieldTexts(FieldsNamed(names[i], h[names[i]]))));
      }
      assert names[..|names|] == names;
    }

    /** section: first line, host, sorted headers, bare-prefix separator, body, truncation marker. */
    method WriteSection(k: Kind, first: string, host: string, h: Header, body: string)
      requires Valid()
      modifies this
      ensures Valid() && items == old(items) + [Section(k, first, host, h, body, maxBody)]
    {
      WriteHead(k, first, host, h);
      var shown := body;
      var truncated := false;
      if maxBody > 0 && |body| > maxBody {
        shown := body[..maxBody];
        truncated := true;
      }
      WriteTail(k, shown, truncated);
      ghost var item := Section(k, first, host, h, body, maxBody);
      SectionText(k, first, LegFields(host, h), BodyLines(shown), truncated);
      RenderConcat(items, [item]);
      Regroup(old(buf), Block(k, [first] + FieldTexts(LegFields(host, h))),
                  TailText(k, BodyLines(shown), truncated));
      items := items + [item];
    }

    method WriteHead(k: Kind, first: string, host: string, h: Header)
      modifies this`buf
      ensures buf == old(buf) + Block(k, [first] + FieldTexts(LegFields(host, h)))
    {
      ghost var front := if host == "" then [] else [HOST + ": " + host];
      WritePrefixed(k, [first]);
      if host != "" {
        WritePrefixed(k, [HOST + ": " + host]);
      }
      EmptyBlock(k);
      assert buf == old(buf) + Block(k, [first]) + Block(k, front);
      WriteHeader(k, h);
      HeadText(k, first, host, h, front);
      RegroupFour(old(buf), Block(k, [first]), Block(k, front),
                   Block(k, FieldTexts(FieldsOf(SortedNames(h.Keys), h))));
    }

    method WriteTail(k: Kind, shown: string, truncated: bool)
      modifies this`buf
      ensures buf == old(buf) + TailText(k, BodyLines(shown), truncated)
    {
      WriteLine(Prefix(k));
      WriteBody(k, shown);
      if truncated {
        WriteLine("* " + MARKER);
      }
      TailAppends(old(buf), Prefix(k), Block(k, BodyLines(shown)), "* " + MARKER);
    }

    method WriteBody(k: Kind, shown: string)
      modifies this`buf
      ensures buf == old(buf) + Block(k, BodyLines(shown))
    {
      if |shown| > 0 {
        WritePrefixed(k, TrimmedLines(Split(shown, '\n')));
      } else {
        EmptyBlock(k);
      }
    }

    method Request(info: RequestInfo)
      requires Valid()
      modifies this
      ensures Valid() && items == old(items) + RequestItems(maxBody, id, info)
    {
      WriteInfo(RequestText(id, info));
      WriteSection(ClientRequest, RequestLine(info), info.host, info.header, info.body);
    }

    method Forward(target: string, verb: string, host: string, h: Header, body: string)
      requires Valid()
      modifies this
      ensures Valid() && items == old(items) + EntryItems(maxBody, id, Forwarding(target, verb, host, h, body))
    {
      WriteInfo("Forwarding to " + target);
      WriteSection(UpstreamRequest, verb + " " + target, host, h, body);
    }

    method ForwardResponse(proto: string, status: string, h: Header, body: string)
      requires Valid()
      modifies this
      ensures Valid() && items == old(items) + EntryItems(maxBody, id, ForwardReply(proto, status, h, body))
    {
      WriteSection(UpstreamResponse, proto + " " + status, "", h, body);
    }

    method ForwardError(error: string)
      requires Valid()
      modifies this
      ensures Valid() && items == old(items) + EntryItems(maxBody, id, ForwardFailure(error))
    {
      WriteInfo("Forward error: " + error);
    }

    method WebSocketUpgrade()
      requires Valid()
      modifies this
      ensures Valid() && items == old(items) + EntryItems(maxBody, id, Upgrade)
    {
      WriteInfo("WebSocket upgrade");
    }

    /** `statusText` is http.StatusText(code), `ms` the elapsed time. */
    method Response(proto: string, code: nat, statusText: string, ms: nat, h: Header, body: string)
      requires Valid()
      modifies this
      ensures Valid() && items == old(items) + EntryItems(maxBody, id, Responding(proto, code, statusText, ms, h, body))
    {
      WriteInfo(ResponseText(id, code, ms));
      WriteSection(ClientResponse, StatusLine(proto, code, statusText), "", h, body);
    }
  }

  lemma FieldsOfStep(names: seq<string>, i: nat, h: Header)
    requires i < |names|
    ensures FieldsOf(names[..i + 1], h) == FieldsOf(names[..i], h) + FieldsNamed(names[i], Values(h, names[i]))
  {
    if i == 0 {
      assert names[..1] == [names[0]];
      assert FieldsOf([names[0]][1..], h) == [];
    } else {
      assert names[..i + 1][1..] == names[1..][..i] && names[..i][1..] == names[1..][..i - 1];
      FieldsOfStep(names[1..], i - 1, h);
    }
  }

  /** The terminated lines of texts under a prefix. */
  function Block(k: Kind, texts: seq<string>): string {
    Terminated(Prefixed(k, texts))
  }

  /** The separator, the body lines and the marker. */
  function TailText(k: Kind, body: seq<string>, truncated: bool): string {
    Prefix(k) + "\n" + Block(k, body) + if truncated then "* " + MARKER + "\n" else ""
  }

  lemma TailAppends(start: string, prefix: string, block: string, marker: string)
    ensures start + prefix + "\n" + block == start + (prefix + "\n" + block + "")
    ensures start + prefix + "\n" + block + marker + "\n" == start + (prefix + "\n" + block + (marker + "\n"))
  {
  }

  lemma EmptyBlock(k: Kind)
    ensures Block(k, []) == "" && Block(k, BodyLines("")) == ""
    ensures forall s: string :: s + "" == s
  {
    assert Prefixed(k, []) == [];
  }

  lemma BlockConcat(k: Kind, a: seq<string>, b: seq<string>)
    ensures Block(k, a + b) == Block(k, a) + Block(k, b)
  {
    assert Prefixed(k, a + b) == Prefixed(k, a) + Prefixed(k, b);
    TerminatedConcat(Prefixed(k, a), Prefixed(k, b));
  }

  lemma OneLineText(line: string)
    ensures Terminated([line]) == line + "\n"
  {
    assert Terminated([line]) == line + "\n" + Terminated([]);
  }

  lemma InfoText(text: string)
    ensures Render([Info(text)]) == "* " + text + "\n"
  {
    assert Lines([Info(text)]) == ["* " + text] + Lines([]);
    OneLineText("* " + text);
  }

  lemma BlockStep(k: Kind, texts: seq<string>, i: nat)
    requires i < |texts|
    ensures Block(k, texts[..i + 1]) == Block(k, texts[..i]) + (Prefix(k) + " " + texts[i] + "\n")
  {
    assert texts[..i + 1] == texts[..i] + [texts[i]];
    BlockConcat(k, texts[..i], [texts[i]]);
    assert Prefixed(k, [texts[i]]) == [Prefix(k) + " " + texts[i]];
    OneLineText(Prefix(k) + " " + texts[i]);
  }

  lemma FieldTextsConcat(a: seq<Field>, b: seq<Field>)
    ensures FieldTexts(a + b) == FieldTexts(a) + FieldTexts(b)
  {
  }

  lemma HeaderStep(k: Kind, names: seq<string>, i: nat, h: Header)
    requires i < |names| && names[i] in h
    ensures Block(k, FieldTexts(FieldsOf(names[..i + 1], h)))
         == Block(k, FieldTexts(FieldsOf(names[..i], h))) + Block(k, FieldTexts(FieldsNamed(names[i], h[names[i]])))
  {
    var done, more := FieldsOf(names[..i], h), FieldsNamed(names[i], h[names[i]]);
    FieldsOfStep(names, i, h);
    FieldTextsConcat(done, more);
    BlockConcat(k, FieldTexts(done), FieldTexts(more));
  }

  lemma HeadText(k: Kind, first: string, host: string, h: Header, front: seq<string>)
    requires front == if host == "" then [] else [HOST + ": " + host]
    ensures var fields := FieldsOf(SortedNames(h.Keys), h);
            Block(k, [first] + FieldTexts(LegFields(host, h)))
            == Block(k, [first]) + Block(k, front) + Block(k, FieldTexts(fields))
  {
    var fields := FieldsOf(SortedNames(h.Keys), h);
    var hosts: seq<Field> := if host == "" then [] else [(HOST, host)];
    assert FieldTexts(hosts) == front;
    FieldTextsConcat(hosts, fields);
    assert [first] + (front + FieldTexts(fields)) == [first] + front + FieldTexts(fields);
    BlockConcat(k, [first] + front, FieldTexts(fields));
    BlockConcat(k, [first], front);
  }

  lemma SectionText(k: Kind, first: string, fields: seq<Field>, body: seq<string>, truncated: bool)
    ensures Render([Leg(k, first, fields, body, truncated)])
         == Block(k, [first] + FieldTexts(fields)) + TailText(k, body, truncated)
  {
    var item := Leg(k, first, fields, body, truncated);
    var marker := if truncated then ["* " + MARKER] else [];
    SectionLines(item, marker);
    TerminateFour(Prefixed(k, [first] + FieldTexts(fields)), [Prefix(k)], Prefixed(k, body), marker);
    OneLineText(Prefix(k));
    OneLineText("* " + MARKER);
  }

  lemma SectionLines(item: Item, marker: seq<string>)
    requires item.Leg? && marker == if item.truncated then ["* " + MARKER] else []
    ensures Lines([item]) == Prefixed(item.kind, [item.first] + FieldTexts(item.fields))
                             + ([Prefix(item.kind)] + Prefixed(item.kind, item.body) + marker)
  {
    SingleItemLines(item);
    RegroupFour(Prefixed(item.kind, [item.first] + FieldTexts(item.fields)), [Prefix(item.kind)],
                 Prefixed(item.kind, item.body), marker);
  }

  lemma SingleItemLines(item: Item)
    ensures Lines([item]) == ItemLines(item)
  {
    assert Lines([item][1..]) == [];
    assert ItemLines(item) + [] == ItemLines(item);
  }

  lemma TerminateFour(a: seq<string>, b: seq<string>, c: seq<string>, d: seq<string>)
    ensures Terminated(a + (b + c + d)) == Terminated(a) + (Terminated(b) + Terminated(c) + Terminated(d))
  {
    TerminatedConcat(a, b + c + d);
    TerminatedConcat(b + c, d);
    TerminatedConcat(b, c);
  }

  // ------------------------------------------------------------ one-line inputs

  /** The texts of a leg that come from outside and are printed as they are. */
  ghost predicate OneLineInputs(first: string, host: string, h: Header) {
    OneLine(first) && OneLine(host) && forall name, v :: name in h && v in h[name] ==> OneLine(v)
  }

  lemma {:induction false} FieldsComeFrom(names: seq<string>, h: Header, name: string, v: string)
    requires forall n :: n in names ==> n in h
    ensures (name, v) in FieldsOf(names, h) <==> name in names && v in h[name]
  {
    if names != [] {
      var front := FieldsNamed(names[0], Values(h, names[0]));
      FieldsComeFrom(names[1..], h, name, v);
      assert names == [names[0]] + names[1..];
      if name == names[0] && v in h[name] {
        var i :| 0 <= i < |h[name]| && h[name][i] == v;
        assert front[i] == (name, v);
      }
    }
  }

  lemma BodyLinesAreOneLine(body: string, l: string)
    requires l in BodyLines(body)
    ensures OneLine(l)
  {
    PartsLackSeparator(body, '\n');
    var i :| 0 <= i < |BodyLines(body)| && BodyLines(body)[i] == l;
    assert Split(body, '\n')[i] in Split(body, '\n');
  }

  /** A leg whose head texts and body lines hold no newline prints on lines. */
  lemma LegIsOneLine(leg: Item, l: string)
    requires leg.Leg? && l in ItemLines(leg)
    requires forall t :: t in [leg.first] + FieldTexts(leg.fields) ==> OneLine(t)
    requires forall t :: t in leg.body ==> OneLine(t)
    ensures OneLine(l)
  {
    var head, body := Prefixed(leg.kind, [leg.first] + FieldTexts(leg.fields)), Prefixed(leg.kind, leg.body);
    SectionLinesOf(leg);
    if l in head {
      PrefixedIsOneLine(leg.kind, [leg.first] + FieldTexts(leg.fields));
    } else if l in body {
      PrefixedIsOneLine(leg.kind, leg.body);
    } else {
      MarksAreOneLine(leg.kind);
    }
  }

  lemma MarksAreOneLine(k: Kind)
    ensures OneLine(Prefix(k)) && OneLine("* " + MARKER)
  {
  }

  lemma OneLineInputsPrintOneLine(k: Kind, first: string, host: string, h: Header, body: string, maxBody: int,
                                  l: string)
    requires forall name :: name in h ==> OneLine(name)
    requires OneLineInputs(first, host, h) && l in ItemLines(Section(k, first, host, h, body, maxBody))
    ensures OneLine(l)
  {
    HeadIsOneLine(first, host, h);
    forall t | t in BodyLines(Shown(body, maxBody)) ensures OneLine(t) {
      BodyLinesAreOneLine(Shown(body, maxBody), t);
    }
    LegIsOneLine(Section(k, first, host, h, body, maxBody), l);
  }

  lemma HeadIsOneLine(first: string, host: string, h: Header)
    requires forall name :: name in h ==> OneLine(name)
    requires OneLineInputs(first, host, h)
    ensures forall t :: t in [first] + FieldTexts(LegFields(host, h)) ==> OneLine(t)
  {
    var fields := LegFields(host, h);
    forall t | t in FieldTexts(fields) ensures OneLine(t) {
      var i :| 0 <= i < |fields| && FieldTexts(fields)[i] == t;
      FieldIsOneLine(host, h, fields[i]);
    }
  }

  lemma PrefixedIsOneLine(k: Kind, texts: seq<string>)
    requires forall t :: t in texts ==> OneLine(t)
    ensures forall l :: l in Prefixed(k, texts) ==> OneLine(l)
  {
    forall l | l in Prefixed(k, texts) ensures OneLine(l) {
      var i :| 0 <= i < |texts| && Prefixed(k, texts)[i] == l;
      assert texts[i] in texts;
    }
  }

  lemma NewlineInputIsPrinted(k: Kind, first: string, host: string, h: Header, body: string, maxBody: int)
    returns (l: string)
    requires !OneLineInputs(first, host, h)
    ensures l in ItemLines(Section(k, first, host, h, body, maxBody)) && !OneLine(l)
  {
    var item := Section(k, first, host, h, body, maxBody);
    var texts := [first] + FieldTexts(item.fields);
    var bad := UnprintableText(first, host, h);
    var i :| 0 <= i < |texts| && texts[i] == bad;
    l := Prefixed(k, texts)[i];
    SectionLinesOf(item);
    NewlineStays(Prefix(k) + " ", bad);
  }

  /** A body never breaks the format; first line, host and header values must hold no newline. */
  lemma SectionIsOneLineIff(k: Kind, first: string, host: string, h: Header, body: string, maxBody: int)
    requires forall name :: name in h ==> OneLine(name)
    ensures (forall l :: l in ItemLines(Section(k, first, host, h, body, maxBody)) ==> OneLine(l))
            <==> OneLineInputs(first, host, h)
  {
    if OneLineInputs(first, host, h) {
      forall l | l in ItemLines(Section(k, first, host, h, body, maxBody)) ensures OneLine(l) {
        OneLineInputsPrintOneLine(k, first, host, h, body, maxBody, l);
      }
    } else {
      var l := NewlineInputIsPrinted(k, first, host, h, body, maxBody);
    }
  }

  lemma NewlineStays(prefix: string, bad: string)
    requires !OneLine(bad)
    ensures !OneLine(prefix + bad)
  {
  }

  lemma SectionLinesOf(item: Item)
    requires item.Leg?
    ensures forall l :: l in ItemLines(item) <==>
              || l in Prefixed(item.kind, [item.first] + FieldTexts(item.fields)) || l == Prefix(item.kind)
              || l in Prefixed(item.kind, item.body) || (item.truncated && l == "* " + MARKER)
  {
  }

  lemma FieldIsOneLine(host: string, h: Header, f: Field)
    requires f in LegFields(host, h) && OneLine(host)
    requires forall name :: name in h ==> OneLine(name)
    requires forall name, v :: name in h && v in h[name] ==> OneLine(v)
    ensures OneLine(f.0 + ": " + f.1)
  {
    var names := SortedNames(h.Keys);
    if f in FieldsOf(names, h) {
      forall n | n in names ensures n in h { assert n in Elems(names); }
      assert f == (f.0, f.1);
      FieldsComeFrom(names, h, f.0, f.1);
      assert OneLine(f.0) && OneLine(f.1);
    } else {
      assert f == (HOST, host);
    }
    JoinedIsOneLine(f.0, f.1);
  }

  lemma JoinedIsOneLine(a: string, b: string)
    requires OneLine(a) && OneLine(b)
    ensures OneLine(a + ": " + b)
  {
  }

  /** A printed text that holds a newline, when some input does. */
  lemma UnprintableText(first: string, host: string, h: Header) returns (bad: string)
    requires !OneLineInputs(first, host, h)
    ensures !OneLine(bad) && bad in [first] + FieldTexts(LegFields(host, h))
  {
    var fields := LegFields(host, h);
    if !OneLine(first) {
      bad := first;
    } else if !OneLine(host) {
      bad := HOST + ": " + host;
      assert fields[0] == (HOST, host) && FieldTexts(fields)[0] == bad;
    } else {
      var name, v :| name in h && v in h[name] && !OneLine(v);
      var names := SortedNames(h.Keys);
      forall n | n in names ensures n in h { assert n in Elems(names); }
      assert name in Elems(names);
      FieldsComeFrom(names, h, name, v);
      assert (name, v) in fields;
      var i :| 0 <= i < |fields| && fields[i] == (name, v);
      bad := name + ": " + v;
      assert FieldTexts(fields)[i] == bad;
    }
  }

  // ------------------------------------------------------------------ read back

  /**
   * Wherever a section stands in a trace, the text gives back its first line,
   * its host and header values in order, its body up to maxBody and one
   * carriage return per line end, and whether the body was cut.
   */
  lemma SectionIsRecovered(before: seq<Item>, after: seq<Item>,
                           k: Kind, first: string, host: string, h: Header, body: string, maxBody: int, name: string)
    requires var items := before + [Section(k, first, host, h, body, maxBody)] + after;
             Readable(items) && AllOneLine(items)
    ensures var parsed := Parse(Render(before + [Section(k, first, host, h, body, maxBody)] + after));
            && parsed.Some? && |before| < |parsed.value|
            && var leg := parsed.value[|before|];
               && leg.Leg? && leg.kind == k && leg.first == first
               && ValuesNamed(leg.fields, name) == HostValues(host, name) + Values(h, name)
               && Join(leg.body, "\n") == DropLineCRs(Shown(body, maxBody))
               && (leg.truncated <==> 0 < maxBody < |body|)
  {
    var items := before + [Section(k, first, host, h, body, maxBody)] + after;
    RenderRoundTripIff(items);
    LegFieldsRecoverHeader(host, h, name);
    BodyIsRecovered(Shown(body, maxBody));
  }

  /**
   * Two different header sets with the same text: a value with a newline, such
   * as a Content-Type of "a\n< X: b" in a response, prints as two headers.
   */
  lemma NewlineForgesHeader(k: Kind, first: string, m: string, a: string, n: string, b: string,
                            body: string, maxBody: int)
    requires Less(m, n)
    ensures var smuggled: Header := map[m := [a + "\n" + Prefix(k) + " " + n + ": " + b]];
            var honest: Header := map[m := [a], n := [b]];
            && smuggled != honest
            && Render([Section(k, first, "", smuggled, body, maxBody)])
               == Render([Section(k, first, "", honest, body, maxBody)])
  {
    var value := a + "\n" + Prefix(k) + " " + n + ": " + b;
    var smuggled: Header := map[m := [value]];
    var honest: Header := map[m := [a], n := [b]];
    LessIsTotal(m, n);
    assert n in honest && n !in smuggled;
    FieldsOfOne(m, smuggled, value);
    FieldsOfTwo(m, n, honest, a, b);
    var lines, cut := BodyLines(Shown(body, maxBody)), Truncates(body, maxBody);
    NewlineForgesField(k, first, [], (m, a), (n, b), [], lines, cut);
    PlainFieldLeg(k, first, [(m, value)], lines, cut);
    PlainFieldLeg(k, first, [(m, a), (n, b)], lines, cut);
  }

  lemma PlainFieldLeg(k: Kind, first: string, fields: seq<Field>, body: seq<string>, truncated: bool)
    ensures FieldLeg(k, first, [], fields, [], body, truncated) == Leg(k, first, fields, body, truncated)
  {
    assert [] + fields + [] == fields;
  }

  lemma FieldsOfOne(name: string, h: Header, value: string)
    requires h == map[name := [value]]
    ensures LegFields("", h) == [(name, value)]
  {
    var names := [name];
    assert Elems(names) == h.Keys;
    SortedListingIsUnique(SortedNames(h.Keys), names, h.Keys);
    assert names[1..] == [] && FieldsOf([], h) == [];
  }

  lemma FieldsOfTwo(m: string, n: string, h: Header, a: string, b: string)
    requires Less(m, n) && h == map[m := [a], n := [b]]
    ensures LegFields("", h) == [(m, a), (n, b)]
  {
    var names := [m, n];
    LessIsTotal(m, n);
    assert Elems(names) == h.Keys;
    SortedListingIsUnique(SortedNames(h.Keys), names, h.Keys);
    assert names[1..] == [n] && [n][1..] == [];
    assert FieldsOf([n], h) == FieldsNamed(n, [b]) + FieldsOf([], h);
    assert FieldsOf(names, h) == FieldsNamed(m, [a]) + FieldsOf([n], h);
  }

  // ------------------------------------------------------------------------ ids

  lemma {:induction false} DecimalHasNoColon(n: nat)
    ensures ':' !in Decimal(n) && Decimal(n) != "" && OneLine(Decimal(n))
  {
    if n >= 10 {
      DecimalHasNoColon(n / 10);
    }
  }

  lemma DigitIsInjective(a: nat, b: nat)
    requires a < 10 && b < 10 && Digit(a) == Digit(b)
    ensures a == b
  {
  }

  lemma {:induction false} DecimalIsInjective(a: nat, b: nat)
    requires Decimal(a) == Decimal(b)
    ensures a == b
  {
    var s := Decimal(a);
    if a >= 10 { DecimalHasNoColon(a / 10); }
    if b >= 10 { DecimalHasNoColon(b / 10); }
    assert |s| == 1 <==> a < 10;
    assert |s| == 1 <==> b < 10;
    if a >= 10 && b >= 10 {
      assert s[..|s| - 1] == Decimal(a / 10) == Decimal(b / 10);
      assert s[|s| - 1] == Digit(a % 10) == Digit(b % 10);
      DecimalIsInjective(a / 10, b / 10);
      DigitIsInjective(a % 10, b % 10);
    } else if a < 10 && b < 10 {
      assert s[0] == Digit(a) == Digit(b);
      DigitIsInjective(a, b);
    }
  }

  /** The text up to the first colon. */
  function UpToColon(s: string): string {
    if s == "" || s[0] == ':' then "" else [s[0]] + UpToColon(s[1..])
  }

  lemma {:induction false} UpToColonOf(a: string, b: string)
    requires ':' !in a
    ensures UpToColon(a + ":" + b) == a
  {
    if a != "" {
      assert (a + ":" + b)[1..] == a[1..] + ":" + b;
      UpToColonOf(a[1..], b);
    }
  }

  /** Request lines of different ids differ, whatever else they report. */
  lemma RequestTextShowsId(id: nat, info: RequestInfo, id': nat, info': RequestInfo)
    requires RequestText(id, info) == RequestText(id', info')
    ensures id == id'
  {
    var rest, rest' := RequestText(id, info)[|REQUEST|..], RequestText(id', info')[|REQUEST|..];
    ShowsId(id, info);
    ShowsId(id', info');
    DecimalIsInjective(id, id');
  }

  lemma ShowsId(id: nat, info: RequestInfo)
    ensures UpToColon(RequestText(id, info)[|REQUEST|..]) == Decimal(id)
  {
    var tail := info.remoteAddr + " \U{2192} " + ConnectionText(info);
    assert RequestText(id, info)[|REQUEST|..] == Decimal(id) + (": " + tail);
    assert Decimal(id) + (": " + tail) == Decimal(id) + ":" + (" " + tail);
    DecimalHasNoColon(id);
    UpToColonOf(Decimal(id), " " + tail);
  }
}
