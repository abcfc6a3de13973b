/**
 * The text format of the verbose trace, and a parser that shows it can be
 * read back: informational lines start with `*`, the lines of a leg start
 * with its prefix, and only the separator is the bare prefix.
 */
module TraceFormat {
  import opened Common
  import opened Text

  /** The four legs of an exchange. */
  datatype Kind = ClientRequest | UpstreamRequest | UpstreamResponse | ClientResponse

  function Prefix(k: Kind): string {
    match k
    case ClientRequest => ">"
    case UpstreamRequest => ">>"
    case UpstreamResponse => "<<"
    case ClientResponse => "<"
  }

  type Field = (string, string)

  /** One informational line, or one leg: first line, header fields, body lines, truncation marker. */
  datatype Item =
    | Info(text: string)
    | Leg(kind: Kind, first: string, fields: seq<Field>, body: seq<string>, truncated: bool)

  const MARKER := "[body truncated]"

  // ------------------------------------------------------------------ printing

  function Prefixed(k: Kind, texts: seq<string>): (lines: seq<string>)
    ensures |lines| == |texts|
    ensures forall i :: 0 <= i < |texts| ==> lines[i] == Prefix(k) + " " + texts[i]
  {
    seq(|texts|, i requires 0 <= i < |texts| => Prefix(k) + " " + texts[i])
  }

  function FieldTexts(fields: seq<Field>): (texts: seq<string>)
    ensures |texts| == |fields|
    ensures forall i :: 0 <= i < |fields| ==> texts[i] == fields[i].0 + ": " + fields[i].1
  {
    seq(|fields|, i requires 0 <= i < |fields| => fields[i].0 + ": " + fields[i].1)
  }

  function LegLines(k: Kind, first: string, fields: seq<Field>, body: seq<string>, truncated: bool): seq<string> {
    Prefixed(k, [first] + FieldTexts(fields)) + [Prefix(k)] + Prefixed(k, body)
    + if truncated then ["* " + MARKER] else []
  }

  /** The mark at the start of the lines of each leg. */
  predicate IsMark(k: Kind, mark: string) {
    match k
    case ClientRequest => mark == ">"
    case UpstreamRequest => mark == ">>"
    case UpstreamResponse => mark == "<<"
    case ClientResponse => mark == "<"
  }

  /** Line i of a leg, spelled out. */
  function LegLine(mark: string, first: string, fields: seq<Field>, body: seq<string>, i: nat): string {
    var n := |fields|;
    if i == 0 then mark + " " + first
    else if i <= n then mark + " " + (fields[i - 1].0 + ": " + fields[i - 1].1)
    else if i == n + 1 then mark
    else if i < n + 2 + |body| then mark + " " + body[i - n - 2]
    else "* [body truncated]"
  }

  function LegCount(fields: seq<Field>, body: seq<string>, truncated: bool): nat {
    |fields| + 2 + |body| + if truncated then 1 else 0
  }

  /** The lines of a leg are those, one by one. */
  lemma LegLineIs(k: Kind, mark: string, first: string, fields: seq<Field>, body: seq<string>, truncated: bool, i: nat)
    requires IsMark(k, mark)
    ensures |LegLines(k, first, fields, body, truncated)| == LegCount(fields, body, truncated)
    ensures i < LegCount(fields, body, truncated) ==>
              LegLines(k, first, fields, body, truncated)[i] == LegLine(mark, first, fields, body, i)
  {
    var texts := [first] + FieldTexts(fields);
    FourParts(Prefixed(k, texts), [Prefix(k)], Prefixed(k, body), if truncated then ["* " + MARKER] else [], i);
    assert 0 < i <= |fields| ==> texts[i] == FieldTexts(fields)[i - 1];
  }

  lemma FourParts(a: seq<string>, b: seq<string>, c: seq<string>, d: seq<string>, i: nat)
    ensures |a + b + c + d| == |a| + |b| + |c| + |d|
    ensures i < |a + b + c + d| ==>
              (a + b + c + d)[i]
              == if i < |a| then a[i] else if i < |a| + |b| then b[i - |a|]
                 else if i < |a| + |b| + |c| then c[i - |a| - |b|] else d[i - |a| - |b| - |c|]
  {
  }

  function ItemLines(item: Item): seq<string> {
    match item
    case Info(text) => ["* " + text]
    case Leg(k, first, fields, body, truncated) => LegLines(k, first, fields, body, truncated)
  }

  function Lines(items: seq<Item>): seq<string> {
    if items == [] then [] else ItemLines(items[0]) + Lines(items[1..])
  }

  /** Every line followed by a newline. */
  function Terminated(lines: seq<string>): string {
    if lines == [] then "" else lines[0] + "\n" + Terminated(lines[1..])
  }

  function Render(items: seq<Item>): string {
    Terminated(Lines(items))
  }

  lemma {:induction false} LinesConcat(a: seq<Item>, b: seq<Item>)
    ensures Lines(a + b) == Lines(a) + Lines(b)
  {
    if a == [] {
      assert a + b == b;
    } else {
      assert (a + b)[1..] == a[1..] + b;
      LinesConcat(a[1..], b);
    }
  }

  lemma {:induction false} TerminatedConcat(a: seq<string>, b: seq<string>)
    ensures Terminated(a + b) == Terminated(a) + Terminated(b)
  {
    if a == [] {
      assert a + b == b;
    } else {
      assert (a + b)[1..] == a[1..] + b;
      TerminatedConcat(a[1..], b);
    }
  }

  lemma RenderConcat(a: seq<Item>, b: seq<Item>)
    ensures Render(a + b) == Render(a) + Render(b)
  {
    LinesConcat(a, b);
    TerminatedConcat(Lines(a), Lines(b));
  }

  // ------------------------------------------------------------------- parsing

  /** The lines of a text in which every line is terminated. */
  function SplitLines(text: string): seq<string> {
    var parts := Split(text, '\n');
    parts[..|parts| - 1]
  }

  datatype Line = Star(text: string) | Bare(kind: Kind) | Text(kind: Kind, text: string) | Unknown

  predicate StartsWith(s: string, p: string) {
    |p| <= |s| && s[..|p|] == p
  }

  function Classify(line: string): Line {
    if StartsWith(line, "* ") then Star(line[2..])
    else if line == ">" then Bare(ClientRequest)
    else if line == ">>" then Bare(UpstreamRequest)
    else if line == "<<" then Bare(UpstreamResponse)
    else if line == "<" then Bare(ClientResponse)
    else if StartsWith(line, "> ") then Text(ClientRequest, line[2..])
    else if StartsWith(line, ">> ") then Text(UpstreamRequest, line[3..])
    else if StartsWith(line, "<< ") then Text(UpstreamResponse, line[3..])
    else if StartsWith(line, "< ") then Text(ClientResponse, line[2..])
    else Unknown
  }

  /** The texts of the leading lines that carry prefix k. */
  function LeadingTexts(lines: seq<string>, k: Kind): (texts: seq<string>)
    ensures |texts| <= |lines|
  {
    if lines == [] then []
    else match Classify(lines[0])
      case Text(k', text) => if k' == k then [text] + LeadingTexts(lines[1..], k) else []
      case _ => []
  }

  /** A field text split at its first colon and space. */
  function ParseField(text: string): Option<Field> {
    if |text| < 2 then None
    else if text[..2] == ": " then Some(("", text[2..]))
    else
      var rest := ParseField(text[1..]);
      if rest.None? then None else Some(([text[0]] + rest.value.0, rest.value.1))
  }

  function ParseFields(texts: seq<string>): Option<seq<Field>> {
    if texts == [] then Some([])
    else
      var head, tail := ParseField(texts[0]), ParseFields(texts[1..]);
      if head.None? || tail.None? then None else Some([head.value] + tail.value)
  }

  /** The leg parser after its segments are found. */
  function AssembleLeg(lines: seq<string>, k: Kind, texts: seq<string>, body: seq<string>): Option<(Item, nat)>
    requires texts != [] && |texts| + 1 + |body| <= |lines|
  {
    var fields := ParseFields(texts[1..]);
    var m := |texts| + 1 + |body|;
    var truncated := m < |lines| && Classify(lines[m]) == Star(MARKER);
    if fields.None? then None
    else Some((Leg(k, texts[0], fields.value, body, truncated), if truncated then m + 1 else m))
  }

  /** The leg that lines begin with, and how many lines it takes. */
  function ParseLeg(lines: seq<string>): (r: Option<(Item, nat)>)
    ensures r.Some? ==> 0 < r.value.1 <= |lines|
  {
    if lines == [] || !Classify(lines[0]).Text? then None
    else
      var k := Classify(lines[0]).kind;
      var texts := LeadingTexts(lines, k);
      var n := |texts|;
      if n == 0 || n >= |lines| || Classify(lines[n]) != Bare(k) then None
      else AssembleLeg(lines, k, texts, LeadingTexts(lines[n + 1..], k))
  }

  /** The item that lines begin with, and how many lines it takes. */
  function ParseHead(lines: seq<string>): (r: Option<(Item, nat)>)
    requires lines != []
    ensures r.Some? ==> 0 < r.value.1 <= |lines|
  {
    if Classify(lines[0]).Star? then Some((Info(Classify(lines[0]).text), 1)) else ParseLeg(lines)
  }

  function ParseItems(lines: seq<string>): Option<seq<Item>>
    decreases |lines|
  {
    if lines == [] then Some([])
    else
      var head := ParseHead(lines);
      if head.None? then None
      else
        var (item, n) := head.value;
        var tail := ParseItems(lines[n..]);
        if tail.None? then None else Some([item] + tail.value)
  }

  function Parse(text: string): Option<seq<Item>> {
    ParseItems(SplitLines(text))
  }

  // --------------------------------------------------------------- round trips

  predicate OneLine(s: string) {
    '\n' !in s
  }

  lemma {:induction false} SplitTerminated(lines: seq<string>)
    requires forall l :: l in lines ==> OneLine(l)
    ensures Split(Terminated(lines), '\n') == lines + [""]
  {
    if lines != [] {
      var rest := Terminated(lines[1..]);
      assert lines[0] in lines;
      SplitTerminated(lines[1..]);
      assert Terminated(lines) == lines[0] + ['\n'] + rest;
      SplitConcat(lines[0], '\n', rest);
      SplitWithout(lines[0], '\n');
      assert lines == [lines[0]] + lines[1..];
    }
  }

  lemma {:induction false} SplitLinesAreOneLine(text: string)
    ensures forall l :: l in SplitLines(text) ==> OneLine(l)
  {
    PartsLackSeparator(text, '\n');
  }

  /** Terminated lines can be told apart exactly when no line holds a newline. */
  lemma LinesRecoverableIff(lines: seq<string>)
    ensures SplitLines(Terminated(lines)) == lines <==> forall l :: l in lines ==> OneLine(l)
  {
    if forall l :: l in lines ==> OneLine(l) {
      SplitTerminated(lines);
    } else {
      SplitLinesAreOneLine(Terminated(lines));
    }
  }

  lemma ClassifyPrefixed(k: Kind, text: string)
    ensures Classify(Prefix(k) + " " + text) == Text(k, text)
    ensures Classify(Prefix(k)) == Bare(k)
  {
    var line := Prefix(k) + " " + text;
    var n := |Prefix(k)| + 1;
    assert line[..n] == Prefix(k) + " " && line[n..] == text;
    match k
    case ClientRequest => assert line[0] == '>' && line[1] == ' ';
    case UpstreamRequest => assert line[0] == '>' && line[1] == '>' && line[2] == ' ';
    case UpstreamResponse => assert line[0] == '<' && line[1] == '<' && line[2] == ' ';
    case ClientResponse => assert line[0] == '<' && line[1] == ' ';
  }

  lemma ClassifyStar(text: string)
    ensures Classify("* " + text) == Star(text)
  {
    assert ("* " + text)[..2] == "* " && ("* " + text)[2..] == text;
  }

  /** What may follow the lines of a k leg without being taken for more of them. */
  predicate Stops(rest: seq<string>, k: Kind) {
    rest == [] || !(Classify(rest[0]).Text? && Classify(rest[0]).kind == k)
  }

  lemma {:induction false} LeadingOfPrefixed(k: Kind, texts: seq<string>, rest: seq<string>)
    requires Stops(rest, k)
    ensures LeadingTexts(Prefixed(k, texts) + rest, k) == texts
  {
    var lines := Prefixed(k, texts) + rest;
    if texts == [] {
      assert lines == rest;
    } else {
      ClassifyPrefixed(k, texts[0]);
      assert lines[1..] == Prefixed(k, texts[1..]) + rest;
      LeadingOfPrefixed(k, texts[1..], rest);
      assert texts == [texts[0]] + texts[1..];
    }
  }

  lemma {:induction false} FieldRoundTrip(f: Field)
    requires ':' !in f.0
    ensures ParseField(f.0 + ": " + f.1) == Some(f)
    decreases |f.0|
  {
    var text := f.0 + ": " + f.1;
    if f.0 == "" {
      assert text[..2] == ": " && text[2..] == f.1;
    } else {
      assert text[0] == f.0[0] != ':';
      assert text[1..] == f.0[1..] + ": " + f.1;
      FieldRoundTrip((f.0[1..], f.1));
      assert f.0 == [f.0[0]] + f.0[1..];
    }
  }

  lemma {:induction false} FieldsRoundTrip(fields: seq<Field>)
    requires forall f: Field :: f in fields ==> ':' !in f.0
    ensures ParseFields(FieldTexts(fields)) == Some(fields)
  {
    if fields != [] {
      assert fields[0] in fields;
      FieldRoundTrip(fields[0]);
      assert FieldTexts(fields)[1..] == FieldTexts(fields[1..]);
      FieldsRoundTrip(fields[1..]);
      assert fields == [fields[0]] + fields[1..];
    }
  }

  /** What follows a leg: nothing, an informational line that is not the marker, or a leg of another kind. */
  predicate Follows(rest: seq<string>, k: Kind) {
    Stops(rest, k) && (rest == [] || Classify(rest[0]) != Star(MARKER))
  }

  /** The lines of a leg up to its tail are told apart by prefix and separator alone. */
  lemma LegSegments(k: Kind, head: seq<string>, body: seq<string>, tail: seq<string>, lines: seq<string>)
    requires head != [] && Stops(tail, k)
    requires lines == Prefixed(k, head) + ([Prefix(k)] + (Prefixed(k, body) + tail))
    ensures Classify(lines[0]) == Text(k, head[0])
    ensures LeadingTexts(lines, k) == head && Classify(lines[|head|]) == Bare(k)
    ensures LeadingTexts(lines[|head| + 1..], k) == body
    ensures lines[|head| + 1 + |body|..] == tail
  {
    var after := Prefixed(k, body) + tail;
    ClassifyPrefixed(k, head[0]);
    LeadingOfPrefixed(k, head, [Prefix(k)] + after);
    assert lines[|head| + 1..] == after;
    LeadingOfPrefixed(k, body, tail);
    assert after[|body|..] == tail;
  }

  /** The lines of a leg and what follows, grouped from the left. */
  function LegThen(leg: Item, rest: seq<string>): seq<string>
    requires leg.Leg?
  {
    Prefixed(leg.kind, [leg.first] + FieldTexts(leg.fields))
    + ([Prefix(leg.kind)] + (Prefixed(leg.kind, leg.body) + MarkedTail(leg.truncated, rest)))
  }

  function MarkedTail(truncated: bool, rest: seq<string>): seq<string> {
    (if truncated then ["* " + MARKER] else []) + rest
  }

  function LegSize(leg: Item): nat
    requires leg.Leg?
  {
    |leg.fields| + 2 + |leg.body| + if leg.truncated then 1 else 0
  }

  lemma LegLinesRegroup(leg: Item, rest: seq<string>)
    requires leg.Leg?
    ensures ItemLines(leg) + rest == LegThen(leg, rest)
    ensures |ItemLines(leg)| == LegSize(leg)
  {
  }

  lemma LegRoundTrip(leg: Item, rest: seq<string>)
    requires leg.Leg? && (forall f: Field :: f in leg.fields ==> ':' !in f.0) && Follows(rest, leg.kind)
    ensures LegThen(leg, rest) != [] && ParseHead(LegThen(leg, rest)) == Some((leg, LegSize(leg)))
  {
    var head := [leg.first] + FieldTexts(leg.fields);
    var lines := LegThen(leg, rest);
    ClassifyStar(MARKER);
    LegSegments(leg.kind, head, leg.body, MarkedTail(leg.truncated, rest), lines);
    AssembleRoundTrip(lines, leg, rest);
  }

  lemma AssembleRoundTrip(lines: seq<string>, leg: Item, rest: seq<string>)
    requires leg.Leg? && (forall f: Field :: f in leg.fields ==> ':' !in f.0) && Follows(rest, leg.kind)
    requires var m := |leg.fields| + 2 + |leg.body|; m <= |lines| && lines[m..] == MarkedTail(leg.truncated, rest)
    ensures AssembleLeg(lines, leg.kind, [leg.first] + FieldTexts(leg.fields), leg.body)
         == Some((leg, LegSize(leg)))
  {
    var m := |leg.fields| + 2 + |leg.body|;
    MarkerDecides(leg.truncated, rest, leg.kind);
    FieldsRoundTrip(leg.fields);
    assert ([leg.first] + FieldTexts(leg.fields))[1..] == FieldTexts(leg.fields);
    assert |lines[m..]| == |lines| - m;
    assert m < |lines| ==> lines[m] == lines[m..][0];
  }

  lemma MarkerDecides(truncated: bool, rest: seq<string>, k: Kind)
    requires Follows(rest, k)
    ensures var tail := MarkedTail(truncated, rest);
            truncated <==> |tail| > 0 && Classify(tail[0]) == Star(MARKER)
  {
    ClassifyStar(MARKER);
    assert !truncated ==> MarkedTail(truncated, rest) == rest;
  }

  /** Legs with colon-free names, no two of one kind in a row, and no informational line that looks like the marker. */
  predicate Readable(items: seq<Item>) {
    && (forall i :: 0 <= i < |items| && items[i].Leg? ==> forall f: Field :: f in items[i].fields ==> ':' !in f.0)
    && (forall i :: 0 <= i < |items| && items[i].Info? ==> items[i].text != MARKER)
    && (forall i :: 0 < i < |items| && items[i - 1].Leg? && items[i].Leg? ==> items[i - 1].kind != items[i].kind)
  }

  lemma RestFollows(items: seq<Item>, k: Kind)
    requires Readable(items) && (items != [] && items[0].Leg? ==> items[0].kind != k)
    ensures Follows(Lines(items), k)
  {
    if items != [] {
      match items[0]
      case Info(text) => ClassifyStar(text);
      case Leg(k', first, _, _, _) => ClassifyPrefixed(k', first);
    }
  }

  /** One item is parsed off the front of its lines. */
  lemma HeadRoundTrip(item: Item, rest: seq<string>)
    requires item.Leg? ==> (forall f: Field :: f in item.fields ==> ':' !in f.0) && Follows(rest, item.kind)
    ensures var lines := ItemLines(item) + rest;
            && ItemLines(item) != []
            && ParseHead(lines) == Some((item, |ItemLines(item)|))
  {
    match item
    case Info(text) => ClassifyStar(text);
    case Leg(_, _, _, _, _) =>
      LegLinesRegroup(item, rest);
      LegRoundTrip(item, rest);
  }

  lemma ReadableTail(items: seq<Item>)
    requires Readable(items) && items != []
    ensures Readable(items[1..])
    ensures items[0].Leg? ==> Follows(Lines(items[1..]), items[0].kind)
    ensures items[0].Leg? ==> forall f: Field :: f in items[0].fields ==> ':' !in f.0
  {
    if items[0].Leg? {
      RestFollows(items[1..], items[0].kind);
    }
  }

  /** The parser's turn on an item and what follows it. */
  lemma ParseOneMore(item: Item, rest: seq<string>, items: seq<Item>)
    requires item.Leg? ==> (forall f: Field :: f in item.fields ==> ':' !in f.0) && Follows(rest, item.kind)
    requires ParseItems(rest) == Some(items)
    ensures ParseItems(ItemLines(item) + rest) == Some([item] + items)
  {
    HeadRoundTrip(item, rest);
    assert (ItemLines(item) + rest)[|ItemLines(item)|..] == rest;
  }

  /** Any readable sequence of items is parsed back from its lines. */
  lemma {:induction false} ItemsRoundTrip(items: seq<Item>)
    requires Readable(items)
    ensures ParseItems(Lines(items)) == Some(items)
  {
    if items != [] {
      ReadableTail(items);
      ItemsRoundTrip(items[1..]);
      ParseOneMore(items[0], Lines(items[1..]), items[1..]);
      assert items == [items[0]] + items[1..];
    }
  }

  // ----------------------------------------------------- printing what was parsed

  lemma ClassifiedLine(line: string)
    ensures match Classify(line)
            case Star(text) => line == "* " + text
            case Bare(k) => line == Prefix(k)
            case Text(k, text) => line == Prefix(k) + " " + text
            case Unknown => true
  {
    assert |line| >= 2 ==> line == line[..2] + line[2..];
    assert |line| >= 3 ==> line == line[..3] + line[3..];
  }

  lemma {:induction false} LeadingIsPrefixed(lines: seq<string>, k: Kind)
    ensures lines[..|LeadingTexts(lines, k)|] == Prefixed(k, LeadingTexts(lines, k))
  {
    var texts := LeadingTexts(lines, k);
    if texts != [] {
      ClassifiedLine(lines[0]);
      LeadingIsPrefixed(lines[1..], k);
      assert texts[1..] == LeadingTexts(lines[1..], k);
      assert lines[..|texts|] == [lines[0]] + lines[1..][..|texts| - 1];
      assert Prefixed(k, texts) == [lines[0]] + Prefixed(k, texts[1..]);
    }
  }

  lemma {:induction false} ParsedField(text: string)
    requires ParseField(text).Some?
    ensures var f := ParseField(text).value; text == f.0 + ": " + f.1
  {
    if text[..2] == ": " {
      assert text == text[..2] + text[2..];
    } else {
      ParsedField(text[1..]);
      assert text == [text[0]] + text[1..];
    }
  }

  lemma {:induction false} ParsedFields(texts: seq<string>)
    requires ParseFields(texts).Some?
    ensures FieldTexts(ParseFields(texts).value) == texts
  {
    if texts != [] {
      ParsedField(texts[0]);
      ParsedFields(texts[1..]);
      var fields := ParseFields(texts).value;
      assert FieldTexts(fields) == [texts[0]] + FieldTexts(fields[1..]);
    }
  }

  /** The lines that two runs of prefixed texts around a separator take. */
  lemma SegmentsRejoin(lines: seq<string>, k: Kind, texts: seq<string>, body: seq<string>)
    requires var m := |texts| + 1 + |body|;
             m <= |lines| && lines[..|texts|] == Prefixed(k, texts) && lines[|texts|] == Prefix(k)
    requires lines[|texts| + 1..][..|body|] == Prefixed(k, body)
    ensures lines[..|texts| + 1 + |body|] == Prefixed(k, texts) + [Prefix(k)] + Prefixed(k, body)
  {
    var n := |texts|;
    assert lines[..n + 1 + |body|] == lines[..n] + [lines[n]] + lines[n + 1..][..|body|];
  }

  lemma AssembledLeg(lines: seq<string>, k: Kind, texts: seq<string>, body: seq<string>)
    requires var m := |texts| + 1 + |body|;
             texts != [] && m <= |lines| && lines[..m] == Prefixed(k, texts) + [Prefix(k)] + Prefixed(k, body)
    requires AssembleLeg(lines, k, texts, body).Some?
    ensures var (leg, n) := AssembleLeg(lines, k, texts, body).value; n <= |lines| && ItemLines(leg) == lines[..n]
  {
    var m := |texts| + 1 + |body|;
    ParsedFields(texts[1..]);
    assert [texts[0]] + texts[1..] == texts;
    var leg := AssembleLeg(lines, k, texts, body).value.0;
    assert ItemLines(leg) == lines[..m] + if leg.truncated then ["* " + MARKER] else [];
    if leg.truncated {
      ClassifiedLine(lines[m]);
      assert lines[..m + 1] == lines[..m] + [lines[m]];
    } else {
      assert lines[..m] + [] == lines[..m];
    }
  }

  lemma ParsedLeg(lines: seq<string>)
    requires ParseLeg(lines).Some?
    ensures var (leg, n) := ParseLeg(lines).value; ItemLines(leg) == lines[..n]
  {
    var k := Classify(lines[0]).kind;
    var texts := LeadingTexts(lines, k);
    var body := LeadingTexts(lines[|texts| + 1..], k);
    LeadingIsPrefixed(lines, k);
    LeadingIsPrefixed(lines[|texts| + 1..], k);
    ClassifiedLine(lines[|texts|]);
    SegmentsRejoin(lines, k, texts, body);
    AssembledLeg(lines, k, texts, body);
  }

  /** Whatever lines the parser accepts are the lines of the items it returns. */
  lemma {:induction false} ParsedItems(lines: seq<string>)
    requires ParseItems(lines).Some?
    ensures Lines(ParseItems(lines).value) == lines
    decreases |lines|
  {
    if lines != [] {
      var (item, n) := ParseHead(lines).value;
      ParsedItems(lines[n..]);
      if Classify(lines[0]).Star? {
        ClassifiedLine(lines[0]);
      } else {
        ParsedLeg(lines);
      }
      assert lines == lines[..n] + lines[n..];
      assert ParseItems(lines).value[1..] == ParseItems(lines[n..]).value;
    }
  }

  predicate AllOneLine(items: seq<Item>) {
    forall l :: l in Lines(items) ==> OneLine(l)
  }

  /** What the parser returns for a text prints the lines of that text, none of which holds a newline. */
  lemma ParseIsSound(text: string)
    requires Parse(text).Some?
    ensures Lines(Parse(text).value) == SplitLines(text) && AllOneLine(Parse(text).value)
  {
    ParsedItems(SplitLines(text));
    SplitLinesAreOneLine(text);
  }

  /**
   * A printed trace is read back (first lines, fields in order, body lines and
   * truncation of every leg) exactly when none of its lines holds a newline.
   */
  lemma RenderRoundTripIff(items: seq<Item>)
    requires Readable(items)
    ensures Parse(Render(items)) == Some(items) <==> AllOneLine(items)
  {
    if AllOneLine(items) {
      LinesRecoverableIff(Lines(items));
      ItemsRoundTrip(items);
    }
    if Parse(Render(items)) == Some(items) {
      ParseIsSound(Render(items));
    }
  }

  // ------------------------------------------------------------------- ambiguity

  function FieldLeg(k: Kind, first: string, before: seq<Field>, fields: seq<Field>, after: seq<Field>,
                    body: seq<string>, truncated: bool): Item {
    Leg(k, first, before + fields + after, body, truncated)
  }

  /** A field value that holds a newline can be printed as the text of two fields, in any leg. */
  lemma NewlineForgesField(k: Kind, first: string, before: seq<Field>, f: Field, forged: Field, after: seq<Field>,
                           body: seq<string>, truncated: bool)
    ensures var smuggled := (f.0, f.1 + "\n" + Prefix(k) + " " + forged.0 + ": " + forged.1);
            Render([FieldLeg(k, first, before, [smuggled], after, body, truncated)])
            == Render([FieldLeg(k, first, before, [f, forged], after, body, truncated)])
  {
    var smuggled := (f.0, f.1 + "\n" + Prefix(k) + " " + forged.0 + ": " + forged.1);
    FieldLegText(k, first, before, [smuggled], after, body, truncated);
    FieldLegText(k, first, before, [f, forged], after, body, truncated);
    FieldLines(k, smuggled);
    FieldLines(k, f);
    FieldLines(k, forged);
    assert FieldTexts([f, forged]) == FieldTexts([f]) + FieldTexts([forged]);
    assert Prefixed(k, FieldTexts([f, forged])) == Prefixed(k, FieldTexts([f])) + Prefixed(k, FieldTexts([forged]));
    TerminatedConcat(Prefixed(k, FieldTexts([f])), Prefixed(k, FieldTexts([forged])));
    SmuggledText(Prefix(k), f, forged);
  }

  lemma SmuggledText(p: string, f: Field, forged: Field)
    ensures p + " " + (f.0 + ": " + (f.1 + "\n" + p + " " + forged.0 + ": " + forged.1)) + "\n"
         == (p + " " + (f.0 + ": " + f.1) + "\n") + (p + " " + (forged.0 + ": " + forged.1) + "\n")
  {
  }

  lemma FieldLines(k: Kind, f: Field)
    ensures Terminated(Prefixed(k, FieldTexts([f]))) == Prefix(k) + " " + (f.0 + ": " + f.1) + "\n"
  {
    var line := Prefix(k) + " " + (f.0 + ": " + f.1);
    assert Prefixed(k, FieldTexts([f])) == [line];
    assert Terminated([line]) == line + "\n" + Terminated([]);
  }

  /** The text of a leg around some of its fields. */
  lemma FieldLegText(k: Kind, first: string, before: seq<Field>, fields: seq<Field>, after: seq<Field>,
                     body: seq<string>, truncated: bool)
    ensures var head := Prefixed(k, [first] + FieldTexts(before));
            var tail := Prefixed(k, FieldTexts(after)) + ItemTail(k, body, truncated);
            Render([FieldLeg(k, first, before, fields, after, body, truncated)])
            == Terminated(head) + Terminated(Prefixed(k, FieldTexts(fields))) + Terminated(tail)
  {
    var leg := FieldLeg(k, first, before, fields, after, body, truncated);
    var head := Prefixed(k, [first] + FieldTexts(before));
    var middle := Prefixed(k, FieldTexts(fields));
    var tail := Prefixed(k, FieldTexts(after)) + ItemTail(k, body, truncated);
    assert Lines([leg][1..]) == [];
    assert Lines([leg]) == ItemLines(leg);
    assert ItemLines(leg) == Prefixed(k, [first] + FieldTexts(before + fields + after)) + ItemTail(k, body, truncated);
    assert Prefixed(k, [first] + FieldTexts(before + fields + after)) == head + middle + Prefixed(k, FieldTexts(after));
    assert ItemLines(leg) == head + middle + tail;
    TerminatedConcat(head + middle, tail);
    TerminatedConcat(head, middle);
  }

  /** The separator, body and marker lines of a leg. */
  function ItemTail(k: Kind, body: seq<string>, truncated: bool): seq<string> {
    [Prefix(k)] + Prefixed(k, body) + if truncated then ["* " + MARKER] else []
  }
}
