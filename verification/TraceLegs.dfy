/**
 * The parts of a leg: header fields under sorted names, and the lines of a
 * truncated body, with what can be recovered from each.
 */
module TraceLegs {
  import opened Common
  import opened Text
  import opened Headers
  import opened TraceFormat

  // -------------------------------------------------------------- sorted names

  /** The order of sort.Strings. */
  predicate Less(a: string, b: string) {
    b != "" && (a == "" || a[0] < b[0] || (a[0] == b[0] && Less(a[1..], b[1..])))
  }

  lemma {:induction false} LessIsTotal(a: string, b: string)
    ensures a == b || Less(a, b) || Less(b, a)
    ensures !(Less(a, b) && Less(b, a)) && !Less(a, a)
  {
    if a != "" {
      LessIsTotal(a[1..], a[1..]);
      if b != "" {
        LessIsTotal(a[1..], b[1..]);
        assert a == [a[0]] + a[1..] && b == [b[0]] + b[1..];
      }
    }
  }

  lemma {:induction false} LessIsTransitive(a: string, b: string, c: string)
    requires Less(a, b) && Less(b, c)
    ensures Less(a, c)
  {
    if a != "" && a[0] == b[0] == c[0] {
      LessIsTransitive(a[1..], b[1..], c[1..]);
    }
  }

  /** The texts agree before i, and there a ends or has the lower byte. */
  predicate LowerAt(a: string, b: string, i: int) {
    0 <= i <= |a| && i < |b| && a[..i] == b[..i] && (i < |a| ==> a[i] < b[i])
  }

  lemma {:induction false} LessHasPlace(a: string, b: string) returns (i: int)
    requires Less(a, b)
    ensures LowerAt(a, b, i)
  {
    if a == "" || a[0] < b[0] {
      i := 0;
    } else {
      var j := LessHasPlace(a[1..], b[1..]);
      i := j + 1;
      assert a[..i] == [a[0]] + a[1..][..j] && b[..i] == [b[0]] + b[1..][..j];
    }
  }

  lemma {:induction false} PlaceMakesLess(a: string, b: string, i: int)
    requires LowerAt(a, b, i)
    ensures Less(a, b)
  {
    if i > 0 {
      assert a[0] == a[..i][0] == b[..i][0] == b[0];
      assert a[1..][..i - 1] == a[..i][1..] && b[1..][..i - 1] == b[..i][1..];
      PlaceMakesLess(a[1..], b[1..], i - 1);
    }
  }

  /** Lexicographic order: the first difference decides, and a proper prefix comes first. */
  lemma LessIs(a: string, b: string)
    ensures Less(a, b) <==> exists i :: LowerAt(a, b, i)
  {
    if Less(a, b) {
      var i := LessHasPlace(a, b);
    }
    if i :| LowerAt(a, b, i) {
      PlaceMakesLess(a, b, i);
    }
  }

  ghost predicate Sorted(names: seq<string>) {
    forall i, j :: 0 <= i < j < |names| ==> Less(names[i], names[j])
  }

  /** names lists the keys, each once, in increasing order. */
  ghost predicate SortedListing(names: seq<string>, keys: set<string>) {
    Sorted(names) && Elems(names) == keys
  }

  lemma NoElems(a: seq<string>)
    ensures Elems(a) == {} <==> a == []
  {
    if a != [] {
      assert a[0] in Elems(a);
    }
  }

  /** There is only one sorted listing of a set of names. */
  lemma {:induction false} SortedListingIsUnique(a: seq<string>, b: seq<string>, keys: set<string>)
    requires SortedListing(a, keys) && SortedListing(b, keys)
    ensures a == b
  {
    if a == [] || b == [] {
      NoElems(a);
      NoElems(b);
    } else {
      SameHead(a, b, keys);
      SortedTail(a, keys);
      SortedTail(b, keys);
      SortedListingIsUnique(a[1..], b[1..], keys - {a[0]});
      assert a == [a[0]] + a[1..] && b == [b[0]] + b[1..];
    }
  }

  lemma SameHead(a: seq<string>, b: seq<string>, keys: set<string>)
    requires SortedListing(a, keys) && SortedListing(b, keys) && a != [] && b != []
    ensures a[0] == b[0]
  {
    assert a[0] in Elems(a) && b[0] in Elems(b);
    var i :| 0 <= i < |a| && a[i] == b[0];
    var j :| 0 <= j < |b| && b[j] == a[0];
    LessIsTotal(a[0], b[0]);
  }

  lemma SortedTail(a: seq<string>, keys: set<string>)
    requires SortedListing(a, keys) && a != []
    ensures SortedListing(a[1..], keys - {a[0]})
  {
    assert a == [a[0]] + a[1..];
    forall x | x in a[1..] ensures x != a[0] {
      LessIsTotal(x, x);
    }
    assert Elems(a) == {a[0]} + Elems(a[1..]);
  }

  function Insert(names: seq<string>, name: string): seq<string> {
    if names == [] || Less(name, names[0]) then [name] + names
    else [names[0]] + Insert(names[1..], name)
  }

  lemma {:induction false} InsertKeepsSorted(names: seq<string>, name: string)
    requires Sorted(names) && name !in names
    ensures Sorted(Insert(names, name)) && Elems(Insert(names, name)) == Elems(names) + {name}
  {
    if names == [] {
    } else if Less(name, names[0]) {
      forall i | 0 <= i < |names| ensures Less(name, names[i]) {
        if i > 0 { LessIsTransitive(name, names[0], names[i]); }
      }
    } else {
      var rest := Insert(names[1..], name);
      InsertKeepsSorted(names[1..], name);
      LessIsTotal(name, names[0]);
      assert names == [names[0]] + names[1..];
      forall i | 0 <= i < |rest| ensures Less(names[0], rest[i]) {
        assert rest[i] in Elems(rest);
      }
    }
  }

  /** The names of a header set in the order in which they are printed. */
  ghost function SortedNames(keys: set<string>): (names: seq<string>)
    ensures SortedListing(names, keys)
  {
    if keys == {} then []
    else
      var k :| k in keys;
      var rest := SortedNames(keys - {k});
      assert k !in Elems(rest);
      InsertKeepsSorted(rest, k);
      Insert(rest, k)
  }

  /** Collect the names of a map in any order, then sort them. */
  method SortNames(keys: set<string>) returns (names: seq<string>)
    ensures names == SortedNames(keys)
  {
    names := [];
    var todo := keys;
    while todo != {}
      invariant todo <= keys && SortedListing(names, keys - todo)
      decreases todo
    {
      var name :| name in todo;
      assert name !in Elems(names);
      InsertKeepsSorted(names, name);
      names := Insert(names, name);
      todo := todo - {name};
      assert keys - todo == Elems(names);
    }
    SortedListingIsUnique(names, SortedNames(keys), keys);
  }

  // -------------------------------------------------------------- header fields

  function FieldsNamed(name: string, values: seq<string>): (fields: seq<Field>)
    ensures |fields| == |values|
    ensures forall i :: 0 <= i < |values| ==> fields[i] == (name, values[i])
  {
    seq(|values|, i requires 0 <= i < |values| => (name, values[i]))
  }

  /** The fields of a header set, name after name. */
  function FieldsOf(names: seq<string>, h: Header): seq<Field> {
    if names == [] then []
    else FieldsNamed(names[0], Values(h, names[0])) + FieldsOf(names[1..], h)
  }

  /** The values that the fields give a name, in order. */
  function ValuesNamed(fields: seq<Field>, name: string): seq<string> {
    if fields == [] then []
    else (if fields[0].0 == name then [fields[0].1] else []) + ValuesNamed(fields[1..], name)
  }

  lemma {:induction false} ValuesNamedConcat(a: seq<Field>, b: seq<Field>, name: string)
    ensures ValuesNamed(a + b, name) == ValuesNamed(a, name) + ValuesNamed(b, name)
  {
    if a == [] {
      assert a + b == b;
    } else {
      assert (a + b)[1..] == a[1..] + b;
      ValuesNamedConcat(a[1..], b, name);
    }
  }

  lemma {:induction false} ValuesOfFieldsNamed(n: string, values: seq<string>, name: string)
    ensures ValuesNamed(FieldsNamed(n, values), name) == if n == name then values else []
  {
    if values != [] {
      assert FieldsNamed(n, values)[1..] == FieldsNamed(n, values[1..]);
      ValuesOfFieldsNamed(n, values[1..], name);
      assert values == [values[0]] + values[1..];
    }
  }

  /** Every header's values are recovered in order from the printed fields. */
  lemma {:induction false} FieldsKeepValues(names: seq<string>, h: Header, name: string)
    requires Sorted(names)
    ensures ValuesNamed(FieldsOf(names, h), name) == if name in names then Values(h, name) else []
  {
    if names != [] {
      assert names == [names[0]] + names[1..];
      FieldsKeepValues(names[1..], h, name);
      ValuesOfFieldsNamed(names[0], Values(h, names[0]), name);
      ValuesNamedConcat(FieldsNamed(names[0], Values(h, names[0])), FieldsOf(names[1..], h), name);
      LessIsTotal(name, name);
    }
  }

  const HOST := "Host"

  /** The fields of a leg: the host first when there is one, then the headers under sorted names. */
  ghost function LegFields(host: string, h: Header): seq<Field> {
    (if host == "" then [] else [(HOST, host)]) + FieldsOf(SortedNames(h.Keys), h)
  }

  /** The names of the fields under a sorted listing do not go down. */
  lemma {:induction false} FieldNamesAreSorted(names: seq<string>, h: Header, i: nat, j: nat)
    requires Sorted(names) && i < j < |FieldsOf(names, h)|
    ensures var fields := FieldsOf(names, h);
            fields[i].0 == fields[j].0 || Less(fields[i].0, fields[j].0)
  {
    var front, rest := FieldsNamed(names[0], Values(h, names[0])), FieldsOf(names[1..], h);
    if i >= |front| {
      FieldNamesAreSorted(names[1..], h, i - |front|, j - |front|);
    } else if j >= |front| {
      FieldNameIsListed(names[1..], h, j - |front|);
      var k :| 0 <= k < |names[1..]| && names[1..][k] == rest[j - |front|].0;
      assert names[k + 1] == names[1..][k];
    }
  }

  lemma {:induction false} FieldNameIsListed(names: seq<string>, h: Header, j: nat)
    requires j < |FieldsOf(names, h)|
    ensures FieldsOf(names, h)[j].0 in names
  {
    var front := FieldsNamed(names[0], Values(h, names[0]));
    if j >= |front| {
      FieldNameIsListed(names[1..], h, j - |front|);
      assert names == [names[0]] + names[1..];
    }
  }

  /** The host comes first, and the other names do not go down. */
  lemma LegFieldsAreOrdered(host: string, h: Header, i: nat, j: nat)
    requires i < j < |LegFields(host, h)|
    ensures var fields := LegFields(host, h);
            && (host != "" ==> fields[0] == ("Host", host))
            && (host == "" || i > 0 ==> fields[i].0 == fields[j].0 || Less(fields[i].0, fields[j].0))
  {
    var n := if host == "" then 0 else 1;
    if i >= n {
      FieldNamesAreSorted(SortedNames(h.Keys), h, i - n, j - n);
    }
  }

  /** From the fields of a leg one recovers the host and every header's values, in order. */
  lemma LegFieldsRecoverHeader(host: string, h: Header, name: string)
    ensures ValuesNamed(LegFields(host, h), name) == HostValues(host, name) + Values(h, name)
  {
    var names := SortedNames(h.Keys);
    var front: seq<Field> := if host == "" then [] else [(HOST, host)];
    ValuesNamedConcat(front, FieldsOf(names, h), name);
    FieldsKeepValues(names, h, name);
    assert name in names <==> name in Elems(names);
    if host != "" {
      assert front[1..] == [];
    }
  }

  /** The host of a request is printed as the first value of this name. */
  function HostValues(host: string, name: string): seq<string> {
    if name == HOST && host != "" then [host] else []
  }

  // ---------------------------------------------------------------------- body

  /** strings.TrimSuffix(line, "\r"). */
  function TrimCR(line: string): string {
    if line != "" && line[|line| - 1] == '\r' then line[..|line| - 1] else line
  }

  function TrimmedLines(lines: seq<string>): (r: seq<string>)
    ensures |r| == |lines|
    ensures forall i :: 0 <= i < |lines| ==> r[i] == TrimCR(lines[i])
  {
    seq(|lines|, i requires 0 <= i < |lines| => TrimCR(lines[i]))
  }

  /** The printed lines of a body. */
  function BodyLines(body: string): seq<string> {
    if body == "" then [] else TrimmedLines(Split(body, '\n'))
  }

  /** The part of a body that is printed. */
  function Shown(body: string, maxBody: int): string {
    if maxBody > 0 && |body| > maxBody then body[..maxBody] else body
  }

  predicate Truncates(body: string, maxBody: int) {
    maxBody > 0 && |body| > maxBody
  }

  /** body without the carriage returns that directly precede a line end. */
  function DropLineCRs(body: string): string {
    if body == "" then ""
    else if body[0] == '\r' && (|body| == 1 || body[1] == '\n') then DropLineCRs(body[1..])
    else [body[0]] + DropLineCRs(body[1..])
  }

  lemma TrimCRCons(c: char, line: string)
    ensures TrimCR([c] + line) == if line == "" && c == '\r' then "" else [c] + TrimCR(line)
  {
    if line != "" {
      assert ([c] + line)[|line|] == line[|line| - 1];
      assert ([c] + line)[..|line|] == [c] + line[..|line| - 1];
    }
  }

  lemma JoinHead(parts: seq<string>, c: char)
    requires parts != []
    ensures Join([[c] + parts[0]] + parts[1..], "\n") == [c] + Join(parts, "\n")
  {
    var longer := [[c] + parts[0]] + parts[1..];
    assert longer[1..] == parts[1..];
    if |parts| > 1 {
      assert [c] + parts[0] + "\n" + Join(parts[1..], "\n") == [c] + (parts[0] + "\n" + Join(parts[1..], "\n"));
    }
  }

  lemma FirstPart(s: string)
    ensures Split(s, '\n')[0] == "" <==> s == "" || s[0] == '\n'
  {
  }

  lemma TrimmedAfterNewline(rest: seq<string>)
    requires rest != []
    ensures Join(TrimmedLines([""] + rest), "\n") == ['\n'] + Join(TrimmedLines(rest), "\n")
  {
    var trimmed := TrimmedLines(rest);
    assert TrimmedLines([""] + rest) == [""] + trimmed;
    assert ([""] + trimmed)[1..] == trimmed;
    assert "" + "\n" + Join(trimmed, "\n") == ['\n'] + Join(trimmed, "\n");
  }

  lemma TrimmedAfterByte(c: char, rest: seq<string>)
    requires rest != []
    ensures Join(TrimmedLines([[c] + rest[0]] + rest[1..]), "\n")
         == (if rest[0] == "" && c == '\r' then [] else [c]) + Join(TrimmedLines(rest), "\n")
  {
    var trimmed := TrimmedLines(rest);
    TrimCRCons(c, rest[0]);
    JoinHead(trimmed, c);
    assert trimmed == [TrimCR(rest[0])] + trimmed[1..];
    assert TrimmedLines([[c] + rest[0]] + rest[1..]) == [TrimCR([c] + rest[0])] + trimmed[1..];
  }

  /** The body is recovered from its lines, except for one carriage return at each line end. */
  lemma {:induction false} JoinTrimmedLines(body: string)
    ensures Join(TrimmedLines(Split(body, '\n')), "\n") == DropLineCRs(body)
  {
    if body != "" {
      var rest := Split(body[1..], '\n');
      JoinTrimmedLines(body[1..]);
      FirstPart(body[1..]);
      if body[0] == '\n' {
        TrimmedAfterNewline(rest);
      } else {
        TrimmedAfterByte(body[0], rest);
      }
    }
  }

  lemma BodyIsRecovered(body: string)
    ensures Join(BodyLines(body), "\n") == DropLineCRs(body)
    ensures BodyLines(body) == [] <==> body == ""
  {
    JoinTrimmedLines(body);
  }

  /** Does a carriage return end a line of s? */
  predicate HasLineCR(s: string) {
    exists i :: 0 <= i < |s| && s[i] == '\r' && (i == |s| - 1 || s[i + 1] == '\n')
  }

  lemma {:induction false} DropLength(body: string)
    ensures |DropLineCRs(body)| <= |body|
    ensures |DropLineCRs(body)| == |body| <==> !HasLineCR(body)
    ensures !HasLineCR(body) ==> DropLineCRs(body) == body
  {
    if body != "" {
      var tail := body[1..];
      DropLength(tail);
      assert body == [body[0]] + tail;
      if HasLineCR(tail) {
        var i :| 0 <= i < |tail| && tail[i] == '\r' && (i == |tail| - 1 || tail[i + 1] == '\n');
        assert body[i + 1] == '\r' && (i + 1 == |body| - 1 || body[i + 1 + 1] == '\n');
      }
      if HasLineCR(body) {
        var i :| 0 <= i < |body| && body[i] == '\r' && (i == |body| - 1 || body[i + 1] == '\n');
        if i > 0 {
          assert tail[i - 1] == '\r' && (i - 1 == |tail| - 1 || tail[i - 1 + 1] == '\n');
        }
      }
    }
  }

  /** The shown body is recovered byte for byte exactly when no line of it ends in a carriage return. */
  lemma BodyIsExactIff(body: string)
    ensures Join(BodyLines(body), "\n") == body <==> !HasLineCR(body)
  {
    BodyIsRecovered(body);
    DropLength(body);
  }
}
