/** Header sets as net/http keeps them: a map from canonical name to values. */
module Headers {
  import opened Text

  type Header = map<string, seq<string>>

  predicate IsUpper(c: char) { 'A' <= c <= 'Z' }
  predicate IsLower(c: char) { 'a' <= c <= 'z' }

  function ToUpper(c: char): char { if IsLower(c) then (c as int - 32) as char else c }
  function ToLower(c: char): char { if IsUpper(c) then (c as int + 32) as char else c }

  /** The characters of a field name (section 5.6.2 of RFC 9110). */
  predicate IsTokenChar(c: char) {
    IsUpper(c) || IsLower(c) || '0' <= c <= '9' || c in "!#$%&'*+-.^_`|~"
  }

  predicate IsToken(s: string) {
    forall i :: 0 <= i < |s| ==> IsTokenChar(s[i])
  }

  /** Letters upper-cased at the start and after each hyphen, lower-cased elsewhere. */
  function Capitalized(s: string, start: bool): string {
    if s == "" then ""
    else [if start then ToUpper(s[0]) else ToLower(s[0])] + Capitalized(s[1..], s[0] == '-')
  }

  /** The canonical form of a name; a text that is not a token is left alone. */
  function Canonical(name: string): string {
    if IsToken(name) then Capitalized(name, true) else name
  }

  function Lowered(s: string): (r: string)
    ensures |r| == |s| && forall i :: 0 <= i < |s| ==> r[i] == ToLower(s[i])
  {
    seq(|s|, i requires 0 <= i < |s| => ToLower(s[i]))
  }

  lemma {:induction false} CapitalizedIgnoresCase(s: string, t: string, start: bool)
    requires Lowered(s) == Lowered(t)
    ensures Capitalized(s, start) == Capitalized(t, start)
  {
    assert |s| == |Lowered(s)| == |t|;
    if s != "" {
      assert ToLower(s[0]) == Lowered(s)[0] == ToLower(t[0]);
      assert Lowered(s[1..]) == Lowered(s)[1..] == Lowered(t[1..]);
      CapitalizedIgnoresCase(s[1..], t[1..], s[0] == '-');
    }
  }

  lemma LoweredCons(c: char, s: string)
    ensures Lowered([c] + s) == [ToLower(c)] + Lowered(s)
  {
  }

  lemma {:induction false} CapitalizedKeepsLetters(s: string, start: bool)
    ensures Lowered(Capitalized(s, start)) == Lowered(s)
  {
    if s != "" {
      var rest := Capitalized(s[1..], s[0] == '-');
      CapitalizedKeepsLetters(s[1..], s[0] == '-');
      LoweredCons(if start then ToUpper(s[0]) else ToLower(s[0]), rest);
      LoweredCons(s[0], s[1..]);
      assert s == [s[0]] + s[1..];
    }
  }

  /** Two tokens have the same canonical form exactly when they differ at most in letter case. */
  lemma CanonicalIffSameLetters(s: string, t: string)
    requires IsToken(s) && IsToken(t)
    ensures Canonical(s) == Canonical(t) <==> Lowered(s) == Lowered(t)
  {
    CapitalizedKeepsLetters(s, true);
    CapitalizedKeepsLetters(t, true);
    if Lowered(s) == Lowered(t) {
      CapitalizedIgnoresCase(s, t, true);
    }
  }

  lemma LettersOfToken(s: string, t: string)
    requires IsToken(t) && Lowered(s) == Lowered(t)
    ensures IsToken(s)
  {
    assert |s| == |Lowered(s)| == |t|;
    forall i | 0 <= i < |s| ensures IsTokenChar(s[i]) {
      assert ToLower(s[i]) == Lowered(s)[i] == ToLower(t[i]);
    }
  }

  /** Any text has the canonical form of a token exactly when it differs from the token at most in letter case. */
  lemma SameFormIffSameLetters(s: string, t: string)
    requires IsToken(t)
    ensures Canonical(s) == Canonical(t) <==> Lowered(s) == Lowered(t)
  {
    if IsToken(s) {
      CanonicalIffSameLetters(s, t);
    } else {
      CapitalizedIsToken(t, true);
      if Lowered(s) == Lowered(t) {
        LettersOfToken(s, t);
      }
    }
  }

  lemma {:induction false} CapitalizedIsToken(s: string, start: bool)
    requires IsToken(s)
    ensures IsToken(Capitalized(s, start))
  {
    if s != "" {
      CapitalizedIsToken(s[1..], s[0] == '-');
    }
  }

  /** Header.Values, for a name already in canonical form. */
  function Values(h: Header, name: string): seq<string> {
    if name in h then h[name] else []
  }

  /** Header.Get, for a name already in canonical form. */
  function Get(h: Header, name: string): string {
    if Values(h, name) == [] then "" else Values(h, name)[0]
  }

  /** Header.Set and Header.Add, for a name already in canonical form. */
  function Set(h: Header, name: string, value: string): Header {
    h[name := [value]]
  }

  function Add(h: Header, name: string, value: string): Header {
    h[name := Values(h, name) + [value]]
  }

  // ------------------------------------------------------------- the form itself

  /** The token characters of section 5.6.2 of RFC 9110, spelled out. */
  lemma TokenCharsAre(c: char)
    ensures IsTokenChar(c) <==>
              || c in "!#$%&'*+-.^_`|~" || c in "0123456789"
              || c in "ABCDEFGHIJKLMNOPQRSTUVWXYZ" || c in "abcdefghijklmnopqrstuvwxyz"
  {
    InRun("0123456789", '0', c);
    InRun("ABCDEFGHIJKLMNOPQRSTUVWXYZ", 'A', c);
    InRun("abcdefghijklmnopqrstuvwxyz", 'a', c);
  }

  lemma LettersPair(k: nat)
    requires k < 26
    ensures ToUpper("abcdefghijklmnopqrstuvwxyz"[k]) == "ABCDEFGHIJKLMNOPQRSTUVWXYZ"[k]
    ensures ToLower("ABCDEFGHIJKLMNOPQRSTUVWXYZ"[k]) == "abcdefghijklmnopqrstuvwxyz"[k]
  {
  }

  lemma {:induction false} CapitalizedAt(s: string, start: bool, i: nat)
    requires i < |s|
    ensures |Capitalized(s, start)| == |s|
    ensures var upper := if i == 0 then start else s[i - 1] == '-';
            Capitalized(s, start)[i] == if upper then ToUpper(s[i]) else ToLower(s[i])
  {
    if |s| > 1 {
      CapitalizedAt(s[1..], s[0] == '-', if i > 0 then i - 1 else 0);
    }
  }

  /** Position by position: upper case at the start and after a hyphen, lower case elsewhere. */
  lemma CanonicalAt(name: string, i: nat)
    requires IsToken(name) && i < |name|
    ensures |Canonical(name)| == |name|
    ensures Canonical(name)[i] == if i == 0 || name[i - 1] == '-' then ToUpper(name[i]) else ToLower(name[i])
  {
    CapitalizedAt(name, true, i);
  }

  predicate AtForm(name: string, i: nat)
    requires i < |name|
  {
    if i == 0 || name[i - 1] == '-' then !('a' <= name[i] <= 'z') else !('A' <= name[i] <= 'Z')
  }

  /** A token whose letters are upper case exactly at the start and after hyphens. */
  predicate InForm(name: string) {
    IsToken(name) && forall i :: 0 <= i < |name| ==> AtForm(name, i)
  }

  /** The names that are their own canonical form. */
  lemma CanonicalIffInForm(name: string)
    requires IsToken(name)
    ensures Canonical(name) == name <==> InForm(name)
  {
    var c := Canonical(name);
    CapitalizedLength(name, true);
    forall i | 0 <= i < |name| ensures c[i] == name[i] <==> AtForm(name, i) {
      CanonicalAt(name, i);
    }
    if InForm(name) {
      assert forall i :: 0 <= i < |name| ==> AtForm(name, i) && c[i] == name[i];
    }
  }

  /** Forms joined after a hyphen. */
  lemma FormConcat(a: string, b: string)
    requires InForm(a) && InForm(b) && a != "" && a[|a| - 1] == '-'
    ensures InForm(a + b)
  {
    var s := a + b;
    forall i | 0 <= i < |s| ensures IsTokenChar(s[i]) && AtForm(s, i) {
      if i >= |a| {
        assert AtForm(b, i - |a|);
        assert s[i] == b[i - |a|];
        assert s[i - 1] == if i == |a| then '-' else b[i - |a| - 1];
      } else {
        assert AtForm(a, i);
      }
    }
  }

  /** A word that is capitalized, with or without a hyphen after it. */
  lemma WordInForm(first: char, rest: string)
    requires IsUpper(first) && forall i :: 0 <= i < |rest| ==> IsLower(rest[i])
    ensures InForm([first] + rest) && InForm([first] + rest + "-")
  {
    var word := [first] + rest;
    forall i | 0 <= i < |word| ensures IsTokenChar(word[i]) && AtForm(word, i) {
      assert i > 0 ==> word[i] == rest[i - 1];
    }
    var longer := word + "-";
    forall i | 0 <= i < |longer| ensures IsTokenChar(longer[i]) && AtForm(longer, i) {
      assert i < |word| ==> AtForm(word, i) && longer[i] == word[i];
      assert 0 < i < |word| ==> longer[i - 1] == word[i - 1];
    }
  }

  lemma {:induction false} CapitalizedLength(s: string, start: bool)
    ensures |Capitalized(s, start)| == |s|
  {
    if s != "" {
      CapitalizedLength(s[1..], s[0] == '-');
    }
  }
}
