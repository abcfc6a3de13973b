/**
 * Joining the forwarder's base path with the request path, on decoded text
 * and on percent-encoded text.
 */
module Paths {
  import opened Common
  import opened Percent

  function TrimSlashSuffix(s: string): string {
    if s != "" && s[|s| - 1] == '/' then s[..|s| - 1] else s
  }

  function TrimSlashPrefix(s: string): string {
    if s != "" && s[0] == '/' then s[1..] else s
  }

  /** joinPath. */
  function JoinPath(base: string, path: string): string {
    if base == "" || base == "/" then path
    else if path == "" then base
    else TrimSlashSuffix(base) + "/" + TrimSlashPrefix(path)
  }

  // ------------------------------------------------------------------- algebra

  /** The one family on which joining is not associative: an empty path after a "/" base. */
  predicate LosesSlash(a: string, b: string, c: string) {
    c == "" && b == "/" && a != "" && a[|a| - 1] != '/'
  }

  lemma TrimSuffixOfConcat(x: string, y: string)
    requires y != ""
    ensures TrimSlashSuffix(x + y) == x + TrimSlashSuffix(y)
  {
    assert (x + y)[|x + y| - 1] == y[|y| - 1];
    assert (x + y)[..|x + y| - 1] == x + y[..|y| - 1];
  }

  lemma TrimPrefixOfConcat(x: string, y: string)
    requires x != ""
    ensures TrimSlashPrefix(x + y) == TrimSlashPrefix(x) + y
  {
    assert (x + y)[1..] == x[1..] + y;
  }

  lemma TrimsCommute(b: string)
    requires b != "/"
    ensures TrimSlashPrefix(TrimSlashSuffix(b)) == TrimSlashSuffix(TrimSlashPrefix(b))
  {
  }

  lemma JoinLeft(a: string, b: string, c: string)
    requires a != "" && a != "/" && b != "" && b != "/" && c != ""
    ensures JoinPath(JoinPath(a, b), c)
         == TrimSlashSuffix(a) + "/" + TrimSlashSuffix(TrimSlashPrefix(b)) + "/" + TrimSlashPrefix(c)
  {
    TrimSuffixOfConcat(TrimSlashSuffix(a) + "/", TrimSlashPrefix(b));
  }

  lemma JoinRight(a: string, b: string, c: string)
    requires a != "" && a != "/" && b != "" && b != "/" && c != ""
    ensures JoinPath(a, JoinPath(b, c))
         == TrimSlashSuffix(a) + "/" + (TrimSlashSuffix(TrimSlashPrefix(b)) + ("/" + TrimSlashPrefix(c)))
  {
    var tail := "/" + TrimSlashPrefix(c);
    assert JoinPath(b, c) == TrimSlashSuffix(b) + tail;
    TrimPrefixOfConcat(TrimSlashSuffix(b), tail);
    TrimsCommute(b);
  }

  lemma JoinedMiddle(a: string, b: string, c: string)
    requires a != "" && a != "/" && b != "" && b != "/" && c != ""
    ensures JoinPath(JoinPath(a, b), c) == JoinPath(a, JoinPath(b, c))
  {
    JoinLeft(a, b, c);
    JoinRight(a, b, c);
    var x, y, z := TrimSlashSuffix(a), TrimSlashSuffix(TrimSlashPrefix(b)), TrimSlashPrefix(c);
    RegroupFour(x + "/", y, "/", z);
    Regroup(y, "/", z);
  }

  /** Joining is associative exactly outside that family, in particular for every non-empty path. */
  lemma JoinIsAssociativeIff(a: string, b: string, c: string)
    ensures JoinPath(JoinPath(a, b), c) == JoinPath(a, JoinPath(b, c)) <==> !LosesSlash(a, b, c)
  {
    if a == "" || a == "/" || b == "" {
    } else if b == "/" {
      assert TrimSlashPrefix(b) == "";
      var ab := TrimSlashSuffix(a) + "/" + "";
      assert JoinPath(a, b) == ab;
      assert TrimSlashSuffix(ab) == TrimSlashSuffix(a);
      assert c == "" ==> (ab == a <==> a[|a| - 1] == '/');
    } else if c == "" {
      assert JoinPath(a, b)[|TrimSlashSuffix(a)|] == '/';
    } else {
      JoinedMiddle(a, b, c);
    }
  }

  /** The path that arrives behind forwarders with these base paths, nearest first. */
  function SentThrough(bases: seq<string>, path: string): string {
    if bases == [] then path else SentThrough(bases[1..], JoinPath(bases[0], path))
  }

  /** The base path of one forwarder that replaces them all. */
  function JoinedBase(bases: seq<string>): string {
    if bases == [] then "" else JoinPath(JoinedBase(bases[1..]), bases[0])
  }

  /** A chain of forwarders sends the path that one forwarder with the joined base sends. */
  lemma {:induction false} ChainOfForwardersIsOne(bases: seq<string>, path: string)
    requires path != ""
    ensures SentThrough(bases, path) == JoinPath(JoinedBase(bases), path)
  {
    if bases != [] {
      ChainOfForwardersIsOne(bases[1..], JoinPath(bases[0], path));
      JoinIsAssociativeIff(JoinedBase(bases[1..]), bases[0], path);
    }
  }

  // -------------------------------------------------- encoded and decoded paths

  function Decode(s: string): Option<string> {
    Unescape(s, false)
  }

  predicate IsEncodedSlash(s: string) {
    s == "%2F" || s == "%2f"
  }

  predicate EndsWithEncodedSlash(s: string) {
    |s| >= 3 && IsEncodedSlash(s[|s| - 3..])
  }

  predicate BeginsWithEncodedSlash(s: string) {
    |s| >= 3 && IsEncodedSlash(s[..3])
  }

  lemma SlashTokens(t: string)
    requires IsToken(t)
    ensures TokenByte(t, false) == '/' <==> t == "/" || IsEncodedSlash(t)
  {
    if |t| == 1 {
      assert t == [t[0]];
    } else {
      assert t == ['%', t[1], t[2]];
      assert '/' as int == 47;
    }
  }

  /** Where the decoded text ends in a slash, and what trimming it does to the encoding. */
  lemma SuffixDecodes(s: string)
    requires s != "" && Decode(s).Some?
    ensures var d := Decode(s).value;
            && d != ""
            && (d[|d| - 1] == '/' <==> s[|s| - 1] == '/' || EndsWithEncodedSlash(s))
            && (s[|s| - 1] == '/' ==> Decode(s[..|s| - 1]) == Some(d[..|d| - 1]))
  {
    var p, t := LastToken(s, false);
    SlashTokens(t);
    NoDanglingEscape(p, false);
    if |t| == 3 {
      assert s[|s| - 3..] == t;
    } else {
      assert s[..|s| - 1] == p;
      assert |p| >= 2 ==> s[|s| - 3] == p[|p| - 2];
    }
  }

  /** The same at the front. */
  lemma PrefixDecodes(s: string)
    requires s != "" && Decode(s).Some?
    ensures var d := Decode(s).value;
            && d != ""
            && (d[0] == '/' <==> s[0] == '/' || BeginsWithEncodedSlash(s))
            && (s[0] == '/' ==> Decode(s[1..]) == Some(d[1..]))
  {
    SlashTokens(s[..TokenLength(s)]);
  }

  /** Decoding the joined encodings gives the joined decoded paths. */
  ghost predicate JoinsAgree(base: string, path: string)
    requires Decode(base).Some? && Decode(path).Some?
  {
    Decode(JoinPath(base, path)) == Some(JoinPath(Decode(base).value, Decode(path).value))
  }

  /** What a caller can check on the encoded texts: no encoded slash where they are trimmed. */
  predicate TrimsPlainSlashes(base: string, path: string) {
    || base == "" || base == "/"
    || (path == "" && !IsEncodedSlash(base))
    || (path != "" && !EndsWithEncodedSlash(base) && !BeginsWithEncodedSlash(path))
  }

  lemma EncodedSlashDecodes(s: string)
    requires IsEncodedSlash(s)
    ensures Decode(s) == Some("/")
  {
    SlashTokens(s);
    TokenDecodes(s, false);
  }

  lemma EmptyDecodes(s: string)
    requires Decode(s).Some?
    ensures Decode(s).value == "" <==> s == ""
    ensures Decode(s).value == "/" <==> s == "/" || IsEncodedSlash(s)
  {
    if IsEncodedSlash(s) {
      EncodedSlashDecodes(s);
    } else if s != "" {
      var p, t := LastToken(s, false);
      SlashTokens(t);
      if p == "" {
        assert s == t;
        assert Decode(s).value == [TokenByte(t, false)];
        assert Decode(s).value == "/" <==> Decode(s).value[0] == '/';
      } else {
        var _, _ := LastToken(p, false);
        assert |Decode(s).value| >= 2;
      }
    }
  }

  /** The joined encoding decodes piece by piece. */
  lemma JoinedDecodes(base: string, path: string)
    requires Decode(base).Some? && Decode(path).Some? && base != "" && path != ""
    ensures var b, p := TrimSlashSuffix(base), TrimSlashPrefix(path);
            && Decode(b).Some? && Decode(p).Some?
            && Decode(b + "/" + p) == Some(Decode(b).value + "/" + Decode(p).value)
  {
    SuffixDecodes(base);
    PrefixDecodes(path);
    var b, p := TrimSlashSuffix(base), TrimSlashPrefix(path);
    TokenDecodes("/", false);
    UnescapeConcat(b, "/", false);
    UnescapeConcat(b + "/", p, false);
  }

  lemma PlainTrimsAgree(base: string, path: string)
    requires Decode(base).Some? && Decode(path).Some? && base != "" && base != "/" && path != ""
    requires !EndsWithEncodedSlash(base) && !BeginsWithEncodedSlash(path)
    ensures JoinsAgree(base, path)
  {
    EmptyDecodes(base);
    EmptyDecodes(path);
    JoinedDecodes(base, path);
    SuffixDecodes(base);
    PrefixDecodes(path);
    assert Decode(TrimSlashSuffix(base)).value == TrimSlashSuffix(Decode(base).value);
    assert Decode(TrimSlashPrefix(path)).value == TrimSlashPrefix(Decode(path).value);
  }

  /** An encoded slash at the seam survives in the raw path, which then decodes to a longer text. */
  lemma EncodedTrimsDiffer(base: string, path: string)
    requires Decode(base).Some? && Decode(path).Some? && base != "" && base != "/" && path != ""
    requires EndsWithEncodedSlash(base) || BeginsWithEncodedSlash(path)
    ensures !JoinsAgree(base, path)
  {
    EmptyDecodes(base);
    EmptyDecodes(path);
    JoinedDecodes(base, path);
    SuffixDecodes(base);
    PrefixDecodes(path);
    var b, p := Decode(TrimSlashSuffix(base)).value, Decode(TrimSlashPrefix(path)).value;
    var db, dp := Decode(base).value, Decode(path).value;
    assert |b| >= |TrimSlashSuffix(db)| && |p| >= |TrimSlashPrefix(dp)|;
    assert |b| + |p| > |TrimSlashSuffix(db)| + |TrimSlashPrefix(dp)|;
    assert |JoinPath(db, dp)| < |b + "/" + p|;
  }

  /** The joined raw path decodes to the joined path exactly when only plain slashes are trimmed. */
  lemma JoinsAgreeIff(base: string, path: string)
    requires Decode(base).Some? && Decode(path).Some?
    ensures JoinsAgree(base, path) <==> TrimsPlainSlashes(base, path)
  {
    EmptyDecodes(base);
    EmptyDecodes(path);
    if base != "" && base != "/" && path != "" {
      if EndsWithEncodedSlash(base) || BeginsWithEncodedSlash(path) {
        EncodedTrimsDiffer(base, path);
      } else {
        PlainTrimsAgree(base, path);
      }
    }
  }

  // ------------------------------------------------------------------- the seam

  /** Between a base and a path stands exactly one slash more than they bring without one at the seam. */
  lemma JoinIsAtOneSlash(a: string, b: string)
    requires a != "" && a != "/" && b != ""
    ensures JoinPath(a, b)
         == (if a[|a| - 1] == '/' then a[..|a| - 1] else a) + "/" + (if b[0] == '/' then b[1..] else b)
    ensures JoinPath(a, "") == a && JoinPath("", b) == b && JoinPath("/", b) == b
  {
  }
}
