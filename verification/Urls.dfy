/**
 * The URL that the forwarder sends: its path text on the wire, given the
 * decoded and raw paths of the target and of the request.
 */
module Urls {
  import opened Common
  import opened Percent
  import opened Paths

  /** url.URL: the decoded path, and the raw path when it is not the default encoding. */
  datatype Url = Url(path: string, rawPath: string)

  /** May a raw path contain this byte as it is? */
  predicate MayStand(c: char) {
    Safe(c, false) || c in "!'()*[]%"
  }

  predicate ValidEncoded(s: string) {
    forall i :: 0 <= i < |s| ==> MayStand(s[i])
  }

  /** URL.EscapedPath: the raw path when it is a valid encoding of the path, else the default encoding. */
  function EscapedPath(u: Url): string
    requires IsBytes(u.path)
  {
    if u.rawPath != "" && ValidEncoded(u.rawPath) && Decode(u.rawPath) == Some(u.path) then u.rawPath
    else if u.path == "*" then "*"
    else Escape(u.path, false)
  }

  lemma JoinedIsBytes(a: string, b: string)
    requires IsBytes(a) && IsBytes(b)
    ensures IsBytes(JoinPath(a, b))
  {
  }

  /** joinURLPath. */
  function JoinUrlPath(base: Url, request: Url): Url
    requires IsBytes(base.path) && IsBytes(request.path)
  {
    var path := JoinPath(base.path, request.path);
    if base.rawPath == "" && request.rawPath == "" then Url(path, "")
    else Url(path, JoinPath(EscapedPath(base), EscapedPath(request)))
  }

  // -------------------------------------------------------- the default encoding

  lemma {:induction false} EscapeStands(s: string)
    requires IsBytes(s)
    ensures ValidEncoded(Escape(s, false)) && '*' !in Escape(s, false)
  {
    if s != "" {
      EscapeStands(s[1..]);
      var t := EscapeByte(s[0], false);
      assert forall i :: 0 <= i < |t| ==> MayStand(t[i]) && t[i] != '*';
    }
  }

  lemma {:induction false} EscapeConcat(a: string, b: string)
    requires IsBytes(a) && IsBytes(b)
    ensures Escape(a + b, false) == Escape(a, false) + Escape(b, false)
  {
    if a == "" {
      assert a + b == b;
    } else {
      assert (a + b)[1..] == a[1..] + b;
      EscapeConcat(a[1..], b);
    }
  }

  lemma EscapeFirst(c: char)
    requires c as int < 256
    ensures var t := EscapeByte(c, false);
            && t != "" && (c == '/' ==> t == "/")
            && (c != '/' ==> t[0] != '/' && t[|t| - 1] != '/')
  {
  }

  lemma EscapeSingle(c: char)
    requires c as int < 256
    ensures Escape([c], false) == EscapeByte(c, false)
  {
    assert [c][1..] == "" && Escape("", false) == "";
  }

  /** Escaping commutes with the slash trims, because it leaves slashes alone. */
  lemma EscapeTrimsSuffix(s: string)
    requires IsBytes(s)
    ensures Escape(TrimSlashSuffix(s), false) == TrimSlashSuffix(Escape(s, false))
  {
    if s != "" {
      var init, last := s[..|s| - 1], s[|s| - 1];
      assert s == init + [last];
      EscapeConcat(init, [last]);
      EscapeSingle(last);
      EscapeFirst(last);
    }
  }

  lemma EscapeTrimsPrefix(s: string)
    requires IsBytes(s)
    ensures Escape(TrimSlashPrefix(s), false) == TrimSlashPrefix(Escape(s, false))
  {
    if s != "" {
      EscapeFirst(s[0]);
      assert Escape(s, false) == EscapeByte(s[0], false) + Escape(s[1..], false);
    }
  }

  lemma EscapeIsTrivialIff(s: string)
    requires IsBytes(s)
    ensures Escape("/", false) == "/"
    ensures Escape(s, false) == "/" <==> s == "/"
    ensures Escape(s, false) == "" <==> s == ""
  {
    EscapeSingle('/');
    UnescapeEscape(s, false);
    UnescapeEscape("/", false);
    UnescapeEscape("", false);
  }

  /** The default encoding of a joined path is the joined default encodings. */
  lemma EscapeJoin(a: string, b: string)
    requires IsBytes(a) && IsBytes(b)
    ensures IsBytes(JoinPath(a, b))
    ensures Escape(JoinPath(a, b), false) == JoinPath(Escape(a, false), Escape(b, false))
  {
    EscapeIsTrivialIff(a);
    EscapeIsTrivialIff(b);
    if a != "" && a != "/" && b != "" {
      var a', b' := TrimSlashSuffix(a), TrimSlashPrefix(b);
      EscapeTrimsSuffix(a);
      EscapeTrimsPrefix(b);
      EscapeConcat(a', "/");
      EscapeConcat(a' + "/", b');
    }
  }

  /** The default encoding has no encoded slash to trim. */
  lemma EscapeTrimsPlainly(a: string, b: string)
    requires IsBytes(a) && IsBytes(b)
    ensures TrimsPlainSlashes(Escape(a, false), Escape(b, false))
  {
    UnescapeEscape(a, false);
    UnescapeEscape(b, false);
    EscapeJoin(a, b);
    JoinedIsBytes(a, b);
    UnescapeEscape(JoinPath(a, b), false);
    JoinsAgreeIff(Escape(a, false), Escape(b, false));
  }

  // ---------------------------------------------------------------- on the wire

  lemma EscapedPathDecodes(u: Url)
    requires IsBytes(u.path)
    ensures Decode(EscapedPath(u)) == Some(u.path) && ValidEncoded(EscapedPath(u))
  {
    UnescapeEscape(u.path, false);
    EscapeStands(u.path);
    TokenDecodes("*", false);
  }

  lemma JoinStands(a: string, b: string)
    requires ValidEncoded(a) && ValidEncoded(b)
    ensures ValidEncoded(JoinPath(a, b))
  {
  }

  /** Without raw paths, an asterisk path below a base is escaped where it was not before. */
  predicate EscapesAsterisk(base: Url, request: Url) {
    && base.rawPath == "" && request.rawPath == ""
    && base.path != "" && base.path != "/" && request.path != ""
    && (base.path == "*" || request.path == "*")
  }

  lemma AsteriskIsEscaped(base: Url, request: Url)
    requires IsBytes(base.path) && IsBytes(request.path) && EscapesAsterisk(base, request)
    ensures IsBytes(JoinUrlPath(base, request).path)
    ensures EscapedPath(JoinUrlPath(base, request)) != JoinPath(EscapedPath(base), EscapedPath(request))
  {
    var path := JoinPath(base.path, request.path);
    JoinedIsBytes(base.path, request.path);
    EscapeStands(path);
    EscapeIsTrivialIff(base.path);
    EscapeIsTrivialIff(request.path);
    assert path[|TrimSlashSuffix(base.path)|] == '/';
    var joined := JoinPath(EscapedPath(base), EscapedPath(request));
    assert joined[if request.path == "*" then |joined| - 1 else 0] == '*';
  }

  lemma DefaultPathOnWire(base: Url, request: Url)
    requires IsBytes(base.path) && IsBytes(request.path) && base.rawPath == "" && request.rawPath == ""
    ensures IsBytes(JoinUrlPath(base, request).path)
    ensures EscapedPath(JoinUrlPath(base, request)) == JoinPath(EscapedPath(base), EscapedPath(request))
            <==> !EscapesAsterisk(base, request)
  {
    EscapeIsTrivialIff(base.path);
    EscapeIsTrivialIff(request.path);
    EscapeJoin(base.path, request.path);
    if EscapesAsterisk(base, request) {
      AsteriskIsEscaped(base, request);
    } else if base.path != "" && base.path != "/" && request.path != "" {
      assert JoinPath(base.path, request.path)[|TrimSlashSuffix(base.path)|] == '/';
    }
  }

  /** Default encodings, and a bare asterisk, have no encoded slash to trim. */
  lemma DefaultPathTrimsPlainly(base: Url, request: Url)
    requires IsBytes(base.path) && IsBytes(request.path) && base.rawPath == "" && request.rawPath == ""
    ensures TrimsPlainSlashes(EscapedPath(base), EscapedPath(request))
  {
    EscapeTrimsPlainly(base.path, request.path);
    EscapeIsTrivialIff(base.path);
    EscapeIsTrivialIff(request.path);
    assert !EndsWithEncodedSlash("*") && !BeginsWithEncodedSlash("*");
  }

  lemma RawPathOnWire(base: Url, request: Url)
    requires IsBytes(base.path) && IsBytes(request.path) && !(base.rawPath == "" && request.rawPath == "")
    ensures IsBytes(JoinUrlPath(base, request).path)
    ensures EscapedPath(JoinUrlPath(base, request)) == JoinPath(EscapedPath(base), EscapedPath(request))
            <==> TrimsPlainSlashes(EscapedPath(base), EscapedPath(request))
  {
    var eb, er := EscapedPath(base), EscapedPath(request);
    EscapedPathDecodes(base);
    EscapedPathDecodes(request);
    JoinsAgreeIff(eb, er);
    JoinStands(eb, er);
    JoinedIsBytes(base.path, request.path);
    EscapedPathDecodes(JoinUrlPath(base, request));
    if eb == "" && er == "" {
      assert Decode("") == Some("");
      assert Escape("", false) == "";
    }
  }

  /**
   * The path text on the wire is the target's text joined with the request's,
   * escapes and all, exactly when no encoded slash is trimmed at the seam and
   * no bare asterisk has to be escaped.
   */
  lemma RelayedByteForByteIff(base: Url, request: Url)
    requires IsBytes(base.path) && IsBytes(request.path)
    ensures IsBytes(JoinUrlPath(base, request).path)
    ensures EscapedPath(JoinUrlPath(base, request)) == JoinPath(EscapedPath(base), EscapedPath(request))
            <==> TrimsPlainSlashes(EscapedPath(base), EscapedPath(request)) && !EscapesAsterisk(base, request)
  {
    if base.rawPath == "" && request.rawPath == "" {
      DefaultPathOnWire(base, request);
      DefaultPathTrimsPlainly(base, request);
    } else {
      RawPathOnWire(base, request);
    }
  }
}
