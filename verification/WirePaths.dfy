/**
 * Path texts on the wire through a chain of forwarders: each hop parses the
 * text that the last one sent, joins it with its own base, and encodes it.
 */
module WirePaths {
  import opened Common
  import opened Percent
  import opened Paths
  import opened Urls

  /** A path text that a forwarder sends: rooted, and a valid encoding. */
  predicate IsWire(text: string) {
    text != "" && text[0] == '/' && ValidEncoded(text) && Decode(text).Some? && IsBytes(Decode(text).value)
  }

  /** url.URL.setPath: the raw path is kept only where it differs from the default encoding. */
  function Parsed(text: string): Url
    requires Decode(text).Some? && IsBytes(Decode(text).value)
  {
    var path := Decode(text).value;
    Url(path, if Escape(path, false) == text then "" else text)
  }

  lemma WirePathIsRooted(text: string)
    requires IsWire(text)
    ensures Decode(text).value != "" && Decode(text).value[0] == '/'
  {
    PrefixDecodes(text);
  }

  /** A hop reads back exactly the path text that was sent. */
  lemma ReparsedText(text: string)
    requires IsWire(text)
    ensures EscapedPath(Parsed(text)) == text
  {
    WirePathIsRooted(text);
  }

  /** The base path of a forwarder: empty, or rooted on the wire. */
  predicate Rooted(base: Url) {
    IsBytes(base.path) && (EscapedPath(base) == "" || EscapedPath(base)[0] == '/')
  }

  /** The path text that a forwarder with this base sends when it receives `text`. */
  function HopText(base: Url, text: string): string
    requires Rooted(base) && IsWire(text)
  {
    JoinedIsBytes(base.path, Parsed(text).path);
    EscapedPath(JoinUrlPath(base, Parsed(text)))
  }

  lemma RootedPaths(base: Url)
    requires Rooted(base)
    ensures Decode(EscapedPath(base)) == Some(base.path) && ValidEncoded(EscapedPath(base))
    ensures base.path == "" <==> EscapedPath(base) == ""
    ensures base.path == "/" <==> EscapedPath(base) == "/"
    ensures base.path != "" ==> base.path[0] == '/'
  {
    EscapedPathDecodes(base);
    EmptyDecodes(EscapedPath(base));
    if EscapedPath(base) != "" {
      PrefixDecodes(EscapedPath(base));
    }
  }

  lemma JoinIsRooted(a: string, b: string)
    requires (a == "" || a[0] == '/') && b != "" && b[0] == '/'
    ensures JoinPath(a, b) != "" && JoinPath(a, b)[0] == '/'
  {
  }

  /** Appending the decoded text of a wire path. */
  lemma JoinWithRooted(a: string, b: string)
    requires a != "" && a != "/" && b != "" && b[0] == '/'
    ensures JoinPath(a, b) == TrimSlashSuffix(a) + b
  {
    assert b == "/" + b[1..];
    assert TrimSlashSuffix(a) + "/" + b[1..] == TrimSlashSuffix(a) + ("/" + b[1..]);
  }

  /** What a hop sends is on the wire again, and decodes to the joined paths. */
  lemma HopIsWire(base: Url, text: string)
    requires Rooted(base) && IsWire(text)
    ensures IsWire(HopText(base, text))
    ensures Decode(HopText(base, text)) == Some(JoinPath(base.path, Decode(text).value))
  {
    var sent := JoinUrlPath(base, Parsed(text));
    RootedPaths(base);
    WirePathIsRooted(text);
    JoinedIsBytes(base.path, Parsed(text).path);
    JoinIsRooted(base.path, Parsed(text).path);
    EscapedPathDecodes(sent);
    EmptyDecodes(EscapedPath(sent));
    SentIsRooted(base, text);
  }

  lemma SentIsRooted(base: Url, text: string)
    requires Rooted(base) && IsWire(text)
    ensures HopText(base, text) != "" && HopText(base, text)[0] == '/'
  {
    var sent := JoinUrlPath(base, Parsed(text));
    RootedPaths(base);
    WirePathIsRooted(text);
    ReparsedText(text);
    JoinedIsBytes(base.path, Parsed(text).path);
    JoinIsRooted(base.path, Parsed(text).path);
    JoinIsRooted(EscapedPath(base), text);
    EscapeFirst(sent.path[0]);
    assert Escape(sent.path, false) == EscapeByte(sent.path[0], false) + Escape(sent.path[1..], false);
  }

  lemma TrimsPlainlyIff(a: string, b: string)
    requires (a == "" || a[0] == '/') && b != "" && b[0] == '/'
    ensures TrimsPlainSlashes(a, b) <==> !EndsWithEncodedSlash(a)
  {
    assert |b| >= 3 ==> b[..3][0] == '/';
  }

  lemma NoAsterisk(base: Url, text: string)
    requires Rooted(base) && IsWire(text)
    ensures !EscapesAsterisk(base, Parsed(text))
  {
    RootedPaths(base);
    WirePathIsRooted(text);
  }

  /** One hop keeps the text byte for byte, joined with its base, exactly if the base ends in no encoded slash. */
  lemma HopIsByteForByteIff(base: Url, text: string)
    requires Rooted(base) && IsWire(text)
    ensures HopText(base, text) == JoinPath(EscapedPath(base), text) <==> !EndsWithEncodedSlash(EscapedPath(base))
  {
    ReparsedText(text);
    NoAsterisk(base, text);
    TrimsPlainlyIff(EscapedPath(base), text);
    RelayedByteForByteIff(base, Parsed(text));
  }

  // ------------------------------------------------------------------------ chain

  ghost predicate AllRooted(bases: seq<Url>) {
    forall i :: 0 <= i < |bases| ==> Rooted(bases[i])
  }

  /** The text that arrives behind forwarders with these bases, nearest first. */
  ghost function WireThrough(bases: seq<Url>, text: string): string
    requires AllRooted(bases) && IsWire(text)
  {
    if bases == [] then text
    else
      HopIsWire(bases[0], text);
      WireThrough(bases[1..], HopText(bases[0], text))
  }

  function BaseTexts(bases: seq<Url>): (texts: seq<string>)
    requires forall i :: 0 <= i < |bases| ==> IsBytes(bases[i].path)
    ensures |texts| == |bases|
    ensures forall i :: 0 <= i < |bases| ==> texts[i] == EscapedPath(bases[i])
  {
    seq(|bases|, i requires 0 <= i < |bases| => EscapedPath(bases[i]))
  }

  ghost predicate SomeEndsEncoded(bases: seq<Url>)
    requires AllRooted(bases)
  {
    exists i :: 0 <= i < |bases| && Rooted(bases[i]) && EndsWithEncodedSlash(EscapedPath(bases[i]))
  }

  /** The length of the decoded path. */
  function Size(text: string): nat
    requires Decode(text).Some?
  {
    |Decode(text).value|
  }

  /** The bytewise join is on the wire too. */
  lemma JoinIsWire(base: Url, text: string)
    requires Rooted(base) && IsWire(text)
    ensures IsWire(JoinPath(EscapedPath(base), text))
    ensures Size(JoinPath(EscapedPath(base), text))
         == if base.path == "" || base.path == "/" then Size(text)
            else |base.path| - (if EndsPlain(base) then 1 else 0) + Size(text)
  {
    RootedPaths(base);
    var eb := EscapedPath(base);
    JoinIsRooted(eb, text);
    JoinStands(eb, text);
    if eb != "" && eb != "/" {
      SuffixDecodes(eb);
      JoinWithRooted(eb, text);
      UnescapeConcat(TrimSlashSuffix(eb), text, false);
      assert IsBytes(Decode(TrimSlashSuffix(eb)).value);
    }
  }

  predicate EndsPlain(base: Url)
    requires IsBytes(base.path)
  {
    EscapedPath(base) != "" && EscapedPath(base)[|EscapedPath(base)| - 1] == '/'
  }

  lemma HopSize(base: Url, text: string)
    requires Rooted(base) && IsWire(text)
    ensures Decode(HopText(base, text)).Some?
    ensures Size(HopText(base, text))
         == if base.path == "" || base.path == "/" then Size(text)
            else
              var ends := EndsPlain(base) || EndsWithEncodedSlash(EscapedPath(base));
              |base.path| - (if ends then 1 else 0) + Size(text)
  {
    HopIsWire(base, text);
    RootedPaths(base);
    WirePathIsRooted(text);
    if base.path != "" && base.path != "/" {
      SuffixDecodes(EscapedPath(base));
      JoinWithRooted(base.path, Decode(text).value);
    }
  }

  /** An encoded slash is not a plain one. */
  lemma EncodedIsNotPlain(base: Url)
    requires IsBytes(base.path) && EndsWithEncodedSlash(EscapedPath(base))
    ensures !EndsPlain(base)
  {
    var eb := EscapedPath(base);
    assert eb[|eb| - 3..][2] == eb[|eb| - 1];
  }

  /** The text that bytewise joining would give. */
  ghost function JoinedThrough(bases: seq<Url>, text: string): string
    requires AllRooted(bases) && IsWire(text)
  {
    if bases == [] then text
    else
      JoinIsWire(bases[0], text);
      JoinedThrough(bases[1..], JoinPath(EscapedPath(bases[0]), text))
  }

  /** A text that has lost a slash stays shorter than the bytewise join. */
  lemma {:induction false} LostSlashesStayLost(bases: seq<Url>, sent: string, kept: string)
    requires AllRooted(bases) && IsWire(sent) && IsWire(kept)
    requires Size(sent) <= Size(kept) && (Size(sent) < Size(kept) || SomeEndsEncoded(bases))
    ensures WireThrough(bases, sent) != JoinedThrough(bases, kept)
    decreases |bases|
  {
    if bases != [] {
      var base := bases[0];
      HopIsWire(base, sent);
      HopSize(base, sent);
      JoinIsWire(base, kept);
      RootedPaths(base);
      if EndsWithEncodedSlash(EscapedPath(base)) {
        EncodedIsNotPlain(base);
      } else if SomeEndsEncoded(bases) {
        var i :| 0 <= i < |bases| && Rooted(bases[i]) && EndsWithEncodedSlash(EscapedPath(bases[i]));
        assert i > 0 && bases[1..][i - 1] == bases[i];
      }
      LostSlashesStayLost(bases[1..], HopText(base, sent), JoinPath(EscapedPath(base), kept));
    }
  }

  lemma {:induction false} PlainBasesKeepText(bases: seq<Url>, text: string)
    requires AllRooted(bases) && IsWire(text) && !SomeEndsEncoded(bases)
    ensures WireThrough(bases, text) == JoinedThrough(bases, text)
    decreases |bases|
  {
    if bases != [] {
      assert Rooted(bases[0]);
      HopIsWire(bases[0], text);
      JoinIsWire(bases[0], text);
      HopIsByteForByteIff(bases[0], text);
      assert forall i :: 0 <= i < |bases[1..]| ==> bases[1..][i] == bases[i + 1];
      PlainBasesKeepText(bases[1..], HopText(bases[0], text));
    }
  }

  lemma {:induction false} JoinedThroughIsSent(bases: seq<Url>, text: string)
    requires AllRooted(bases) && IsWire(text)
    ensures JoinedThrough(bases, text) == SentThrough(BaseTexts(bases), text)
    decreases |bases|
  {
    if bases != [] {
      JoinIsWire(bases[0], text);
      assert BaseTexts(bases)[1..] == BaseTexts(bases[1..]);
      JoinedThroughIsSent(bases[1..], JoinPath(EscapedPath(bases[0]), text));
    }
  }

  /**
   * Through any number of forwarders the path text arrives as one forwarder
   * with the joined base text would send it, escapes byte for byte, exactly if
   * no base path ends in an encoded slash; the request's own text never matters.
   */
  lemma ChainIsByteForByteIff(bases: seq<Url>, text: string)
    requires AllRooted(bases) && IsWire(text)
    ensures WireThrough(bases, text) == JoinPath(JoinedBase(BaseTexts(bases)), text) <==> !SomeEndsEncoded(bases)
  {
    JoinedThroughIsSent(bases, text);
    ChainOfForwardersIsOne(BaseTexts(bases), text);
    if SomeEndsEncoded(bases) {
      LostSlashesStayLost(bases, text, text);
    } else {
      PlainBasesKeepText(bases, text);
    }
  }

  // ------------------------------------------------------------ what clients may send

  /** A path of section 3.3 of RFC 3986: slashes, pchars and whole escapes. */
  predicate IsRfcPath(s: string) {
    if s == "" then true
    else if s[0] == '%' then
      |s| >= 3 && s[1] in "0123456789ABCDEFabcdef" && s[2] in "0123456789ABCDEFabcdef" && IsRfcPath(s[3..])
    else (Unreserved(s[0]) || s[0] in "!$&'()*+,;=" || s[0] in ":@/") && IsRfcPath(s[1..])
  }

  lemma HexIs(c: char)
    requires c in "0123456789ABCDEFabcdef"
    ensures IsHex(c)
  {
    var i :| 0 <= i < 22 && "0123456789ABCDEFabcdef"[i] == c;
  }

  /** A raw path may hold the characters of section 3.3 of RFC 3986, brackets and percent signs as they are. */
  lemma MayStandIs(c: char)
    ensures MayStand(c) <==> Unreserved(c) || c in "!$&'()*+,;=" || c in ":@/[]%"
  {
    SafeIs(c, true);
    StandsIs(c);
  }

  lemma StandsIs(c: char)
    ensures MayStand(c) <==> Safe(c, true) || c in "!$&'()*+,;=" || c in ":@/[]%"
  {
  }

  lemma SafeStands(c: char)
    requires Safe(c, true)
    ensures MayStand(c) && c != '%' && c as int < 128
  {
  }

  lemma UnreservedStands(c: char)
    requires Unreserved(c)
    ensures MayStand(c) && c != '%' && c as int < 128
  {
    SafeIs(c, true);
    SafeStands(c);
  }

  lemma DelimiterStands(c: char)
    requires c in "!$&'()*+,;=" || c in ":@/"
    ensures MayStand(c) && c != '%' && c as int < 128
  {
  }

  lemma HexStands(c: char)
    requires IsHex(c)
    ensures MayStand(c) && c as int < 128
  {
  }

  predicate Stands(s: string) {
    ValidEncoded(s) && IsBytes(s) && Decode(s).Some?
  }

  lemma StandsAfterByte(c: char, rest: string)
    requires MayStand(c) && c != '%' && c as int < 128 && Stands(rest)
    ensures Stands([c] + rest)
  {
    assert ([c] + rest)[1..] == rest;
  }

  lemma StandsAfterEscape(x: char, y: char, rest: string)
    requires IsHex(x) && IsHex(y) && Stands(rest)
    ensures Stands(['%', x, y] + rest)
  {
    HexStands(x);
    HexStands(y);
    assert (['%', x, y] + rest)[3..] == rest;
  }

  lemma {:induction false} RfcPathStands(s: string)
    requires IsRfcPath(s)
    ensures Stands(s)
    decreases |s|
  {
    if s == "" {
    } else if s[0] == '%' {
      RfcPathStands(s[3..]);
      HexIs(s[1]);
      HexIs(s[2]);
      StandsAfterEscape(s[1], s[2], s[3..]);
      assert s == ['%', s[1], s[2]] + s[3..];
    } else {
      RfcPathStands(s[1..]);
      if Unreserved(s[0]) {
        UnreservedStands(s[0]);
      } else {
        DelimiterStands(s[0]);
      }
      StandsAfterByte(s[0], s[1..]);
      assert s == [s[0]] + s[1..];
    }
  }

  /** Every rooted path that a client may send travels as it is. */
  lemma RfcPathIsWire(s: string)
    requires s != "" && s[0] == '/' && IsRfcPath(s)
    ensures IsWire(s)
  {
    RfcPathStands(s);
    DecodedIsBytes(s, false);
  }
}
