/**
 * Percent-encoding (section 2.1 of RFC 3986) as net/url does it, for paths
 * and, with `query`, for query components, where a space travels as a plus.
 * Texts are byte strings: every character is below 256.
 */
module Percent {
  import opened Common
  import opened Text

  predicate IsBytes(s: string) {
    forall i :: 0 <= i < |s| ==> s[i] as int < 256
  }

  predicate IsHex(c: char) {
    '0' <= c <= '9' || 'a' <= c <= 'f' || 'A' <= c <= 'F'
  }

  function HexValue(c: char): (v: nat)
    requires IsHex(c)
    ensures v < 16
  {
    if c <= '9' then c as int - '0' as int
    else if c <= 'F' then c as int - 'A' as int + 10
    else c as int - 'a' as int + 10
  }

  function HexDigit(v: nat): (c: char)
    requires v < 16
    ensures IsHex(c) && HexValue(c) == v
  {
    "0123456789ABCDEF"[v]
  }

  /** One byte on its own, or one escape. */
  predicate IsToken(t: string) {
    (|t| == 1 && t[0] != '%') || (|t| == 3 && t[0] == '%' && IsHex(t[1]) && IsHex(t[2]))
  }

  /** The byte that a token stands for. */
  function TokenByte(t: string, query: bool): char
    requires IsToken(t)
  {
    if |t| == 3 then (16 * HexValue(t[1]) + HexValue(t[2])) as char
    else if query && t[0] == '+' then ' '
    else t[0]
  }

  /** The length of the token that s begins with; zero when its escape is malformed. */
  function TokenLength(s: string): (n: nat)
    requires s != ""
    ensures n <= |s| && (n > 0 ==> IsToken(s[..n]))
  {
    if s[0] != '%' then 1
    else if |s| >= 3 && IsHex(s[1]) && IsHex(s[2]) then 3
    else 0
  }

  /** Decoding; None when an escape is malformed. */
  function Unescape(s: string, query: bool): Option<string>
    decreases |s|
  {
    if s == "" then Some("")
    else
      var n := TokenLength(s);
      if n == 0 then None else Prepend(TokenByte(s[..n], query), Unescape(s[n..], query))
  }

  function Prepend(c: char, rest: Option<string>): Option<string> {
    if rest.None? then None else Some([c] + rest.value)
  }

  /** The bytes that travel unescaped. */
  predicate Safe(c: char, query: bool) {
    'a' <= c <= 'z' || 'A' <= c <= 'Z' || '0' <= c <= '9' || c in "-_.~" || (!query && c in "$&+,/:;=@")
  }

  function EscapeByte(c: char, query: bool): string
    requires c as int < 256
  {
    if query && c == ' ' then "+"
    else if Safe(c, query) then [c]
    else ['%', HexDigit(c as int / 16), HexDigit(c as int % 16)]
  }

  function Escape(s: string, query: bool): string
    requires IsBytes(s)
  {
    if s == "" then "" else EscapeByte(s[0], query) + Escape(s[1..], query)
  }

  lemma PrependConcat(c: char, u: Option<string>, w: string)
    requires u.Some?
    ensures Prepend(c, Some(u.value + w)).value == Prepend(c, u).value + w
  {
  }

  lemma {:induction false} UnescapeConcat(a: string, b: string, query: bool)
    requires Unescape(a, query).Some?
    ensures Unescape(a + b, query)
         == if Unescape(b, query).None? then None else Some(Unescape(a, query).value + Unescape(b, query).value)
    decreases |a|
  {
    if a == "" {
      assert a + b == b;
      assert Unescape(b, query).Some? ==> "" + Unescape(b, query).value == Unescape(b, query).value;
    } else {
      var n := TokenLength(a);
      assert TokenLength(a + b) == n && (a + b)[..n] == a[..n] && (a + b)[n..] == a[n..] + b;
      UnescapeConcat(a[n..], b, query);
      if Unescape(b, query).Some? {
        PrependConcat(TokenByte(a[..n], query), Unescape(a[n..], query), Unescape(b, query).value);
      }
    }
  }

  lemma TokenDecodes(t: string, query: bool)
    requires IsToken(t)
    ensures Unescape(t, query) == Some([TokenByte(t, query)])
  {
    assert TokenLength(t) == |t| && t[..|t|] == t && t[|t|..] == "";
    assert Unescape("", query) == Some("");
    assert [TokenByte(t, query)] + "" == [TokenByte(t, query)];
  }

  lemma UnescapeByte(c: char, query: bool)
    requires c as int < 256
    ensures Unescape(EscapeByte(c, query), query) == Some([c])
  {
    var t := EscapeByte(c, query);
    assert |t| == 3 ==> HexValue(t[1]) == c as int / 16 && HexValue(t[2]) == c as int % 16;
    assert TokenByte(t, query) == c;
    TokenDecodes(t, query);
  }

  /** Decoding undoes encoding, for every byte string. */
  lemma {:induction false} UnescapeEscape(s: string, query: bool)
    requires IsBytes(s)
    ensures Unescape(Escape(s, query), query) == Some(s)
  {
    if s != "" {
      UnescapeEscape(s[1..], query);
      UnescapeByte(s[0], query);
      UnescapeConcat(EscapeByte(s[0], query), Escape(s[1..], query), query);
      assert s == [s[0]] + s[1..];
    }
  }

  // ---------------------------------------------------------------- last token

  /** A valid encoding ends in a token, and what precedes it is valid too. */
  lemma {:induction false} LastToken(s: string, query: bool) returns (p: string, t: string)
    requires s != "" && Unescape(s, query).Some?
    ensures s == p + t && IsToken(t) && Unescape(p, query).Some?
    ensures Unescape(s, query).value == Unescape(p, query).value + [TokenByte(t, query)]
    decreases |s|
  {
    var n := TokenLength(s);
    if |s| == n {
      p, t := "", s;
      assert s[..n] == s;
    } else {
      var p';
      p', t := LastToken(s[n..], query);
      p := s[..n] + p';
      TokenDecodes(s[..n], query);
      UnescapeConcat(s[..n], p', query);
    }
    TokenDecodes(t, query);
    UnescapeConcat(p, t, query);
  }

  /** A valid encoding does not stop inside an escape. */
  lemma NoDanglingEscape(s: string, query: bool)
    requires Unescape(s, query).Some?
    ensures |s| >= 1 ==> s[|s| - 1] != '%'
    ensures |s| >= 2 ==> s[|s| - 2] != '%'
  {
    if s != "" {
      var p, t := LastToken(s, query);
      if p != "" {
        var _, t' := LastToken(p, query);
      }
    }
  }

  // ------------------------------------------------------------ the bytes themselves

  /** The unreserved characters of section 2.3 of RFC 3986. */
  predicate Unreserved(c: char) {
    || c in "ABCDEFGHIJKLMNOPQRSTUVWXYZ" || c in "abcdefghijklmnopqrstuvwxyz" || c in "0123456789" || c in "-._~"
  }

  /** Unescaped travel the unreserved bytes, and in a path the eight that net/url leaves alone there. */
  lemma SafeIs(c: char, query: bool)
    ensures Safe(c, query) <==> Unreserved(c) || (!query && c in "$&+,/:;=@")
  {
    InRun("0123456789", '0', c);
    InRun("ABCDEFGHIJKLMNOPQRSTUVWXYZ", 'A', c);
    InRun("abcdefghijklmnopqrstuvwxyz", 'a', c);
  }

  lemma HexDigitsAre(v: nat)
    requires v < 16
    ensures HexDigit(v) == "0123456789ABCDEF"[v] && IsHex("0123456789abcdef"[v]) && HexValue("0123456789abcdef"[v]) == v
  {
  }

  /** Every other byte is escaped with two upper-case digits, a space in a query with a plus. */
  lemma EscapedByteIs(c: char, query: bool)
    requires c as int < 256
    ensures EscapeByte(c, query)
         == if query && c == ' ' then "+"
            else if Unreserved(c) || (!query && c in "$&+,/:;=@") then [c]
            else ['%', "0123456789ABCDEF"[c as int / 16], "0123456789ABCDEF"[c as int % 16]]
  {
    SafeIs(c, query);
  }

  lemma {:induction false} DecodedIsBytes(s: string, query: bool)
    requires IsBytes(s) && Unescape(s, query).Some?
    ensures IsBytes(Unescape(s, query).value)
    decreases |s|
  {
    if s != "" {
      DecodedIsBytes(s[TokenLength(s)..], query);
    }
  }
}
