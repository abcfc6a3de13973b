/**
 * Signed cookies: `s:value.signature`, usually query-escaped.  The keyed
 * digest is a parameter; its base64 form, stripped of padding, is not.
 */
module Cookies {
  import opened Common
  import opened Percent

  /** A keyed digest: payload and secret to digest bytes. */
  type Mac = (string, string) -> string

  /** The base64 alphabet. */
  function Sextet(v: nat): (c: char)
    requires v < 64
    ensures c != '.' && c != '%' && c as int < 256
  {
    if v < 26 then (v + 65) as char
    else if v < 52 then (v + 71) as char
    else if v < 62 then (v - 4) as char
    else if v == 62 then '+' else '/'
  }

  /** Standard base64 (section 4 of RFC 4648) without the trailing padding. */
  function Base64(bytes: string): (r: string)
    requires IsBytes(bytes)
    ensures '.' !in r && '%' !in r && IsBytes(r)
  {
    if |bytes| == 0 then ""
    else
      var a := bytes[0] as int;
      if |bytes| == 1 then [Sextet(a / 4), Sextet(a % 4 * 16)]
      else
        var b := bytes[1] as int;
        if |bytes| == 2 then [Sextet(a / 4), Sextet(a % 4 * 16 + b / 16), Sextet(b % 16 * 4)]
        else
          var c := bytes[2] as int;
          [Sextet(a / 4), Sextet(a % 4 * 16 + b / 16), Sextet(b % 16 * 4 + c / 64), Sextet(c % 64)] + Base64(bytes[3..])
  }

  ghost predicate Digests(mac: Mac) {
    forall payload, secret :: IsBytes(mac(payload, secret))
  }

  function Signature(mac: Mac, payload: string, secret: string): string
    requires IsBytes(mac(payload, secret))
  {
    Base64(mac(payload, secret))
  }

  /** The cookie value after the one decoding that is tried. */
  function Decoded(value: string): string {
    if '%' in value && Unescape(value, true).Some? then Unescape(value, true).value else value
  }

  function SignedText(mac: Mac, payload: string, secret: string): string
    requires IsBytes(mac(payload, secret))
  {
    "s:" + payload + "." + Signature(mac, payload, secret)
  }

  /** value carries this payload, correctly signed. */
  ghost predicate Carries(mac: Mac, secret: string, value: string, payload: string)
    requires Digests(mac)
  {
    payload != "" && Decoded(value) == SignedText(mac, payload, secret)
  }

  /** strings.LastIndex for a dot; -1 when there is none. */
  function LastDot(s: string): (i: int)
    ensures -1 <= i < |s|
    ensures i >= 0 ==> s[i] == '.'
    ensures forall j :: i < j < |s| ==> s[j] != '.'
  {
    if s == "" then -1
    else if s[|s| - 1] == '.' then |s| - 1
    else LastDot(s[..|s| - 1])
  }

  /** What follows the prefix, split at its last dot and checked. */
  function CheckedPayload(mac: Mac, secret: string, rest: string): Option<string>
    requires Digests(mac)
  {
    var dot := LastDot(rest);
    if dot > 0 && Signature(mac, rest[..dot], secret) == rest[dot + 1..] then Some(rest[..dot]) else None
  }

  /** One turn of the verification loop: the payload of a cookie that verifies. */
  function VerifiedPayload(mac: Mac, secret: string, value: string): Option<string>
    requires Digests(mac)
  {
    var text := Decoded(value);
    if |text| < 2 || text[..2] != "s:" then None else CheckedPayload(mac, secret, text[2..])
  }

  lemma {:induction false} LastDotIs(payload: string, sig: string)
    requires '.' !in sig
    ensures LastDot(payload + "." + sig) == |payload|
    decreases |sig|
  {
    var rest := payload + "." + sig;
    if sig == "" {
      assert rest[|rest| - 1] == '.';
    } else {
      LastDotIs(payload, sig[..|sig| - 1]);
      assert rest[|rest| - 1] == sig[|sig| - 1];
      assert rest[..|rest| - 1] == payload + "." + sig[..|sig| - 1];
    }
  }

  lemma SignedRestIsChecked(mac: Mac, secret: string, payload: string)
    requires Digests(mac) && payload != ""
    ensures CheckedPayload(mac, secret, payload + "." + Signature(mac, payload, secret)) == Some(payload)
  {
    var sig := Signature(mac, payload, secret);
    var rest := payload + "." + sig;
    LastDotIs(payload, sig);
    assert rest[..|payload|] == payload;
    assert rest[|payload| + 1..] == sig;
  }

  lemma CheckedRestIsSigned(mac: Mac, secret: string, rest: string)
    requires Digests(mac) && CheckedPayload(mac, secret, rest).Some?
    ensures var payload := CheckedPayload(mac, secret, rest).value;
            payload != "" && rest == payload + "." + Signature(mac, payload, secret)
  {
    var dot := LastDot(rest);
    assert rest == rest[..dot] + [rest[dot]] + rest[dot + 1..];
  }

  /** A cookie verifies exactly when it is a payload with its own signature, and then for that payload only. */
  lemma VerifiesIffSigned(mac: Mac, secret: string, value: string, payload: string)
    requires Digests(mac)
    ensures VerifiedPayload(mac, secret, value) == Some(payload) <==> Carries(mac, secret, value, payload)
  {
    var text := Decoded(value);
    if Carries(mac, secret, value, payload) {
      assert text == "s:" + (payload + "." + Signature(mac, payload, secret));
      assert text[2..] == payload + "." + Signature(mac, payload, secret);
      SignedRestIsChecked(mac, secret, payload);
    }
    if VerifiedPayload(mac, secret, value) == Some(payload) {
      CheckedRestIsSigned(mac, secret, text[2..]);
      assert text == text[..2] + text[2..];
    }
  }

  // ---------------------------------------------------------------- round trips

  lemma {:induction false} UnsafeByteIsEscaped(text: string, i: nat)
    requires IsBytes(text) && i < |text| && text[i] != ' ' && !Safe(text[i], true)
    ensures '%' in Escape(text, true)
  {
    if i == 0 {
      assert EscapeByte(text[0], true)[0] == '%';
    } else {
      UnsafeByteIsEscaped(text[1..], i - 1);
    }
  }

  /** A signed value, escaped once, verifies to exactly that value, whenever it is not empty. */
  lemma EscapedCookieVerifiesIff(mac: Mac, secret: string, payload: string)
    requires Digests(mac) && IsBytes(payload)
    ensures IsBytes(SignedText(mac, payload, secret))
    ensures VerifiedPayload(mac, secret, Escape(SignedText(mac, payload, secret), true)) == Some(payload)
            <==> payload != ""
  {
    var text := SignedText(mac, payload, secret);
    assert IsBytes(text);
    assert text[1] == ':';
    UnsafeByteIsEscaped(text, 1);
    UnescapeEscape(text, true);
    VerifiesIffSigned(mac, secret, Escape(text, true), payload);
  }

  lemma {:induction false} DecodingShortens(s: string)
    requires Unescape(s, true).Some?
    ensures |Unescape(s, true).value| <= |s|
    ensures '%' in s ==> |Unescape(s, true).value| < |s|
    decreases |s|
  {
    if s != "" {
      var n := TokenLength(s);
      DecodingShortens(s[n..]);
      assert s == s[..n] + s[n..];
      assert n == 1 ==> s[..n] == [s[0]];
    }
  }

  /** Sent unescaped, it verifies exactly when decoding leaves it alone: no percent sign, or a malformed escape. */
  lemma PlainCookieVerifiesIff(mac: Mac, secret: string, payload: string)
    requires Digests(mac)
    ensures var value := SignedText(mac, payload, secret);
            VerifiedPayload(mac, secret, value) == Some(payload)
            <==> payload != "" && ('%' !in payload || Unescape(value, true).None?)
  {
    var value := SignedText(mac, payload, secret);
    VerifiesIffSigned(mac, secret, value, payload);
    assert '%' in value <==> '%' in payload;
    if '%' in value && Unescape(value, true).Some? {
      DecodingShortens(value);
    }
  }

  // ------------------------------------------------------------------- the loop

  datatype Cookie = Cookie(name: string, value: string)

  /** The payload of the last cookie of this name that verifies. */
  function LastVerified(mac: Mac, secret: string, cookies: seq<Cookie>, name: string): Option<string>
    requires Digests(mac)
  {
    if cookies == [] then None
    else
      var n := |cookies| - 1;
      var p := VerifiedPayload(mac, secret, cookies[n].value);
      if cookies[n].name == name && p.Some? then p else LastVerified(mac, secret, cookies[..n], name)
  }

  /** Appending a cookie replaces the entry of its name when it verifies. */
  lemma OneMoreCookie(mac: Mac, secret: string, cookies: seq<Cookie>, i: nat, name: string)
    requires Digests(mac) && i < |cookies|
    ensures LastVerified(mac, secret, cookies[..i + 1], name)
         == var p := VerifiedPayload(mac, secret, cookies[i].value);
            if cookies[i].name == name && p.Some? then p else LastVerified(mac, secret, cookies[..i], name)
  {
    assert cookies[..i + 1][..i] == cookies[..i];
  }

  /** verifySignedCookies. */
  method VerifySignedCookies(mac: Mac, secret: string, cookies: seq<Cookie>) returns (out: map<string, string>)
    requires Digests(mac)
    ensures forall name :: name in out <==> LastVerified(mac, secret, cookies, name).Some?
    ensures forall name :: name in out ==> out[name] == LastVerified(mac, secret, cookies, name).value
  {
    out := map[];
    for i := 0 to |cookies|
      invariant forall name :: name in out <==> LastVerified(mac, secret, cookies[..i], name).Some?
      invariant forall name :: name in out ==> out[name] == LastVerified(mac, secret, cookies[..i], name).value
    {
      var c := cookies[i];
      forall name {
        OneMoreCookie(mac, secret, cookies, i, name);
      }
      var text := Decoded(c.value);
      if |text| >= 2 && text[..2] == "s:" {
        var rest := text[2..];
        var dot := LastDot(rest);
        if dot > 0 && Signature(mac, rest[..dot], secret) == rest[dot + 1..] {
          out := out[c.name := rest[..dot]];
        }
      }
    }
    assert cookies[..|cookies|] == cookies;
  }

  lemma {:induction false} LastVerifiedFrom(mac: Mac, secret: string, cookies: seq<Cookie>, i: nat)
    requires Digests(mac) && i < |cookies|
    requires VerifiedPayload(mac, secret, cookies[i].value).Some?
    requires forall j :: i < j < |cookies| && cookies[j].name == cookies[i].name
                         ==> VerifiedPayload(mac, secret, cookies[j].value).None?
    ensures LastVerified(mac, secret, cookies, cookies[i].name) == VerifiedPayload(mac, secret, cookies[i].value)
  {
    if i < |cookies| - 1 {
      LastVerifiedFrom(mac, secret, cookies[..|cookies| - 1], i);
    }
  }

  /** The payload of the last cookie of a name that carries one stands in the result. */
  lemma LastVerifiedIsLast(mac: Mac, secret: string, cookies: seq<Cookie>, i: nat, payload: string)
    requires Digests(mac) && i < |cookies| && Carries(mac, secret, cookies[i].value, payload)
    requires forall j, p :: i < j < |cookies| && cookies[j].name == cookies[i].name
                            ==> !Carries(mac, secret, cookies[j].value, p)
    ensures LastVerified(mac, secret, cookies, cookies[i].name) == Some(payload)
  {
    VerifiesIffSigned(mac, secret, cookies[i].value, payload);
    forall j | i < j < |cookies| && cookies[j].name == cookies[i].name
      ensures VerifiedPayload(mac, secret, cookies[j].value).None?
    {
      var v := VerifiedPayload(mac, secret, cookies[j].value);
      if v.Some? {
        VerifiesIffSigned(mac, secret, cookies[j].value, v.value);
      }
    }
    LastVerifiedFrom(mac, secret, cookies, i);
  }

  /** A name none of whose cookies carries a payload is absent. */
  lemma {:induction false} NeverVerified(mac: Mac, secret: string, cookies: seq<Cookie>, name: string)
    requires Digests(mac)
    requires forall j, p :: 0 <= j < |cookies| && cookies[j].name == name ==> !Carries(mac, secret, cookies[j].value, p)
    ensures LastVerified(mac, secret, cookies, name).None?
  {
    if cookies != [] {
      var n := |cookies| - 1;
      var v := VerifiedPayload(mac, secret, cookies[n].value);
      if cookies[n].name == name && v.Some? {
        VerifiesIffSigned(mac, secret, cookies[n].value, v.value);
        assert false;
      }
      NeverVerified(mac, secret, cookies[..n], name);
    }
  }

  // ---------------------------------------------------------- what a signature is

  /** The alphabet of section 4 of RFC 4648, in four runs. */
  const UPPER := "ABCDEFGHIJKLMNOPQRSTUVWXYZ"
  const LOWER := "abcdefghijklmnopqrstuvwxyz"
  const DIGITS := "0123456789"

  function Alphabet(): string {
    UPPER + LOWER + DIGITS + "+/"
  }

  /** The first position of c. */
  function Position(s: string, c: char): Option<nat> {
    if s == "" then None
    else if s[0] == c then Some(0)
    else
      var p := Position(s[1..], c);
      if p.None? then None else Some(p.value + 1)
  }

  /** Decode unpadded base64 by looking every character up; None for anything else. */
  function FromBase64(text: string): Option<string> {
    if text == "" then Some("")
    else if |text| == 1 then None
    else
      var a, b := Position(Alphabet(), text[0]), Position(Alphabet(), text[1]);
      if a.None? || b.None? || a.value >= 64 || b.value >= 64 then None
      else
        var first := (a.value * 4 + b.value / 16) as char;
        if |text| == 2 then Some([first])
        else
          var c := Position(Alphabet(), text[2]);
          if c.None? || c.value >= 64 then None
          else
            var second := (b.value % 16 * 16 + c.value / 4) as char;
            if |text| == 3 then Some([first, second])
            else
              var d, rest := Position(Alphabet(), text[3]), FromBase64(text[4..]);
              if d.None? || d.value >= 64 || rest.None? then None
              else Some([first, second, (c.value % 4 * 64 + d.value) as char] + rest.value)
  }

  lemma RunsAre()
    ensures |UPPER| == 26 && forall k :: 0 <= k < 26 ==> UPPER[k] as int == 65 + k
    ensures |LOWER| == 26 && forall k :: 0 <= k < 26 ==> LOWER[k] as int == 97 + k
    ensures |DIGITS| == 10 && forall k :: 0 <= k < 10 ==> DIGITS[k] as int == 48 + k
  {
  }

  lemma SextetIs(v: nat)
    requires v < 64
    ensures |Alphabet()| == 64 && Alphabet()[v] == Sextet(v)
  {
    RunsAre();
    Runs(UPPER, LOWER, DIGITS, "+/", v);
  }

  /** Where a position of the alphabet falls. */
  lemma Runs(a: string, b: string, c: string, d: string, v: nat)
    requires |a| == 26 && |b| == 26 && |c| == 10 && |d| == 2 && v < 64
    ensures |a + b + c + d| == 64
    ensures (a + b + c + d)[v]
         == if v < 26 then a[v] else if v < 52 then b[v - 26] else if v < 62 then c[v - 52] else d[v - 62]
  {
  }

  lemma {:induction false} PositionIs(s: string, i: nat)
    requires i < |s| && forall j :: 0 <= j < i ==> s[j] != s[i]
    ensures Position(s, s[i]) == Some(i)
  {
    if i > 0 {
      assert s[1..][i - 1] == s[i];
      PositionIs(s[1..], i - 1);
    }
  }

  lemma SextetIsFound(v: nat)
    requires v < 64
    ensures Position(Alphabet(), Sextet(v)) == Some(v)
  {
    SextetIs(v);
    forall j | 0 <= j < v ensures Alphabet()[j] != Alphabet()[v] {
      SextetIs(j);
      SextetIsInjective(j, v);
    }
    PositionIs(Alphabet(), v);
  }

  lemma SextetIsInjective(a: nat, b: nat)
    requires a < b < 64
    ensures Sextet(a) != Sextet(b)
  {
  }

  lemma {:induction false} Base64Length(bytes: string)
    requires IsBytes(bytes)
    ensures |Base64(bytes)| == (4 * |bytes| + 2) / 3
    decreases |bytes|
  {
    if |bytes| >= 3 {
      Base64Length(bytes[3..]);
    }
  }

  /** Three bytes as four sextets, and back. */
  lemma SextetsOf(a: nat, b: nat, c: nat)
    requires a < 256 && b < 256 && c < 256
    ensures a / 4 < 64 && a % 4 * 16 + b / 16 < 64 && b % 16 * 4 + c / 64 < 64 && c % 64 < 64
    ensures a / 4 * 4 + (a % 4 * 16 + b / 16) / 16 == a
    ensures (a % 4 * 16 + b / 16) % 16 * 16 + (b % 16 * 4 + c / 64) / 4 == b
    ensures (b % 16 * 4 + c / 64) % 4 * 64 + c % 64 == c
  {
    assert (a % 4 * 16 + b / 16) / 16 == a % 4 && (a % 4 * 16 + b / 16) % 16 == b / 16;
    assert (b % 16 * 4 + c / 64) / 4 == b % 16 && (b % 16 * 4 + c / 64) % 4 == c / 64;
  }

  lemma OneRoundTrip(bytes: string)
    requires IsBytes(bytes) && |bytes| == 1
    ensures FromBase64(Base64(bytes)) == Some(bytes)
  {
    var a := bytes[0] as int;
    assert (a % 4 * 16) / 16 == a % 4;
    PairDecodes(a / 4, a % 4 * 16, bytes);
  }

  lemma TwoRoundTrip(bytes: string)
    requires IsBytes(bytes) && |bytes| == 2
    ensures FromBase64(Base64(bytes)) == Some(bytes)
  {
    var a, b := bytes[0] as int, bytes[1] as int;
    SextetsOf(a, b, 0);
    TripleDecodes(a / 4, a % 4 * 16 + b / 16, b % 16 * 4, bytes);
  }

  lemma MoreRoundTrip(bytes: string)
    requires IsBytes(bytes) && |bytes| > 2 && FromBase64(Base64(bytes[3..])) == Some(bytes[3..])
    ensures FromBase64(Base64(bytes)) == Some(bytes)
  {
    var p, q, r, t := EncodedGroup(bytes);
    GroupDecodes(p, q, r, t, Base64(bytes[3..]), bytes);
  }

  /** The four sextets that three bytes and more are encoded with. */
  lemma EncodedGroup(bytes: string) returns (p: nat, q: nat, r: nat, t: nat)
    requires IsBytes(bytes) && |bytes| > 2
    ensures p < 64 && q < 64 && r < 64 && t < 64
    ensures Base64(bytes) == [Sextet(p), Sextet(q), Sextet(r), Sextet(t)] + Base64(bytes[3..])
    ensures bytes[0] as int == p * 4 + q / 16 && bytes[1] as int == q % 16 * 16 + r / 4
    ensures bytes[2] as int == r % 4 * 64 + t
  {
    var a, b, c := bytes[0] as int, bytes[1] as int, bytes[2] as int;
    SextetsOf(a, b, c);
    p, q, r, t := a / 4, a % 4 * 16 + b / 16, b % 16 * 4 + c / 64, c % 64;
  }

  /** Decoding gives back every byte string. */
  lemma {:induction false} Base64RoundTrip(bytes: string)
    requires IsBytes(bytes)
    ensures FromBase64(Base64(bytes)) == Some(bytes)
    decreases |bytes|
  {
    if |bytes| == 1 {
      OneRoundTrip(bytes);
    } else if |bytes| == 2 {
      TwoRoundTrip(bytes);
    } else if |bytes| > 2 {
      Base64RoundTrip(bytes[3..]);
      MoreRoundTrip(bytes);
    }
  }

  lemma PairDecodes(a: nat, b: nat, bytes: string)
    requires a < 64 && b < 64 && |bytes| == 1 && bytes[0] as int == a * 4 + b / 16
    ensures FromBase64([Sextet(a), Sextet(b)]) == Some(bytes)
  {
    SextetIsFound(a);
    SextetIsFound(b);
    assert bytes == [bytes[0]];
  }

  lemma TripleDecodes(a: nat, b: nat, c: nat, bytes: string)
    requires a < 64 && b < 64 && c < 64 && |bytes| == 2
    requires bytes[0] as int == a * 4 + b / 16 && bytes[1] as int == b % 16 * 16 + c / 4
    ensures FromBase64([Sextet(a), Sextet(b), Sextet(c)]) == Some(bytes)
  {
    SextetIsFound(a);
    SextetIsFound(b);
    SextetIsFound(c);
    assert bytes == [bytes[0], bytes[1]];
  }

  /** One group of four characters and what follows. */
  lemma GroupDecodes(a: nat, b: nat, c: nat, d: nat, rest: string, bytes: string)
    requires a < 64 && b < 64 && c < 64 && d < 64 && |bytes| >= 3 && FromBase64(rest) == Some(bytes[3..])
    requires bytes[0] as int == a * 4 + b / 16 && bytes[1] as int == b % 16 * 16 + c / 4
    requires bytes[2] as int == c % 4 * 64 + d
    ensures FromBase64([Sextet(a), Sextet(b), Sextet(c), Sextet(d)] + rest) == Some(bytes)
  {
    var text := [Sextet(a), Sextet(b), Sextet(c), Sextet(d)] + rest;
    SextetIsFound(a);
    SextetIsFound(b);
    SextetIsFound(c);
    SextetIsFound(d);
    assert text[4..] == rest;
    assert bytes == [bytes[0], bytes[1], bytes[2]] + bytes[3..];
  }

  /** Different digests have different signatures. */
  lemma SignatureTellsDigest(mac: Mac, payload: string, secret: string, payload': string, secret': string)
    requires Digests(mac) && Signature(mac, payload, secret) == Signature(mac, payload', secret')
    ensures mac(payload, secret) == mac(payload', secret')
  {
    Base64RoundTrip(mac(payload, secret));
    Base64RoundTrip(mac(payload', secret'));
  }

  /**
   * A cookie verifies for a payload exactly if its decoded text is "s:", the
   * payload, a dot, and the one unpadded base64 text of the digest of that
   * payload under the secret.
   */
  lemma CookieIsGenuineIff(mac: Mac, secret: string, value: string, payload: string)
    requires Digests(mac)
    ensures VerifiedPayload(mac, secret, value) == Some(payload)
            <==> payload != "" && exists sig ::
                   && Decoded(value) == "s:" + payload + "." + sig
                   && sig == Base64(mac(payload, secret)) && FromBase64(sig) == Some(mac(payload, secret))
  {
    VerifiesIffSigned(mac, secret, value, payload);
    Base64RoundTrip(mac(payload, secret));
    if Carries(mac, secret, value, payload) {
      var sig := Base64(mac(payload, secret));
      assert Decoded(value) == "s:" + payload + "." + sig;
    }
  }

  /** The cookie value is query-decoded once when it holds a percent sign and decodes, and taken as it is otherwise. */
  lemma DecodedIs(value: string)
    ensures '%' !in value || Unescape(value, true).None? ==> Decoded(value) == value
    ensures '%' in value && Unescape(value, true).Some? ==> Some(Decoded(value)) == Unescape(value, true)
  {
  }
}
