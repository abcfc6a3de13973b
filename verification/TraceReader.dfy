/**
 * A reader of the lines of a trace that takes them apart at their spaces,
 * knowing nothing of how they were put together.
 */
module TraceReader {
  import opened Common
  import opened Text
  import T = TraceExchange

  // ---------------------------------------------------------------- numbers

  predicate AllDigits(s: string) {
    s != "" && forall i :: 0 <= i < |s| ==> '0' <= s[i] <= '9'
  }

  /** The value of decimal digits. */
  function Value(digits: string): nat
    requires AllDigits(digits)
  {
    var n := |digits| - 1;
    (if n == 0 then 0 else 10 * Value(digits[..n])) + (digits[n] as int - '0' as int)
  }

  function NumberOf(s: string): Option<nat> {
    if AllDigits(s) then Some(Value(s)) else None
  }

  /** Decimal notation: digits only, no leading zero, and the right value. */
  lemma {:induction false} DecimalReads(n: nat)
    ensures AllDigits(T.Decimal(n)) && (|T.Decimal(n)| > 1 ==> T.Decimal(n)[0] != '0')
    ensures n > 0 ==> T.Decimal(n)[0] != '0'
    ensures Value(T.Decimal(n)) == n
  {
    DigitIs(n % 10);
    if n >= 10 {
      DecimalReads(n / 10);
      var d := T.Decimal(n);
      assert d[..|d| - 1] == T.Decimal(n / 10);
      assert d[0] == T.Decimal(n / 10)[0];
    }
  }

  lemma DigitIs(d: nat)
    requires d < 10
    ensures T.Digit(d) as int == '0' as int + d
  {
  }

  lemma DecimalIsWord(n: nat)
    ensures ' ' !in T.Decimal(n) && NumberOf(T.Decimal(n)) == Some(n)
  {
    DecimalReads(n);
  }

  // ------------------------------------------------------------------ words

  predicate Word(s: string) {
    ' ' !in s
  }

  function Words(text: string): seq<string> {
    Split(text, ' ')
  }

  /** s without this start and this end. */
  function Strip(s: string, start: string, end: string): Option<string> {
    if |start| + |end| <= |s| && s[..|start|] == start && s[|s| - |end|..] == end
    then Some(s[|start|..|s| - |end|]) else None
  }

  lemma StripOf(start: string, middle: string, end: string)
    ensures Strip(start + middle + end, start, end) == Some(middle)
  {
    var s := start + middle + end;
    assert s[..|start|] == start && s[|s| - |end|..] == end && s[|start|..|s| - |end|] == middle;
  }

  /** A number between a start and an end. */
  function Numbered(s: string, start: string, end: string): Option<nat> {
    if Strip(s, start, end).None? then None else NumberOf(Strip(s, start, end).value)
  }

  lemma NumberedOf(start: string, n: nat, end: string)
    ensures Numbered(start + T.Decimal(n) + end, start, end) == Some(n)
  {
    StripOf(start, T.Decimal(n), end);
    DecimalIsWord(n);
  }

  lemma WordConcat(a: string, b: string)
    ensures Word(a + b) <==> Word(a) && Word(b)
  {
  }

  // ---------------------------------------------------------------- requests

  /** The protocol, the TLS version and the server name, the last two empty when they are missing. */
  datatype Connection = Connection(proto: string, tls: string, sni: string)

  function ReadConnection(words: seq<string>): Option<Connection> {
    if |words| == 1 then
      var p := Strip(words[0], "(", ")");
      if p.None? then None else Some(Connection(p.value, "", ""))
    else if |words| == 2 then
      var p, t := Strip(words[0], "(", ","), Strip(words[1], "", ")");
      if p.None? || t.None? then None else Some(Connection(p.value, t.value, ""))
    else if |words| == 3 && words[1] == "SNI" then
      var p, n := Strip(words[0], "(", ","), Strip(words[2], "", ")");
      if p.None? || n.None? then None else Some(Connection(p.value, "", n.value))
    else if |words| == 4 && words[2] == "SNI" then
      var p, t, n := Strip(words[0], "(", ","), Strip(words[1], "", ","), Strip(words[3], "", ")");
      if p.None? || t.None? || n.None? then None else Some(Connection(p.value, t.value, n.value))
    else None
  }

  datatype Incoming = Incoming(id: nat, remote: string, scheme: string, connection: Connection)

  /** The informational line of a request. */
  function ReadRequestInfo(text: string): Option<Incoming> {
    var words := Words(text);
    if |words| < 6 || words[0] != "Request" || words[3] != "\U{2192}" then None
    else
      var id, connection := Numbered(words[1], "#", ":"), ReadConnection(words[5..]);
      if id.None? || connection.None? then None
      else Some(Incoming(id.value, words[2], words[4], connection.value))
  }

  /** The texts of a connection, as the socket, the TLS stack and the request line yield them. */
  predicate PlainConnection(info: T.RequestInfo) {
    Word(info.remoteAddr) && Word(info.scheme) && Word(info.proto) && Word(info.tlsVersion) && Word(info.sni)
  }

  /** The words of the part in parentheses. */
  function ConnectionWords(info: T.RequestInfo): seq<string> {
    if info.tlsVersion == "" && info.sni == "" then ["(" + info.proto + ")"]
    else if info.sni == "" then ["(" + info.proto + ",", info.tlsVersion + ")"]
    else if info.tlsVersion == "" then ["(" + info.proto + ",", "SNI", info.sni + ")"]
    else ["(" + info.proto + ",", info.tlsVersion + ",", "SNI", info.sni + ")"]
  }

  lemma ConnectionWordsRead(info: T.RequestInfo)
    ensures ReadConnection(ConnectionWords(info)) == Some(Connection(info.proto, info.tlsVersion, info.sni))
  {
    StripOf("(", info.proto, ")");
    StripOf("(", info.proto, ",");
    StripTail(info.tlsVersion, ")");
    StripTail(info.tlsVersion, ",");
    StripTail(info.sni, ")");
  }

  lemma StripTail(middle: string, end: string)
    ensures Strip(middle + end, "", end) == Some(middle)
  {
    StripOf("", middle, end);
    assert "" + middle == middle;
  }

  lemma JoinMore(head: string, rest: seq<string>)
    requires rest != []
    ensures Join([head] + rest, " ") == head + " " + Join(rest, " ")
  {
    assert ([head] + rest)[1..] == rest;
  }

  lemma JoinTwo(a: string, b: string)
    ensures Join([a, b], " ") == a + " " + b
  {
    assert [a, b] == [a] + [b];
    JoinMore(a, [b]);
  }

  lemma JoinThree(a: string, b: string, c: string)
    ensures Join([a, b, c], " ") == a + " " + b + " " + c
  {
    assert [a, b, c] == [a] + [b, c];
    JoinMore(a, [b, c]);
    JoinTwo(b, c);
  }

  lemma ConnectionIsJoined(info: T.RequestInfo)
    ensures T.ConnectionText(info) == info.scheme + " " + Join(ConnectionWords(info), " ")
  {
    var open, done := "(" + info.proto + ",", info.sni + ")";
    JoinTwo(open, info.tlsVersion + ")");
    JoinThree(open, "SNI", done);
    assert [open, info.tlsVersion + ",", "SNI", done] == [open] + [info.tlsVersion + ",", "SNI", done];
    JoinMore(open, [info.tlsVersion + ",", "SNI", done]);
    JoinThree(info.tlsVersion + ",", "SNI", done);
  }

  /** The words of the whole line. */
  function RequestWords(id: nat, info: T.RequestInfo): seq<string> {
    ["Request", "#" + T.Decimal(id) + ":", info.remoteAddr, "\U{2192}", info.scheme] + ConnectionWords(info)
  }

  lemma JoinFiveMore(a: string, b: string, c: string, d: string, e: string, rest: seq<string>)
    requires rest != []
    ensures Join([a, b, c, d, e] + rest, " ") == a + " " + b + " " + c + " " + d + " " + e + " " + Join(rest, " ")
  {
    assert [a, b, c, d, e] + rest == [a] + ([b] + ([c] + ([d] + ([e] + rest))));
    JoinMore(e, rest);
    JoinMore(d, [e] + rest);
    JoinMore(c, [d] + ([e] + rest));
    JoinMore(b, [c] + ([d] + ([e] + rest)));
    JoinMore(a, [b] + ([c] + ([d] + ([e] + rest))));
  }

  lemma RequestIsJoined(id: nat, info: T.RequestInfo)
    ensures T.RequestText(id, info) == Join(RequestWords(id, info), " ")
  {
    ConnectionIsJoined(info);
    JoinFiveMore("Request", "#" + T.Decimal(id) + ":", info.remoteAddr, "\U{2192}", info.scheme, ConnectionWords(info));
    var number, tail := T.Decimal(id), Join(ConnectionWords(info), " ");
    RequestPieces(number, info.remoteAddr, info.scheme, tail);
  }

  lemma RequestPieces(number: string, remote: string, scheme: string, tail: string)
    ensures "Request #" + (number + (": " + (remote + " \U{2192} " + (scheme + " " + tail))))
         == "Request" + " " + ("#" + number + ":") + " " + remote + " " + "\U{2192}" + " " + scheme + " " + tail
  {
  }

  lemma RequestWordsAreWords(id: nat, info: T.RequestInfo)
    requires PlainConnection(info)
    ensures forall w :: w in RequestWords(id, info) ==> Word(w)
  {
    DecimalIsWord(id);
    forall w | w in ConnectionWords(info) ensures Word(w) {
      WordConcat("(" + info.proto, ")");
      WordConcat("(" + info.proto, ",");
    }
  }

  /** The line gives back the number, the addresses and the connection. */
  lemma RequestInfoReads(id: nat, info: T.RequestInfo)
    requires PlainConnection(info)
    ensures ReadRequestInfo(T.RequestText(id, info))
         == Some(Incoming(id, info.remoteAddr, info.scheme, Connection(info.proto, info.tlsVersion, info.sni)))
  {
    var words := RequestWords(id, info);
    RequestIsJoined(id, info);
    RequestWordsAreWords(id, info);
    SplitJoin(words, ' ');
    NumberedOf("#", id, ":");
    ConnectionWordsRead(info);
    assert words[5..] == ConnectionWords(info);
  }

  /** Method, URI and protocol of a request line. */
  function ReadRequestLine(first: string): Option<(string, string, string)> {
    var words := Words(first);
    if |words| == 3 then Some((words[0], words[1], words[2])) else None
  }

  lemma RequestLineReads(info: T.RequestInfo)
    requires Word(info.method_) && Word(info.requestUri) && Word(info.proto)
    ensures ReadRequestLine(T.RequestLine(info)) == Some((info.method_, info.requestUri, info.proto))
  {
    JoinThree(info.method_, info.requestUri, info.proto);
    SplitJoin([info.method_, info.requestUri, info.proto], ' ');
  }

  // --------------------------------------------------------------- responses

  /** Number, code and milliseconds of a response. */
  function ReadResponseInfo(text: string): Option<(nat, nat, nat)> {
    var words := Words(text);
    if |words| != 4 || words[0] != "Response" then None
    else
      var id, code, ms := Numbered(words[1], "#", ":"), NumberOf(words[2]), Numbered(words[3], "(", "ms)");
      if id.None? || code.None? || ms.None? then None else Some((id.value, code.value, ms.value))
  }

  lemma ResponseIsJoined(id: nat, code: nat, ms: nat)
    ensures T.ResponseText(id, code, ms)
         == Join(["Response", "#" + T.Decimal(id) + ":", T.Decimal(code), "(" + T.Decimal(ms) + "ms)"], " ")
  {
    var number, status, time := "#" + T.Decimal(id) + ":", T.Decimal(code), "(" + T.Decimal(ms) + "ms)";
    assert ["Response", number, status, time] == ["Response"] + [number, status, time];
    JoinMore("Response", [number, status, time]);
    JoinThree(number, status, time);
    ResponsePieces(T.Decimal(id), status, T.Decimal(ms));
  }

  lemma ResponsePieces(id: string, code: string, ms: string)
    ensures "Response #" + (id + (": " + (code + " (" + ms + "ms)")))
         == "Response" + " " + (("#" + id + ":") + " " + code + " " + ("(" + ms + "ms)"))
  {
  }

  /** The line gives back all three, whatever they are. */
  lemma ResponseInfoReads(id: nat, code: nat, ms: nat)
    ensures ReadResponseInfo(T.ResponseText(id, code, ms)) == Some((id, code, ms))
  {
    var words := ["Response", "#" + T.Decimal(id) + ":", T.Decimal(code), "(" + T.Decimal(ms) + "ms)"];
    ResponseIsJoined(id, code, ms);
    DecimalIsWord(id);
    DecimalIsWord(code);
    DecimalIsWord(ms);
    SplitJoin(words, ' ');
    NumberedOf("#", id, ":");
    NumberedOf("(", ms, "ms)");
  }

  /** Protocol, code and status text of a status line. */
  function ReadStatusLine(first: string): Option<(string, nat, string)> {
    var words := Words(first);
    if |words| < 2 || NumberOf(words[1]).None? then None
    else Some((words[0], NumberOf(words[1]).value, Join(words[2..], " ")))
  }

  /** A code with its status text, if it has one. */
  function StatusWords(code: nat, text: string): seq<string> {
    [T.Decimal(code)] + if text == "" then [] else Split(text, ' ')
  }

  lemma StatusIsTrimmed(code: nat, text: string)
    requires TrimSpace(text) == text
    ensures TrimSpace(T.Decimal(code) + " " + text) == T.Decimal(code) + if text == "" then "" else " " + text
  {
    var d := T.Decimal(code);
    var full := d + " " + text;
    DecimalReads(code);
    assert full[0] == d[0] && !IsSpace(d[0]);
    assert TrimLeft(full) == full;
    if text == "" {
      assert full[..|full| - 1] == d && full[|full| - 1] == ' ';
      assert !IsSpace(d[|d| - 1]);
      assert TrimRight(full) == TrimRight(d) == d;
    } else {
      var left, right := TrimSpaceIs(text);
      assert full[|full| - 1] == text[|text| - 1];
      assert d + " " + text == d + (" " + text);
    }
  }

  lemma StatusIsJoined(proto: string, code: nat, text: string)
    requires TrimSpace(text) == text
    ensures T.StatusLine(proto, code, text) == Join([proto] + StatusWords(code, text), " ")
  {
    StatusIsTrimmed(code, text);
    JoinMore(proto, StatusWords(code, text));
    if text != "" {
      JoinMore(T.Decimal(code), Split(text, ' '));
      JoinSplit(text, ' ');
      assert T.Decimal(code) + " " + text == T.Decimal(code) + (" " + text);
    } else {
      assert StatusWords(code, text) == [T.Decimal(code)];
      assert T.Decimal(code) + "" == T.Decimal(code);
    }
  }

  /** The line gives back the protocol, the code, and the status text, which never has space around it. */
  lemma StatusLineReads(proto: string, code: nat, text: string)
    requires Word(proto) && TrimSpace(text) == text
    ensures ReadStatusLine(T.StatusLine(proto, code, text)) == Some((proto, code, text))
  {
    var words := [proto] + StatusWords(code, text);
    StatusIsJoined(proto, code, text);
    DecimalIsWord(code);
    PartsLackSeparator(text, ' ');
    forall w | w in words ensures ' ' !in w {
      assert w == proto || w == T.Decimal(code) || w in Split(text, ' ');
    }
    SplitJoin(words, ' ');
    assert words[1] == T.Decimal(code) && words[2..] == if text == "" then [] else Split(text, ' ');
    JoinSplit(text, ' ');
  }

  // ---------------------------------------------------------------- upstream

  /** The first word of a line, and the rest. */
  function ReadPair(first: string): Option<(string, string)> {
    var words := Words(first);
    if |words| < 2 then None else Some((words[0], Join(words[1..], " ")))
  }

  lemma PairReads(head: string, rest: string)
    requires Word(head)
    ensures ReadPair(head + " " + rest) == Some((head, rest))
  {
    SplitConcat(head, ' ', rest);
    SplitWithout(head, ' ');
    var words := [head] + Split(rest, ' ');
    assert head + [' '] + rest == head + " " + rest;
    assert words[1..] == Split(rest, ' ');
    JoinSplit(rest, ' ');
  }

  lemma ForwardInfoReads(target: string)
    ensures Strip("Forwarding to " + target, "Forwarding to ", "") == Some(target)
  {
    StripOf("Forwarding to ", target, "");
    assert "Forwarding to " + target + "" == "Forwarding to " + target;
  }

  lemma ForwardErrorReads(error: string)
    ensures Strip("Forward error: " + error, "Forward error: ", "") == Some(error)
  {
    StripOf("Forward error: ", error, "");
    assert "Forward error: " + error + "" == "Forward error: " + error;
  }
}
