/**
 * The header rewriting of the forwarder, and what it means for the client
 * address that later hops resolve.
 */
module Forward {
  import opened Common
  import opened Text
  import opened Headers
  import opened Proxies

  const HOP_BY_HOP: seq<string> := [
    "Connection", "Keep-Alive", "Proxy-Authenticate", "Proxy-Authorization", "Proxy-Connection",
    "Te", "Trailer", "Transfer-Encoding", "Upgrade"]

  const CONNECTION := "Connection"
  const FORWARDED_FOR := "X-Forwarded-For"
  const FORWARDED_PROTO := "X-Forwarded-Proto"
  const FORWARDED_HOST := "X-Forwarded-Host"

  /** Some Connection value lists this name, in some letter case. */
  ghost predicate NamedByConnection(h: Header, name: string) {
    exists v, t :: v in Values(h, CONNECTION) && ListedIn(v, t) && Canonical(TrimSpace(t)) == name
  }

  /** t is one of the comma-separated parts of value, and not blank. */
  ghost predicate ListedIn(value: string, t: string) {
    t in Split(value, ',') && TrimSpace(t) != ""
  }

  ghost predicate Removed(h: Header, name: string) {
    name in HOP_BY_HOP || NamedByConnection(h, name)
  }

  /** `out` is h without its hop-by-hop headers and with everything else as it was. */
  ghost predicate IsRelayed(h: Header, out: Header) {
    forall name :: (name in out <==> name in h && !Removed(h, name)) && (name in out ==> out[name] == h[name])
  }

  /** The names deleted by one Connection value. */
  function NamedIn(parts: seq<string>): set<string> {
    set t | t in parts && TrimSpace(t) != "" :: Canonical(TrimSpace(t))
  }

  function NamedInAll(values: seq<string>): set<string> {
    set v, n | v in values && n in NamedIn(Split(v, ',')) :: n
  }

  lemma NamedInSnoc(parts: seq<string>, p: string)
    ensures NamedIn(parts + [p]) == NamedIn(parts) + if TrimSpace(p) == "" then {} else {Canonical(TrimSpace(p))}
  {
  }

  lemma NamedInAllSnoc(values: seq<string>, v: string)
    ensures NamedInAll(values + [v]) == NamedInAll(values) + NamedIn(Split(v, ','))
  {
  }

  /** relayHeader: a copy of the header set minus the hop-by-hop headers. */
  method RelayHeader(h: Header) returns (out: Header)
    ensures IsRelayed(h, out)
  {
    var values := Values(h, CONNECTION);
    out := h;
    for v := 0 to |values|
      invariant out == h - NamedInAll(values[..v])
    {
      out := DeleteListed(out, Split(values[v], ','));
      assert values[..v + 1] == values[..v] + [values[v]];
      NamedInAllSnoc(values[..v], values[v]);
    }
    assert values[..|values|] == values;
    ghost var unnamed := out;
    for i := 0 to |HOP_BY_HOP|
      invariant out == unnamed - Elems(HOP_BY_HOP[..i])
    {
      out := out - {HOP_BY_HOP[i]};
      assert HOP_BY_HOP[..i + 1] == HOP_BY_HOP[..i] + [HOP_BY_HOP[i]];
    }
    NamedIffListed(h);
  }

  /** The inner loop: delete every name that one Connection value lists. */
  method DeleteListed(h: Header, parts: seq<string>) returns (out: Header)
    ensures out == h - NamedIn(parts)
  {
    out := h;
    for i := 0 to |parts|
      invariant out == h - NamedIn(parts[..i])
    {
      var name := TrimSpace(parts[i]);
      if name != "" {
        out := out - {Canonical(name)};
      }
      assert parts[..i + 1] == parts[..i] + [parts[i]];
      NamedInSnoc(parts[..i], parts[i]);
    }
    assert parts[..|parts|] == parts;
  }

  lemma NamedIffListed(h: Header)
    ensures forall name :: name in NamedInAll(Values(h, CONNECTION)) <==> NamedByConnection(h, name)
  {
    forall name ensures name in NamedInAll(Values(h, CONNECTION)) <==> NamedByConnection(h, name) {
      if NamedByConnection(h, name) {
        var v, t :| v in Values(h, CONNECTION) && ListedIn(v, t) && Canonical(TrimSpace(t)) == name;
        assert name in NamedIn(Split(v, ','));
      }
      if name in NamedInAll(Values(h, CONNECTION)) {
        var v :| v in Values(h, CONNECTION) && name in NamedIn(Split(v, ','));
        var t :| t in Split(v, ',') && TrimSpace(t) != "" && Canonical(TrimSpace(t)) == name;
        assert ListedIn(v, t);
      }
    }
  }

  /** The relayed set is determined by h. */
  lemma RelayedIsUnique(h: Header, a: Header, b: Header)
    requires IsRelayed(h, a) && IsRelayed(h, b)
    ensures a == b
  {
    assert a.Keys == b.Keys;
  }

  /** Relaying what was relayed changes nothing. */
  lemma RelayIsIdempotent(h: Header, out: Header, again: Header)
    requires IsRelayed(h, out) && IsRelayed(out, again)
    ensures again == out
  {
    assert CONNECTION in HOP_BY_HOP;
    forall name ensures !NamedByConnection(out, name) {
      assert CONNECTION !in out;
    }
    assert again.Keys == out.Keys;
  }

  /** Some Connection value lists a text with the letters of this name. */
  ghost predicate ListedLetters(h: Header, name: string) {
    exists v, t :: v in Values(h, CONNECTION) && ListedIn(v, t) && Lowered(TrimSpace(t)) == Lowered(name)
  }

  /** Whatever Connection lists, a canonical name is named by it exactly when its letters are listed, in any case. */
  lemma NamedIffLettersListed(h: Header, name: string)
    requires IsToken(name) && Canonical(name) == name
    ensures NamedByConnection(h, name) <==> ListedLetters(h, name)
  {
    if NamedByConnection(h, name) {
      var v, t :| v in Values(h, CONNECTION) && ListedIn(v, t) && Canonical(TrimSpace(t)) == name;
      SameFormIffSameLetters(TrimSpace(t), name);
    }
    if ListedLetters(h, name) {
      var v, t :| v in Values(h, CONNECTION) && ListedIn(v, t) && Lowered(TrimSpace(t)) == Lowered(name);
      SameFormIffSameLetters(TrimSpace(t), name);
    }
  }

  /** The names that are never relayed, spelled out. */
  predicate FixedName(name: string) {
    || name == "Connection" || name == "Keep-Alive" || name == "Proxy-Authenticate" || name == "Proxy-Authorization"
    || name == "Proxy-Connection" || name == "Te" || name == "Trailer" || name == "Transfer-Encoding"
    || name == "Upgrade"
  }

  /**
   * A well-formed header is kept, with its values, exactly when it is no fixed
   * name and Connection lists its letters nowhere.
   */
  lemma KeptIffUnlisted(h: Header, out: Header, name: string)
    requires IsRelayed(h, out) && name in h && InForm(name)
    ensures name in out <==> !FixedName(name) && !ListedLetters(h, name)
    ensures name in out ==> out[name] == h[name]
  {
    CanonicalIffInForm(name);
    NamedIffLettersListed(h, name);
  }

  // ---------------------------------------------------------------- forwarding

  /** The header rewriting of Do: relay, then append the peer and fill in scheme and host. */
  method RewriteHeader(h: Header, peerIP: string, scheme: string, host: string) returns (out: Header)
    ensures IsForwarded(h, peerIP, scheme, host, out)
  {
    var relayed := RelayHeader(h);
    var appended := AppendPeer(h, relayed, peerIP);
    var withProto := SetIfEmpty(appended, FORWARDED_PROTO, scheme);
    out := SetIfEmpty(withProto, FORWARDED_HOST, host);
    forall name | name !in {FORWARDED_FOR, FORWARDED_PROTO, FORWARDED_HOST} ensures SameAt(relayed, out, name) {
      assert SameAt(relayed, appended, name) && SameAt(appended, withProto, name) && SameAt(withProto, out, name);
    }
    assert SameAt(appended, withProto, FORWARDED_FOR) && SameAt(withProto, out, FORWARDED_FOR);
    assert SameAt(relayed, appended, FORWARDED_PROTO) && SameAt(withProto, out, FORWARDED_PROTO);
    assert SameAt(relayed, appended, FORWARDED_HOST) && SameAt(appended, withProto, FORWARDED_HOST);
  }

  method AppendPeer(h: Header, relayed: Header, peerIP: string) returns (out: Header)
    ensures Values(out, FORWARDED_FOR) == if peerIP == "" then Values(relayed, FORWARDED_FOR)
                                          else [Join(Values(h, FORWARDED_FOR) + [peerIP], ", ")]
    ensures forall name :: name != FORWARDED_FOR ==> SameAt(relayed, out, name)
  {
    out := relayed;
    if peerIP != "" {
      var chain := Values(h, FORWARDED_FOR) + [peerIP];
      out := out[FORWARDED_FOR := [Join(chain, ", ")]];
    }
  }

  method SetIfEmpty(h: Header, name: string, value: string) returns (out: Header)
    ensures Values(out, name) == FilledIn(h, name, value)
    ensures forall n :: n != name ==> SameAt(h, out, n)
  {
    out := h;
    if Get(h, name) == "" {
      out := out[name := [value]];
    }
  }

  /** What Do promises about the header set it sends. */
  ghost predicate IsForwarded(h: Header, peerIP: string, scheme: string, host: string, out: Header) {
    exists relayed ::
      && IsRelayed(h, relayed)
      && (forall name :: name !in {FORWARDED_FOR, FORWARDED_PROTO, FORWARDED_HOST} ==> SameAt(relayed, out, name))
      && Values(out, FORWARDED_FOR) == (if peerIP == "" then Values(relayed, FORWARDED_FOR)
                                        else [Join(Values(h, FORWARDED_FOR) + [peerIP], ", ")])
      && Values(out, FORWARDED_PROTO) == FilledIn(relayed, FORWARDED_PROTO, scheme)
      && Values(out, FORWARDED_HOST) == FilledIn(relayed, FORWARDED_HOST, host)
  }

  ghost predicate SameAt(a: Header, b: Header, name: string) {
    (name in a <==> name in b) && (name in a ==> a[name] == b[name])
  }

  function FilledIn(h: Header, name: string, value: string): seq<string> {
    if Get(h, name) == "" then [value] else Values(h, name)
  }

  /** Only the hop-by-hop headers and the three X-Forwarded headers differ from what came in. */
  lemma ForwardingChangesOnlyForwarded(h: Header, peerIP: string, scheme: string, host: string,
                                       out: Header, name: string)
    requires IsForwarded(h, peerIP, scheme, host, out)
    requires name !in {FORWARDED_FOR, FORWARDED_PROTO, FORWARDED_HOST}
    ensures name in out <==> name in h && !Removed(h, name)
    ensures name in out ==> out[name] == h[name]
  {
    var relayed :|
      && IsRelayed(h, relayed)
      && (forall n :: n !in {FORWARDED_FOR, FORWARDED_PROTO, FORWARDED_HOST} ==> SameAt(relayed, out, n));
    assert SameAt(relayed, out, name);
  }

  /** The sent chain is the whole chain that came in, then the peer, even when Connection names the header. */
  lemma ForwardingKeepsChain(h: Header, peerIP: string, scheme: string, host: string, out: Header)
    requires IsForwarded(h, peerIP, scheme, host, out) && PlainAddress(peerIP)
    ensures Chain(Values(out, FORWARDED_FOR)) == Chain(Values(h, FORWARDED_FOR)) + [peerIP]
  {
    var values := Values(h, FORWARDED_FOR);
    JoinKeepsChain(values + [peerIP]);
    ChainConcat(values, [peerIP]);
    PlainAddressIsOneEntry(peerIP);
    assert Chain([peerIP]) == [peerIP] + Chain([]);
    var joined := [Join(values + [peerIP], ", ")];
    assert Values(out, FORWARDED_FOR) == joined;
    assert Chain(joined) == Entries(joined[0]) + Chain(joined[1..]);
  }

  /** Is this header there, not empty, and relayed? */
  ghost predicate Arrives(h: Header, name: string) {
    name in h && h[name] != [] && h[name][0] != "" && !ListedLetters(h, name)
  }

  /** Scheme and host are filled in exactly where the incoming header does not arrive; the peer joins the chain. */
  lemma ForwardedHeadersAre(h: Header, peerIP: string, scheme: string, host: string, out: Header)
    requires IsForwarded(h, peerIP, scheme, host, out)
    ensures "X-Forwarded-Proto" in out && out["X-Forwarded-Proto"]
         == if Arrives(h, "X-Forwarded-Proto") then h["X-Forwarded-Proto"] else [scheme]
    ensures "X-Forwarded-Host" in out && out["X-Forwarded-Host"]
         == if Arrives(h, "X-Forwarded-Host") then h["X-Forwarded-Host"] else [host]
    ensures peerIP != "" ==>
              && "X-Forwarded-For" in out
              && out["X-Forwarded-For"] == [Join(Values(h, "X-Forwarded-For") + [peerIP], ", ")]
  {
    var relayed :|
      && IsRelayed(h, relayed)
      && Values(out, FORWARDED_PROTO) == FilledIn(relayed, FORWARDED_PROTO, scheme)
      && Values(out, FORWARDED_HOST) == FilledIn(relayed, FORWARDED_HOST, host);
    ForwardedNamesAreInForm();
    if "X-Forwarded-Proto" in h { KeptIffUnlisted(h, relayed, "X-Forwarded-Proto"); }
    if "X-Forwarded-Host" in h { KeptIffUnlisted(h, relayed, "X-Forwarded-Host"); }
  }

  lemma ForwardedPrefixInForm()
    ensures InForm("X-Forwarded-")
  {
    WordInForm('X', "");
    WordInForm('F', "orwarded");
    assert ['X'] + "" + "-" == "X-" && ['F'] + "orwarded" + "-" == "Forwarded-";
    FormConcat("X-", "Forwarded-");
    assert "X-" + "Forwarded-" == "X-Forwarded-";
  }

  lemma ForwardedNamesAreInForm()
    ensures InForm("X-Forwarded-Proto") && InForm("X-Forwarded-Host")
    ensures !FixedName("X-Forwarded-Proto") && !FixedName("X-Forwarded-Host")
  {
    ForwardedPrefixInForm();
    WordInForm('P', "roto");
    WordInForm('H', "ost");
    assert ['P'] + "roto" == "Proto" && ['H'] + "ost" == "Host";
    FormConcat("X-Forwarded-", "Proto");
    FormConcat("X-Forwarded-", "Host");
    assert "X-Forwarded-" + "Proto" == "X-Forwarded-Proto" && "X-Forwarded-" + "Host" == "X-Forwarded-Host";
  }

  /** Without a peer text the chain is relayed like any other header: it survives unless Connection names it. */
  lemma WithoutPeerChainSurvivesIff(h: Header, scheme: string, host: string, out: Header)
    requires IsForwarded(h, "", scheme, host, out)
    ensures Values(out, FORWARDED_FOR) == Values(h, FORWARDED_FOR)
            <==> !NamedByConnection(h, FORWARDED_FOR) || Values(h, FORWARDED_FOR) == []
  {
    var relayed :| IsRelayed(h, relayed) && Values(out, FORWARDED_FOR) == Values(relayed, FORWARDED_FOR);
    assert FORWARDED_FOR !in HOP_BY_HOP;
    assert FORWARDED_FOR in relayed <==> FORWARDED_FOR in h && !Removed(h, FORWARDED_FOR);
  }

  /** A request as a hop receives it. */
  datatype Request = Request(peer: string, header: Header)

  function ResolvedClient(trusted: string -> bool, r: Request): string {
    ClientIp(trusted, r.peer, Values(r.header, FORWARDED_FOR))
  }

  /** `next` is what the following hop receives: the wire keeps X-Forwarded-For, and may change all else. */
  ghost predicate Hop(r: Request, next: Request, scheme: string, host: string) {
    exists sent ::
      && IsForwarded(r.header, r.peer, scheme, host, sent)
      && Values(next.header, FORWARDED_FOR) == Values(sent, FORWARDED_FOR)
  }

  /** The next request is this one, relayed by a forwarder with a trusted address. */
  ghost predicate TrustedHop(trusted: string -> bool, r: Request, next: Request) {
    PlainAddress(r.peer) && trusted(next.peer) && exists scheme, host :: Hop(r, next, scheme, host)
  }

  ghost predicate ForwardingPath(trusted: string -> bool, hops: seq<Request>) {
    forall i :: 0 < i < |hops| ==> TrustedHop(trusted, hops[i - 1], hops[i])
  }

  lemma HopKeepsClient(trusted: string -> bool, r: Request, next: Request)
    requires TrustedHop(trusted, r, next)
    ensures ResolvedClient(trusted, next) == ResolvedClient(trusted, r)
  {
    var scheme, host :| Hop(r, next, scheme, host);
    var sent :|
      && IsForwarded(r.header, r.peer, scheme, host, sent)
      && Values(next.header, FORWARDED_FOR) == Values(sent, FORWARDED_FOR);
    ForwardingKeepsChain(r.header, r.peer, scheme, host, sent);
    var values, values' := Values(r.header, FORWARDED_FOR), Values(next.header, FORWARDED_FOR);
    AppendedPeerKeepsClient(trusted, r.peer, values, next.peer, values');
  }

  /** Through any number of trusted forwarders, every hop resolves the client that the first hop resolves. */
  lemma {:induction false} EveryHopResolvesTheSameClient(trusted: string -> bool, hops: seq<Request>, i: nat)
    requires ForwardingPath(trusted, hops) && i < |hops|
    ensures ResolvedClient(trusted, hops[i]) == ResolvedClient(trusted, hops[0])
  {
    if i > 0 {
      EveryHopResolvesTheSameClient(trusted, hops, i - 1);
      HopKeepsClient(trusted, hops[i - 1], hops[i]);
    }
  }
}
