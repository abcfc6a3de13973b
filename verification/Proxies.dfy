/**
 * The client address of a request: parsing X-Forwarded-For and walking it
 * from the right past trusted proxies.  Which addresses are trusted is a
 * parameter.
 */
module Proxies {
  import opened Common
  import opened Text

  /** The trimmed, non-empty texts among parts, in order. */
  function Cleaned(parts: seq<string>): seq<string> {
    if parts == [] then []
    else (if TrimSpace(parts[0]) == "" then [] else [TrimSpace(parts[0])]) + Cleaned(parts[1..])
  }

  /** The addresses in one X-Forwarded-For value. */
  function Entries(value: string): seq<string> {
    Cleaned(Split(value, ','))
  }

  /** The addresses in all X-Forwarded-For values, leftmost first. */
  function Chain(values: seq<string>): seq<string> {
    if values == [] then [] else Entries(values[0]) + Chain(values[1..])
  }

  /** The last address of the chain that is not trusted. */
  function LastUntrusted(trusted: string -> bool, chain: seq<string>): Option<string> {
    if chain == [] then None
    else
      var n := |chain| - 1;
      if !trusted(chain[n]) then Some(chain[n]) else LastUntrusted(trusted, chain[..n])
  }

  /** The client address: the peer itself unless it is a trusted proxy that sent a chain. */
  function ClientIp(trusted: string -> bool, peer: string, values: seq<string>): string {
    var chain := Chain(values);
    if chain == [] || !trusted(peer) then peer
    else if LastUntrusted(trusted, chain).Some? then LastUntrusted(trusted, chain).value
    else chain[0]
  }

  /** a is the last address of the chain that is not trusted. */
  ghost predicate IsLastUntrusted(trusted: string -> bool, chain: seq<string>, a: string) {
    exists i :: 0 <= i < |chain| && chain[i] == a && !trusted(a) && forall j :: i < j < |chain| ==> trusted(chain[j])
  }

  /** The scan finds an address exactly when some address is not trusted, and then the last such one. */
  lemma {:induction false} LastUntrustedIs(trusted: string -> bool, chain: seq<string>)
    ensures var found := LastUntrusted(trusted, chain);
            if found.None? then forall i :: 0 <= i < |chain| ==> trusted(chain[i])
            else IsLastUntrusted(trusted, chain, found.value)
  {
    if chain != [] {
      var n := |chain| - 1;
      LastUntrustedIs(trusted, chain[..n]);
      if trusted(chain[n]) && LastUntrusted(trusted, chain[..n]).Some? {
        var a := LastUntrusted(trusted, chain[..n]).value;
        var i :| 0 <= i < n && chain[..n][i] == a && !trusted(a) && forall j :: i < j < n ==> trusted(chain[..n][j]);
        assert chain[i] == a && forall j :: i < j < |chain| ==> trusted(chain[j]) by {
          forall j | i < j < |chain| ensures trusted(chain[j]) {
            assert j < n ==> chain[..n][j] == chain[j];
          }
        }
      }
    }
  }

  /** From the right, ip is the first address that is not trusted, or the leftmost when all are. */
  ghost predicate IsFirstUntrusted(trusted: string -> bool, chain: seq<string>, ip: string) {
    exists i ::
      && 0 <= i < |chain| && ip == chain[i]
      && (forall j :: i < j < |chain| ==> trusted(chain[j]))
      && (trusted(chain[i]) ==> i == 0)
  }

  /** A peer that is not trusted is the client, whatever it claims; behind a trusted one the chain decides. */
  lemma ClientIpIs(trusted: string -> bool, peer: string, values: seq<string>)
    ensures var ip := ClientIp(trusted, peer, values);
            if !trusted(peer) || Chain(values) == [] then ip == peer else IsFirstUntrusted(trusted, Chain(values), ip)
  {
    LastUntrustedIs(trusted, Chain(values));
  }

  lemma CleanedStep(parts: seq<string>, e: nat)
    requires e < |parts|
    ensures Cleaned(parts[..e + 1])
         == Cleaned(parts[..e]) + if TrimSpace(parts[e]) == "" then [] else [TrimSpace(parts[e])]
  {
    assert parts[..e + 1] == parts[..e] + [parts[e]];
    CleanedConcat(parts[..e], [parts[e]]);
  }

  lemma {:induction false} CleanedConcat(a: seq<string>, b: seq<string>)
    ensures Cleaned(a + b) == Cleaned(a) + Cleaned(b)
  {
    if a == [] {
      assert a + b == b;
    } else {
      assert (a + b)[1..] == a[1..] + b;
      CleanedConcat(a[1..], b);
    }
  }

  lemma {:induction false} ChainConcat(a: seq<string>, b: seq<string>)
    ensures Chain(a + b) == Chain(a) + Chain(b)
  {
    if a == [] {
      assert a + b == b;
    } else {
      assert (a + b)[1..] == a[1..] + b;
      ChainConcat(a[1..], b);
    }
  }

  /** One of the parts between commas is a, space apart, and a is not blank. */
  ghost predicate Lists(value: string, a: string) {
    a != "" && exists p :: p in Split(value, ',') && TrimSpace(p) == a
  }

  /** The chain is made of the trimmed parts between commas, blank ones left out. */
  lemma {:induction false} ChainHolds(values: seq<string>, a: string)
    ensures a in Chain(values) <==> exists v :: v in values && Lists(v, a)
  {
    if values != [] {
      ChainHolds(values[1..], a);
      CleanedHolds(Split(values[0], ','), a);
      assert a in Entries(values[0]) <==> Lists(values[0], a);
      assert values == [values[0]] + values[1..];
    }
  }

  lemma {:induction false} CleanedHolds(parts: seq<string>, a: string)
    ensures a in Cleaned(parts) <==> exists p :: p in parts && TrimSpace(p) == a && a != ""
  {
    if parts != [] {
      CleanedHolds(parts[1..], a);
      assert parts == [parts[0]] + parts[1..];
    }
  }

  lemma ChainStep(values: seq<string>, v: nat)
    requires v < |values|
    ensures Chain(values[..v + 1]) == Chain(values[..v]) + Entries(values[v])
  {
    assert values[..v + 1] == values[..v] + [values[v]];
    ChainConcat(values[..v], [values[v]]);
    assert Chain([values[v]]) == Entries(values[v]) + Chain([]);
  }

  /** The nested loops of Resolve that collect the chain. */
  method CollectChain(values: seq<string>) returns (chain: seq<string>)
    ensures chain == Chain(values)
  {
    chain := [];
    for v := 0 to |values|
      invariant chain == Chain(values[..v])
    {
      var parts := Split(values[v], ',');
      for e := 0 to |parts|
        invariant chain == Chain(values[..v]) + Cleaned(parts[..e])
      {
        var entry := TrimSpace(parts[e]);
        if entry != "" {
          chain := chain + [entry];
        }
        CleanedStep(parts, e);
      }
      assert parts[..|parts|] == parts;
      ChainStep(values, v);
    }
    assert values[..|values|] == values;
  }

  /** The backward scan of Resolve. */
  method ScanBackwards(trusted: string -> bool, chain: seq<string>) returns (ip: string)
    requires chain != []
    ensures ip == if LastUntrusted(trusted, chain).Some? then LastUntrusted(trusted, chain).value else chain[0]
  {
    var i := |chain| - 1;
    assert chain[..i + 1] == chain;
    while i >= 0
      invariant -1 <= i < |chain|
      invariant LastUntrusted(trusted, chain) == LastUntrusted(trusted, chain[..i + 1])
    {
      assert chain[..i + 1][..i] == chain[..i];
      if !trusted(chain[i]) {
        return chain[i];
      }
      i := i - 1;
    }
    return chain[0];
  }

  /** Resolve: the client address and, when it came through trusted proxies, the chain. */
  method Resolve(trusted: string -> bool, peer: string, values: seq<string>)
    returns (ip: string, ips: Option<seq<string>>)
    ensures ip == ClientIp(trusted, peer, values)
    ensures ips == if Chain(values) == [] || !trusted(peer) then None else Some(Chain(values))
    ensures !trusted(peer) || Chain(values) == [] ==> ip == peer
    ensures trusted(peer) && Chain(values) != [] ==> IsFirstUntrusted(trusted, Chain(values), ip)
  {
    ClientIpIs(trusted, peer, values);
    var chain := CollectChain(values);
    if |chain| == 0 || !trusted(peer) {
      return peer, None;
    }
    ip := ScanBackwards(trusted, chain);
    ips := Some(chain);
  }

  // ------------------------------------------------------- joined header values

  /** A leading space changes no address. */
  lemma EntriesAfterSpace(value: string)
    ensures Entries(" " + value) == Entries(value)
  {
    var rest := Split(value, ',');
    assert (" " + value)[1..] == value;
    assert TrimLeft(" " + rest[0]) == TrimLeft(rest[0]) by {
      assert (" " + rest[0])[1..] == rest[0];
    }
    assert Split(" " + value, ',') == [" " + rest[0]] + rest[1..];
    assert rest == [rest[0]] + rest[1..];
  }

  /** Joining values with ", " and parsing the result gives the addresses of all values, in order. */
  lemma {:induction false} JoinKeepsChain(values: seq<string>)
    ensures Entries(Join(values, ", ")) == Chain(values)
  {
    if values == [] {
      assert Entries("") == Cleaned([""]);
    } else if |values| == 1 {
      assert Chain(values[1..]) == [];
    } else {
      var rest := Join(values[1..], ", ");
      JoinKeepsChain(values[1..]);
      assert values[0] + ", " + rest == values[0] + [','] + (" " + rest);
      SplitConcat(values[0], ',', " " + rest);
      CleanedConcat(Split(values[0], ','), Split(" " + rest, ','));
      EntriesAfterSpace(rest);
    }
  }

  /** An address as a socket reports it: not empty, no comma, no surrounding space. */
  predicate PlainAddress(a: string) {
    a != "" && ',' !in a && TrimSpace(a) == a
  }

  lemma PlainAddressIsOneEntry(a: string)
    requires PlainAddress(a)
    ensures Entries(a) == [a]
  {
    SplitWithout(a, ',');
    assert Cleaned([a]) == [a] + Cleaned([]);
  }

  /**
   * A trusted proxy that appends its peer to the chain hides nothing: the next
   * hop resolves the client that the proxy itself would resolve.
   */
  lemma AppendedPeerKeepsClient(trusted: string -> bool, peer: string, values: seq<string>,
                                proxy: string, values': seq<string>)
    requires trusted(proxy) && Chain(values') == Chain(values) + [peer]
    ensures ClientIp(trusted, proxy, values') == ClientIp(trusted, peer, values)
  {
    var chain := Chain(values);
    var longer := chain + [peer];
    assert longer[..|chain|] == chain && longer[|chain|] == peer;
    assert LastUntrusted(trusted, longer) == if !trusted(peer) then Some(peer) else LastUntrusted(trusted, chain);
    assert chain != [] ==> longer[0] == chain[0];
  }
}
