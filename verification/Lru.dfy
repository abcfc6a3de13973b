/**
 * The certificate cache as a value: a list of entries, most recently used
 * first.  The lookups and the store of the cache are functions on that list,
 * and a run of them is proved to keep exactly the `capacity` most recently
 * touched keys.
 */
module Lru {
  import opened Common
  import opened RefreshPolicy

  type Sni = string

  /** An issued certificate; the serial tells apart certificates with equal windows. */
  datatype Cert = Cert(serial: nat, leaf: Leaf)

  datatype Entry = Entry(key: Sni, cert: Cert)

  function Keys(c: seq<Entry>): (r: seq<Sni>)
    ensures |r| == |c|
    ensures forall i :: 0 <= i < |c| ==> r[i] == c[i].key
  {
    seq(|c|, i requires 0 <= i < |c| => c[i].key)
  }

  /** The entry of key k. */
  function Find(c: seq<Entry>, k: Sni): Option<Entry> {
    if c == [] then None
    else if c[0].key == k then Some(c[0])
    else Find(c[1..], k)
  }

  lemma {:induction false} FindIsEntry(c: seq<Entry>, k: Sni)
    ensures Find(c, k).Some? ==> Find(c, k).value in c && Find(c, k).value.key == k
    ensures Find(c, k).None? <==> k !in Keys(c)
  {
    if c != [] {
      assert Keys(c) == [c[0].key] + Keys(c[1..]);
      FindIsEntry(c[1..], k);
    }
  }

  /** s without any occurrence of x. */
  function Remove<T(==)>(s: seq<T>, x: T): (r: seq<T>)
    ensures forall y :: y in r ==> y in s && y != x
    ensures forall y :: y in s && y != x ==> y in r
    ensures |r| <= |s|
  {
    if s == [] then []
    else if s[0] == x then Remove(s[1..], x)
    else [s[0]] + Remove(s[1..], x)
  }

  /** c without the entry of key k. */
  function Without(c: seq<Entry>, k: Sni): (r: seq<Entry>)
    ensures Keys(r) == Remove(Keys(c), k)
    ensures forall e :: e in r ==> e in c
  {
    if c == [] then []
    else
      assert Keys(c)[1..] == Keys(c[1..]);
      if c[0].key == k then Without(c[1..], k) else [c[0]] + Without(c[1..], k)
  }

  /** What a lookup at `now` returns: the certificate unless it is missing or due. */
  function LookupResult(due: Policy, c: seq<Entry>, k: Sni, now: int): Option<Cert> {
    var e := Find(c, k);
    if e.Some? && !due(e.value.cert.leaf, now) then Some(e.value.cert) else None
  }

  /** The list after a lookup: a hit moves to the front, a miss changes nothing. */
  function AfterLookup(due: Policy, c: seq<Entry>, k: Sni, now: int): seq<Entry> {
    if LookupResult(due, c, k, now).Some? then [Find(c, k).value] + Without(c, k) else c
  }

  /** What a stale lookup returns: the certificate unless it is missing or past NotAfter. */
  function StaleResult(c: seq<Entry>, k: Sni, now: int): Option<Cert> {
    var e := Find(c, k);
    if e.Some? && now <= e.value.cert.leaf.notAfter then Some(e.value.cert) else None
  }

  /** The list with e in front, before anything is evicted. */
  function Pushed(c: seq<Entry>, e: Entry): seq<Entry> {
    [e] + Without(c, e.key)
  }

  /** The list after a store. */
  function AfterStore(c: seq<Entry>, capacity: nat, e: Entry): seq<Entry> {
    Take(Pushed(c, e), capacity)
  }

  /** The entries a store evicts. */
  function EvictedBy(c: seq<Entry>, capacity: nat, e: Entry): seq<Entry> {
    Pushed(c, e)[|AfterStore(c, capacity, e)|..]
  }

  ghost predicate WellFormed(c: seq<Entry>, capacity: nat) {
    Distinct(Keys(c)) && |c| <= capacity
  }

  // ---------------------------------------------------------------- removal

  lemma DistinctCons<T>(x: T, s: seq<T>)
    requires Distinct(s) && x !in s
    ensures Distinct([x] + s)
  {
  }

  lemma {:induction false} RemoveDistinct<T>(s: seq<T>, x: T)
    requires Distinct(s)
    ensures Distinct(Remove(s, x))
    ensures |Remove(s, x)| == if x in s then |s| - 1 else |s|
    ensures x !in s ==> Remove(s, x) == s
  {
    if s != [] {
      assert s == [s[0]] + s[1..];
      RemoveDistinct(s[1..], x);
      DistinctCons(s[0], Remove(s[1..], x));
    }
  }

  lemma TakeCons<T>(x: T, s: seq<T>, n: nat)
    ensures Take([x] + s, n + 1) == [x] + Take(s, n)
  {
  }

  lemma {:induction false} RemoveTake<T>(s: seq<T>, x: T, n: nat)
    requires Distinct(s)
    ensures Take(Remove(Take(s, n + 1), x), n) == Take(Remove(s, x), n)
  {
    if n < |s| {
      var tail := s[1..];
      assert s == [s[0]] + tail;
      TakeCons(s[0], tail, n);
      var cut := Take(tail, n);
      assert ([s[0]] + cut)[1..] == cut;
      if s[0] == x {
        RemoveDistinct(tail, x);
        RemoveDistinct(cut, x);
      } else if n > 0 {
        TakeCons(s[0], Remove(cut, x), n - 1);
        TakeCons(s[0], Remove(tail, x), n - 1);
        RemoveTake(tail, x, n - 1);
      }
    }
  }

  lemma TakeOfKeys(c: seq<Entry>, n: nat)
    ensures Keys(Take(c, n)) == Take(Keys(c), n)
  {
  }

  lemma PushedKeys(c: seq<Entry>, e: Entry)
    ensures Keys(Pushed(c, e)) == [e.key] + Remove(Keys(c), e.key)
  {
  }

  lemma PushedIsDistinct(c: seq<Entry>, e: Entry)
    requires Distinct(Keys(c))
    ensures Distinct(Keys(Pushed(c, e)))
    ensures |Pushed(c, e)| == if e.key in Keys(c) then |c| else |c| + 1
  {
    PushedKeys(c, e);
    RemoveDistinct(Keys(c), e.key);
  }

  lemma StoreKeepsWellFormed(c: seq<Entry>, capacity: nat, e: Entry)
    requires WellFormed(c, capacity)
    ensures WellFormed(AfterStore(c, capacity, e), capacity)
  {
    PushedIsDistinct(c, e);
    TakeOfKeys(Pushed(c, e), capacity);
  }

  lemma LookupKeepsWellFormed(due: Policy, c: seq<Entry>, capacity: nat, k: Sni, now: int)
    requires WellFormed(c, capacity)
    ensures WellFormed(AfterLookup(due, c, k, now), capacity)
  {
    FindIsEntry(c, k);
    if LookupResult(due, c, k, now).Some? {
      PushedIsDistinct(c, Find(c, k).value);
    }
  }

  // ---------------------------------------------------------- finding entries

  lemma {:induction false} FindWithout(c: seq<Entry>, k: Sni, k': Sni)
    ensures Find(Without(c, k), k') == if k == k' then None else Find(c, k')
  {
    if c != [] {
      FindWithout(c[1..], k, k');
      if c[0].key != k {
        assert Without(c, k)[1..] == Without(c[1..], k);
      }
    }
  }

  lemma FindPushed(c: seq<Entry>, e: Entry, k: Sni)
    ensures Find(Pushed(c, e), k) == if k == e.key then Some(e) else Find(c, k)
  {
    assert Pushed(c, e)[1..] == Without(c, e.key);
    FindWithout(c, e.key, k);
  }

  /** A lookup reorders the list but leaves every entry where a search finds it. */
  lemma FindAfterLookup(due: Policy, c: seq<Entry>, k: Sni, now: int, k': Sni)
    ensures Find(AfterLookup(due, c, k, now), k') == Find(c, k')
  {
    FindIsEntry(c, k);
    if LookupResult(due, c, k, now).Some? {
      FindPushed(c, Find(c, k).value, k');
    }
  }

  lemma {:induction false} FindSplit(c: seq<Entry>, n: nat, k: Sni)
    requires n <= |c| && Distinct(Keys(c))
    ensures Find(c[..n], k).Some? ==> Find(c[..n], k) == Find(c, k) && Find(c[n..], k).None?
    ensures Find(c[..n], k).None? ==> Find(c[n..], k) == Find(c, k)
  {
    if n > 0 {
      assert c[1..][..n - 1] == c[..n][1..] && c[1..][n - 1..] == c[n..];
      assert Keys(c)[1..] == Keys(c[1..]);
      if c[0].key == k {
        assert Keys(c[n..]) == Keys(c)[n..];
        FindIsEntry(c[n..], k);
      } else {
        FindSplit(c[1..], n - 1, k);
      }
    } else {
      assert c[n..] == c;
    }
  }

  /** A store either keeps an entry or evicts it; the stored entry itself is evicted only by capacity zero. */
  lemma FindAfterStore(c: seq<Entry>, capacity: nat, e: Entry, k: Sni)
    requires WellFormed(c, capacity)
    ensures var found := if k == e.key then Some(e) else Find(c, k);
            var kept := Find(AfterStore(c, capacity, e), k);
            var evicted := Find(EvictedBy(c, capacity, e), k);
            && ((kept == found && evicted.None?) || (kept.None? && evicted == found))
            && (k == e.key && capacity > 0 ==> kept == found)
  {
    PushedIsDistinct(c, e);
    FindPushed(c, e, k);
    var n := |AfterStore(c, capacity, e)|;
    assert AfterStore(c, capacity, e) == Pushed(c, e)[..n];
    FindSplit(Pushed(c, e), n, k);
    if capacity > 0 {
      assert AfterStore(c, capacity, e)[0] == e;
    }
  }

  // -------------------------------------------------------------- operations

  datatype Op =
    | Lookup(key: Sni, now: int)
    | LookupStale(key: Sni, now: int)
    | Store(key: Sni, cert: Cert)

  function Apply(due: Policy, capacity: nat, c: seq<Entry>, op: Op): seq<Entry> {
    match op
    case Lookup(k, now) => AfterLookup(due, c, k, now)
    case LookupStale(_, _) => c
    case Store(k, cert) => AfterStore(c, capacity, Entry(k, cert))
  }

  /** Only a hit and a store touch a key. */
  predicate Touches(due: Policy, c: seq<Entry>, op: Op) {
    match op
    case Lookup(k, now) => LookupResult(due, c, k, now).Some?
    case LookupStale(_, _) => false
    case Store(_, _) => true
  }

  /** The list after a run of operations on an empty cache. */
  function Run(due: Policy, capacity: nat, ops: seq<Op>): seq<Entry> {
    if ops == [] then []
    else Apply(due, capacity, Run(due, capacity, ops[..|ops| - 1]), ops[|ops| - 1])
  }

  /** The keys that a run touches, oldest touch first. */
  function Touched(due: Policy, capacity: nat, ops: seq<Op>): seq<Sni> {
    if ops == [] then []
    else
      var before := Touched(due, capacity, ops[..|ops| - 1]);
      var op := ops[|ops| - 1];
      if Touches(due, Run(due, capacity, ops[..|ops| - 1]), op) then before + [op.key] else before
  }

  /** The distinct keys touched since the last touch of k. */
  function Since(touched: seq<Sni>, k: Sni): set<Sni> {
    if touched == [] then {}
    else
      var last := touched[|touched| - 1];
      if last == k then {} else Since(touched[..|touched| - 1], k) + {last}
  }

  /** All touched keys, most recent first: the order of an unbounded cache. */
  function Recency(touched: seq<Sni>): (r: seq<Sni>)
    ensures forall k :: k in r <==> k in touched
  {
    if touched == [] then []
    else
      var last := touched[|touched| - 1];
      assert touched == touched[..|touched| - 1] + [last];
      [last] + Remove(Recency(touched[..|touched| - 1]), last)
  }

  lemma {:induction false} RecencyIsDistinct(touched: seq<Sni>)
    ensures Distinct(Recency(touched))
  {
    if touched != [] {
      RecencyIsDistinct(touched[..|touched| - 1]);
      RemoveDistinct(Recency(touched[..|touched| - 1]), touched[|touched| - 1]);
    }
  }

  /** Removing x from a list leaves y behind the same elements, x apart. */
  lemma {:induction false} RemoveKeepsBefore(s: seq<Sni>, x: Sni, j: nat) returns (i: nat)
    requires j < |Remove(s, x)|
    ensures i < |s| && s[i] == Remove(s, x)[j]
    ensures Elems(Remove(s, x)[..j]) + {x} == Elems(s[..i]) + {x}
  {
    var head, tail := s[0], s[1..];
    if head == x {
      var i' := RemoveKeepsBefore(tail, x, j);
      i := i' + 1;
      assert Elems(s[..i]) == {head} + Elems(tail[..i']) by { ElemsCons(head, tail, i'); }
    } else if j == 0 {
      i := 0;
    } else {
      var rest := Remove(tail, x);
      var i' := RemoveKeepsBefore(tail, x, j - 1);
      i := i' + 1;
      assert Elems(s[..i]) == {head} + Elems(tail[..i']) by {
        assert s == [head] + tail;
        ElemsCons(head, tail, i');
      }
      assert Elems(([head] + rest)[..j]) == {head} + Elems(rest[..j - 1]) by { ElemsCons(head, rest, j - 1); }
    }
  }

  lemma ElemsCons<T>(x: T, s: seq<T>, n: nat)
    requires n <= |s|
    ensures Elems(([x] + s)[..n + 1]) == {x} + Elems(s[..n])
  {
    assert ([x] + s)[..n + 1] == [x] + s[..n];
  }

  /** In recency order, the keys ahead of a key are those touched since its last touch. */
  lemma {:induction false} RecencyRank(touched: seq<Sni>, i: nat)
    requires i < |Recency(touched)|
    ensures Since(touched, Recency(touched)[i]) == Elems(Recency(touched)[..i])
  {
    var before := touched[..|touched| - 1];
    var last := touched[|touched| - 1];
    var r := Recency(touched);
    if i > 0 {
      RecencyIsDistinct(touched);
      RecencyIsDistinct(before);
      var rest := Remove(Recency(before), last);
      var j := RemoveKeepsBefore(Recency(before), last, i - 1);
      RecencyRank(before, j);
      ElemsCons(last, rest, i - 1);
      assert r[i] == rest[i - 1] != last;
    }
  }

  lemma {:induction false} CardinalityOfDistinct<T>(s: seq<T>)
    requires Distinct(s)
    ensures |Elems(s)| == |s|
  {
    if s != [] {
      CardinalityOfDistinct(s[1..]);
      assert Elems(s) == {s[0]} + Elems(s[1..]);
    }
  }

  /** A touch moves the key to the front of the recency prefix that is kept. */
  lemma TouchKeepsPrefix(c: seq<Entry>, capacity: nat, e: Entry, touched: seq<Sni>)
    requires Keys(c) == Take(Recency(touched), capacity)
    ensures Keys(AfterStore(c, capacity, e)) == Take(Recency(touched + [e.key]), capacity)
  {
    assert (touched + [e.key])[..|touched|] == touched;
    RecencyIsDistinct(touched);
    PushedKeys(c, e);
    TakeOfKeys(Pushed(c, e), capacity);
    if capacity > 0 {
      RemoveTake(Recency(touched), e.key, capacity - 1);
      var kept := Remove(Keys(c), e.key);
      var all := Remove(Recency(touched), e.key);
      assert Take([e.key] + kept, capacity) == [e.key] + Take(kept, capacity - 1);
      assert Take([e.key] + all, capacity) == [e.key] + Take(all, capacity - 1);
    }
  }

  /** A hit is a store of the entry it finds: nothing is evicted. */
  lemma HitIsStore(due: Policy, c: seq<Entry>, capacity: nat, k: Sni, now: int)
    requires WellFormed(c, capacity) && LookupResult(due, c, k, now).Some?
    ensures AfterLookup(due, c, k, now) == AfterStore(c, capacity, Find(c, k).value)
    ensures Find(c, k).value.key == k
  {
    FindIsEntry(c, k);
    PushedIsDistinct(c, Find(c, k).value);
  }

  lemma {:induction false} RunIsRecencyPrefix(due: Policy, capacity: nat, ops: seq<Op>)
    ensures Keys(Run(due, capacity, ops)) == Take(Recency(Touched(due, capacity, ops)), capacity)
    ensures WellFormed(Run(due, capacity, ops), capacity)
  {
    if ops != [] {
      var before := ops[..|ops| - 1];
      var op := ops[|ops| - 1];
      var c := Run(due, capacity, before);
      RunIsRecencyPrefix(due, capacity, before);
      if Touches(due, c, op) {
        var e := if op.Store? then Entry(op.key, op.cert) else Find(c, op.key).value;
        if op.Lookup? {
          HitIsStore(due, c, capacity, op.key, op.now);
        }
        TouchKeepsPrefix(c, capacity, e, Touched(due, capacity, before));
        StoreKeepsWellFormed(c, capacity, e);
      }
    }
  }

  /** The kept recency prefix holds k exactly when few enough keys were touched since k. */
  lemma RankDecides(touched: seq<Sni>, capacity: nat, k: Sni)
    ensures var kept := Take(Recency(touched), capacity);
            var rank := |Since(touched, k)|;
            && (k in kept <==> k in touched && rank < capacity)
            && (k in kept ==> rank < |kept| && kept[rank] == k)
  {
    var r := Recency(touched);
    if k in touched {
      var i :| 0 <= i < |r| && r[i] == k;
      RecencyRank(touched, i);
      RecencyIsDistinct(touched);
      CardinalityOfDistinct(r[..i]);
    }
  }

  /**
   * After any run the list is exactly the `capacity` most recently touched
   * keys: a key is cached when fewer than `capacity` other keys were touched
   * since its last touch, and the number of those keys is its position.
   */
  lemma CacheHoldsMostRecentlyTouched(due: Policy, capacity: nat, ops: seq<Op>, k: Sni)
    ensures var keys := Keys(Run(due, capacity, ops));
            var touched := Touched(due, capacity, ops);
            var rank := |Since(touched, k)|;
            && (k in keys <==> k in touched && rank < capacity)
            && (k in keys ==> rank < |keys| && keys[rank] == k)
  {
    RunIsRecencyPrefix(due, capacity, ops);
    RankDecides(Touched(due, capacity, ops), capacity, k);
  }
}
