/**
 * The certificate cache in the representation it runs on: a map from SNI to
 * list element and a list of elements, front most recently used.  Elements are
 * handles, and what an element holds is replaced in place.  Every method is
 * proved to act on the entry list as the functions of `Lru` do.
 */
module CertCache {
  import opened Common
  import opened RefreshPolicy
  import opened Lru

  datatype IssueResult = Success(cert: Cert) | Failure(error: string)

  /** What Get hands back; Stale also reports the error that onRefreshError receives. */
  datatype Reply = Served(cert: Cert) | Stale(cert: Cert, error: string) | Failed(error: string)

  /** What a flight that runs alone returns, looking again at t2. */
  function FlightResult(due: Policy, c: seq<Entry>, k: Sni, t2: int, issued: IssueResult): IssueResult {
    var hit := LookupResult(due, c, k, t2);
    if hit.Some? then Success(hit.value) else issued
  }

  function AfterFlight(due: Policy, capacity: nat, c: seq<Entry>, k: Sni, t2: int, issued: IssueResult): seq<Entry> {
    if LookupResult(due, c, k, t2).Some? then AfterLookup(due, c, k, t2)
    else if issued.Success? then AfterStore(c, capacity, Entry(k, issued.cert))
    else c
  }

  /** The reply that a flight's result becomes, looking for a stale certificate at t3. */
  function FallbackReply(staleOK: bool, c: seq<Entry>, k: Sni, t3: int, result: IssueResult): Reply {
    match result
    case Success(cert) => Served(cert)
    case Failure(error) =>
      var stale := StaleResult(c, k, t3);
      if staleOK && stale.Some? then Stale(stale.value, error) else Failed(error)
  }

  /** The reply of a Get that runs alone, reading the clock at t1, t2 and t3. */
  function GetReply(due: Policy, staleOK: bool, capacity: nat, c: seq<Entry>, k: Sni,
                    t1: int, t2: int, t3: int, issued: IssueResult): Reply
  {
    var hit := LookupResult(due, c, k, t1);
    if hit.Some? then Served(hit.value)
    else
      var result := FlightResult(due, c, k, t2, issued);
      FallbackReply(staleOK, AfterFlight(due, capacity, c, k, t2, issued), k, t3, result)
  }

  /** The entry list after that Get: a hit moves, a success stores, a failure changes nothing. */
  function AfterGet(due: Policy, capacity: nat, c: seq<Entry>, k: Sni, t1: int, t2: int, issued: IssueResult)
    : seq<Entry>
  {
    if LookupResult(due, c, k, t1).Some? then AfterLookup(due, c, k, t1)
    else AfterFlight(due, capacity, c, k, t2, issued)
  }

  type Element = nat

  /** Map and list are in bijection, and an element sits under the key it holds. */
  ghost predicate Linked(entries: map<Sni, Element>, order: seq<Element>, values: map<Element, Entry>) {
    && Distinct(order)
    && (forall el :: el in order ==> el in values && values[el].key in entries && entries[values[el].key] == el)
    && (forall k :: k in entries ==> entries[k] in order && values[entries[k]].key == k)
  }

  /** The entries in list order. */
  ghost function Contents(order: seq<Element>, values: map<Element, Entry>): (c: seq<Entry>)
    requires forall el :: el in order ==> el in values
    ensures |c| == |order|
    ensures forall i :: 0 <= i < |c| ==> c[i] == values[order[i]]
  {
    seq(|order|, i requires 0 <= i < |order| => values[order[i]])
  }

  function IndexOf(order: seq<Element>, el: Element): (i: nat)
    requires el in order
    ensures i < |order| && order[i] == el
  {
    if order[0] == el then 0 else 1 + IndexOf(order[1..], el)
  }

  function MoveToFront(order: seq<Element>, i: nat): seq<Element>
    requires i < |order|
  {
    [order[i]] + order[..i] + order[i + 1..]
  }

  class CertCache {
    const capacity: nat
    const needsRefresh: Policy
    const staleOK: bool
    var entries: map<Sni, Element>
    var order: seq<Element>
    var values: map<Element, Entry>
    var unused: Element

    ghost predicate Valid()
      reads this
    {
      && Linked(entries, order, values)
      && |order| <= capacity
      && (forall el :: el in order ==> el < unused)
    }

    /** The abstract value: the entries, most recently used first. */
    ghost function Value(): seq<Entry>
      requires Valid()
      reads this
    {
      Contents(order, values)
    }

    constructor (capacity: nat, needsRefresh: Policy, staleOK: bool)
      ensures Valid() && Value() == []
      ensures this.capacity == capacity && this.needsRefresh == needsRefresh && this.staleOK == staleOK
    {
      this.capacity := capacity;
      this.needsRefresh := needsRefresh;
      this.staleOK := staleOK;
      entries, order, values, unused := map[], [], map[], 0;
    }

    method Lookup(sni: Sni, now: int) returns (cert: Option<Cert>)
      requires Valid()
      modifies this
      ensures Valid()
      ensures cert == LookupResult(needsRefresh, old(Value()), sni, now)
      ensures Value() == AfterLookup(needsRefresh, old(Value()), sni, now)
    {
      LinkedFinds(entries, order, values, sni);
      cert := None;
      if sni in entries && !needsRefresh(values[entries[sni]].cert.leaf, now) {
        var el := entries[sni];
        ToFront(el);
        cert := Some(values[el].cert);
      }
    }

    method LookupStale(sni: Sni, now: int) returns (cert: Option<Cert>)
      requires Valid()
      ensures cert == StaleResult(Value(), sni, now)
    {
      LinkedFinds(entries, order, values, sni);
      cert := None;
      if sni in entries && !(now > values[entries[sni]].cert.leaf.notAfter) {
        cert := Some(values[entries[sni]].cert);
      }
    }

    method Store(sni: Sni, cert: Cert)
      requires Valid()
      modifies this
      ensures Valid()
      ensures Value() == AfterStore(old(Value()), capacity, Entry(sni, cert))
    {
      LinkedIsWellFormed(entries, order, values);
      StoreCases(Value(), capacity, Entry(sni, cert));
      if sni in entries {
        Update(Entry(sni, cert));
      } else {
        Insert(Entry(sni, cert));
      }
    }

    method Update(e: Entry)
      requires Valid() && e.key in entries
      modifies this
      ensures Valid() && Value() == [e] + Without(old(Value()), e.key)
    {
      var el := entries[e.key];
      assert Distinct(Keys(Value())) by {
        LinkedIsDistinct(entries, order, values);
      }
      LinkedReplace(entries, order, values, el, e);
      ReplaceContents(order, values, el, e);
      values := values[el := e];
      ToFront(el);
    }

    method Insert(e: Entry)
      requires Valid() && e.key !in entries
      modifies this
      ensures Valid() && Value() == Take([e] + old(Value()), capacity)
    {
      var el := unused;
      LinkedPush(entries, order, values, el, e);
      values := values[el := e];
      entries := entries[e.key := el];
      order := [el] + order;
      unused := unused + 1;
      EvictOldest();
    }

    method ToFront(el: Element)
      requires Valid() && el in order
      modifies this`order
      ensures Valid() && Value() == [values[el]] + Without(old(Value()), values[el].key)
    {
      var i := IndexOf(order, el);
      LinkedMove(entries, order, values, i);
      LinkedIsDistinct(entries, order, values);
      MoveContents(order, values, i);
      order := MoveToFront(order, i);
    }

    /** The eviction loop of the store. */
    method EvictOldest()
      requires Linked(entries, order, values)
      requires forall el :: el in order ==> el < unused
      modifies this`entries, this`order
      ensures Valid()
      ensures order == Take(old(order), capacity)
    {
      LinkedCount(entries, order, values);
      while |entries| > capacity
        invariant Linked(entries, order, values)
        invariant |entries| == |order| && Min(capacity, |old(order)|) <= |order|
        invariant order <= old(order)
        decreases |order|
      {
        RemoveOldest();
        LinkedCount(entries, order, values);
      }
    }

    method RemoveOldest()
      requires Linked(entries, order, values) && order != []
      modifies this`entries, this`order
      ensures Linked(entries, order, values) && order == old(order)[..|old(order)| - 1]
    {
      LinkedDropLast(entries, order, values);
      var oldest := order[|order| - 1];
      order := order[..|order| - 1];
      entries := entries - {values[oldest].key};
    }

    /** The function that Get runs in a flight: look again, then issue and store. */
    method Fly(sni: Sni, t2: int, issued: IssueResult) returns (result: IssueResult)
      requires Valid()
      modifies this
      ensures Valid()
      ensures result == FlightResult(needsRefresh, old(Value()), sni, t2, issued)
      ensures Value() == AfterFlight(needsRefresh, capacity, old(Value()), sni, t2, issued)
    {
      var hit := Lookup(sni, t2);
      if hit.Some? {
        result := Success(hit.value);
      } else {
        result := issued;
        if issued.Success? {
          Store(sni, issued.cert);
        }
      }
    }

    /** Get without concurrency: `issued` is what the issuer returns if it is asked. */
    method Get(sni: Sni, t1: int, t2: int, t3: int, issued: IssueResult) returns (reply: Reply)
      requires Valid()
      modifies this
      ensures Valid()
      ensures reply == GetReply(needsRefresh, staleOK, capacity, old(Value()), sni, t1, t2, t3, issued)
      ensures Value() == AfterGet(needsRefresh, capacity, old(Value()), sni, t1, t2, issued)
    {
      var hit := Lookup(sni, t1);
      if hit.Some? {
        reply := Served(hit.value);
      } else {
        var result := Fly(sni, t2, issued);
        reply := Fallback(sni, t3, result);
      }
    }

    /** What Get makes of a flight's result: a failure may still be answered with a stale certificate. */
    method Fallback(sni: Sni, t3: int, result: IssueResult) returns (reply: Reply)
      requires Valid()
      ensures reply == FallbackReply(staleOK, Value(), sni, t3, result)
    {
      if result.Success? {
        return Served(result.cert);
      }
      if staleOK {
        var stale := LookupStale(sni, t3);
        if stale.Some? {
          return Stale(stale.value, result.error);
        }
      }
      return Failed(result.error);
    }
  }

  // ------------------------------------------------------------------- links

  lemma LinkedIsDistinct(entries: map<Sni, Element>, order: seq<Element>, values: map<Element, Entry>)
    requires Linked(entries, order, values)
    ensures Distinct(Keys(Contents(order, values)))
    ensures forall k :: k in entries <==> k in Keys(Contents(order, values))
  {
    var keys := Keys(Contents(order, values));
    forall i, j | 0 <= i < j < |order| ensures keys[i] != keys[j] {
      assert order[i] in order && order[j] in order;
    }
    forall k | k in entries ensures k in keys {
      var i :| 0 <= i < |order| && order[i] == entries[k];
      assert keys[i] == k;
    }
    forall k | k in keys ensures k in entries {
      var i :| 0 <= i < |order| && keys[i] == k;
      assert order[i] in order;
    }
  }

  lemma LinkedIsWellFormed(entries: map<Sni, Element>, order: seq<Element>, values: map<Element, Entry>)
    requires Linked(entries, order, values)
    ensures WellFormed(Contents(order, values), |order|)
    ensures forall k :: k in entries <==> k in Keys(Contents(order, values))
  {
    LinkedIsDistinct(entries, order, values);
  }

  lemma LinkedCount(entries: map<Sni, Element>, order: seq<Element>, values: map<Element, Entry>)
    requires Linked(entries, order, values)
    ensures |entries| == |order|
  {
    LinkedIsDistinct(entries, order, values);
    var keys := Keys(Contents(order, values));
    CardinalityOfDistinct(keys);
    assert entries.Keys == Elems(keys);
  }

  /** The map finds the entry that a search of the list finds. */
  lemma LinkedFinds(entries: map<Sni, Element>, order: seq<Element>, values: map<Element, Entry>, k: Sni)
    requires Linked(entries, order, values)
    ensures Find(Contents(order, values), k) == if k in entries then Some(values[entries[k]]) else None
  {
    LinkedIsDistinct(entries, order, values);
    FindIsEntry(Contents(order, values), k);
    if k in entries {
      var e := Find(Contents(order, values), k).value;
      var i :| 0 <= i < |order| && Contents(order, values)[i] == e;
      assert order[i] in order;
    }
  }

  lemma LinkedMove(entries: map<Sni, Element>, order: seq<Element>, values: map<Element, Entry>, i: nat)
    requires Linked(entries, order, values) && i < |order|
    ensures Linked(entries, MoveToFront(order, i), values)
    ensures forall x :: x in MoveToFront(order, i) <==> x in order
  {
    MoveIsPermutation(order, i);
  }

  /** Moving an element to the front pushes its entry. */
  lemma MoveContents(order: seq<Element>, values: map<Element, Entry>, i: nat)
    requires i < |order| && forall el :: el in order ==> el in values
    requires forall el :: el in MoveToFront(order, i) ==> el in values
    requires Distinct(Keys(Contents(order, values)))
    ensures Contents(MoveToFront(order, i), values)
         == [values[order[i]]] + Without(Contents(order, values), values[order[i]].key)
  {
    var c := Contents(order, values);
    WithoutAt(c, i);
    MovedPointwise(order, values, i);
    assert [c[i]] + c[..i] + c[i + 1..] == [c[i]] + (c[..i] + c[i + 1..]);
  }

  lemma MovedPointwise(order: seq<Element>, values: map<Element, Entry>, i: nat)
    requires i < |order| && forall el :: el in order ==> el in values
    requires forall el :: el in MoveToFront(order, i) ==> el in values
    ensures var c := Contents(order, values);
            Contents(MoveToFront(order, i), values) == [c[i]] + c[..i] + c[i + 1..]
  {
  }

  lemma MoveIsPermutation(order: seq<Element>, i: nat)
    requires Distinct(order) && i < |order|
    ensures Distinct(MoveToFront(order, i))
    ensures forall x :: x in MoveToFront(order, i) <==> x in order
  {
    assert order == order[..i] + [order[i]] + order[i + 1..];
  }

  /** Cutting out position i removes the entry of its key and no other. */
  lemma {:induction false} WithoutAt(c: seq<Entry>, i: nat)
    requires i < |c| && Distinct(Keys(c))
    ensures Without(c, c[i].key) == c[..i] + c[i + 1..]
  {
    assert Keys(c)[1..] == Keys(c[1..]);
    if i == 0 {
      assert forall j :: 0 < j < |c| ==> Keys(c)[j] != Keys(c)[0];
      WithoutAbsent(c[1..], c[0].key);
    } else {
      assert Keys(c)[0] != Keys(c)[i];
      WithoutAt(c[1..], i - 1);
    }
  }

  /** Replacing what an element holds changes the entry of that key only. */
  lemma LinkedReplace(entries: map<Sni, Element>, order: seq<Element>, values: map<Element, Entry>,
                      el: Element, e: Entry)
    requires Linked(entries, order, values) && el in order && values[el].key == e.key
    ensures Linked(entries, order, values[el := e])
  {
  }

  lemma ReplaceContents(order: seq<Element>, values: map<Element, Entry>, el: Element, e: Entry)
    requires el in order && forall x :: x in order ==> x in values
    requires values[el].key == e.key && Distinct(order) && Distinct(Keys(Contents(order, values)))
    ensures Without(Contents(order, values[el := e]), e.key) == Without(Contents(order, values), e.key)
  {
    var c := Contents(order, values);
    var i := IndexOf(order, el);
    assert Contents(order, values[el := e]) == c[i := e];
    WithoutUpdate(c, i, e);
  }

  lemma {:induction false} WithoutUpdate(c: seq<Entry>, i: nat, e: Entry)
    requires i < |c| && c[i].key == e.key
    ensures Without(c[i := e], e.key) == Without(c, e.key)
  {
    if i == 0 {
      assert c[i := e][1..] == c[1..];
    } else {
      assert c[i := e][1..] == c[1..][i - 1 := e];
      WithoutUpdate(c[1..], i - 1, e);
    }
  }

  lemma LinkedPush(entries: map<Sni, Element>, order: seq<Element>, values: map<Element, Entry>, el: Element, e: Entry)
    requires Linked(entries, order, values) && el !in order && e.key !in entries
    ensures Linked(entries[e.key := el], [el] + order, values[el := e])
    ensures Contents([el] + order, values[el := e]) == [e] + Contents(order, values)
  {
    DistinctCons(el, order);
  }

  lemma LinkedDropLast(entries: map<Sni, Element>, order: seq<Element>, values: map<Element, Entry>)
    requires Linked(entries, order, values) && order != []
    ensures Linked(entries - {values[order[|order| - 1]].key}, order[..|order| - 1], values)
  {
    var rest, last := order[..|order| - 1], order[|order| - 1];
    assert order == rest + [last];
    forall el | el in rest ensures el in order && values[el].key != values[last].key {
      assert last in order;
    }
    forall k | k in entries && k != values[last].key ensures entries[k] in rest {
      assert entries[k] in order;
    }
  }

  /** A store of a cached key evicts nothing; a store of another key pushes it in front of the list. */
  lemma StoreCases(c: seq<Entry>, capacity: nat, e: Entry)
    requires WellFormed(c, capacity)
    ensures e.key in Keys(c) ==> AfterStore(c, capacity, e) == [e] + Without(c, e.key)
    ensures e.key !in Keys(c) ==> AfterStore(c, capacity, e) == Take([e] + c, capacity)
  {
    PushedIsDistinct(c, e);
    if e.key !in Keys(c) {
      WithoutAbsent(c, e.key);
    }
  }

  lemma {:induction false} WithoutAbsent(c: seq<Entry>, k: Sni)
    requires k !in Keys(c)
    ensures Without(c, k) == c
  {
    if c != [] {
      assert Keys(c)[1..] == Keys(c[1..]);
      assert Keys(c)[0] != k;
      WithoutAbsent(c[1..], k);
    }
  }
}
