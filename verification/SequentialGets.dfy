/**
 * Runs of Get one after the other, with an issuer that always succeeds: which
 * calls reach the issuer, and how that depends on the capacity.
 */
module SequentialGets {
  import opened Common
  import opened RefreshPolicy
  import opened Lru
  import opened CertCache

  /** A Get of `key` with its clock readings and the certificate it would be issued. */
  datatype Request = Request(key: Sni, t1: int, t2: int, cert: Cert)

  /** The entry list after a run of requests on an empty cache. */
  function After(due: Policy, capacity: nat, requests: seq<Request>): seq<Entry> {
    if requests == [] then []
    else
      var last := requests[|requests| - 1];
      var before := After(due, capacity, requests[..|requests| - 1]);
      AfterGet(due, capacity, before, last.key, last.t1, last.t2, Success(last.cert))
  }

  /** Does this Get call the issuer? */
  predicate Issues(due: Policy, c: seq<Entry>, r: Request) {
    LookupResult(due, c, r.key, r.t1).None? && LookupResult(due, c, r.key, r.t2).None?
  }

  /** A Get that issues hands back what it is issued and stores it; any other ignores the issuer. */
  lemma IssuesIs(due: Policy, staleOK: bool, capacity: nat, c: seq<Entry>, r: Request, t3: int, other: IssueResult)
    ensures Issues(due, c, r) ==>
              && GetReply(due, staleOK, capacity, c, r.key, r.t1, r.t2, t3, Success(r.cert)) == Served(r.cert)
              && AfterGet(due, capacity, c, r.key, r.t1, r.t2, Success(r.cert))
                 == AfterStore(c, capacity, Entry(r.key, r.cert))
    ensures !Issues(due, c, r) ==>
              && GetReply(due, staleOK, capacity, c, r.key, r.t1, r.t2, t3, Success(r.cert))
                 == GetReply(due, staleOK, capacity, c, r.key, r.t1, r.t2, t3, other)
              && AfterGet(due, capacity, c, r.key, r.t1, r.t2, Success(r.cert))
                 == AfterGet(due, capacity, c, r.key, r.t1, r.t2, other)
  {
  }

  predicate IssuesAt(due: Policy, capacity: nat, requests: seq<Request>, i: nat)
    requires i < |requests|
  {
    Issues(due, After(due, capacity, requests[..i]), requests[i])
  }

  /** How many requests of a run call the issuer. */
  function IssueCount(due: Policy, capacity: nat, requests: seq<Request>): nat {
    if requests == [] then 0
    else
      var n := |requests| - 1;
      IssueCount(due, capacity, requests[..n]) + if IssuesAt(due, capacity, requests, n) then 1 else 0
  }

  function RequestKeys(requests: seq<Request>): seq<Sni> {
    seq(|requests|, i requires 0 <= i < |requests| => requests[i].key)
  }

  /** No certificate of the run comes due before a later request looks at it. */
  ghost predicate NoneDue(due: Policy, requests: seq<Request>) {
    forall i, j :: 0 <= i < j < |requests| ==> !due(requests[i].cert.leaf, requests[j].t1)
  }

  /** Cached certificates were issued to earlier requests. */
  lemma {:induction false} CachedWasIssued(due: Policy, capacity: nat, requests: seq<Request>, e: Entry)
    requires e in After(due, capacity, requests)
    ensures exists i :: 0 <= i < |requests| && requests[i].cert == e.cert
  {
    var n := |requests| - 1;
    var last := requests[n];
    var c := After(due, capacity, requests[..n]);
    GetAddsOwn(due, capacity, c, last, e);
    if e in c {
      CachedWasIssued(due, capacity, requests[..n], e);
      var i :| 0 <= i < n && requests[..n][i].cert == e.cert;
      assert requests[i].cert == e.cert;
    } else {
      assert requests[n].cert == e.cert;
    }
  }

  lemma GetAddsOwn(due: Policy, capacity: nat, c: seq<Entry>, r: Request, e: Entry)
    requires e in AfterGet(due, capacity, c, r.key, r.t1, r.t2, Success(r.cert))
    ensures e in c || e.cert == r.cert
  {
    var found := Find(c, r.key);
    FindIsEntry(c, r.key);
    if found.Some? {
      assert e in AfterLookup(due, c, r.key, r.t1) + AfterLookup(due, c, r.key, r.t2) + Pushed(c, Entry(r.key, r.cert));
    } else {
      assert e in Pushed(c, Entry(r.key, r.cert));
    }
  }

  /** Without refreshes, a Get hits exactly when its key is cached. */
  lemma HitsWhenCached(due: Policy, capacity: nat, requests: seq<Request>)
    requires NoneDue(due, requests) && requests != []
    ensures var n := |requests| - 1;
            IssuesAt(due, capacity, requests, n)
            <==> requests[n].key !in Keys(After(due, capacity, requests[..n]))
    ensures var n := |requests| - 1; var c := After(due, capacity, requests[..n]);
            requests[n].key in Keys(c) ==> LookupResult(due, c, requests[n].key, requests[n].t1).Some?
  {
    var n := |requests| - 1;
    var found := Find(After(due, capacity, requests[..n]), requests[n].key);
    FindIsEntry(After(due, capacity, requests[..n]), requests[n].key);
    if found.Some? {
      CachedWasIssued(due, capacity, requests[..n], found.value);
      var i :| 0 <= i < n && requests[..n][i].cert == found.value.cert;
      assert !due(requests[i].cert.leaf, requests[n].t1);
    }
  }

  /** Whatever the capacity, every request touches its key once. */
  lemma {:induction false} RequestsAreTouches(due: Policy, capacity: nat, requests: seq<Request>)
    requires NoneDue(due, requests)
    ensures Keys(After(due, capacity, requests)) == Take(Recency(RequestKeys(requests)), capacity)
    ensures WellFormed(After(due, capacity, requests), capacity)
  {
    if requests != [] {
      var n := |requests| - 1;
      var last := requests[n];
      var c := After(due, capacity, requests[..n]);
      RequestsAreTouches(due, capacity, requests[..n]);
      HitsWhenCached(due, capacity, requests);
      assert RequestKeys(requests) == RequestKeys(requests[..n]) + [last.key];
      var e := GetIsStore(due, capacity, c, last);
      TouchKeepsPrefix(c, capacity, e, RequestKeys(requests[..n]));
      StoreKeepsWellFormed(c, capacity, e);
    }
  }

  /** A Get that hits when cached stores the entry that it hands back. */
  lemma GetIsStore(due: Policy, capacity: nat, c: seq<Entry>, r: Request) returns (e: Entry)
    requires WellFormed(c, capacity)
    requires r.key in Keys(c) ==> LookupResult(due, c, r.key, r.t1).Some?
    ensures e.key == r.key
    ensures AfterGet(due, capacity, c, r.key, r.t1, r.t2, Success(r.cert)) == AfterStore(c, capacity, e)
  {
    FindIsEntry(c, r.key);
    if r.key in Keys(c) {
      e := Find(c, r.key).value;
      HitIsStore(due, c, capacity, r.key, r.t1);
    } else {
      e := Entry(r.key, r.cert);
    }
  }

  /**
   * A request reaches the issuer exactly when its key was never requested, or
   * at least `capacity` distinct other keys were requested since.
   */
  lemma IssuesIffForgotten(due: Policy, capacity: nat, requests: seq<Request>, i: nat)
    requires NoneDue(due, requests) && i < |requests|
    ensures var before := RequestKeys(requests[..i]);
            IssuesAt(due, capacity, requests, i)
            <==> requests[i].key !in before || |Since(before, requests[i].key)| >= capacity
    ensures requests[i].key !in Since(RequestKeys(requests[..i]), requests[i].key)
  {
    var k := requests[i].key;
    var before := RequestKeys(requests[..i]);
    assert requests[..i + 1][..i] == requests[..i];
    assert NoneDue(due, requests[..i]);
    HitsWhenCached(due, capacity, requests[..i + 1]);
    RequestsAreTouches(due, capacity, requests[..i]);
    RankDecides(before, capacity, k);
    SinceExcludes(before, k);
  }

  lemma {:induction false} SinceExcludes(touched: seq<Sni>, k: Sni)
    ensures k !in Since(touched, k)
  {
    if touched != [] {
      SinceExcludes(touched[..|touched| - 1], k);
    }
  }

  /** LRU inclusion, request by request: what a cache misses, every smaller cache misses. */
  lemma SmallerCacheAlsoIssues(due: Policy, small: nat, large: nat, requests: seq<Request>, i: nat)
    requires NoneDue(due, requests) && small <= large && i < |requests|
    requires IssuesAt(due, large, requests, i)
    ensures IssuesAt(due, small, requests, i)
  {
    IssuesIffForgotten(due, small, requests, i);
    IssuesIffForgotten(due, large, requests, i);
  }

  /** A larger capacity never causes more issues. */
  lemma {:induction false} LargerCacheIssuesNoMore(due: Policy, small: nat, large: nat, requests: seq<Request>)
    requires NoneDue(due, requests) && small <= large
    ensures IssueCount(due, large, requests) <= IssueCount(due, small, requests)
  {
    if requests != [] {
      var n := |requests| - 1;
      LargerCacheIssuesNoMore(due, small, large, requests[..n]);
      if IssuesAt(due, large, requests, n) {
        SmallerCacheAlsoIssues(due, small, large, requests, n);
      }
    }
  }
}
