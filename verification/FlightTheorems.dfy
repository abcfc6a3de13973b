/**
 * The main results about concurrent Gets, for every schedule: single flight,
 * bounded issuing, justified answers, and progress.
 */
module FlightTheorems {
  import opened Common
  import opened Int64
  import opened RefreshPolicy
  import opened Lru
  import opened Flights
  import opened FlightRuns

  // ---------------------------------------------------------------- invariant

  /** What holds under any refresh policy. */
  ghost predicate Core(cfg: Config, s: State) {
    && LeadersMatch(s.calls, s.flights)
    && WaitersMatch(s)
    && WellFormed(s.cache, cfg.capacity)
    && Provenance(cfg, s)
  }

  lemma {:induction false} ReachableCore(cfg: Config, steps: seq<Step>)
    ensures Core(cfg, Exec(cfg, steps))
  {
    if steps != [] {
      var before, step := Exec(cfg, steps[..|steps| - 1]), steps[|steps| - 1];
      ReachableCore(cfg, steps[..|steps| - 1]);
      LeadersStep(cfg, before, step);
      WaitersStep(cfg, before, step);
      WellFormedStep(cfg, before, step);
      ProvenanceStep(cfg, before, step);
    }
  }

  ghost predicate Inv(cfg: Config, s: State) {
    Core(cfg, s) && MissesHold(cfg, s)
  }

  /** What holds once a policy that demands a refresh keeps demanding it. */
  lemma {:induction false} ReachableInv(cfg: Config, steps: seq<Step>)
    requires Monotone(cfg.due)
    ensures Inv(cfg, Exec(cfg, steps))
  {
    ReachableCore(cfg, steps);
    if steps != [] {
      ReachableInv(cfg, steps[..|steps| - 1]);
      MissesStep(cfg, Exec(cfg, steps[..|steps| - 1]), steps[|steps| - 1]);
    }
  }

  // ------------------------------------------------------------- single flight

  /** At most one issue per key is in progress, in every interleaving. */
  lemma OneIssuePerKey(cfg: Config, steps: seq<Step>, i: nat, j: nat)
    requires var s := Exec(cfg, steps);
             && i < |s.calls| && j < |s.calls| && s.calls[i].key == s.calls[j].key
             && s.calls[i].phase.Issuing? && s.calls[j].phase.Issuing?
    ensures i == j
  {
    var s := Exec(cfg, steps);
    ReachableCore(cfg, steps);
    assert LeadsItsKey(s.calls, s.flights, i) && LeadsItsKey(s.calls, s.flights, j);
  }

  /** An issue starts only when, at that moment, every cached certificate of the key is due. */
  lemma IssueStartsOnlyOnMiss(cfg: Config, steps: seq<Step>, i: nat, outcome: Outcome, e: Entry)
    requires Monotone(cfg.due)
    requires var s := Exec(cfg, steps); var s' := Next(cfg, s, Advance(i, outcome));
             && i < |s.calls| && !s.calls[i].phase.Issuing? && s'.calls[i].phase.Issuing?
             && e in s.cache && e.key == s.calls[i].key
    ensures var s := Exec(cfg, steps); cfg.due(e.cert.leaf, s.now)
  {
    var s := Exec(cfg, steps);
    ReachableInv(cfg, steps);
    assert MissHolds(cfg, s, i);
    FoundIsOnly(s.cache, cfg.capacity, e);
  }

  lemma {:induction false} FoundIsOnly(c: seq<Entry>, capacity: nat, e: Entry)
    requires WellFormed(c, capacity) && e in c
    ensures Find(c, e.key) == Some(e)
  {
    var i :| 0 <= i < |c| && c[i] == e;
    FindIsEntry(c, e.key);
    assert Keys(c)[i] == e.key;
    var j :| 0 <= j < |c| && c[j] == Find(c, e.key).value;
    assert Keys(c)[i] == Keys(c)[j];
  }

  // ---------------------------------------------------------------- accounting

  function Stores(s: State, k: Sni): nat { multiset(s.log)[Stored(k)] }
  function Evicts(s: State, k: Sni): nat { multiset(s.log)[Evicted(k)] }
  function Forced(s: State, k: Sni): nat { multiset(s.log)[Requested(k, true)] }
  function Present(s: State, k: Sni): nat { if Find(s.cache, k).Some? then 1 else 0 }

  predicate ForcedPhase(p: Phase) {
    (p.Issuing? && p.forced) || (p.Storing? && p.forced)
  }

  /** One while an issue that began over a due entry is still to be stored. */
  function Pending(s: State, k: Sni): nat {
    if k in s.flights && s.flights[k] < |s.calls| && ForcedPhase(s.calls[s.flights[k]].phase) then 1 else 0
  }

  ghost predicate Balanced(s: State, k: Sni) {
    Stores(s, k) + Pending(s, k) <= Evicts(s, k) + Forced(s, k) + Present(s, k)
  }

  lemma EvictionsCount(evicted: seq<Entry>, k: Sni)
    ensures Find(evicted, k).Some? ==> multiset(Evictions(evicted))[Evicted(k)] >= 1
    ensures multiset(Evictions(evicted))[Stored(k)] == 0
    ensures forall b :: multiset(Evictions(evicted))[Requested(k, b)] == 0
  {
    FindIsEntry(evicted, k);
    if Find(evicted, k).Some? {
      var i :| 0 <= i < |evicted| && evicted[i] == Find(evicted, k).value;
      assert Evictions(evicted)[i] == Evicted(k);
    }
  }

  /** What one advance adds to the tallies of a key. */
  lemma TallyStep(cfg: Config, s: State, i: nat, outcome: Outcome, k: Sni)
    requires Enabled(s, Advance(i, outcome))
    ensures var s' := AdvanceCall(cfg, s, i, outcome); var c := s.calls[i];
            && Stores(s', k) == Stores(s, k) + (if c.phase.Storing? && c.key == k then 1 else 0)
            && Forced(s', k) == Forced(s, k)
                 + (if c.phase.Requesting? && c.key == k && Find(s.cache, k).Some? then 1 else 0)
            && Evicts(s', k) >= Evicts(s, k)
                 + (if c.phase.Storing? && Find(EvictedBy(s.cache, cfg.capacity, Entry(c.key, c.phase.cert)), k).Some?
                    then 1 else 0)
  {
    LogShape(cfg, s, i, outcome);
    var c := s.calls[i];
    if c.phase.Storing? {
      EvictionsCount(EvictedBy(s.cache, cfg.capacity, Entry(c.key, c.phase.cert)), k);
    }
  }

  /** A key that loses its entry in a step is counted as evicted; a stored key is present or evicted. */
  lemma PresentStep(cfg: Config, s: State, i: nat, outcome: Outcome, k: Sni)
    requires Enabled(s, Advance(i, outcome)) && WellFormed(s.cache, cfg.capacity)
    ensures var s' := AdvanceCall(cfg, s, i, outcome); var c := s.calls[i];
            if c.phase.Storing? then
              var evicted := Find(EvictedBy(s.cache, cfg.capacity, Entry(c.key, c.phase.cert)), k);
              Present(s', k) + (if evicted.Some? then 1 else 0) == if k == c.key then 1 else Present(s, k)
            else Present(s', k) == Present(s, k)
  {
    var c := s.calls[i];
    CacheShape(cfg, s, i, outcome);
    if c.phase.Storing? {
      FindAfterStore(s.cache, cfg.capacity, Entry(c.key, c.phase.cert), k);
    } else {
      FindAfterLookup(cfg.due, s.cache, c.key, s.now, k);
    }
  }

  /** How a step changes what is pending: only the leader of the key's flight does. */
  lemma PendingStep(cfg: Config, s: State, i: nat, outcome: Outcome, k: Sni)
    requires Enabled(s, Advance(i, outcome)) && LeadersMatch(s.calls, s.flights)
    ensures var s' := AdvanceCall(cfg, s, i, outcome); var c := s.calls[i];
            if c.key != k then Pending(s', k) == Pending(s, k)
            else match c.phase {
              case Requesting => Pending(s', k) <= if Find(s.cache, k).Some? then 1 else 0
              case Storing(forced, _, _) => Pending(s', k) == 0 && Pending(s, k) == if forced then 1 else 0
              case _ => Pending(s', k) <= Pending(s, k)
            }
  {
    AdvanceShape(cfg, s, i, outcome);
    assert LeadsItsKey(s.calls, s.flights, i);
    if k in s.flights {
      assert HasLeader(s.calls, s.flights, k);
    }
  }

  lemma BalancedAdvance(cfg: Config, s: State, i: nat, outcome: Outcome, k: Sni)
    requires Enabled(s, Advance(i, outcome)) && Inv(cfg, s) && Balanced(s, k)
    ensures Balanced(AdvanceCall(cfg, s, i, outcome), k)
  {
    TallyStep(cfg, s, i, outcome, k);
    PresentStep(cfg, s, i, outcome, k);
    PendingStep(cfg, s, i, outcome, k);
    assert MissHolds(cfg, s, i);
  }

  lemma {:induction false} ReachableBalance(cfg: Config, steps: seq<Step>, k: Sni)
    requires Monotone(cfg.due)
    ensures Balanced(Exec(cfg, steps), k)
  {
    if steps != [] {
      var before, step := Exec(cfg, steps[..|steps| - 1]), steps[|steps| - 1];
      ReachableBalance(cfg, steps[..|steps| - 1], k);
      ReachableInv(cfg, steps[..|steps| - 1]);
      if Enabled(before, step) {
        match step
        case Tick(_) =>
        case Arrive(_) => assert k in before.flights ==> HasLeader(before.calls, before.flights, k);
        case Advance(i, outcome) => BalancedAdvance(cfg, before, i, outcome, k);
      }
    }
  }

  /** Over every run, stores of a key number at most one more than its evictions and its forced re-issues. */
  lemma StoresAreBounded(cfg: Config, steps: seq<Step>, k: Sni)
    requires Monotone(cfg.due)
    ensures var s := Exec(cfg, steps); Stores(s, k) <= 1 + Evicts(s, k) + Forced(s, k)
  {
    ReachableBalance(cfg, steps, k);
  }

  // ----------------------------------------------------- runs that fit the cache

  function CallKeys(s: State): set<Sni> {
    set i | 0 <= i < |s.calls| :: s.calls[i].key
  }

  ghost predicate NothingEvicted(s: State) {
    && (forall k :: Evicts(s, k) == 0)
    && (forall e :: e in s.cache ==> e.key in CallKeys(s))
  }

  lemma CallKeysGrow(cfg: Config, s: State, step: Step)
    ensures CallKeys(s) <= CallKeys(Next(cfg, s, step))
  {
    var s' := Next(cfg, s, step);
    NextIsLater(cfg, s, step);
    forall k | k in CallKeys(s) ensures k in CallKeys(s') {
      var i :| 0 <= i < |s.calls| && s.calls[i].key == k;
      assert s'.calls[i].key == k;
    }
  }

  /** A list whose keys are distinct and drawn from few enough calls is not cut. */
  lemma FitsWithoutEviction(cfg: Config, s: State, e: Entry)
    requires WellFormed(s.cache, cfg.capacity) && |CallKeys(s)| <= cfg.capacity
    requires e.key in CallKeys(s) && forall x :: x in s.cache ==> x.key in CallKeys(s)
    ensures EvictedBy(s.cache, cfg.capacity, e) == []
  {
    var keys := Keys(Pushed(s.cache, e));
    PushedIsDistinct(s.cache, e);
    CardinalityOfDistinct(keys);
    forall k | k in Elems(keys) ensures k in CallKeys(s) {
      var i :| 0 <= i < |keys| && keys[i] == k;
      assert Pushed(s.cache, e)[i] in Pushed(s.cache, e);
    }
    SubsetSize(Elems(keys), CallKeys(s));
  }

  lemma SubsetSize<T>(a: set<T>, b: set<T>)
    requires a <= b
    ensures |a| <= |b|
  {
    assert b == a + (b - a);
  }

  /** A step that evicts no entry logs no eviction. */
  lemma NoEvictionLogged(cfg: Config, s: State, i: nat, outcome: Outcome, k: Sni)
    requires Enabled(s, Advance(i, outcome))
    requires var c := s.calls[i];
             c.phase.Storing? ==> EvictedBy(s.cache, cfg.capacity, Entry(c.key, c.phase.cert)) == []
    ensures Evicts(AdvanceCall(cfg, s, i, outcome), k) == Evicts(s, k)
  {
    LogShape(cfg, s, i, outcome);
    var emitted := Emitted(cfg, s, i, outcome);
    assert Evicted(k) !in emitted;
    assert multiset(emitted)[Evicted(k)] == 0;
  }

  lemma NothingEvictedStep(cfg: Config, s: State, step: Step)
    requires Core(cfg, s) && NothingEvicted(s) && |CallKeys(s)| <= cfg.capacity
    ensures NothingEvicted(Next(cfg, s, step))
  {
    var s' := Next(cfg, s, step);
    CallKeysGrow(cfg, s, step);
    if Enabled(s, step) && step.Advance? {
      var c := s.calls[step.call];
      assert c.key in CallKeys(s);
      if c.phase.Storing? {
        FitsWithoutEviction(cfg, s, Entry(c.key, c.phase.cert));
      }
      forall k ensures Evicts(s', k) == 0 {
        NoEvictionLogged(cfg, s, step.call, step.outcome, k);
      }
      CacheShape(cfg, s, step.call, step.outcome);
      forall e | e in s'.cache ensures e.key in CallKeys(s') {
        EntriesComeFrom(cfg, s, c, e);
      }
    } else {
      forall k ensures Evicts(s', k) == 0 {
        assert Evicts(s, k) == 0;
      }
    }
  }

  lemma {:induction false} FittingRunEvictsNothing(cfg: Config, steps: seq<Step>)
    requires |CallKeys(Exec(cfg, steps))| <= cfg.capacity
    ensures NothingEvicted(Exec(cfg, steps))
  {
    if steps != [] {
      var before, step := Exec(cfg, steps[..|steps| - 1]), steps[|steps| - 1];
      CallKeysGrow(cfg, before, step);
      SubsetSize(CallKeys(before), CallKeys(Exec(cfg, steps)));
      FittingRunEvictsNothing(cfg, steps[..|steps| - 1]);
      ReachableCore(cfg, steps[..|steps| - 1]);
      NothingEvictedStep(cfg, before, step);
    }
  }

  /** When the distinct keys fit the cache and no issue was forced by a due entry, each key is stored at most once. */
  lemma FittingRunStoresOnce(cfg: Config, steps: seq<Step>, k: Sni)
    requires Monotone(cfg.due) && |CallKeys(Exec(cfg, steps))| <= cfg.capacity
    requires Requested(k, true) !in Exec(cfg, steps).log
    ensures Stores(Exec(cfg, steps), k) <= 1
  {
    FittingRunEvictsNothing(cfg, steps);
    StoresAreBounded(cfg, steps, k);
  }

  /** Some certificate issued for k is due by now. */
  ghost predicate SomeDue(cfg: Config, s: State, k: Sni) {
    exists cert, at :: Success(k, cert, at) in s.log && cfg.due(cert.leaf, s.now)
  }

  lemma SomeDueLater(cfg: Config, s: State, s': State, k: Sni)
    requires Monotone(cfg.due) && Later(s, s') && SomeDue(cfg, s, k)
    ensures SomeDue(cfg, s', k)
  {
    var cert, at :| Success(k, cert, at) in s.log && cfg.due(cert.leaf, s.now);
    assert Success(k, cert, at) in s'.log && cfg.due(cert.leaf, s'.now);
  }

  /** An issue is forced only over a certificate of that key that is due. */
  lemma {:induction false} ForcedOnlyWhenDue(cfg: Config, steps: seq<Step>, k: Sni)
    requires Monotone(cfg.due) && Requested(k, true) in Exec(cfg, steps).log
    ensures SomeDue(cfg, Exec(cfg, steps), k)
  {
    var before, step := Exec(cfg, steps[..|steps| - 1]), steps[|steps| - 1];
    NextIsLater(cfg, before, step);
    if Requested(k, true) in before.log {
      ForcedOnlyWhenDue(cfg, steps[..|steps| - 1], k);
    } else {
      ReachableInv(cfg, steps[..|steps| - 1]);
      ForcedRequestIsDue(cfg, before, step.call, step.outcome, k);
    }
    SomeDueLater(cfg, before, Exec(cfg, steps), k);
  }

  lemma ForcedRequestIsDue(cfg: Config, s: State, i: nat, outcome: Outcome, k: Sni)
    requires Enabled(s, Advance(i, outcome)) && Inv(cfg, s)
    requires Requested(k, true) !in s.log && Requested(k, true) in AdvanceCall(cfg, s, i, outcome).log
    ensures SomeDue(cfg, s, k)
  {
    LogShape(cfg, s, i, outcome);
    assert Requested(k, true) in Emitted(cfg, s, i, outcome);
    assert MissHolds(cfg, s, i);
    FoundWasIssued(s, k);
  }

  /** In particular, each key is stored at most once when no certificate issued for it has come due. */
  lemma FreshRunStoresOnce(cfg: Config, steps: seq<Step>, k: Sni)
    requires Monotone(cfg.due) && |CallKeys(Exec(cfg, steps))| <= cfg.capacity
    requires !SomeDue(cfg, Exec(cfg, steps), k)
    ensures Stores(Exec(cfg, steps), k) <= 1
  {
    if Requested(k, true) in Exec(cfg, steps).log {
      ForcedOnlyWhenDue(cfg, steps, k);
    }
    FittingRunStoresOnce(cfg, steps, k);
  }

  // ------------------------------------------------------------------- answers

  /**
   * Every answer is justified: its certificate was issued for the very key,
   * and at its deciding instant it was just issued, or cached and not due, or
   * (after a failed flight, and only with staleOK) not past its NotAfter.
   */
  lemma AnswersAreJustified(cfg: Config, steps: seq<Step>, i: nat)
    requires var s := Exec(cfg, steps); i < |s.calls| && s.calls[i].phase.Answered?
    ensures var s := Exec(cfg, steps); GoodAnswer(cfg, s, s.calls[i], s.calls[i].phase.answer)
  {
    ReachableCore(cfg, steps);
    assert GoodPhase(cfg, Exec(cfg, steps), i);
  }

  /** A failed flight is answered with an error exactly when no entry of the key may be served stale. */
  lemma ErrorIffNothingStale(cfg: Config, steps: seq<Step>, i: nat, outcome: Outcome)
    requires var s := Exec(cfg, steps);
             i < |s.calls| && s.calls[i].phase.Settling? && s.calls[i].phase.verdict.Broken?
    ensures var s := Exec(cfg, steps);
            var p := Next(cfg, s, Advance(i, outcome)).calls[i].phase;
            && p.Answered?
            && (p.answer.Error? <==>
                  !cfg.staleOK || forall e :: e in s.cache && e.key == s.calls[i].key ==> s.now > e.cert.leaf.notAfter)
  {
    var s := Exec(cfg, steps);
    var key := s.calls[i].key;
    ReachableCore(cfg, steps);
    FindIsEntry(s.cache, key);
    if Find(s.cache, key).Some? {
      FoundIsOnly(s.cache, cfg.capacity, Find(s.cache, key).value);
    }
    forall e | e in s.cache && e.key == key ensures Find(s.cache, key) == Some(e) {
      FoundIsOnly(s.cache, cfg.capacity, e);
    }
  }

  /** The certificate of an answer, with the instant at which it was chosen. */
  function Choice(a: Answer): Option<(Cert, int)> {
    match a
    case Hit(cert, at) => Some((cert, at))
    case Landed(_, Cached(cert, at)) => Some((cert, at))
    case Landed(_, Issued(cert, at)) => Some((cert, at))
    case Stale(cert, at, _, _) => Some((cert, at))
    case _ => None
  }

  /**
   * Under the vault policy, a certificate chosen from the cache had not
   * expired when it was chosen: always when it is served stale, and otherwise
   * provided its own lifetime fits the arithmetic.
   */
  lemma VaultAnswersAreUnexpired(cfg: Config, steps: seq<Step>, i: nat)
    requires cfg.due == TwoThirdsElapsed
    requires var s := Exec(cfg, steps); i < |s.calls| && s.calls[i].phase.Answered?
    requires var a := Exec(cfg, steps).calls[i].phase.answer;
             && Choice(a).Some? && !(a.Landed? && a.verdict.Issued?)
             && (!a.Stale? ==> var leaf := Choice(a).value.0.leaf; 0 <= leaf.notAfter - leaf.notBefore < TWO_62)
    ensures var (cert, at) := Choice(Exec(cfg, steps).calls[i].phase.answer).value; at <= cert.leaf.notAfter
  {
    AnswersAreJustified(cfg, steps, i);
    var a := Exec(cfg, steps).calls[i].phase.answer;
    var (cert, at) := Choice(a).value;
    if !a.Stale? {
      NotDueLeavesAThird(cert.leaf, at);
    }
  }

  /** The certificate of a call that did not join another call's flight was chosen during the call. */
  lemma UnsharedAnswersAreTimely(cfg: Config, steps: seq<Step>, i: nat)
    requires var s := Exec(cfg, steps); i < |s.calls| && s.calls[i].phase.Answered?
    requires var a := Exec(cfg, steps).calls[i].phase.answer; Choice(a).Some? && (a.Landed? ==> a.leader == i)
    ensures var s := Exec(cfg, steps); s.calls[i].began <= Choice(s.calls[i].phase.answer).value.1 <= s.now
  {
    AnswersAreJustified(cfg, steps, i);
  }

  // ------------------------------------------------------------------ progress

  /** How many advances a call may still need. */
  function Remaining(p: Phase): nat {
    match p
    case Arrived => 8
    case Joining => 7
    case Rechecking => 6
    case Requesting => 5
    case Issuing(_) => 4
    case Storing(_, _, _) => 3
    case Landing(_) => 2
    case Waiting(_) => 2
    case Settling(_, _) => 1
    case Answered(_) => 0
  }

  function TotalRemaining(calls: seq<Call>): nat {
    if calls == [] then 0
    else TotalRemaining(calls[..|calls| - 1]) + Remaining(calls[|calls| - 1].phase)
  }

  lemma {:induction false} TotalAfterUpdate(calls: seq<Call>, i: nat, c: Call)
    requires i < |calls|
    ensures TotalRemaining(calls[i := c]) == TotalRemaining(calls) - Remaining(calls[i].phase) + Remaining(c.phase)
  {
    var n := |calls| - 1;
    if i == n {
      assert calls[i := c][..n] == calls[..n];
    } else {
      assert calls[i := c][..n] == calls[..n][i := c];
      TotalAfterUpdate(calls[..n], i, c);
    }
  }

  lemma AdvanceDescends(cfg: Config, s: State, i: nat, outcome: Outcome)
    requires Enabled(s, Advance(i, outcome))
    ensures Remaining(AdvanceCall(cfg, s, i, outcome).calls[i].phase) < Remaining(s.calls[i].phase)
  {
    match s.calls[i].phase
    case Arrived =>
    case Joining =>
    case Rechecking =>
    case Issuing(_) =>
    case _ =>
  }

  /** Every enabled advance brings the run closer to its end. */
  lemma AdvanceMakesProgress(cfg: Config, s: State, i: nat, outcome: Outcome)
    requires Enabled(s, Advance(i, outcome))
    ensures TotalRemaining(AdvanceCall(cfg, s, i, outcome).calls) < TotalRemaining(s.calls)
  {
    var s' := AdvanceCall(cfg, s, i, outcome);
    AdvanceShape(cfg, s, i, outcome);
    AdvanceDescends(cfg, s, i, outcome);
    TotalAfterUpdate(s.calls, i, s'.calls[i]);
  }

  /** The advances of a schedule that were enabled when they were taken. */
  function Advances(cfg: Config, steps: seq<Step>): nat {
    if steps == [] then 0
    else
      var n := |steps| - 1;
      Advances(cfg, steps[..n]) + if steps[n].Advance? && Enabled(Exec(cfg, steps[..n]), steps[n]) then 1 else 0
  }

  /** However calls interleave, a run takes at most eight advances per call. */
  lemma {:induction false} RunsAreBounded(cfg: Config, steps: seq<Step>)
    ensures var s := Exec(cfg, steps);
            Advances(cfg, steps) + TotalRemaining(s.calls) <= 8 * |s.calls|
  {
    if steps != [] {
      var n := |steps| - 1;
      var before := Exec(cfg, steps[..n]);
      RunsAreBounded(cfg, steps[..n]);
      if Enabled(before, steps[n]) {
        match steps[n]
        case Tick(_) =>
        case Arrive(key) =>
          var calls' := Exec(cfg, steps).calls;
          assert calls'[..|calls'| - 1] == before.calls;
        case Advance(i, outcome) =>
          AdvanceShape(cfg, before, i, outcome);
          AdvanceMakesProgress(cfg, before, i, outcome);
      }
    }
  }

  /** An unanswered call can always move, or the leader whose flight it waits for can, whatever the issuer does. */
  lemma NoDeadlock(cfg: Config, steps: seq<Step>, i: nat, outcome: Outcome)
    requires var s := Exec(cfg, steps); i < |s.calls| && !s.calls[i].phase.Answered?
    ensures var s := Exec(cfg, steps);
            || Enabled(s, Advance(i, outcome))
            || (s.calls[i].phase.Waiting? && Enabled(s, Advance(s.calls[i].phase.leader, outcome)))
  {
    ReachableCore(cfg, steps);
    assert WaitsForAFlight(Exec(cfg, steps), i);
  }

  /** So a schedule that leaves nothing to advance has answered every call. */
  lemma FinishedRunsAnswerEveryCall(cfg: Config, steps: seq<Step>, i: nat)
    requires var s := Exec(cfg, steps); forall j, o :: !Enabled(s, Advance(j, o))
    requires i < |Exec(cfg, steps).calls|
    ensures Exec(cfg, steps).calls[i].phase.Answered?
  {
    if !Exec(cfg, steps).calls[i].phase.Answered? {
      NoDeadlock(cfg, steps, i, Refused(""));
    }
  }
}
