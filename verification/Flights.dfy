/**
 * Any number of concurrent Gets on one certificate cache, as a step system.
 *
 * A call advances one atomic section at a time: a locked cache method, a
 * transition of the single-flight group, or the start or end of the issuer.
 * The clock may move forward between any two sections, and the issuer of a
 * call may stay unfinished for as long as it likes.
 */
module Flights {
  import opened RefreshPolicy
  import opened Lru

  datatype Config = Config(capacity: nat, due: Policy, staleOK: bool)

  datatype Outcome = Granted(cert: Cert) | Refused(error: string)

  /** How a flight ended, and when that was decided. */
  datatype Verdict =
    | Cached(cert: Cert, at: int)
    | Issued(cert: Cert, at: int)
    | Broken(error: string, at: int)

  datatype Answer =
    | Hit(cert: Cert, at: int)
    | Landed(leader: nat, verdict: Verdict)
    | Stale(cert: Cert, at: int, leader: nat, cause: Verdict)
    | Error(leader: nat, cause: Verdict)

  /** What a call does next. */
  datatype Phase =
    | Arrived                                  // look the key up
    | Joining                                  // enter the single-flight group
    | Rechecking                               // as leader: look the key up again
    | Requesting                               // as leader: call the issuer
    | Issuing(forced: bool)                    // as leader: the issuer runs; forced when a due entry was cached
    | Storing(forced: bool, cert: Cert, at: int) // as leader: store the certificate
    | Landing(verdict: Verdict)                // as leader: end the flight
    | Waiting(leader: nat)                     // wait for the flight of another call
    | Settling(leader: nat, verdict: Verdict)  // the flight has ended: answer, or fall back to a stale entry
    | Answered(answer: Answer)

  datatype Call = Call(key: Sni, began: int, phase: Phase)

  datatype Event =
    | Requested(key: Sni, forced: bool)
    | Success(key: Sni, cert: Cert, at: int)
    | Failure(key: Sni, error: string, at: int)
    | Stored(key: Sni)
    | Evicted(key: Sni)

  /** A flight is named by the call that leads it; `results` holds the ended ones. */
  datatype State = State(
    now: int,
    cache: seq<Entry>,
    flights: map<Sni, nat>,
    results: map<nat, Verdict>,
    calls: seq<Call>,
    log: seq<Event>)

  datatype Step =
    | Tick(nanoseconds: nat)
    | Arrive(key: Sni)
    | Advance(call: nat, outcome: Outcome)  // the outcome matters only when the issuer ends

  const INIT := State(0, [], map[], map[], [], [])

  predicate Leads(p: Phase) {
    p.Rechecking? || p.Requesting? || p.Issuing? || p.Storing? || p.Landing?
  }

  predicate Enabled(s: State, step: Step) {
    match step
    case Tick(_) => true
    case Arrive(_) => true
    case Advance(i, _) =>
      i < |s.calls|
      && !s.calls[i].phase.Answered?
      && (s.calls[i].phase.Waiting? ==> s.calls[i].phase.leader in s.results)
  }

  function Enter(s: State, i: nat, p: Phase): State
    requires i < |s.calls|
  {
    s.(calls := s.calls[i := s.calls[i].(phase := p)])
  }

  function Evictions(evicted: seq<Entry>): seq<Event> {
    seq(|evicted|, i requires 0 <= i < |evicted| => Evicted(evicted[i].key))
  }

  /** How the fallback answers a flight's verdict. */
  function Settle(cfg: Config, s: State, key: Sni, leader: nat, v: Verdict): Answer {
    if !v.Broken? then Landed(leader, v)
    else
      var stale := StaleResult(s.cache, key, s.now);
      if cfg.staleOK && stale.Some? then Stale(stale.value, s.now, leader, v) else Error(leader, v)
  }

  function AdvanceCall(cfg: Config, s: State, i: nat, outcome: Outcome): State
    requires Enabled(s, Advance(i, outcome))
  {
    var key := s.calls[i].key;
    match s.calls[i].phase
    case Arrived =>
      var hit := LookupResult(cfg.due, s.cache, key, s.now);
      Enter(s.(cache := AfterLookup(cfg.due, s.cache, key, s.now)), i,
            if hit.Some? then Answered(Hit(hit.value, s.now)) else Joining)
    case Joining =>
      if key in s.flights then Enter(s, i, Waiting(s.flights[key]))
      else Enter(s.(flights := s.flights[key := i]), i, Rechecking)
    case Rechecking =>
      var hit := LookupResult(cfg.due, s.cache, key, s.now);
      Enter(s.(cache := AfterLookup(cfg.due, s.cache, key, s.now)), i,
            if hit.Some? then Landing(Cached(hit.value, s.now)) else Requesting)
    case Requesting =>
      var forced := Find(s.cache, key).Some?;
      Enter(s.(log := s.log + [Requested(key, forced)]), i, Issuing(forced))
    case Issuing(forced) =>
      (match outcome
       case Granted(cert) => Enter(s.(log := s.log + [Success(key, cert, s.now)]), i, Storing(forced, cert, s.now))
       case Refused(error) => Enter(s.(log := s.log + [Failure(key, error, s.now)]), i, Landing(Broken(error, s.now))))
    case Storing(_, cert, at) =>
      var e := Entry(key, cert);
      Enter(s.(cache := AfterStore(s.cache, cfg.capacity, e),
               log := s.log + [Stored(key)] + Evictions(EvictedBy(s.cache, cfg.capacity, e))),
            i, Landing(Issued(cert, at)))
    case Landing(v) => Enter(s.(flights := s.flights - {key}, results := s.results[i := v]), i, Settling(i, v))
    case Waiting(leader) => Enter(s, i, Settling(leader, s.results[leader]))
    case Settling(leader, v) => Enter(s, i, Answered(Settle(cfg, s, key, leader, v)))
    case Answered(_) => s
  }

  function Next(cfg: Config, s: State, step: Step): State {
    if !Enabled(s, step) then s
    else match step
      case Tick(d) => s.(now := s.now + d)
      case Arrive(key) => s.(calls := s.calls + [Call(key, s.now, Arrived)])
      case Advance(i, outcome) => AdvanceCall(cfg, s, i, outcome)
  }

  /** The state that a schedule reaches; a disabled step does nothing. */
  function Exec(cfg: Config, steps: seq<Step>): State {
    if steps == [] then INIT
    else Next(cfg, Exec(cfg, steps[..|steps| - 1]), steps[|steps| - 1])
  }

  // ------------------------------------------------------------ shape of a step

  /** What an advance does to the calls and to the flight table, whatever the phase. */
  lemma AdvanceShape(cfg: Config, s: State, i: nat, outcome: Outcome)
    requires Enabled(s, Advance(i, outcome))
    ensures var s' := AdvanceCall(cfg, s, i, outcome);
            && |s'.calls| == |s.calls| && s'.now == s.now
            && s'.calls == s.calls[i := s.calls[i].(phase := s'.calls[i].phase)]
            && match s.calls[i].phase {
                 case Joining =>
                   var key := s.calls[i].key;
                   && s'.results == s.results
                   && if key in s.flights then s'.flights == s.flights && s'.calls[i].phase == Waiting(s.flights[key])
                      else s'.flights == s.flights[key := i] && s'.calls[i].phase == Rechecking
                 case Landing(v) =>
                   && s'.flights == s.flights - {s.calls[i].key} && s'.results == s.results[i := v]
                   && s'.calls[i].phase == Settling(i, v)
                 case p =>
                   && s'.flights == s.flights && s'.results == s.results
                   && Leads(s'.calls[i].phase) == Leads(p) && !s'.calls[i].phase.Waiting?
               }
  {
  }

  // -------------------------------------------------------- flights and leaders

  ghost predicate LeadsItsKey(calls: seq<Call>, flights: map<Sni, nat>, i: nat)
    requires i < |calls|
  {
    Leads(calls[i].phase) ==> calls[i].key in flights && flights[calls[i].key] == i
  }

  ghost predicate HasLeader(calls: seq<Call>, flights: map<Sni, nat>, k: Sni)
    requires k in flights
  {
    flights[k] < |calls| && calls[flights[k]].key == k && Leads(calls[flights[k]].phase)
  }

  /** A key has a flight exactly when some call leads it, and then one call does. */
  ghost predicate LeadersMatch(calls: seq<Call>, flights: map<Sni, nat>) {
    && (forall i :: 0 <= i < |calls| ==> LeadsItsKey(calls, flights, i))
    && (forall k :: k in flights ==> HasLeader(calls, flights, k))
  }

  ghost predicate WaitsForAFlight(s: State, i: nat)
    requires i < |s.calls|
  {
    s.calls[i].phase.Waiting? ==>
      var l := s.calls[i].phase.leader;
      l < |s.calls| && s.calls[l].key == s.calls[i].key && (l in s.results || Leads(s.calls[l].phase))
  }

  /** A waiting call waits for a flight of its own key that is running or has ended. */
  ghost predicate WaitersMatch(s: State) {
    forall i :: 0 <= i < |s.calls| ==> WaitsForAFlight(s, i)
  }

  lemma LeadersStep(cfg: Config, s: State, step: Step)
    requires LeadersMatch(s.calls, s.flights)
    ensures var s' := Next(cfg, s, step); LeadersMatch(s'.calls, s'.flights)
  {
    if Enabled(s, step) {
      var s' := Next(cfg, s, step);
      match step
      case Tick(_) =>
      case Arrive(_) =>
        forall i | 0 <= i < |s'.calls| ensures LeadsItsKey(s'.calls, s'.flights, i) {
          assert i < |s.calls| ==> LeadsItsKey(s.calls, s.flights, i);
        }
        forall k | k in s'.flights ensures HasLeader(s'.calls, s'.flights, k) {
          assert HasLeader(s.calls, s.flights, k);
        }
      case Advance(c, outcome) =>
        AdvanceShape(cfg, s, c, outcome);
        LeadersAdvance(s, s', c);
    }
  }

  lemma LeadersAdvance(s: State, s': State, c: nat)
    requires LeadersMatch(s.calls, s.flights)
    requires c < |s.calls| && |s'.calls| == |s.calls|
    requires s'.calls == s.calls[c := s.calls[c].(phase := s'.calls[c].phase)]
    requires var key := s.calls[c].key; var before := Leads(s.calls[c].phase); var after := Leads(s'.calls[c].phase);
             || (s'.flights == s.flights && before == after)
             || (s'.flights == s.flights[key := c] && key !in s.flights && after)
             || (s'.flights == s.flights - {key} && before && !after)
    ensures LeadersMatch(s'.calls, s'.flights)
  {
    assert LeadsItsKey(s.calls, s.flights, c);
    forall i | 0 <= i < |s'.calls| ensures LeadsItsKey(s'.calls, s'.flights, i) {
      assert LeadsItsKey(s.calls, s.flights, i);
    }
    forall k | k in s'.flights ensures HasLeader(s'.calls, s'.flights, k) {
      assert k in s.flights ==> HasLeader(s.calls, s.flights, k);
    }
  }

  lemma WaitersStep(cfg: Config, s: State, step: Step)
    requires LeadersMatch(s.calls, s.flights) && WaitersMatch(s)
    ensures WaitersMatch(Next(cfg, s, step))
  {
    if Enabled(s, step) {
      var s' := Next(cfg, s, step);
      if step.Advance? {
        AdvanceShape(cfg, s, step.call, step.outcome);
      }
      forall i | 0 <= i < |s'.calls| ensures WaitsForAFlight(s', i) {
        if i < |s.calls| {
          assert WaitsForAFlight(s, i);
          assert s.calls[i].key in s.flights ==> HasLeader(s.calls, s.flights, s.calls[i].key);
        }
      }
    }
  }

  // ------------------------------------------------------------ in-flight misses

  predicate Missing(cfg: Config, s: State, key: Sni) {
    LookupResult(cfg.due, s.cache, key, s.now).None?
  }

  ghost predicate MissHolds(cfg: Config, s: State, i: nat)
    requires i < |s.calls|
  {
    match s.calls[i].phase
    case Requesting => Missing(cfg, s, s.calls[i].key)
    case Issuing(forced) => forced || Find(s.cache, s.calls[i].key).None?
    case Storing(forced, _, _) => forced || Find(s.cache, s.calls[i].key).None?
    case _ => true
  }

  /** The leader's miss stays true until its own store: only it stores that key, and time moves forward. */
  ghost predicate MissesHold(cfg: Config, s: State) {
    forall i :: 0 <= i < |s.calls| ==> MissHolds(cfg, s, i)
  }

  /** The entry list after an advance of this call. */
  function CacheAfter(cfg: Config, s: State, c: Call): seq<Entry> {
    match c.phase
    case Arrived => AfterLookup(cfg.due, s.cache, c.key, s.now)
    case Rechecking => AfterLookup(cfg.due, s.cache, c.key, s.now)
    case Storing(_, cert, _) => AfterStore(s.cache, cfg.capacity, Entry(c.key, cert))
    case _ => s.cache
  }

  lemma CacheShape(cfg: Config, s: State, c: nat, outcome: Outcome)
    requires Enabled(s, Advance(c, outcome))
    ensures AdvanceCall(cfg, s, c, outcome).cache == CacheAfter(cfg, s, s.calls[c])
  {
  }

  lemma CacheStaysWellFormed(cfg: Config, s: State, c: Call)
    requires WellFormed(s.cache, cfg.capacity)
    ensures WellFormed(CacheAfter(cfg, s, c), cfg.capacity)
  {
    if c.phase.Storing? {
      StoreKeepsWellFormed(s.cache, cfg.capacity, Entry(c.key, c.phase.cert));
    } else {
      LookupKeepsWellFormed(cfg.due, s.cache, cfg.capacity, c.key, s.now);
    }
  }

  /** An advance of one call leaves another key's entry as it is, or evicts it. */
  lemma CacheStep(cfg: Config, s: State, c: Call, key: Sni)
    requires WellFormed(s.cache, cfg.capacity)
    requires key == c.key ==> !c.phase.Storing?
    ensures var found := Find(CacheAfter(cfg, s, c), key);
            found == Find(s.cache, key) || found.None?
  {
    if c.phase.Storing? {
      FindAfterStore(s.cache, cfg.capacity, Entry(c.key, c.phase.cert), key);
    } else {
      FindAfterLookup(cfg.due, s.cache, c.key, s.now, key);
    }
  }

  /** A call's own advance establishes its miss, or carries it into the issue. */
  lemma MissOwnStep(cfg: Config, s: State, c: nat, outcome: Outcome)
    requires Enabled(s, Advance(c, outcome)) && MissHolds(cfg, s, c)
    ensures MissHolds(cfg, AdvanceCall(cfg, s, c, outcome), c)
  {
  }

  /** A miss survives any change that leaves the call alone and its entry the same or gone, at a later time. */
  lemma MissSurvives(cfg: Config, s: State, s': State, i: nat)
    requires Monotone(cfg.due) && i < |s.calls| && i < |s'.calls| && s'.calls[i] == s.calls[i]
    requires MissHolds(cfg, s, i) && s.now <= s'.now
    requires Leads(s.calls[i].phase) ==>
               Find(s'.cache, s.calls[i].key) == Find(s.cache, s.calls[i].key) || Find(s'.cache, s.calls[i].key).None?
    ensures MissHolds(cfg, s', i)
  {
  }

  lemma WellFormedStep(cfg: Config, s: State, step: Step)
    requires WellFormed(s.cache, cfg.capacity)
    ensures WellFormed(Next(cfg, s, step).cache, cfg.capacity)
  {
    if Enabled(s, step) && step.Advance? {
      CacheShape(cfg, s, step.call, step.outcome);
      CacheStaysWellFormed(cfg, s, s.calls[step.call]);
    }
  }

  lemma MissesStep(cfg: Config, s: State, step: Step)
    requires Monotone(cfg.due) && LeadersMatch(s.calls, s.flights)
    requires MissesHold(cfg, s) && WellFormed(s.cache, cfg.capacity)
    ensures MissesHold(cfg, Next(cfg, s, step))
  {
    if Enabled(s, step) {
      var s' := Next(cfg, s, step);
      if step.Advance? {
        MissesAdvance(cfg, s, step.call, step.outcome);
      } else {
        forall i | 0 <= i < |s'.calls| ensures MissHolds(cfg, s', i) {
          if i < |s.calls| {
            MissSurvives(cfg, s, s', i);
          }
        }
      }
    }
  }

  lemma MissesAdvance(cfg: Config, s: State, c: nat, outcome: Outcome)
    requires Monotone(cfg.due) && LeadersMatch(s.calls, s.flights)
    requires MissesHold(cfg, s) && WellFormed(s.cache, cfg.capacity)
    requires Enabled(s, Advance(c, outcome))
    ensures MissesHold(cfg, AdvanceCall(cfg, s, c, outcome))
  {
    var s' := AdvanceCall(cfg, s, c, outcome);
    AdvanceShape(cfg, s, c, outcome);
    CacheShape(cfg, s, c, outcome);
    forall i | 0 <= i < |s'.calls| ensures MissHolds(cfg, s', i) {
      if i == c {
        MissOwnStep(cfg, s, c, outcome);
      } else {
        assert LeadsItsKey(s.calls, s.flights, i) && LeadsItsKey(s.calls, s.flights, c);
        if Leads(s.calls[i].phase) {
          CacheStep(cfg, s, s.calls[c], s.calls[i].key);
        }
        MissSurvives(cfg, s, s', i);
      }
    }
  }
}
