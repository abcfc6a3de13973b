/**
 * What holds in every state that any schedule of concurrent Gets reaches.
 */
module FlightRuns {
  import opened Common
  import opened Lru
  import opened Flights

  // ------------------------------------------------------------ what is logged

  function Emitted(cfg: Config, s: State, i: nat, outcome: Outcome): seq<Event>
    requires i < |s.calls|
  {
    var key := s.calls[i].key;
    match s.calls[i].phase
    case Requesting => [Requested(key, Find(s.cache, key).Some?)]
    case Issuing(_) =>
      (match outcome
       case Granted(cert) => [Success(key, cert, s.now)]
       case Refused(error) => [Failure(key, error, s.now)])
    case Storing(_, cert, _) => [Stored(key)] + Evictions(EvictedBy(s.cache, cfg.capacity, Entry(key, cert)))
    case _ => []
  }

  lemma LogShape(cfg: Config, s: State, i: nat, outcome: Outcome)
    requires Enabled(s, Advance(i, outcome))
    ensures AdvanceCall(cfg, s, i, outcome).log == s.log + Emitted(cfg, s, i, outcome)
  {
    assert s.log + [] == s.log;
    match s.calls[i].phase
    case Requesting =>
    case Issuing(_) =>
    case Storing(_, cert, _) =>
      var e := Entry(s.calls[i].key, cert);
      Regroup(s.log, [Stored(e.key)], Evictions(EvictedBy(s.cache, cfg.capacity, e)));
    case _ =>
  }

  lemma LogGrows(cfg: Config, s: State, step: Step)
    ensures s.log <= Next(cfg, s, step).log
  {
    if Enabled(s, step) && step.Advance? {
      LogShape(cfg, s, step.call, step.outcome);
    }
  }

  // -------------------------------------------------------------- provenance

  /** Some issue for this key produced this certificate. */
  ghost predicate WasIssued(log: seq<Event>, key: Sni, cert: Cert) {
    exists at :: Success(key, cert, at) in log
  }

  /** A verdict reports what its issue did, or a cached certificate that was not due when it was looked up. */
  ghost predicate GoodVerdict(cfg: Config, log: seq<Event>, key: Sni, v: Verdict) {
    match v
    case Cached(cert, at) => WasIssued(log, key, cert) && !cfg.due(cert.leaf, at)
    case Issued(cert, at) => Success(key, cert, at) in log
    case Broken(error, at) => Failure(key, error, at) in log
  }

  /** The verdict was reached while the call that led the flight was under way. */
  ghost predicate DecidedBy(s: State, key: Sni, leader: nat, v: Verdict) {
    leader < |s.calls| && s.calls[leader].key == key && s.calls[leader].began <= v.at <= s.now
  }

  ghost predicate GoodFlight(cfg: Config, s: State, key: Sni, leader: nat, v: Verdict) {
    GoodVerdict(cfg, s.log, key, v) && DecidedBy(s, key, leader, v)
  }

  ghost predicate GoodAnswer(cfg: Config, s: State, c: Call, a: Answer) {
    match a
    case Hit(cert, at) => WasIssued(s.log, c.key, cert) && !cfg.due(cert.leaf, at) && c.began <= at <= s.now
    case Landed(leader, v) => !v.Broken? && GoodFlight(cfg, s, c.key, leader, v)
    case Stale(cert, at, leader, cause) =>
      && cfg.staleOK && cause.Broken? && GoodFlight(cfg, s, c.key, leader, cause)
      && WasIssued(s.log, c.key, cert) && at <= cert.leaf.notAfter && c.began <= at <= s.now
    case Error(leader, cause) => cause.Broken? && GoodFlight(cfg, s, c.key, leader, cause)
  }

  ghost predicate GoodPhase(cfg: Config, s: State, i: nat)
    requires i < |s.calls|
  {
    var c := s.calls[i];
    && c.began <= s.now
    && match c.phase {
         case Storing(_, cert, at) => GoodFlight(cfg, s, c.key, i, Issued(cert, at))
         case Landing(v) => GoodFlight(cfg, s, c.key, i, v)
         case Settling(leader, v) => GoodFlight(cfg, s, c.key, leader, v)
         case Answered(a) => GoodAnswer(cfg, s, c, a)
         case _ => true
       }
  }

  ghost predicate CacheIssued(s: State) {
    forall e :: e in s.cache ==> WasIssued(s.log, e.key, e.cert)
  }

  ghost predicate GoodResults(cfg: Config, s: State) {
    forall l :: l in s.results ==> l < |s.calls| && GoodFlight(cfg, s, s.calls[l].key, l, s.results[l])
  }

  ghost predicate Provenance(cfg: Config, s: State) {
    && CacheIssued(s)
    && GoodResults(cfg, s)
    && (forall i :: 0 <= i < |s.calls| ==> GoodPhase(cfg, s, i))
  }

  /** Later states keep the log, the clock and the calls, so what was justified stays so. */
  ghost predicate Later(s: State, s': State) {
    && s.log <= s'.log && s.now <= s'.now && |s.calls| <= |s'.calls|
    && (forall i :: 0 <= i < |s.calls| ==> s'.calls[i].key == s.calls[i].key && s'.calls[i].began == s.calls[i].began)
  }

  lemma NextIsLater(cfg: Config, s: State, step: Step)
    ensures Later(s, Next(cfg, s, step))
  {
    LogGrows(cfg, s, step);
    if Enabled(s, step) && step.Advance? {
      AdvanceShape(cfg, s, step.call, step.outcome);
    }
  }

  lemma WasIssuedLater(log: seq<Event>, log': seq<Event>, key: Sni, cert: Cert)
    requires log <= log' && WasIssued(log, key, cert)
    ensures WasIssued(log', key, cert)
  {
    var at :| Success(key, cert, at) in log;
    assert Success(key, cert, at) in log';
  }

  lemma GoodFlightLater(cfg: Config, s: State, s': State, key: Sni, leader: nat, v: Verdict)
    requires Later(s, s') && GoodFlight(cfg, s, key, leader, v)
    ensures GoodFlight(cfg, s', key, leader, v)
  {
    if v.Cached? {
      WasIssuedLater(s.log, s'.log, key, v.cert);
    }
  }

  lemma GoodPhaseLater(cfg: Config, s: State, s': State, i: nat)
    requires Later(s, s') && i < |s.calls| && GoodPhase(cfg, s, i) && s'.calls[i] == s.calls[i]
    ensures GoodPhase(cfg, s', i)
  {
    var c := s.calls[i];
    match c.phase
    case Storing(_, cert, at) => GoodFlightLater(cfg, s, s', c.key, i, Issued(cert, at));
    case Landing(v) => GoodFlightLater(cfg, s, s', c.key, i, v);
    case Settling(leader, v) => GoodFlightLater(cfg, s, s', c.key, leader, v);
    case Answered(a) =>
      match a {
       case Hit(cert, _) => WasIssuedLater(s.log, s'.log, c.key, cert);
       case Landed(leader, v) => GoodFlightLater(cfg, s, s', c.key, leader, v);
       case Stale(cert, _, leader, cause) =>
         WasIssuedLater(s.log, s'.log, c.key, cert);
         GoodFlightLater(cfg, s, s', c.key, leader, cause);
       case Error(leader, cause) => GoodFlightLater(cfg, s, s', c.key, leader, cause);
      }
    case _ =>
  }

  lemma FoundWasIssued(s: State, key: Sni)
    requires CacheIssued(s) && Find(s.cache, key).Some?
    ensures WasIssued(s.log, key, Find(s.cache, key).value.cert)
  {
    FindIsEntry(s.cache, key);
  }

  /** What a lookup by this call finds was issued for its key. */
  lemma FoundStaysIssued(cfg: Config, s: State, i: nat, outcome: Outcome)
    requires Enabled(s, Advance(i, outcome)) && CacheIssued(s) && Find(s.cache, s.calls[i].key).Some?
    ensures WasIssued(AdvanceCall(cfg, s, i, outcome).log, s.calls[i].key, Find(s.cache, s.calls[i].key).value.cert)
  {
    var key := s.calls[i].key;
    FoundWasIssued(s, key);
    LogGrows(cfg, s, Advance(i, outcome));
    WasIssuedLater(s.log, AdvanceCall(cfg, s, i, outcome).log, key, Find(s.cache, key).value.cert);
  }

  /** The phases that end in a lookup of the cache. */
  lemma GoodAfterLookup(cfg: Config, s: State, i: nat, outcome: Outcome)
    requires Enabled(s, Advance(i, outcome)) && Provenance(cfg, s)
    requires var p := s.calls[i].phase; p.Arrived? || p.Rechecking? || p.Settling?
    ensures GoodPhase(cfg, AdvanceCall(cfg, s, i, outcome), i)
  {
    var s' := AdvanceCall(cfg, s, i, outcome);
    var c := s.calls[i];
    NextIsLater(cfg, s, Advance(i, outcome));
    assert GoodPhase(cfg, s, i);
    if Find(s.cache, c.key).Some? {
      FoundStaysIssued(cfg, s, i, outcome);
    }
    if c.phase.Settling? {
      GoodFlightLater(cfg, s, s', c.key, c.phase.leader, c.phase.verdict);
    }
  }

  /** The phase that a call enters is justified. */
  lemma GoodOwnStep(cfg: Config, s: State, i: nat, outcome: Outcome)
    requires Enabled(s, Advance(i, outcome)) && Provenance(cfg, s) && WaitersMatch(s)
    ensures GoodPhase(cfg, AdvanceCall(cfg, s, i, outcome), i)
  {
    var s' := AdvanceCall(cfg, s, i, outcome);
    var c := s.calls[i];
    if c.phase.Arrived? || c.phase.Rechecking? || c.phase.Settling? {
      GoodAfterLookup(cfg, s, i, outcome);
    } else {
      NextIsLater(cfg, s, Advance(i, outcome));
      assert GoodPhase(cfg, s, i);
      match c.phase
      case Issuing(_) => LogShape(cfg, s, i, outcome);
      case Storing(_, cert, at) => GoodFlightLater(cfg, s, s', c.key, i, Issued(cert, at));
      case Landing(v) => GoodFlightLater(cfg, s, s', c.key, i, v);
      case Waiting(l) =>
        assert WaitsForAFlight(s, i);
        GoodFlightLater(cfg, s, s', c.key, l, s.results[l]);
      case _ =>
    }
  }

  lemma CacheIssuedStep(cfg: Config, s: State, i: nat, outcome: Outcome)
    requires Enabled(s, Advance(i, outcome)) && CacheIssued(s) && GoodPhase(cfg, s, i)
    ensures CacheIssued(AdvanceCall(cfg, s, i, outcome))
  {
    var s' := AdvanceCall(cfg, s, i, outcome);
    var c := s.calls[i];
    CacheShape(cfg, s, i, outcome);
    LogShape(cfg, s, i, outcome);
    forall e | e in s'.cache ensures WasIssued(s'.log, e.key, e.cert) {
      EntriesComeFrom(cfg, s, c, e);
      if e in s.cache {
        WasIssuedLater(s.log, s'.log, e.key, e.cert);
      }
    }
  }

  /** An entry of the new list is an old entry or the one being stored. */
  lemma EntriesComeFrom(cfg: Config, s: State, c: Call, e: Entry)
    requires e in CacheAfter(cfg, s, c)
    ensures e in s.cache || (c.phase.Storing? && e == Entry(c.key, c.phase.cert))
  {
    FindIsEntry(s.cache, c.key);
  }

  lemma ProvenanceStep(cfg: Config, s: State, step: Step)
    requires Provenance(cfg, s) && WaitersMatch(s)
    ensures Provenance(cfg, Next(cfg, s, step))
  {
    var s' := Next(cfg, s, step);
    if Enabled(s, step) {
      NextIsLater(cfg, s, step);
      if step.Advance? {
        AdvanceShape(cfg, s, step.call, step.outcome);
        assert GoodPhase(cfg, s, step.call);
        CacheIssuedStep(cfg, s, step.call, step.outcome);
        GoodOwnStep(cfg, s, step.call, step.outcome);
      }
      forall i | 0 <= i < |s'.calls| ensures GoodPhase(cfg, s', i) {
        if i < |s.calls| && !(step.Advance? && step.call == i) {
          GoodPhaseLater(cfg, s, s', i);
        }
      }
      forall l | l in s'.results ensures l < |s'.calls| && GoodFlight(cfg, s', s'.calls[l].key, l, s'.results[l]) {
        if l in s.results && !(step.Advance? && step.call == l) {
          GoodFlightLater(cfg, s, s', s.calls[l].key, l, s.results[l]);
        }
      }
    }
  }
}
