/**
 * A call that runs alone, while no flight of its key is under way: whatever
 * the schedule, the step system gives it the answer, and leaves the cache,
 * that Get without concurrency does.
 */
module SoloGet {
  import opened Lru
  import opened Flights
  import CertCache

  /** The state after some more steps. */
  function ExecFrom(cfg: Config, s: State, steps: seq<Step>): State {
    if steps == [] then s
    else Next(cfg, ExecFrom(cfg, s, steps[..|steps| - 1]), steps[|steps| - 1])
  }

  /** Only the clock and call i move. */
  predicate Alone(steps: seq<Step>, i: nat) {
    forall x :: x in steps ==> x.Tick? || (x.Advance? && x.call == i)
  }

  function ResultOf(outcome: Outcome): CertCache.IssueResult {
    match outcome
    case Granted(cert) => CertCache.Success(cert)
    case Refused(error) => CertCache.Failure(error)
  }

  /** What a flight hands to its caller. */
  function HandedBack(v: Verdict): CertCache.IssueResult {
    match v
    case Cached(cert, _) => CertCache.Success(cert)
    case Issued(cert, _) => CertCache.Success(cert)
    case Broken(error, _) => CertCache.Failure(error)
  }

  /** What the caller sees of an answer. */
  function Seen(a: Answer): CertCache.Reply {
    match a
    case Hit(cert, _) => CertCache.Served(cert)
    case Landed(_, Cached(cert, _)) => CertCache.Served(cert)
    case Landed(_, Issued(cert, _)) => CertCache.Served(cert)
    case Landed(_, Broken(error, _)) => CertCache.Failed(error)
    case Stale(cert, _, _, cause) => CertCache.Stale(cert, if cause.Broken? then cause.error else "")
    case Error(_, cause) => CertCache.Failed(if cause.Broken? then cause.error else "")
  }

  // ---------------------------------------------------------------- every schedule

  /** The clock readings of a Get, and what the issuer answers or would answer. */
  datatype Reading = Reading(t1: int, t2: int, t3: int, issued: CertCache.IssueResult)

  predicate Ordered(r: Reading, start: int, now: int) {
    start <= r.t1 <= r.t2 <= r.t3 <= now
  }

  /** Does Get, on the cache c it found, miss at the first lookup? */
  predicate MissesFirst(cfg: Config, c: seq<Entry>, key: Sni, r: Reading) {
    LookupResult(cfg.due, c, key, r.t1).None?
  }

  predicate MissesTwice(cfg: Config, c: seq<Entry>, key: Sni, r: Reading) {
    MissesFirst(cfg, c, key, r) && LookupResult(cfg.due, c, key, r.t2).None?
  }

  /** The flight has ended, or is about to, with what the flight of that Get returns. */
  predicate FlightOver(cfg: Config, c: seq<Entry>, key: Sni, r: Reading, u: State, v: Verdict) {
    && MissesFirst(cfg, c, key, r)
    && HandedBack(v) == CertCache.FlightResult(cfg.due, c, key, r.t2, r.issued)
    && u.cache == CertCache.AfterFlight(cfg.due, cfg.capacity, c, key, r.t2, r.issued)
  }

  /** How far the call has followed the Get that found cache c and reads r. */
  predicate Follows(cfg: Config, c: seq<Entry>, key: Sni, r: Reading, u: State, i: nat)
    requires i < |u.calls|
  {
    match u.calls[i].phase
    case Arrived => u.cache == c && key !in u.flights
    case Joining => u.cache == c && key !in u.flights && MissesFirst(cfg, c, key, r)
    case Rechecking => u.cache == c && MissesFirst(cfg, c, key, r)
    case Requesting => u.cache == c && MissesTwice(cfg, c, key, r)
    case Issuing(_) => u.cache == c && MissesTwice(cfg, c, key, r)
    case Storing(_, cert, _) => u.cache == c && MissesTwice(cfg, c, key, r) && r.issued == CertCache.Success(cert)
    case Landing(v) => FlightOver(cfg, c, key, r, u, v)
    case Settling(_, v) => FlightOver(cfg, c, key, r, u, v)
    case Waiting(_) => false
    case Answered(a) =>
      && u.cache == CertCache.AfterGet(cfg.due, cfg.capacity, c, key, r.t1, r.t2, r.issued)
      && Seen(a) == CertCache.GetReply(cfg.due, cfg.staleOK, cfg.capacity, c, key, r.t1, r.t2, r.t3, r.issued)
  }

  ghost predicate Solo(cfg: Config, s: State, key: Sni, r: Reading, u: State) {
    var i := |s.calls|;
    && |u.calls| == i + 1 && u.calls[i].key == key
    && Ordered(r, s.now, u.now) && Follows(cfg, s.cache, key, r, u, i)
  }

  /** The reading after an advance: what the call has just looked at or been issued. */
  function Read(r: Reading, u: State, p: Phase, outcome: Outcome): Reading {
    match p
    case Arrived => Reading(u.now, u.now, u.now, r.issued)
    case Rechecking => r.(t2 := u.now, t3 := u.now)
    case Issuing(_) => r.(issued := ResultOf(outcome))
    case Settling(_, _) => r.(t3 := u.now)
    case _ => r
  }

  lemma SoloAdvance(cfg: Config, s: State, key: Sni, r: Reading, u: State, outcome: Outcome)
    requires Solo(cfg, s, key, r, u) && Enabled(u, Advance(|s.calls|, outcome))
    ensures var i := |s.calls|;
            Solo(cfg, s, key, Read(r, u, u.calls[i].phase, outcome), AdvanceCall(cfg, u, i, outcome))
  {
    match u.calls[|s.calls|].phase
    case Arrived =>
    case Rechecking =>
    case Issuing(_) =>
    case Storing(_, _, _) =>
    case Settling(_, _) =>
    case _ =>
  }

  lemma SoloTick(cfg: Config, s: State, key: Sni, r: Reading, u: State, d: nat)
    requires Solo(cfg, s, key, r, u)
    ensures Solo(cfg, s, key, r, u.(now := u.now + d))
  {
  }

  lemma {:induction false} SoloRun(cfg: Config, s: State, key: Sni, steps: seq<Step>) returns (r: Reading)
    requires key !in s.flights && Alone(steps, |s.calls|)
    ensures Solo(cfg, s, key, r, ExecFrom(cfg, Next(cfg, s, Arrive(key)), steps))
  {
    if steps == [] {
      r := Reading(s.now, s.now, s.now, CertCache.Failure(""));
    } else {
      var n := |steps| - 1;
      var u := ExecFrom(cfg, Next(cfg, s, Arrive(key)), steps[..n]);
      assert steps[n] in steps;
      r := SoloRun(cfg, s, key, steps[..n]);
      if steps[n].Tick? {
        SoloTick(cfg, s, key, r, u, steps[n].nanoseconds);
      } else if Enabled(u, steps[n]) {
        SoloAdvance(cfg, s, key, r, u, steps[n].outcome);
        r := Read(r, u, u.calls[|s.calls|].phase, steps[n].outcome);
      }
    }
  }

  /**
   * However the clock and a call that runs alone move, once the call is
   * answered there are instants during it, and an answer of the issuer, for
   * which Get without concurrency gives that answer and leaves that cache.
   */
  lemma AnsweredAloneIsGet(cfg: Config, s: State, key: Sni, steps: seq<Step>) returns (r: Reading)
    requires key !in s.flights && Alone(steps, |s.calls|)
    requires var u := ExecFrom(cfg, Next(cfg, s, Arrive(key)), steps);
             |s.calls| < |u.calls| && u.calls[|s.calls|].phase.Answered?
    ensures var u := ExecFrom(cfg, Next(cfg, s, Arrive(key)), steps);
            && s.now <= r.t1 <= r.t2 <= r.t3 <= u.now
            && u.cache == CertCache.AfterGet(cfg.due, cfg.capacity, s.cache, key, r.t1, r.t2, r.issued)
            && Seen(u.calls[|s.calls|].phase.answer)
               == CertCache.GetReply(cfg.due, cfg.staleOK, cfg.capacity, s.cache, key, r.t1, r.t2, r.t3, r.issued)
  {
    r := SoloRun(cfg, s, key, steps);
  }

  // ------------------------------------------------------------- and some schedule

  lemma More(cfg: Config, s: State, steps: seq<Step>, step: Step, i: nat) returns (longer: seq<Step>)
    requires Alone(steps, i) && Alone([step], i)
    ensures Alone(longer, i) && ExecFrom(cfg, s, longer) == Next(cfg, ExecFrom(cfg, s, steps), step)
  {
    longer := steps + [step];
    assert step in [step];
    assert longer[..|steps|] == steps;
  }

  /** Call i, the latest, is in this phase over this cache at this time. */
  predicate At(s: State, i: nat, key: Sni, phase: Phase, cache: seq<Entry>, now: int) {
    |s.calls| == i + 1 && s.calls[i].key == key && s.calls[i].phase == phase && s.cache == cache && s.now == now
  }

  /** The clock moves to t, and the call advances. */
  lemma AdvanceAt(cfg: Config, s: State, steps: seq<Step>, i: nat, t: int, outcome: Outcome) returns (longer: seq<Step>)
    requires Alone(steps, i)
    requires var u := ExecFrom(cfg, s, steps); u.now <= t && Enabled(u, Advance(i, outcome))
    ensures Alone(longer, i)
    ensures ExecFrom(cfg, s, longer) == AdvanceCall(cfg, ExecFrom(cfg, s, steps).(now := t), i, outcome)
  {
    var u := ExecFrom(cfg, s, steps);
    longer := More(cfg, s, steps, Tick(t - u.now), i);
    longer := More(cfg, s, longer, Advance(i, outcome), i);
  }

  /** On a miss at t1 it leads a flight, and looks again at t2. */
  lemma SecondLookup(cfg: Config, s: State, steps: seq<Step>, i: nat, key: Sni, cache: seq<Entry>, t1: int, t2: int)
    returns (longer: seq<Step>)
    requires Alone(steps, i) && t1 <= t2
    requires var u := ExecFrom(cfg, s, steps); At(u, i, key, Joining, cache, t1) && key !in u.flights
    ensures Alone(longer, i)
    ensures var hit := LookupResult(cfg.due, cache, key, t2);
            At(ExecFrom(cfg, s, longer), i, key, if hit.Some? then Landing(Cached(hit.value, t2)) else Requesting,
               AfterLookup(cfg.due, cache, key, t2), t2)
  {
    longer := AdvanceAt(cfg, s, steps, i, t1, Refused(""));
    assert At(ExecFrom(cfg, s, longer), i, key, Rechecking, cache, t1);
    longer := AdvanceAt(cfg, s, longer, i, t2, Refused(""));
  }

  /** How the flight ends when the issuer is asked and answers at t2. */
  function FlightEnd(outcome: Outcome, t2: int): Verdict {
    match outcome
    case Granted(cert) => Issued(cert, t2)
    case Refused(error) => Broken(error, t2)
  }

  lemma IssueAndStore(cfg: Config, s: State, steps: seq<Step>,
                      i: nat, key: Sni, cache: seq<Entry>, t2: int, outcome: Outcome)
    returns (longer: seq<Step>)
    requires Alone(steps, i) && At(ExecFrom(cfg, s, steps), i, key, Requesting, cache, t2)
    ensures Alone(longer, i)
    ensures At(ExecFrom(cfg, s, longer), i, key, Landing(FlightEnd(outcome, t2)),
               if outcome.Granted? then AfterStore(cache, cfg.capacity, Entry(key, outcome.cert)) else cache, t2)
  {
    var forced := Find(cache, key).Some?;
    longer := AdvanceAt(cfg, s, steps, i, t2, outcome);
    assert At(ExecFrom(cfg, s, longer), i, key, Issuing(forced), cache, t2);
    longer := AdvanceAt(cfg, s, longer, i, t2, outcome);
    if outcome.Granted? {
      assert At(ExecFrom(cfg, s, longer), i, key, Storing(forced, outcome.cert, t2), cache, t2);
      longer := AdvanceAt(cfg, s, longer, i, t2, outcome);
    }
  }

  /** The flight ends, and its verdict is turned into an answer at t3. */
  lemma LandAndSettle(cfg: Config, s: State, steps: seq<Step>,
                      i: nat, key: Sni, v: Verdict, cache: seq<Entry>, t2: int, t3: int)
    returns (longer: seq<Step>)
    requires Alone(steps, i) && At(ExecFrom(cfg, s, steps), i, key, Landing(v), cache, t2) && t2 <= t3
    ensures Alone(longer, i)
    ensures var u := ExecFrom(cfg, s, longer);
            && |u.calls| == i + 1 && u.calls[i].phase.Answered? && u.cache == cache
            && Seen(u.calls[i].phase.answer) == CertCache.FallbackReply(cfg.staleOK, cache, key, t3, HandedBack(v))
  {
    longer := AdvanceAt(cfg, s, steps, i, t2, Refused(""));
    assert At(ExecFrom(cfg, s, longer), i, key, Settling(i, v), cache, t2);
    longer := AdvanceAt(cfg, s, longer, i, t3, Refused(""));
  }

  /** Conversely, every such Get is a schedule of the call alone. */
  lemma GetIsASchedule(cfg: Config, s: State, key: Sni, r: Reading, outcome: Outcome) returns (steps: seq<Step>)
    requires key !in s.flights && s.now <= r.t1 <= r.t2 <= r.t3 && r.issued == ResultOf(outcome)
    ensures Alone(steps, |s.calls|)
    ensures var u := ExecFrom(cfg, Next(cfg, s, Arrive(key)), steps); var i := |s.calls|;
            && |u.calls| == i + 1 && u.calls[i].phase.Answered?
            && u.cache == CertCache.AfterGet(cfg.due, cfg.capacity, s.cache, key, r.t1, r.t2, r.issued)
            && Seen(u.calls[i].phase.answer)
               == CertCache.GetReply(cfg.due, cfg.staleOK, cfg.capacity, s.cache, key, r.t1, r.t2, r.t3, r.issued)
  {
    var i := |s.calls|;
    var base := Next(cfg, s, Arrive(key));
    steps := AdvanceAt(cfg, base, [], i, r.t1, outcome);
    if LookupResult(cfg.due, s.cache, key, r.t1).None? {
      steps := SecondLookup(cfg, base, steps, i, key, s.cache, r.t1, r.t2);
      var hit := LookupResult(cfg.due, s.cache, key, r.t2);
      if hit.Some? {
        var cache := AfterLookup(cfg.due, s.cache, key, r.t2);
        steps := LandAndSettle(cfg, base, steps, i, key, Cached(hit.value, r.t2), cache, r.t2, r.t3);
      } else {
        var cache := if outcome.Granted? then AfterStore(s.cache, cfg.capacity, Entry(key, outcome.cert)) else s.cache;
        steps := IssueAndStore(cfg, base, steps, i, key, s.cache, r.t2, outcome);
        steps := LandAndSettle(cfg, base, steps, i, key, FlightEnd(outcome, r.t2), cache, r.t2, r.t3);
      }
    }
  }
}
