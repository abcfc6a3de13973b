/**
 * The cache that concurrent Gets share, as a run of cache operations: its
 * locked sections, in the order in which the schedule takes them.
 */
module FlightCache {
  import opened RefreshPolicy
  import opened Lru
  import opened Flights

  /** The locked cache section in the next advance of a call, if there is one. */
  function SectionOf(cfg: Config, s: State, c: Call): seq<Op> {
    match c.phase
    case Arrived => [Lookup(c.key, s.now)]
    case Rechecking => [Lookup(c.key, s.now)]
    case Storing(_, cert, _) => [Store(c.key, cert)]
    case Settling(_, v) => if v.Broken? && cfg.staleOK then [LookupStale(c.key, s.now)] else []
    case _ => []
  }

  function Sections(cfg: Config, steps: seq<Step>): seq<Op> {
    if steps == [] then []
    else
      var before, step := Exec(cfg, steps[..|steps| - 1]), steps[|steps| - 1];
      Sections(cfg, steps[..|steps| - 1])
      + if step.Advance? && Enabled(before, step) then SectionOf(cfg, before, before.calls[step.call]) else []
  }

  lemma RunOneMore(due: Policy, capacity: nat, ops: seq<Op>, op: Op)
    ensures Run(due, capacity, ops + [op]) == Apply(due, capacity, Run(due, capacity, ops), op)
  {
    assert (ops + [op])[..|ops|] == ops;
  }

  /** Every schedule leaves the cache as its sections do, run one after the other. */
  lemma {:induction false} CacheIsRun(cfg: Config, steps: seq<Step>)
    ensures Exec(cfg, steps).cache == Run(cfg.due, cfg.capacity, Sections(cfg, steps))
  {
    if steps != [] {
      var before, step := Exec(cfg, steps[..|steps| - 1]), steps[|steps| - 1];
      var ops := Sections(cfg, steps[..|steps| - 1]);
      CacheIsRun(cfg, steps[..|steps| - 1]);
      assert ops + [] == ops;
      if step.Advance? && Enabled(before, step) {
        CacheShape(cfg, before, step.call, step.outcome);
        var section := SectionOf(cfg, before, before.calls[step.call]);
        if section != [] {
          assert section == [section[0]];
          RunOneMore(cfg.due, cfg.capacity, ops, section[0]);
        }
      }
    }
  }

  /** So in every interleaving the cache is exactly the `capacity` most recently touched keys, in that order. */
  lemma SharedCacheHoldsMostRecentlyTouched(cfg: Config, steps: seq<Step>, k: Sni)
    ensures var keys := Keys(Exec(cfg, steps).cache);
            var touched := Touched(cfg.due, cfg.capacity, Sections(cfg, steps));
            var rank := |Since(touched, k)|;
            && (k in keys <==> k in touched && rank < cfg.capacity)
            && (k in keys ==> rank < |keys| && keys[rank] == k)
  {
    CacheIsRun(cfg, steps);
    CacheHoldsMostRecentlyTouched(cfg.due, cfg.capacity, Sections(cfg, steps), k);
  }
}
