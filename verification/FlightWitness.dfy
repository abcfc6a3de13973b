/**
 * A schedule on which a call that joins a flight is answered with a
 * certificate that was already due when the call began.
 */
module FlightWitness {
  import opened RefreshPolicy
  import opened Lru
  import opened Flights

  const SETUP := Config(1, ExpiryMargin, false)
  const LEAF_CERT := Cert(7, Leaf(0, 400_000_000_000))

  /** A call of key "a" in this phase. */
  function CallIn(began: int, p: Phase): Call {
    Call("a", began, p)
  }

  lemma ExecExtend(cfg: Config, steps: seq<Step>, step: Step)
    ensures Exec(cfg, steps + [step]) == Next(cfg, Exec(cfg, steps), step)
  {
    assert (steps + [step])[..|steps|] == steps;
  }

  /** Two calls miss, and both are about to enter the group. */
  lemma TwoCallsMiss() returns (steps: seq<Step>)
    ensures var s := Exec(SETUP, steps);
            s == State(0, [], map[], map[], [CallIn(0, Joining), CallIn(0, Joining)], [])
  {
    steps := [];
    steps := Then(steps, Arrive("a"));
    steps := Then(steps, Arrive("a"));
    assert Exec(SETUP, steps).calls == [CallIn(0, Arrived), CallIn(0, Arrived)];
    steps := Then(steps, Advance(0, Granted(LEAF_CERT)));
    steps := Then(steps, Advance(1, Granted(LEAF_CERT)));
    assert Exec(SETUP, steps).calls == [CallIn(0, Joining), CallIn(0, Joining)];
  }

  /** The first leads a flight, and is about to call the issuer. */
  lemma FirstRequests() returns (steps: seq<Step>)
    ensures var s := Exec(SETUP, steps);
            && s.now == 0 && s.cache == [] && s.flights == map["a" := 0]
            && s.calls == [CallIn(0, Requesting), CallIn(0, Joining)]
  {
    steps := TwoCallsMiss();
    steps := Then(steps, Advance(0, Granted(LEAF_CERT)));
    steps := Then(steps, Advance(0, Granted(LEAF_CERT)));
  }

  /** It is issued the certificate. */
  lemma FirstIsIssued() returns (steps: seq<Step>)
    ensures var s := Exec(SETUP, steps);
            && s.now == 0 && s.cache == [] && s.flights == map["a" := 0]
            && s.calls == [CallIn(0, Storing(false, LEAF_CERT, 0)), CallIn(0, Joining)]
  {
    steps := FirstRequests();
    steps := Then(steps, Advance(0, Granted(LEAF_CERT)));
    assert Exec(SETUP, steps).calls == [CallIn(0, Issuing(false)), CallIn(0, Joining)];
    steps := Then(steps, Advance(0, Granted(LEAF_CERT)));
  }

  /** It stores the certificate, and ends its flight. */
  lemma FirstFlight() returns (steps: seq<Step>)
    ensures var s := Exec(SETUP, steps);
            && s.now == 0 && s.cache == [Entry("a", LEAF_CERT)] && s.flights == map[]
            && |s.calls| == 2 && s.calls[1] == CallIn(0, Joining)
  {
    steps := FirstIsIssued();
    steps := Then(steps, Advance(0, Granted(LEAF_CERT)));
    assert Exec(SETUP, steps).cache == [Entry("a", LEAF_CERT)];
    steps := Then(steps, Advance(0, Granted(LEAF_CERT)));
  }

  lemma Then(steps: seq<Step>, step: Step) returns (more: seq<Step>)
    ensures more == steps + [step]
    ensures Exec(SETUP, more) == Next(SETUP, Exec(SETUP, steps), step)
  {
    more := steps + [step];
    ExecExtend(SETUP, steps, step);
  }

  /** The second call finds the certificate in a flight of its own; then the certificate comes due. */
  lemma SecondFlight() returns (steps: seq<Step>)
    ensures var s := Exec(SETUP, steps);
            && s.now == 200_000_000_000 && s.cache == [Entry("a", LEAF_CERT)] && s.flights == map["a" := 1]
            && |s.calls| == 2 && s.calls[1] == CallIn(0, Landing(Cached(LEAF_CERT, 0)))
  {
    steps := FirstFlight();
    steps := Then(steps, Advance(1, Granted(LEAF_CERT)));
    assert Exec(SETUP, steps).flights == map["a" := 1];
    steps := Then(steps, Advance(1, Granted(LEAF_CERT)));
    steps := Then(steps, Tick(200_000_000_000));
  }

  /** A third call misses, and joins that flight before it ends. */
  lemma ThirdCallJoins() returns (steps: seq<Step>)
    ensures var s := Exec(SETUP, steps);
            && |s.calls| == 3 && s.calls[2] == CallIn(200_000_000_000, Waiting(1))
            && s.calls[1] == CallIn(0, Landing(Cached(LEAF_CERT, 0)))
  {
    steps := SecondFlight();
    steps := Then(steps, Arrive("a"));
    steps := Then(steps, Advance(2, Granted(LEAF_CERT)));
    assert Exec(SETUP, steps).calls[2] == CallIn(200_000_000_000, Joining);
    steps := Then(steps, Advance(2, Granted(LEAF_CERT)));
  }

  /** It is answered by that flight, with the cached certificate, which was due for as long as the call ran. */
  lemma JoinerMayGetDueCertificate() returns (steps: seq<Step>)
    ensures var s := Exec(SETUP, steps);
            && |s.calls| == 3 && s.calls[2].began == 200_000_000_000
            && s.calls[2].phase == Answered(Landed(1, Cached(LEAF_CERT, 0)))
            && forall t :: s.calls[2].began <= t ==> SETUP.due(LEAF_CERT.leaf, t)
  {
    steps := ThirdCallJoins();
    steps := Then(steps, Advance(1, Granted(LEAF_CERT)));
    steps := Then(steps, Advance(2, Granted(LEAF_CERT)));
    assert Exec(SETUP, steps).calls[2] == CallIn(200_000_000_000, Settling(1, Cached(LEAF_CERT, 0)));
    steps := Then(steps, Advance(2, Granted(LEAF_CERT)));
  }
}
