/**
 * When the certificate of an answer was chosen, for a call that enters the
 * single-flight group: after the call began, unless the flight it joins has
 * already settled on an older certificate.
 */
module FlightTiming {
  import opened Common
  import opened RefreshPolicy
  import opened Lru
  import opened Flights
  import opened FlightRuns
  import opened FlightTheorems

  // --------------------------------------------------------------- ended flights

  predicate LedBefore(p: Phase) {
    p.Settling? || p.Answered?
  }

  /** A call whose flight has ended leads none any more. */
  ghost predicate EndedFlights(s: State) {
    forall l :: l in s.results ==> l < |s.calls| && LedBefore(s.calls[l].phase)
  }

  lemma EndedFlightsStep(cfg: Config, s: State, step: Step)
    requires EndedFlights(s)
    ensures EndedFlights(Next(cfg, s, step))
  {
    if Enabled(s, step) && step.Advance? {
      AdvanceShape(cfg, s, step.call, step.outcome);
    }
  }

  lemma {:induction false} ReachableEndedFlights(cfg: Config, steps: seq<Step>)
    ensures EndedFlights(Exec(cfg, steps))
  {
    if steps != [] {
      ReachableEndedFlights(cfg, steps[..|steps| - 1]);
      EndedFlightsStep(cfg, Exec(cfg, steps[..|steps| - 1]), steps[|steps| - 1]);
    }
  }

  // -------------------------------------------------------------- one flight's fate

  /** The verdict that a leader is bound to land, once it has one. */
  function Decided(p: Phase): Option<Verdict> {
    match p
    case Storing(_, cert, at) => Some(Issued(cert, at))
    case Landing(v) => Some(v)
    case _ => None
  }

  /** Either the verdict was settled already, or it comes no earlier than t. */
  predicate Allowed(settled: Option<Verdict>, t: int, v: Verdict) {
    if settled.Some? then v == settled.value else v.at >= t
  }

  predicate AllowedAnswer(settled: Option<Verdict>, t: int, a: Answer) {
    match a
    case Hit(_, _) => false
    case Landed(_, v) => Allowed(settled, t, v)
    case Stale(_, at, _, cause) => at >= t && cause.Broken? && Allowed(settled, t, cause)
    case Error(_, cause) => Allowed(settled, t, cause)
  }

  /** The flight led by l: still undecided only if nothing was settled, and bound to an allowed verdict. */
  ghost predicate FlightOf(s: State, l: nat, settled: Option<Verdict>, t: int) {
    && l < |s.calls|
    && (l in s.results ==> Allowed(settled, t, s.results[l]))
    && match s.calls[l].phase {
         case Rechecking => settled.None?
         case Requesting => settled.None?
         case Issuing(_) => settled.None?
         case Storing(_, cert, at) => Allowed(settled, t, Issued(cert, at))
         case Landing(v) => Allowed(settled, t, v)
         case p => LedBefore(p)
       }
  }

  /** Call i, which leads that flight itself or has joined it. */
  ghost predicate Rides(s: State, i: nat, l: nat, settled: Option<Verdict>, t: int) {
    && t <= s.now && i < |s.calls| && FlightOf(s, l, settled, t)
    && match s.calls[i].phase {
         case Waiting(leader) => leader == l
         case Settling(_, v) => Allowed(settled, t, v)
         case Answered(a) => AllowedAnswer(settled, t, a)
         case p => i == l && Leads(p)
       }
  }

  lemma RidesStep(cfg: Config, s: State, step: Step, i: nat, l: nat, settled: Option<Verdict>, t: int)
    requires Rides(s, i, l, settled, t)
    ensures Rides(Next(cfg, s, step), i, l, settled, t)
  {
    if Enabled(s, step) && step.Advance? {
      AdvanceShape(cfg, s, step.call, step.outcome);
      if step.call == l {
        FlightAdvances(cfg, s, l, step.outcome, settled, t);
      }
      if step.call == i {
        RiderAdvances(cfg, s, i, l, step.outcome, settled, t);
      }
    }
  }

  lemma FlightAdvances(cfg: Config, s: State, l: nat, outcome: Outcome, settled: Option<Verdict>, t: int)
    requires Enabled(s, Advance(l, outcome)) && FlightOf(s, l, settled, t) && t <= s.now
    ensures FlightOf(AdvanceCall(cfg, s, l, outcome), l, settled, t)
  {
  }

  lemma RiderAdvances(cfg: Config, s: State, i: nat, l: nat, outcome: Outcome, settled: Option<Verdict>, t: int)
    requires Enabled(s, Advance(i, outcome)) && Rides(s, i, l, settled, t)
    ensures var p := AdvanceCall(cfg, s, i, outcome).calls[i].phase;
            match p {
              case Waiting(leader) => leader == l
              case Settling(_, v) => Allowed(settled, t, v)
              case Answered(a) => AllowedAnswer(settled, t, a)
              case _ => i == l && Leads(p)
            }
  {
  }

  lemma {:induction false} RidesOn(cfg: Config, before: seq<Step>, more: seq<Step>,
                                   i: nat, l: nat, settled: Option<Verdict>, t: int)
    requires Rides(Exec(cfg, before), i, l, settled, t)
    ensures Rides(Exec(cfg, before + more), i, l, settled, t)
  {
    if more == [] {
      assert before + more == before;
    } else {
      var n := |more| - 1;
      RidesOn(cfg, before, more[..n], i, l, settled, t);
      assert (before + more)[..|before + more| - 1] == before + more[..n];
      RidesStep(cfg, Exec(cfg, before + more[..n]), more[n], i, l, settled, t);
    }
  }

  // ------------------------------------------------------------------ main result

  /** The flight of this key, if any, has settled on a certificate chosen before `began`. */
  predicate SettledBefore(s: State, key: Sni, began: int) {
    && key in s.flights && s.flights[key] < |s.calls|
    && match s.calls[s.flights[key]].phase {
         case Storing(_, _, at) => at < began
         case Landing(v) => !v.Broken? && v.at < began
         case _ => false
       }
  }

  /** What entering the group binds a call to. */
  lemma EnteringRides(cfg: Config, steps: seq<Step>, i: nat, outcome: Outcome)
    returns (l: nat, settled: Option<Verdict>)
    requires var s := Exec(cfg, steps); i < |s.calls| && s.calls[i].phase.Joining?
    ensures var s := Exec(cfg, steps);
            && Rides(Next(cfg, s, Advance(i, outcome)), i, l, settled, s.now)
            && (s.calls[i].key in s.flights ==>
                  l == s.flights[s.calls[i].key] < |s.calls| && settled == Decided(s.calls[l].phase))
            && (s.calls[i].key !in s.flights ==> settled.None?)
  {
    var s := Exec(cfg, steps);
    var key := s.calls[i].key;
    ReachableCore(cfg, steps);
    ReachableEndedFlights(cfg, steps);
    if key in s.flights {
      assert HasLeader(s.calls, s.flights, key);
      l := s.flights[key];
      settled := Decided(s.calls[l].phase);
    } else {
      l, settled := i, None;
    }
  }

  /**
   * Whatever happens after a call enters the single-flight group, the
   * certificate it is answered with was chosen before the call began exactly
   * when the flight it joined had then settled on such a certificate.
   */
  lemma AnswerIsOlderThanCallIff(cfg: Config, steps: seq<Step>, i: nat, outcome: Outcome, more: seq<Step>)
    requires var s := Exec(cfg, steps); i < |s.calls| && s.calls[i].phase.Joining?
    requires var u := Exec(cfg, steps + [Advance(i, outcome)] + more);
             i < |u.calls| && u.calls[i].phase.Answered? && Choice(u.calls[i].phase.answer).Some?
    ensures var s := Exec(cfg, steps); var u := Exec(cfg, steps + [Advance(i, outcome)] + more);
            Choice(u.calls[i].phase.answer).value.1 < s.calls[i].began
            <==> SettledBefore(s, s.calls[i].key, s.calls[i].began)
  {
    var s := Exec(cfg, steps);
    var entered := steps + [Advance(i, outcome)];
    var l, settled := EnteringRides(cfg, steps, i, outcome);
    assert entered[..|steps|] == steps;
    RidesOn(cfg, entered, more, i, l, settled, s.now);
    ReachableCore(cfg, steps);
    assert GoodPhase(cfg, s, i);
  }

  /** And the certificate that the flight has settled on is due at `began`. */
  predicate SettledOnDue(cfg: Config, s: State, key: Sni, began: int) {
    && SettledBefore(s, key, began)
    && match s.calls[s.flights[key]].phase {
         case Storing(_, cert, _) => cfg.due(cert.leaf, began)
         case Landing(Cached(cert, _)) => cfg.due(cert.leaf, began)
         case Landing(Issued(cert, _)) => cfg.due(cert.leaf, began)
         case _ => false
       }
  }

  /**
   * A call that a flight answers gets a certificate that was due when the call
   * began, and so for as long as it ran, exactly when the flight it joined had
   * then settled on one.  (A certificate newly issued during the call may be
   * due as well; nothing but the issuer decides that.)
   */
  lemma AnswerIsDueIff(cfg: Config, steps: seq<Step>, i: nat, outcome: Outcome, more: seq<Step>)
    requires Monotone(cfg.due)
    requires var s := Exec(cfg, steps); i < |s.calls| && s.calls[i].phase.Joining?
    requires var u := Exec(cfg, steps + [Advance(i, outcome)] + more);
             && i < |u.calls| && u.calls[i].phase.Answered?
             && var a := u.calls[i].phase.answer;
                && a.Landed? && !a.verdict.Broken?
                && (a.verdict.Issued? ==> a.verdict.at < Exec(cfg, steps).calls[i].began)
    ensures var s := Exec(cfg, steps); var u := Exec(cfg, steps + [Advance(i, outcome)] + more);
            var began := s.calls[i].began; var cert := u.calls[i].phase.answer.verdict.cert;
            && (cfg.due(cert.leaf, began) <==> SettledOnDue(cfg, s, s.calls[i].key, began))
            && (cfg.due(cert.leaf, began) ==> forall t :: began <= t ==> cfg.due(cert.leaf, t))
  {
    var s := Exec(cfg, steps);
    var entered := steps + [Advance(i, outcome)];
    var l, settled := EnteringRides(cfg, steps, i, outcome);
    assert entered[..|steps|] == steps;
    RidesOn(cfg, entered, more, i, l, settled, s.now);
    AnswersAreJustified(cfg, entered + more, i);
    ReachableCore(cfg, steps);
    assert GoodPhase(cfg, s, i);
    CallKeeps(cfg, entered, more, i);
    CallKeeps(cfg, steps, [Advance(i, outcome)], i);
  }

  /** A call keeps its key and the time it began. */
  lemma {:induction false} CallKeeps(cfg: Config, before: seq<Step>, more: seq<Step>, i: nat)
    requires i < |Exec(cfg, before).calls|
    ensures var s := Exec(cfg, before); var u := Exec(cfg, before + more);
            i < |u.calls| && u.calls[i].key == s.calls[i].key && u.calls[i].began == s.calls[i].began
  {
    if more == [] {
      assert before + more == before;
    } else {
      var n := |more| - 1;
      CallKeeps(cfg, before, more[..n], i);
      assert (before + more)[..|before + more| - 1] == before + more[..n];
      NextIsLater(cfg, Exec(cfg, before + more[..n]), more[n]);
    }
  }
}
