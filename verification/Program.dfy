/** A whole run for one array: explore, refine local then global wires, and search again under constraints. */
module Program {
  import opened Organisation
  import opened PowersOfTwo
  import opened Banks
  import opened BankLaws
  import opened DesignSpace
  import opened Results
  import opened Search
  import opened SearchLaws
  import opened Refinement
  import opened MatLaws

  /** Working banks have non-negative metrics below the sentinel, products included. */
  ghost predicate Realistic(sim: Simulator) {
    forall c, p, v, w :: sim.physics(c, p, v, w).Some? ==>
      BelowWorst(sim.physics(c, p, v, w).value) && Within(sim.physics(c, p, v, w).value, NO_LIMITS)
  }

  ghost predicate Initial(best: seq<Result>)
    reads best
  {
    Optima(best) && forall k :: 0 <= k < |best| ==>
      best[k].optimizationTarget == TARGETS[k] && best[k].limits == NO_LIMITS && best[k].metrics == WORST_METRICS
  }

  /** Everything a solution is, besides being one of those compared. */
  lemma {:induction false} SolutionsAreEvaluated(sim: Simulator, r: Request, visits: seq<seq<int>>, localWire: Wire,
                                                 globalWire: Wire, guard: Option<Limits>, d: Design)
    requires Choices(visits) && r.Positive()
    requires d in Solutions(sim, r, visits, localWire, globalWire, guard)
    ensures exists t :: t in visits && OutcomeOf(sim, r, t, localWire, globalWire, guard) == Solution(d)
  {
    hide OutcomeOf;
    var last := |visits| - 1;
    var outcome := OutcomeOf(sim, r, visits[last], localWire, globalWire, guard);
    if d in Solutions(sim, r, visits[..last], localWire, globalWire, guard) {
      SolutionsAreEvaluated(sim, r, visits[..last], localWire, globalWire, guard, d);
    }
  }

  lemma {:induction false} EverySolutionCompared(sim: Simulator, r: Request, visits: seq<seq<int>>, localWire: Wire,
                                                 globalWire: Wire, guard: Option<Limits>, t: seq<int>)
    requires Choices(visits) && r.Positive() && t in visits
    requires OutcomeOf(sim, r, t, localWire, globalWire, guard).Solution?
    ensures OutcomeOf(sim, r, t, localWire, globalWire, guard).design
      in Solutions(sim, r, visits, localWire, globalWire, guard)
  {
    hide OutcomeOf;
    var last := |visits| - 1;
    if t != visits[last] {
      assert t in visits[..last];
      EverySolutionCompared(sim, r, visits[..last], localWire, globalWire, guard, t);
    }
  }

  /** A solution keeps its organisation when it is built again, with whatever wires. */
  lemma SolutionIsStable(sim: Simulator, r: Request, t: seq<int>, localWire: Wire, globalWire: Wire,
                         guard: Option<Limits>)
    requires Choice(t) && r.Positive() && OutcomeOf(sim, r, t, localWire, globalWire, guard).Solution?
    ensures var d := OutcomeOf(sim, r, t, localWire, globalWire, guard).design;
      && Stable(d) && d.localWire == localWire && d.globalWire == globalWire
      && Evaluated(sim, d.config, d.localWire, d.globalWire) == d
      && (Realistic(sim) ==> BelowWorst(d.metrics) && Within(d.metrics, NO_LIMITS))
  {
    hide PlanBank, BankCells, Activation, BelowWorst, Within, Admits;
    ConfigPositive(r, t);
    Reinitialised(ConfigOf(r, t), sim.tech, sim.routing, localWire, globalWire);
  }

  lemma SolutionsAreStable(sim: Simulator, r: Request, visits: seq<seq<int>>, localWire: Wire, globalWire: Wire,
                           guard: Option<Limits>)
    requires Choices(visits) && r.Positive() && Realistic(sim)
    ensures forall d :: d in Solutions(sim, r, visits, localWire, globalWire, guard) ==>
      Stable(d) && BelowWorst(d.metrics) && Within(d.metrics, NO_LIMITS)
  {
    hide OutcomeOf, Stable, BelowWorst, Within, Realistic;
    forall d | d in Solutions(sim, r, visits, localWire, globalWire, guard)
      ensures Stable(d) && BelowWorst(d.metrics) && Within(d.metrics, NO_LIMITS)
    {
      SolutionsAreEvaluated(sim, r, visits, localWire, globalWire, guard, d);
      var t :| t in visits && OutcomeOf(sim, r, t, localWire, globalWire, guard) == Solution(d);
      SolutionIsStable(sim, r, t, localWire, globalWire, guard);
    }
  }

  /** With a solution at all, each of the eight metrics has one. */
  lemma ExploredIsSolution(target: Target, start: Design, solutions: seq<Design>)
    requires start.metrics == WORST_METRICS && solutions != []
    requires forall d :: d in solutions ==> BelowWorst(d.metrics) && Within(d.metrics, NO_LIMITS)
    ensures Best(target, NO_LIMITS, start, solutions) in solutions
  {
    hide BelowWorst, Within, Score;
    assert solutions[0] in solutions;
    BelowWorstScores(target, solutions[0].metrics);
    assert Eligible(target, NO_LIMITS, start, solutions[0]);
    var i := BestIsFirstMinimum(target, NO_LIMITS, start, solutions);
  }

  /** The result of one metric after both refinement passes. */
  ghost function Refined(sim: Simulator, target: Target, d: Design, localWires: seq<Wire>,
                         globalWires: seq<Wire>): Design
    requires Stable(d)
  {
    LocalStays(sim, target, NO_LIMITS, d, localWires);
    var afterLocal := Best(target, NO_LIMITS, d, LocalTrials(sim, d, localWires));
    Best(target, NO_LIMITS, afterLocal, GlobalTrials(sim, afterLocal, globalWires))
  }

  lemma LocalStays(sim: Simulator, target: Target, limits: Limits, d: Design, wires: seq<Wire>)
    requires Stable(d)
    ensures Stable(Best(target, limits, d, LocalTrials(sim, d, wires)))
  {
    hide Score, Within, Evaluate;
    BestIsLeast(target, limits, d, LocalTrials(sim, d, wires));
  }

  lemma RefinedInSteps(sim: Simulator, target: Target, d: Design, localWires: seq<Wire>, globalWires: seq<Wire>,
                       l: Design, u: Design)
    requires Stable(d) && LocallyRefined(sim, target, NO_LIMITS, d, localWires, l)
    requires Stable(l) && GloballyRefined(sim, target, NO_LIMITS, l, globalWires, u)
    ensures u == Refined(sim, target, d, localWires, globalWires)
  {
  }

  lemma LocallyRefinedIsStable(sim: Simulator, target: Target, d: Design, wires: seq<Wire>, l: Design)
    requires Stable(d) && LocallyRefined(sim, target, NO_LIMITS, d, wires, l)
    ensures Stable(l)
  {
  }

  /** What the first pass and the refinement leave in a result. */
  ghost function Unconstrained(sim: Simulator, target: Target, start: Design, solutions: seq<Design>,
                               localWires: seq<Wire>, globalWires: seq<Wire>): Design
    requires solutions != [] ==> Stable(Best(target, NO_LIMITS, start, solutions))
  {
    var explored := Best(target, NO_LIMITS, start, solutions);
    if solutions == [] then explored else Refined(sim, target, explored, localWires, globalWires)
  }

  /**
   * The main program for one array. The results end as the refined optima of the whole
   * space, or with constraints as the optima among the designs within limits taken from them.
   */
  method DesignArray(sim: Simulator, r: Request, b: Bounds, localWire: Wire, globalWire: Wire, localRange: WireRange,
                     globalRange: WireRange, constraints: Option<Constraints>, best: seq<Result>)
    returns (exited: bool, numSolution: nat, localWires: seq<Wire>, globalWires: seq<Wire>, allowed: Limits,
             ghost starts: seq<Design>)
    requires r.Positive() && b.WellFormed() && localRange.WellFormed() && globalRange.WellFormed()
    requires Realistic(sim) && Initial(best)
    modifies best
    ensures |starts| == |TARGETS| == |best| && forall k :: 0 <= k < |best| ==> starts[k] == old(best[k].Held())
    ensures Lists(localWires, localRange) && Lists(globalWires, globalRange)
    ensures Choices(Visits(b, []))
    ensures exited <==> AnyViolation(sim, r, Visits(b, []), localWire, globalWire, None)
    ensures !exited ==>
      var solutions := Solutions(sim, r, Visits(b, []), localWire, globalWire, None);
      && (forall k :: 0 <= k < |best| && solutions != [] ==> Stable(Best(TARGETS[k], NO_LIMITS, starts[k], solutions)))
      && var refined := seq(|best|, k requires 0 <= k < |best| =>
             Unconstrained(sim, TARGETS[k], starts[k], solutions, localWires, globalWires));
        if constraints.None? then
          && numSolution == |solutions|
          && forall k :: 0 <= k < |best| ==> best[k].Held() == refined[k]
        else
          && allowed == Allowed(seq(|best|, k requires 0 <= k < |best| => refined[k].metrics), constraints.value)
          && numSolution == |Feasible(allowed, solutions)|
          && forall k :: 0 <= k < |best| ==>
            best[k].Held() == Best(TARGETS[k], allowed, refined[k].(metrics := WORST_METRICS),
              Feasible(allowed, solutions))
  {
    hide Visits, Realistic, OutcomeOf, Better, Evaluated, Within, BelowWorst, Score, Allowed, Solutions, Feasible,
      LocallyRefined, GloballyRefined, Refined, Best, Stable, Lists;
    localWires, globalWires, allowed := [], [], NO_LIMITS;
    starts := seq(|best|, k requires 0 <= k < |best| reads best => best[k].Held());
    VisitsAreChoices(b);
    var visits := BigFor(b, []);
    localWires := WiresIn(localRange);
    globalWires := WiresIn(globalRange);
    ghost var solutions := Solutions(sim, r, visits, localWire, globalWire, None);
    exited, numSolution := Explore(sim, r, visits, localWire, globalWire, None, best);
    if exited {
      return;
    }
    if numSolution > 0 {
      SolutionsAreStable(sim, r, visits, localWire, globalWire, None);
      forall k | 0 <= k < |best|
        ensures Stable(best[k].Held()) && best[k].Held() == Best(TARGETS[k], NO_LIMITS, starts[k], solutions)
      {
        ExploredIsSolution(TARGETS[k], starts[k], solutions);
      }
      Refine(sim, localWires, globalWires, best);
    }
    ghost var refined := seq(|best|, k requires 0 <= k < |best| =>
      Unconstrained(sim, TARGETS[k], starts[k], solutions, localWires, globalWires));
    assert forall k :: 0 <= k < |best| ==> best[k].Held() == refined[k];
    if constraints.Some? {
      assert seq(|best|, k requires 0 <= k < |best| reads best => best[k].metrics)
        == seq(|best|, k requires 0 <= k < |best| => refined[k].metrics);
      allowed := ApplyLimits(best, constraints.value);
      GuardedSolutions(sim, r, visits, localWire, globalWire, allowed);
      exited, numSolution := Explore(sim, r, visits, localWire, globalWire, Some(allowed), best);
    }
  }

  /** Both refinement passes. */
  method Refine(sim: Simulator, localWires: seq<Wire>, globalWires: seq<Wire>, best: seq<Result>)
    requires Optima(best)
    requires forall k :: 0 <= k < |best| ==>
      best[k].optimizationTarget == TARGETS[k] && best[k].limits == NO_LIMITS && Stable(best[k].Held())
    modifies best
    ensures forall k :: 0 <= k < |best| ==>
      && best[k].optimizationTarget == TARGETS[k] && best[k].limits == NO_LIMITS
      && best[k].Held() == Refined(sim, TARGETS[k], old(best[k].Held()), localWires, globalWires)
  {
    hide LocallyRefined, GloballyRefined, Refined, Stable;
    RefineLocal(sim, localWires, best);
    ghost var afterLocal := seq(|best|, k requires 0 <= k < |best| reads best => best[k].Held());
    forall k | 0 <= k < |best|
      ensures Stable(best[k].Held())
    {
      LocallyRefinedIsStable(sim, TARGETS[k], old(best[k].Held()), localWires, best[k].Held());
    }
    RefineGlobal(sim, globalWires, best);
    forall k | 0 <= k < |best|
      ensures best[k].Held() == Refined(sim, TARGETS[k], old(best[k].Held()), localWires, globalWires)
    {
      RefinedInSteps(sim, TARGETS[k], old(best[k].Held()), localWires, globalWires, afterLocal[k], best[k].Held());
    }
  }

  // ---- what is reported ----

  /** A refined design is still an evaluated bank of the same organisation. */
  lemma RefinedIsEvaluated(sim: Simulator, target: Target, d: Design, localWires: seq<Wire>, globalWires: seq<Wire>)
    requires Stable(d) && Evaluated(sim, d.config, d.localWire, d.globalWire) == d
    ensures var u := Refined(sim, target, d, localWires, globalWires);
      && u.config == d.config && Evaluated(sim, u.config, u.localWire, u.globalWire) == u
      && Score(target, u.metrics) <= Score(target, d.metrics)
      && (forall w :: w in localWires && Within(Evaluated(sim, d.config, w, d.globalWire).metrics, NO_LIMITS) ==>
            Score(target, u.metrics) <= Score(target, Evaluated(sim, d.config, w, d.globalWire).metrics))
      && forall w :: w in globalWires && Within(Evaluated(sim, u.config, u.localWire, w).metrics, NO_LIMITS) ==>
        Score(target, u.metrics) <= Score(target, Evaluated(sim, u.config, u.localWire, w).metrics)
  {
    hide Score, Within, Evaluate, Best;
    var l := Best(target, NO_LIMITS, d, LocalTrials(sim, d, localWires));
    LocalStays(sim, target, NO_LIMITS, d, localWires);
    BestIsLeast(target, NO_LIMITS, d, LocalTrials(sim, d, localWires));
    LocalDescent(sim, target, NO_LIMITS, d, localWires, l);
    var u := Best(target, NO_LIMITS, l, GlobalTrials(sim, l, globalWires));
    BestIsLeast(target, NO_LIMITS, l, GlobalTrials(sim, l, globalWires));
    GlobalDescent(sim, target, NO_LIMITS, l, globalWires, u);
    forall w | w in localWires && Within(Evaluated(sim, d.config, w, d.globalWire).metrics, NO_LIMITS)
      ensures Score(target, u.metrics) <= Score(target, Evaluated(sim, d.config, w, d.globalWire).metrics)
    {
      assert LocalTrial(sim, d, w) == Evaluated(sim, d.config, w, d.globalWire);
    }
  }

  /** No solution among the visits is better in the metric of the target. */
  ghost predicate Unbeaten(sim: Simulator, r: Request, visits: seq<seq<int>>, localWire: Wire, globalWire: Wire,
                           target: Target, m: Metrics)
    requires Choices(visits) && r.Positive()
  {
    forall t :: t in visits && OutcomeOf(sim, r, t, localWire, globalWire, None).Solution? ==>
      NoWorse(target, m, OutcomeOf(sim, r, t, localWire, globalWire, None).design.metrics)
  }

  /** The organisation of a design is one that the loops visit. */
  ghost predicate FromSpace(sim: Simulator, r: Request, b: Bounds, localWire: Wire, globalWire: Wire, c: BankConfig,
                            t: seq<int>)
    requires r.Positive() && b.WellFormed()
  {
    && InSpace(b, t) && Choice(t)
    && var o := OutcomeOf(sim, r, t, localWire, globalWire, None);
      o.Solution? && o.design.config == c
  }

  lemma ExploredDesign(sim: Simulator, r: Request, b: Bounds, localWire: Wire, globalWire: Wire, target: Target,
                       start: Design)
    returns (d: Design, t: seq<int>)
    requires r.Positive() && b.WellFormed() && Realistic(sim) && Choices(Visits(b, []))
    requires start.metrics == WORST_METRICS
    requires Solutions(sim, r, Visits(b, []), localWire, globalWire, None) != []
    ensures d == Best(target, NO_LIMITS, start, Solutions(sim, r, Visits(b, []), localWire, globalWire, None))
    ensures Stable(d) && Evaluated(sim, d.config, d.localWire, d.globalWire) == d
    ensures d.localWire == localWire && d.globalWire == globalWire && BelowWorst(d.metrics)
    ensures FromSpace(sim, r, b, localWire, globalWire, d.config, t)
    ensures Unbeaten(sim, r, Visits(b, []), localWire, globalWire, target, d.metrics)
  {
    hide Visits, OutcomeOf, Score, Within, BelowWorst, Realistic, Evaluated, Best, Stable, Solutions, NoWorse;
    var visits := Visits(b, []);
    var solutions := Solutions(sim, r, visits, localWire, globalWire, None);
    ScoreOrdersAll(target);
    SolutionsAreStable(sim, r, visits, localWire, globalWire, None);
    ExploredIsSolution(target, start, solutions);
    d := Best(target, NO_LIMITS, start, solutions);
    BestIsLeast(target, NO_LIMITS, start, solutions);
    SolutionsAreEvaluated(sim, r, visits, localWire, globalWire, None, d);
    t :| t in visits && OutcomeOf(sim, r, t, localWire, globalWire, None) == Solution(d);
    SearchIsExhaustive(b, t);
    SolutionIsStable(sim, r, t, localWire, globalWire, None);
    forall s | s in visits && OutcomeOf(sim, r, s, localWire, globalWire, None).Solution?
      ensures Score(target, d.metrics)
        <= Score(target, OutcomeOf(sim, r, s, localWire, globalWire, None).design.metrics)
    {
      EverySolutionCompared(sim, r, visits, localWire, globalWire, None, s);
      var other := OutcomeOf(sim, r, s, localWire, globalWire, None).design;
      assert other in solutions && Within(other.metrics, NO_LIMITS);
    }
  }

  /**
   * The design reported for a metric is a valid bank of the searched space with the metrics and
   * wires it was evaluated with; no organisation of the space beats it, no tried local wire
   * under the wires of the exploration does, and no tried global wire would improve it.
   */
  lemma ReportedDesign(sim: Simulator, r: Request, b: Bounds, localWire: Wire, globalWire: Wire, target: Target,
                       start: Design, localWires: seq<Wire>, globalWires: seq<Wire>)
    returns (u: Design, t: seq<int>)
    requires r.Positive() && b.WellFormed() && Realistic(sim) && Choices(Visits(b, []))
    requires start.metrics == WORST_METRICS
    requires Solutions(sim, r, Visits(b, []), localWire, globalWire, None) != []
    ensures var solutions := Solutions(sim, r, Visits(b, []), localWire, globalWire, None);
      && Stable(Best(target, NO_LIMITS, start, solutions))
      && u == Unconstrained(sim, target, start, solutions, localWires, globalWires)
    ensures FromSpace(sim, r, b, localWire, globalWire, u.config, t)
    ensures u.config.Positive() && Evaluated(sim, u.config, u.localWire, u.globalWire) == u
    ensures Evaluate(sim, u.config, u.localWire, u.globalWire) == Some(u.metrics)
    ensures Unbeaten(sim, r, Visits(b, []), localWire, globalWire, target, u.metrics)
    ensures forall w :: w in localWires && Within(Evaluated(sim, u.config, w, globalWire).metrics, NO_LIMITS) ==>
      NoWorse(target, u.metrics, Evaluated(sim, u.config, w, globalWire).metrics)
    ensures forall w :: w in globalWires && Within(Evaluated(sim, u.config, u.localWire, w).metrics, NO_LIMITS) ==>
      NoWorse(target, u.metrics, Evaluated(sim, u.config, u.localWire, w).metrics)
  {
    hide Visits, OutcomeOf, Score, Within, BelowWorst, Realistic, Evaluated, Refined, Best, Solutions, FromSpace,
      NoWorse;
    ScoreOrdersAll(target);
    var d;
    d, t := ExploredDesign(sim, r, b, localWire, globalWire, target, start);
    RefinedIsEvaluated(sim, target, d, localWires, globalWires);
    u := Refined(sim, target, d, localWires, globalWires);
    BelowWorstScores(target, d.metrics);
    InvalidIsWorst(sim, u);
  }

  /** An invalid bank has the worst of all metrics, so a better design is a valid one. */
  lemma InvalidIsWorst(sim: Simulator, u: Design)
    requires u.config.Positive() && Evaluated(sim, u.config, u.localWire, u.globalWire) == u
    ensures u.metrics == WORST_METRICS || Evaluate(sim, u.config, u.localWire, u.globalWire) == Some(u.metrics)
  {
    hide Evaluate;
  }

  /** No solution among the visits that meets the limits is better in the metric of the target. */
  ghost predicate UnbeatenWithin(sim: Simulator, r: Request, visits: seq<seq<int>>, localWire: Wire, globalWire: Wire,
                                 limits: Limits, target: Target, m: Metrics)
    requires Choices(visits) && r.Positive()
  {
    forall t :: t in visits ==>
      var outcome := OutcomeOf(sim, r, t, localWire, globalWire, None);
      outcome.Solution? && Within(outcome.design.metrics, limits) ==> NoWorse(target, m, outcome.design.metrics)
  }

  /**
   * The design reported under constraints is a bank of the searched space with the metrics
   * and wires it was evaluated with; it meets all limits, and no organisation that meets
   * them beats it.
   */
  lemma ConstrainedDesign(sim: Simulator, r: Request, b: Bounds, localWire: Wire, globalWire: Wire, target: Target,
                          limits: Limits, previous: Design)
    returns (u: Design, t: seq<int>)
    requires r.Positive() && b.WellFormed() && Realistic(sim) && Choices(Visits(b, []))
    requires Feasible(limits, Solutions(sim, r, Visits(b, []), localWire, globalWire, None)) != []
    ensures u == Best(target, limits, previous.(metrics := WORST_METRICS),
                      Feasible(limits, Solutions(sim, r, Visits(b, []), localWire, globalWire, None)))
    ensures FromSpace(sim, r, b, localWire, globalWire, u.config, t)
    ensures Stable(u) && u.localWire == localWire && u.globalWire == globalWire
    ensures Evaluated(sim, u.config, u.localWire, u.globalWire) == u
    ensures Within(u.metrics, limits)
    ensures UnbeatenWithin(sim, r, Visits(b, []), localWire, globalWire, limits, target, u.metrics)
  {
    hide Visits, OutcomeOf, Score, Within, BelowWorst, Realistic, Evaluated, Best, Stable, Solutions, Feasible, NoWorse;
    ScoreOrdersAll(target);
    var visits := Visits(b, []);
    var solutions := Solutions(sim, r, visits, localWire, globalWire, None);
    SolutionsAreStable(sim, r, visits, localWire, globalWire, None);
    var i := ConstrainedOptimum(target, limits, previous, solutions);
    u := solutions[i];
    SolutionsAreEvaluated(sim, r, visits, localWire, globalWire, None, u);
    t :| t in visits && OutcomeOf(sim, r, t, localWire, globalWire, None) == Solution(u);
    SearchIsExhaustive(b, t);
    SolutionIsStable(sim, r, t, localWire, globalWire, None);
    forall s | s in visits && OutcomeOf(sim, r, s, localWire, globalWire, None).Solution?
      ensures OutcomeOf(sim, r, s, localWire, globalWire, None).design in solutions
    {
      EverySolutionCompared(sim, r, visits, localWire, globalWire, None, s);
    }
  }

  // ---- the two arrays of a cache ----

  datatype AccessMode = NormalAccess | SequentialAccess | FastAccess

  /** Sequential access already knows the way; fast access loads the whole set as one word. */
  function DataRequestOf(capacityInBytes: int, wordWidth: int, associativity: int, mode: AccessMode,
                         internalSensing: bool): Request {
    match mode
    case NormalAccess => DataRequest(capacityInBytes * 8, wordWidth, associativity, internalSensing)
    case SequentialAccess => DataRequest(capacityInBytes * 8, wordWidth, 1, internalSensing)
    case FastAccess => DataRequest(capacityInBytes * 8, wordWidth * associativity, 1, internalSensing)
  }

  function TagRequestOf(capacityInBytes: int, wordWidth: int, associativity: int, internalSensing: bool): Request
    requires wordWidth >= 8 && associativity >= 1 && capacityInBytes * 8 / wordWidth / associativity >= 1
  {
    TagRequest(capacityInBytes * 8 / wordWidth, TagBits(capacityInBytes, wordWidth, associativity), associativity,
      internalSensing)
  }

  lemma CacheSets(capacityInBytes: int, wordWidth: int, associativity: int, k: nat)
    requires wordWidth >= 8 && associativity >= 1
    requires capacityInBytes * 8 == Pow2(k) * wordWidth * associativity
    ensures capacityInBytes * 8 / wordWidth == Pow2(k) * associativity
    ensures capacityInBytes * 8 / wordWidth / associativity == Pow2(k)
  {
    hide Pow2;
    Reorder(Pow2(k), wordWidth, associativity);
    ExactDivision(Pow2(k) * associativity, wordWidth);
    ExactDivision(Pow2(k), associativity);
  }

  /** How wide the words and addresses of both arrays are, for 2^k sets of lines of 2^o bytes in 2^w ways. */
  lemma CacheWidths(capacityInBytes: int, wordWidth: int, associativity: int, mode: AccessMode, internalSensing: bool,
                    k: nat, o: nat, w: nat)
    requires wordWidth == 8 * Pow2(o) && associativity == Pow2(w)
    requires capacityInBytes * 8 == Pow2(k) * wordWidth * associativity
    ensures wordWidth >= 8 && associativity >= 1 && capacityInBytes * 8 / wordWidth / associativity >= 1
    ensures var tag := TagRequestOf(capacityInBytes, wordWidth, associativity, internalSensing);
      && tag.lines == Pow2(k) * associativity && tag.tagBits == 48 - k - o + 2
      && tag.associativity == associativity && tag.internalSensing == internalSensing
    ensures var data := DataRequestOf(capacityInBytes, wordWidth, associativity, mode, internalSensing);
      && data.Positive() && data.capacity == capacityInBytes * 8 && data.internalSensing == internalSensing
      && (mode == NormalAccess ==>
            data.blockSize == wordWidth && data.associativity == associativity && AddressBits(data) == k)
      && (mode == SequentialAccess ==>
            data.blockSize == wordWidth && data.associativity == 1 && AddressBits(data) == k + w)
      && (mode == FastAccess ==>
            data.blockSize == wordWidth * associativity && data.associativity == 1 && AddressBits(data) == k)
  {
    hide Pow2, LogRound;
    CacheSets(capacityInBytes, wordWidth, associativity, k);
    LogRoundOfPow2(k);
    LogRoundOfPow2(o);
    assert wordWidth / 8 == Pow2(o);
    ProductAtLeast(wordWidth, associativity);
    CapacityByMode(k, wordWidth, w);
    var data := DataRequestOf(capacityInBytes, wordWidth, associativity, mode, internalSensing);
    LogRoundOfRatio(data.capacity, data.blockSize, data.associativity, if mode == SequentialAccess then k + w else k);
    LogRoundOfPow2(k + w);
  }

  /** For a cache of powers of two the capacity check passes in both arrays, in every access mode. */
  lemma CacheNeverViolates(sim: Simulator, tagBounds: Bounds, dataBounds: Bounds, capacityInBytes: int,
                           wordWidth: int, associativity: int, mode: AccessMode, internalSensing: bool,
                           localWire: Wire, globalWire: Wire, guard: Option<Limits>, k: nat)
    requires Pow2Bounds(tagBounds) && Pow2Bounds(dataBounds)
    requires wordWidth >= 8 && IsPow2(wordWidth) && IsPow2(associativity)
    requires capacityInBytes * 8 == Pow2(k) * wordWidth * associativity
    requires k + LogRound((wordWidth / 8) as real) < TOTAL_ADDRESS_BIT + 2
    ensures associativity >= 1 && capacityInBytes * 8 / wordWidth / associativity >= 1
    ensures var tag := TagRequestOf(capacityInBytes, wordWidth, associativity, internalSensing);
      tag.Positive() && Choices(Visits(tagBounds, []))
        && !AnyViolation(sim, tag, Visits(tagBounds, []), localWire, globalWire, guard)
    ensures var data := DataRequestOf(capacityInBytes, wordWidth, associativity, mode, internalSensing);
      data.Positive() && Choices(Visits(dataBounds, []))
        && !AnyViolation(sim, data, Visits(dataBounds, []), localWire, globalWire, guard)
  {
    hide Visits, AnyViolation, Pow2, LogRound;
    CacheSets(capacityInBytes, wordWidth, associativity, k);
    LogRoundOfPow2(k);
    VisitsAreChoices(tagBounds);
    VisitsAreChoices(dataBounds);
    var tag := TagRequestOf(capacityInBytes, wordWidth, associativity, internalSensing);
    ProductAtLeast(Pow2(k), associativity);
    TagNeverViolates(sim, tag, tagBounds, localWire, globalWire, guard);
    var data := DataRequestOf(capacityInBytes, wordWidth, associativity, mode, internalSensing);
    DataSets(capacityInBytes, wordWidth, associativity, mode, internalSensing, k);
    DataNeverViolates(sim, data, dataBounds, localWire, globalWire, guard);
  }

  lemma DataSets(capacityInBytes: int, wordWidth: int, associativity: int, mode: AccessMode, internalSensing: bool,
                 k: nat)
    requires wordWidth >= 8 && IsPow2(wordWidth) && IsPow2(associativity)
    requires capacityInBytes * 8 == Pow2(k) * wordWidth * associativity
    ensures var data := DataRequestOf(capacityInBytes, wordWidth, associativity, mode, internalSensing);
      && data.Positive() && IsPow2(data.associativity) && IsPow2(data.blockSize)
      && exists j: nat :: data.capacity == Pow2(j) * data.blockSize * data.associativity
  {
    hide Pow2;
    var w: nat :| associativity == Pow2(w);
    OneIsPow2();
    ProductPow2(wordWidth, associativity);
    ProductAtLeast(wordWidth, associativity);
    CapacityByMode(k, wordWidth, w);
    match mode {
      case NormalAccess =>
        assert capacityInBytes * 8 == Pow2(k) * wordWidth * associativity;
      case SequentialAccess =>
        assert capacityInBytes * 8 == Pow2(k + w) * wordWidth * 1;
      case FastAccess =>
        assert capacityInBytes * 8 == Pow2(k) * (wordWidth * associativity) * 1;
    }
  }

  lemma CapacityByMode(k: nat, wordWidth: int, w: nat)
    requires wordWidth >= 1
    ensures Pow2(k) * wordWidth * Pow2(w) >= 1
    ensures Pow2(k) * wordWidth * Pow2(w) == Pow2(k + w) * wordWidth * 1
    ensures Pow2(k) * wordWidth * Pow2(w) == Pow2(k) * (wordWidth * Pow2(w)) * 1
  {
    hide Pow2;
    Pow2Add(k, w);
    Reorder(Pow2(k), wordWidth, Pow2(w));
    ProductAtLeast(Pow2(k), wordWidth);
    ProductAtLeast(Pow2(k) * wordWidth, Pow2(w));
    assert Pow2(k) * wordWidth * Pow2(w) == Pow2(k) * (wordWidth * Pow2(w));
  }

  /** Three megabytes of 64-byte lines in eight ways are 6144 sets: the tag search ends the program. */
  lemma OddCacheExits(sim: Simulator, visits: seq<seq<int>>, localWire: Wire, globalWire: Wire)
    requires Accepting(sim, 8)
    requires Choices(visits) && SINGLE_CHOICE in visits
    ensures var tag := TagRequestOf(3145728, 512, 8, true);
      tag.Positive() && AnyViolation(sim, tag, visits, localWire, globalWire, None)
  {
    hide Pow2, PlanBank, BankCells, Sharers, OutcomeOf, LogRound, SetRatio;
    var tag, t := TagRequestOf(3145728, 512, 8, true), SINGLE_CHOICE;
    SmallPowers();
    LogRoundOfPow2(6);
    FloorLog2IsUnique(6144, 12);
    LogRoundAtLeastFloor(6144);
    LogRoundAtMostCeiling(6144);
    assert tag.lines == 49152 && 31 <= tag.tagBits <= 32;
    SingleChoice(tag, t);
    var c := ConfigOf(tag, t);
    SetsOfTag(c);
    SingleMatIsValid(c, sim.tech, localWire, globalWire);
    OddLines(tag);
    assert IsPow2(tag.associativity);
    TagViolation(sim, tag, t, localWire, globalWire, None);
    assert OutcomeOf(sim, tag, t, localWire, globalWire, None).Violation?;
  }

  lemma SetsOfTag(c: BankConfig)
    requires c.Positive() && c.capacity == 49152 * c.blockSize && c.associativity == 8
    ensures SetRatio(c) == 6144.0
  {
    assert c.capacity as real == 49152.0 * c.blockSize as real;
    Cancel(49152.0, c.blockSize as real);
  }

  lemma OddLines(tag: Request)
    requires tag.TagRequest? && tag.lines == 49152 && tag.associativity == 8
    ensures !Pow2TagSets(tag)
  {
    hide Pow2;
    SmallPowers();
    BetweenPowers(6144, 12);
    forall k: nat
      ensures tag.lines != Pow2(k) * tag.associativity
    {
      assert Pow2(k) != 6144;
    }
  }
}
