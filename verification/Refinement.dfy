/** The passes after the exploration: other wires for each optimum, and a second search under constraints. */
module Refinement {
  import opened Organisation
  import opened Banks
  import opened BankLaws
  import opened Results
  import opened Search

  /** The ranges over which the wires of one layer are refined; low swing is a truth value, 0 or 1. */
  datatype WireRange = WireRange(minType: int, maxType: int, minRepeater: int, maxRepeater: int, minLowSwing: int,
                                 maxLowSwing: int) {
    predicate WellFormed() {
      0 <= minLowSwing && maxLowSwing <= 1
    }
  }

  function Swing(w: Wire): int {
    if w.isLowSwing then 1 else 0
  }

  /** Repeated wires are tried without low swing only. */
  predicate InRange(w: Wire, range: WireRange) {
    && range.minType <= w.wireType <= range.maxType
    && range.minRepeater <= w.repeaterType <= range.maxRepeater
    && range.minLowSwing <= Swing(w) <= range.maxLowSwing
    && (w.repeaterType == REPEATED_NONE || !w.isLowSwing)
  }

  /** The order of the nested loops over types, repeaters and low swing. */
  predicate WireBefore(v: Wire, w: Wire) {
    || v.wireType < w.wireType
    || (v.wireType == w.wireType
        && (v.repeaterType < w.repeaterType || (v.repeaterType == w.repeaterType && Swing(v) < Swing(w))))
  }

  /** A list in the order of the loops, so without repeats. */
  ghost predicate InLoopOrder(wires: seq<Wire>) {
    forall i, j :: 0 <= i < j < |wires| ==> WireBefore(wires[i], wires[j])
  }

  /** Exactly the wires in range, in the order of the loops. */
  ghost predicate Lists(wires: seq<Wire>, range: WireRange) {
    InLoopOrder(wires) && forall w :: w in wires <==> InRange(w, range)
  }

  /** What is listed, field by field. */
  lemma ListedExactly(wires: seq<Wire>, range: WireRange, wireType: int, repeaterType: int, isLowSwing: bool)
    requires Lists(wires, range)
    ensures Wire(wireType, repeaterType, isLowSwing) in wires
      <==> && range.minType <= wireType <= range.maxType
           && range.minRepeater <= repeaterType <= range.maxRepeater
           && (if isLowSwing then range.minLowSwing <= 1 <= range.maxLowSwing && repeaterType == 0
               else range.minLowSwing <= 0 <= range.maxLowSwing)
  {
  }

  /** In which order, field by field: types in the outer loop, repeaters in the middle, low swing last. */
  lemma ListedInOrder(wires: seq<Wire>, range: WireRange, i: nat, j: nat)
    requires Lists(wires, range) && i < j < |wires|
    ensures var v, w := wires[i], wires[j];
      && v.wireType <= w.wireType
      && (v.wireType == w.wireType ==> v.repeaterType <= w.repeaterType)
      && (v.wireType == w.wireType && v.repeaterType == w.repeaterType ==> !v.isLowSwing && w.isLowSwing)
  {
  }

  lemma OneWay(v: Wire, w: Wire)
    ensures !(WireBefore(v, w) && WireBefore(w, v))
  {
  }

  /** The last wire of a list comes after all others, and what is left without it is a list. */
  lemma LastWire(wires: seq<Wire>, w: Wire)
    requires InLoopOrder(wires) && wires != []
    ensures var last, rest := wires[|wires| - 1], wires[..|wires| - 1];
      && InLoopOrder(rest)
      && (w in rest ==> WireBefore(w, last))
      && (w in wires <==> w in rest || w == last)
      && (w in rest ==> w != last)
  {
    hide WireBefore;
    var last, rest := wires[|wires| - 1], wires[..|wires| - 1];
    assert wires == rest + [last];
    OneWay(last, last);
  }

  lemma EmptyTogether(v: seq<Wire>, w: seq<Wire>)
    requires forall x :: x in v <==> x in w
    ensures v == [] <==> w == []
  {
    if v != [] {
      assert v[0] in w;
    }
    if w != [] {
      assert w[0] in v;
    }
  }

  /** There is only one such list. */
  lemma {:induction false} ListIsUnique(v: seq<Wire>, w: seq<Wire>)
    requires InLoopOrder(v) && InLoopOrder(w) && forall x :: x in v <==> x in w
    ensures v == w
    decreases |v|
  {
    hide WireBefore, InLoopOrder;
    EmptyTogether(v, w);
    if v != [] {
      var lastV, lastW := v[|v| - 1], w[|w| - 1];
      var restV, restW := v[..|v| - 1], w[..|w| - 1];
      LastWire(v, lastW);
      LastWire(w, lastV);
      OneWay(lastV, lastW);
      assert lastV in v && lastW in w;
      assert lastV == lastW;
      forall x
        ensures x in restV <==> x in restW
      {
        LastWire(v, x);
        LastWire(w, x);
      }
      ListIsUnique(restV, restW);
      assert v == restV + [lastV] && w == restW + [lastW];
    }
  }

  /** The three nested loops over wire types, repeaters and low swing, with their filter. */
  method WiresIn(range: WireRange) returns (wires: seq<Wire>)
    requires range.WellFormed()
    ensures Lists(wires, range)
  {
    wires := [];
    var wireType := range.minType;
    while wireType <= range.maxType
      invariant InLoopOrder(wires)
      invariant forall w :: w in wires <==> InRange(w, range) && w.wireType < wireType
      decreases range.maxType - wireType
    {
      var repeaterType := range.minRepeater;
      while repeaterType <= range.maxRepeater
        invariant InLoopOrder(wires)
        invariant forall w :: w in wires <==>
          InRange(w, range) && (w.wireType < wireType || (w.wireType == wireType && w.repeaterType < repeaterType))
        decreases range.maxRepeater - repeaterType
      {
        var lowSwing := range.minLowSwing;
        while lowSwing <= range.maxLowSwing
          invariant range.minLowSwing <= lowSwing
          invariant InLoopOrder(wires)
          invariant forall w :: w in wires <==>
            InRange(w, range) &&
            (w.wireType < wireType ||
             (w.wireType == wireType
               && (w.repeaterType < repeaterType || (w.repeaterType == repeaterType && Swing(w) < lowSwing))))
          decreases range.maxLowSwing - lowSwing
        {
          if repeaterType == REPEATED_NONE || lowSwing == 0 {
            var next := Wire(wireType, repeaterType, lowSwing != 0);
            assert forall i :: 0 <= i < |wires| ==> wires[i] in wires && WireBefore(wires[i], next);
            wires := wires + [next];
          }
          lowSwing := lowSwing + 1;
        }
        repeaterType := repeaterType + 1;
      }
      wireType := wireType + 1;
    }
  }

  // ---- refinement ----

  /** The design that a trial of one more local wire compares with. */
  ghost function LocalTrial(sim: Simulator, d: Design, w: Wire): Design
    requires d.config.Positive()
  {
    Evaluated(sim, d.config, w, d.globalWire)
  }

  ghost function GlobalTrial(sim: Simulator, d: Design, w: Wire): Design
    requires d.config.Positive()
  {
    Evaluated(sim, d.config, d.localWire, w)
  }

  ghost function LocalTrials(sim: Simulator, d: Design, wires: seq<Wire>): seq<Design>
    requires d.config.Positive()
  {
    seq(|wires|, i requires 0 <= i < |wires| => LocalTrial(sim, d, wires[i]))
  }

  ghost function GlobalTrials(sim: Simulator, d: Design, wires: seq<Wire>): seq<Design>
    requires d.config.Positive()
  {
    seq(|wires|, i requires 0 <= i < |wires| => GlobalTrial(sim, d, wires[i]))
  }

  /** A design as a bank stores it: nothing left to clamp. */
  ghost predicate Stable(d: Design) {
    d.config.Positive() && d.config.Stored() == d.config
  }

  /** Builds the stored organisation again with the given wires and compares. */
  method TryAndUpdate(sim: Simulator, result: Result, localWire: Wire, globalWire: Wire)
    requires Stable(result.Held())
    modifies result
    ensures result.optimizationTarget == old(result.optimizationTarget) && result.limits == old(result.limits)
    ensures result.Held() == Better(result.optimizationTarget, result.limits, old(result.Held()),
                                    Evaluated(sim, old(result.config), localWire, globalWire))
    ensures result.Held().config == old(result.config)
  {
    hide Evaluate, Eligible;
    var invalid, plan, metrics := Calculate(sim, result.config, localWire, globalWire);
    result.CompareAndUpdate(result.config, metrics, localWire, globalWire);
  }

  /** What the local pass has made of one result after some of the wires. */
  ghost predicate LocallyRefined(sim: Simulator, target: Target, limits: Limits, before: Design, wires: seq<Wire>,
                                 after: Design)
    requires Stable(before)
  {
    && after == Best(target, limits, before, LocalTrials(sim, before, wires))
    && after.config == before.config && after.globalWire == before.globalWire
  }

  ghost predicate GloballyRefined(sim: Simulator, target: Target, limits: Limits, before: Design, wires: seq<Wire>,
                                  after: Design)
    requires Stable(before)
  {
    && after == Best(target, limits, before, GlobalTrials(sim, before, wires))
    && after.config == before.config && after.localWire == before.localWire
  }

  lemma LocalStep(sim: Simulator, target: Target, limits: Limits, before: Design, wires: seq<Wire>, n: nat, now: Design)
    requires Stable(before) && n < |wires| && LocallyRefined(sim, target, limits, before, wires[..n], now)
    ensures Stable(now)
    ensures LocallyRefined(sim, target, limits, before, wires[..n + 1],
      Better(target, limits, now, LocalTrial(sim, now, wires[n])))
  {
    hide Evaluate, Eligible;
    var trials := LocalTrials(sim, before, wires[..n + 1]);
    assert trials[..n] == LocalTrials(sim, before, wires[..n]);
    assert trials[n] == LocalTrial(sim, now, wires[n]);
  }

  lemma GlobalStep(sim: Simulator, target: Target, limits: Limits, before: Design, wires: seq<Wire>, n: nat,
                   now: Design)
    requires Stable(before) && n < |wires| && GloballyRefined(sim, target, limits, before, wires[..n], now)
    ensures Stable(now)
    ensures GloballyRefined(sim, target, limits, before, wires[..n + 1],
      Better(target, limits, now, GlobalTrial(sim, now, wires[n])))
  {
    hide Evaluate, Eligible;
    var trials := GlobalTrials(sim, before, wires[..n + 1]);
    assert trials[..n] == GlobalTrials(sim, before, wires[..n]);
    assert trials[n] == GlobalTrial(sim, now, wires[n]);
  }

  /** For every local wire, every result is tried with that wire and its own global wire. */
  method RefineLocal(sim: Simulator, wires: seq<Wire>, best: seq<Result>)
    requires Optima(best) && forall k :: 0 <= k < |best| ==> Stable(best[k].Held())
    modifies best
    ensures forall k :: 0 <= k < |best| ==>
      && best[k].optimizationTarget == old(best[k].optimizationTarget) && best[k].limits == old(best[k].limits)
      && LocallyRefined(sim, best[k].optimizationTarget, best[k].limits, old(best[k].Held()), wires, best[k].Held())
  {
    hide LocallyRefined, Better, Evaluated, Eligible;
    LocalStart(sim, wires);
    for n := 0 to |wires|
      invariant forall k :: 0 <= k < |best| ==>
        && best[k].optimizationTarget == old(best[k].optimizationTarget) && best[k].limits == old(best[k].limits)
        && LocallyRefined(sim, best[k].optimizationTarget, best[k].limits, old(best[k].Held()), wires[..n],
          best[k].Held())
    {
      for i := 0 to |best|
        invariant forall k :: 0 <= k < |best| ==>
          && best[k].optimizationTarget == old(best[k].optimizationTarget) && best[k].limits == old(best[k].limits)
        invariant forall k :: 0 <= k < i ==>
          LocallyRefined(sim, best[k].optimizationTarget, best[k].limits, old(best[k].Held()), wires[..n + 1],
            best[k].Held())
        invariant forall k :: i <= k < |best| ==>
          LocallyRefined(sim, best[k].optimizationTarget, best[k].limits, old(best[k].Held()), wires[..n],
            best[k].Held())
      {
        LocalStep(sim, best[i].optimizationTarget, best[i].limits, old(best[i].Held()), wires, n, best[i].Held());
        TryAndUpdate(sim, best[i], wires[n], best[i].globalWire);
      }
    }
    assert wires[..|wires|] == wires;
  }

  lemma LocalStart(sim: Simulator, wires: seq<Wire>)
    ensures forall target, limits, d | Stable(d) :: LocallyRefined(sim, target, limits, d, wires[..0], d)
  {
  }

  lemma GlobalStart(sim: Simulator, wires: seq<Wire>)
    ensures forall target, limits, d | Stable(d) :: GloballyRefined(sim, target, limits, d, wires[..0], d)
  {
  }

  /** For every global wire, every result is tried with that wire and its own local wire. */
  method RefineGlobal(sim: Simulator, wires: seq<Wire>, best: seq<Result>)
    requires Optima(best) && forall k :: 0 <= k < |best| ==> Stable(best[k].Held())
    modifies best
    ensures forall k :: 0 <= k < |best| ==>
      && best[k].optimizationTarget == old(best[k].optimizationTarget) && best[k].limits == old(best[k].limits)
      && GloballyRefined(sim, best[k].optimizationTarget, best[k].limits, old(best[k].Held()), wires, best[k].Held())
  {
    hide GloballyRefined, Better, Evaluated, Eligible;
    GlobalStart(sim, wires);
    for n := 0 to |wires|
      invariant forall k :: 0 <= k < |best| ==>
        && best[k].optimizationTarget == old(best[k].optimizationTarget) && best[k].limits == old(best[k].limits)
        && GloballyRefined(sim, best[k].optimizationTarget, best[k].limits, old(best[k].Held()), wires[..n],
          best[k].Held())
    {
      for i := 0 to |best|
        invariant forall k :: 0 <= k < |best| ==>
          && best[k].optimizationTarget == old(best[k].optimizationTarget) && best[k].limits == old(best[k].limits)
        invariant forall k :: 0 <= k < i ==>
          GloballyRefined(sim, best[k].optimizationTarget, best[k].limits, old(best[k].Held()), wires[..n + 1],
            best[k].Held())
        invariant forall k :: i <= k < |best| ==>
          GloballyRefined(sim, best[k].optimizationTarget, best[k].limits, old(best[k].Held()), wires[..n],
            best[k].Held())
      {
        GlobalStep(sim, best[i].optimizationTarget, best[i].limits, old(best[i].Held()), wires, n, best[i].Held());
        TryAndUpdate(sim, best[i], best[i].localWire, wires[n]);
      }
    }
    assert wires[..|wires|] == wires;
  }

  /**
   * Refinement is a descent in one coordinate: organisation and other wire stay, the score
   * never rises, and afterwards no admissible wire that was tried would be better.
   */
  lemma LocalDescent(sim: Simulator, target: Target, limits: Limits, before: Design, wires: seq<Wire>, after: Design)
    requires Stable(before) && LocallyRefined(sim, target, limits, before, wires, after)
    ensures Score(target, after.metrics) <= Score(target, before.metrics)
    ensures after == before
      || (after.localWire in wires && after == LocalTrial(sim, before, after.localWire)
        && Within(after.metrics, limits))
    ensures forall w :: w in wires && Within(LocalTrial(sim, before, w).metrics, limits) ==>
      Score(target, after.metrics) <= Score(target, LocalTrial(sim, before, w).metrics)
  {
    hide Evaluate, Score, Within, Best;
    var trials := LocalTrials(sim, before, wires);
    BestIsLeast(target, limits, before, trials);
    forall w | w in wires
      ensures LocalTrial(sim, before, w) in trials
    {
      var i :| 0 <= i < |wires| && wires[i] == w;
      assert trials[i] == LocalTrial(sim, before, w);
    }
  }

  lemma GlobalDescent(sim: Simulator, target: Target, limits: Limits, before: Design, wires: seq<Wire>, after: Design)
    requires Stable(before) && GloballyRefined(sim, target, limits, before, wires, after)
    ensures Score(target, after.metrics) <= Score(target, before.metrics)
    ensures after == before
      || (after.globalWire in wires && after == GlobalTrial(sim, before, after.globalWire)
        && Within(after.metrics, limits))
    ensures forall w :: w in wires && Within(GlobalTrial(sim, before, w).metrics, limits) ==>
      Score(target, after.metrics) <= Score(target, GlobalTrial(sim, before, w).metrics)
  {
    hide Evaluate, Score, Within, Best;
    var trials := GlobalTrials(sim, before, wires);
    BestIsLeast(target, limits, before, trials);
    forall w | w in wires
      ensures GlobalTrial(sim, before, w) in trials
    {
      var i :| 0 <= i < |wires| && wires[i] == w;
      assert trials[i] == GlobalTrial(sim, before, w);
    }
  }

  // ---- the pass under constraints ----

  /** By how much each metric may exceed its own optimum. */
  datatype Constraints = Constraints(
    readLatency: real,
    writeLatency: real,
    readDynamicEnergy: real,
    writeDynamicEnergy: real,
    readEdp: real,
    writeEdp: real,
    area: real,
    leakage: real)

  function Relaxed(optimum: real, constraint: real): real {
    optimum * (constraint + 1.0)
  }

  /** The limits taken from the eight optima, in the order of the targets. */
  function Allowed(optima: seq<Metrics>, c: Constraints): Limits
    requires |optima| == |TARGETS|
  {
    Limits(Relaxed(optima[0].readLatency, c.readLatency),
           Relaxed(optima[1].writeLatency, c.writeLatency),
           Relaxed(optima[2].readDynamicEnergy, c.readDynamicEnergy),
           Relaxed(optima[3].writeDynamicEnergy, c.writeDynamicEnergy),
           Relaxed(optima[4].ReadEdp(), c.readEdp),
           Relaxed(optima[5].WriteEdp(), c.writeEdp),
           Relaxed(optima[7].area, c.area),
           Relaxed(optima[6].leakage, c.leakage))
  }

  /** Each limit is the optimum of its own metric and the allowed share of it on top. */
  lemma AllowedByMetric(optima: seq<Metrics>, c: Constraints)
    requires |optima| == |TARGETS|
    ensures var l := Allowed(optima, c);
      && TARGETS[0] == ReadLatencyOptimized
      && l.readLatency == optima[0].readLatency + c.readLatency * optima[0].readLatency
      && TARGETS[1] == WriteLatencyOptimized
      && l.writeLatency == optima[1].writeLatency + c.writeLatency * optima[1].writeLatency
      && TARGETS[2] == ReadEnergyOptimized
      && l.readDynamicEnergy == optima[2].readDynamicEnergy + c.readDynamicEnergy * optima[2].readDynamicEnergy
      && TARGETS[3] == WriteEnergyOptimized
      && l.writeDynamicEnergy == optima[3].writeDynamicEnergy + c.writeDynamicEnergy * optima[3].writeDynamicEnergy
      && TARGETS[4] == ReadEdpOptimized
      && l.readEdp == optima[4].ReadEdp() + c.readEdp * optima[4].ReadEdp()
      && TARGETS[5] == WriteEdpOptimized
      && l.writeEdp == optima[5].WriteEdp() + c.writeEdp * optima[5].WriteEdp()
      && TARGETS[6] == LeakageOptimized
      && l.leakage == optima[6].leakage + c.leakage * optima[6].leakage
      && TARGETS[7] == AreaOptimized
      && l.area == optima[7].area + c.area * optima[7].area
  {
    hide Relaxed, Metrics.ReadEdp, Metrics.WriteEdp;
    forall x, y
      ensures Relaxed(x, y) == x + y * x
    {
      RelaxedIsMore(x, y);
    }
  }

  lemma RelaxedIsMore(x: real, y: real)
    ensures Relaxed(x, y) == x + y * x
  {
  }

  /** Reads all eight optima first, then resets and limits every result. */
  method ApplyLimits(best: seq<Result>, c: Constraints) returns (allowed: Limits)
    requires Optima(best)
    modifies best
    ensures allowed == old(Allowed(seq(|TARGETS|, k requires 0 <= k < |best| reads best => best[k].metrics), c))
    ensures forall k :: 0 <= k < |best| ==>
      && best[k].optimizationTarget == old(best[k].optimizationTarget) && best[k].limits == allowed
      && best[k].Held() == old(best[k].Held()).(metrics := WORST_METRICS)
  {
    hide Relaxed, Metrics.ReadEdp, Metrics.WriteEdp;
    allowed := Limits(Relaxed(best[0].metrics.readLatency, c.readLatency),
                      Relaxed(best[1].metrics.writeLatency, c.writeLatency),
                      Relaxed(best[2].metrics.readDynamicEnergy, c.readDynamicEnergy),
                      Relaxed(best[3].metrics.writeDynamicEnergy, c.writeDynamicEnergy),
                      Relaxed(best[4].metrics.ReadEdp(), c.readEdp),
                      Relaxed(best[5].metrics.WriteEdp(), c.writeEdp),
                      Relaxed(best[7].metrics.area, c.area),
                      Relaxed(best[6].metrics.leakage, c.leakage));
    for i := 0 to |best|
      invariant forall k :: 0 <= k < |best| ==> best[k].optimizationTarget == old(best[k].optimizationTarget)
      invariant forall k :: 0 <= k < i ==>
        best[k].limits == allowed && best[k].Held() == old(best[k].Held()).(metrics := WORST_METRICS)
      invariant forall k :: i <= k < |best| ==> best[k].Held() == old(best[k].Held())
    {
      best[i].Reset();
      best[i].limits := allowed;
    }
  }

  /** The candidates that meet all eight limits, in their order. */
  ghost function Feasible(limits: Limits, candidates: seq<Design>): seq<Design> {
    if candidates == [] then []
    else
      var last := |candidates| - 1;
      Feasible(limits, candidates[..last]) +
        (if Within(candidates[last].metrics, limits) then [candidates[last]] else [])
  }

  lemma FeasibleExtends(limits: Limits, earlier: seq<Design>, d: Design)
    ensures Feasible(limits, earlier + [d])
      == Feasible(limits, earlier) + (if Within(d.metrics, limits) then [d] else [])
  {
    assert (earlier + [d])[..|earlier|] == earlier;
  }

  /** The guard of the second pass and the limits of the results admit the same banks. */
  lemma GuardIsWithin(limits: Limits, m: Metrics)
    ensures Admits(Some(limits), m) <==> Within(m, limits)
  {
  }

  /** So the second pass compares exactly the feasible solutions of the first. */
  lemma {:induction false} GuardedSolutions(sim: Simulator, r: Request, visits: seq<seq<int>>, localWire: Wire,
                                            globalWire: Wire, limits: Limits)
    requires Choices(visits) && r.Positive() && !AnyViolation(sim, r, visits, localWire, globalWire, None)
    ensures !AnyViolation(sim, r, visits, localWire, globalWire, Some(limits))
    ensures Solutions(sim, r, visits, localWire, globalWire, Some(limits))
      == Feasible(limits, Solutions(sim, r, visits, localWire, globalWire, None))
  {
    hide Evaluate, PlanBank, BankCells, ConfigOf, Activation, Within, Admits;
    forall t | t in visits
      ensures !OutcomeOf(sim, r, t, localWire, globalWire, Some(limits)).Violation?
    {
      GuardedOutcome(sim, r, t, localWire, globalWire, limits);
    }
    if visits != [] {
      var last := |visits| - 1;
      assert forall t :: t in visits[..last] ==> t in visits;
      GuardedSolutions(sim, r, visits[..last], localWire, globalWire, limits);
      GuardedOutcome(sim, r, visits[last], localWire, globalWire, limits);
      var outcome := OutcomeOf(sim, r, visits[last], localWire, globalWire, None);
      var earlier := Solutions(sim, r, visits[..last], localWire, globalWire, None);
      if outcome.Solution? {
        FeasibleExtends(limits, earlier, outcome.design);
        assert Solutions(sim, r, visits, localWire, globalWire, None) == earlier + [outcome.design];
      } else {
        assert Solutions(sim, r, visits, localWire, globalWire, None) == earlier;
      }
      if !outcome.Solution? || !Within(outcome.design.metrics, limits) {
        assert Solutions(sim, r, visits, localWire, globalWire, Some(limits)) == Feasible(limits, earlier);
      }
    }
  }

  lemma GuardedOutcome(sim: Simulator, r: Request, t: seq<int>, localWire: Wire, globalWire: Wire, limits: Limits)
    requires Choice(t) && r.Positive() && !OutcomeOf(sim, r, t, localWire, globalWire, None).Violation?
    ensures var outcome := OutcomeOf(sim, r, t, localWire, globalWire, None);
      var guarded := OutcomeOf(sim, r, t, localWire, globalWire, Some(limits));
      if outcome.Solution? && Within(outcome.design.metrics, limits) then guarded == outcome
      else !guarded.Solution? && !guarded.Violation?
  {
    hide Evaluate, PlanBank, BankCells, ConfigOf, Activation;
  }

  /** Filtering by the guard first changes no result, whatever its metric. */
  lemma {:induction false} GuardIsRedundant(target: Target, limits: Limits, start: Design, candidates: seq<Design>)
    ensures Best(target, limits, start, Feasible(limits, candidates)) == Best(target, limits, start, candidates)
  {
    hide Within, Score;
    if candidates != [] {
      var last := |candidates| - 1;
      GuardIsRedundant(target, limits, start, candidates[..last]);
      if Within(candidates[last].metrics, limits) {
        BestOfOneMore(target, limits, start, Feasible(limits, candidates[..last]), candidates[last]);
      } else {
        assert Feasible(limits, candidates) == Feasible(limits, candidates[..last]);
      }
    }
  }

  lemma {:induction false} FeasibleExactly(limits: Limits, candidates: seq<Design>, d: Design)
    ensures d in Feasible(limits, candidates) <==> d in candidates && Within(d.metrics, limits)
  {
    hide Within;
    if candidates != [] {
      var last := |candidates| - 1;
      FeasibleExactly(limits, candidates[..last], d);
      assert candidates == candidates[..last] + [candidates[last]];
    }
  }

  /**
   * If the second pass counts a solution, every reported result is a feasible design, and
   * the first of the best feasible ones for its metric.
   */
  lemma ConstrainedOptimum(target: Target, limits: Limits, previous: Design, candidates: seq<Design>) returns (i: nat)
    requires |Feasible(limits, candidates)| > 0
    requires forall d :: d in candidates ==> BelowWorst(d.metrics)
    ensures var start := previous.(metrics := WORST_METRICS);
      var best := Best(target, limits, start, Feasible(limits, candidates));
      && FirstMinimum(target, limits, start, candidates, i) && best == candidates[i]
      && Within(best.metrics, limits)
      && forall d :: d in candidates && Within(d.metrics, limits) ==>
        Score(target, best.metrics) <= Score(target, d.metrics)
  {
    hide Within, Score, BelowWorst, Feasible;
    var start := previous.(metrics := WORST_METRICS);
    var d := Feasible(limits, candidates)[0];
    FeasibleExactly(limits, candidates, d);
    BelowWorstScores(target, d.metrics);
    var j :| 0 <= j < |candidates| && candidates[j] == d;
    assert Eligible(target, limits, start, candidates[j]);
    i := BestIsFirstMinimum(target, limits, start, candidates);
    GuardIsRedundant(target, limits, start, candidates);
    BestIsLeast(target, limits, start, candidates);
  }
}
