/** The search over all organisations, its refinement over wires, and the pass under constraints. */
module Search {
  import opened PowersOfTwo
  import opened Organisation
  import opened Mats
  import opened Banks
  import opened BankLaws
  import opened BanksWithHtree
  import opened BanksWithoutHtree
  import opened DesignSpace
  import opened Results

  /** The parts of the program that stay unknown: its technology and the physics of an initialised bank. */
  datatype Simulator = Simulator(
    tech: Technology,
    routing: RoutingMode,
    physics: (BankConfig, MatPlan, Wire, Wire) -> Option<Metrics>)

  /** The metrics of a bank, or nothing if it is invalid. */
  function Evaluate(sim: Simulator, c: BankConfig, localWire: Wire, globalWire: Wire): Option<Metrics>
    requires c.Positive()
  {
    var plan := PlanBank(c, sim.tech, sim.routing, localWire, globalWire);
    if plan.None? then None else sim.physics(c.Stored(), plan.value, localWire, globalWire)
  }

  /** An invalid bank reports the worst of everything. */
  function Evaluated(sim: Simulator, c: BankConfig, localWire: Wire, globalWire: Wire): Design
    requires c.Positive()
  {
    var m := Evaluate(sim, c, localWire, globalWire);
    Design(c.Stored(), if m.Some? then m.value else WORST_METRICS, localWire, globalWire)
  }

  /** Creates a bank, initialises it and works out its metrics. */
  method Calculate(sim: Simulator, c: BankConfig, localWire: Wire, globalWire: Wire)
    returns (invalid: bool, plan: Option<MatPlan>, metrics: Metrics)
    requires c.Positive()
    ensures plan == PlanBank(c, sim.tech, sim.routing, localWire, globalWire)
    ensures invalid <==> Evaluate(sim, c, localWire, globalWire).None?
    ensures metrics == Evaluated(sim, c, localWire, globalWire).metrics
  {
    hide PlanBank;
    metrics, invalid, plan := WORST_METRICS, true, None;
    var stored := c;
    match sim.routing {
      case HTree =>
        var bank := new BankWithHtree();
        bank.Initialize(c, sim.tech, localWire, globalWire);
        if !bank.invalid {
          plan, stored := Some(bank.mat.Plan()), bank.config;
        }
      case NonHTree =>
        var bank := new BankWithoutHtree();
        bank.Initialize(c, sim.tech, localWire, globalWire);
        if !bank.invalid {
          plan, stored := Some(bank.mat.Plan()), bank.config;
        }
    }
    if plan.Some? {
      var m := sim.physics(stored, plan.value, localWire, globalWire);
      if m.Some? {
        metrics, invalid := m.value, false;
      }
    }
  }

  // ---- one visit of the search ----

  /** What is being designed: a data array, or the tag array of a cache. */
  datatype Request =
    | DataRequest(capacity: int, blockSize: int, associativity: int, internalSensing: bool)
    | TagRequest(lines: int, tagBits: int, associativity: int, internalSensing: bool)
  {
    predicate Positive() {
      associativity >= 1 && match this
        case DataRequest(capacity, blockSize, _, _) => capacity >= 1 && blockSize >= 1
        case TagRequest(lines, tagBits, _, _) => lines >= 1 && tagBits >= 1
    }

    function Word(): int {
      match this
      case DataRequest(_, blockSize, _, _) => blockSize
      case TagRequest(_, tagBits, _, _) => tagBits
    }
  }

  const TOTAL_ADDRESS_BIT := 48

  /** Address bits above index and offset, and two bits for dirty and valid. */
  function TagBits(capacityInBytes: int, wordWidth: int, associativity: int): int
    requires wordWidth >= 8 && associativity >= 1
    requires capacityInBytes * 8 / wordWidth / associativity >= 1
  {
    TOTAL_ADDRESS_BIT - LogRound((capacityInBytes * 8 / wordWidth / associativity) as real)
      - LogRound((wordWidth / 8) as real) + 2
  }

  /** Everything that is switched on together by one access. */
  function Activation(t: seq<int>): int
    requires |t| == LOOPS
  {
    t[ACTIVE_MAT_PER_ROW] * t[ACTIVE_MAT_PER_COLUMN] * t[ACTIVE_SUBARRAY_PER_ROW] * t[ACTIVE_SUBARRAY_PER_COLUMN]
  }

  /** Tags are widened until they can be cut evenly. */
  function RoundUp(x: int, p: int): int
    requires p >= 1
  {
    if x % p != 0 then (x / p + 1) * p else x
  }

  /** The rounded width is the least multiple of the activation that holds the tag. */
  lemma RoundUpIsLeast(x: int, p: int, y: int)
    requires p >= 1
    ensures RoundUp(x, p) >= x && RoundUp(x, p) % p == 0
    ensures y >= x && y % p == 0 ==> y >= RoundUp(x, p)
  {
    var q := x / p;
    assert x == q * p + x % p;
    if x % p != 0 {
      assert (q + 1) * p == q * p + p;
      ExactDivision(q + 1, p);
      if y >= x && y % p == 0 {
        var z := y / p;
        assert y == z * p;
        if z <= q {
          ProductMonotoneLeft(z, q, p);
        } else {
          ProductMonotoneLeft(q + 1, z, p);
        }
      }
    }
  }

  function TargetLevel(level: int): BufferTarget {
    if level == 0 then LatencyFirst else if level == 1 then LatencyAreaTradeOff else AreaFirst
  }

  ghost predicate Choice(t: seq<int>) {
    |t| == LOOPS && forall d :: 0 <= d < AREA_OPTIMIZATION ==> t[d] >= 1
  }

  lemma ActivationPositive(t: seq<int>)
    requires Choice(t)
    ensures Activation(t) >= 1
  {
    ProductAtLeast(t[ACTIVE_MAT_PER_ROW], t[ACTIVE_MAT_PER_COLUMN]);
    ProductAtLeast(t[ACTIVE_MAT_PER_ROW] * t[ACTIVE_MAT_PER_COLUMN], t[ACTIVE_SUBARRAY_PER_ROW]);
    ProductAtLeast(t[ACTIVE_MAT_PER_ROW] * t[ACTIVE_MAT_PER_COLUMN] * t[ACTIVE_SUBARRAY_PER_ROW],
      t[ACTIVE_SUBARRAY_PER_COLUMN]);
  }

  /** The bank asked for by one visit. */
  function ConfigOf(r: Request, t: seq<int>): BankConfig
    requires Choice(t)
  {
    ActivationPositive(t);
    var blockSize := if r.DataRequest? then r.blockSize else RoundUp(r.tagBits, Activation(t));
    BankConfig(
      Grid(t[ROW_MAT], t[COLUMN_MAT], t[ACTIVE_MAT_PER_ROW], t[ACTIVE_MAT_PER_COLUMN]),
      Grid(t[ROW_SUBARRAY], t[COLUMN_SUBARRAY], t[ACTIVE_SUBARRAY_PER_ROW], t[ACTIVE_SUBARRAY_PER_COLUMN]),
      if r.DataRequest? then r.capacity else r.lines * blockSize,
      blockSize, r.associativity, t[ROW_PER_SET],
      Mux(t[MUX_SENSE_AMP], t[MUX_OUTPUT_LEV1], t[MUX_OUTPUT_LEV2]),
      r.internalSensing, TargetLevel(t[AREA_OPTIMIZATION]), if r.DataRequest? then Data else Tag)
  }

  lemma ConfigPositive(r: Request, t: seq<int>)
    requires Choice(t) && r.Positive()
    ensures ConfigOf(r, t).Positive()
  {
    hide Activation;
    if r.TagRequest? {
      ActivationPositive(t);
      RoundUpIsLeast(r.tagBits, Activation(t), 0);
      ProductAtLeast(r.lines, RoundUp(r.tagBits, Activation(t)));
    }
  }

  /** The second pass asks for all eight limits before anything else; the first has no guard. */
  predicate Admits(guard: Option<Limits>, m: Metrics) {
    guard.None? ||
    (m.readLatency <= guard.value.readLatency && m.writeLatency <= guard.value.writeLatency
     && m.readDynamicEnergy <= guard.value.readDynamicEnergy && m.writeDynamicEnergy <= guard.value.writeDynamicEnergy
     && m.leakage <= guard.value.leakage && m.area <= guard.value.area
     && m.readLatency * m.readDynamicEnergy <= guard.value.readEdp
     && m.writeLatency * m.writeDynamicEnergy <= guard.value.writeEdp)
  }

  /** Skipped as partitioned too far, invalid or not admitted, a violation of the capacity check, or a solution. */
  datatype Outcome = Skipped | Rejected | Violation | Solution(design: Design)

  function OutcomeOf(sim: Simulator, r: Request, t: seq<int>, localWire: Wire, globalWire: Wire,
                     guard: Option<Limits>): Outcome
    requires Choice(t) && r.Positive()
  {
    ActivationPositive(t);
    ConfigPositive(r, t);
    var c := ConfigOf(r, t);
    if r.Word() / Activation(t) == 0 then Skipped
    else if Evaluate(sim, c, localWire, globalWire).None? then Rejected
    else if !Admits(guard, Evaluated(sim, c, localWire, globalWire).metrics) then Rejected
    else if BankCells(c.Stored(), PlanBank(c, sim.tech, sim.routing, localWire, globalWire).value) != c.capacity
    then Violation
    else Solution(Evaluated(sim, c, localWire, globalWire))
  }

  method Visit(sim: Simulator, r: Request, t: seq<int>, localWire: Wire, globalWire: Wire, guard: Option<Limits>)
    returns (outcome: Outcome)
    requires Choice(t) && r.Positive()
    ensures outcome == OutcomeOf(sim, r, t, localWire, globalWire, guard)
  {
    hide PlanBank, ConfigOf, Evaluate, Activation, BankCells;
    ActivationPositive(t);
    if r.Word() / Activation(t) == 0 {
      return Skipped;
    }
    ConfigPositive(r, t);
    var c := ConfigOf(r, t);
    var invalid, plan, metrics := Calculate(sim, c, localWire, globalWire);
    if invalid || !Admits(guard, metrics) {
      return Rejected;
    }
    PlannedIfEvaluated(sim, c, localWire, globalWire);
    if BankCells(c.Stored(), plan.value) != c.capacity {
      return Violation;
    }
    outcome := Solution(Design(c.Stored(), metrics, localWire, globalWire));
  }

  lemma PlannedIfEvaluated(sim: Simulator, c: BankConfig, localWire: Wire, globalWire: Wire)
    requires c.Positive() && Evaluate(sim, c, localWire, globalWire).Some?
    ensures PlanBank(c, sim.tech, sim.routing, localWire, globalWire).Some?
  {
  }

  // ---- a pass over the design space ----

  ghost predicate Choices(visits: seq<seq<int>>) {
    forall t :: t in visits ==> Choice(t)
  }

  /** The solutions of a pass, in the order in which they are compared. */
  ghost function Solutions(sim: Simulator, r: Request, visits: seq<seq<int>>, localWire: Wire, globalWire: Wire,
                           guard: Option<Limits>): seq<Design>
    requires Choices(visits) && r.Positive()
  {
    if visits == [] then []
    else
      var last := |visits| - 1;
      var outcome := OutcomeOf(sim, r, visits[last], localWire, globalWire, guard);
      Solutions(sim, r, visits[..last], localWire, globalWire, guard)
      + (if outcome.Solution? then [outcome.design] else [])
  }

  /** The eight running optima, each a separate object with its own metric. */
  ghost predicate Optima(best: seq<Result>) {
    |best| == |TARGETS| && forall i, j :: 0 <= i < j < |best| ==> best[i] != best[j]
  }

  method UpdateBest(best: seq<Result>, d: Design)
    requires Optima(best)
    modifies best
    ensures forall k :: 0 <= k < |best| ==>
      && best[k].optimizationTarget == old(best[k].optimizationTarget) && best[k].limits == old(best[k].limits)
      && best[k].Held() == Better(best[k].optimizationTarget, best[k].limits, old(best[k].Held()), d)
  {
    hide Better;
    for i := 0 to |best|
      invariant forall k :: 0 <= k < |best| ==>
        best[k].optimizationTarget == old(best[k].optimizationTarget) && best[k].limits == old(best[k].limits)
      invariant forall k :: 0 <= k < i ==>
        best[k].Held() == Better(best[k].optimizationTarget, best[k].limits, old(best[k].Held()), d)
      invariant forall k :: i <= k < |best| ==> best[k].Held() == old(best[k].Held())
    {
      best[i].CompareAndUpdate(d.config, d.metrics, d.localWire, d.globalWire);
    }
  }

  /** Whether some visited bank fails the capacity check, which ends the program. */
  ghost predicate AnyViolation(sim: Simulator, r: Request, visits: seq<seq<int>>, localWire: Wire, globalWire: Wire,
                               guard: Option<Limits>)
    requires Choices(visits) && r.Positive()
  {
    exists t :: t in visits && OutcomeOf(sim, r, t, localWire, globalWire, guard).Violation?
  }

  /** Tries every organisation once with the given wires. */
  method Explore(sim: Simulator, r: Request, visits: seq<seq<int>>, localWire: Wire, globalWire: Wire,
                 guard: Option<Limits>, best: seq<Result>)
    returns (exited: bool, numSolution: nat)
    requires Choices(visits) && r.Positive() && Optima(best)
    modifies best
    ensures exited <==> AnyViolation(sim, r, visits, localWire, globalWire, guard)
    ensures !exited ==> numSolution == |Solutions(sim, r, visits, localWire, globalWire, guard)|
    ensures !exited ==> forall k :: 0 <= k < |best| ==>
      && best[k].optimizationTarget == old(best[k].optimizationTarget) && best[k].limits == old(best[k].limits)
      && best[k].Held() == Best(best[k].optimizationTarget, best[k].limits, old(best[k].Held()),
                                Solutions(sim, r, visits, localWire, globalWire, guard))
  {
    hide OutcomeOf, Better;
    exited, numSolution := false, 0;
    for n := 0 to |visits|
      invariant !AnyViolation(sim, r, visits[..n], localWire, globalWire, guard)
      invariant numSolution == |Solutions(sim, r, visits[..n], localWire, globalWire, guard)|
      invariant forall k :: 0 <= k < |best| ==>
        && best[k].optimizationTarget == old(best[k].optimizationTarget) && best[k].limits == old(best[k].limits)
        && best[k].Held() == Best(best[k].optimizationTarget, best[k].limits, old(best[k].Held()),
                                  Solutions(sim, r, visits[..n], localWire, globalWire, guard))
    {
      ghost var earlier := Solutions(sim, r, visits[..n], localWire, globalWire, guard);
      assert visits[..n + 1][..n] == visits[..n];
      var outcome := Visit(sim, r, visits[n], localWire, globalWire, guard);
      match outcome {
        case Skipped =>
          assert Solutions(sim, r, visits[..n + 1], localWire, globalWire, guard) == earlier;
        case Rejected =>
          assert Solutions(sim, r, visits[..n + 1], localWire, globalWire, guard) == earlier;
        case Violation =>
          exited := true;
          return;
        case Solution(d) =>
          assert Solutions(sim, r, visits[..n + 1], localWire, globalWire, guard) == earlier + [d];
          UpdateBest(best, d);
          forall k | 0 <= k < |best|
            ensures best[k].Held() == Best(best[k].optimizationTarget, best[k].limits, old(best[k].Held()),
              earlier + [d])
          {
            BestOfOneMore(best[k].optimizationTarget, best[k].limits, old(best[k].Held()), earlier, d);
          }
          numSolution := numSolution + 1;
      }
    }
    assert visits[..|visits|] == visits;
  }

  lemma BestOfOneMore(target: Target, limits: Limits, start: Design, earlier: seq<Design>, d: Design)
    ensures Best(target, limits, start, earlier + [d])
      == Better(target, limits, Best(target, limits, start, earlier), d)
  {
    assert (earlier + [d])[..|earlier|] == earlier;
  }
}
