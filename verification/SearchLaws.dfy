/** The search meets its capacity check, and keeps the first optimum of the whole design space. */
module SearchLaws {
  import opened PowersOfTwo
  import opened Organisation
  import opened Mats
  import opened MatLaws
  import opened Banks
  import opened BankLaws
  import opened DesignSpace
  import opened Results
  import opened Search

  /** Which loop variable becomes which argument of a bank, with the three levels of area optimisation by number. */
  lemma ConfigAsks(r: Request, t: seq<int>)
    requires Choice(t) && r.Positive()
    ensures var c := ConfigOf(r, t);
      && c.mats.rows == t[ROW_MAT] && c.mats.columns == t[COLUMN_MAT]
      && c.mats.activePerRow == t[ACTIVE_MAT_PER_ROW] && c.mats.activePerColumn == t[ACTIVE_MAT_PER_COLUMN]
      && c.subarrays.rows == t[ROW_SUBARRAY] && c.subarrays.columns == t[COLUMN_SUBARRAY]
      && c.subarrays.activePerRow == t[ACTIVE_SUBARRAY_PER_ROW]
      && c.subarrays.activePerColumn == t[ACTIVE_SUBARRAY_PER_COLUMN]
      && c.mux.senseAmp == t[MUX_SENSE_AMP] && c.mux.outputLev1 == t[MUX_OUTPUT_LEV1]
      && c.mux.outputLev2 == t[MUX_OUTPUT_LEV2] && c.numRowPerSet == t[ROW_PER_SET]
      && c.internalSenseAmp == r.internalSensing && c.associativity == r.associativity
      && (t[AREA_OPTIMIZATION] == 0 ==> c.areaOptimizationLevel == LatencyFirst)
      && (t[AREA_OPTIMIZATION] == 1 ==> c.areaOptimizationLevel == LatencyAreaTradeOff)
      && (t[AREA_OPTIMIZATION] == 2 ==> c.areaOptimizationLevel == AreaFirst)
      && (r.DataRequest? ==> c.memoryType == Data && c.capacity == r.capacity && c.blockSize == r.blockSize)
      && (r.TagRequest? ==>
            && c.memoryType == Tag && c.capacity == r.lines * c.blockSize
            && r.tagBits <= c.blockSize < r.tagBits + Activation(t) && c.blockSize % Activation(t) == 0)
  {
    hide RoundUp, Activation;
    ActivationPositive(t);
    if r.TagRequest? {
      RoundUpIsLeast(r.tagBits, Activation(t), 0);
      RoundUpIsClose(r.tagBits, Activation(t));
    }
  }

  lemma RoundUpIsClose(x: int, p: int)
    requires p >= 1
    ensures RoundUp(x, p) < x + p
  {
    var q := x / p;
    assert x == q * p + x % p;
    assert (q + 1) * p == q * p + p;
  }

  /** The search never asks for the same bank twice, except at levels of area optimisation beyond the third. */
  lemma ChoicesAreDistinct(r: Request, t: seq<int>, u: seq<int>)
    requires Choice(t) && Choice(u) && r.Positive() && ConfigOf(r, t) == ConfigOf(r, u)
    requires 0 <= t[AREA_OPTIMIZATION] <= 2 && 0 <= u[AREA_OPTIMIZATION] <= 2
    ensures t == u
  {
    hide ConfigOf, Activation;
    ConfigAsks(r, t);
    ConfigAsks(r, u);
    assert forall d :: 0 <= d < LOOPS ==> t[d] == u[d];
  }

  /** Every loop starts at a power of two. */
  ghost predicate Pow2Bounds(b: Bounds) {
    b.WellFormed() && forall d :: 0 <= d < AREA_OPTIMIZATION ==> IsPow2(b.lo[d])
  }

  lemma MinOfPow2(x: int, y: int, k: nat)
    requires IsPow2(x) && IsPow2(y)
    ensures IsPow2(Min(x, y) * Pow2(k))
  {
    hide Pow2;
    var j: nat :| Min(x, y) == Pow2(j);
    Pow2Add(j, k);
  }

  /** Doubling from a power of two, or from a smaller total of powers of two, stays among them. */
  lemma CountIsPow2(b: Bounds, t: seq<int>, d: nat)
    requires Pow2Bounds(b) && InSpace(b, t) && d < AREA_OPTIMIZATION
    ensures IsPow2(t[d]) && t[d] >= 1
    ensures CappedBy(d) >= 0 ==> t[d] <= t[CappedBy(d)]
    decreases d
  {
    hide Pow2;
    assert Reaches(b, t[..d], t[d]);
    var k: nat :| t[d] == Low(b, t[..d]) * Pow2(k);
    if CappedBy(d) >= 0 {
      CountIsPow2(b, t, CappedBy(d));
      MinOfPow2(t[CappedBy(d)], b.lo[d], k);
    } else {
      MinOfPow2(b.lo[d], b.lo[d], k);
    }
  }

  lemma CountIsPositive(b: Bounds, t: seq<int>, d: nat)
    requires b.WellFormed() && InSpace(b, t) && d < AREA_OPTIMIZATION
    ensures t[d] >= 1
    decreases d
  {
    hide Pow2;
    assert Reaches(b, t[..d], t[d]);
    var k: nat :| t[d] == Low(b, t[..d]) * Pow2(k);
    if CappedBy(d) >= 0 {
      CountIsPositive(b, t, CappedBy(d));
    }
    ProductAtLeast(Low(b, t[..d]), Pow2(k));
  }

  /** With minima of at least one, every visit is a choice of positive counts. */
  lemma VisitsAreChoices(b: Bounds)
    requires b.WellFormed()
    ensures Choices(Visits(b, []))
  {
    hide Visits;
    forall t | t in Visits(b, [])
      ensures Choice(t)
    {
      SearchIsExhaustive(b, t);
      forall d: nat | d < AREA_OPTIMIZATION
        ensures t[d] >= 1
      {
        CountIsPositive(b, t, d);
      }
    }
  }

  ghost predicate Pow2Choice(t: seq<int>) {
    Choice(t) && forall d :: 0 <= d < AREA_OPTIMIZATION ==> IsPow2(t[d])
  }

  /** The loops never ask for more active units than there are, so nothing is clamped. */
  ghost predicate Unclamped(t: seq<int>)
    requires |t| == LOOPS
  {
    && t[ACTIVE_MAT_PER_ROW] <= t[COLUMN_MAT] && t[ACTIVE_MAT_PER_COLUMN] <= t[ROW_MAT]
    && t[ACTIVE_SUBARRAY_PER_ROW] <= t[COLUMN_SUBARRAY] && t[ACTIVE_SUBARRAY_PER_COLUMN] <= t[ROW_SUBARRAY]
  }

  lemma VisitedIsPow2(b: Bounds, t: seq<int>)
    requires Pow2Bounds(b) && InSpace(b, t)
    ensures Pow2Choice(t) && Unclamped(t)
  {
    forall d: nat | d < AREA_OPTIMIZATION
      ensures IsPow2(t[d]) && t[d] >= 1
      ensures CappedBy(d) >= 0 ==> t[d] <= t[CappedBy(d)]
    {
      CountIsPow2(b, t, d);
    }
    assert CappedBy(ACTIVE_MAT_PER_ROW) == COLUMN_MAT && CappedBy(ACTIVE_MAT_PER_COLUMN) == ROW_MAT;
    assert CappedBy(ACTIVE_SUBARRAY_PER_ROW) == COLUMN_SUBARRAY && CappedBy(ACTIVE_SUBARRAY_PER_COLUMN) == ROW_SUBARRAY;
  }

  lemma VisitedConfig(r: Request, t: seq<int>)
    requires r.Positive() && IsPow2(r.associativity) && Pow2Choice(t) && Unclamped(t)
    ensures var c := ConfigOf(r, t);
      && Pow2Bank(c) && c.Stored() == c
      && Activation(t) >= 1
      && Sharers(c) == (if r.DataRequest? then Activation(t)
                        else t[ACTIVE_SUBARRAY_PER_ROW] * t[ACTIVE_SUBARRAY_PER_COLUMN])
  {
    hide Pow2, RoundUp;
    ConfigPositive(r, t);
    ActivationPositive(t);
    var a, p := t[ACTIVE_MAT_PER_ROW], t[ACTIVE_MAT_PER_COLUMN];
    var q, s := t[ACTIVE_SUBARRAY_PER_ROW], t[ACTIVE_SUBARRAY_PER_COLUMN];
    assert q * s * (a * p) == a * p * q * s;
  }

  /** A visit that gets as far as the capacity check: not skipped, valid and admitted. */
  predicate Accepted(sim: Simulator, r: Request, t: seq<int>, localWire: Wire, globalWire: Wire, guard: Option<Limits>)
    requires Choice(t) && r.Positive()
  {
    ActivationPositive(t);
    ConfigPositive(r, t);
    && r.Word() / Activation(t) != 0
    && Evaluate(sim, ConfigOf(r, t), localWire, globalWire).Some?
    && Admits(guard, Evaluated(sim, ConfigOf(r, t), localWire, globalWire).metrics)
  }

  /** The address width of a data request, whatever the number of its sets. */
  function AddressBits(r: Request): int
    requires r.Positive() && r.DataRequest?
  {
    LogRound(PositiveRatio(PositiveRatio(r.capacity as real, r.blockSize as real), r.associativity as real))
  }

  /** The capacity is that of all addresses and ways of the word that the activation cuts evenly. */
  predicate Fits(r: Request, activation: int)
    requires r.Positive() && r.DataRequest? && activation >= 1
  {
    AddressBits(r) >= 0 && r.capacity == Pow2(AddressBits(r)) * r.associativity * WholePart(r.blockSize, activation)
  }

  ghost predicate Pow2DataSets(r: Request)
    requires r.DataRequest?
  {
    exists k: nat :: r.capacity == Pow2(k) * r.blockSize * r.associativity
  }

  ghost predicate Pow2TagSets(r: Request)
    requires r.TagRequest?
  {
    exists k: nat :: r.lines == Pow2(k) * r.associativity
  }

  /** A data visit fails the check exactly when it is accepted and its capacity does not fit. */
  lemma DataViolation(sim: Simulator, r: Request, t: seq<int>, localWire: Wire, globalWire: Wire, guard: Option<Limits>)
    requires r.Positive() && r.DataRequest? && IsPow2(r.associativity) && Pow2Choice(t) && Unclamped(t)
    ensures Activation(t) >= 1
    ensures OutcomeOf(sim, r, t, localWire, globalWire, guard).Violation?
      <==> Accepted(sim, r, t, localWire, globalWire, guard) && !Fits(r, Activation(t))
  {
    hide Pow2, PlanBank, Activation, BankCells, Sharers, Admits, LogRound, WholePart;
    VisitedConfig(r, t);
    var c := ConfigOf(r, t);
    if Evaluate(sim, c, localWire, globalWire).Some? {
      BankKeepsEveryCell(c, sim.tech, sim.routing, localWire, globalWire);
    }
  }

  /** A tag visit fails the check exactly when it is accepted and the sets are not a power of two. */
  lemma TagViolation(sim: Simulator, r: Request, t: seq<int>, localWire: Wire, globalWire: Wire, guard: Option<Limits>)
    requires r.Positive() && r.TagRequest? && IsPow2(r.associativity) && Pow2Choice(t) && Unclamped(t)
    ensures OutcomeOf(sim, r, t, localWire, globalWire, guard).Violation?
      <==> Accepted(sim, r, t, localWire, globalWire, guard) && !Pow2TagSets(r)
  {
    hide Pow2, PlanBank, Activation, BankCells, Sharers, RoundUp, Admits;
    VisitedConfig(r, t);
    var c := ConfigOf(r, t);
    RoundUpIsLeast(r.tagBits, Activation(t), 0);
    TagWordDivides(t, c.blockSize);
    TagSets(r, c.blockSize);
    if Evaluate(sim, c, localWire, globalWire).Some? {
      BankKeepsEveryCell(c, sim.tech, sim.routing, localWire, globalWire);
      CapacityNeedsPow2Sets(c, sim.tech, sim.routing, localWire, globalWire);
    }
  }

  /** An accepted visit is a solution or a violation, and no other visit is either. */
  lemma AcceptedExactly(sim: Simulator, r: Request, t: seq<int>, localWire: Wire, globalWire: Wire,
                        guard: Option<Limits>)
    requires r.Positive() && Choice(t)
    ensures Accepted(sim, r, t, localWire, globalWire, guard)
      <==> var outcome := OutcomeOf(sim, r, t, localWire, globalWire, guard); outcome.Solution? || outcome.Violation?
    ensures OutcomeOf(sim, r, t, localWire, globalWire, guard).Skipped?
      <==> (if r.DataRequest? then r.blockSize else r.tagBits)
           < t[ACTIVE_MAT_PER_ROW] * t[ACTIVE_MAT_PER_COLUMN]
             * t[ACTIVE_SUBARRAY_PER_ROW] * t[ACTIVE_SUBARRAY_PER_COLUMN]
  {
    hide PlanBank, ConfigOf, BankCells, Admits;
    ActivationPositive(t);
    QuotientNonNegative(r.Word(), Activation(t));
  }

  /** A data visit is a solution exactly when it is accepted and its capacity fits. */
  lemma DataSolution(sim: Simulator, r: Request, t: seq<int>, localWire: Wire, globalWire: Wire, guard: Option<Limits>)
    requires r.Positive() && r.DataRequest? && IsPow2(r.associativity) && Pow2Choice(t) && Unclamped(t)
    ensures Activation(t) >= 1
    ensures OutcomeOf(sim, r, t, localWire, globalWire, guard).Solution?
      <==> Accepted(sim, r, t, localWire, globalWire, guard) && Fits(r, Activation(t))
  {
    hide OutcomeOf, Accepted, Fits, Activation, Pow2;
    AcceptedExactly(sim, r, t, localWire, globalWire, guard);
    DataViolation(sim, r, t, localWire, globalWire, guard);
  }

  /** A tag visit is a solution exactly when it is accepted and the sets are a power of two. */
  lemma TagSolution(sim: Simulator, r: Request, t: seq<int>, localWire: Wire, globalWire: Wire, guard: Option<Limits>)
    requires r.Positive() && r.TagRequest? && IsPow2(r.associativity) && Pow2Choice(t) && Unclamped(t)
    ensures OutcomeOf(sim, r, t, localWire, globalWire, guard).Solution?
      <==> Accepted(sim, r, t, localWire, globalWire, guard) && Pow2TagSets(r)
  {
    hide OutcomeOf, Accepted, Pow2TagSets, Pow2;
    AcceptedExactly(sim, r, t, localWire, globalWire, guard);
    TagViolation(sim, r, t, localWire, globalWire, guard);
  }

  /** What a solution reports: the bank asked for, and the physics of its plan with the wires in use. */
  lemma SolutionReports(sim: Simulator, r: Request, t: seq<int>, localWire: Wire, globalWire: Wire,
                        guard: Option<Limits>)
    requires r.Positive() && Choice(t) && OutcomeOf(sim, r, t, localWire, globalWire, guard).Solution?
    ensures ConfigOf(r, t).Positive()
    ensures var c := ConfigOf(r, t);
      var plan := PlanBank(c, sim.tech, sim.routing, localWire, globalWire);
      && plan.Some? && BankCells(c.Stored(), plan.value) == c.capacity
      && var m := sim.physics(c.Stored(), plan.value, localWire, globalWire);
        && m.Some?
        && OutcomeOf(sim, r, t, localWire, globalWire, guard)
           == Solution(Design(c.Stored(), m.value, localWire, globalWire))
  {
    hide PlanBank, ConfigOf, Activation, BankCells, Admits;
    ConfigPositive(r, t);
  }

  /** The number of visits that get as far as the capacity check. */
  ghost function AcceptedVisits(sim: Simulator, r: Request, visits: seq<seq<int>>, localWire: Wire, globalWire: Wire,
                                guard: Option<Limits>): nat
    requires Choices(visits) && r.Positive()
  {
    if visits == [] then 0
    else
      var last := |visits| - 1;
      AcceptedVisits(sim, r, visits[..last], localWire, globalWire, guard)
      + (if Accepted(sim, r, visits[last], localWire, globalWire, guard) then 1 else 0)
  }

  /** A search that does not exit counts every accepted visit, so it has a solution as soon as one is accepted. */
  lemma {:induction false} EveryAcceptedCounts(sim: Simulator, r: Request, visits: seq<seq<int>>, localWire: Wire,
                                               globalWire: Wire, guard: Option<Limits>)
    requires Choices(visits) && r.Positive() && !AnyViolation(sim, r, visits, localWire, globalWire, guard)
    ensures |Solutions(sim, r, visits, localWire, globalWire, guard)|
      == AcceptedVisits(sim, r, visits, localWire, globalWire, guard)
    ensures Solutions(sim, r, visits, localWire, globalWire, guard) != []
      <==> exists t :: t in visits && Accepted(sim, r, t, localWire, globalWire, guard)
  {
    hide OutcomeOf, Accepted;
    if visits != [] {
      var last := |visits| - 1;
      assert forall t :: t in visits[..last] ==> t in visits;
      assert visits == visits[..last] + [visits[last]];
      EveryAcceptedCounts(sim, r, visits[..last], localWire, globalWire, guard);
      AcceptedExactly(sim, r, visits[last], localWire, globalWire, guard);
      assert !OutcomeOf(sim, r, visits[last], localWire, globalWire, guard).Violation?;
    }
  }

  /** A data search ends the program exactly when it accepts a choice of the space whose capacity does not fit. */
  lemma DataSearchExits(sim: Simulator, r: Request, b: Bounds, localWire: Wire, globalWire: Wire, guard: Option<Limits>)
    requires Pow2Bounds(b) && r.Positive() && r.DataRequest? && IsPow2(r.associativity)
    ensures Choices(Visits(b, []))
    ensures AnyViolation(sim, r, Visits(b, []), localWire, globalWire, guard)
      <==> exists t ::
             && InSpace(b, t) && Choice(t) && Activation(t) >= 1
             && Accepted(sim, r, t, localWire, globalWire, guard) && !Fits(r, Activation(t))
  {
    hide Visits, OutcomeOf, Pow2, Activation, Fits, Accepted, InSpace;
    VisitsAreChoices(b);
    forall t
      ensures t in Visits(b, []) <==> InSpace(b, t)
      ensures InSpace(b, t) ==> Choice(t) && Activation(t) >= 1
      ensures InSpace(b, t) ==>
        (OutcomeOf(sim, r, t, localWire, globalWire, guard).Violation?
         <==> Accepted(sim, r, t, localWire, globalWire, guard) && !Fits(r, Activation(t)))
    {
      SearchIsExhaustive(b, t);
      if InSpace(b, t) {
        VisitedIsPow2(b, t);
        DataViolation(sim, r, t, localWire, globalWire, guard);
      }
    }
  }

  /** A tag search ends the program exactly when it accepts anything and the sets are not a power of two. */
  lemma TagSearchExits(sim: Simulator, r: Request, b: Bounds, localWire: Wire, globalWire: Wire, guard: Option<Limits>)
    requires Pow2Bounds(b) && r.Positive() && r.TagRequest? && IsPow2(r.associativity)
    ensures Choices(Visits(b, []))
    ensures AnyViolation(sim, r, Visits(b, []), localWire, globalWire, guard)
      <==> !Pow2TagSets(r)
           && exists t :: InSpace(b, t) && Choice(t) && Accepted(sim, r, t, localWire, globalWire, guard)
  {
    hide Visits, OutcomeOf, Pow2, Accepted, InSpace, Pow2TagSets;
    VisitsAreChoices(b);
    forall t
      ensures t in Visits(b, []) <==> InSpace(b, t)
      ensures InSpace(b, t) ==> Choice(t)
      ensures InSpace(b, t) ==>
        (OutcomeOf(sim, r, t, localWire, globalWire, guard).Violation?
         <==> Accepted(sim, r, t, localWire, globalWire, guard) && !Pow2TagSets(r))
    {
      SearchIsExhaustive(b, t);
      if InSpace(b, t) {
        VisitedIsPow2(b, t);
        TagViolation(sim, r, t, localWire, globalWire, guard);
      }
    }
  }

  /** For a power-of-two number of sets the capacity fits exactly if the activation divides the word. */
  lemma FitsPow2Sets(r: Request, activation: int)
    requires r.Positive() && r.DataRequest? && activation >= 1 && Pow2DataSets(r)
    ensures Fits(r, activation) <==> r.blockSize % activation == 0
  {
    hide Pow2, LogRound;
    var k: nat :| r.capacity == Pow2(k) * r.blockSize * r.associativity;
    LogRoundOfRatio(r.capacity, r.blockSize, r.associativity, k);
    EvenSets(Pow2(k), r.blockSize, r.associativity, activation);
  }

  lemma EvenSets(sets: int, word: int, assoc: int, activation: int)
    requires sets >= 1 && word >= 1 && assoc >= 1 && activation >= 1
    ensures sets * word * assoc == sets * assoc * WholePart(word, activation) <==> word % activation == 0
  {
    var s, r := sets * assoc, word % activation;
    ProductAtLeast(sets, assoc);
    Reorder(sets, word, assoc);
    assert s * word - s * (word - r) == s * r;
    if r > 0 {
      ProductAtLeast(s, r);
    }
  }

  /** For an activation that divides the word it fits exactly if the number of sets is a power of two. */
  lemma FitsEvenWord(r: Request, activation: int)
    requires r.Positive() && r.DataRequest? && activation >= 1 && r.blockSize % activation == 0
    ensures Fits(r, activation) <==> Pow2DataSets(r)
  {
    hide Pow2, LogRound;
    if Pow2DataSets(r) {
      FitsPow2Sets(r, activation);
    }
    if AddressBits(r) >= 0 {
      Reorder(Pow2(AddressBits(r)), r.associativity, r.blockSize);
    }
  }

  lemma Pow2Divides(x: int, y: int)
    requires IsPow2(x) && IsPow2(y) && x / y != 0
    ensures x % y == 0
  {
    hide Pow2;
    var a: nat :| x == Pow2(a);
    var b: nat :| y == Pow2(b);
    Pow2QuotientIsZero(a, b);
    Pow2Quotient(a, b);
  }

  /** For power-of-two sets and words the exit is unreachable. */
  lemma DataNeverViolates(sim: Simulator, r: Request, b: Bounds, localWire: Wire, globalWire: Wire,
                          guard: Option<Limits>)
    requires Pow2Bounds(b)
    requires r.Positive() && r.DataRequest? && IsPow2(r.associativity) && IsPow2(r.blockSize) && Pow2DataSets(r)
    ensures Choices(Visits(b, [])) && !AnyViolation(sim, r, Visits(b, []), localWire, globalWire, guard)
  {
    hide Visits, Pow2, Activation, AnyViolation, Fits, Pow2DataSets;
    DataSearchExits(sim, r, b, localWire, globalWire, guard);
    forall t | InSpace(b, t) && Choice(t) && Activation(t) >= 1 && Accepted(sim, r, t, localWire, globalWire, guard)
      ensures Fits(r, Activation(t))
    {
      VisitedIsPow2(b, t);
      ActivationIsPow2(t);
      Pow2Divides(r.blockSize, Activation(t));
      FitsPow2Sets(r, Activation(t));
    }
  }

  lemma ActivationIsPow2(t: seq<int>)
    requires Pow2Choice(t)
    ensures IsPow2(Activation(t)) && Activation(t) >= 1
  {
    hide Pow2, IsPow2;
    ActivationPositive(t);
    ProductPow2(t[ACTIVE_MAT_PER_ROW], t[ACTIVE_MAT_PER_COLUMN]);
    ProductPow2(t[ACTIVE_MAT_PER_ROW] * t[ACTIVE_MAT_PER_COLUMN], t[ACTIVE_SUBARRAY_PER_ROW]);
    ProductPow2(t[ACTIVE_MAT_PER_ROW] * t[ACTIVE_MAT_PER_COLUMN] * t[ACTIVE_SUBARRAY_PER_ROW],
      t[ACTIVE_SUBARRAY_PER_COLUMN]);
  }

  lemma DividesFactor(x: int, p: int, q: int)
    requires p >= 1 && q >= 1 && x % (p * q) == 0
    ensures p * q >= 1 && x % q == 0
  {
    ProductAtLeast(p, q);
    var k := x / (p * q);
    assert x == k * (p * q) == (k * p) * q;
    ExactDivision(k * p, q);
  }

  /**
   * For power-of-two sets tags of any width pass the check, because they are widened to a
   * multiple of the activation.
   */
  lemma TagNeverViolates(sim: Simulator, r: Request, b: Bounds, localWire: Wire, globalWire: Wire,
                         guard: Option<Limits>)
    requires Pow2Bounds(b)
    requires r.Positive() && r.TagRequest? && IsPow2(r.associativity) && Pow2TagSets(r)
    ensures Choices(Visits(b, [])) && !AnyViolation(sim, r, Visits(b, []), localWire, globalWire, guard)
  {
    hide Visits, AnyViolation;
    TagSearchExits(sim, r, b, localWire, globalWire, guard);
  }

  lemma TagWordDivides(t: seq<int>, blockSize: int)
    requires Choice(t) && Activation(t) >= 1 && blockSize % Activation(t) == 0
    ensures t[ACTIVE_SUBARRAY_PER_ROW] * t[ACTIVE_SUBARRAY_PER_COLUMN] >= 1
    ensures blockSize % (t[ACTIVE_SUBARRAY_PER_ROW] * t[ACTIVE_SUBARRAY_PER_COLUMN]) == 0
  {
    var a, p := t[ACTIVE_MAT_PER_ROW], t[ACTIVE_MAT_PER_COLUMN];
    var q, s := t[ACTIVE_SUBARRAY_PER_ROW], t[ACTIVE_SUBARRAY_PER_COLUMN];
    ProductAtLeast(a, p);
    ProductAtLeast(q, s);
    assert Activation(t) == (a * p) * (q * s);
    DividesFactor(blockSize, a * p, q * s);
  }

  lemma TagSets(r: Request, blockSize: int)
    requires r.TagRequest? && blockSize >= 1
    ensures Pow2TagSets(r) <==> exists k: nat :: r.lines * blockSize == Pow2(k) * blockSize * r.associativity
  {
    hide Pow2;
    if Pow2TagSets(r) {
      var k: nat :| r.lines == Pow2(k) * r.associativity;
      SameMultiple(r.lines, Pow2(k), r.associativity, blockSize);
      assert r.lines * blockSize == Pow2(k) * blockSize * r.associativity;
    }
    if exists k: nat :: r.lines * blockSize == Pow2(k) * blockSize * r.associativity {
      var k: nat :| r.lines * blockSize == Pow2(k) * blockSize * r.associativity;
      SameMultiple(r.lines, Pow2(k), r.associativity, blockSize);
      assert r.lines == Pow2(k) * r.associativity;
      assert Pow2TagSets(r);
    }
  }

  lemma SameMultiple(lines: int, sets: int, ways: int, blockSize: int)
    requires blockSize >= 1
    ensures lines == sets * ways <==> lines * blockSize == sets * blockSize * ways
  {
    Reorder(sets, blockSize, ways);
    ExactDivision(lines, blockSize);
    ExactDivision(sets * ways, blockSize);
  }

  // ---- requests for which the check does fail ----

  /** An SRAM whose electrical checks all pass, for sets of at most the given number of ways. */
  ghost predicate Permissive(tech: Technology, ways: int) {
    && tech.cell == SRAM && (tech.everyColumnHoldsAllWays ==> tech.inputAssociativity <= ways)
    && forall s: SubArrayConfig, w: Wire :: tech.electricallyLegal(s, w)
  }

  /** No bank is rejected for anything but its integers. */
  ghost predicate Accepting(sim: Simulator, ways: int) {
    Permissive(sim.tech, ways) && sim.routing == NonHTree && forall c, p, v, w :: sim.physics(c, p, v, w).Some?
  }

  const UNEVEN_BANK :=
    BankConfig(Grid(1, 1, 1, 1), Grid(1, 2, 2, 1), 48, 3, 1, 1, Mux(1, 1, 1), true, LatencyFirst, Data)

  /**
   * Three bits over two active subarrays: the search does not skip the word, since half of
   * it is not empty, but of the 48 cells asked for only 32 are built.
   */
  lemma UnevenWordViolates(tech: Technology, localWire: Wire, globalWire: Wire)
    requires Permissive(tech, 1)
    ensures Pow2Bank(UNEVEN_BANK) && Pow2Sets(UNEVEN_BANK)
    ensures PlanBank(UNEVEN_BANK, tech, NonHTree, localWire, globalWire).Some?
    ensures BankCells(UNEVEN_BANK, PlanBank(UNEVEN_BANK, tech, NonHTree, localWire, globalWire).value) == 32
    ensures UNEVEN_BANK.blockSize / Sharers(UNEVEN_BANK) != 0
  {
    hide Pow2, PlanBank, BankCells, EvenCells, Pow2Bank, Pow2Sets, Sharers;
    UnevenBankIsValid(UNEVEN_BANK, tech, localWire, globalWire);
    UnevenCells(UNEVEN_BANK);
    BankKeepsEveryCell(UNEVEN_BANK, tech, NonHTree, localWire, globalWire);
  }

  const UNEVEN_REQUEST := DataRequest(48, 3, 1, true)
  const UNEVEN_CHOICE := [1, 1, 1, 1, 1, 2, 2, 1, 1, 1, 1, 1, 0]

  /** If the physics accepts that bank, a search that visits it ends the program. */
  lemma UnevenSearchExits(sim: Simulator, visits: seq<seq<int>>, localWire: Wire, globalWire: Wire)
    requires Accepting(sim, 1)
    requires Choices(visits) && UNEVEN_CHOICE in visits
    ensures AnyViolation(sim, UNEVEN_REQUEST, visits, localWire, globalWire, None)
  {
    hide Pow2, PlanBank, BankCells, Sharers, OutcomeOf, Fits;
    var r, t := UNEVEN_REQUEST, UNEVEN_CHOICE;
    UnevenWordViolates(sim.tech, localWire, globalWire);
    UnevenChoice(t);
    FitsPow2Sets(r, 2);
    DataViolation(sim, r, t, localWire, globalWire, None);
    assert OutcomeOf(sim, r, t, localWire, globalWire, None).Violation?;
  }

  lemma UnevenChoice(t: seq<int>)
    requires t == UNEVEN_CHOICE
    ensures Pow2Choice(t) && Unclamped(t) && Activation(t) == 2
    ensures ConfigOf(UNEVEN_REQUEST, t) == UNEVEN_BANK && ConfigOf(UNEVEN_REQUEST, t).Positive()
    ensures IsPow2(UNEVEN_REQUEST.associativity) && Pow2DataSets(UNEVEN_REQUEST)
  {
    assert Pow2(0) == 1 && Pow2(1) == 2 && Pow2(4) == 16;
    assert forall d :: 0 <= d < AREA_OPTIMIZATION ==> t[d] == Pow2(0) || t[d] == Pow2(1);
    assert UNEVEN_REQUEST.capacity == Pow2(4) * UNEVEN_REQUEST.blockSize * UNEVEN_REQUEST.associativity;
  }

  lemma UnevenCells(c: BankConfig)
    requires c == UNEVEN_BANK
    ensures Pow2Bank(c) && Pow2Sets(c)
    ensures BankAddressBits(c) == 4 && Sharers(c) == 2 && EvenCells(c) == 32
  {
    hide LogRound;
    assert Pow2(0) == 1 && Pow2(1) == 2 && Pow2(4) == 16;
    assert c.capacity == Pow2(4) * c.blockSize * c.associativity;
    AddressBitsOfSets(c, 4);
  }

  lemma UnevenBankIsValid(c: BankConfig, tech: Technology, localWire: Wire, globalWire: Wire)
    requires c == UNEVEN_BANK && Permissive(tech, 1)
    ensures PlanBank(c, tech, NonHTree, localWire, globalWire).Some?
  {
    hide LogRound;
    assert Pow2(0) == 1 && Pow2(4) == 16;
    LogRoundOfPow2(0);
    AddressBitsOfSets(c, 4);
    assert GatingBits(c.mats) == 0;
    assert GatingBits(c.subarrays) == 0 && GatingBits(c.subarrays.Clamped()) == 0;
    assert WayMux(1, tech) == Mux(1, 1, 1);
    var m := MatConfig(c.subarrays, 4, 3, 1, 1, Mux(1, 1, 1), true, LatencyFirst, Data);
    assert DirectMat(c, tech) == Some(m);
    assert RowsOf(m, 4) == 16;
    assert WordColumns(m) == 1;
  }

  /** One mat of one subarray without multiplexing, and one way of data or every way of a tag in a row. */
  ghost predicate SingleMat(c: BankConfig) {
    && c.Positive() && c.mats == c.subarrays == Grid(1, 1, 1, 1) && c.mux == Mux(1, 1, 1) && c.numRowPerSet == 1
    && c.internalSenseAmp && (c.memoryType == Data ==> c.associativity == 1)
  }

  lemma SingleMatIsValid(c: BankConfig, tech: Technology, localWire: Wire, globalWire: Wire)
    requires SingleMat(c) && BankAddressBits(c) > 0 && Permissive(tech, c.associativity)
    ensures PlanBank(c, tech, NonHTree, localWire, globalWire).Some?
  {
    hide LogRound, SetRatio;
    assert Pow2(0) == 1;
    LogRoundOfPow2(0);
    assert GatingBits(c.mats) == 0 && GatingBits(c.subarrays.Clamped()) == 0;
    assert WayMux(1, tech) == Mux(1, 1, 1);
    var n := BankAddressBits(c);
    var m := MatConfig(c.subarrays, n, c.blockSize, c.associativity, 1, Mux(1, 1, 1), true,
                       c.areaOptimizationLevel, c.memoryType);
    assert DirectMat(c, tech) == Some(m);
    assert RowsOf(m, n) == Pow2(n);
    assert WordColumns(m) == c.blockSize;
    ProductAtLeast(c.blockSize, c.associativity);
  }

  const SINGLE_CHOICE := [1, 1, 1, 1, 1, 1, 1, 1, 1, 1, 1, 1, 0]

  lemma SingleChoice(r: Request, t: seq<int>)
    requires t == SINGLE_CHOICE && r.Positive() && r.internalSensing && (r.DataRequest? ==> r.associativity == 1)
    ensures Pow2Choice(t) && Unclamped(t) && Activation(t) == 1
    ensures SingleMat(ConfigOf(r, t)) && ConfigOf(r, t).blockSize == r.Word()
  {
    assert Pow2(0) == 1;
    assert forall d :: 0 <= d < AREA_OPTIMIZATION ==> t[d] == Pow2(0);
    ConfigPositive(r, t);
  }

  lemma BetweenPowers(x: int, k: nat)
    requires Pow2(k) < x < Pow2(k + 1)
    ensures !IsPow2(x)
  {
    if j: nat :| x == Pow2(j) {
      FloorLog2OfPow2(j);
      FloorLog2IsUnique(x, k);
    }
  }

  const ODD_REQUEST := DataRequest(48, 1, 1, true)

  /** Forty-eight words of one bit: an even cut, but the sets are not a power of two. */
  lemma OddSetsSearchExits(sim: Simulator, visits: seq<seq<int>>, localWire: Wire, globalWire: Wire)
    requires Accepting(sim, 1)
    requires Choices(visits) && SINGLE_CHOICE in visits
    ensures AnyViolation(sim, ODD_REQUEST, visits, localWire, globalWire, None)
  {
    hide Pow2, PlanBank, BankCells, Sharers, OutcomeOf, Fits, LogRound;
    var r, t := ODD_REQUEST, SINGLE_CHOICE;
    SingleChoice(r, t);
    var c := ConfigOf(r, t);
    assert Pow2(0) == 1 && Pow2(5) == 32 && Pow2(6) == 64 by { SmallPowers(); }
    BetweenPowers(48, 5);
    FitsEvenWord(r, 1);
    assert SetRatio(c) == 48.0;
    LogRoundAtLeastFloor(48);
    FloorLog2IsUnique(48, 5);
    SingleMatIsValid(c, sim.tech, localWire, globalWire);
    DataViolation(sim, r, t, localWire, globalWire, None);
    assert OutcomeOf(sim, r, t, localWire, globalWire, None).Violation?;
  }

  lemma SmallPowers()
    ensures Pow2(0) == 1 && Pow2(3) == 8 && Pow2(5) == 32 && Pow2(6) == 64 && Pow2(12) == 4096 && Pow2(13) == 8192
  {
    assert Pow2(6) == 64;
    assert Pow2(12) == 64 * Pow2(6);
  }
}
