/** A running optimum: one design, the metric it is best in, and the limits it must respect. */
module Results {
  import opened Organisation

  datatype Metrics = Metrics(
    readLatency: real,
    writeLatency: real,
    readDynamicEnergy: real,
    writeDynamicEnergy: real,
    leakage: real,
    area: real)
  {
    function ReadEdp(): real {
      readLatency * readDynamicEnergy
    }

    function WriteEdp(): real {
      writeLatency * writeDynamicEnergy
    }
  }

  /** 1e41, the value of anything not yet found. */
  const WORST := 100000000000000000000000000000000000000000.0

  const WORST_METRICS := Metrics(WORST, WORST, WORST, WORST, WORST, WORST)

  datatype Target =
    | ReadLatencyOptimized
    | WriteLatencyOptimized
    | ReadEnergyOptimized
    | WriteEnergyOptimized
    | ReadEdpOptimized
    | WriteEdpOptimized
    | LeakageOptimized
    | AreaOptimized

  const TARGETS: seq<Target> := [ReadLatencyOptimized, WriteLatencyOptimized, ReadEnergyOptimized, WriteEnergyOptimized,
                                 ReadEdpOptimized, WriteEdpOptimized, LeakageOptimized, AreaOptimized]

  function Score(target: Target, m: Metrics): real {
    match target
    case ReadLatencyOptimized => m.readLatency
    case WriteLatencyOptimized => m.writeLatency
    case ReadEnergyOptimized => m.readDynamicEnergy
    case WriteEnergyOptimized => m.writeDynamicEnergy
    case ReadEdpOptimized => m.ReadEdp()
    case WriteEdpOptimized => m.WriteEdp()
    case LeakageOptimized => m.leakage
    case AreaOptimized => m.area
  }

  datatype Limits = Limits(
    readLatency: real,
    writeLatency: real,
    readDynamicEnergy: real,
    writeDynamicEnergy: real,
    readEdp: real,
    writeEdp: real,
    area: real,
    leakage: real)

  const NO_LIMITS := Limits(WORST, WORST, WORST, WORST, WORST, WORST, WORST, WORST)

  predicate Within(m: Metrics, l: Limits) {
    && m.readLatency <= l.readLatency && m.writeLatency <= l.writeLatency
    && m.readDynamicEnergy <= l.readDynamicEnergy && m.writeDynamicEnergy <= l.writeDynamicEnergy
    && m.ReadEdp() <= l.readEdp && m.WriteEdp() <= l.writeEdp
    && m.area <= l.area && m.leakage <= l.leakage
  }

  /** An evaluated bank together with the wires it was evaluated with. */
  datatype Design = Design(config: BankConfig, metrics: Metrics, localWire: Wire, globalWire: Wire)

  /** A candidate may replace a design that it strictly improves on, if it is within the limits. */
  predicate Eligible(target: Target, limits: Limits, current: Design, candidate: Design) {
    Within(candidate.metrics, limits) && Score(target, candidate.metrics) < Score(target, current.metrics)
  }

  /** What one comparison keeps. */
  function Better(target: Target, limits: Limits, current: Design, candidate: Design): Design {
    if Eligible(target, limits, current, candidate) then candidate else current
  }

  /** What a sequence of comparisons keeps. */
  function Best(target: Target, limits: Limits, start: Design, candidates: seq<Design>): Design {
    if candidates == [] then start
    else
      var last := |candidates| - 1;
      Better(target, limits, Best(target, limits, start, candidates[..last]), candidates[last])
  }

  /** Not worse in the metric that a target names. */
  ghost predicate NoWorse(target: Target, m: Metrics, n: Metrics) {
    && (target == ReadLatencyOptimized ==> m.readLatency <= n.readLatency)
    && (target == WriteLatencyOptimized ==> m.writeLatency <= n.writeLatency)
    && (target == ReadEnergyOptimized ==> m.readDynamicEnergy <= n.readDynamicEnergy)
    && (target == WriteEnergyOptimized ==> m.writeDynamicEnergy <= n.writeDynamicEnergy)
    && (target == ReadEdpOptimized ==>
          m.readLatency * m.readDynamicEnergy <= n.readLatency * n.readDynamicEnergy)
    && (target == WriteEdpOptimized ==>
          m.writeLatency * m.writeDynamicEnergy <= n.writeLatency * n.writeDynamicEnergy)
    && (target == LeakageOptimized ==> m.leakage <= n.leakage)
    && (target == AreaOptimized ==> m.area <= n.area)
  }

  lemma ScoreOrders(target: Target, m: Metrics, n: Metrics)
    ensures Score(target, m) <= Score(target, n) <==> NoWorse(target, m, n)
  {
  }

  lemma ScoreOrdersAll(target: Target)
    ensures forall m, n :: NoWorse(target, m, n) <==> Score(target, m) <= Score(target, n)
  {
    hide Score, NoWorse;
    forall m, n
      ensures NoWorse(target, m, n) <==> Score(target, m) <= Score(target, n)
    {
      ScoreOrders(target, m, n);
    }
  }

  /** A candidate replaces a design exactly if it is within all limits and strictly better in the target's metric. */
  lemma ReplacedExactly(target: Target, limits: Limits, current: Design, candidate: Design)
    ensures Eligible(target, limits, current, candidate)
      <==> var m := candidate.metrics;
           && m.readLatency <= limits.readLatency && m.writeLatency <= limits.writeLatency
           && m.readDynamicEnergy <= limits.readDynamicEnergy && m.writeDynamicEnergy <= limits.writeDynamicEnergy
           && m.readLatency * m.readDynamicEnergy <= limits.readEdp
           && m.writeLatency * m.writeDynamicEnergy <= limits.writeEdp
           && m.area <= limits.area && m.leakage <= limits.leakage
           && !NoWorse(target, current.metrics, m)
  {
    ScoreOrders(target, current.metrics, candidate.metrics);
  }

  /** The earliest of the eligible candidates with the least score. */
  ghost predicate FirstMinimum(target: Target, limits: Limits, start: Design, candidates: seq<Design>, i: nat) {
    && i < |candidates| && Eligible(target, limits, start, candidates[i])
    && (forall j :: 0 <= j < |candidates| && Eligible(target, limits, start, candidates[j]) ==>
          Score(target, candidates[i].metrics) <= Score(target, candidates[j].metrics))
    && (forall j :: 0 <= j < i && Eligible(target, limits, start, candidates[j]) ==>
          Score(target, candidates[i].metrics) < Score(target, candidates[j].metrics))
  }

  ghost predicate AnyEligible(target: Target, limits: Limits, start: Design, candidates: seq<Design>) {
    exists j :: 0 <= j < |candidates| && Eligible(target, limits, start, candidates[j])
  }

  /** One more candidate becomes the first minimum exactly when it is admitted and strictly better. */
  lemma FirstMinimumExtends(target: Target, limits: Limits, start: Design, earlier: seq<Design>, last: Design, i: nat)
    requires FirstMinimum(target, limits, start, earlier, i)
    ensures var all := earlier + [last];
      if !Eligible(target, limits, earlier[i], last)
      then FirstMinimum(target, limits, start, all, i)
      else FirstMinimum(target, limits, start, all, |earlier|)
  {
    hide Within, Score;
    var all := earlier + [last];
    assert forall j :: 0 <= j < |earlier| ==> all[j] == earlier[j];
    assert all[|earlier|] == last;
  }

  lemma FirstEligible(target: Target, limits: Limits, start: Design, earlier: seq<Design>, last: Design)
    requires !AnyEligible(target, limits, start, earlier)
    ensures var all := earlier + [last];
      if Eligible(target, limits, start, last) then FirstMinimum(target, limits, start, all, |earlier|)
      else !AnyEligible(target, limits, start, all)
  {
    hide Within, Score;
    var all := earlier + [last];
    assert forall j :: 0 <= j < |earlier| ==> all[j] == earlier[j];
  }

  /**
   * The kept design is the first minimiser among the eligible candidates, whole: its
   * organisation, its metrics and its wires come from that one candidate. Without an
   * eligible candidate nothing changes.
   */
  lemma {:induction false} BestIsFirstMinimum(target: Target, limits: Limits, start: Design, candidates: seq<Design>)
    returns (i: nat)
    ensures !AnyEligible(target, limits, start, candidates) ==> Best(target, limits, start, candidates) == start
    ensures AnyEligible(target, limits, start, candidates) ==>
      FirstMinimum(target, limits, start, candidates, i) && Best(target, limits, start, candidates) == candidates[i]
  {
    hide Within, Score, FirstMinimum;
    i := 0;
    if candidates != [] {
      var last := candidates[|candidates| - 1];
      var earlier := candidates[..|candidates| - 1];
      i := BestIsFirstMinimum(target, limits, start, earlier);
      assert candidates == earlier + [last];
      if AnyEligible(target, limits, start, earlier) {
        MinimumIsEligible(target, limits, start, earlier, i);
        FirstMinimumExtends(target, limits, start, earlier, last, i);
        if Eligible(target, limits, earlier[i], last) {
          i := |earlier|;
        }
        MinimumIsEligible(target, limits, start, candidates, i);
      } else {
        FirstEligible(target, limits, start, earlier, last);
        i := |earlier|;
      }
    }
  }

  lemma MinimumIsEligible(target: Target, limits: Limits, start: Design, candidates: seq<Design>, i: nat)
    requires FirstMinimum(target, limits, start, candidates, i)
    ensures i < |candidates| && Eligible(target, limits, start, candidates[i])
      && AnyEligible(target, limits, start, candidates)
  {
    hide Within, Score;
  }

  /** Comparing never makes a result worse, and no admitted candidate is better than what is kept. */
  lemma {:induction false} BestIsLeast(target: Target, limits: Limits, start: Design, candidates: seq<Design>)
    ensures var best := Best(target, limits, start, candidates);
      && Score(target, best.metrics) <= Score(target, start.metrics)
      && (best == start || (best in candidates && Within(best.metrics, limits)))
      && forall c :: c in candidates && Within(c.metrics, limits) ==>
        Score(target, best.metrics) <= Score(target, c.metrics)
  {
    hide Within, Score;
    if candidates != [] {
      var earlier := candidates[..|candidates| - 1];
      BestIsLeast(target, limits, start, earlier);
      assert candidates == earlier + [candidates[|candidates| - 1]];
    }
  }

  /** The eight results after the same candidates: each is least in its own metric among those within all limits. */
  lemma EightOptima(limits: Limits, starts: seq<Design>, candidates: seq<Design>, d: Design)
    requires |starts| == |TARGETS| && d in candidates
    requires d.metrics.readLatency <= limits.readLatency && d.metrics.writeLatency <= limits.writeLatency
    requires d.metrics.readDynamicEnergy <= limits.readDynamicEnergy
    requires d.metrics.writeDynamicEnergy <= limits.writeDynamicEnergy
    requires d.metrics.readLatency * d.metrics.readDynamicEnergy <= limits.readEdp
    requires d.metrics.writeLatency * d.metrics.writeDynamicEnergy <= limits.writeEdp
    requires d.metrics.area <= limits.area && d.metrics.leakage <= limits.leakage
    ensures var best := seq(8, k requires 0 <= k < 8 => Best(TARGETS[k], limits, starts[k], candidates).metrics);
      && best[0].readLatency <= d.metrics.readLatency
      && best[1].writeLatency <= d.metrics.writeLatency
      && best[2].readDynamicEnergy <= d.metrics.readDynamicEnergy
      && best[3].writeDynamicEnergy <= d.metrics.writeDynamicEnergy
      && best[4].readLatency * best[4].readDynamicEnergy <= d.metrics.readLatency * d.metrics.readDynamicEnergy
      && best[5].writeLatency * best[5].writeDynamicEnergy <= d.metrics.writeLatency * d.metrics.writeDynamicEnergy
      && best[6].leakage <= d.metrics.leakage
      && best[7].area <= d.metrics.area
  {
    hide Best, Score;
    forall k | 0 <= k < |TARGETS|
      ensures NoWorse(TARGETS[k], Best(TARGETS[k], limits, starts[k], candidates).metrics, d.metrics)
    {
      BestIsLeast(TARGETS[k], limits, starts[k], candidates);
      ScoreOrdersAll(TARGETS[k]);
    }
    EightCases();
  }

  lemma EightCases()
    ensures |TARGETS| == 8
    ensures TARGETS[0] == ReadLatencyOptimized && TARGETS[1] == WriteLatencyOptimized
    ensures TARGETS[2] == ReadEnergyOptimized && TARGETS[3] == WriteEnergyOptimized
    ensures TARGETS[4] == ReadEdpOptimized && TARGETS[5] == WriteEdpOptimized
    ensures TARGETS[6] == LeakageOptimized && TARGETS[7] == AreaOptimized
  {
  }

  /** Metrics that a working bank can have. */
  ghost predicate BelowWorst(m: Metrics) {
    && 0.0 <= m.readLatency < WORST && 0.0 <= m.writeLatency < WORST
    && 0.0 <= m.readDynamicEnergy < WORST && 0.0 <= m.writeDynamicEnergy < WORST
    && 0.0 <= m.leakage < WORST && 0.0 <= m.area < WORST
  }

  lemma BelowWorstScores(target: Target, m: Metrics)
    requires BelowWorst(m)
    ensures Score(target, m) < Score(target, WORST_METRICS)
  {
    StrictProduct(m.readLatency, m.readDynamicEnergy, WORST);
    StrictProduct(m.writeLatency, m.writeDynamicEnergy, WORST);
  }

  lemma StrictProduct(x: real, y: real, w: real)
    requires 0.0 <= x < w && 0.0 <= y < w
    ensures x * y < w * w
  {
    assert (w - x) * y >= 0.0;
    assert w * (w - y) > 0.0;
    assert w * w - x * y == (w - x) * y + w * (w - y);
  }

  class Result {
    var optimizationTarget: Target
    var config: BankConfig
    var metrics: Metrics
    var localWire: Wire
    var globalWire: Wire
    var limits: Limits

    ghost function Held(): Design
      reads this
    {
      Design(config, metrics, localWire, globalWire)
    }

    constructor (target: Target, anyConfig: BankConfig, anyWire: Wire)
      ensures optimizationTarget == target && limits == NO_LIMITS
      ensures Held() == Design(anyConfig, WORST_METRICS, anyWire, anyWire)
    {
      optimizationTarget, limits := target, NO_LIMITS;
      config, metrics := anyConfig, WORST_METRICS;
      localWire, globalWire := anyWire, anyWire;
    }

    /** Forgets the metrics only: the organisation and the wires stay. */
    method Reset()
      modifies this`metrics
      ensures metrics == WORST_METRICS
    {
      metrics := WORST_METRICS;
    }

    method CompareAndUpdate(newConfig: BankConfig, newMetrics: Metrics, newLocalWire: Wire, newGlobalWire: Wire)
      modifies this`config, this`metrics, this`localWire, this`globalWire
      ensures Held() == Better(optimizationTarget, limits, old(Held()),
                                 Design(newConfig, newMetrics, newLocalWire, newGlobalWire))
    {
      if newMetrics.readLatency <= limits.readLatency && newMetrics.writeLatency <= limits.writeLatency
         && newMetrics.readDynamicEnergy <= limits.readDynamicEnergy
         && newMetrics.writeDynamicEnergy <= limits.writeDynamicEnergy
         && newMetrics.readLatency * newMetrics.readDynamicEnergy <= limits.readEdp
         && newMetrics.writeLatency * newMetrics.writeDynamicEnergy <= limits.writeEdp
         && newMetrics.area <= limits.area && newMetrics.leakage <= limits.leakage {
        var toUpdate := false;
        match optimizationTarget {
          case ReadLatencyOptimized =>
            toUpdate := newMetrics.readLatency < metrics.readLatency;
          case WriteLatencyOptimized =>
            toUpdate := newMetrics.writeLatency < metrics.writeLatency;
          case ReadEnergyOptimized =>
            toUpdate := newMetrics.readDynamicEnergy < metrics.readDynamicEnergy;
          case WriteEnergyOptimized =>
            toUpdate := newMetrics.writeDynamicEnergy < metrics.writeDynamicEnergy;
          case ReadEdpOptimized =>
            toUpdate := newMetrics.readLatency * newMetrics.readDynamicEnergy
              < metrics.readLatency * metrics.readDynamicEnergy;
          case WriteEdpOptimized =>
            toUpdate := newMetrics.writeLatency * newMetrics.writeDynamicEnergy
              < metrics.writeLatency * metrics.writeDynamicEnergy;
          case AreaOptimized =>
            toUpdate := newMetrics.area < metrics.area;
          case LeakageOptimized =>
            toUpdate := newMetrics.leakage < metrics.leakage;
        }
        if toUpdate {
          config, metrics := newConfig, newMetrics;
          localWire, globalWire := newLocalWire, newGlobalWire;
        }
      }
    }
  }
}
