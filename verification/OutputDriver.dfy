/** The inverter chain of an output driver: how many stages, and how wide each is. */
module OutputDrivers {
  import opened Organisation
  import opened PowersOfTwo

  const MAX_INV_CHAIN_LEN := 20

  /** Sizes and capacitances of the process; n-th roots are left to the floating-point library. */
  datatype Process = Process(
    minWidth: real,
    maxWidth: real,
    onCurrent: real,
    pnSizeRatio: real,
    gateCap: real -> real,
    root: (real, nat) -> real)

  function MaxReal(a: real, b: real): real {
    if a > b then a else b
  }

  ghost predicate Sound(p: Process) {
    && p.minWidth > 0.0 && p.onCurrent > 0.0 && p.pnSizeRatio > 0.0
    && (forall w :: w > 0.0 ==> p.gateCap(w) > 0.0)
    && forall x, n: nat :: x > 0.0 && n > 0 ==> p.root(x, n) > 0.0 && Power(p.root(x, n), n) == x
  }

  // ---- the number of stages ----

  /** floor(log4(y)) for y of at least one. */
  function FloorLog4(y: real): nat
    requires y >= 1.0
    decreases y.Floor
  {
    if y < 4.0 then 0
    else
      assert (y / 4.0).Floor < y.Floor by { assert y / 4.0 <= y - 3.0; }
      1 + FloorLog4(y / 4.0)
  }

  lemma {:induction false} FloorLog4Bracket(y: real)
    requires y >= 1.0
    ensures Power(4.0, FloorLog4(y)) <= y < Power(4.0, FloorLog4(y) + 1)
    decreases y.Floor
  {
    if y < 4.0 {
      assert Power(4.0, 1) == 4.0 * Power(4.0, 0);
    } else {
      assert (y / 4.0).Floor < y.Floor by { assert y / 4.0 <= y - 3.0; }
      FloorLog4Bracket(y / 4.0);
    }
  }

  lemma {:induction false} PowerOfFourMonotone(a: nat, b: nat)
    requires a <= b
    ensures 0.0 < Power(4.0, a) <= Power(4.0, b)
  {
    if a < b {
      PowerOfFourMonotone(a, b - 1);
    } else if a > 0 {
      PowerOfFourMonotone(a - 1, a - 1);
    }
  }

  lemma FloorLog4Below(y: real, m: nat)
    requires y >= 1.0
    ensures FloorLog4(y) < m <==> y < Power(4.0, m)
  {
    hide Power;
    var l := FloorLog4(y);
    FloorLog4Bracket(y);
    if l < m {
      PowerOfFourMonotone(l + 1, m);
    } else {
      PowerOfFourMonotone(m, l);
    }
  }

  /**
   * Rounding log4(F) by adding a half and truncating is the floor of log4(2F); the last stage
   * is not an inverter of the chain.
   */
  function StageEstimate(effort: real): nat
    requires effort >= 1.0
  {
    var k := FloorLog4(2.0 * effort);
    if k >= 1 then k - 1 else 0
  }

  /** An inverting latency-first chain has an odd number of stages, any other an even one. */
  function LatencyStages(effort: real, inv: bool): (n: nat)
    requires effort >= 1.0
    ensures n % 2 == if inv then 1 else 0
    ensures n == StageEstimate(effort) || n == StageEstimate(effort) + 1
  {
    var n := StageEstimate(effort);
    if (n % 2 == 1) != inv then n + 1 else n
  }

  /** In the trade-off the final driver is counted separately, so the parity is the opposite. */
  function TradeOffStages(effort: real, inv: bool): (n: nat)
    requires effort >= 1.0
    ensures (n + 1) % 2 == if inv then 1 else 0
    ensures n == StageEstimate(effort) || n == StageEstimate(effort) + 1
  {
    var n := StageEstimate(effort);
    if (n % 2 == 1) == inv then n + 1 else n
  }

  function Capped(n: nat): nat {
    if n > MAX_INV_CHAIN_LEN then MAX_INV_CHAIN_LEN else n
  }

  lemma EstimateBelow(effort: real, m: nat)
    requires effort >= 1.0 && m >= 1
    ensures StageEstimate(effort) < m <==> 2.0 * effort < Power(4.0, m + 1)
  {
    FloorLog4Below(2.0 * effort, m + 1);
  }

  /**
   * The cap keeps the parity of an inverting chain exactly when it does not act, that is up to
   * an effort of 4^21 / 2.
   */
  lemma CapBreaksParity(effort: real)
    requires effort >= 1.0
    ensures Capped(LatencyStages(effort, true)) % 2 == 1 <==> LatencyStages(effort, true) <= MAX_INV_CHAIN_LEN
    ensures LatencyStages(effort, true) <= MAX_INV_CHAIN_LEN <==> 2.0 * effort < Power(4.0, 21)
  {
    hide StageEstimate, Power;
    EstimateBelow(effort, 20);
  }

  /** A latency-first chain has a stage to size unless it need not invert and the effort is below eight. */
  lemma LatencyHasStage(effort: real, inv: bool)
    requires effort >= 1.0
    ensures LatencyStages(effort, inv) >= 1 <==> inv || effort >= 8.0
  {
    hide StageEstimate;
    EstimateBelow(effort, 1);
    assert Power(4.0, 2) == 16.0;
  }

  /** The final driver of a trade-off chain still fits into the arrays up to this effort. */
  lemma TradeOffFits(effort: real, inv: bool)
    requires effort >= 1.0
    ensures TradeOffStages(effort, inv) < MAX_INV_CHAIN_LEN <==> 2.0 * effort < Power(4.0, if inv then 20 else 21)
  {
    hide StageEstimate, Power;
    EstimateBelow(effort, 19);
    EstimateBelow(effort, 20);
  }

  // ---- the taper ----

  function Divided(w: real, f: real): real
    requires f > 0.0
  {
    w / f
  }

  /** The width of a stage from that of its successor. */
  function StageBefore(w: real, f: real, minWidth: real): real
    requires f > 0.0
  {
    MaxReal(Divided(w, f), minWidth)
  }

  /** The width k stages before the last one. */
  function Taper(last: real, f: real, minWidth: real, k: nat): real
    requires f > 0.0
  {
    if k == 0 then last else StageBefore(Taper(last, f, minWidth, k - 1), f, minWidth)
  }

  lemma PositiveFactor(x: real, f: real)
    requires f > 0.0 && x * f > 0.0
    ensures x > 0.0
  {
  }

  lemma Narrower(w: real, f: real)
    requires w > 0.0 && f > 0.0
    ensures Divided(w, f) > 0.0 && f * Divided(w, f) == w
    ensures Divided(w, f) <= w <==> f >= 1.0
  {
    var x := Divided(w, f);
    assert x * f == w;
    PositiveFactor(x, f);
    SignOfProduct(x, f - 1.0);
    assert w - x == x * (f - 1.0);
  }

  lemma SignOfProduct(x: real, y: real)
    requires x > 0.0
    ensures x * y >= 0.0 <==> y >= 0.0
  {
    if y < 0.0 {
      assert x * (-y) > 0.0;
    }
  }

  lemma OneStage(w: real, f: real, minWidth: real)
    requires f >= 1.0 && 0.0 < minWidth <= w
    ensures minWidth <= StageBefore(w, f, minWidth) <= w <= f * StageBefore(w, f, minWidth)
  {
    hide Divided;
    Narrower(w, f);
    ScaledMax(Divided(w, f), minWidth, f);
  }

  lemma ScaledMax(x: real, m: real, f: real)
    requires f > 0.0
    ensures f * MaxReal(x, m) >= f * x
  {
    assert f * (MaxReal(x, m) - x) >= 0.0;
  }

  /** Each stage is between its successor's width divided by the effort and that width itself. */
  lemma {:induction false} TaperStep(last: real, f: real, minWidth: real, k: nat)
    requires f >= 1.0 && 0.0 < minWidth <= last
    ensures minWidth <= Taper(last, f, minWidth, k) <= last
    ensures Taper(last, f, minWidth, k + 1) <= Taper(last, f, minWidth, k) <= f * Taper(last, f, minWidth, k + 1)
  {
    hide StageBefore;
    if k > 0 {
      TaperStep(last, f, minWidth, k - 1);
      OneStage(Taper(last, f, minWidth, k - 1), f, minWidth);
    }
    OneStage(Taper(last, f, minWidth, k), f, minWidth);
  }

  lemma {:induction false} PowerBelowOne(f: real, n: nat)
    requires 0.0 < f < 1.0 && n > 0
    ensures 0.0 < Power(f, n) < 1.0
  {
    if n > 1 {
      PowerBelowOne(f, n - 1);
      var q := Power(f, n - 1);
      assert f * q > 0.0;
      assert f * (1.0 - q) > 0.0;
    } else {
      assert Power(f, 1) == f * Power(f, 0);
    }
  }

  lemma {:induction false} PowerAtLeastOne(f: real, n: nat)
    requires f >= 1.0
    ensures Power(f, n) >= 1.0
  {
    if n > 0 {
      PowerAtLeastOne(f, n - 1);
      assert (f - 1.0) * Power(f, n - 1) >= 0.0;
    }
  }

  /** The effort per stage is at least one exactly when the effort of the whole chain is. */
  lemma RootAtLeastOne(p: Process, x: real, n: nat)
    requires Sound(p) && x > 0.0 && n > 0
    ensures p.root(x, n) >= 1.0 <==> x >= 1.0
  {
    if p.root(x, n) >= 1.0 {
      PowerAtLeastOne(p.root(x, n), n);
    } else {
      PowerBelowOne(p.root(x, n), n);
    }
  }

  /** What a caller asks of a driver. */
  datatype Demand = Demand(logicEffort: real, inputCap: real, outputCap: real, inv: bool, target: BufferTarget,
                           minDriverCurrent: real)

  ghost predicate SoundDemand(d: Demand) {
    d.logicEffort > 0.0 && d.inputCap > 0.0
  }

  /** A load in terms of the input of an inverter as strong as the driving gate. */
  function LogicalLoad(d: Demand, load: real): real {
    d.logicEffort * load
  }

  function Effort(d: Demand, load: real): (effort: real)
    requires d.inputCap > 0.0
    ensures effort >= 1.0
  {
    MaxReal(1.0, Divided(LogicalLoad(d, load), d.inputCap))
  }

  function MinDriverWidth(p: Process, d: Demand): real
    requires p.onCurrent > 0.0
  {
    MaxReal(p.minWidth, d.minDriverCurrent / p.onCurrent)
  }

  function TradeOffLoad(p: Process, d: Demand): real
    requires p.onCurrent > 0.0
  {
    p.gateCap(MinDriverWidth(p, d)) * (1.0 + p.pnSizeRatio)
  }

  /** What a sizing decides: the number of stages, the width of the last one and the effort from stage to stage. */
  datatype Chain = Chain(stages: nat, last: real, effort: real)

  /** The width that the load asks of the last stage of a latency-first chain. */
  function LoadWidth(p: Process, d: Demand, effort: real): real
    requires p.gateCap(1.0) > 0.0 && p.pnSizeRatio > 0.0 && effort > 0.0
  {
    var inputCapLast := Divided(d.outputCap, effort);
    MaxReal(p.minWidth, Divided(Divided(inputCapLast, p.gateCap(1.0)), 1.0 + p.pnSizeRatio))
  }

  ghost function LatencyStageCount(d: Demand): nat
    requires SoundDemand(d)
  {
    Capped(LatencyStages(Effort(d, d.outputCap), d.inv))
  }

  /** The width of the last stage before it is clamped. */
  ghost function UnclampedWidth(p: Process, d: Demand): real
    requires Sound(p) && SoundDemand(d)
  {
    LoadWidth(p, d, p.root(Effort(d, d.outputCap), LatencyStageCount(d) + 1))
  }

  /** The chain for the load; once its last stage is clamped, the effort is that of the stages before it. */
  ghost function LatencyChain(p: Process, d: Demand): Chain
    requires Sound(p) && SoundDemand(d)
  {
    var n := LatencyStageCount(d);
    if UnclampedWidth(p, d) > p.maxWidth then Chain(n, p.maxWidth, p.root(ClampedEffort(p, d), n))
    else Chain(n, UnclampedWidth(p, d), p.root(Effort(d, d.outputCap), n + 1))
  }

  /** The chain for the narrowest last stage that drives the load current. */
  ghost function TradeOffChain(p: Process, d: Demand): Chain
    requires Sound(p) && SoundDemand(d)
  {
    var F := Effort(d, TradeOffLoad(p, d));
    var n := TradeOffStages(F, d.inv) + 1;
    Chain(n, MinDriverWidth(p, d), p.root(F, n))
  }

  /** A latency-first chain whose last stage cannot drive the load current gives way to a trade-off chain. */
  ghost predicate TooWeak(p: Process, d: Demand)
    requires Sound(p) && SoundDemand(d)
  {
    LatencyChain(p, d).last < MinDriverWidth(p, d)
  }

  ghost function ChosenChain(p: Process, d: Demand): Chain
    requires Sound(p) && SoundDemand(d)
  {
    match d.target
    case LatencyFirst => if TooWeak(p, d) then TradeOffChain(p, d) else LatencyChain(p, d)
    case LatencyAreaTradeOff => TradeOffChain(p, d)
    case AreaFirst => Chain(1, MinDriverWidth(p, d), 1.0)
  }

  /** The source stays inside its arrays: there is a stage to size, and no more than fit. */
  ghost predicate StaysInArrays(p: Process, d: Demand)
    requires Sound(p) && SoundDemand(d)
  {
    && (d.target == LatencyFirst ==> LatencyStages(Effort(d, d.outputCap), d.inv) >= 1)
    && (d.target == LatencyAreaTradeOff || (d.target == LatencyFirst && TooWeak(p, d)) ==>
          TradeOffChain(p, d).stages <= MAX_INV_CHAIN_LEN)
  }

  /** The widths of a chain, from its first stage to its last. */
  ghost function Widths(c: Chain, minWidth: real): seq<real>
    requires c.effort > 0.0
  {
    seq(c.stages, i requires 0 <= i < c.stages => Taper(c.last, c.effort, minWidth, c.stages - 1 - i))
  }

  /** A chain whose stages run from the first to the last with the effort f between neighbours. */
  ghost predicate Tapered(widths: seq<real>, f: real, minWidth: real, maxWidth: real) {
    && (forall i :: 0 <= i < |widths| ==> minWidth <= widths[i] <= maxWidth)
    && (forall i :: 0 <= i < |widths| - 1 ==> widths[i] <= widths[i + 1] <= f * widths[i])
  }

  lemma TaperIsTapered(widths: seq<real>, f: real, minWidth: real, maxWidth: real)
    requires widths != [] && f >= 1.0 && 0.0 < minWidth <= widths[|widths| - 1] <= maxWidth
    requires forall i :: 0 <= i < |widths| ==> widths[i] == Taper(widths[|widths| - 1], f, minWidth, |widths| - 1 - i)
    ensures Tapered(widths, f, minWidth, maxWidth)
  {
    hide Taper;
    var last := widths[|widths| - 1];
    forall i | 0 <= i < |widths|
      ensures minWidth <= widths[i] <= maxWidth
    {
      TaperStep(last, f, minWidth, |widths| - 1 - i);
    }
    forall i | 0 <= i < |widths| - 1
      ensures widths[i] <= widths[i + 1] <= f * widths[i]
    {
      TaperStep(last, f, minWidth, |widths| - 2 - i);
      assert |widths| - 2 - i + 1 == |widths| - 1 - i;
    }
  }

  function PmosFor(width: real, ratio: real): real {
    width * ratio
  }

  /** The input of the widest last stage, seen by the stage before it. */
  function LastStageCap(p: Process): real {
    p.gateCap((1.0 + p.pnSizeRatio) * p.maxWidth)
  }

  /** The effort of the chain up to a last stage of the greatest width. */
  function ClampedEffort(p: Process, d: Demand): real
    requires d.inputCap > 0.0
  {
    Divided(LogicalLoad(d, LastStageCap(p)), d.inputCap)
  }

  lemma RelativeEffort(p: Process, d: Demand)
    requires Sound(p) && SoundDemand(d) && p.maxWidth >= p.minWidth
    ensures ClampedEffort(p, d) > 0.0
    ensures ClampedEffort(p, d) >= 1.0 <==> d.logicEffort * LastStageCap(p) >= d.inputCap
  {
    assert (1.0 + p.pnSizeRatio) * p.maxWidth > 0.0;
    assert d.logicEffort * LastStageCap(p) > 0.0;
    QuotientAgainstOne(d.logicEffort * LastStageCap(p), d.inputCap);
  }

  lemma QuotientAgainstOne(x: real, y: real)
    requires x > 0.0 && y > 0.0
    ensures Divided(x, y) > 0.0 && (Divided(x, y) >= 1.0 <==> x >= y)
  {
    hide Divided;
    Narrower(x, y);
    var q := Divided(x, y);
    assert x - y == y * (q - 1.0);
    SignOfProduct(y, q - 1.0);
  }

  // ---- when a chain is tapered ----

  /** With an effort below one the stage before the last is already wider than it. */
  lemma SecondLastIsWider(c: Chain, minWidth: real, maxWidth: real)
    requires c.stages >= 2 && 0.0 < c.effort < 1.0 && c.last > 0.0
    ensures Widths(c, minWidth)[c.stages - 2] > c.last
    ensures !Tapered(Widths(c, minWidth), c.effort, minWidth, maxWidth)
  {
    Narrower(c.last, c.effort);
    assert Taper(c.last, c.effort, minWidth, 0) == c.last;
    var widths := Widths(c, minWidth);
    assert widths[c.stages - 1] == c.last;
    assert widths[c.stages - 2] == Taper(c.last, c.effort, minWidth, 0 + 1) >= Divided(c.last, c.effort);
    assert Divided(c.last, c.effort) > c.last;
    var i := c.stages - 2;
    assert 0 <= i < |widths| - 1 && !(widths[i] <= widths[i + 1]);
  }

  /** A chain within the widths of the process is tapered exactly when it has one stage or an effort of at least one. */
  lemma TaperedIff(c: Chain, minWidth: real, maxWidth: real)
    requires c.stages >= 1 && c.effort > 0.0 && 0.0 < minWidth <= c.last <= maxWidth
    ensures Tapered(Widths(c, minWidth), c.effort, minWidth, maxWidth) <==> c.stages == 1 || c.effort >= 1.0
  {
    hide Tapered, Taper;
    if c.effort >= 1.0 {
      LastOfWidths(c, minWidth);
      TaperIsTapered(Widths(c, minWidth), c.effort, minWidth, maxWidth);
    } else if c.stages >= 2 {
      SecondLastIsWider(c, minWidth, maxWidth);
    } else {
      LastOfWidths(c, minWidth);
      OneStageIsTapered(Widths(c, minWidth), c.effort, minWidth, maxWidth);
    }
  }

  lemma LastOfWidths(c: Chain, minWidth: real)
    requires c.stages >= 1 && c.effort > 0.0
    ensures Widths(c, minWidth)[c.stages - 1] == c.last
  {
    assert Taper(c.last, c.effort, minWidth, c.stages - 1 - (c.stages - 1)) == c.last;
  }

  lemma OneStageIsTapered(widths: seq<real>, f: real, minWidth: real, maxWidth: real)
    requires |widths| == 1 && minWidth <= widths[0] <= maxWidth
    ensures Tapered(widths, f, minWidth, maxWidth)
  {
  }

  /**
   * A latency-first chain is tapered exactly when it has one stage, its last stage was not
   * clamped, or the clamped stage loads the chain at least as much as its input. Otherwise
   * the clamped stage has a wider one before it, beyond the greatest width of the process.
   */
  lemma LatencyTaperedIff(p: Process, d: Demand)
    requires Sound(p) && SoundDemand(d) && p.minWidth <= p.maxWidth
    requires LatencyStages(Effort(d, d.outputCap), d.inv) >= 1
    ensures var c := LatencyChain(p, d);
      && c.stages >= 1 && c.effort > 0.0 && p.minWidth <= c.last <= p.maxWidth
      && c.last == (if UnclampedWidth(p, d) > p.maxWidth then p.maxWidth else UnclampedWidth(p, d))
      && (Tapered(Widths(c, p.minWidth), c.effort, p.minWidth, p.maxWidth)
          <==> c.stages == 1 || UnclampedWidth(p, d) <= p.maxWidth || d.logicEffort * LastStageCap(p) >= d.inputCap)
      && (!Tapered(Widths(c, p.minWidth), c.effort, p.minWidth, p.maxWidth) ==>
            Widths(c, p.minWidth)[c.stages - 2] > p.maxWidth)
  {
    hide Tapered, Taper, Divided, LastStageCap, ClampedEffort, Effort, LatencyStages, Widths;
    var c := LatencyChain(p, d);
    RelativeEffort(p, d);
    RootAtLeastOne(p, Effort(d, d.outputCap), c.stages + 1);
    RootAtLeastOne(p, ClampedEffort(p, d), c.stages);
    TaperedIff(c, p.minWidth, p.maxWidth);
    if c.stages >= 2 && c.effort < 1.0 {
      SecondLastIsWider(c, p.minWidth, p.maxWidth);
    }
  }

  /** A trade-off chain is always tapered, and of the right parity. */
  lemma TradeOffIsTapered(p: Process, d: Demand)
    requires Sound(p) && SoundDemand(d) && MinDriverWidth(p, d) <= p.maxWidth
    ensures var c := TradeOffChain(p, d);
      && c.stages >= 1 && c.last == MinDriverWidth(p, d)
      && c.effort >= 1.0 && Tapered(Widths(c, p.minWidth), c.effort, p.minWidth, p.maxWidth)
      && c.stages % 2 == if d.inv then 1 else 0
  {
    hide Tapered, Taper, Effort, TradeOffLoad, Widths, StageEstimate;
    var c := TradeOffChain(p, d);
    RootAtLeastOne(p, Effort(d, TradeOffLoad(p, d)), c.stages);
    TaperedIff(c, p.minWidth, p.maxWidth);
  }

  /**
   * A chosen chain always carries the load current. It is tapered exactly unless it is a
   * latency-first chain of several stages whose last one was clamped to a load below the
   * input, and it inverts as asked unless the cap on its length acted.
   */
  lemma ChosenTaperedIff(p: Process, d: Demand)
    requires Sound(p) && SoundDemand(d) && MinDriverWidth(p, d) <= p.maxWidth && StaysInArrays(p, d)
    ensures var c := ChosenChain(p, d);
      && 1 <= c.stages <= MAX_INV_CHAIN_LEN && c.effort > 0.0 && MinDriverWidth(p, d) <= c.last <= p.maxWidth
      && (d.target == LatencyFirst ==>
            c == if LatencyChain(p, d).last >= MinDriverWidth(p, d) then LatencyChain(p, d) else TradeOffChain(p, d))
      && (d.target == LatencyAreaTradeOff ==> c == TradeOffChain(p, d))
      && (d.target == AreaFirst ==> c.stages == 1 && c.last == MinDriverWidth(p, d))
      && (Tapered(Widths(c, p.minWidth), c.effort, p.minWidth, p.maxWidth)
          <==> || d.target != LatencyFirst || TooWeak(p, d) || c.stages == 1
               || UnclampedWidth(p, d) <= p.maxWidth || d.logicEffort * LastStageCap(p) >= d.inputCap)
      && (d.target == LatencyAreaTradeOff || (d.target == LatencyFirst && TooWeak(p, d)) ==>
            c.stages % 2 == if d.inv then 1 else 0)
      && (d.target == LatencyFirst && !TooWeak(p, d) && d.inv ==>
            (c.stages % 2 == 1 <==> LatencyStages(Effort(d, d.outputCap), true) <= MAX_INV_CHAIN_LEN))
      && (d.target == LatencyFirst && !TooWeak(p, d) && !d.inv ==> c.stages % 2 == 0)
  {
    hide Tapered, Taper, LatencyChain, TradeOffChain, UnclampedWidth, LastStageCap, Effort, Widths, LatencyStages,
      TradeOffStages;
    match d.target {
      case LatencyFirst =>
        LatencyTaperedIff(p, d);
        LatencyParity(p, d);
        TradeOffIsTapered(p, d);
      case LatencyAreaTradeOff =>
        TradeOffIsTapered(p, d);
      case AreaFirst =>
        TaperedIff(ChosenChain(p, d), p.minWidth, p.maxWidth);
    }
  }

  lemma LatencyParity(p: Process, d: Demand)
    requires Sound(p) && SoundDemand(d)
    ensures LatencyChain(p, d).stages <= MAX_INV_CHAIN_LEN
    ensures d.inv ==>
      (LatencyChain(p, d).stages % 2 == 1 <==> LatencyStages(Effort(d, d.outputCap), true) <= MAX_INV_CHAIN_LEN)
    ensures !d.inv ==> LatencyChain(p, d).stages % 2 == 0
  {
    hide LatencyStages, UnclampedWidth;
    if d.inv {
      CapBreaksParity(Effort(d, d.outputCap));
    }
  }

  // ---- the drivers that the program builds ----

  /** Gates without poly wire capacitance, as every technology of the program has them. */
  ghost predicate LinearGates(p: Process, k: real) {
    k > 0.0 && forall w :: p.gateCap(w) == k * w
  }

  /** The demand of an inverter of least width, or of a NAND of j inputs whose NMOS are j times as wide. */
  ghost predicate GateDemand(p: Process, d: Demand, j: real) {
    && j >= 1.0 && p.pnSizeRatio > 0.0 && d.inv
    && d.logicEffort == Divided(j + p.pnSizeRatio, 1.0 + p.pnSizeRatio)
    && d.inputCap == p.gateCap(j * p.minWidth) + p.gateCap(p.pnSizeRatio * p.minWidth)
  }

  /** Against its own input, a gate of effort (j + r) / (1 + r) loaded by an inverter of width w weighs w / m. */
  lemma GateLoad(k: real, j: real, r: real, m: real, w: real)
    requires j >= 1.0 && r > 0.0
    ensures Divided(j + r, 1.0 + r) * (k * ((1.0 + r) * w)) == (k * (j + r)) * w
    ensures k * (j * m) + k * (r * m) == (k * (j + r)) * m
  {
    hide Divided;
    Narrower(j + r, 1.0 + r);
    var q := Divided(j + r, 1.0 + r);
    assert q * (k * ((1.0 + r) * w)) == ((1.0 + r) * q) * (k * w);
    assert (j + r) * (k * w) == (k * (j + r)) * w;
    assert k * (j * m) + k * (r * m) == (k * (j + r)) * m;
  }

  lemma ScaledOrder(c: real, x: real, y: real)
    requires c > 0.0
    ensures c * x >= c * y <==> x >= y
  {
    assert c * x - c * y == c * (x - y);
    SignOfProduct(c, x - y);
  }

  /** The widest last stage loads such a gate at least as much as its input exactly if a transistor fits at all. */
  lemma GateLoadsItself(p: Process, d: Demand, k: real, j: real)
    requires Sound(p) && LinearGates(p, k) && GateDemand(p, d, j)
    ensures d.logicEffort * LastStageCap(p) >= d.inputCap <==> p.maxWidth >= p.minWidth
  {
    hide Sound, LinearGates, GateDemand, LastStageCap;
    LastStageTerms(p, d, k, j);
    GateTerms(p, d, k, j);
    ScaledOrder(k * (j + p.pnSizeRatio), p.maxWidth, p.minWidth);
  }

  lemma LastStageTerms(p: Process, d: Demand, k: real, j: real)
    requires LinearGates(p, k) && GateDemand(p, d, j)
    ensures d.logicEffort * LastStageCap(p) == (k * (j + p.pnSizeRatio)) * p.maxWidth
  {
    hide Divided;
    GateLoad(k, j, p.pnSizeRatio, p.minWidth, p.maxWidth);
    assert LastStageCap(p) == k * ((1.0 + p.pnSizeRatio) * p.maxWidth);
  }

  /** So no driver that the program builds widens toward its input: every valid one is tapered. */
  lemma DriversAreTapered(p: Process, d: Demand, k: real, j: real)
    requires Sound(p) && SoundDemand(d) && LinearGates(p, k) && GateDemand(p, d, j)
    requires MinDriverWidth(p, d) <= p.maxWidth && StaysInArrays(p, d)
    ensures var c := ChosenChain(p, d);
      c.effort > 0.0 && Tapered(Widths(c, p.minWidth), c.effort, p.minWidth, p.maxWidth)
  {
    hide ChosenChain, Tapered, Widths, LastStageCap, StaysInArrays, GateDemand, LinearGates, UnclampedWidth, TooWeak;
    ChosenTaperedIff(p, d);
    GateLoadsItself(p, d, k, j);
  }

  /** The effort of a trade-off chain of such a gate is the width it needs, in least widths. */
  lemma GateTradeOffEffort(p: Process, d: Demand, k: real, j: real)
    requires Sound(p) && SoundDemand(d) && LinearGates(p, k) && GateDemand(p, d, j)
    ensures Effort(d, TradeOffLoad(p, d)) == Divided(MinDriverWidth(p, d), p.minWidth) >= 1.0
  {
    hide Divided, MinDriverWidth, TradeOffLoad, Effort, Sound, LinearGates, GateDemand;
    WideEnough(p, d);
    GateTerms(p, d, k, j);
    TradeOffTerms(p, d, k, j);
    EffortOfRatio(d, TradeOffLoad(p, d), k * (j + p.pnSizeRatio), MinDriverWidth(p, d), p.minWidth);
  }

  lemma GateTerms(p: Process, d: Demand, k: real, j: real)
    requires Sound(p) && LinearGates(p, k) && GateDemand(p, d, j)
    ensures k * (j + p.pnSizeRatio) > 0.0 && p.minWidth > 0.0
    ensures d.inputCap == (k * (j + p.pnSizeRatio)) * p.minWidth
  {
    hide Divided;
    GateLoad(k, j, p.pnSizeRatio, p.minWidth, p.minWidth);
  }

  lemma TradeOffTerms(p: Process, d: Demand, k: real, j: real)
    requires p.onCurrent > 0.0 && LinearGates(p, k) && GateDemand(p, d, j)
    ensures d.logicEffort * TradeOffLoad(p, d) == (k * (j + p.pnSizeRatio)) * MinDriverWidth(p, d)
  {
    hide Divided, MinDriverWidth;
    var r, w := p.pnSizeRatio, MinDriverWidth(p, d);
    GateLoad(k, j, r, p.minWidth, w);
    assert k * w * (1.0 + r) == k * ((1.0 + r) * w);
    assert TradeOffLoad(p, d) == k * w * (1.0 + r);
  }

  lemma EffortOfRatio(d: Demand, load: real, c: real, w: real, m: real)
    requires c > 0.0 && 0.0 < m <= w && d.inputCap > 0.0
    requires d.logicEffort * load == c * w && d.inputCap == c * m
    ensures Effort(d, load) == Divided(w, m) >= 1.0
  {
    hide Divided;
    QuotientAgainstOne(w, m);
    Narrower(w, m);
    var q := Divided(w, m);
    assert c * (m * q) == q * (c * m);
    EffortIs(d, load, q);
  }

  lemma EffortIs(d: Demand, load: real, q: real)
    requires d.inputCap > 0.0 && d.logicEffort * load == q * d.inputCap && q >= 1.0
    ensures Effort(d, load) == q
  {
    Cancel(q, d.inputCap);
    assert LogicalLoad(d, load) == q * d.inputCap;
    assert Divided(LogicalLoad(d, load), d.inputCap) == q;
  }

  lemma WideEnough(p: Process, d: Demand)
    requires Sound(p)
    ensures p.onCurrent > 0.0 && MinDriverWidth(p, d) >= p.minWidth > 0.0
  {
  }

  /**
   * A driver that the program builds stays inside its arrays exactly if no trade-off chain
   * needs 4^20 / 2 least widths.
   */
  lemma DriversStayInArrays(p: Process, d: Demand, k: real, j: real)
    requires Sound(p) && SoundDemand(d) && LinearGates(p, k) && GateDemand(p, d, j)
    ensures StaysInArrays(p, d)
      <==> (d.target == LatencyAreaTradeOff || (d.target == LatencyFirst && TooWeak(p, d)) ==>
              2.0 * Divided(MinDriverWidth(p, d), p.minWidth) < Power(4.0, 20))
  {
    hide Divided, MinDriverWidth, Power, TooWeak, StageEstimate, Effort, TradeOffLoad, LinearGates;
    LatencyHasStage(Effort(d, d.outputCap), true);
    GateTradeOffEffort(p, d, k, j);
    TradeOffFits(Effort(d, TradeOffLoad(p, d)), true);
  }

  // ---- what the widths are ----

  /** The least width that the process allows and that carries the current. */
  lemma MinDriverIsLeast(p: Process, d: Demand, w: real)
    requires p.onCurrent > 0.0
    ensures w >= MinDriverWidth(p, d) <==> w >= p.minWidth && w * p.onCurrent >= d.minDriverCurrent
  {
    var x := d.minDriverCurrent / p.onCurrent;
    assert x * p.onCurrent == d.minDriverCurrent;
    ScaledOrder(p.onCurrent, w, x);
  }

  /** The cap changes only what exceeds it. */
  lemma CappedExactly(n: nat)
    ensures Capped(n) == if n <= 20 then n else 20
  {
  }

  /** The k-th stage before the last is k efforts narrower, or of the least width. */
  lemma {:induction false} TaperExactly(last: real, f: real, minWidth: real, k: nat)
    requires f > 0.0 && 0.0 < minWidth <= last
    ensures Power(f, k) > 0.0
    ensures Taper(last, f, minWidth, k)
      == if last >= minWidth * Power(f, k) then Divided(last, Power(f, k)) else minWidth
  {
    hide Divided, StageBefore, Power;
    PowerPositive(f, k);
    OverOne(last);
    FirstPower(f);
    if k > 0 {
      NextPower(f, k - 1);
      PowerPositive(f, k - 1);
      TaperExactly(last, f, minWidth, k - 1);
      if last < minWidth * Power(f, k - 1) {
        PowerAboveOne(last, f, minWidth, k - 1);
      }
      TaperOnce(last, f, minWidth, Power(f, k - 1), Power(f, k), Taper(last, f, minWidth, k - 1));
    }
  }

  lemma TaperOnce(last: real, f: real, m: real, q: real, next: real, w: real)
    requires f > 0.0 && q > 0.0 && next == f * q && 0.0 < m <= last && (last < m * q ==> f >= 1.0)
    requires w == if last >= m * q then Divided(last, q) else m
    ensures next > 0.0 && StageBefore(w, f, m) == if last >= m * next then Divided(last, next) else m
  {
    hide Divided;
    OverNext(last, f, q, next);
    if last >= m * q {
      AtLeast(last, m, next);
    } else {
      Narrower(m, f);
      assert (f - 1.0) * (m * q) >= 0.0;
      assert m * next == f * (m * q);
    }
  }

  lemma FirstPower(f: real)
    ensures Power(f, 0) == 1.0
  {
  }

  lemma {:induction false} PowerPositive(f: real, k: nat)
    requires f > 0.0
    ensures Power(f, k) > 0.0
  {
    if k > 0 {
      PowerPositive(f, k - 1);
    }
  }

  lemma OverOne(x: real)
    ensures Power(x, 0) == 1.0 && Divided(x, 1.0) == x
  {
  }

  lemma OverNext(x: real, f: real, q: real, next: real)
    requires f > 0.0 && q > 0.0 && next == f * q
    ensures next > 0.0 && Divided(Divided(x, q), f) == Divided(x, next)
  {
    var y := Divided(Divided(x, q), f);
    assert Divided(x, q) * q == x;
    assert y * f == Divided(x, q);
    assert y * next == x;
    Cancel(y, next);
  }

  lemma AtLeast(x: real, m: real, q: real)
    requires q > 0.0
    ensures x >= m * q <==> Divided(x, q) >= m
  {
    var y := Divided(x, q);
    assert y * q == x;
    ScaledOrder(q, y, m);
  }

  /** Only an effort of at least one narrows a chain to the least width. */
  lemma PowerAboveOne(last: real, f: real, minWidth: real, k: nat)
    requires f > 0.0 && 0.0 < minWidth <= last < minWidth * Power(f, k)
    ensures f >= 1.0
  {
    if f < 1.0 {
      PowerAtMostOne(f, k);
      ScaledDown(minWidth, Power(f, k));
    }
  }

  lemma PowerAtMostOne(f: real, k: nat)
    requires 0.0 < f < 1.0
    ensures Power(f, k) <= 1.0
  {
    if k > 0 {
      PowerBelowOne(f, k);
    }
  }

  lemma ScaledDown(x: real, q: real)
    requires x > 0.0 && q <= 1.0
    ensures x * q <= x
  {
    assert x * (1.0 - q) >= 0.0;
  }

  /** The input of a stage: its NMOS and the PMOS beside it. */
  function StageCap(p: Process, w: real): real {
    p.gateCap(w) + p.gateCap(PmosFor(w, p.pnSizeRatio))
  }

  lemma LinearStage(p: Process, k: real, w: real)
    requires LinearGates(p, k) && p.pnSizeRatio > 0.0
    ensures StageCap(p, w) == (k * (1.0 + p.pnSizeRatio)) * w && k * (1.0 + p.pnSizeRatio) > 0.0
    ensures p.gateCap(w) * (1.0 + p.pnSizeRatio) == StageCap(p, w)
    ensures p.gateCap((1.0 + p.pnSizeRatio) * w) == StageCap(p, w)
  {
    var r := p.pnSizeRatio;
    assert k * w + k * (w * r) == (k * (1.0 + r)) * w;
    assert k * w * (1.0 + r) == (k * (1.0 + r)) * w;
    assert k * ((1.0 + r) * w) == (k * (1.0 + r)) * w;
  }

  /** A last stage sized for the load bears exactly the effort per stage, unless it has the least width. */
  lemma LastStageEffort(p: Process, d: Demand, k: real, effort: real)
    requires Sound(p) && LinearGates(p, k) && effort > 0.0
    ensures p.gateCap(1.0) > 0.0
    ensures LoadWidth(p, d, effort) >= p.minWidth
    ensures effort * StageCap(p, LoadWidth(p, d, effort)) >= d.outputCap
    ensures LoadWidth(p, d, effort) > p.minWidth ==> effort * StageCap(p, LoadWidth(p, d, effort)) == d.outputCap
  {
    hide Divided, StageCap;
    var w := LoadWidth(p, d, effort);
    LinearStage(p, k, w);
    var r := 1.0 + p.pnSizeRatio;
    assert p.gateCap(1.0) == k;
    var x := Divided(Divided(Divided(d.outputCap, effort), k), r);
    Undivided(d.outputCap, effort, k, r);
    assert w == MaxReal(p.minWidth, x);
    Factored(effort, k * r, w);
    Factored(effort, k * r, x);
    ScaledOrder(effort * (k * r), w, x);
  }

  lemma Factored(a: real, b: real, w: real)
    requires a > 0.0 && b > 0.0
    ensures a * (b * w) == (a * b) * w && a * b > 0.0
  {
  }

  lemma Undivided(x: real, a: real, b: real, c: real)
    requires a > 0.0 && b > 0.0 && c > 0.0
    ensures a * ((b * c) * Divided(Divided(Divided(x, a), b), c)) == x
  {
    var y := Divided(x, a);
    var z := Divided(y, b);
    var w := Divided(z, c);
    assert y * a == x && z * b == y && w * c == z;
    assert (b * c) * w == y;
  }

  /**
   * The method of logical effort: in a chain that nowhere falls to the least width, the
   * driving gate bears the same effort as every stage, provided the effort of the whole is
   * that of one stage to the power of their number.
   */
  lemma EffortIsShared(p: Process, d: Demand, k: real, c: Chain)
    requires Sound(p) && SoundDemand(d) && LinearGates(p, k)
    requires c.stages >= 1 && c.effort > 0.0 && p.minWidth <= c.last
    requires d.logicEffort * StageCap(p, c.last) == Power(c.effort, c.stages) * d.inputCap
    requires Widths(c, p.minWidth)[0] > p.minWidth
    ensures d.logicEffort * StageCap(p, Widths(c, p.minWidth)[0]) == c.effort * d.inputCap
  {
    hide Divided, StageCap, Taper, Power;
    var n, w := c.stages - 1, Widths(c, p.minWidth)[0];
    TaperExactly(c.last, c.effort, p.minWidth, n);
    PowerPositive(c.effort, n);
    var q := Power(c.effort, n);
    assert w == Divided(c.last, q);
    Times(c.last, q);
    assert Power(c.effort, c.stages) == c.effort * q by { NextPower(c.effort, n); }
    LinearShare(p, k, d.logicEffort, w, c.last, q, c.effort, Power(c.effort, c.stages), d.inputCap);
  }

  lemma LinearShare(p: Process, k: real, g: real, w: real, last: real, q: real, f: real, whole: real, x: real)
    requires LinearGates(p, k) && p.pnSizeRatio > 0.0 && q > 0.0 && last == w * q && whole == f * q
    requires g * StageCap(p, last) == whole * x
    ensures g * StageCap(p, w) == f * x
  {
    hide StageCap;
    LinearStage(p, k, w);
    LinearStage(p, k, last);
    SharedFactor(g, k * (1.0 + p.pnSizeRatio), w, last, q, f, whole, x);
  }

  lemma Times(x: real, q: real)
    requires q > 0.0
    ensures Divided(x, q) * q == x
  {
  }

  lemma NextPower(f: real, n: nat)
    ensures Power(f, n + 1) == f * Power(f, n)
  {
  }

  lemma SharedFactor(g: real, c: real, w: real, last: real, q: real, f: real, whole: real, x: real)
    requires q > 0.0 && last == w * q && whole == f * q && g * (c * last) == whole * x
    ensures g * (c * w) == f * x
  {
    assert g * (c * (w * q)) == (g * (c * w)) * q;
    assert (f * q) * x == (f * x) * q;
    Cancel(g * (c * w), q);
    Cancel(f * x, q);
  }

  /** So it is in a latency-first chain for a load above the input, and once the last stage is clamped. */
  lemma LatencyEffort(p: Process, d: Demand, k: real)
    requires Sound(p) && SoundDemand(d) && LinearGates(p, k) && p.minWidth <= p.maxWidth
    requires LatencyStages(Effort(d, d.outputCap), d.inv) >= 1
    requires UnclampedWidth(p, d) > p.maxWidth || d.logicEffort * d.outputCap >= d.inputCap
    ensures var c := LatencyChain(p, d);
      && c.stages >= 1 && c.effort > 0.0
      && (Widths(c, p.minWidth)[0] > p.minWidth && c.last > p.minWidth ==>
            d.logicEffort * StageCap(p, Widths(c, p.minWidth)[0]) == c.effort * d.inputCap)
      && (Widths(c, p.minWidth)[0] > p.minWidth && c.last > p.minWidth && UnclampedWidth(p, d) <= p.maxWidth ==>
            c.effort * StageCap(p, c.last) == d.outputCap)
  {
    hide Divided, StageCap, Taper, Power, LoadWidth, LatencyStages, Effort, ClampedEffort, LastStageCap;
    var c, n := LatencyChain(p, d), LatencyStageCount(d);
    RelativeEffort(p, d);
    RootAtLeastOne(p, Effort(d, d.outputCap), n + 1);
    RootAtLeastOne(p, ClampedEffort(p, d), n);
    if UnclampedWidth(p, d) > p.maxWidth {
      ClampedWhole(p, d, k);
      if Widths(c, p.minWidth)[0] > p.minWidth {
        EffortIsShared(p, d, k, c);
      }
    } else {
      LastStageEffort(p, d, k, c.effort);
      if Widths(c, p.minWidth)[0] > p.minWidth && c.last > p.minWidth {
        NextPower(c.effort, n);
        WholeOfLoad(d, c.effort, StageCap(p, c.last), Power(c.effort, n), Power(c.effort, n + 1));
        EffortIsShared(p, d, k, c);
      }
    }
  }

  lemma ClampedWhole(p: Process, d: Demand, k: real)
    requires Sound(p) && SoundDemand(d) && LinearGates(p, k)
    ensures ClampedEffort(p, d) * d.inputCap == d.logicEffort * StageCap(p, p.maxWidth)
  {
    hide Divided, StageCap;
    LinearStage(p, k, p.maxWidth);
    Times(LogicalLoad(d, LastStageCap(p)), d.inputCap);
  }

  /** The effort of a load that exceeds the input. */
  lemma EffortTimesInput(d: Demand, load: real)
    requires d.inputCap > 0.0 && d.logicEffort * load >= d.inputCap
    ensures Effort(d, load) * d.inputCap == d.logicEffort * load
  {
    hide Divided;
    Times(d.logicEffort * load, d.inputCap);
    AtLeast(d.logicEffort * load, 1.0, d.inputCap);
    assert LogicalLoad(d, load) == d.logicEffort * load;
    Times(LogicalLoad(d, load), d.inputCap);
    AtLeast(LogicalLoad(d, load), 1.0, d.inputCap);
  }

  lemma WholeOfLoad(d: Demand, f: real, cap: real, q: real, whole: real)
    requires d.inputCap > 0.0 && f > 0.0 && d.logicEffort * d.outputCap >= d.inputCap
    requires f * cap == d.outputCap && whole == f * q && Effort(d, d.outputCap) == whole
    ensures d.logicEffort * cap == q * d.inputCap
  {
    hide Effort;
    EffortTimesInput(d, d.outputCap);
    assert d.logicEffort * (f * cap) == (d.logicEffort * cap) * f;
    assert (f * q) * d.inputCap == (q * d.inputCap) * f;
    Cancel(d.logicEffort * cap, f);
    Cancel(q * d.inputCap, f);
  }

  /** And in a trade-off chain whose last stage loads the gate more than its input. */
  lemma TradeOffEffort(p: Process, d: Demand, k: real)
    requires Sound(p) && SoundDemand(d) && LinearGates(p, k)
    requires d.logicEffort * TradeOffLoad(p, d) >= d.inputCap
    ensures var c := TradeOffChain(p, d);
      && c.stages >= 1 && c.effort > 0.0 && c.last == MinDriverWidth(p, d)
      && (Widths(c, p.minWidth)[0] > p.minWidth ==>
            d.logicEffort * StageCap(p, Widths(c, p.minWidth)[0]) == c.effort * d.inputCap)
  {
    hide Divided, StageCap, Taper, Power, TradeOffStages, Effort;
    var c := TradeOffChain(p, d);
    WideEnough(p, d);
    RootAtLeastOne(p, Effort(d, TradeOffLoad(p, d)), c.stages);
    EffortTimesInput(d, TradeOffLoad(p, d));
    LinearStage(p, k, c.last);
    if Widths(c, p.minWidth)[0] > p.minWidth {
      EffortIsShared(p, d, k, c);
    }
  }

  // ---- arguments for which the source falls short ----

  /** Gates with a poly wire capacitance, and hardly any room above the least width. */
  ghost predicate PolyProcess(p: Process) {
    && Sound(p) && p.minWidth == 1.0 && p.maxWidth == 1.1 && p.onCurrent == 1.0 && p.pnSizeRatio == 1.0
    && forall w :: p.gateCap(w) == w + 1.0
  }

  const HEAVY_LOAD := Demand(1.0, 4.0, 256.0, true, LatencyFirst, 0.0)

  /** An inverter of least width drives three stages, the last one clamped; the one before it is too wide. */
  lemma ClampedChainWidens(p: Process)
    requires PolyProcess(p)
    ensures GateDemand(p, HEAVY_LOAD, 1.0)
    ensures MinDriverWidth(p, HEAVY_LOAD) <= p.maxWidth && StaysInArrays(p, HEAVY_LOAD)
    ensures var c := ChosenChain(p, HEAVY_LOAD);
      && c.stages == 3 && c.last == 1.1 && 0.0 < c.effort < 1.0
      && Widths(c, p.minWidth)[1] > 1.1 && !Tapered(Widths(c, p.minWidth), c.effort, p.minWidth, p.maxWidth)
  {
    hide Power, Tapered, Taper, Widths, StageEstimate, Divided, LoadWidth, Effort, LastStageCap, ClampedEffort,
      LatencyStages, GateDemand;
    var d := HEAVY_LOAD;
    HeavyDemand(p);
    HeavyStages();
    HeavyWidth(p);
    RelativeEffort(p, d);
    RootAtLeastOne(p, ClampedEffort(p, d), 3);
    SecondLastIsWider(LatencyChain(p, d), p.minWidth, p.maxWidth);
  }

  lemma HeavyDemand(p: Process)
    requires PolyProcess(p)
    ensures GateDemand(p, HEAVY_LOAD, 1.0) && MinDriverWidth(p, HEAVY_LOAD) == 1.0
    ensures HEAVY_LOAD.logicEffort * LastStageCap(p) < HEAVY_LOAD.inputCap
  {
    assert p.gateCap(1.0) == 2.0;
    assert LastStageCap(p) == 3.2;
  }

  lemma HeavyStages()
    ensures Effort(HEAVY_LOAD, HEAVY_LOAD.outputCap) == 64.0
    ensures LatencyStages(64.0, true) == 3 == LatencyStageCount(HEAVY_LOAD)
  {
    hide Power, StageEstimate;
    EffortIs(HEAVY_LOAD, HEAVY_LOAD.outputCap, 64.0);
    PowersOfFour();
    EstimateBelow(64.0, 2);
    EstimateBelow(64.0, 3);
  }

  lemma HeavyWidth(p: Process)
    requires PolyProcess(p)
    ensures UnclampedWidth(p, HEAVY_LOAD) > 1.1
  {
    hide Power, LatencyStages, Effort;
    HeavyStages();
    var f := p.root(64.0, 4);
    FourthRootOf64(f);
    QuarterOf(Divided(256.0, f));
    assert p.gateCap(1.0) == 2.0;
  }

  lemma QuarterOf(x: real)
    ensures Divided(Divided(x, 2.0), 1.0 + 1.0) == x / 4.0
  {
  }

  lemma PowersOfFour()
    ensures Power(4.0, 2) == 16.0 && Power(4.0, 3) == 64.0 && Power(4.0, 4) == 256.0
  {
  }

  lemma FourthRootOf64(f: real)
    requires f > 0.0 && Power(f, 4) == 64.0
    ensures Divided(256.0, f) > 64.0
  {
    hide Power;
    if f >= 4.0 {
      PowerMonotone(4.0, f, 4);
      PowersOfFour();
    }
    Narrower(256.0, f);
    assert f * (Divided(256.0, f) - 64.0) > 0.0;
    SignOfProduct(f, Divided(256.0, f) - 64.0);
  }

  lemma LargePowersOfFour()
    ensures Power(4.0, 20) == 1099511627776.0 && Power(4.0, 21) == 4398046511104.0 && Power(4.0, 22) == 17592186044416.0
  {
    assert Power(4.0, 8) == 65536.0;
    assert Power(4.0, 16) == 4294967296.0;
  }

  /** An inverting chain of effort 4^21 is cut from 21 stages to 20, an even number. */
  lemma ParityLost()
    ensures LatencyStages(4398046511104.0, true) == 21 && Capped(21) == 20
  {
    hide StageEstimate, Power;
    LargePowersOfFour();
    EstimateBelow(4398046511104.0, 20);
    EstimateBelow(4398046511104.0, 21);
  }

  /** Linear gates and a greatest width of 4^20 least ones. */
  ghost predicate WideProcess(p: Process) {
    && Sound(p) && LinearGates(p, 1.0) && p.minWidth == 1.0 && p.maxWidth == 1099511627776.0
    && p.onCurrent == 1.0 && p.pnSizeRatio == 1.0
  }

  const NO_LOAD := Demand(1.0, 2.0, 2.0, false, LatencyFirst, 0.0)
  const HUGE_CURRENT := Demand(1.0, 2.0, 2.0, true, LatencyAreaTradeOff, 549755813888.0)

  /**
   * A latency-first driver without a load that need not invert has no stage. An inverter of
   * least width that has to carry the current of half the greatest width needs too many.
   */
  lemma OutsideTheArrays(p: Process)
    requires WideProcess(p)
    ensures !StaysInArrays(p, NO_LOAD)
    ensures GateDemand(p, HUGE_CURRENT, 1.0) && MinDriverWidth(p, HUGE_CURRENT) <= p.maxWidth
    ensures !StaysInArrays(p, HUGE_CURRENT)
  {
    hide Power, StageEstimate;
    LargePowersOfFour();
    assert Effort(NO_LOAD, NO_LOAD.outputCap) == 1.0;
    LatencyHasStage(1.0, false);
    DriversStayInArrays(p, HUGE_CURRENT, 1.0, 1.0);
    assert MinDriverWidth(p, HUGE_CURRENT) == 549755813888.0;
  }

  class OutputDriver {
    const process: Process
    var initialized: bool
    var invalid: bool
    var numStage: int
    const widthNMOS: array<real>
    const widthPMOS: array<real>

    constructor (p: Process)
      ensures process == p && !initialized && !invalid && Shaped() && fresh(widthNMOS) && fresh(widthPMOS)
    {
      process, initialized, invalid, numStage := p, false, false, 0;
      widthNMOS, widthPMOS := new real[MAX_INV_CHAIN_LEN], new real[MAX_INV_CHAIN_LEN];
    }

    ghost predicate Shaped() {
      widthNMOS != widthPMOS && widthNMOS.Length == widthPMOS.Length == MAX_INV_CHAIN_LEN
    }

    /** Sets a stage from its successor. */
    method SetStage(i: nat, f: real)
      requires Shaped() && i + 1 < MAX_INV_CHAIN_LEN && f > 0.0
      modifies widthNMOS, widthPMOS
      ensures widthNMOS[i] == StageBefore(old(widthNMOS[i + 1]), f, process.minWidth)
      ensures widthPMOS[i] == PmosFor(widthNMOS[i], process.pnSizeRatio)
      ensures forall k :: 0 <= k < MAX_INV_CHAIN_LEN && k != i ==>
        widthNMOS[k] == old(widthNMOS[k]) && widthPMOS[k] == old(widthPMOS[k])
    {
      hide Divided;
      widthNMOS[i] := Divided(widthNMOS[i + 1], f);
      if widthNMOS[i] < process.minWidth {
        widthNMOS[i] := process.minWidth;
      }
      widthPMOS[i] := PmosFor(widthNMOS[i], process.pnSizeRatio);
    }

    /** Narrows the stages from the last one back to the first. */
    method FillChain(n: nat, f: real)
      requires Shaped() && 1 <= n <= MAX_INV_CHAIN_LEN && f > 0.0
      modifies widthNMOS, widthPMOS
      ensures widthNMOS[n - 1] == old(widthNMOS[n - 1])
      ensures forall i :: 0 <= i < n ==> widthNMOS[i] == Taper(widthNMOS[n - 1], f, process.minWidth, n - 1 - i)
      ensures forall i :: 0 <= i < n ==> widthPMOS[i] == PmosFor(widthNMOS[i], process.pnSizeRatio)
    {
      hide StageBefore, PmosFor;
      ghost var last := widthNMOS[n - 1];
      widthPMOS[n - 1] := PmosFor(widthNMOS[n - 1], process.pnSizeRatio);
      var i := n - 2;
      while i >= 0
        invariant -1 <= i <= n - 2
        invariant widthNMOS[n - 1] == last
        invariant forall k :: i < k < n ==> widthNMOS[k] == Taper(last, f, process.minWidth, n - 1 - k)
        invariant forall k :: i < k < n ==> widthPMOS[k] == PmosFor(widthNMOS[k], process.pnSizeRatio)
      {
        SetStage(i, f);
        assert n - 1 - i - 1 == n - 1 - (i + 1);
        i := i - 1;
      }
    }

    /** The arrays hold a chain. */
    ghost predicate Holds(c: Chain)
      reads this, widthNMOS, widthPMOS
      requires Shaped()
    {
      && numStage == c.stages <= MAX_INV_CHAIN_LEN && c.effort > 0.0
      && widthNMOS[..numStage] == Widths(c, process.minWidth)
      && forall i :: 0 <= i < numStage ==> widthPMOS[i] == PmosFor(widthNMOS[i], process.pnSizeRatio)
    }

    /** The chain chosen when latency comes first, unless its last stage is too weak for the load current. */
    method SizeForLatency(d: Demand, minNMOSDriverWidth: real) returns (tooWeak: bool)
      requires Shaped() && Sound(process) && SoundDemand(d)
      requires minNMOSDriverWidth == MinDriverWidth(process, d) <= process.maxWidth
      requires LatencyStages(Effort(d, d.outputCap), d.inv) >= 1
      modifies this`numStage, widthNMOS, widthPMOS
      ensures tooWeak <==> TooWeak(process, d)
      ensures !tooWeak ==> Holds(LatencyChain(process, d))
    {
      hide Divided, PmosFor, LatencyStages, StageBefore, LastStageCap, ClampedEffort, Effort, Taper;
      var F := Effort(d, d.outputCap);
      var optimalNumStage := LatencyStages(F, d.inv);
      if optimalNumStage > MAX_INV_CHAIN_LEN {
        optimalNumStage := MAX_INV_CHAIN_LEN;
      }
      numStage := optimalNumStage;
      var f := process.root(F, optimalNumStage + 1);
      var inputCapLast := Divided(d.outputCap, f);
      var width := Divided(Divided(inputCapLast, process.gateCap(1.0)), 1.0 + process.pnSizeRatio);
      width := MaxReal(process.minWidth, width);
      if width > process.maxWidth {
        width := process.maxWidth;
        F := ClampedEffort(process, d);
        RelativeEffort(process, d);
        f := process.root(F, optimalNumStage);
      }
      widthNMOS[optimalNumStage - 1] := width;
      tooWeak := width < minNMOSDriverWidth;
      if !tooWeak {
        FillChain(optimalNumStage, f);
      }
    }

    /** The chain that ends in the narrowest last stage that still drives the load current. */
    method SizeForTradeOff(d: Demand, minNMOSDriverWidth: real)
      requires Shaped() && Sound(process) && SoundDemand(d)
      requires minNMOSDriverWidth == MinDriverWidth(process, d) <= process.maxWidth
      requires TradeOffChain(process, d).stages <= MAX_INV_CHAIN_LEN
      modifies this`numStage, widthNMOS, widthPMOS
      ensures Holds(TradeOffChain(process, d))
    {
      hide PmosFor, TradeOffStages, StageBefore, TradeOffLoad, Effort, Taper;
      var newOutputCap := TradeOffLoad(process, d);
      var F := Effort(d, newOutputCap);
      var optimalNumStage := TradeOffStages(F, d.inv);
      numStage := optimalNumStage + 1;
      widthNMOS[optimalNumStage] := minNMOSDriverWidth;
      var f := process.root(F, optimalNumStage + 1);
      FillChain(optimalNumStage + 1, f);
    }

    /**
     * Invalid for good if no width of the process carries the load current; otherwise the
     * arrays hold the chosen chain.
     */
    method Initialize(d: Demand)
      requires Shaped() && Sound(process) && SoundDemand(d)
      requires MinDriverWidth(process, d) <= process.maxWidth ==> StaysInArrays(process, d)
      modifies this, widthNMOS, widthPMOS
      ensures invalid <==> old(invalid) || MinDriverWidth(process, d) > process.maxWidth
      ensures MinDriverWidth(process, d) <= process.maxWidth ==> initialized && Holds(ChosenChain(process, d))
    {
      hide PmosFor, StageBefore, LastStageCap, Effort, StageEstimate, TradeOffLoad, LatencyChain, TradeOffChain, Taper;
      var minNMOSDriverWidth := MaxReal(process.minWidth, d.minDriverCurrent / process.onCurrent);
      if minNMOSDriverWidth > process.maxWidth {
        invalid := true;
        return;
      }
      var target := d.target;
      if target == LatencyFirst {
        var tooWeak := SizeForLatency(d, minNMOSDriverWidth);
        if tooWeak {
          target := LatencyAreaTradeOff;
        }
      }
      if target == LatencyAreaTradeOff {
        SizeForTradeOff(d, minNMOSDriverWidth);
      } else if target == AreaFirst {
        numStage := 1;
        widthNMOS[0] := MaxReal(process.minWidth, minNMOSDriverWidth);
        // The source tests the width against AREA_OPT_CONSTRAIN, which is one, times the maximum again.
        assert widthNMOS[0] <= process.maxWidth;
        widthPMOS[0] := PmosFor(widthNMOS[0], process.pnSizeRatio);
        OneStageTaper(widthNMOS[0], process.minWidth);
      }
      initialized := true;
    }
  }

  lemma OneStageTaper(w: real, minWidth: real)
    ensures Widths(Chain(1, w, 1.0), minWidth) == [w]
  {
    assert Taper(w, 1.0, minWidth, 0) == w;
  }
}
