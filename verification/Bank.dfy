/** What a bank asks of each of its mats, for the two routing styles. */
module Banks {
  import opened Organisation
  import opened PowersOfTwo
  import opened Mats
  import opened Htrees

  function PositiveRatio(a: real, b: real): (q: real)
    requires a > 0.0 && b > 0.0
    ensures q > 0.0
  {
    a / b
  }

  /** Sets in the bank as the program divides them out, in floating point. */
  function SetRatio(c: BankConfig): (r: real)
    requires c.Positive()
    ensures r > 0.0
  {
    PositiveRatio(PositiveRatio(c.capacity as real, c.blockSize as real), c.associativity as real)
  }

  function BankAddressBits(c: BankConfig): int
    requires c.Positive()
  {
    LogRound(SetRatio(c))
  }

  /** The multiplexing that picks one of several ways stored in a row. */
  function WayMux(waysPerRow: nat, tech: Technology): Mux {
    if waysPerRow <= 1 then Mux(1, 1, 1)
    else
      var log := LogRound(waysPerRow as real);
      WayMuxLog(waysPerRow, tech);
      if tech.IsDram() then
        var lev2 := Pow2(log / 2);
        Mux(1, waysPerRow / lev2, lev2)
      else
        var lev2 := Pow2(log / 3);
        Mux(waysPerRow / lev2 / lev2, lev2, lev2)
  }

  lemma WayMuxLog(waysPerRow: nat, tech: Technology)
    requires waysPerRow > 1
    ensures LogRound(waysPerRow as real) >= FloorLog2(waysPerRow) >= 1
  {
    LogRoundAtLeastFloor(waysPerRow);
  }

  function Widened(m: Mux, extra: Mux): Mux {
    Mux(m.senseAmp * extra.senseAmp, m.outputLev1 * extra.outputLev1, m.outputLev2 * extra.outputLev2)
  }

  /** The mat a bank needs for the bits that reach it, unless the ways cannot be laid out. */
  function MatFor(c: BankConfig, tech: Technology, addressBits: int, dataBits: int, ways: int): Option<MatConfig>
    requires c.Positive()
  {
    match c.memoryType
    case Data =>
      if c.numRowPerSet > ways then None
      else
        Some(MatConfig(c.subarrays.Clamped(), addressBits, dataBits, ways, c.numRowPerSet,
                       Widened(c.mux, WayMux(ways / c.numRowPerSet, tech)),
                       c.internalSenseAmp, c.areaOptimizationLevel, c.memoryType))
    case Tag =>
      if c.numRowPerSet > 1 || ways < 1 then None
      else
        Some(MatConfig(c.subarrays.Clamped(), addressBits, dataBits, ways, c.numRowPerSet, c.mux,
                       c.internalSenseAmp, c.areaOptimizationLevel, c.memoryType))
  }

  /** When the ways can be laid out, and what else is asked of the mat. */
  lemma MatForExactly(c: BankConfig, tech: Technology, addressBits: int, dataBits: int, ways: int)
    requires c.Positive()
    ensures var m := MatFor(c, tech, addressBits, dataBits, ways);
      && (c.memoryType == Data ==> (m.Some? <==> c.numRowPerSet <= ways))
      && (c.memoryType == Tag ==> (m.Some? <==> c.numRowPerSet == 1 && ways >= 1))
      && (m.Some? ==>
            && (c.memoryType == Tag || ways / c.numRowPerSet == 1 ==> m.value.mux == c.mux)
            && m.value.subarrays == c.subarrays.Clamped() == m.value.subarrays.Clamped()
            && m.value.numAddressBit == addressBits
            && m.value.numDataBit == dataBits && m.value.numWay == ways && m.value.numRowPerSet == c.numRowPerSet
            && m.value.internalSenseAmp == c.internalSenseAmp && m.value.memoryType == c.memoryType
            && m.value.areaOptimizationLevel == c.areaOptimizationLevel)
  {
  }

  /** Assigns the ways of a set to rows and, beyond those, to extra multiplexing. */
  method LayOutWays(c: BankConfig, tech: Technology, addressBits: int, dataBits: int, numWay: int)
    returns (m: Option<MatConfig>)
    requires c.Positive()
    ensures m == MatFor(c, tech, addressBits, dataBits, numWay)
  {
    hide WayMux, Widened;
    var mux := c.mux;
    if c.memoryType == Data {
      if c.numRowPerSet > numWay {
        return None;
      }
      var numWayPerRow := numWay / c.numRowPerSet;
      OneWayNeedsNoMux(c.mux, numWayPerRow, tech);
      if numWayPerRow > 1 {
        mux := Widened(mux, WayMux(numWayPerRow, tech));
      }
    } else {
      if c.numRowPerSet > 1 {
        return None;
      }
      if numWay < 1 {
        return None;
      }
    }
    m := Some(MatConfig(c.subarrays.Clamped(), addressBits, dataBits, numWay, c.numRowPerSet, mux,
                        c.internalSenseAmp, c.areaOptimizationLevel, c.memoryType));
  }

  lemma OneWayNeedsNoMux(m: Mux, waysPerRow: nat, tech: Technology)
    ensures waysPerRow <= 1 ==> Widened(m, WayMux(waysPerRow, tech)) == m
  {
  }

  // ---- without an H-tree ----

  /** External sensing is refused for DRAM cells and for repeated global wires. */
  predicate SensingAllowed(c: BankConfig, tech: Technology, globalWire: Wire) {
    c.internalSenseAmp || (!tech.IsDram() && globalWire.repeaterType == REPEATED_NONE)
  }

  /** Each mat gets its share of the distributed bits at once. */
  function DirectMat(c: BankConfig, tech: Technology): Option<MatConfig>
    requires c.Positive()
  {
    var g := c.mats.Clamped();
    ActiveFits(c.mats);
    var share := if c.memoryType == Data then c.blockSize else c.associativity;
    var shared := share / g.activePerColumn / g.activePerRow;
    MatFor(c, tech, BankAddressBits(c) - GatingBits(c.mats),
           if c.memoryType == Data then shared else c.blockSize,
           if c.memoryType == Data then c.associativity else shared)
  }

  // ---- with an H-tree ----

  /** The tree that a configuration asks for. */
  function TreeOf(c: BankConfig): Htree
    requires c.Positive()
  {
    LogRoundAtLeastFloor(c.mats.columns);
    LogRoundAtLeastFloor(c.mats.rows);
    var g := c.mats.Clamped();
    Htree(BankAddressBits(c),
          if c.memoryType == Data then c.blockSize else c.associativity,
          if c.memoryType == Data then FloorLog2(c.associativity) else c.blockSize,
          LogRound(c.mats.columns as real), LogRound(c.mats.rows as real),
          FloorLog2(g.activePerRow), FloorLog2(g.activePerColumn))
  }

  /** What arrives at a mat below all levels of the tree. */
  function TreeMat(c: BankConfig, tech: Technology): Option<MatConfig>
    requires c.Positive()
  {
    var t := TreeOf(c);
    if t.Aborts() then None
    else
      var h, v := t.horizontalLevels, t.verticalLevels;
      MatFor(c, tech, t.Address(h, v),
             if c.memoryType == Data then t.Distribute(h, v) else t.broadcast,
             if c.memoryType == Data then Pow2(t.broadcast) else t.Distribute(h, v))
  }

  // ---- both ----

  datatype RoutingMode = HTree | NonHTree

  function RoutedMat(c: BankConfig, tech: Technology, routing: RoutingMode, globalWire: Wire): Option<MatConfig>
    requires c.Positive()
  {
    match routing
    case HTree => if c.internalSenseAmp then TreeMat(c, tech) else None
    case NonHTree => if SensingAllowed(c, tech, globalWire) then DirectMat(c, tech) else None
  }

  lemma WidenedPositive(m: Mux, waysPerRow: nat, tech: Technology)
    requires m.Positive()
    ensures WayMux(waysPerRow, tech).Positive()
    ensures Widened(m, WayMux(waysPerRow, tech)).Positive()
  {
    if waysPerRow > 1 {
      WayMuxPositive(waysPerRow, tech);
    }
    var x := WayMux(waysPerRow, tech);
    ProductAtLeast(m.senseAmp, x.senseAmp);
    ProductAtLeast(m.outputLev1, x.outputLev1);
    ProductAtLeast(m.outputLev2, x.outputLev2);
  }

  /** Rounding up by a tenth never makes a half or a third of the logarithm too large. */
  lemma WayMuxPositive(waysPerRow: nat, tech: Technology)
    requires waysPerRow > 1
    ensures WayMux(waysPerRow, tech).Positive()
  {
    hide Pow2, LogRound, FloorLog2;
    var l := FloorLog2(waysPerRow);
    WayMuxLog(waysPerRow, tech);
    LogRoundAtMostCeiling(waysPerRow);
    var log := LogRound(waysPerRow as real);
    if tech.IsDram() {
      Pow2LessOrEqual(log / 2, l);
      QuotientPositive(waysPerRow, Pow2(log / 2));
    } else {
      var k := log / 3;
      Pow2LessOrEqual(k + k, l);
      Pow2Add(k, k);
      DivideTwice(waysPerRow, Pow2(k), Pow2(k));
      QuotientPositive(waysPerRow, Pow2(k) * Pow2(k));
    }
  }

  lemma LogRoundAtMostCeiling(x: nat)
    requires x >= 1
    ensures LogRound(x as real) <= FloorLog2(x) + 1
  {
    RoundUpAtMost(x as real, FloorLog2(x) + 1);
  }

  lemma {:induction false} RoundUpAtMost(x: real, k: nat)
    requires 0.0 < x < Pow2(k) as real
    ensures RoundUpLog(x) <= k
    decreases k
  {
    if !(x < 1.5 || Tenth(x) < 512.0) {
      HalfFloor(x);
      RoundUpAtMost(x / 2.0, k - 1);
    }
  }

  lemma RoutedMatPositive(c: BankConfig, tech: Technology, routing: RoutingMode, globalWire: Wire)
    requires c.Positive()
    requires RoutedMat(c, tech, routing, globalWire).Some?
    ensures RoutedMat(c, tech, routing, globalWire).value.Positive()
  {
    ActiveFits(c.mats);
    ActiveFits(c.subarrays);
    var m := RoutedMat(c, tech, routing, globalWire).value;
    if c.memoryType == Data {
      assert m.numWay / c.numRowPerSet >= 1 by { QuotientPositive(m.numWay, c.numRowPerSet); }
      WidenedPositive(c.mux, m.numWay / c.numRowPerSet, tech);
    }
    var g := c.mats.Clamped();
    SharedNonNegative(c.blockSize, g.activePerColumn, g.activePerRow);
  }

  lemma SharedNonNegative(x: nat, a: int, b: int)
    requires a >= 1 && b >= 1
    ensures x / a / b >= 0
  {
    QuotientNonNegative(x, a);
    QuotientNonNegative(x / a, b);
  }

  /** The mat of an initialised bank, or nothing if the bank is invalid. */
  function PlanBank(c: BankConfig, tech: Technology, routing: RoutingMode, localWire: Wire,
                    globalWire: Wire): Option<MatPlan>
    requires c.Positive()
  {
    var m := RoutedMat(c, tech, routing, globalWire);
    if m.None? then None
    else (RoutedMatPositive(c, tech, routing, globalWire); PlanMat(m.value, tech, localWire))
  }
}
