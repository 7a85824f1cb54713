/** The tree and the direct routing agree, and neither loses a cell, an address or a word bit. */
module BankLaws {
  import opened Organisation
  import opened PowersOfTwo
  import opened SubArrays
  import opened Mats
  import opened MatLaws
  import opened Htrees
  import opened HtreeLaws
  import opened Banks

  /** Every count that the search doubles, and the associativity, are powers of two. */
  ghost predicate Pow2Bank(c: BankConfig) {
    && c.Positive()
    && Pow2Grid(c.mats) && Pow2Grid(c.subarrays) && Pow2Mux(c.mux)
    && IsPow2(c.associativity) && IsPow2(c.numRowPerSet)
  }

  // ---- the H-tree walk refines the closed form ----

  /** What leaves a tree over a power-of-two grid of mats is each mat's share. */
  lemma TreeShares(c: BankConfig)
    requires c.Positive() && Pow2Grid(c.mats)
    ensures var t, g := TreeOf(c), c.mats.Clamped();
      && t.Address(t.horizontalLevels, t.verticalLevels) == BankAddressBits(c) - GatingBits(c.mats)
      && t.Distribute(t.horizontalLevels, t.verticalLevels) == t.distribute / g.activePerColumn / g.activePerRow
      && t.columnHalvings <= t.horizontalLevels && t.rowHalvings <= t.verticalLevels
      && g.activePerRow == Pow2(t.columnHalvings) && g.activePerColumn == Pow2(t.rowHalvings)
      && c.mats.columns == Pow2(t.horizontalLevels) && c.mats.rows == Pow2(t.verticalLevels)
  {
    hide LogRound, FloorLog2, SetRatio, Pow2, GatingBits, ShiftRight, Grid.Total, Grid.Active;
    var v, h, a, b := GridEdges(c.mats);
    LogRoundOfPow2(h);
    LogRoundOfPow2(v);
    FloorLog2OfPow2(a);
    FloorLog2OfPow2(b);
    var total, active := GridExponents(c.mats);
    Pow2Injective(total, v + h);
    Pow2Injective(active, a + b);
    ShiftRightTwice(TreeOf(c).distribute, b, a);
  }

  lemma ShiftRightTwice(x: nat, j: nat, k: nat)
    ensures ShiftRight(x, k + j) == x / Pow2(j) / Pow2(k)
  {
    hide Pow2;
    Pow2Add(j, k);
    DivideTwice(x, Pow2(j), Pow2(k));
  }

  /** Once the address is used up, no mat can be laid out. */
  lemma NoAddressNoMat(m: MatConfig, tech: Technology, localWire: Wire)
    requires m.Positive() && m.numAddressBit <= 0
    ensures PlanMat(m, tech, localWire).None?
  {
    hide LogRound, RowsOf, WordColumns;
    GatingNonNegative(m.subarrays);
  }

  lemma GatingNonNegative(g: Grid)
    requires g.Positive()
    ensures GatingBits(g) >= 0
  {
    hide RoundUpLog;
    ActiveFits(g);
  }

  /** Nor without a data bit. */
  lemma NoDataNoMat(m: MatConfig, tech: Technology, localWire: Wire)
    requires m.Positive() && m.numDataBit == 0
    ensures PlanMat(m, tech, localWire).None?
  {
    hide LogRound, RowsOf, GatingBits;
    ActiveFits(m.subarrays);
    MuxProductPositive(m.mux);
    assert WordColumns(m) == 0;
  }

  /**
   * The level-by-level walk gives every mat what the closed form gives it, and rejects
   * only configurations that the closed form's mat rejects as well.
   */
  lemma TreeRefinesDirect(c: BankConfig, tech: Technology, localWire: Wire, globalWire: Wire)
    requires c.Positive() && Pow2Grid(c.mats) && c.internalSenseAmp
    requires c.memoryType == Data ==> IsPow2(c.associativity)
    ensures PlanBank(c, tech, HTree, localWire, globalWire) == PlanBank(c, tech, NonHTree, localWire, globalWire)
    ensures !TreeOf(c).Aborts() ==> TreeMat(c, tech) == DirectMat(c, tech)
  {
    hide LogRound, SetRatio, ShiftRight, GatingBits, PlanMat, WayMux, Widened, Pow2;
    TreeShares(c);
    if c.memoryType == Data {
      var w: nat :| c.associativity == Pow2(w);
      FloorLog2OfPow2(w);
    }
    var t, direct := TreeOf(c), DirectMat(c, tech);
    if t.Aborts() && direct.Some? {
      RoutedMatPositive(c, tech, NonHTree, globalWire);
      if t.address >= 0 && t.Address(t.InnerColumns(), t.verticalLevels) <= 0 {
        NoAddressNoMat(direct.value, tech, localWire);
      } else {
        ShiftRightStaysZero(t.distribute, t.Halvings(t.InnerColumns(), t.verticalLevels),
                            t.Halvings(t.horizontalLevels, t.verticalLevels));
        NoDataNoMat(direct.value, tech, localWire);
      }
    }
  }

  // ---- ways and multiplexers ----

  /**
   * The extra multiplexing selects exactly one of the ways, in steps as even as they can be;
   * DRAM bitlines stay unshared.
   */
  lemma WayMuxFactors(k: nat, tech: Technology)
    ensures WayMux(Pow2(k), tech).Product() == Pow2(k)
    ensures Pow2Mux(WayMux(Pow2(k), tech))
    ensures var x := WayMux(Pow2(k), tech);
      if tech.IsDram() then x.senseAmp == 1 && x.outputLev2 <= x.outputLev1 <= 2 * x.outputLev2
      else x.outputLev1 == x.outputLev2 <= x.senseAmp <= 4 * x.outputLev2
  {
    hide Pow2, LogRound;
    LogRoundOfPow2(k);
    OneIsPow2();
    if k == 0 {
      assert WayMux(Pow2(k), tech) == Mux(1, 1, 1);
    } else {
      Pow2LessOrEqual(1, k);
      assert IsPow2(Pow2(k / 2)) && IsPow2(Pow2(k / 3));
      if tech.IsDram() {
        WayMuxDram(k);
      } else {
        WayMuxOthers(k);
      }
    }
  }

  lemma OneIsPow2()
    ensures Pow2(0) == 1 && Pow2(1) == 2 && IsPow2(1)
  {
    assert Pow2(1) == 2 * Pow2(0);
  }

  lemma NextPowers(j: nat)
    ensures Pow2(j + 1) == 2 * Pow2(j) && Pow2(j + 2) == 4 * Pow2(j)
  {
    assert Pow2(j + 2) == 2 * Pow2(j + 1);
  }

  lemma WayMuxDram(k: nat)
    ensures IsPow2(Pow2(k) / Pow2(k / 2)) && 1 * (Pow2(k) / Pow2(k / 2)) * Pow2(k / 2) == Pow2(k)
    ensures Pow2(k / 2) <= Pow2(k) / Pow2(k / 2) <= 2 * Pow2(k / 2)
  {
    hide Pow2;
    NextPowers(k / 2);
    Pow2LessOrEqual(k / 2, k - k / 2);
    Pow2LessOrEqual(k - k / 2, k / 2 + 1);
    Pow2Quotient(k, k / 2);
    Pow2Add(k - k / 2, k / 2);
  }

  lemma WayMuxOthers(k: nat)
    ensures var third := Pow2(k / 3);
      && IsPow2(Pow2(k) / third / third) && Pow2(k) / third / third * third * third == Pow2(k)
      && third <= Pow2(k) / third / third <= 4 * third
  {
    hide Pow2;
    var j := k / 3;
    NextPowers(j);
    Pow2LessOrEqual(j, k - j - j);
    Pow2LessOrEqual(k - j - j, j + 2);
    Pow2Quotient(k, j);
    Pow2Quotient(k - j, j);
    Pow2Add(k - j - j, j);
    Pow2Add(k - j, j);
  }

  /** The multiplexers of a data mat with 2^k ways in a row: DRAM leaves its bitlines alone, others split three ways. */
  lemma MuxOfWays(c: BankConfig, tech: Technology, addressBits: int, dataBits: int, ways: int, k: nat)
    requires c.Positive() && c.memoryType == Data && ways / c.numRowPerSet == Pow2(k)
    requires MatFor(c, tech, addressBits, dataBits, ways).Some?
    ensures var m := MatFor(c, tech, addressBits, dataBits, ways).value.mux;
      if tech.cell == DRAM || tech.cell == EDRAM then
        && m.senseAmp == c.mux.senseAmp
        && m.outputLev1 == c.mux.outputLev1 * Pow2(k - k / 2)
        && m.outputLev2 == c.mux.outputLev2 * Pow2(k / 2)
      else
        && m.senseAmp == c.mux.senseAmp * Pow2(k - 2 * (k / 3))
        && m.outputLev1 == c.mux.outputLev1 * Pow2(k / 3)
        && m.outputLev2 == c.mux.outputLev2 * Pow2(k / 3)
  {
    hide Pow2, LogRound;
    LogRoundOfPow2(k);
    OneIsPow2();
    if k > 0 {
      Pow2LessOrEqual(1, k);
      Pow2Quotient(k, k / 2);
      Pow2Quotient(k, k / 3);
      Pow2Quotient(k - k / 3, k / 3);
    }
  }

  /** External sensing needs a bank without H-tree, cells other than DRAM, and global wires without repeaters. */
  lemma SensingExactly(c: BankConfig, tech: Technology, localWire: Wire, globalWire: Wire)
    requires c.Positive()
    ensures !c.internalSenseAmp ==> PlanBank(c, tech, HTree, localWire, globalWire).None?
    ensures !c.internalSenseAmp && (tech.cell == DRAM || tech.cell == EDRAM || globalWire.repeaterType != REPEATED_NONE)
      ==> PlanBank(c, tech, NonHTree, localWire, globalWire).None?
    ensures c.internalSenseAmp
            || (tech.cell != DRAM && tech.cell != EDRAM && globalWire.repeaterType == REPEATED_NONE)
      ==> RoutedMat(c, tech, NonHTree, globalWire) == DirectMat(c, tech)
  {
    hide DirectMat, TreeMat, PlanMat;
  }

  /** The subarrays of a valid bank are legal at their size, with the mat's multiplexers and the local wires. */
  lemma SubArraysAreLegal(c: BankConfig, tech: Technology, routing: RoutingMode, localWire: Wire, globalWire: Wire)
    requires c.Positive() && PlanBank(c, tech, routing, localWire, globalWire).Some?
    ensures RoutedMat(c, tech, routing, globalWire).Some?
    ensures var p, m := PlanBank(c, tech, routing, localWire, globalWire).value,
      RoutedMat(c, tech, routing, globalWire).value;
      Legal(SubArrayConfig(p.numRow, p.numColumn, c.numRowPerSet > 1, m.mux, c.internalSenseAmp,
                           c.areaOptimizationLevel),
            tech, localWire)
  {
    hide LogRound, RowsOf, WordColumns, GatingBits, WayMux, Widened, Mux.Product, Legal, SetRatio,
      BankAddressBits, Htree.Aborts, Htree.Address, Htree.Distribute, TreeOf, Pow2;
    RoutedMatPositive(c, tech, routing, globalWire);
    ActiveFits(c.mats);
  }

  /** A data mat still multiplexes by powers of two after its ways have been folded in. */
  lemma MatOfPow2(c: BankConfig, tech: Technology, addressBits: int, dataBits: int, ways: int)
    requires Pow2Bank(c) && (c.memoryType == Data ==> IsPow2(ways))
    requires MatFor(c, tech, addressBits, dataBits, ways).Some?
    ensures var m := MatFor(c, tech, addressBits, dataBits, ways).value;
      && Pow2Grid(m.subarrays) && Pow2Mux(m.mux)
      && m.subarrays.Clamped() == m.subarrays == c.subarrays.Clamped()
      && (c.memoryType == Data ==>
            m.mux.Product() * c.numRowPerSet == c.mux.Product() * ways)
  {
    hide Pow2, WayMux, Widened, Mux.Product;
    MatForExactly(c, tech, addressBits, dataBits, ways);
    if c.memoryType == Data {
      var w: nat :| ways == Pow2(w);
      var r: nat :| c.numRowPerSet == Pow2(r);
      Pow2LessOrEqual(r, w);
      Pow2Quotient(w, r);
      Pow2Add(w - r, r);
      WayMuxFactors(w - r, tech);
      WidenedPow2(c.mux, WayMux(Pow2(w - r), tech));
      WidenedProduct(c.mux, WayMux(Pow2(w - r), tech));
      assert c.mux.Product() * Pow2(w - r) * Pow2(r) == c.mux.Product() * (Pow2(w - r) * Pow2(r));
    }
  }

  lemma WidenedPow2(m: Mux, x: Mux)
    requires Pow2Mux(m) && Pow2Mux(x)
    ensures Pow2Mux(Widened(m, x))
  {
    ProductPow2(m.senseAmp, x.senseAmp);
    ProductPow2(m.outputLev1, x.outputLev1);
    ProductPow2(m.outputLev2, x.outputLev2);
  }

  lemma ProductPow2(x: int, y: int)
    requires IsPow2(x) && IsPow2(y)
    ensures IsPow2(x * y)
  {
    hide Pow2;
    var a: nat :| x == Pow2(a);
    var b: nat :| y == Pow2(b);
    Pow2Add(a, b);
  }

  lemma WidenedProduct(m: Mux, x: Mux)
    ensures Widened(m, x).Product() == m.Product() * x.Product()
  {
    RegroupSix(m.senseAmp, x.senseAmp, m.outputLev1, x.outputLev1, m.outputLev2, x.outputLev2);
  }

  lemma RegroupSix(a: int, x: int, b: int, y: int, c: int, z: int)
    ensures (a * x) * (b * y) * (c * z) == (a * b * c) * (x * y * z)
  {
    assert (a * x) * (b * y) == (a * b) * (x * y);
    RegroupFour(a * b, x * y, c, z);
  }

  lemma RegroupFour(a: int, x: int, c: int, z: int)
    ensures (a * x) * (c * z) == (a * c) * (x * z)
  {
  }

  // ---- capacity ----

  /** The cells that the program multiplies out to compare with the requested capacity. */
  function BankCells(c: BankConfig, p: MatPlan): int {
    Cells(p.numRow, p.numColumn, c.subarrays) * c.mats.Total()
  }

  /** How many ways a word is cut: a data word over active mats and subarrays, a tag over subarrays. */
  function Sharers(c: BankConfig): int {
    c.subarrays.Clamped().Active() * (if c.memoryType == Data then c.mats.Clamped().Active() else 1)
  }

  /** Cells for every set and way of the largest word that can be cut evenly. */
  function EvenCells(c: BankConfig): int
    requires c.Positive() && BankAddressBits(c) >= 0 && Sharers(c) > 0
  {
    Pow2(BankAddressBits(c)) * c.associativity * WholePart(c.blockSize, Sharers(c))
  }

  /** Cutting a word in two steps loses what cutting it at once loses. */
  lemma WholePartTwice(x: nat, a: nat, b: nat)
    requires a > 0 && b > 0
    ensures a * b > 0
    ensures a * WholePart(x / a, b) == WholePart(x, b * a)
  {
    DivideTwice(x, a, b);
    var q := x / (a * b);
    assert a * b == b * a;
    assert WholePart(x / a, b) == q * b;
    assert WholePart(x, b * a) == q * (b * a);
    assert a * (q * b) == q * (b * a);
  }

  /** A data mat's share times the mats that are active together. */
  lemma DataCells(n: nat, total: nat, active: nat, assoc: nat, bs: nat, s: nat)
    requires active <= total && total - active <= n && s > 0
    ensures Pow2(active) * s > 0 && s * Pow2(active) > 0
    ensures Pow2(n - (total - active)) * assoc * WholePart(bs / Pow2(active), s) * Pow2(total)
      == Pow2(n) * assoc * WholePart(bs, s * Pow2(active))
  {
    hide Pow2, WholePart;
    var x, a := n - (total - active), Pow2(active);
    WholePartTwice(bs, a, s);
    Pow2Add(x, total);
    Pow2Add(n, active);
    var w := WholePart(bs / a, s);
    assert Pow2(x) * Pow2(total) == Pow2(n) * a;
    Regroup(Pow2(x), assoc, w, Pow2(total));
    Regroup(Pow2(n), assoc, w, a);
    assert Pow2(n) * assoc * (w * a) == Pow2(n) * assoc * (a * w);
  }

  lemma Regroup(x: int, y: int, w: int, z: int)
    ensures x * y * w * z == (x * z) * y * w == x * y * (w * z)
  {
  }

  /** The ways of a tag mat times the mats that are active together. */
  lemma TagCells(n: nat, total: nat, active: nat, w: nat, word: int)
    requires active <= total && total - active <= n && active <= w
    ensures Pow2(n - (total - active)) * Pow2(w - active) * word * Pow2(total) == Pow2(n) * Pow2(w) * word
  {
    hide Pow2;
    var x := n - (total - active);
    Pow2Add(x, total);
    Pow2Add(n, active);
    Pow2Add(w - active, active);
    var y := Pow2(w - active);
    Regroup(Pow2(x), y, word, Pow2(total));
    assert Pow2(x) * Pow2(total) == Pow2(n) * Pow2(active);
    assert (Pow2(n) * Pow2(active)) * y * word == Pow2(n) * (y * Pow2(active)) * word;
  }

  /** The shares of a directly routed bank multiply back to the whole bank. */
  lemma DirectCells(c: BankConfig, tech: Technology)
    requires Pow2Bank(c)
    requires DirectMat(c, tech).Some? && DirectMat(c, tech).value.numAddressBit > 0
    ensures BankAddressBits(c) > 0 && Sharers(c) > 0
    ensures var m := DirectMat(c, tech).value;
      m.subarrays.Clamped().Active() > 0 && AddressedCells(m) * c.mats.Total() == EvenCells(c)
  {
    hide LogRound, SetRatio, GatingBits, WayMux, Widened, Pow2, WholePart, Grid.Total, Grid.Active, ShiftRight,
      FloorLog2;
    var m := DirectMat(c, tech).value;
    TreeShares(c);
    ActiveFits(c.subarrays);
    var total, active := GridExponents(c.mats);
    var v, h, a, b := GridEdges(c.mats);
    Pow2Injective(active, a + b);
    var n, s := BankAddressBits(c), c.subarrays.Clamped().Active();
    assert m.subarrays.Clamped() == c.subarrays.Clamped();
    if c.memoryType == Data {
      ShareOf(c.blockSize, b, a);
      DataCells(n, total, active, c.associativity, c.blockSize, s);
    } else {
      var w: nat :| c.associativity == Pow2(w);
      ShareOf(c.associativity, b, a);
      Pow2QuotientIsZero(w, active);
      Pow2Quotient(w, active);
      TagCells(n, total, active, w, WholePart(c.blockSize, s));
    }
  }

  lemma ShareOf(x: nat, b: nat, a: nat)
    ensures x / Pow2(b) / Pow2(a) == x / Pow2(a + b)
  {
    hide Pow2;
    Pow2Add(b, a);
    DivideTwice(x, Pow2(b), Pow2(a));
  }

  lemma DirectBankKeepsEveryCell(c: BankConfig, tech: Technology, localWire: Wire, globalWire: Wire)
    requires Pow2Bank(c)
    requires PlanBank(c, tech, NonHTree, localWire, globalWire).Some?
    ensures BankAddressBits(c) > 0 && Sharers(c) > 0
    ensures BankCells(c, PlanBank(c, tech, NonHTree, localWire, globalWire).value) == EvenCells(c)
  {
    hide LogRound, SetRatio, GatingBits, PlanMat, WayMux, Widened, Pow2, Cells, Grid.Total, Grid.Active,
      WholePart, Sharers, EvenCells, AddressedCells;
    var m := DirectMat(c, tech).value;
    RoutedMatPositive(c, tech, NonHTree, globalWire);
    var g := c.mats.Clamped();
    MatOfPow2(c, tech, m.numAddressBit, m.numDataBit, m.numWay);
    MatKeepsEveryCell(m, tech, localWire);
    DirectCells(c, tech);
    SameTotal(c.subarrays);
    var p := PlanMat(m, tech, localWire).value;
    SameCells(p.numRow, p.numColumn, c.subarrays);
  }

  lemma SameTotal(g: Grid)
    ensures g.Clamped().Total() == g.Total()
  {
  }

  lemma SameCells(numRow: int, numColumn: int, g: Grid)
    ensures Cells(numRow, numColumn, g.Clamped()) == Cells(numRow, numColumn, g)
  {
    SameTotal(g);
  }

  /** A valid bank, however it is routed, has exactly the cells of its evenly cut words. */
  lemma BankKeepsEveryCell(c: BankConfig, tech: Technology, routing: RoutingMode, localWire: Wire, globalWire: Wire)
    requires Pow2Bank(c)
    requires PlanBank(c, tech, routing, localWire, globalWire).Some?
    ensures BankAddressBits(c) > 0 && Sharers(c) > 0
    ensures BankCells(c, PlanBank(c, tech, routing, localWire, globalWire).value) == EvenCells(c)
  {
    hide LogRound, SetRatio, GatingBits, PlanMat, DirectMat, TreeMat, Sharers, EvenCells, BankCells, BankAddressBits;
    if routing == HTree {
      TreeRefinesDirect(c, tech, localWire, globalWire);
    }
    DirectBankKeepsEveryCell(c, tech, localWire, globalWire);
  }

  /** The sets asked for are a power of two. */
  ghost predicate Pow2Sets(c: BankConfig) {
    exists k: nat :: c.capacity == Pow2(k) * c.blockSize * c.associativity
  }

  lemma AddressBitsOfSets(c: BankConfig, k: nat)
    requires c.Positive() && c.capacity == Pow2(k) * c.blockSize * c.associativity
    ensures BankAddressBits(c) == k
  {
    hide LogRound, Pow2;
    LogRoundOfRatio(c.capacity, c.blockSize, c.associativity, k);
  }

  /**
   * For a power-of-two number of sets, a valid bank has the requested capacity exactly when
   * the word can be cut evenly among everything that is active together.
   */
  lemma CapacityConserved(c: BankConfig, tech: Technology, routing: RoutingMode, localWire: Wire, globalWire: Wire)
    requires Pow2Bank(c) && Pow2Sets(c)
    requires PlanBank(c, tech, routing, localWire, globalWire).Some?
    ensures Sharers(c) > 0
    ensures BankCells(c, PlanBank(c, tech, routing, localWire, globalWire).value) == c.capacity
      <==> c.blockSize % Sharers(c) == 0
  {
    hide Pow2, PlanBank, Sharers, BankCells, BankAddressBits;
    var k: nat :| c.capacity == Pow2(k) * c.blockSize * c.associativity;
    BankKeepsEveryCell(c, tech, routing, localWire, globalWire);
    AddressBitsOfSets(c, k);
    var sets, r := Pow2(k) * c.associativity, c.blockSize % Sharers(c);
    ProductAtLeast(Pow2(k), c.associativity);
    assert EvenCells(c) == sets * (c.blockSize - r);
    assert c.capacity == sets * c.blockSize by { Reorder(Pow2(k), c.blockSize, c.associativity); }
    assert sets * c.blockSize - sets * (c.blockSize - r) == sets * r;
    if r > 0 {
      ProductAtLeast(sets, r);
    }
  }

  /** For a word that is cut evenly, the capacity is kept exactly when the sets are a power of two. */
  lemma CapacityNeedsPow2Sets(c: BankConfig, tech: Technology, routing: RoutingMode, localWire: Wire, globalWire: Wire)
    requires Pow2Bank(c)
    requires PlanBank(c, tech, routing, localWire, globalWire).Some?
    requires Sharers(c) > 0 && c.blockSize % Sharers(c) == 0
    ensures BankCells(c, PlanBank(c, tech, routing, localWire, globalWire).value) == c.capacity <==> Pow2Sets(c)
  {
    hide Pow2, PlanBank, Sharers, BankCells, BankAddressBits;
    BankKeepsEveryCell(c, tech, routing, localWire, globalWire);
    var n := BankAddressBits(c);
    Reorder(Pow2(n), c.blockSize, c.associativity);
    if Pow2Sets(c) {
      CapacityConserved(c, tech, routing, localWire, globalWire);
    }
  }

  /**
   * The columns that survive all multiplexers, over everything that is active together, are
   * the evenly cut word, once for data and once for every way of a tag.
   */
  lemma DeliveredWidth(c: BankConfig, tech: Technology, routing: RoutingMode, localWire: Wire, globalWire: Wire)
    requires c.Positive() && Pow2Grid(c.mats) && IsPow2(c.associativity)
    requires PlanBank(c, tech, routing, localWire, globalWire).Some?
    ensures Sharers(c) > 0
    ensures var p := PlanBank(c, tech, routing, localWire, globalWire).value;
      p.columnsAfterLev2 * c.subarrays.Clamped().Active() * c.mats.Clamped().Active()
      == WholePart(c.blockSize, Sharers(c)) * (if c.memoryType == Tag then c.associativity else 1)
  {
    hide LogRound, SetRatio, GatingBits, PlanMat, WayMux, Widened, Pow2, Grid.Total, Grid.Active, Grid.Clamped,
      WholePart, Sharers, TreeMat, MatFor, BankAddressBits;
    if routing == HTree {
      TreeRefinesDirect(c, tech, localWire, globalWire);
    }
    var m := DirectMat(c, tech).value;
    RoutedMatPositive(c, tech, NonHTree, globalWire);
    MatDeliversWord(m, tech, localWire);
    DirectWidth(c, tech, PlanMat(m, tech, localWire).value.columnsAfterLev2);
  }

  lemma DirectWidth(c: BankConfig, tech: Technology, columns: int)
    requires c.Positive() && Pow2Grid(c.mats) && IsPow2(c.associativity) && DirectMat(c, tech).Some?
    requires var m := DirectMat(c, tech).value;
      var s := m.subarrays.Clamped().Active();
      s > 0 && columns * s == WholePart(m.numDataBit, s) * (if m.memoryType == Tag then m.numWay else 1)
    ensures Sharers(c) > 0
    ensures columns * c.subarrays.Clamped().Active() * c.mats.Clamped().Active()
      == WholePart(c.blockSize, Sharers(c)) * (if c.memoryType == Tag then c.associativity else 1)
  {
    hide LogRound, SetRatio, GatingBits, WayMux, Widened, Pow2, WholePart, Grid.Total, Grid.Active, BankAddressBits;
    var m := DirectMat(c, tech).value;
    var v, h, a, b := GridEdges(c.mats);
    var s := c.subarrays.Clamped().Active();
    assert m.subarrays.Clamped() == c.subarrays.Clamped();
    if c.memoryType == Data {
      ShareOf(c.blockSize, b, a);
      DataWidth(columns, s, a + b, c.blockSize);
    } else {
      var w: nat :| c.associativity == Pow2(w);
      ShareOf(c.associativity, b, a);
      Pow2QuotientIsZero(w, a + b);
      TagWidth(columns, s, a + b, w, WholePart(c.blockSize, s));
    }
  }

  lemma DataWidth(columns: int, s: int, active: nat, bs: nat)
    requires s > 0 && columns * s == WholePart(bs / Pow2(active), s)
    ensures s * Pow2(active) > 0 && columns * s * Pow2(active) == WholePart(bs, s * Pow2(active))
  {
    hide Pow2, WholePart;
    WholePartTwice(bs, Pow2(active), s);
  }

  lemma TagWidth(columns: int, s: int, active: nat, w: nat, word: int)
    requires active <= w && columns * s == word * (Pow2(w) / Pow2(active))
    ensures columns * s * Pow2(active) == word * Pow2(w)
  {
    hide Pow2;
    Pow2Quotient(w, active);
    Pow2Add(w - active, active);
    Associate(word, Pow2(w - active), Pow2(active));
  }

  lemma Associate(x: int, y: int, z: int)
    ensures x * y * z == x * (y * z)
  {
  }

  /** Initialising again from the stored fields of a valid bank gives the same bank. */
  lemma Reinitialised(c: BankConfig, tech: Technology, routing: RoutingMode, localWire: Wire, globalWire: Wire)
    requires c.Positive()
    ensures c.Stored().Positive() && c.Stored().Stored() == c.Stored()
    ensures var s := c.Stored();
      && s.(mats := c.mats, subarrays := c.subarrays) == c
      && s.mats.rows == c.mats.rows && s.mats.columns == c.mats.columns
      && s.mats.activePerRow == Min(c.mats.activePerRow, c.mats.columns)
      && s.mats.activePerColumn == Min(c.mats.activePerColumn, c.mats.rows)
      && s.subarrays.rows == c.subarrays.rows && s.subarrays.columns == c.subarrays.columns
      && s.subarrays.activePerRow == Min(c.subarrays.activePerRow, c.subarrays.columns)
      && s.subarrays.activePerColumn == Min(c.subarrays.activePerColumn, c.subarrays.rows)
    ensures RoutedMat(c.Stored(), tech, routing, globalWire) == RoutedMat(c, tech, routing, globalWire)
    ensures PlanBank(c.Stored(), tech, routing, localWire, globalWire)
      == PlanBank(c, tech, routing, localWire, globalWire)
  {
    hide LogRound, FloorLog2, WayMux, Widened, PlanMat, Htree.Aborts, Htree.Address, Htree.Distribute, Pow2;
    ActiveFits(c.mats);
    ActiveFits(c.subarrays);
    var s := c.Stored();
    assert s.mats.Clamped() == c.mats.Clamped() && s.subarrays.Clamped() == c.subarrays.Clamped();
    assert GatingBits(s.mats) == GatingBits(c.mats);
    assert TreeOf(s) == TreeOf(c);
  }

  /** The tree of a bank has a wire group for every join of two halves of the bank. */
  lemma BankGroupCount(c: BankConfig)
    requires c.Positive() && Pow2Grid(c.mats)
    ensures var t := TreeOf(c);
      HorizontalGroups(t, t.horizontalLevels) + VerticalGroups(t, t.verticalLevels)
      == if c.mats.columns > 1 then c.mats.rows * c.mats.columns - 1 else 2 * c.mats.rows - 2
  {
    hide LogRound, FloorLog2, SetRatio, Pow2, HorizontalGroups, VerticalGroups;
    var t := TreeOf(c);
    TreeShares(c);
    GroupCount(t);
    OneIsPow2();
    Pow2LessOrEqual(1, t.horizontalLevels);
    if t.horizontalLevels > 0 {
      assert Pow2(t.horizontalLevels) * Pow2(t.verticalLevels) == c.mats.rows * c.mats.columns;
    }
  }

  /** A bank of two rows and four columns of mats has four groups of vertical wires, and counts two. */
  lemma BankTiersLost(c: BankConfig)
    requires c.Positive() && c.mats.rows == 2 && c.mats.columns == 4
    ensures var level := TreeOf(c).VerticalLevel(0); level.groups == 4 && level.tiers * 2 == 2
  {
    hide SetRatio, GatingBits;
    assert Pow2(1) == 2 && Pow2(2) == 4;
    LogRoundOfPow2(1);
    LogRoundOfPow2(2);
    TiersLost(TreeOf(c));
  }
}
