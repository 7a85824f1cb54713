/** What every valid mat conserves: its address bits, its cells and the width it delivers. */
module MatLaws {
  import opened Mats
  import opened SubArrays
  import opened Organisation
  import opened PowersOfTwo

  ghost predicate Pow2Grid(g: Grid) {
    IsPow2(g.rows) && IsPow2(g.columns) && IsPow2(g.activePerRow) && IsPow2(g.activePerColumn)
  }

  ghost predicate Pow2Mux(m: Mux) {
    IsPow2(m.senseAmp) && IsPow2(m.outputLev1) && IsPow2(m.outputLev2)
  }

  /** Exponents of the edges of a clamped grid and of its active part. */
  lemma GridEdges(grid: Grid) returns (r: nat, c: nat, perRow: nat, perColumn: nat)
    requires grid.Positive() && Pow2Grid(grid)
    ensures grid.rows == Pow2(r) && grid.columns == Pow2(c)
    ensures grid.Clamped().activePerRow == Pow2(perRow) && grid.Clamped().activePerColumn == Pow2(perColumn)
    ensures perRow <= c && perColumn <= r
    ensures grid.Total() == Pow2(r + c) && grid.Clamped().Active() == Pow2(perRow + perColumn)
  {
    hide Pow2;
    var g := grid.Clamped();
    r :| g.rows == Pow2(r);
    c :| g.columns == Pow2(c);
    assert IsPow2(g.activePerRow) && IsPow2(g.activePerColumn);
    perRow :| g.activePerRow == Pow2(perRow);
    perColumn :| g.activePerColumn == Pow2(perColumn);
    Pow2LessOrEqual(perRow, c);
    Pow2LessOrEqual(perColumn, r);
    Pow2Add(r, c);
    Pow2Add(perRow, perColumn);
  }

  /** Gating takes one address bit for each halving from all units to the active ones. */
  lemma GridExponents(grid: Grid) returns (total: nat, active: nat)
    requires grid.Positive() && Pow2Grid(grid)
    ensures active <= total
    ensures grid.Total() == Pow2(total)
    ensures grid.Clamped().Active() == Pow2(active)
    ensures GatingBits(grid) == total - active
  {
    hide Pow2;
    var r, c, perRow, perColumn := GridEdges(grid);
    total, active := r + c, perRow + perColumn;
    ActiveFits(grid);
    Pow2Quotient(total, active);
    LogRoundOfPow2(total - active);
  }

  lemma MuxExponents(m: Mux) returns (s: nat, l1: nat, l2: nat)
    requires Pow2Mux(m)
    ensures m.senseAmp == Pow2(s) && m.outputLev1 == Pow2(l1) && m.outputLev2 == Pow2(l2)
    ensures m.Product() == Pow2(s + l1 + l2)
    ensures m.senseAmp >= 1 && m.outputLev1 >= 1 && m.outputLev2 >= 1 && m.Product() >= 1
    ensures LogRound(m.senseAmp as real) == s && LogRound(m.outputLev1 as real) == l1
    ensures LogRound(m.outputLev2 as real) == l2 && LogRound(m.Product() as real) == s + l1 + l2
  {
    s :| m.senseAmp == Pow2(s);
    l1 :| m.outputLev1 == Pow2(l1);
    l2 :| m.outputLev2 == Pow2(l2);
    Pow2Add(s, l1);
    Pow2Add(s + l1, l2);
    LogRoundOfPow2(s);
    LogRoundOfPow2(l1);
    LogRoundOfPow2(l2);
    LogRoundOfPow2(s + l1 + l2);
  }

  /**
   * No address bit is lost or used twice: gating, row and multiplexer predecoders together
   * decode exactly the bits routed to the mat, and a subarray has one row per row address
   * and way.
   */
  lemma MatConservesAddressBits(c: MatConfig, tech: Technology, localWire: Wire)
    requires c.Positive() && Pow2Mux(c.mux)
    requires PlanMat(c, tech, localWire).Some?
    ensures var p := PlanMat(c, tech, localWire).value;
      && p.gatingBits + p.rowBits.Sum() + p.bitlineMuxBits.Sum() + p.lev1Bits.Sum() + p.lev2Bits.Sum()
        == c.numAddressBit
      && p.rowBits.Sum() >= 0
      && p.numRow == Pow2(p.rowBits.Sum()) * (if c.memoryType == Data then c.numWay else 1)
  {
    hide Mux.Product, RowsOf, WordColumns, Pow2, LogRound, GatingBits;
    var s, l1, l2 := MuxExponents(c.mux);
    RowsAreExact(c, c.numAddressBit - GatingBits(c.subarrays), s + l1 + l2);
  }

  /** Each multiplexer has its own predecoder, which selects one of as many lines as its degree. */
  lemma PredecodersSelectDegrees(c: MatConfig, tech: Technology, localWire: Wire)
    requires c.Positive() && Pow2Mux(c.mux)
    requires PlanMat(c, tech, localWire).Some?
    ensures var p := PlanMat(c, tech, localWire).value;
      && p.bitlineMuxBits.Sum() >= 0 && Pow2(p.bitlineMuxBits.Sum()) == c.mux.senseAmp
      && p.lev1Bits.Sum() >= 0 && Pow2(p.lev1Bits.Sum()) == c.mux.outputLev1
      && p.lev2Bits.Sum() >= 0 && Pow2(p.lev2Bits.Sum()) == c.mux.outputLev2
  {
    hide Mux.Product, RowsOf, WordColumns, SubArrayOf, Pow2, LogRound, GatingBits, SplitBits, Legal;
    var s, l1, l2 := MuxExponents(c.mux);
  }

  /** Each multiplexer passes on one column of as many as its degree, without a rest. */
  lemma MultiplexersDivideColumns(c: MatConfig, tech: Technology, localWire: Wire)
    requires c.Positive()
    requires PlanMat(c, tech, localWire).Some?
    ensures var p := PlanMat(c, tech, localWire).value;
      && p.numColumn == p.numSenseAmp * c.mux.senseAmp
      && p.numSenseAmp == p.columnsAfterLev1 * c.mux.outputLev1
      && p.columnsAfterLev1 == p.columnsAfterLev2 * c.mux.outputLev2
  {
    hide Mux.Product, RowsOf, Pow2, LogRound, GatingBits, Grid.Total, Grid.Active, WordColumns;
    ActiveFits(c.subarrays);
    MuxProductPositive(c.mux);
    var way := if c.memoryType == Tag then c.numWay else 1;
    Reorder(WordColumns(c), c.mux.Product(), way);
    StagesDivide(WordColumns(c) * way, c.mux);
  }

  lemma StagesDivide(word: int, m: Mux)
    requires m.Positive()
    ensures var x := word * m.Product();
      && x == x / m.senseAmp * m.senseAmp
      && x / m.senseAmp == x / m.senseAmp / m.outputLev1 * m.outputLev1
      && x / m.senseAmp / m.outputLev1 == x / m.senseAmp / m.outputLev1 / m.outputLev2 * m.outputLev2
  {
    var a, b, d := m.senseAmp, m.outputLev1, m.outputLev2;
    assert word * (a * b * d) == (word * d * b) * a;
    ExactDivision(word * d * b, a);
    ExactDivision(word * d, b);
    ExactDivision(word, d);
  }

  /**
   * A mat is valid exactly if gating leaves it an address bit and all bits that its
   * multiplexers take, every active subarray gets a bit of the word, and the subarray of
   * the resulting size is legal.
   */
  lemma MatIsValidExactly(c: MatConfig, tech: Technology, localWire: Wire) returns (gating: nat, m: nat)
    requires c.Positive() && Pow2Grid(c.subarrays) && Pow2Mux(c.mux)
    ensures c.subarrays.Total() == Pow2(gating) * c.subarrays.Clamped().Active()
    ensures c.mux.Product() == Pow2(m) && c.subarrays.Clamped().Active() > 0
    ensures PlanMat(c, tech, localWire).Some?
      <==> var bits, active := c.numAddressBit - gating, c.subarrays.Clamped().Active();
           && bits >= 1 && bits >= m && c.numDataBit >= active
           && Legal(SubArrayConfig(Pow2(bits - m) * (if c.memoryType == Data then c.numWay else 1),
                                   c.numDataBit / active * Pow2(m) * (if c.memoryType == Tag then c.numWay else 1),
                                   c.numRowPerSet > 1, c.mux, c.internalSenseAmp, c.areaOptimizationLevel),
                    tech, localWire)
  {
    hide Mux.Product, RowsOf, Pow2, LogRound, GatingBits, Grid.Total, Grid.Active, Legal;
    var total, active := GridExponents(c.subarrays);
    var s, l1, l2 := MuxExponents(c.mux);
    gating, m := total - active, s + l1 + l2;
    Pow2Add(gating, active);
    MuxProductPositive(c.mux);
    QuotientNonNegative(c.numDataBit, c.subarrays.Clamped().Active());
    var bits := c.numAddressBit - gating;
    if bits >= 1 && bits >= m {
      RowsAreExact(c, bits, m);
      ProductAtLeast(Pow2(bits - m), if c.memoryType == Data then c.numWay else 1);
    }
  }

  lemma RowsAreExact(c: MatConfig, bits: nat, m: nat)
    requires c.Positive() && c.mux.Product() == Pow2(m) && m <= bits
    ensures RowsOf(c, bits) == Pow2(bits - m) * (if c.memoryType == Data then c.numWay else 1)
  {
    Pow2Add(bits - m, m);
    PullOut(Pow2(bits - m), Pow2(m), if c.memoryType == Data then c.numWay else 1);
  }

  lemma PullOut(k: int, p: int, way: int)
    requires p > 0
    ensures k * p * way / p == k * way
  {
    assert k * p * way == (k * way) * p;
    ExactDivision(k * way, p);
  }

  /** The multiplexers hand on exactly the word bits of each active subarray, for every way of a tag. */
  lemma MatDeliversWord(c: MatConfig, tech: Technology, localWire: Wire)
    requires c.Positive()
    requires PlanMat(c, tech, localWire).Some?
    ensures var p := PlanMat(c, tech, localWire).value;
      var active := c.subarrays.Clamped().Active();
      && active > 0
      && p.numColumn == p.columnsAfterLev2 * c.mux.Product()
      && p.columnsAfterLev2 * active
         == WholePart(c.numDataBit, active) * (if c.memoryType == Tag then c.numWay else 1)
  {
    hide Mux.Product, RowsOf, Pow2, LogRound, GatingBits, Grid.Total, Grid.Active, WordColumns, WholePart;
    ActiveFits(c.subarrays);
    MuxProductPositive(c.mux);
    ColumnsAreWhole(c, c.numAddressBit - GatingBits(c.subarrays));
  }

  lemma ColumnsAreWhole(c: MatConfig, bits: nat)
    requires c.Positive() && c.mux.Product() > 0 && c.subarrays.Clamped().Active() > 0
    ensures var columns, active := SubArrayOf(c, bits).numColumn, c.subarrays.Clamped().Active();
      var word := columns / c.mux.senseAmp / c.mux.outputLev1 / c.mux.outputLev2;
      && columns == word * c.mux.Product()
      && word * active == WholePart(c.numDataBit, active) * (if c.memoryType == Tag then c.numWay else 1)
  {
    hide Mux.Product, RowsOf, Pow2, Grid.Active;
    var active := c.subarrays.Clamped().Active();
    var way := if c.memoryType == Tag then c.numWay else 1;
    var q := c.numDataBit / active;
    Reorder(q, c.mux.Product(), way);
    ThreeDivisions(q * way, c.mux);
    assert WholePart(c.numDataBit, active) == q * active;
    Reorder(q, way, active);
  }

  lemma Reorder(a: int, b: int, c: int)
    ensures a * b * c == a * c * b
  {
  }

  lemma ThreeDivisions(word: int, m: Mux)
    requires m.Positive()
    ensures word * m.Product() / m.senseAmp / m.outputLev1 / m.outputLev2 == word
  {
    var a, b, d := m.senseAmp, m.outputLev1, m.outputLev2;
    assert word * (a * b * d) == (word * d * b) * a;
    ExactDivision(word * d * b, a);
    ExactDivision(word * d, b);
    ExactDivision(word, d);
  }

  /** Cells of a grid of equal subarrays. */
  function Cells(numRow: int, numColumn: int, subarrays: Grid): int {
    numRow * numColumn * subarrays.Total()
  }

  /** The largest multiple of d that is at most x. */
  function WholePart(x: int, d: int): int
    requires d > 0
  {
    x - x % d
  }

  /** Cells needed for all addresses of a mat: every way of the bits its subarrays can share evenly. */
  function AddressedCells(c: MatConfig): int
    requires c.numAddressBit >= 0 && c.subarrays.Clamped().Active() > 0
  {
    Pow2(c.numAddressBit) * c.numWay * WholePart(c.numDataBit, c.subarrays.Clamped().Active())
  }

  /** A valid mat has one cell for every address, way and whole word slice it was given. */
  lemma MatKeepsEveryCell(c: MatConfig, tech: Technology, localWire: Wire)
    requires c.Positive() && Pow2Grid(c.subarrays) && Pow2Mux(c.mux)
    requires PlanMat(c, tech, localWire).Some?
    ensures c.numAddressBit > 0 && c.subarrays.Clamped().Active() > 0
    ensures var p := PlanMat(c, tech, localWire).value;
      Cells(p.numRow, p.numColumn, c.subarrays) == AddressedCells(c)
  {
    hide Mux.Product, RowsOf, WordColumns, Pow2, LogRound, GatingBits, Grid.Total, Grid.Active, Cells, AddressedCells;
    var total, active := GridExponents(c.subarrays);
    var s, l1, l2 := MuxExponents(c.mux);
    var bits := c.numAddressBit - GatingBits(c.subarrays);
    RowsAreExact(c, bits, s + l1 + l2);
    CellsOfPlan(c, bits, total, active, s + l1 + l2);
  }

  lemma CellsOfPlan(c: MatConfig, bits: nat, total: nat, active: nat, m: nat)
    requires c.Positive() && c.mux.Product() == Pow2(m) && m <= bits && active <= total
    requires c.numAddressBit == bits + total - active
    requires RowsOf(c, bits) == Pow2(bits - m) * (if c.memoryType == Data then c.numWay else 1)
    requires c.subarrays.Total() == Pow2(total) && c.subarrays.Clamped().Active() == Pow2(active)
    ensures Cells(RowsOf(c, bits), SubArrayOf(c, bits).numColumn, c.subarrays) == AddressedCells(c)
  {
    hide Mux.Product, RowsOf, Pow2, Grid.Total, Grid.Active;
    var g, q := total - active, c.numDataBit / Pow2(active);
    Pow2Add(g, bits - m);
    Pow2Add(g + bits - m, m);
    Pow2Add(g, active);
    assert WholePart(c.numDataBit, Pow2(active)) == q * Pow2(active);
    CellProduct(Pow2(bits - m), c.numWay, q, Pow2(m), Pow2(g), Pow2(active), c.memoryType);
  }

  /** Regrouping of the factors of a mat's cell count; the ways sit in the rows or the columns. */
  lemma CellProduct(r: int, w: int, q: int, m: int, g: int, a: int, t: MemoryType)
    ensures (r * (if t == Data then w else 1)) * (q * m * (if t == Tag then w else 1)) * (g * a)
      == g * r * m * w * (q * a)
  {
    var x, y := if t == Data then w else 1, if t == Tag then w else 1;
    assert x * y == w;
    calc {
      (r * x) * (q * m * y) * (g * a);
      { assert (r * x) * (q * m * y) == (r * m) * (x * y) * q; }
      (r * m) * w * q * (g * a);
      { assert (r * m) * w * q * (g * a) == ((r * m) * w) * g * (q * a); }
      ((r * m) * w) * g * (q * a);
      { assert ((r * m) * w) * g == g * r * m * w; }
      g * r * m * w * (q * a);
    }
  }
}
