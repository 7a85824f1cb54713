/** A mat: how an address and a data word are divided over its subarrays. */
module Mats {
  import opened Organisation
  import opened PowersOfTwo
  import opened SubArrays

  /** Address bits shared by the two predecoder blocks of one decoder. */
  datatype BitPair = BitPair(block1: int, block2: int) {
    function Sum(): int {
      block1 + block2
    }
  }

  /** The second block is used only above three bits. */
  function SplitBits(n: int): (p: BitPair)
    ensures p.Sum() == n
    ensures n > 3 ==> 0 < p.block2 <= p.block1 <= p.block2 + 1
    ensures n <= 3 ==> p.block2 == 0
  {
    if n > 3 then BitPair(n - n / 2, n / 2) else BitPair(n, 0)
  }

  /** Everything integral that a valid mat holds. */
  datatype MatPlan = MatPlan(
    numRow: int,
    numColumn: int,
    gatingBits: int,
    rowBits: BitPair,
    bitlineMuxBits: BitPair,
    lev1Bits: BitPair,
    lev2Bits: BitPair,
    numSenseAmp: int,
    columnsAfterLev1: int,
    columnsAfterLev2: int)

  function GatingBits(subarrays: Grid): int
    requires subarrays.Positive()
  {
    var g := subarrays.Clamped();
    ActiveFits(subarrays);
    LogRound((g.rows * g.columns / g.activePerColumn / g.activePerRow) as real)
  }

  /** The number of selectable groups of a clamped grid is at least one. */
  lemma ActiveFits(grid: Grid)
    requires grid.Positive()
    ensures var g := grid.Clamped(); g.Positive() && g.rows * g.columns / g.activePerColumn / g.activePerRow >= 1
    ensures var g := grid.Clamped();
      g.Active() >= 1 && g.rows * g.columns / g.activePerColumn / g.activePerRow == g.Total() / g.Active()
  {
    var g := grid.Clamped();
    ProductAtLeast(g.activePerColumn, g.activePerRow);
    ProductMonotoneInt(g.activePerColumn, g.activePerRow, g.rows, g.columns);
    DivideTwice(g.rows * g.columns, g.activePerColumn, g.activePerRow);
    QuotientPositive(g.rows * g.columns, g.activePerColumn * g.activePerRow);
  }

  lemma ProductMonotoneInt(a: nat, b: nat, c: nat, d: nat)
    requires a <= c && b <= d
    ensures a * b <= c * d
  {
    assert a * b <= c * b;
    assert c * b <= c * d;
  }

  lemma QuotientPositive(x: nat, d: nat)
    requires 1 <= d <= x
    ensures x / d >= 1
  {
  }

  function RowsOf(c: MatConfig, effectiveBits: nat): int
    requires c.Positive() && c.mux.Product() > 0
  {
    Pow2(effectiveBits) * (if c.memoryType == Data then c.numWay else 1) / c.mux.Product()
  }

  function WordColumns(c: MatConfig): int
    requires c.Positive()
  {
    ActiveFits(c.subarrays);
    c.numDataBit / c.subarrays.Clamped().Active()
  }

  function SubArrayOf(c: MatConfig, effectiveBits: nat): SubArrayConfig
    requires c.Positive() && c.mux.Product() > 0
  {
    var columns := WordColumns(c) * c.mux.Product() * (if c.memoryType == Tag then c.numWay else 1);
    SubArrayConfig(RowsOf(c, effectiveBits), columns, c.numRowPerSet > 1, c.mux, c.internalSenseAmp,
                   c.areaOptimizationLevel)
  }

  lemma MuxProductPositive(m: Mux)
    requires m.Positive()
    ensures m.Product() >= 1
  {
    ProductAtLeast(m.senseAmp, m.outputLev1);
    ProductAtLeast(m.senseAmp * m.outputLev1, m.outputLev2);
  }

  /** The plan of a mat, or nothing when the mat is invalid. */
  function PlanMat(c: MatConfig, tech: Technology, localWire: Wire): Option<MatPlan>
    requires c.Positive()
  {
    MuxProductPositive(c.mux);
    var gating := GatingBits(c.subarrays);
    var bits := c.numAddressBit - gating;
    if bits <= 0 || RowsOf(c, bits) == 0 || WordColumns(c) == 0 then None
    else
      var s := SubArrayOf(c, bits);
      var rowBits := bits - LogRound(c.mux.Product() as real);
      if !Legal(s, tech, localWire) || rowBits < 0 then None
      else
        Some(MatPlan(s.numRow, s.numColumn, gating, SplitBits(rowBits),
                     SplitBits(LogRound(c.mux.senseAmp as real)),
                     SplitBits(LogRound(c.mux.outputLev1 as real)),
                     SplitBits(LogRound(c.mux.outputLev2 as real)),
                     s.numColumn / c.mux.senseAmp,
                     s.numColumn / c.mux.senseAmp / c.mux.outputLev1,
                     s.numColumn / c.mux.senseAmp / c.mux.outputLev1 / c.mux.outputLev2))
  }

  class Mat {
    var initialized: bool
    var invalid: bool
    var config: MatConfig
    var gatingBits: int
    var rowBits: BitPair
    var bitlineMuxBits: BitPair
    var lev1Bits: BitPair
    var lev2Bits: BitPair
    const subarray: SubArray

    constructor ()
      ensures Fresh() && fresh(subarray)
    {
      initialized, invalid := false, false;
      subarray := new SubArray();
    }

    /** Not yet found invalid, and neither was the subarray. */
    ghost predicate Fresh()
      reads this, subarray
    {
      !invalid && !subarray.invalid
    }

    function Plan(): MatPlan
      reads this, subarray
    {
      MatPlan(subarray.config.numRow, subarray.config.numColumn, gatingBits, rowBits,
              bitlineMuxBits, lev1Bits, lev2Bits,
              subarray.numSenseAmp, subarray.columnsAfterLev1, subarray.columnsAfterLev2)
    }

    method Initialize(c: MatConfig, tech: Technology, localWire: Wire)
      requires c.Positive()
      modifies this, subarray
      ensures old(Fresh()) ==> (invalid <==> PlanMat(c, tech, localWire).None?)
      ensures !invalid ==> initialized && PlanMat(c, tech, localWire) == Some(Plan())
      ensures !old(Fresh()) ==> invalid
      ensures initialized && config == c.(subarrays := c.subarrays.Clamped())
    {
      MuxProductPositive(c.mux);
      config := c.(subarrays := c.subarrays.Clamped());
      gatingBits := GatingBits(c.subarrays);
      var numAddressBit := c.numAddressBit - gatingBits;
      if numAddressBit <= 0 {
        invalid, initialized := true, true;
        return;
      }
      var numRow := CountRows(c, numAddressBit);
      if numRow == 0 {
        invalid, initialized := true, true;
        return;
      }
      var wordColumns, numColumn := CountColumns(c);
      if wordColumns == 0 {
        invalid, initialized := true, true;
        return;
      }

      subarray.Initialize(SubArrayConfig(numRow, numColumn, c.numRowPerSet > 1, c.mux, c.internalSenseAmp,
                                         c.areaOptimizationLevel),
                          tech, localWire);
      if subarray.invalid {
        invalid, initialized := true, true;
        return;
      }

      var rowPredecoderBits := numAddressBit - LogRound(c.mux.Product() as real);
      if rowPredecoderBits < 0 {
        invalid, initialized := true, true;
        return;
      }
      rowBits := SplitBits(rowPredecoderBits);
      bitlineMuxBits := SplitBits(LogRound(c.mux.senseAmp as real));
      lev1Bits := SplitBits(LogRound(c.mux.outputLev1 as real));
      lev2Bits := SplitBits(LogRound(c.mux.outputLev2 as real));
      initialized := true;
    }
  }

  /** Rows for the effective address bits, shared out over the column multiplexers. */
  method CountRows(c: MatConfig, numAddressBit: nat) returns (numRow: int)
    requires c.Positive() && c.mux.Product() > 0
    ensures numRow == RowsOf(c, numAddressBit)
  {
    numRow := Pow2(numAddressBit);
    if c.memoryType == Data {
      numRow := numRow * c.numWay;
    }
    numRow := numRow / (c.mux.senseAmp * c.mux.outputLev1 * c.mux.outputLev2);
  }

  /** Columns for the bits of a word that one active subarray delivers. */
  method CountColumns(c: MatConfig) returns (wordColumns: int, numColumn: int)
    requires c.Positive() && c.mux.Product() > 0
    ensures wordColumns == WordColumns(c)
    ensures forall bits: nat :: SubArrayOf(c, bits).numColumn == numColumn
  {
    var active := c.subarrays.Clamped();
    ActiveFits(c.subarrays);
    wordColumns := c.numDataBit / (active.activePerRow * active.activePerColumn);
    numColumn := wordColumns * (c.mux.senseAmp * c.mux.outputLev1 * c.mux.outputLev2);
    if c.memoryType == Tag {
      numColumn := numColumn * c.numWay;
    }
  }
}
