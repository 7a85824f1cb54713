/** A bank whose mats are reached directly, without an H-tree. */
module BanksWithoutHtree {
  import opened Organisation
  import opened PowersOfTwo
  import opened Mats
  import opened Banks

  class BankWithoutHtree {
    var initialized: bool
    var invalid: bool
    var config: BankConfig
    var numWay: int
    var numAddressBit: int
    var numAddressBitRouteToMat: int
    var numDataBitRouteToMat: int
    const mat: Mat

    constructor ()
      ensures Usable() && fresh(mat) && fresh(mat.subarray)
    {
      initialized, invalid := false, false;
      mat := new Mat();
    }

    /** Initialisation clears the bank's own flag if it was set up before, but never its mat's. */
    ghost predicate Usable()
      reads this, mat, mat.subarray
    {
      (initialized || !invalid) && mat.Fresh()
    }

    method Initialize(c: BankConfig, tech: Technology, localWire: Wire, globalWire: Wire)
      requires c.Positive()
      modifies this, mat, mat.subarray
      ensures invalid <==> !old(Usable()) || PlanBank(c, tech, NonHTree, localWire, globalWire).None?
      ensures initialized <==> c.internalSenseAmp || !tech.IsDram()
      ensures !invalid ==> config == c.Stored()
      ensures !invalid ==>
        && RoutedMat(c, tech, NonHTree, globalWire) == Some(mat.config)
        && numAddressBit == BankAddressBits(c) && numAddressBitRouteToMat == mat.config.numAddressBit
        && numDataBitRouteToMat == mat.config.numDataBit && numWay == mat.config.numWay
      ensures !invalid ==> PlanBank(c, tech, NonHTree, localWire, globalWire) == Some(mat.Plan())
    {
      hide BankAddressBits, GatingBits, MatFor, PlanMat, TreeMat, Mux.Product, Mux.Positive;
      if initialized {
        initialized, invalid := false, false;
      }
      if !c.internalSenseAmp {
        if tech.cell == DRAM || tech.cell == EDRAM {
          invalid := true;
          return;
        } else if globalWire.repeaterType != REPEATED_NONE {
          invalid, initialized := true, true;
          return;
        }
      }
      config := c.(mats := c.mats.Clamped(), subarrays := c.subarrays.Clamped());
      RouteSignals(c);
      var m := LayOutWays(c, tech, numAddressBitRouteToMat, numDataBitRouteToMat, numWay);
      if m.None? {
        invalid, initialized := true, true;
        return;
      }
      config := config.(mux := m.value.mux);
      MatForExactly(c, tech, numAddressBitRouteToMat, numDataBitRouteToMat, numWay);
      RoutedMatPositive(c, tech, NonHTree, globalWire);
      mat.Initialize(m.value, tech, localWire);
      if mat.invalid {
        invalid, initialized := true, true;
        return;
      }
      config := config.(mux := c.mux);
      initialized := true;
    }

    /** The closed-form routing: what is left for each mat. */
    method RouteSignals(c: BankConfig)
      requires c.Positive()
      modifies this`numAddressBit, this`numAddressBitRouteToMat, this`numDataBitRouteToMat, this`numWay
      ensures numAddressBit == BankAddressBits(c)
      ensures numAddressBitRouteToMat == numAddressBit - GatingBits(c.mats)
      ensures var g := c.mats.Clamped();
        && g.Positive()
        && numDataBitRouteToMat
           == (if c.memoryType == Data then c.blockSize / g.activePerColumn / g.activePerRow else c.blockSize)
        && numWay
           == (if c.memoryType == Data then c.associativity else c.associativity / g.activePerColumn / g.activePerRow)
    {
      hide LogRound, SetRatio;
      var g := c.mats.Clamped();
      ActiveFits(c.mats);
      numAddressBit := BankAddressBits(c);
      var numAddressForGating := LogRound((g.rows * g.columns / g.activePerColumn / g.activePerRow) as real);
      numAddressBitRouteToMat := numAddressBit - numAddressForGating;
      if c.memoryType == Data {
        numDataBitRouteToMat, numWay := c.blockSize / g.activePerColumn / g.activePerRow, c.associativity;
      } else {
        numDataBitRouteToMat, numWay := c.blockSize, c.associativity / g.activePerColumn / g.activePerRow;
      }
    }
  }
}
