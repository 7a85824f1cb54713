/** The integer part of a subarray: legality rules and the columns left after each mux level. */
module SubArrays {
  import opened Organisation

  /** The integer legality rules. */
  predicate RulesAllow(c: SubArrayConfig, tech: Technology) {
    && (tech.everyColumnHoldsAllWays ==> c.numColumn >= tech.inputAssociativity)
    && (tech.IsDram() ==> c.mux.senseAmp <= 1)
    && (tech.cell == SLCNAND ==>
          c.numRow >= tech.pagesPerFlashBlock && (c.internalSenseAmp ==> c.mux.senseAmp >= 2))
    && (tech.cell == Memristor || tech.cell == FBRAM ==>
          c.internalSenseAmp ==> c.mux.senseAmp >= 2)
  }

  predicate Legal(c: SubArrayConfig, tech: Technology, localWire: Wire) {
    RulesAllow(c, tech) && tech.electricallyLegal(c, localWire)
  }

  class SubArray {
    var initialized: bool
    var invalid: bool
    var config: SubArrayConfig
    var numSenseAmp: int
    var columnsAfterLev1: int
    var columnsAfterLev2: int

    constructor ()
      ensures !initialized && !invalid
    {
      initialized, invalid := false, false;
    }

    /** A subarray that was invalid stays invalid: initialisation never clears the flag. */
    method Initialize(c: SubArrayConfig, tech: Technology, localWire: Wire)
      requires c.mux.Positive()
      modifies this
      ensures config == c
      ensures invalid == (old(invalid) || !Legal(c, tech, localWire))
      ensures !invalid ==> initialized
      ensures !invalid ==> numSenseAmp == c.numColumn / c.mux.senseAmp
      ensures !invalid ==> columnsAfterLev1 == c.numColumn / c.mux.senseAmp / c.mux.outputLev1
      ensures !invalid ==> columnsAfterLev2 == c.numColumn / c.mux.senseAmp / c.mux.outputLev1 / c.mux.outputLev2
    {
      config := c;
      if tech.everyColumnHoldsAllWays {
        if c.numColumn < tech.inputAssociativity {
          invalid, initialized := true, true;
          return;
        }
      }
      if tech.cell == DRAM || tech.cell == EDRAM {
        if c.mux.senseAmp > 1 {
          invalid, initialized := true, true;
          return;
        }
      }
      if tech.cell == SLCNAND {
        if c.numRow < tech.pagesPerFlashBlock {
          invalid, initialized := true, true;
          return;
        }
        if c.internalSenseAmp && c.mux.senseAmp < 2 {
          invalid, initialized := true, true;
          return;
        }
      }
      if tech.cell == Memristor || tech.cell == FBRAM {
        if c.internalSenseAmp && c.mux.senseAmp < 2 {
          invalid, initialized := true, true;
          return;
        }
      }
      if !tech.electricallyLegal(c, localWire) {
        invalid := true;
        return;
      }
      numSenseAmp := c.numColumn / c.mux.senseAmp;
      columnsAfterLev2 := c.numColumn / c.mux.senseAmp / c.mux.outputLev1 / c.mux.outputLev2;
      columnsAfterLev1 := c.numColumn / c.mux.senseAmp / c.mux.outputLev1;
      initialized := true;
    }
  }

  /** When a subarray that passes the electrical checks is legal, by kind of cell. */
  lemma LegalByCell(c: SubArrayConfig, tech: Technology, localWire: Wire)
    ensures !tech.electricallyLegal(c, localWire) ==> !Legal(c, tech, localWire)
    ensures tech.everyColumnHoldsAllWays && c.numColumn < tech.inputAssociativity ==> !Legal(c, tech, localWire)
    ensures
      tech.electricallyLegal(c, localWire)
      && (!tech.everyColumnHoldsAllWays || c.numColumn >= tech.inputAssociativity) ==>
        && (tech.cell == SRAM || tech.cell == MRAM || tech.cell == PCRAM ==> Legal(c, tech, localWire))
        && (tech.cell == DRAM || tech.cell == EDRAM ==> (Legal(c, tech, localWire) <==> c.mux.senseAmp <= 1))
        && (tech.cell == Memristor || tech.cell == FBRAM ==>
              (Legal(c, tech, localWire) <==> !c.internalSenseAmp || c.mux.senseAmp >= 2))
        && (tech.cell == SLCNAND ==>
              (Legal(c, tech, localWire)
               <==> c.numRow >= tech.pagesPerFlashBlock && (!c.internalSenseAmp || c.mux.senseAmp >= 2)))
  {
  }
}
