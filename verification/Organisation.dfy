/** Vocabulary shared by the banks, mats and subarrays of a memory. */
module Organisation {

  datatype Option<+T> = None | Some(value: T)

  datatype MemoryType = Data | Tag

  datatype CellType = SRAM | DRAM | EDRAM | MRAM | PCRAM | Memristor | FBRAM | SLCNAND

  datatype BufferTarget = LatencyFirst | LatencyAreaTradeOff | AreaFirst

  datatype Wire = Wire(wireType: int, repeaterType: int, isLowSwing: bool)

  const REPEATED_NONE := 0

  /** How many bitlines share a sense amplifier, and the two levels of output multiplexing. */
  datatype Mux = Mux(senseAmp: int, outputLev1: int, outputLev2: int) {
    function Product(): int {
      senseAmp * outputLev1 * outputLev2
    }

    predicate Positive() {
      senseAmp >= 1 && outputLev1 >= 1 && outputLev2 >= 1
    }
  }

  /** A rectangle of units of which a smaller rectangle is switched on by one access. */
  datatype Grid = Grid(rows: int, columns: int, activePerRow: int, activePerColumn: int) {
    predicate Positive() {
      rows >= 1 && columns >= 1 && activePerRow >= 1 && activePerColumn >= 1
    }

    function Total(): int {
      rows * columns
    }

    function Active(): int {
      activePerRow * activePerColumn
    }

    /** No more units can be active along an edge than the edge has. */
    function Clamped(): Grid {
      this.(activePerRow := if activePerRow > columns then columns else activePerRow,
            activePerColumn := if activePerColumn > rows then rows else activePerColumn)
    }
  }

  /** The arguments of a bank's initialisation, which are also the fields a bank keeps. */
  datatype BankConfig = BankConfig(
    mats: Grid,
    subarrays: Grid,
    capacity: int,
    blockSize: int,
    associativity: int,
    numRowPerSet: int,
    mux: Mux,
    internalSenseAmp: bool,
    areaOptimizationLevel: BufferTarget,
    memoryType: MemoryType)
  {
    predicate Positive() {
      && mats.Positive() && subarrays.Positive() && mux.Positive()
      && capacity >= 1 && blockSize >= 1 && associativity >= 1 && numRowPerSet >= 1
    }

    /** What a bank has stored once initialised: the active counts are clamped. */
    function Stored(): BankConfig {
      this.(mats := mats.Clamped(), subarrays := subarrays.Clamped())
    }
  }

  datatype MatConfig = MatConfig(
    subarrays: Grid,
    numAddressBit: int,
    numDataBit: int,
    numWay: int,
    numRowPerSet: int,
    mux: Mux,
    internalSenseAmp: bool,
    areaOptimizationLevel: BufferTarget,
    memoryType: MemoryType)
  {
    predicate Positive() {
      subarrays.Positive() && mux.Positive() && numDataBit >= 0 && numWay >= 1
    }
  }

  datatype SubArrayConfig = SubArrayConfig(
    numRow: int,
    numColumn: int,
    multipleRowPerSet: bool,
    mux: Mux,
    internalSenseAmp: bool,
    areaOptimizationLevel: BufferTarget)

  /**
   * What the program reads from its cell and input files, as far as the integer part of
   * an initialisation depends on it. The electrical checks stay an unknown predicate.
   */
  datatype Technology = Technology(
    cell: CellType,
    everyColumnHoldsAllWays: bool,
    inputAssociativity: int,
    pagesPerFlashBlock: int,
    electricallyLegal: (SubArrayConfig, Wire) -> bool)
  {
    predicate IsDram() {
      cell == DRAM || cell == EDRAM
    }
  }
}
