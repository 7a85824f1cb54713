/**
 * The signals on every wire of an H-tree, stated per level instead of as a walk. A tree is
 * entered on a horizontal wire and each node below the root splits a signal either between
 * two columns of mats or between two rows.
 */
module Htrees {
  import opened PowersOfTwo

  /** The wire of one level: signals carried, tiers of wiring, and groups of such wires. */
  datatype Level = Level(
    address: int,
    distribute: int,
    broadcast: int,
    tiers: int,
    groups: int,
    activeGroups: int)

  /**
   * The bits entering a tree, its levels, and how often the active columns and the active
   * rows can be halved. The first that many splits halve the distributed data; every later
   * one decides an address bit.
   */
  datatype Htree = Htree(
    address: int,
    distribute: nat,
    broadcast: nat,
    horizontalLevels: nat,
    verticalLevels: nat,
    columnHalvings: nat,
    rowHalvings: nat)
  {
    function Halvings(columnSplits: nat, rowSplits: nat): nat {
      Min(columnSplits, columnHalvings) + Min(rowSplits, rowHalvings)
    }

    function Address(columnSplits: nat, rowSplits: nat): int {
      address - (columnSplits + rowSplits - Halvings(columnSplits, rowSplits))
    }

    function Distribute(columnSplits: nat, rowSplits: nat): nat {
      ShiftRight(distribute, Halvings(columnSplits, rowSplits))
    }

    function Groups(columnSplits: nat, rowSplits: nat): nat {
      Pow2(columnSplits + rowSplits)
    }

    function ActiveGroups(columnSplits: nat, rowSplits: nat): nat {
      Pow2(Halvings(columnSplits, rowSplits))
    }

    /** No data or no address is left to route. */
    predicate Stuck(columnSplits: nat, rowSplits: nat) {
      Distribute(columnSplits, rowSplits) + broadcast == 0 || Address(columnSplits, rowSplits) == 0
    }

    /** Column splits inside the tree; the root wire and the last split into a mat are not nodes. */
    function InnerColumns(): nat {
      Max(horizontalLevels - 1, 0)
    }

    /** Row splits above horizontal level i: the longer direction runs alone before the two alternate. */
    function RowsAbove(i: nat): nat {
      if i == 0 then 0 else Max(0, verticalLevels - InnerColumns() + i - 1)
    }

    /** Column splits above vertical level j. */
    function ColumnsAbove(j: nat): nat {
      Max(0, InnerColumns() - verticalLevels + j + 1)
    }

    function At(columnSplits: nat, rowSplits: nat, tiers: int): Level {
      Level(Address(columnSplits, rowSplits), Distribute(columnSplits, rowSplits), broadcast, tiers,
            Groups(columnSplits, rowSplits), ActiveGroups(columnSplits, rowSplits))
    }

    function HorizontalLevel(i: nat): Level {
      At(i, RowsAbove(i), Pow2(RowsAbove(i)))
    }

    /** A tree of exactly two horizontal levels counts half of the vertical tiers. */
    function VerticalTiers(j: nat): nat {
      if horizontalLevels == 2 && ColumnsAbove(j) > 0 then Pow2(ColumnsAbove(j) - 1) else Pow2(ColumnsAbove(j))
    }

    function VerticalLevel(j: nat): Level {
      At(ColumnsAbove(j), j + 1, VerticalTiers(j))
    }

    /** Routing fails: the data, or an address that was there, is used up before the last split. */
    predicate Aborts() {
      || Distribute(InnerColumns(), verticalLevels) + broadcast == 0
      || (address >= 0 && Address(InnerColumns(), verticalLevels) <= 0)
    }
  }

  /** The state of a walk after some splits, with the columns and rows still to activate. */
  ghost predicate Here(t: Htree, activeColumns: nat, activeRows: nat, a: nat, b: nat,
                       address: int, distribute: int, columnToActive: int, rowToActive: int)
  {
    && address == t.Address(a, b)
    && distribute == t.Distribute(a, b)
    && columnToActive == ShiftRight(activeColumns, Min(a, t.columnHalvings))
    && rowToActive == ShiftRight(activeRows, Min(b, t.rowHalvings))
  }

  ghost predicate Describes(t: Htree, activeColumns: nat, activeRows: nat) {
    && activeColumns >= 1 && activeRows >= 1
    && t.columnHalvings == FloorLog2(activeColumns)
    && t.rowHalvings == FloorLog2(activeRows)
  }

  /** Whether a column split halves the data, and where it leads. */
  lemma ColumnSplit(t: Htree, activeColumns: nat, activeRows: nat, a: nat, b: nat,
                    address: int, distribute: int, columnToActive: int, rowToActive: int)
    requires Describes(t, activeColumns, activeRows)
    requires Here(t, activeColumns, activeRows, a, b, address, distribute, columnToActive, rowToActive)
    ensures columnToActive > 1 ==>
      && t.Halvings(a + 1, b) == t.Halvings(a, b) + 1
      && Here(t, activeColumns, activeRows, a + 1, b, address, distribute / 2, columnToActive / 2, rowToActive)
    ensures columnToActive <= 1 ==>
      && t.Halvings(a + 1, b) == t.Halvings(a, b)
      && Here(t, activeColumns, activeRows, a + 1, b, address - 1, distribute, columnToActive, rowToActive)
  {
    hide ShiftRight, FloorLog2;
    var k := Min(a, t.columnHalvings);
    QuotientAboveOne(activeColumns, k);
    HalveQuotient(activeColumns, k);
    HalveQuotient(t.distribute, t.Halvings(a, b));
  }

  lemma RowSplit(t: Htree, activeColumns: nat, activeRows: nat, a: nat, b: nat,
                 address: int, distribute: int, columnToActive: int, rowToActive: int)
    requires Describes(t, activeColumns, activeRows)
    requires Here(t, activeColumns, activeRows, a, b, address, distribute, columnToActive, rowToActive)
    ensures rowToActive > 1 ==>
      && t.Halvings(a, b + 1) == t.Halvings(a, b) + 1
      && Here(t, activeColumns, activeRows, a, b + 1, address, distribute / 2, columnToActive, rowToActive / 2)
    ensures rowToActive <= 1 ==>
      && t.Halvings(a, b + 1) == t.Halvings(a, b)
      && Here(t, activeColumns, activeRows, a, b + 1, address - 1, distribute, columnToActive, rowToActive)
  {
    hide ShiftRight, FloorLog2;
    var k := Min(b, t.rowHalvings);
    QuotientAboveOne(activeRows, k);
    HalveQuotient(activeRows, k);
    HalveQuotient(t.distribute, t.Halvings(a, b));
  }

  /** A walk that is stuck anywhere fails the test of the whole tree. */
  lemma StuckAborts(t: Htree, a: nat, b: nat)
    requires a <= t.InnerColumns() && b <= t.verticalLevels
    requires t.address >= 0 ==> t.Address(a, b) >= 0
    requires t.Stuck(a, b)
    ensures t.Aborts()
  {
    hide ShiftRight;
    if t.Distribute(a, b) == 0 {
      ShiftRightStaysZero(t.distribute, t.Halvings(a, b), t.Halvings(t.InnerColumns(), t.verticalLevels));
    }
  }

  /** What one more split does to the groups of wires and to the bits they carry. */
  lemma SplitGroups(t: Htree, a: nat, b: nat)
    ensures t.Groups(a + 1, b) == 2 * t.Groups(a, b) == t.Groups(a, b + 1)
    ensures t.Halvings(a + 1, b) == t.Halvings(a, b) + 1 ==> t.ActiveGroups(a + 1, b) == 2 * t.ActiveGroups(a, b)
    ensures t.Halvings(a, b + 1) == t.Halvings(a, b) + 1 ==> t.ActiveGroups(a, b + 1) == 2 * t.ActiveGroups(a, b)
  {
    assert a + 1 + b == a + b + 1;
  }

  /** A point of the walk: the splits still inside the tree, the tiers of each direction, and what is left to route. */
  datatype Cursor = Cursor(
    h: int,
    v: int,
    hTemp: int,
    vTemp: int,
    address: int,
    distribute: int,
    columnToActive: int,
    rowToActive: int)

  ghost predicate Progress(t: Htree, activeColumns: nat, activeRows: nat, s: Cursor) {
    && 0 <= s.h <= t.InnerColumns() && 0 <= s.v <= t.verticalLevels
    && s.hTemp == Pow2(t.verticalLevels - s.v) && s.vTemp == Pow2(t.InnerColumns() - s.h)
    && Here(t, activeColumns, activeRows, t.InnerColumns() - s.h, t.verticalLevels - s.v,
            s.address, s.distribute, s.columnToActive, s.rowToActive)
    && (t.address >= 0 ==> s.address >= 0)
  }

  lemma ProgressStarts(t: Htree, activeColumns: nat, activeRows: nat)
    requires Describes(t, activeColumns, activeRows)
    ensures Progress(t, activeColumns, activeRows,
                     Cursor(t.InnerColumns(), t.verticalLevels, 1, 1, t.address, t.distribute,
                            activeColumns, activeRows))
    ensures t.horizontalLevels > 0 ==> t.HorizontalLevel(0) == Level(t.address, t.distribute, t.broadcast, 1, 1, 1)
  {
    ShiftRightByZero(t.distribute);
    ShiftRightByZero(activeColumns);
    ShiftRightByZero(activeRows);
  }

  predicate CheckStops(t: Htree, s: Cursor) {
    s.distribute + t.broadcast == 0 || s.address == 0
  }

  /** A failed check anywhere on the walk is a failure of the whole tree. */
  lemma CheckFails(t: Htree, activeColumns: nat, activeRows: nat, s: Cursor)
    requires Progress(t, activeColumns, activeRows, s) && CheckStops(t, s)
    ensures t.Aborts()
  {
    hide ShiftRight, Pow2, Htree.Aborts;
    StuckAborts(t, t.InnerColumns() - s.h, t.verticalLevels - s.v);
  }

  /** Splitting between columns, in the walk's own arithmetic. */
  function AfterColumn(s: Cursor): Cursor {
    var next := s.(h := s.h - 1, vTemp := s.vTemp * 2);
    if s.columnToActive > 1 then next.(distribute := s.distribute / 2, columnToActive := s.columnToActive / 2)
    else next.(address := s.address - 1)
  }

  function AfterRow(s: Cursor): Cursor {
    var next := s.(v := s.v - 1, hTemp := s.hTemp * 2);
    if s.rowToActive > 1 then next.(distribute := s.distribute / 2, rowToActive := s.rowToActive / 2)
    else next.(address := s.address - 1)
  }

  lemma ColumnStep(t: Htree, activeColumns: nat, activeRows: nat, s: Cursor, tiers: int)
    requires Describes(t, activeColumns, activeRows)
    requires Progress(t, activeColumns, activeRows, s) && !CheckStops(t, s) && s.h > 0
    ensures Progress(t, activeColumns, activeRows, AfterColumn(s))
    ensures var a, b := t.InnerColumns() - s.h, t.verticalLevels - s.v;
      t.At(a + 1, b, tiers)
      == Level(AfterColumn(s).address, AfterColumn(s).distribute, t.broadcast, tiers, 2 * t.Groups(a, b),
               if s.columnToActive > 1 then 2 * t.ActiveGroups(a, b) else t.ActiveGroups(a, b))
  {
    hide ShiftRight, FloorLog2;
    var a, b := t.InnerColumns() - s.h, t.verticalLevels - s.v;
    ColumnSplit(t, activeColumns, activeRows, a, b, s.address, s.distribute, s.columnToActive, s.rowToActive);
    SplitGroups(t, a, b);
  }

  lemma RowStep(t: Htree, activeColumns: nat, activeRows: nat, s: Cursor, tiers: int)
    requires Describes(t, activeColumns, activeRows)
    requires Progress(t, activeColumns, activeRows, s) && !CheckStops(t, s) && s.v > 0
    ensures Progress(t, activeColumns, activeRows, AfterRow(s))
    ensures var a, b := t.InnerColumns() - s.h, t.verticalLevels - s.v;
      t.At(a, b + 1, tiers)
      == Level(AfterRow(s).address, AfterRow(s).distribute, t.broadcast, tiers, 2 * t.Groups(a, b),
               if s.rowToActive > 1 then 2 * t.ActiveGroups(a, b) else t.ActiveGroups(a, b))
  {
    hide ShiftRight, FloorLog2;
    var a, b := t.InnerColumns() - s.h, t.verticalLevels - s.v;
    RowSplit(t, activeColumns, activeRows, a, b, s.address, s.distribute, s.columnToActive, s.rowToActive);
    SplitGroups(t, a, b);
  }

  /** Where a level sits while the walk runs in one direction only, and while it alternates. */
  lemma LevelsInOrder(t: Htree, h: int, v: int)
    requires 0 <= h <= t.InnerColumns() && 0 <= v <= t.verticalLevels
    ensures var a, b := t.InnerColumns() - h, t.verticalLevels - v;
      && (h >= v && b == 0 ==> t.RowsAbove(a) == b)
      && (h >= v && (b == 0 || h == v) ==> t.RowsAbove(a + 1) == (if b == 0 && h > v then 0 else b))
      && (v > h && a == 0 ==> t.ColumnsAbove(b) == 0)
      && (v > 0 && h == v ==> t.ColumnsAbove(b) == a + 1)
      && (b > 0 && (h == v || (v > h && a == 0)) ==> t.ColumnsAbove(b - 1) == a)
  {
  }

  lemma RootGroups(t: Htree)
    ensures t.Groups(0, 0) == 1 && t.ActiveGroups(0, 0) == 1 && Pow2(0) == 1
  {
  }

  /** Both checks after the loops are passed exactly by a tree that does not abort. */
  lemma WalkSucceeds(t: Htree, activeColumns: nat, activeRows: nat, s: Cursor)
    requires Describes(t, activeColumns, activeRows)
    requires t.columnHalvings <= t.horizontalLevels
    requires Progress(t, activeColumns, activeRows, s) && !CheckStops(t, s) && s.h == s.v == 0
    ensures !t.Aborts()
    ensures var h, v := t.horizontalLevels, t.verticalLevels;
      if s.columnToActive > 1 then t.Address(h, v) == s.address && t.Distribute(h, v) == s.distribute / 2
      else t.Address(h, v) == (if h > 0 then s.address - 1 else s.address) && t.Distribute(h, v) == s.distribute
  {
    hide ShiftRight, FloorLog2, Pow2;
    ColumnSplit(t, activeColumns, activeRows, t.InnerColumns(), t.verticalLevels,
                s.address, s.distribute, s.columnToActive, s.rowToActive);
    if t.horizontalLevels == 0 {
      OneActive(activeColumns);
    }
  }

  lemma OneActive(activeColumns: nat)
    requires activeColumns >= 1 && FloorLog2(activeColumns) == 0
    ensures ShiftRight(activeColumns, 0) == 1
  {
  }
}
