/** A bank that routes to its mats through an H-tree, filled level by level. */
module BanksWithHtree {
  import opened Organisation
  import opened PowersOfTwo
  import opened Mats
  import opened Banks
  import opened Htrees

  class BankWithHtree {
    var initialized: bool
    var invalid: bool
    var config: BankConfig
    var numAddressBit: int
    var numDataDistributeBit: int
    var numDataBroadcastBit: int
    var levelHorizontal: int
    var levelVertical: int
    var horizontal: array<Level>
    var vertical: array<Level>
    const mat: Mat

    constructor ()
      ensures Usable() && fresh(mat) && fresh(mat.subarray)
    {
      initialized, invalid := false, false;
      horizontal, vertical := new Level[0], new Level[0];
      mat := new Mat();
    }

    ghost predicate Usable()
      reads this, mat, mat.subarray
    {
      (initialized || !invalid) && mat.Fresh()
    }

    /** Every level of both directions carries what the tree says. */
    ghost predicate Routed(t: Htree)
      reads this, horizontal, vertical
    {
      && levelHorizontal == t.horizontalLevels == horizontal.Length
      && levelVertical == t.verticalLevels == vertical.Length
      && (forall i :: 0 <= i < horizontal.Length ==> horizontal[i] == t.HorizontalLevel(i))
      && (forall j :: 0 <= j < vertical.Length ==> vertical[j] == t.VerticalLevel(j))
    }

    method Initialize(c: BankConfig, tech: Technology, localWire: Wire, globalWire: Wire)
      requires c.Positive()
      modifies this, mat, mat.subarray
      ensures invalid <==> !old(Usable()) || PlanBank(c, tech, HTree, localWire, globalWire).None?
      ensures initialized <==> c.internalSenseAmp
      ensures !invalid ==> config == c.Stored() && Routed(TreeOf(c))
      ensures !invalid ==> RoutedMat(c, tech, HTree, globalWire) == Some(mat.config)
      ensures !invalid ==> PlanBank(c, tech, HTree, localWire, globalWire) == Some(mat.Plan())
    {
      hide Mux.Product, Mux.Positive, PlanMat, TreeOf, MatFor, Htree.Aborts, Htree.Address, Htree.Distribute, Pow2,
        Htree.HorizontalLevel, Htree.VerticalLevel;
      if initialized {
        initialized, invalid := false, false;
      }
      if !c.internalSenseAmp {
        invalid := true;
        return;
      }
      config := c.(mats := c.mats.Clamped(), subarrays := c.subarrays.Clamped());
      var failed, numAddressBitToRoute, numDataDistributeBitToRoute := RouteSignals(c);
      if failed {
        invalid, initialized := true, true;
        return;
      }
      var matBlockSize, numWay := numDataDistributeBitToRoute, Pow2(numDataBroadcastBit);
      if c.memoryType == Tag {
        matBlockSize, numWay := numDataBroadcastBit, numDataDistributeBitToRoute;
      }
      var m := LayOutWays(c, tech, numAddressBitToRoute, matBlockSize, numWay);
      if m.None? {
        invalid, initialized := true, true;
        return;
      }
      config := config.(mux := m.value.mux);
      MatForExactly(c, tech, numAddressBitToRoute, matBlockSize, numWay);
      RoutedMatPositive(c, tech, HTree, globalWire);
      mat.Initialize(m.value, tech, localWire);
      if mat.invalid {
        invalid, initialized := true, true;
        return;
      }
      config := config.(mux := c.mux);
      initialized := true;
    }

    /** Sets up the levels of the tree and walks it. */
    method RouteSignals(c: BankConfig)
      returns (failed: bool, numAddressBitToRoute: int, numDataDistributeBitToRoute: int)
      requires c.Positive()
      modifies this`numAddressBit, this`numDataDistributeBit, this`numDataBroadcastBit
      modifies this`levelHorizontal, this`levelVertical, this`horizontal, this`vertical
      ensures var t := TreeOf(c);
        && numAddressBit == t.address && numDataDistributeBit == t.distribute && numDataBroadcastBit == t.broadcast
        && (failed <==> t.Aborts())
        && (!failed ==>
              && numAddressBitToRoute == t.Address(t.horizontalLevels, t.verticalLevels)
              && numDataDistributeBitToRoute == t.Distribute(t.horizontalLevels, t.verticalLevels)
              && Routed(t))
    {
      hide LogRound, FloorLog2, SetRatio, Htree.Aborts, Htree.Address, Htree.Distribute,
        Htree.HorizontalLevel, Htree.VerticalLevel;
      numAddressBit := BankAddressBits(c);
      if c.memoryType == Data {
        numDataDistributeBit, numDataBroadcastBit := c.blockSize, FloorLog2(c.associativity);
      } else {
        numDataDistributeBit, numDataBroadcastBit := c.associativity, c.blockSize;
      }
      LevelsFit(c);
      levelHorizontal, levelVertical := LogRound(c.mats.columns as real), LogRound(c.mats.rows as real);
      horizontal, vertical := new Level[levelHorizontal], new Level[levelVertical];
      var active := c.mats.Clamped();
      var t := Htree(numAddressBit, numDataDistributeBit, numDataBroadcastBit, levelHorizontal, levelVertical,
                     FloorLog2(active.activePerRow), FloorLog2(active.activePerColumn));
      failed, numAddressBitToRoute, numDataDistributeBitToRoute :=
        Walk(t, active.activePerRow, active.activePerColumn, horizontal, vertical);
    }
  }

  /** Active columns never outnumber the columns, so the levels suffice to halve them. */
  lemma LevelsFit(c: BankConfig)
    requires c.Positive()
    ensures LogRound(c.mats.columns as real) >= FloorLog2(c.mats.Clamped().activePerRow)
    ensures LogRound(c.mats.columns as real) >= 0 && LogRound(c.mats.rows as real) >= 0
  {
    LogRoundAtLeastFloor(c.mats.columns);
    LogRoundAtLeastFloor(c.mats.rows);
    FloorLog2Monotone(c.mats.Clamped().activePerRow, c.mats.columns);
  }

  /** The first levels of both directions, down to a point of the walk. */
  ghost predicate Filled(t: Htree, horizontal: array<Level>, vertical: array<Level>, h: int, v: int)
    reads horizontal, vertical
  {
    && horizontal != vertical
    && horizontal.Length == t.horizontalLevels && vertical.Length == t.verticalLevels
    && 0 <= h <= t.InnerColumns() && 0 <= v <= t.verticalLevels
    && (forall i :: 0 <= i < t.horizontalLevels - h ==> horizontal[i] == t.HorizontalLevel(i))
    && (forall j :: 0 <= j < t.verticalLevels - v ==> vertical[j] == t.VerticalLevel(j))
  }

  /** Reduces the horizontal levels to the number of vertical ones. */
  method WalkColumns(t: Htree, activeColumns: nat, activeRows: nat, start: Cursor, horizontal: array<Level>,
                     vertical: array<Level>)
    returns (failed: bool, s: Cursor)
    requires Describes(t, activeColumns, activeRows)
    requires Progress(t, activeColumns, activeRows, start) && start.h == t.InnerColumns() && start.v == t.verticalLevels
    requires Filled(t, horizontal, vertical, start.h, start.v)
    modifies horizontal
    ensures failed ==> t.Aborts()
    ensures !failed ==> Progress(t, activeColumns, activeRows, s) && Filled(t, horizontal, vertical, s.h, s.v)
    ensures !failed ==> s.v == start.v && s.h == Min(start.h, start.v)
  {
    hide ShiftRight, FloorLog2, Htree.Aborts, Here, Pow2, Htree.Groups, Htree.ActiveGroups, Htree.RowsAbove;
    var levelHorizontal := t.horizontalLevels;
    s, failed := start, false;
    RootGroups(t);
    while s.h > s.v
      invariant Progress(t, activeColumns, activeRows, s) && Filled(t, horizontal, vertical, s.h, s.v)
      invariant s.v == start.v && Min(start.h, start.v) <= s.h <= start.h
    {
      if s.distribute + t.broadcast == 0 || s.address == 0 {
        CheckFails(t, activeColumns, activeRows, s);
        failed := true;
        return;
      }
      ColumnStep(t, activeColumns, activeRows, s, 1);
      LevelsInOrder(t, s.h, s.v);
      var k := levelHorizontal - s.h;
      assert horizontal[k - 1] == t.HorizontalLevel(k - 1);
      var active := horizontal[k - 1].activeGroups;
      if s.columnToActive > 1 {
        s := s.(distribute := s.distribute / 2, columnToActive := s.columnToActive / 2);
        active := 2 * active;
      } else {
        s := s.(address := s.address - 1);
      }
      horizontal[k] := Level(s.address, s.distribute, t.broadcast, 1, 2 * horizontal[k - 1].groups, active);
      s := s.(h := s.h - 1, vTemp := s.vTemp * 2);
    }
  }

  /** Reduces the vertical levels to the number of horizontal ones left. */
  method WalkRows(t: Htree, activeColumns: nat, activeRows: nat, start: Cursor, horizontal: array<Level>,
                  vertical: array<Level>)
    returns (failed: bool, s: Cursor)
    requires Describes(t, activeColumns, activeRows)
    requires Progress(t, activeColumns, activeRows, start)
    requires start.v > start.h ==> start.v == t.verticalLevels && start.h == t.InnerColumns()
    requires Filled(t, horizontal, vertical, start.h, start.v)
    modifies vertical
    ensures failed ==> t.Aborts()
    ensures !failed ==> Progress(t, activeColumns, activeRows, s) && Filled(t, horizontal, vertical, s.h, s.v)
    ensures !failed ==> s.h == start.h && s.v == Min(start.h, start.v)
  {
    hide ShiftRight, FloorLog2, Htree.Aborts, Here, Pow2, Htree.Groups, Htree.ActiveGroups, Htree.ColumnsAbove;
    var levelVertical := t.verticalLevels;
    s, failed := start, false;
    RootGroups(t);
    while s.v > s.h
      invariant Progress(t, activeColumns, activeRows, s) && Filled(t, horizontal, vertical, s.h, s.v)
      invariant s.h == start.h && Min(start.h, start.v) <= s.v <= start.v
    {
      if s.distribute + t.broadcast == 0 || s.address == 0 {
        CheckFails(t, activeColumns, activeRows, s);
        failed := true;
        return;
      }
      RowStep(t, activeColumns, activeRows, s, 1);
      LevelsInOrder(t, s.h, s.v);
      var k := levelVertical - s.v;
      var active, groups := 1, 2;
      if s.v != levelVertical {
        assert vertical[k - 1] == t.VerticalLevel(k - 1);
        active := vertical[k - 1].activeGroups;
        groups := 2 * vertical[k - 1].groups;
      }
      if s.rowToActive > 1 {
        s := s.(distribute := s.distribute / 2, rowToActive := s.rowToActive / 2);
        active := 2 * active;
      } else {
        s := s.(address := s.address - 1);
      }
      vertical[k] := Level(s.address, s.distribute, t.broadcast, 1, groups, active);
      s := s.(v := s.v - 1, hTemp := s.hTemp * 2);
    }
  }

  /** The column half of an alternating step, fed by the wire just above it. */
  method SplitColumns(t: Htree, activeColumns: nat, activeRows: nat, start: Cursor, horizontal: array<Level>,
                      vertical: array<Level>)
    returns (s: Cursor)
    requires Describes(t, activeColumns, activeRows)
    requires Progress(t, activeColumns, activeRows, start) && !CheckStops(t, start) && start.h == start.v > 0
    requires Filled(t, horizontal, vertical, start.h, start.v)
    modifies horizontal
    ensures s == AfterColumn(start)
    ensures Progress(t, activeColumns, activeRows, s) && Filled(t, horizontal, vertical, s.h, s.v)
  {
    hide ShiftRight, FloorLog2, Here, Pow2, Htree.Groups, Htree.ActiveGroups, Htree.RowsAbove, Htree.ColumnsAbove;
    s := start;
    var k, l := t.horizontalLevels - s.h, t.verticalLevels - s.v;
    LevelsInOrder(t, s.h, s.v);
    ColumnStep(t, activeColumns, activeRows, s, s.hTemp);
    var above;
    if s.v == t.verticalLevels {
      above := horizontal[k - 1];
      assert above == t.HorizontalLevel(k - 1);
    } else {
      above := vertical[l - 1];
      assert above == t.VerticalLevel(l - 1);
    }
    var active := above.activeGroups;
    if s.columnToActive > 1 {
      s := s.(distribute := s.distribute / 2, columnToActive := s.columnToActive / 2);
      active := 2 * active;
    } else {
      s := s.(address := s.address - 1);
    }
    horizontal[k] := Level(s.address, s.distribute, t.broadcast, s.hTemp, 2 * above.groups, active);
    s := s.(h := s.h - 1, vTemp := s.vTemp * 2);
  }

  /** The row half, fed by the horizontal wire of the same step. */
  method SplitRows(t: Htree, activeColumns: nat, activeRows: nat, start: Cursor, horizontal: array<Level>,
                   vertical: array<Level>)
    returns (s: Cursor)
    requires Describes(t, activeColumns, activeRows)
    requires Progress(t, activeColumns, activeRows, start) && !CheckStops(t, start) && start.v == start.h + 1
    requires start.h < t.InnerColumns()
    requires Filled(t, horizontal, vertical, start.h, start.v)
    modifies vertical
    ensures s == AfterRow(start)
    ensures Progress(t, activeColumns, activeRows, s) && Filled(t, horizontal, vertical, s.h, s.v)
  {
    hide ShiftRight, FloorLog2, Here, Pow2, Htree.Groups, Htree.ActiveGroups, Htree.RowsAbove, Htree.ColumnsAbove;
    s := start;
    var k, l := t.horizontalLevels - s.h - 1, t.verticalLevels - s.v;
    LevelsInOrder(t, s.h + 1, s.v);
    var vTempBefore := s.vTemp / 2;
    HalfOfTiers(t, s);
    var tiers := if t.horizontalLevels == 2 then vTempBefore else 2 * vTempBefore;
    RowStep(t, activeColumns, activeRows, s, tiers);
    var above := horizontal[k];
    assert above == t.HorizontalLevel(k);
    var active := above.activeGroups;
    if s.rowToActive > 1 {
      s := s.(distribute := s.distribute / 2, rowToActive := s.rowToActive / 2);
      active := 2 * active;
    } else {
      s := s.(address := s.address - 1);
    }
    vertical[l] := Level(s.address, s.distribute, t.broadcast, tiers, 2 * above.groups, active);
    s := s.(v := s.v - 1, hTemp := s.hTemp * 2);
  }

  /** The vertical tiers before the column half of the step doubled them. */
  lemma HalfOfTiers(t: Htree, s: Cursor)
    requires s.h < t.InnerColumns() && s.vTemp == Pow2(t.InnerColumns() - s.h)
    ensures s.vTemp / 2 == Pow2(t.InnerColumns() - s.h - 1) && s.vTemp == 2 * (s.vTemp / 2)
  {
  }

  /**
   * Walks the tree from the root. The result is what is left for the two sides of the last
   * column split, or that routing failed on the way.
   */
  method Walk(t: Htree, activeColumns: nat, activeRows: nat, horizontal: array<Level>, vertical: array<Level>)
    returns (failed: bool, numAddressBitToRoute: int, numDataDistributeBitToRoute: int)
    requires Describes(t, activeColumns, activeRows)
    requires t.columnHalvings <= t.horizontalLevels
    requires horizontal != vertical
    requires horizontal.Length == t.horizontalLevels && vertical.Length == t.verticalLevels
    modifies horizontal, vertical
    ensures failed <==> t.Aborts()
    ensures !failed ==> numAddressBitToRoute == t.Address(t.horizontalLevels, t.verticalLevels)
    ensures !failed ==> numDataDistributeBitToRoute == t.Distribute(t.horizontalLevels, t.verticalLevels)
    ensures !failed ==> forall i :: 0 <= i < horizontal.Length ==> horizontal[i] == t.HorizontalLevel(i)
    ensures !failed ==> forall j :: 0 <= j < vertical.Length ==> vertical[j] == t.VerticalLevel(j)
  {
    hide ShiftRight, FloorLog2, Htree.Aborts, Here, Pow2;
    numAddressBitToRoute, numDataDistributeBitToRoute, failed := t.address, t.distribute, true;
    var s := Cursor(t.InnerColumns(), t.verticalLevels, 1, 1, t.address, t.distribute, activeColumns, activeRows);
    ProgressStarts(t, activeColumns, activeRows);
    if t.horizontalLevels > 0 {
      if s.distribute + t.broadcast == 0 || s.address == 0 {
        CheckFails(t, activeColumns, activeRows, s);
        return;
      }
      horizontal[0] := Level(s.address, s.distribute, t.broadcast, 1, 1, 1);
    }
    var stuck;
    stuck, s := WalkColumns(t, activeColumns, activeRows, s, horizontal, vertical);
    if stuck {
      return;
    }
    stuck, s := WalkRows(t, activeColumns, activeRows, s, horizontal, vertical);
    if stuck {
      return;
    }
    while s.h > 0
      invariant Progress(t, activeColumns, activeRows, s) && Filled(t, horizontal, vertical, s.h, s.v) && s.h == s.v
      decreases s.h
    {
      if s.distribute + t.broadcast == 0 || s.address == 0 {
        CheckFails(t, activeColumns, activeRows, s);
        return;
      }
      s := SplitColumns(t, activeColumns, activeRows, s, horizontal, vertical);
      if s.distribute + t.broadcast == 0 || s.address == 0 {
        CheckFails(t, activeColumns, activeRows, s);
        return;
      }
      s := SplitRows(t, activeColumns, activeRows, s, horizontal, vertical);
    }
    if s.distribute + t.broadcast == 0 || s.address == 0 {
      CheckFails(t, activeColumns, activeRows, s);
      return;
    }
    WalkSucceeds(t, activeColumns, activeRows, s);
    numAddressBitToRoute, numDataDistributeBitToRoute, failed := s.address, s.distribute, false;
    if s.columnToActive > 1 {
      numDataDistributeBitToRoute := numDataDistributeBitToRoute / 2;
    } else {
      if t.horizontalLevels > 0 {
        numAddressBitToRoute := numAddressBitToRoute - 1;
      }
    }
  }
}
