/** Conservation along the wires of an H-tree, level by level and over the whole tree. */
module HtreeLaws {
  import opened PowersOfTwo
  import opened MatLaws
  import opened Htrees

  /** The active wires of a level carry the data between them, and the address bits dropped so far name the group. */
  ghost predicate Conserves(t: Htree, level: Level) {
    && level.activeGroups > 0 && level.address <= t.address
    && level.broadcast == t.broadcast
    && level.activeGroups * level.distribute == WholePart(t.distribute, level.activeGroups)
    && level.groups == level.activeGroups * Pow2(t.address - level.address)
  }

  lemma PointConserves(t: Htree, a: nat, b: nat, tiers: int)
    ensures Conserves(t, t.At(a, b, tiers))
  {
    hide Pow2;
    var k := t.Halvings(a, b);
    Pow2Add(k, a + b - k);
    var p := Pow2(k);
    QuotientTimesDivisor(t.distribute, p);
  }

  lemma QuotientTimesDivisor(x: nat, p: nat)
    requires p > 0
    ensures p * (x / p) == WholePart(x, p)
  {
  }

  /** The active wires carry all of the data exactly when their number divides it. */
  ghost predicate CarriesAllIfEven(t: Htree, level: Level) {
    && level.activeGroups > 0
    && (level.activeGroups * level.distribute == t.distribute <==> t.distribute % level.activeGroups == 0)
  }

  lemma NothingLost(t: Htree, level: Level)
    requires Conserves(t, level)
    ensures CarriesAllIfEven(t, level)
  {
  }

  /**
   * On every level of both directions nothing is lost but the remainder of an uneven word:
   * all of the data is on the active wires exactly when their number divides it.
   */
  lemma EveryLevelConserves(t: Htree)
    ensures forall i: nat :: i < t.horizontalLevels ==>
      Conserves(t, t.HorizontalLevel(i)) && CarriesAllIfEven(t, t.HorizontalLevel(i))
    ensures forall j: nat :: j < t.verticalLevels ==>
      Conserves(t, t.VerticalLevel(j)) && CarriesAllIfEven(t, t.VerticalLevel(j))
  {
    hide Pow2, Conserves, CarriesAllIfEven, Htree.At;
    forall i: nat | i < t.horizontalLevels
      ensures Conserves(t, t.HorizontalLevel(i)) && CarriesAllIfEven(t, t.HorizontalLevel(i))
    {
      PointConserves(t, i, t.RowsAbove(i), Pow2(t.RowsAbove(i)));
      NothingLost(t, t.HorizontalLevel(i));
    }
    forall j: nat | j < t.verticalLevels
      ensures Conserves(t, t.VerticalLevel(j)) && CarriesAllIfEven(t, t.VerticalLevel(j))
    {
      PointConserves(t, t.ColumnsAbove(j), j + 1, t.VerticalTiers(j));
      NothingLost(t, t.VerticalLevel(j));
    }
  }

  /** Horizontal tiers times the wires of one tier make the groups; vertical ones only in some trees. */
  lemma TiersOfGroups(t: Htree, i: nat, j: nat)
    ensures t.HorizontalLevel(i).groups == t.HorizontalLevel(i).tiers * Pow2(i)
    ensures t.VerticalLevel(j).groups == t.VerticalLevel(j).tiers * Pow2(j + 1)
      <==> t.horizontalLevels != 2 || t.ColumnsAbove(j) == 0
  {
    hide Pow2;
    Pow2Add(t.RowsAbove(i), i);
    var a := t.ColumnsAbove(j);
    Pow2Add(a, j + 1);
    if t.horizontalLevels == 2 && a > 0 {
      Pow2Add(a - 1, j + 1);
      Pow2Increasing(a - 1 + j + 1, a + j + 1);
    }
  }

  /** Where they do not, exactly half of the groups is accounted for. */
  lemma TiersHalved(t: Htree, j: nat)
    requires t.horizontalLevels == 2 && t.ColumnsAbove(j) > 0
    ensures t.VerticalLevel(j).groups == 2 * (t.VerticalLevel(j).tiers * Pow2(j + 1))
  {
    hide Pow2;
    var a := t.ColumnsAbove(j);
    Pow2Add(a - 1, j + 1);
    Pow2Add(a + j, 1);
    assert Pow2(1) == 2 by { PowerOfOne(); }
  }

  lemma PowerOfOne()
    ensures Pow2(1) == 2
  {
    assert Pow2(1) == 2 * Pow2(0);
  }

  /**
   * The order of the levels. Horizontal level i lies above vertical level j for both or for
   * neither; the direction with more levels runs alone first, and then they alternate.
   */
  lemma LevelsInterleave(t: Htree, i: nat, j: nat)
    requires 0 < i < t.horizontalLevels && j < t.verticalLevels
    ensures t.RowsAbove(i) <= j <==> i <= t.ColumnsAbove(j)
    ensures i < t.horizontalLevels - t.verticalLevels ==> t.RowsAbove(i) == 0
    ensures j <= t.verticalLevels - t.horizontalLevels ==> t.ColumnsAbove(j) == 0
    ensures i >= t.horizontalLevels - t.verticalLevels ==>
      t.verticalLevels - t.RowsAbove(i) == t.horizontalLevels - i
    ensures j >= t.verticalLevels - t.horizontalLevels ==>
      t.horizontalLevels - 1 - t.ColumnsAbove(j) == t.verticalLevels - 1 - j
  {
  }

  /** Four columns and two rows of mats: four groups of vertical wires, of which the tier count covers two. */
  lemma TiersLost(t: Htree)
    requires t.horizontalLevels == 2 && t.verticalLevels == 1
    ensures t.VerticalLevel(0).groups == 4 && t.VerticalLevel(0).tiers == 1
    ensures t.VerticalLevel(0).groups != t.VerticalLevel(0).tiers * Pow2(1)
  {
    assert Pow2(1) == 2 * Pow2(0) && Pow2(2) == 2 * Pow2(1);
  }

  // ---- the number of wire groups ----

  function HorizontalGroups(t: Htree, levels: nat): nat {
    if levels == 0 then 0 else HorizontalGroups(t, levels - 1) + t.HorizontalLevel(levels - 1).groups
  }

  function VerticalGroups(t: Htree, levels: nat): nat {
    if levels == 0 then 0 else VerticalGroups(t, levels - 1) + t.VerticalLevel(levels - 1).groups
  }

  /** A point that the walk passes through: one direction alone, then both in turn. */
  ghost predicate OnPath(t: Htree, a: nat, b: nat) {
    && a <= t.InnerColumns() && b <= t.verticalLevels
    && (|| (b == 0 && a <= t.InnerColumns() - t.verticalLevels)
        || (a == 0 && b <= t.verticalLevels - t.InnerColumns())
        || a - b == t.InnerColumns() - t.verticalLevels
        || a - b == t.InnerColumns() - t.verticalLevels + 1)
  }

  ghost predicate CameByRow(t: Htree, a: nat, b: nat) {
    b > 0 && OnPath(t, a, b - 1) && t.ColumnsAbove(b - 1) == a
  }

  ghost predicate CameByColumn(t: Htree, a: nat, b: nat) {
    a > 0 && OnPath(t, a - 1, b) && t.RowsAbove(a) == b
  }

  lemma StepBack(t: Htree, a: nat, b: nat)
    requires OnPath(t, a, b) && (a > 0 || b > 0)
    ensures CameByRow(t, a, b) || CameByColumn(t, a, b)
  {
  }

  lemma LevelGroups(t: Htree, a: nat, b: nat)
    ensures t.HorizontalLevel(a).groups == Pow2(a + t.RowsAbove(a))
    ensures b > 0 ==> t.VerticalLevel(b - 1).groups == Pow2(t.ColumnsAbove(b - 1) + b)
  {
  }

  /** After a column splits and b row splits the levels above form a complete binary tree. */
  lemma {:induction false} GroupsAbove(t: Htree, a: nat, b: nat)
    requires t.horizontalLevels > 0 && OnPath(t, a, b)
    ensures HorizontalGroups(t, a + 1) + VerticalGroups(t, b) == Pow2(a + b + 1) - 1
    decreases a + b
  {
    hide OnPath, Htree.HorizontalLevel, Htree.VerticalLevel, Htree.RowsAbove, Htree.ColumnsAbove;
    LevelGroups(t, a, b);
    if a == 0 && b == 0 {
      RootOnly(t);
    } else {
      StepBack(t, a, b);
      if CameByRow(t, a, b) {
        GroupsAbove(t, a, b - 1);
      } else {
        GroupsAbove(t, a - 1, b);
      }
    }
  }

  lemma RootOnly(t: Htree)
    ensures HorizontalGroups(t, 1) + VerticalGroups(t, 0) == 1 == Pow2(1) - 1
  {
    assert t.HorizontalLevel(0).groups == Pow2(0);
    assert HorizontalGroups(t, 1) == HorizontalGroups(t, 0) + 1;
  }

  lemma {:induction false} GroupsOfColumn(t: Htree, b: nat)
    requires t.horizontalLevels == 0 && b <= t.verticalLevels
    ensures VerticalGroups(t, b) == Pow2(b + 1) - 2
  {
    if b == 0 {
      assert Pow2(1) == 2 * Pow2(0);
    } else {
      GroupsOfColumn(t, b - 1);
      assert t.VerticalLevel(b - 1).groups == Pow2(b);
    }
  }

  /** All wire groups of a tree: one less than its mats, or for a single column twice one less than its rows. */
  lemma GroupCount(t: Htree)
    ensures HorizontalGroups(t, t.horizontalLevels) + VerticalGroups(t, t.verticalLevels)
      == if t.horizontalLevels > 0 then Pow2(t.horizontalLevels) * Pow2(t.verticalLevels) - 1
         else 2 * Pow2(t.verticalLevels) - 2
  {
    if t.horizontalLevels > 0 {
      hide Pow2, Htree.At;
      GroupsAbove(t, t.InnerColumns(), t.verticalLevels);
      Pow2Add(t.horizontalLevels, t.verticalLevels);
    } else {
      GroupsOfColumn(t, t.verticalLevels);
    }
  }
}
