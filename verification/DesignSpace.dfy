/** The nested loops of the exhaustive search, and the organisations they reach. */
module DesignSpace {
  import opened PowersOfTwo

  // The loop variables, outermost first.
  const ROW_MAT := 0
  const COLUMN_MAT := 1
  const ACTIVE_MAT_PER_ROW := 2
  const ACTIVE_MAT_PER_COLUMN := 3
  const ROW_SUBARRAY := 4
  const COLUMN_SUBARRAY := 5
  const ACTIVE_SUBARRAY_PER_ROW := 6
  const ACTIVE_SUBARRAY_PER_COLUMN := 7
  const MUX_SENSE_AMP := 8
  const MUX_OUTPUT_LEV1 := 9
  const MUX_OUTPUT_LEV2 := 10
  const ROW_PER_SET := 11
  const AREA_OPTIMIZATION := 12
  const LOOPS := 13

  /** Minimum and maximum of every loop variable, and the associativity that bounds the rows of a set. */
  datatype Bounds = Bounds(lo: seq<int>, hi: seq<int>, associativity: int) {
    predicate WellFormed() {
      |lo| == LOOPS && |hi| == LOOPS && forall d :: 0 <= d < AREA_OPTIMIZATION ==> lo[d] >= 1
    }
  }

  /** The outer variable that an active count may not exceed, or -1. */
  function CappedBy(d: nat): int {
    if d == ACTIVE_MAT_PER_ROW then COLUMN_MAT
    else if d == ACTIVE_MAT_PER_COLUMN then ROW_MAT
    else if d == ACTIVE_SUBARRAY_PER_ROW then COLUMN_SUBARRAY
    else if d == ACTIVE_SUBARRAY_PER_COLUMN then ROW_SUBARRAY
    else -1
  }

  function Low(b: Bounds, outer: seq<int>): int
    requires b.WellFormed() && |outer| < LOOPS
  {
    var d := |outer|;
    if CappedBy(d) >= 0 then Min(outer[CappedBy(d)], b.lo[d]) else b.lo[d]
  }

  function High(b: Bounds, outer: seq<int>): int
    requires b.WellFormed() && |outer| < LOOPS
  {
    var d := |outer|;
    if CappedBy(d) >= 0 then Min(outer[CappedBy(d)], b.hi[d])
    else if d == ROW_PER_SET then Min(b.hi[d], b.associativity)
    else b.hi[d]
  }

  function Next(d: nat, x: int): int {
    if d == AREA_OPTIMIZATION then x + 1 else x * 2
  }

  /** The counts chosen so far by the outer loops are positive. */
  ghost predicate PositiveCounts(outer: seq<int>) {
    |outer| <= LOOPS && forall d :: 0 <= d < |outer| && d != AREA_OPTIMIZATION ==> outer[d] >= 1
  }

  // ---- the loops ----

  /** All choices that extend those of the outer loops, in the order of the loops. */
  function Visits(b: Bounds, outer: seq<int>): seq<seq<int>>
    requires b.WellFormed() && PositiveCounts(outer)
    decreases LOOPS - |outer|, 1, 0
  {
    if |outer| == LOOPS then [outer] else VisitsFrom(b, outer, Low(b, outer))
  }

  function VisitsFrom(b: Bounds, outer: seq<int>, x: int): seq<seq<int>>
    requires b.WellFormed() && PositiveCounts(outer) && |outer| < LOOPS
    requires |outer| != AREA_OPTIMIZATION ==> x >= 1
    decreases LOOPS - |outer|, 0, Max(0, High(b, outer) + 1 - x)
  {
    if x > High(b, outer) then []
    else Visits(b, outer + [x]) + VisitsFrom(b, outer, Next(|outer|, x))
  }

  /** The search loops. Each activation runs the loop of one variable around those inside it. */
  method BigFor(b: Bounds, outer: seq<int>) returns (visits: seq<seq<int>>)
    requires b.WellFormed() && PositiveCounts(outer)
    ensures visits == Visits(b, outer)
    decreases LOOPS - |outer|
  {
    if |outer| == LOOPS {
      return [outer];
    }
    visits := [];
    var x := Low(b, outer);
    while x <= High(b, outer)
      invariant |outer| != AREA_OPTIMIZATION ==> x >= 1
      invariant visits + VisitsFrom(b, outer, x) == Visits(b, outer)
      decreases High(b, outer) - x
    {
      var inner := BigFor(b, outer + [x]);
      assert visits + (inner + VisitsFrom(b, outer, Next(|outer|, x)))
        == visits + inner + VisitsFrom(b, outer, Next(|outer|, x));
      visits := visits + inner;
      x := Next(|outer|, x);
    }
  }

  // ---- what they reach ----

  /** A value that the innermost of these loops takes: the minimum doubled some times, up to the maximum. */
  ghost predicate Reaches(b: Bounds, outer: seq<int>, x: int)
    requires b.WellFormed() && |outer| < LOOPS
  {
    && x <= High(b, outer)
    && if |outer| == AREA_OPTIMIZATION then Low(b, outer) <= x
       else exists k: nat :: x == Low(b, outer) * Pow2(k)
  }

  ghost predicate ReachesFrom(b: Bounds, outer: seq<int>, from: int, x: int)
    requires b.WellFormed() && |outer| < LOOPS
  {
    && x <= High(b, outer)
    && if |outer| == AREA_OPTIMIZATION then from <= x else exists k: nat :: x == from * Pow2(k)
  }

  lemma ReachesNext(b: Bounds, outer: seq<int>, from: int, x: int)
    requires b.WellFormed() && |outer| < LOOPS
    requires |outer| != AREA_OPTIMIZATION ==> from >= 1
    ensures ReachesFrom(b, outer, from, x)
      <==> from <= High(b, outer) && (x == from || ReachesFrom(b, outer, Next(|outer|, from), x))
    ensures ReachesFrom(b, outer, from, x) ==> x >= from
  {
    if |outer| != AREA_OPTIMIZATION {
      if k: nat :| x == from * Pow2(k) {
        ProductAtLeast(Pow2(k), from);
        if k > 0 {
          Doubled(from, k);
        }
      }
      if k: nat :| x == from * 2 * Pow2(k) {
        Doubled(from, k + 1);
        ProductAtLeast(Pow2(k + 1), from);
        assert x == from * Pow2(k + 1);
      }
      assert from == from * Pow2(0);
    }
  }

  lemma Doubled(from: int, k: nat)
    requires k > 0
    ensures from * Pow2(k) == from * 2 * Pow2(k - 1)
  {
  }

  /** The innermost choices of a tuple are reachable, from some loop inwards. */
  ghost predicate InnerReached(b: Bounds, t: seq<int>, from: nat)
    requires b.WellFormed()
  {
    |t| == LOOPS && forall d :: from <= d < LOOPS ==> Reaches(b, t[..d], t[d])
  }

  ghost predicate InSpace(b: Bounds, t: seq<int>)
    requires b.WellFormed()
  {
    InnerReached(b, t, 0)
  }

  lemma {:induction false} VisitsExactly(b: Bounds, outer: seq<int>, t: seq<int>)
    requires b.WellFormed() && PositiveCounts(outer)
    ensures t in Visits(b, outer) <==> outer <= t && InnerReached(b, t, |outer|)
    decreases LOOPS - |outer|, 1, 0
  {
    if |outer| == LOOPS {
      assert outer <= t && |t| == LOOPS ==> t == outer;
    } else {
      VisitsFromExactly(b, outer, Low(b, outer), t);
    }
  }

  lemma {:induction false} VisitsFromExactly(b: Bounds, outer: seq<int>, from: int, t: seq<int>)
    requires b.WellFormed() && PositiveCounts(outer) && |outer| < LOOPS
    requires |outer| != AREA_OPTIMIZATION ==> from >= 1
    ensures t in VisitsFrom(b, outer, from)
      <==> outer < t && ReachesFrom(b, outer, from, t[|outer|]) && InnerReached(b, t, |outer| + 1)
    decreases LOOPS - |outer|, 0, Max(0, High(b, outer) + 1 - from)
  {
    hide Pow2, InnerReached;
    if outer < t {
      ReachesNext(b, outer, from, t[|outer|]);
    }
    if from <= High(b, outer) {
      VisitsExactly(b, outer + [from], t);
      VisitsFromExactly(b, outer, Next(|outer|, from), t);
      if outer < t {
        assert outer + [from] <= t <==> t[|outer|] == from;
      }
    }
  }

  /** The loops reach exactly the minima doubled up to the maxima, with no active count above its total. */
  lemma SearchIsExhaustive(b: Bounds, t: seq<int>)
    requires b.WellFormed()
    ensures t in Visits(b, []) <==> InSpace(b, t)
  {
    VisitsExactly(b, [], t);
  }

  /** A minimum doubled some times, not beyond the maximum. */
  ghost predicate DoublesTo(lo: int, hi: int, x: int) {
    x <= hi && exists k: nat :: x == lo * Pow2(k)
  }

  /** An active count, whose bounds are lowered to the total that it is part of. */
  ghost predicate ActiveDoublesTo(lo: int, hi: int, total: int, x: int) {
    DoublesTo(if total < lo then total else lo, if total < hi then total else hi, x)
  }

  /** What is visited, count by count. */
  lemma VisitsByCount(b: Bounds, t: seq<int>)
    requires b.WellFormed()
    ensures t in Visits(b, [])
      <==> && |t| == LOOPS
           && DoublesTo(b.lo[ROW_MAT], b.hi[ROW_MAT], t[ROW_MAT])
           && DoublesTo(b.lo[COLUMN_MAT], b.hi[COLUMN_MAT], t[COLUMN_MAT])
           && ActiveDoublesTo(b.lo[ACTIVE_MAT_PER_ROW], b.hi[ACTIVE_MAT_PER_ROW],
                              t[COLUMN_MAT], t[ACTIVE_MAT_PER_ROW])
           && ActiveDoublesTo(b.lo[ACTIVE_MAT_PER_COLUMN], b.hi[ACTIVE_MAT_PER_COLUMN],
                              t[ROW_MAT], t[ACTIVE_MAT_PER_COLUMN])
           && DoublesTo(b.lo[ROW_SUBARRAY], b.hi[ROW_SUBARRAY], t[ROW_SUBARRAY])
           && DoublesTo(b.lo[COLUMN_SUBARRAY], b.hi[COLUMN_SUBARRAY], t[COLUMN_SUBARRAY])
           && ActiveDoublesTo(b.lo[ACTIVE_SUBARRAY_PER_ROW], b.hi[ACTIVE_SUBARRAY_PER_ROW],
                              t[COLUMN_SUBARRAY], t[ACTIVE_SUBARRAY_PER_ROW])
           && ActiveDoublesTo(b.lo[ACTIVE_SUBARRAY_PER_COLUMN], b.hi[ACTIVE_SUBARRAY_PER_COLUMN],
                              t[ROW_SUBARRAY], t[ACTIVE_SUBARRAY_PER_COLUMN])
           && DoublesTo(b.lo[MUX_SENSE_AMP], b.hi[MUX_SENSE_AMP], t[MUX_SENSE_AMP])
           && DoublesTo(b.lo[MUX_OUTPUT_LEV1], b.hi[MUX_OUTPUT_LEV1], t[MUX_OUTPUT_LEV1])
           && DoublesTo(b.lo[MUX_OUTPUT_LEV2], b.hi[MUX_OUTPUT_LEV2], t[MUX_OUTPUT_LEV2])
           && DoublesTo(b.lo[ROW_PER_SET], b.hi[ROW_PER_SET], t[ROW_PER_SET]) && t[ROW_PER_SET] <= b.associativity
           && b.lo[AREA_OPTIMIZATION] <= t[AREA_OPTIMIZATION] <= b.hi[AREA_OPTIMIZATION]
  {
    hide Pow2, Visits, DoublesTo, ActiveDoublesTo, Reaches;
    SearchIsExhaustive(b, t);
    if |t| == LOOPS {
      forall d: nat | d < LOOPS
        ensures Reaches(b, t[..d], t[d]) <==> CountReached(b, t, d)
      {
        ReachedByCount(b, t, d);
      }
      EveryCount(b, t);
    }
  }

  ghost predicate CountReached(b: Bounds, t: seq<int>, d: nat)
    requires b.WellFormed() && |t| == LOOPS && d < LOOPS
  {
    if d == ACTIVE_MAT_PER_ROW then ActiveDoublesTo(b.lo[d], b.hi[d], t[COLUMN_MAT], t[d])
    else if d == ACTIVE_MAT_PER_COLUMN then ActiveDoublesTo(b.lo[d], b.hi[d], t[ROW_MAT], t[d])
    else if d == ACTIVE_SUBARRAY_PER_ROW then ActiveDoublesTo(b.lo[d], b.hi[d], t[COLUMN_SUBARRAY], t[d])
    else if d == ACTIVE_SUBARRAY_PER_COLUMN then ActiveDoublesTo(b.lo[d], b.hi[d], t[ROW_SUBARRAY], t[d])
    else if d == ROW_PER_SET then DoublesTo(b.lo[d], b.hi[d], t[d]) && t[d] <= b.associativity
    else if d == AREA_OPTIMIZATION then b.lo[d] <= t[d] <= b.hi[d]
    else DoublesTo(b.lo[d], b.hi[d], t[d])
  }

  lemma ReachedByCount(b: Bounds, t: seq<int>, d: nat)
    requires b.WellFormed() && |t| == LOOPS && d < LOOPS
    ensures Reaches(b, t[..d], t[d]) <==> CountReached(b, t, d)
  {
    hide Pow2;
    if CappedBy(d) >= 0 {
      assert t[..d][CappedBy(d)] == t[CappedBy(d)];
    }
  }

  lemma EveryCount(b: Bounds, t: seq<int>)
    requires b.WellFormed() && |t| == LOOPS
    ensures (forall d: nat :: d < LOOPS ==> CountReached(b, t, d))
      <==> && CountReached(b, t, 0) && CountReached(b, t, 1) && CountReached(b, t, 2) && CountReached(b, t, 3)
           && CountReached(b, t, 4) && CountReached(b, t, 5) && CountReached(b, t, 6) && CountReached(b, t, 7)
           && CountReached(b, t, 8) && CountReached(b, t, 9) && CountReached(b, t, 10) && CountReached(b, t, 11)
           && CountReached(b, t, 12)
  {
    hide CountReached;
  }

  /** The order of nested loops. */
  ghost predicate Before(s: seq<int>, t: seq<int>) {
    exists d :: 0 <= d < |s| && d < |t| && s[..d] == t[..d] && s[d] < t[d]
  }

  ghost predicate InOrder(visits: seq<seq<int>>) {
    forall i, j :: 0 <= i < j < |visits| ==> Before(visits[i], visits[j])
  }

  lemma {:induction false} VisitsInOrder(b: Bounds, outer: seq<int>)
    requires b.WellFormed() && PositiveCounts(outer)
    ensures InOrder(Visits(b, outer))
    decreases LOOPS - |outer|, 1, 0
  {
    if |outer| < LOOPS {
      VisitsFromInOrder(b, outer, Low(b, outer));
    }
  }

  lemma {:induction false} VisitsFromInOrder(b: Bounds, outer: seq<int>, from: int)
    requires b.WellFormed() && PositiveCounts(outer) && |outer| < LOOPS
    requires |outer| != AREA_OPTIMIZATION ==> from >= 1
    ensures InOrder(VisitsFrom(b, outer, from))
    decreases LOOPS - |outer|, 0, Max(0, High(b, outer) + 1 - from)
  {
    hide Visits, InSpace, InnerReached, ReachesFrom, Before;
    if from <= High(b, outer) {
      var first, rest := Visits(b, outer + [from]), VisitsFrom(b, outer, Next(|outer|, from));
      VisitsInOrder(b, outer + [from]);
      VisitsFromInOrder(b, outer, Next(|outer|, from));
      forall s, t | s in first && t in rest
        ensures Before(s, t)
      {
        VisitsExactly(b, outer + [from], s);
        VisitsFromExactly(b, outer, Next(|outer|, from), t);
        ReachesNext(b, outer, Next(|outer|, from), t[|outer|]);
        FirstDifference(outer, from, s, t);
      }
      ConcatInOrder(first, rest);
    }
  }

  lemma FirstDifference(outer: seq<int>, from: int, s: seq<int>, t: seq<int>)
    requires outer + [from] <= s && outer < t && from < t[|outer|]
    ensures Before(s, t)
  {
    assert s[..|outer|] == outer == t[..|outer|];
    assert s[|outer|] == from;
  }

  lemma ConcatInOrder(first: seq<seq<int>>, rest: seq<seq<int>>)
    requires InOrder(first) && InOrder(rest)
    requires forall s, t :: s in first && t in rest ==> Before(s, t)
    ensures InOrder(first + rest)
  {
    hide Before;
    var all := first + rest;
    forall i, j | 0 <= i < j < |all|
      ensures Before(all[i], all[j])
    {
      if i < |first| <= j {
        assert all[i] in first && all[j] in rest;
      }
    }
  }

  /** No organisation is visited twice. */
  lemma SearchVisitsOnce(b: Bounds, i: nat, j: nat)
    requires b.WellFormed()
    requires i < j < |Visits(b, [])|
    ensures Before(Visits(b, [])[i], Visits(b, [])[j]) && Visits(b, [])[i] != Visits(b, [])[j]
  {
    hide Visits;
    VisitsInOrder(b, []);
  }
}
