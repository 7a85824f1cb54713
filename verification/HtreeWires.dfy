/** The lengths of the wires of an H-tree, computed from the mats upwards. */
module HtreeWires {
  import opened Htrees
  import opened PowersOfTwo

  /** The size of a mat, how many wires share one width, and the pitch that a wire adds. */
  datatype Geometry = Geometry(matWidth: real, matHeight: real, wiresPerWidth: int, pitch: real)

  function Ceiling(x: real): int {
    -((-x).Floor)
  }

  function BitsOn(level: Level): int {
    level.address + level.distribute + level.broadcast
  }

  /** Half of the silicon width that the crossing wires of a level take. */
  function Detour(g: Geometry, level: Level): real
    requires g.wiresPerWidth >= 1
  {
    Ceiling(BitsOn(level) as real / g.wiresPerWidth as real) as real * g.pitch / 2.0
  }

  function Detours(g: Geometry, levels: seq<Level>): real
    requires g.wiresPerWidth >= 1
  {
    if levels == [] then 0.0 else Detours(g, levels[..|levels| - 1]) + Detour(g, levels[|levels| - 1])
  }

  /** How many of the horizontal levels next to the root have no vertical partner. */
  function Alone(hs: seq<Level>, vs: seq<Level>): nat {
    Max(|hs| - |vs|, 0)
  }

  function VerticalLength(g: Geometry, hs: seq<Level>, vs: seq<Level>, v: nat): real
    requires g.wiresPerWidth >= 1 && v < |vs|
    decreases |vs| - v
  {
    if v == |vs| - 1 then g.matHeight / 2.0
    else
      var h := v + Alone(hs, vs);
      VerticalLength(g, hs, vs, v + 1) * 2.0 + (if h + 1 < |hs| then Detour(g, hs[h + 1]) else 0.0)
  }

  function HorizontalLength(g: Geometry, hs: seq<Level>, vs: seq<Level>, h: nat): real
    requires g.wiresPerWidth >= 1 && h < |hs|
    decreases |hs| - h
  {
    var v := h - Alone(hs, vs);
    if h == |hs| - 1 then g.matWidth + (if 0 <= v < |vs| then Detours(g, vs[v..]) else 0.0)
    else HorizontalLength(g, hs, vs, h + 1) * 2.0 + (if 0 <= v < |vs| then Detour(g, vs[v]) else 0.0)
  }

  lemma VerticalStep(g: Geometry, hs: seq<Level>, vs: seq<Level>, v: nat)
    requires g.wiresPerWidth >= 1 && v < |vs|
    ensures var h := v + Alone(hs, vs);
      VerticalLength(g, hs, vs, v)
      == if v == |vs| - 1 then g.matHeight / 2.0
         else VerticalLength(g, hs, vs, v + 1) * 2.0 + (if h + 1 < |hs| then Detour(g, hs[h + 1]) else 0.0)
  {
  }

  lemma HorizontalStep(g: Geometry, hs: seq<Level>, vs: seq<Level>, h: nat)
    requires g.wiresPerWidth >= 1 && h < |hs|
    ensures var v := h - Alone(hs, vs);
      HorizontalLength(g, hs, vs, h)
      == if h == |hs| - 1 then g.matWidth + (if 0 <= v < |vs| then Detours(g, vs[v..]) else 0.0)
         else HorizontalLength(g, hs, vs, h + 1) * 2.0 + (if 0 <= v < |vs| then Detour(g, vs[v]) else 0.0)
  {
  }

  /** Fills both length arrays, the longer direction first, every entry once. */
  method CalculateLengths(g: Geometry, horizontal: array<Level>, vertical: array<Level>,
                          lengthHorizontalWire: array<real>, lengthVerticalWire: array<real>)
    requires g.wiresPerWidth >= 1
    requires lengthHorizontalWire != lengthVerticalWire
    requires lengthHorizontalWire.Length == horizontal.Length && lengthVerticalWire.Length == vertical.Length
    modifies lengthHorizontalWire, lengthVerticalWire
    ensures forall h :: 0 <= h < horizontal.Length ==>
      lengthHorizontalWire[h] == HorizontalLength(g, horizontal[..], vertical[..], h)
    ensures forall v :: 0 <= v < vertical.Length ==>
      lengthVerticalWire[v] == VerticalLength(g, horizontal[..], vertical[..], v)
  {
    hide Detour, Detours, VerticalLength, HorizontalLength;
    var levelHorizontal, levelVertical := horizontal.Length, vertical.Length;
    ghost var hs, vs := horizontal[..], vertical[..];
    var h, v := levelHorizontal - 1, levelVertical - 1;
    while v > h
      invariant h == levelHorizontal - 1 && v < levelVertical && v >= Min(h, levelVertical - 1)
      invariant horizontal[..] == hs && vertical[..] == vs
      invariant forall k :: v < k < levelVertical ==> lengthVerticalWire[k] == VerticalLength(g, hs, vs, k)
    {
      VerticalStep(g, hs, vs, v);
      if v == levelVertical - 1 {
        lengthVerticalWire[v] := g.matHeight / 2.0;
      } else {
        lengthVerticalWire[v] := lengthVerticalWire[v + 1] * 2.0;
      }
      v := v - 1;
    }

    while v >= 0
      invariant -1 <= v < levelVertical && h == v + Alone(hs, vs) && h < levelHorizontal
      invariant horizontal[..] == hs && vertical[..] == vs
      invariant forall k :: v < k < levelVertical ==> lengthVerticalWire[k] == VerticalLength(g, hs, vs, k)
      invariant forall k :: h < k < levelHorizontal ==> lengthHorizontalWire[k] == HorizontalLength(g, hs, vs, k)
    {
      VerticalStep(g, hs, vs, v);
      if v == levelVertical - 1 {
        lengthVerticalWire[v] := g.matHeight / 2.0;
      } else {
        if h == levelHorizontal - 1 {
          lengthVerticalWire[v] := lengthVerticalWire[v + 1] * 2.0;
        } else {
          lengthVerticalWire[v] := lengthVerticalWire[v + 1] * 2.0 + Detour(g, horizontal[h + 1]);
        }
      }
      HorizontalStep(g, hs, vs, h);
      if h == levelHorizontal - 1 {
        var sum := SumDetours(g, vertical, v);
        assert vertical[v..] == vs[v..];
        lengthHorizontalWire[h] := g.matWidth + sum;
      } else {
        lengthHorizontalWire[h] := lengthHorizontalWire[h + 1] * 2.0 + Detour(g, vertical[v]);
      }
      v := v - 1;
      h := h - 1;
    }

    while h >= 0
      invariant -1 <= h < levelHorizontal && h < Alone(hs, vs)
      invariant horizontal[..] == hs && vertical[..] == vs
      invariant forall k :: 0 <= k < levelVertical ==> lengthVerticalWire[k] == VerticalLength(g, hs, vs, k)
      invariant forall k :: h < k < levelHorizontal ==> lengthHorizontalWire[k] == HorizontalLength(g, hs, vs, k)
    {
      HorizontalStep(g, hs, vs, h);
      if h == levelHorizontal - 1 {
        lengthHorizontalWire[h] := g.matWidth;
      } else {
        lengthHorizontalWire[h] := lengthHorizontalWire[h + 1] * 2.0;
      }
      h := h - 1;
    }
  }

  method SumDetours(g: Geometry, vertical: array<Level>, v: nat) returns (sum: real)
    requires g.wiresPerWidth >= 1 && v < vertical.Length
    ensures sum == Detours(g, vertical[v..])
  {
    hide Detour;
    sum := 0.0;
    for i := v to vertical.Length
      invariant sum == Detours(g, vertical[v..i])
    {
      assert vertical[v..i + 1][..i - v] == vertical[v..i];
      sum := sum + Detour(g, vertical[i]);
    }
    assert vertical[v..vertical.Length] == vertical[v..];
  }

  /** A level carries wires, so the pitch can only lengthen what crosses them. */
  ghost predicate CarriesWires(levels: seq<Level>) {
    forall level :: level in levels ==> BitsOn(level) >= 0
  }

  lemma DetourNonNegative(g: Geometry, level: Level)
    requires g.wiresPerWidth >= 1 && g.pitch >= 0.0 && (g.pitch == 0.0 || BitsOn(level) >= 0)
    ensures Detour(g, level) >= 0.0
    ensures g.pitch == 0.0 ==> Detour(g, level) == 0.0
  {
    if BitsOn(level) >= 0 {
      RatioNonNegative(BitsOn(level), g.wiresPerWidth);
      ScaledNonNegative(Ceiling(BitsOn(level) as real / g.wiresPerWidth as real), g.pitch);
    }
  }

  lemma RatioNonNegative(bits: nat, wires: nat)
    requires wires >= 1
    ensures bits as real / wires as real >= 0.0
  {
  }

  lemma ScaledNonNegative(n: nat, pitch: real)
    requires pitch >= 0.0
    ensures n as real * pitch >= 0.0
    ensures pitch == 0.0 ==> n as real * pitch == 0.0
  {
  }

  lemma {:induction false} DetoursNonNegative(g: Geometry, levels: seq<Level>)
    requires g.wiresPerWidth >= 1 && g.pitch >= 0.0 && (g.pitch == 0.0 || CarriesWires(levels))
    ensures Detours(g, levels) >= 0.0
    ensures g.pitch == 0.0 ==> Detours(g, levels) == 0.0
  {
    if levels != [] {
      var rest := levels[..|levels| - 1];
      assert CarriesWires(levels) ==> CarriesWires(rest);
      DetoursNonNegative(g, rest);
      DetourNonNegative(g, levels[|levels| - 1]);
    }
  }

  /** A length doubled k times. */
  function Doubled(x: real, k: nat): real {
    x * Pow2(k) as real
  }

  lemma DoubledOnce(x: real, k: nat)
    ensures Doubled(x, 0) == x
    ensures Doubled(x, k) * 2.0 == Doubled(x, k + 1)
  {
    assert Pow2(k + 1) == 2 * Pow2(k);
    Regrouped(x, Pow2(k) as real);
  }

  lemma Regrouped(x: real, y: real)
    ensures x * y * 2.0 == x * (2.0 * y)
  {
  }

  /**
   * The pitch never shortens a wire, and without it each level is twice as long as the one
   * below: half a mat high at the lowest vertical level, a mat wide at the lowest horizontal.
   */
  lemma {:induction false} VerticalLengthBound(g: Geometry, hs: seq<Level>, vs: seq<Level>, v: nat)
    requires g.wiresPerWidth >= 1 && g.pitch >= 0.0 && v < |vs| && (g.pitch == 0.0 || CarriesWires(hs))
    ensures VerticalLength(g, hs, vs, v) >= Doubled(g.matHeight / 2.0, |vs| - 1 - v)
    ensures g.pitch == 0.0 ==> VerticalLength(g, hs, vs, v) == Doubled(g.matHeight / 2.0, |vs| - 1 - v)
    decreases |vs| - v
  {
    hide Detour, Doubled;
    DoubledOnce(g.matHeight / 2.0, 0);
    if v < |vs| - 1 {
      var h := v + Alone(hs, vs);
      if h + 1 < |hs| {
        DetourNonNegative(g, hs[h + 1]);
      }
      VerticalLengthBound(g, hs, vs, v + 1);
      DoubledOnce(g.matHeight / 2.0, |vs| - 2 - v);
    }
  }

  lemma {:induction false} HorizontalLengthBound(g: Geometry, hs: seq<Level>, vs: seq<Level>, h: nat)
    requires g.wiresPerWidth >= 1 && g.pitch >= 0.0 && h < |hs| && (g.pitch == 0.0 || CarriesWires(vs))
    ensures HorizontalLength(g, hs, vs, h) >= Doubled(g.matWidth, |hs| - 1 - h)
    ensures g.pitch == 0.0 ==> HorizontalLength(g, hs, vs, h) == Doubled(g.matWidth, |hs| - 1 - h)
    decreases |hs| - h
  {
    hide Detour, Detours, Doubled;
    DoubledOnce(g.matWidth, 0);
    var v := h - Alone(hs, vs);
    if h < |hs| - 1 {
      if 0 <= v < |vs| {
        DetourNonNegative(g, vs[v]);
      }
      HorizontalLengthBound(g, hs, vs, h + 1);
      DoubledOnce(g.matWidth, |hs| - 2 - h);
    } else if 0 <= v < |vs| {
      assert CarriesWires(vs) ==> CarriesWires(vs[v..]);
      DetoursNonNegative(g, vs[v..]);
    }
  }

  /** The levels of a tree, as its arrays hold them. */
  ghost predicate LevelsOf(t: Htree, hs: seq<Level>, vs: seq<Level>) {
    && |hs| == t.horizontalLevels && |vs| == t.verticalLevels
    && (forall i :: 0 <= i < |hs| ==> hs[i] == t.HorizontalLevel(i))
    && (forall j :: 0 <= j < |vs| ==> vs[j] == t.VerticalLevel(j))
  }

  /** Splitting further never adds address bits. */
  lemma AddressFalls(t: Htree, a: nat, b: nat, c: nat, d: nat)
    requires a <= c && b <= d
    ensures t.Address(c, d) <= t.Address(a, b)
  {
  }

  /** Wherever routing leaves an address to the mats, every level on the way carries wires. */
  lemma RoutedLevelsCarryWires(t: Htree, hs: seq<Level>, vs: seq<Level>)
    requires LevelsOf(t, hs, vs) && t.Address(t.horizontalLevels, t.verticalLevels) >= 0
    ensures CarriesWires(hs) && CarriesWires(vs)
  {
    hide Htree.Address;
    forall i | 0 <= i < |hs|
      ensures BitsOn(hs[i]) >= 0
    {
      AddressFalls(t, i, t.RowsAbove(i), t.horizontalLevels, t.verticalLevels);
    }
    forall j | 0 <= j < |vs|
      ensures BitsOn(vs[j]) >= 0
    {
      AddressFalls(t, t.ColumnsAbove(j), j + 1, t.horizontalLevels, t.verticalLevels);
    }
  }

  /** The length of one route across all horizontal levels from h down. */
  function HorizontalRoute(g: Geometry, hs: seq<Level>, vs: seq<Level>, h: nat): real
    requires g.wiresPerWidth >= 1 && h <= |hs|
    decreases |hs| - h
  {
    if h == |hs| then 0.0 else HorizontalLength(g, hs, vs, h) + HorizontalRoute(g, hs, vs, h + 1)
  }

  /** Without pitch, a route and the one mat it ends at are together exactly as wide as the bank. */
  lemma {:induction false} RouteSpansBank(g: Geometry, hs: seq<Level>, vs: seq<Level>, h: nat)
    requires g.wiresPerWidth >= 1 && g.pitch == 0.0 && h <= |hs|
    ensures HorizontalRoute(g, hs, vs, h) + g.matWidth == Doubled(g.matWidth, |hs| - h)
    decreases |hs| - h
  {
    hide HorizontalLength, Doubled;
    if h < |hs| {
      RouteSpansBank(g, hs, vs, h + 1);
      HorizontalLengthBound(g, hs, vs, h);
      DoubledOnce(g.matWidth, |hs| - 1 - h);
    } else {
      DoubledOnce(g.matWidth, 0);
    }
  }

  /** The length of one route across all vertical levels from v down. */
  function VerticalRoute(g: Geometry, hs: seq<Level>, vs: seq<Level>, v: nat): real
    requires g.wiresPerWidth >= 1 && v <= |vs|
    decreases |vs| - v
  {
    if v == |vs| then 0.0 else VerticalLength(g, hs, vs, v) + VerticalRoute(g, hs, vs, v + 1)
  }

  /** Without pitch, a route and the half mat it ends at are together as high as half the bank. */
  lemma {:induction false} RouteSpansHalfHeight(g: Geometry, hs: seq<Level>, vs: seq<Level>, v: nat)
    requires g.wiresPerWidth >= 1 && g.pitch == 0.0 && v <= |vs|
    ensures VerticalRoute(g, hs, vs, v) + g.matHeight / 2.0 == Doubled(g.matHeight / 2.0, |vs| - v)
    decreases |vs| - v
  {
    hide VerticalLength, Doubled;
    if v < |vs| {
      RouteSpansHalfHeight(g, hs, vs, v + 1);
      VerticalLengthBound(g, hs, vs, v);
      DoubledOnce(g.matHeight / 2.0, |vs| - 1 - v);
    } else {
      DoubledOnce(g.matHeight / 2.0, 0);
    }
  }

  /** A detour takes half the pitch for as few shared widths as hold the level's wires. */
  lemma DetourIsLeast(g: Geometry, level: Level) returns (n: int)
    requires g.wiresPerWidth >= 1
    ensures (n - 1) * g.wiresPerWidth < level.address + level.distribute + level.broadcast <= n * g.wiresPerWidth
    ensures Detour(g, level) == n as real * g.pitch / 2.0
  {
    var x := BitsOn(level) as real / g.wiresPerWidth as real;
    n := Ceiling(x);
    assert n as real - 1.0 < x <= n as real;
    assert x * g.wiresPerWidth as real == BitsOn(level) as real;
    Multiplied(n, BitsOn(level), g.wiresPerWidth, x);
  }

  lemma Multiplied(n: int, bits: int, wires: int, x: real)
    requires wires >= 1 && x * wires as real == bits as real && n as real - 1.0 < x <= n as real
    ensures (n - 1) * wires < bits <= n * wires
  {
    AtLeastBits(n, n * wires, bits, wires, x);
    AtLeastBits(n - 1, (n - 1) * wires, bits, wires, x);
  }

  lemma AtLeastBits(n: int, total: int, bits: int, wires: int, x: real)
    requires wires >= 1 && total == n * wires && x * wires as real == bits as real
    ensures total >= bits <==> n as real >= x
  {
    CastProduct(n, wires);
    ScaledOrder(n as real, x, wires as real);
  }

  lemma ScaledOrder(x: real, y: real, w: real)
    requires w > 0.0
    ensures x * w >= y * w <==> x >= y
  {
    if x >= y {
      assert (x - y) * w >= 0.0;
    } else {
      assert (y - x) * w > 0.0;
    }
  }

  /** Detours that are doubled once for each level between them and the one that takes them. */
  function Weighted(g: Geometry, levels: seq<Level>): real
    requires g.wiresPerWidth >= 1
  {
    if levels == [] then 0.0 else Detour(g, levels[0]) + 2.0 * Weighted(g, levels[1..])
  }

  /**
   * At any pitch a vertical wire is half a mat, doubled for each level below it, and a detour
   * around every horizontal level below, doubled with it.
   */
  lemma {:induction false} VerticalLengthExactly(g: Geometry, hs: seq<Level>, vs: seq<Level>, v: nat)
    requires g.wiresPerWidth >= 1 && v < |vs|
    ensures VerticalLength(g, hs, vs, v)
      == Doubled(g.matHeight / 2.0, |vs| - 1 - v) + Weighted(g, hs[Min(v + 1 + Max(|hs| - |vs|, 0), |hs|)..])
    decreases |vs| - v
  {
    hide Detour, Doubled;
    DoubledOnce(g.matHeight / 2.0, 0);
    var k := v + 1 + Alone(hs, vs);
    if v < |vs| - 1 {
      VerticalLengthExactly(g, hs, vs, v + 1);
      DoubledOnce(g.matHeight / 2.0, |vs| - 2 - v);
      if k < |hs| {
        assert hs[k..][1..] == hs[k + 1..];
      }
    }
  }

  /**
   * At any pitch a horizontal wire with a vertical partner is a mat, doubled for each level
   * below it, and a detour around the partner and every vertical level below. The vertical
   * levels beyond the last partner are all crossed by the lowest horizontal wire.
   */
  lemma {:induction false} HorizontalLengthExactly(g: Geometry, hs: seq<Level>, vs: seq<Level>, h: nat)
    requires g.wiresPerWidth >= 1 && Max(|hs| - |vs|, 0) <= h < |hs|
    ensures var v, n := h - Max(|hs| - |vs|, 0), |hs| - 1 - h;
      && 0 <= v && v + n < |vs|
      && HorizontalLength(g, hs, vs, h)
         == Doubled(g.matWidth, n) + Weighted(g, vs[v..v + n]) + Doubled(Detours(g, vs[v + n..]), n)
    decreases |hs| - h
  {
    hide Detour, Detours, Doubled;
    var v, n := h - Alone(hs, vs), |hs| - 1 - h;
    DoubledOnce(g.matWidth, 0);
    DoubledOnce(Detours(g, vs[v + n..]), 0);
    if n > 0 {
      HorizontalLengthExactly(g, hs, vs, h + 1);
      DoubledOnce(g.matWidth, n - 1);
      DoubledOnce(Detours(g, vs[v + n..]), n - 1);
      assert vs[v..v + n][1..] == vs[v + 1..v + 1 + (n - 1)];
    }
  }

  /** A horizontal wire without a partner is the one below it doubled. */
  lemma {:induction false} HorizontalLengthAlone(g: Geometry, hs: seq<Level>, vs: seq<Level>, h: nat)
    requires g.wiresPerWidth >= 1 && h < |hs| - |vs|
    ensures HorizontalLength(g, hs, vs, h)
      == if |vs| == 0 then Doubled(g.matWidth, |hs| - 1 - h)
         else Doubled(HorizontalLength(g, hs, vs, |hs| - |vs|), |hs| - |vs| - h)
    decreases |hs| - h
  {
    hide Detour, Detours, Doubled;
    var base := if |vs| == 0 then g.matWidth else HorizontalLength(g, hs, vs, |hs| - |vs|);
    DoubledOnce(base, 0);
    if h + 1 < |hs| - |vs| {
      HorizontalLengthAlone(g, hs, vs, h + 1);
      DoubledOnce(base, (if |vs| == 0 then |hs| - 1 else |hs| - |vs|) - h - 1);
    }
  }
}
