/** Repeaters on a long wire: a greedy search for less energy and leakage within a delay budget. */
module RepeatedWires {

  /** Transistor models that stay unknown, and the sizes and supply they are used with. */
  datatype Device = Device(
    gateCap: real -> real,
    drainCapNmos: real -> real,
    drainCapPmos: real -> real,
    onResistanceNmos: real -> real,
    onResistancePmos: real -> real,
    gateLeakage: (real, real) -> real,
    minNmosSize: real,
    pnSizeRatio: real,
    vdd: real,
    resWirePerUnit: real,
    capWirePerUnit: real)
  {
    function Nmos(size: real): real {
      minNmosSize * size
    }

    function Pmos(size: real): real {
      Nmos(size) * pnSizeRatio
    }

    function InputCap(size: real): real {
      gateCap(Nmos(size)) + gateCap(Pmos(size))
    }

    function OutputCap(size: real): real {
      drainCapNmos(Nmos(size)) + drainCapPmos(Pmos(size))
    }

    function OutputRes(size: real): real {
      onResistanceNmos(Nmos(size)) + onResistancePmos(Pmos(size))
    }

    function UnitDelay(spacing: real, size: real): real
      requires spacing > 0.0
    {
      var wireCap, wireRes := capWirePerUnit * spacing, resWirePerUnit * spacing;
      var tau := OutputRes(size) * (InputCap(size) + OutputCap(size)) + OutputRes(size) * wireCap
        + wireRes * OutputCap(size) + 0.5 * wireRes * wireCap;
      0.693 * tau / spacing
    }

    function UnitDynamicEnergy(spacing: real, size: real): real
      requires spacing > 0.0
    {
      (InputCap(size) + OutputCap(size) + capWirePerUnit * spacing) * vdd * vdd / spacing
    }

    function UnitLeakage(spacing: real, size: real): real
      requires spacing > 0.0
    {
      gateLeakage(Nmos(size), Pmos(size)) * vdd / spacing
    }
  }

  /** Everything physical is positive for a device of positive width. */
  ghost predicate Physical(d: Device) {
    && d.minNmosSize > 0.0 && d.pnSizeRatio > 0.0 && d.vdd > 0.0 && d.resWirePerUnit > 0.0 && d.capWirePerUnit > 0.0
    && (forall w :: w > 0.0 ==> d.gateCap(w) > 0.0)
    && (forall w :: w > 0.0 ==> d.drainCapNmos(w) > 0.0)
    && (forall w :: w > 0.0 ==> d.drainCapPmos(w) > 0.0)
    && (forall w :: w > 0.0 ==> d.onResistanceNmos(w) > 0.0)
    && (forall w :: w > 0.0 ==> d.onResistancePmos(w) > 0.0)
    && (forall w, v :: w > 0.0 && v > 0.0 ==> d.gateLeakage(w, v) > 0.0)
  }

  lemma Positive(x: real, y: real)
    requires x > 0.0 && y > 0.0
    ensures x * y > 0.0 && x / y > 0.0
  {
    assert x / y * y == x;
  }

  lemma PartsPositive(d: Device, size: real)
    requires Physical(d) && size > 0.0
    ensures d.Nmos(size) > 0.0 && d.Pmos(size) > 0.0
    ensures d.InputCap(size) > 0.0 && d.OutputCap(size) > 0.0 && d.OutputRes(size) > 0.0
  {
    Positive(d.minNmosSize, size);
    Positive(d.Nmos(size), d.pnSizeRatio);
  }

  lemma DelayPositive(d: Device, spacing: real, size: real)
    requires Physical(d) && spacing > 0.0 && size > 0.0
    ensures d.UnitDelay(spacing, size) > 0.0
  {
    hide Device.InputCap, Device.OutputCap, Device.OutputRes;
    PartsPositive(d, size);
    Positive(d.capWirePerUnit, spacing);
    Positive(d.resWirePerUnit, spacing);
    var i, o, r := d.InputCap(size), d.OutputCap(size), d.OutputRes(size);
    var wireCap, wireRes := d.capWirePerUnit * spacing, d.resWirePerUnit * spacing;
    TauPositive(r, i, o, wireCap, wireRes, spacing);
  }

  lemma TauPositive(r: real, i: real, o: real, wireCap: real, wireRes: real, spacing: real)
    requires r > 0.0 && i > 0.0 && o > 0.0 && wireCap > 0.0 && wireRes > 0.0 && spacing > 0.0
    ensures 0.693 * (r * (i + o) + r * wireCap + wireRes * o + 0.5 * wireRes * wireCap) / spacing > 0.0
  {
    Positive(r, i + o);
    Positive(r, wireCap);
    Positive(wireRes, o);
    Positive(0.5 * wireRes, wireCap);
    Positive(0.693 * (r * (i + o) + r * wireCap + wireRes * o + 0.5 * wireRes * wireCap), spacing);
  }

  lemma UnitsPositive(d: Device, spacing: real, size: real)
    requires Physical(d) && spacing > 0.0 && size > 0.0
    ensures d.UnitDelay(spacing, size) > 0.0
    ensures d.UnitDynamicEnergy(spacing, size) > 0.0
    ensures d.UnitLeakage(spacing, size) > 0.0
  {
    hide Device.InputCap, Device.OutputCap, Device.OutputRes, Device.UnitDelay;
    DelayPositive(d, spacing, size);
    PartsPositive(d, size);
    Positive(d.capWirePerUnit, spacing);
    ThreeFactors(d.InputCap(size) + d.OutputCap(size) + d.capWirePerUnit * spacing, d.vdd, spacing);
    var l := d.gateLeakage(d.Nmos(size), d.Pmos(size));
    Positive(l, d.vdd);
    Positive(l * d.vdd, spacing);
  }

  lemma ThreeFactors(cap: real, vdd: real, spacing: real)
    requires cap > 0.0 && vdd > 0.0 && spacing > 0.0
    ensures cap * vdd * vdd / spacing > 0.0
  {
    Positive(cap, vdd);
    Positive(cap * vdd, vdd);
    Positive(cap * vdd * vdd, spacing);
  }

  // ---- the greedy scan ----

  /** A repeater size with the unit energy and leakage it has at the given spacing. */
  datatype Pick = Pick(size: real, energy: real, leakage: real) {
    function Product(): real {
      energy * leakage
    }
  }

  function PickAt(d: Device, spacing: real, size: real): Pick
    requires spacing > 0.0
  {
    Pick(size, d.UnitDynamicEnergy(spacing, size), d.UnitLeakage(spacing, size))
  }

  function Relative(x: real, reference: real): real
    requires reference > 0.0
  {
    x / reference
  }

  /** Within the delay budget, and energy and leakage together relatively lower than the current pick's. */
  predicate Accepts(d: Device, spacing: real, budget: real, current: Pick, size: real)
    requires spacing > 0.0 && current.energy > 0.0 && current.leakage > 0.0
  {
    && d.UnitDelay(spacing, size) <= budget
    && Relative(d.UnitDynamicEnergy(spacing, size), current.energy)
       + Relative(d.UnitLeakage(spacing, size), current.leakage) < 2.0
  }

  /** The acceptance test without its divisions. */
  lemma AcceptsExactly(d: Device, spacing: real, budget: real, current: Pick, size: real)
    requires spacing > 0.0 && current.energy > 0.0 && current.leakage > 0.0
    ensures Accepts(d, spacing, budget, current, size)
      <==> && d.UnitDelay(spacing, size) <= budget
           && d.UnitDynamicEnergy(spacing, size) * current.leakage + d.UnitLeakage(spacing, size) * current.energy
              < 2.0 * (current.energy * current.leakage)
  {
    hide Device.UnitDelay, Device.UnitDynamicEnergy, Device.UnitLeakage;
    CrossMultiplied(d.UnitDynamicEnergy(spacing, size), d.UnitLeakage(spacing, size), current.energy, current.leakage);
  }

  lemma CrossMultiplied(e: real, l: real, e0: real, l0: real)
    requires e0 > 0.0 && l0 > 0.0
    ensures Relative(e, e0) + Relative(l, l0) < 2.0 <==> e * l0 + l * e0 < 2.0 * (e0 * l0)
  {
    hide Relative;
    RelativeTimes(e, e0);
    RelativeTimes(l, l0);
    var x, y := Relative(e, e0), Relative(l, l0);
    assert e0 * l0 > 0.0;
    CommonFactor(x, y, e0, l0);
    assert e * l0 == (x * e0) * l0;
    assert l * e0 == (y * l0) * e0;
    var p := e0 * l0;
    assert e * l0 + l * e0 == (x + y) * p;
    BelowTwo(x + y, p, e * l0 + l * e0);
  }

  lemma RelativeTimes(x: real, reference: real)
    requires reference > 0.0
    ensures Relative(x, reference) * reference == x
  {
  }

  lemma CommonFactor(x: real, y: real, e0: real, l0: real)
    ensures (x * e0) * l0 + (y * l0) * e0 == (x + y) * (e0 * l0)
  {
  }

  lemma BelowTwo(x: real, p: real, sum: real)
    requires p > 0.0 && sum == x * p
    ensures x < 2.0 <==> sum < 2.0 * p
  {
    if x < 2.0 {
      assert (2.0 - x) * p > 0.0;
    } else {
      assert (x - 2.0) * p >= 0.0;
    }
  }

  /** Where a scan down from a size ends. */
  ghost function Final(d: Device, spacing: real, budget: real, current: Pick, size: real): Pick
    requires Physical(d) && spacing > 0.0 && current.energy > 0.0 && current.leakage > 0.0
    decreases size
  {
    if size < 1.0 then current
    else
      UnitsPositive(d, spacing, size);
      var next := if Accepts(d, spacing, budget, current, size) then PickAt(d, spacing, size) else current;
      Final(d, spacing, budget, next, size - 1.0)
  }

  /** Two positive ratios whose sum is below two have a product below one. */
  lemma SumBoundsProduct(x: real, y: real)
    requires x > 0.0 && y > 0.0 && x + y < 2.0
    ensures x * y < 1.0
  {
    var s, t := x + y, x - y;
    SquareBelow(s, 2.0);
    assert s * s == t * t + 4.0 * (x * y);
    assert t * t >= 0.0;
  }

  lemma SquareBelow(x: real, y: real)
    requires 0.0 < x < y
    ensures x * x < y * y
  {
    assert (y - x) * (y + x) > 0.0;
    assert (y - x) * (y + x) == y * y - x * x;
  }

  lemma AcceptedIsBetter(d: Device, spacing: real, budget: real, current: Pick, size: real)
    requires Physical(d) && spacing > 0.0 && current.energy > 0.0 && current.leakage > 0.0 && size >= 1.0
    requires Accepts(d, spacing, budget, current, size)
    ensures PickAt(d, spacing, size).Product() < current.Product()
  {
    hide Device.UnitDynamicEnergy, Device.UnitLeakage, Device.UnitDelay;
    UnitsPositive(d, spacing, size);
    var e, l := d.UnitDynamicEnergy(spacing, size), d.UnitLeakage(spacing, size);
    RatiosBoundProduct(e, l, current.energy, current.leakage);
  }

  lemma RatiosBoundProduct(e: real, l: real, e0: real, l0: real)
    requires e > 0.0 && l > 0.0 && e0 > 0.0 && l0 > 0.0
    requires Relative(e, e0) + Relative(l, l0) < 2.0
    ensures e * l < e0 * l0
  {
    var x, y := Relative(e, e0), Relative(l, l0);
    Positive(e, e0);
    Positive(l, l0);
    Positive(e0, l0);
    assert x * e0 == e && y * l0 == l;
    SumBoundsProduct(x, y);
    assert e * l == (x * y) * (e0 * l0);
    assert (1.0 - x * y) * (e0 * l0) > 0.0;
  }

  /** Every accepted step lowers the product of energy and leakage, and so does the whole scan, within the budget. */
  lemma {:induction false} FinalIsBetter(d: Device, spacing: real, budget: real, current: Pick, size: real)
    requires Physical(d) && spacing > 0.0 && current.energy > 0.0 && current.leakage > 0.0
    ensures var final := Final(d, spacing, budget, current, size);
      final == current || (final.Product() < current.Product()
                           && final.energy == d.UnitDynamicEnergy(spacing, final.size)
                           && final.leakage == d.UnitLeakage(spacing, final.size)
                           && 1.0 <= final.size <= size && d.UnitDelay(spacing, final.size) <= budget)
    decreases size
  {
    hide Device.UnitDynamicEnergy, Device.UnitLeakage, Device.UnitDelay, Pick.Product;
    if size >= 1.0 {
      UnitsPositive(d, spacing, size);
      if Accepts(d, spacing, budget, current, size) {
        AcceptedIsBetter(d, spacing, budget, current, size);
        FinalIsBetter(d, spacing, budget, PickAt(d, spacing, size), size - 1.0);
      } else {
        FinalIsBetter(d, spacing, budget, current, size - 1.0);
      }
    }
  }

  /** A scan leaves nothing behind that its pick would still accept. */
  lemma {:induction false} FinalAcceptsNoMore(d: Device, spacing: real, budget: real, current: Pick, size: real, i: nat)
    requires Physical(d) && spacing > 0.0 && current.energy > 0.0 && current.leakage > 0.0 && size - i as real >= 1.0
    requires var final := Final(d, spacing, budget, current, size); final == current || size - i as real < final.size
    ensures var final := Final(d, spacing, budget, current, size);
      final.energy > 0.0 && final.leakage > 0.0 && !Accepts(d, spacing, budget, final, size - i as real)
    decreases i
  {
    hide Device.UnitDynamicEnergy, Device.UnitLeakage, Device.UnitDelay, Pick.Product, Accepts;
    UnitsPositive(d, spacing, size);
    var next := if Accepts(d, spacing, budget, current, size) then PickAt(d, spacing, size) else current;
    if Accepts(d, spacing, budget, current, size) {
      AcceptedIsBetter(d, spacing, budget, current, size);
    }
    FinalIsBetter(d, spacing, budget, next, size - 1.0);
    if i > 0 {
      assert size - 1.0 - (i - 1) as real == size - i as real;
      FinalAcceptsNoMore(d, spacing, budget, next, size - 1.0, i - 1);
    }
  }

  /**
   * The values of one repeater with its wire. The repeater drives its own capacitances and
   * the wire's, the wire its load and half of itself; the energy is that of all of them.
   */
  lemma UnitsInParts(d: Device, spacing: real, size: real)
    requires spacing > 0.0
    ensures var n, p := d.Nmos(size), d.Pmos(size);
      && n == d.minNmosSize * size && p == n * d.pnSizeRatio
      && d.InputCap(size) == d.gateCap(n) + d.gateCap(p)
      && d.OutputCap(size) == d.drainCapNmos(n) + d.drainCapPmos(p)
      && d.OutputRes(size) == d.onResistanceNmos(n) + d.onResistancePmos(p)
      && d.UnitLeakage(spacing, size) * spacing == d.gateLeakage(n, p) * d.vdd
    ensures var i, o, r := d.InputCap(size), d.OutputCap(size), d.OutputRes(size);
      var c, w := d.capWirePerUnit * spacing, d.resWirePerUnit * spacing;
      && d.UnitDelay(spacing, size) * spacing == 0.693 * (r * (i + o + c) + w * (o + c / 2.0))
      && d.UnitDynamicEnergy(spacing, size) * spacing == (i + o + c) * d.vdd * d.vdd
  {
    hide Device.InputCap, Device.OutputCap, Device.OutputRes, Device.Nmos, Device.Pmos;
    PartsOf(d, size);
    var i, o, r := d.InputCap(size), d.OutputCap(size), d.OutputRes(size);
    var c, w := d.capWirePerUnit * spacing, d.resWirePerUnit * spacing;
    SharedOut(d.gateLeakage(d.Nmos(size), d.Pmos(size)) * d.vdd, spacing);
    SharedOut((i + o + c) * d.vdd * d.vdd, spacing);
    SharedOut(0.693 * (r * (i + o) + r * c + w * o + 0.5 * w * c), spacing);
    assert r * (i + o) + r * c + w * o + 0.5 * w * c == r * (i + o + c) + w * (o + c / 2.0) by {
      Gathered(r, i, o, c, w);
    }
  }

  lemma PartsOf(d: Device, size: real)
    ensures var n, p := d.Nmos(size), d.Pmos(size);
      && n == d.minNmosSize * size && p == n * d.pnSizeRatio
      && d.InputCap(size) == d.gateCap(n) + d.gateCap(p)
      && d.OutputCap(size) == d.drainCapNmos(n) + d.drainCapPmos(p)
      && d.OutputRes(size) == d.onResistanceNmos(n) + d.onResistancePmos(p)
  {
  }

  lemma SharedOut(x: real, spacing: real)
    requires spacing > 0.0
    ensures x / spacing * spacing == x
  {
  }

  lemma Gathered(r: real, i: real, o: real, c: real, w: real)
    ensures r * (i + o) + r * c + w * o + 0.5 * w * c == r * (i + o + c) + w * (o + c / 2.0)
  {
  }

  class RepeatedWire {
    const device: Device
    var repeaterSize: real
    var repeaterSpacing: real

    constructor (device: Device, size: real, spacing: real)
      ensures this.device == device && repeaterSize == size && repeaterSpacing == spacing
    {
      this.device, repeaterSize, repeaterSpacing := device, size, spacing;
    }

    /** The inner loop: steps the size down below one, at whatever spacing is set. */
    method ScanSizes(targetDelay: real, current: Pick) returns (pick: Pick, accepted: bool)
      requires Physical(device) && repeaterSpacing > 0.0
      requires current.energy > 0.0 && current.leakage > 0.0
      modifies this`repeaterSize
      ensures pick == Final(device, repeaterSpacing, targetDelay, current, old(repeaterSize))
      ensures pick.energy > 0.0 && pick.leakage > 0.0
      ensures repeaterSize < 1.0
      ensures !accepted ==> pick == current
      ensures old(repeaterSize) < 1.0 ==> !accepted
    {
      hide Device.UnitDynamicEnergy, Device.UnitLeakage, Device.UnitDelay;
      pick, accepted := current, false;
      while repeaterSize >= 1.0
        invariant pick.energy > 0.0 && pick.leakage > 0.0
        invariant !accepted ==> pick == current
        invariant if repeaterSize == old(repeaterSize) then !accepted else old(repeaterSize) >= 1.0
        invariant repeaterSize <= old(repeaterSize)
        invariant Final(device, repeaterSpacing, targetDelay, pick, repeaterSize)
          == Final(device, repeaterSpacing, targetDelay, current, old(repeaterSize))
        decreases repeaterSize
      {
        UnitsPositive(device, repeaterSpacing, repeaterSize);
        var thisDelay := device.UnitDelay(repeaterSpacing, repeaterSize);
        var thisDynamicEnergy := device.UnitDynamicEnergy(repeaterSpacing, repeaterSize);
        var thisLeakage := device.UnitLeakage(repeaterSpacing, repeaterSize);
        if thisDelay <= targetDelay
          && Relative(thisDynamicEnergy, pick.energy) + Relative(thisLeakage, pick.leakage) < 2.0 {
          pick, accepted := Pick(repeaterSize, thisDynamicEnergy, thisLeakage), true;
        }
        repeaterSize := repeaterSize - 1.0;
      }
    }

    /**
     * Trades delay for energy and leakage. The first scan leaves the size below one and
     * nothing sets it back, so larger spacings are stepped through without being tried:
     * the spacing never changes.
     */
    method FindPenalizedRepeater(penalty: real)
      requires Physical(device) && repeaterSpacing > 0.0 && repeaterSize > 0.0
      modifies this
      ensures repeaterSpacing == old(repeaterSpacing)
      ensures var start := PickAt(device, old(repeaterSpacing), old(repeaterSize));
        var budget := device.UnitDelay(old(repeaterSpacing), old(repeaterSize)) * (1.0 + penalty);
        && start.energy > 0.0 && start.leakage > 0.0
        && repeaterSize == Final(device, repeaterSpacing, budget, start, old(repeaterSize)).size
        && (repeaterSize == old(repeaterSize)
            || (1.0 <= repeaterSize && PickAt(device, repeaterSpacing, repeaterSize).Product() < start.Product()))
        && (penalty >= 0.0 ==> device.UnitDelay(repeaterSpacing, repeaterSize) <= budget)
    {
      hide Device.UnitDynamicEnergy, Device.UnitLeakage, Device.UnitDelay, Pick.Product;
      UnitsPositive(device, repeaterSpacing, repeaterSize);
      var delay := device.UnitDelay(repeaterSpacing, repeaterSize);
      var targetDelay := delay * (1.0 + penalty);
      var current := Pick(repeaterSize, device.UnitDynamicEnergy(repeaterSpacing, repeaterSize),
                          device.UnitLeakage(repeaterSpacing, repeaterSize));
      FinalIsBetter(device, repeaterSpacing, targetDelay, current, repeaterSize);
      BudgetCoversEntry(delay, penalty);

      var targetRepeaterSpacing, targetRepeaterSize := repeaterSpacing, repeaterSize;
      var stepSpacing, endSpacing := 0.0001, 4.0 * repeaterSpacing;
      var pick := current;
      while repeaterSpacing <= endSpacing
        invariant old(repeaterSpacing) <= repeaterSpacing && targetRepeaterSpacing == old(repeaterSpacing)
        invariant pick.energy > 0.0 && pick.leakage > 0.0 && targetRepeaterSize == pick.size
        invariant repeaterSpacing == old(repeaterSpacing) ==> repeaterSize == old(repeaterSize) && pick == current
        invariant repeaterSpacing != old(repeaterSpacing) ==>
          && repeaterSize < 1.0
          && pick == Final(device, old(repeaterSpacing), targetDelay, current, old(repeaterSize))
        decreases ((endSpacing - repeaterSpacing) * 10000.0).Floor
      {
        var accepted;
        pick, accepted := ScanSizes(targetDelay, pick);
        if accepted {
          targetRepeaterSpacing, targetRepeaterSize := repeaterSpacing, pick.size;
        }
        repeaterSpacing := repeaterSpacing + stepSpacing;
      }
      repeaterSpacing, repeaterSize := targetRepeaterSpacing, targetRepeaterSize;
    }
  }

  lemma BudgetCoversEntry(delay: real, penalty: real)
    requires delay > 0.0
    ensures penalty >= 0.0 ==> delay <= delay * (1.0 + penalty)
  {
    if penalty >= 0.0 {
      assert delay * penalty >= 0.0;
    }
  }
}
