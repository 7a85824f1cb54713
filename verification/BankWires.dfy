/** The wires of a valid bank: every level carries signals, and no wire is shorter than the mats it spans. */
module BankWires {
  import opened Organisation
  import opened PowersOfTwo
  import opened Mats
  import opened Htrees
  import opened HtreeWires
  import opened Banks
  import opened BankLaws
  import opened BanksWithHtree

  /** A valid bank with an H-tree has routed an address bit to its mats. */
  lemma ValidTreeHasAddress(c: BankConfig, tech: Technology, localWire: Wire, globalWire: Wire)
    requires c.Positive() && PlanBank(c, tech, HTree, localWire, globalWire).Some?
    ensures var t := TreeOf(c); !t.Aborts() && t.Address(t.horizontalLevels, t.verticalLevels) > 0
  {
    hide PlanMat, TreeOf, Htree.Aborts, Htree.Address, Htree.Distribute, WayMux, Widened, Pow2;
    RoutedMatPositive(c, tech, HTree, globalWire);
    var m := TreeMat(c, tech).value;
    if m.numAddressBit <= 0 {
      NoAddressNoMat(m, tech, localWire);
    }
  }

  /** The wire lengths of a valid bank, whatever its counts, from the levels that its initialisation has left. */
  lemma RoutedLengths(bank: BankWithHtree, c: BankConfig, tech: Technology, localWire: Wire, globalWire: Wire,
                      g: Geometry)
    requires c.Positive() && PlanBank(c, tech, HTree, localWire, globalWire).Some? && bank.Routed(TreeOf(c))
    requires g.wiresPerWidth >= 1 && g.pitch >= 0.0
    ensures var hs, vs := bank.horizontal[..], bank.vertical[..];
      && CarriesWires(hs) && CarriesWires(vs)
      && (forall v: nat :: v < |vs| ==> VerticalLength(g, hs, vs, v) >= Doubled(g.matHeight / 2.0, |vs| - 1 - v))
      && (forall h: nat :: h < |hs| ==> HorizontalLength(g, hs, vs, h) >= Doubled(g.matWidth, |hs| - 1 - h))
      && (g.pitch == 0.0 ==>
            && (forall v: nat :: v < |vs| ==> VerticalLength(g, hs, vs, v) == Doubled(g.matHeight / 2.0, |vs| - 1 - v))
            && (forall h: nat :: h < |hs| ==> HorizontalLength(g, hs, vs, h) == Doubled(g.matWidth, |hs| - 1 - h)))
  {
    hide PlanBank, TreeOf, CarriesWires, VerticalLength, HorizontalLength, Doubled,
      Htree.HorizontalLevel, Htree.VerticalLevel, Htree.Aborts, Htree.Address;
    var hs, vs := bank.horizontal[..], bank.vertical[..];
    ValidTreeHasAddress(c, tech, localWire, globalWire);
    RoutedLevelsCarryWires(TreeOf(c), hs, vs);
    forall v: nat | v < |vs|
      ensures VerticalLength(g, hs, vs, v) >= Doubled(g.matHeight / 2.0, |vs| - 1 - v)
      ensures g.pitch == 0.0 ==> VerticalLength(g, hs, vs, v) == Doubled(g.matHeight / 2.0, |vs| - 1 - v)
    {
      VerticalLengthBound(g, hs, vs, v);
    }
    forall h: nat | h < |hs|
      ensures HorizontalLength(g, hs, vs, h) >= Doubled(g.matWidth, |hs| - 1 - h)
      ensures g.pitch == 0.0 ==> HorizontalLength(g, hs, vs, h) == Doubled(g.matWidth, |hs| - 1 - h)
    {
      HorizontalLengthBound(g, hs, vs, h);
    }
  }
}
