/**
 * `get_price_leg_by_leg` of `strategies/util/bag.py`: the price of a combination
 * contract as the signed, ratio-weighted sum of its legs' market prices. The
 * market prices arrive as a sequence, one per leg in combo-leg order.
 */
module Bag {
  import opened Options

  /** What one leg adds: its price times its ratio, negated unless the action is exactly BUY. */
  function LegValue(leg: ComboLeg, price: real): real {
    if leg.action == Buy then price * leg.ratio as real
    else -(price * leg.ratio as real)
  }

  /** The signed sum of the legs, leg i paired with price i. */
  function SignedSum(legs: seq<ComboLeg>, prices: seq<real>): real
    requires |prices| == |legs|
  {
    if legs == [] then 0.0
    else SignedSum(legs[..|legs| - 1], prices[..|prices| - 1]) + LegValue(legs[|legs| - 1], prices[|prices| - 1])
  }

  /** `get_price_leg_by_leg`, with `prices[i]` the market price of the ticker of leg i. */
  method PriceLegByLeg(bag: Contract, prices: seq<real>) returns (price: real)
    requires |prices| == |bag.comboLegs|
    ensures price == SignedSum(bag.comboLegs, prices)
  {
    price := 0.0;
    for i := 0 to |bag.comboLegs|
      invariant price == SignedSum(bag.comboLegs[..i], prices[..i])
    {
      var leg := bag.comboLegs[i];
      if leg.action == Buy {
        price := price + prices[i] * leg.ratio as real;
      } else {
        price := price - prices[i] * leg.ratio as real;
      }
      assert bag.comboLegs[..i + 1][..i] == bag.comboLegs[..i];
      assert prices[..i + 1][..i] == prices[..i];
    }
    assert bag.comboLegs[..|bag.comboLegs|] == bag.comboLegs;
    assert prices[..|prices|] == prices;
  }

  /** Each action is one of BUY and SELL. */
  predicate BuyOrSell(legs: seq<ComboLeg>) {
    forall i :: 0 <= i < |legs| ==> legs[i].action == Buy || legs[i].action == Sell
  }

  /** The legs with every action reversed. */
  function Flipped(legs: seq<ComboLeg>): (r: seq<ComboLeg>)
    ensures |r| == |legs|
    ensures forall i :: 0 <= i < |legs| ==> r[i] == legs[i].(action := Opposite(legs[i].action))
  {
    seq(|legs|, i requires 0 <= i < |legs| => legs[i].(action := Opposite(legs[i].action)))
  }

  /** Reversing a BUY or SELL leg's action negates what it adds. */
  lemma LegValueFlipped(leg: ComboLeg, price: real)
    requires leg.action == Buy || leg.action == Sell
    ensures LegValue(leg.(action := Opposite(leg.action)), price) == -LegValue(leg, price)
  {
  }

  /** Reversing every BUY/SELL action negates the price. */
  lemma {:induction false} FlippedNegates(legs: seq<ComboLeg>, prices: seq<real>)
    requires |prices| == |legs| && BuyOrSell(legs)
    ensures SignedSum(Flipped(legs), prices) == -SignedSum(legs, prices)
  {
    if legs != [] {
      var n := |legs| - 1;
      assert Flipped(legs)[..n] == Flipped(legs[..n]);
      FlippedNegates(legs[..n], prices[..n]);
      LegValueFlipped(legs[n], prices[n]);
    }
  }

  /** Any action other than exactly "BUY" (here "buy") is priced as a sale. */
  lemma NonBuyActionSubtracts(conId: int, exchange: string, p: real)
    ensures SignedSum([ComboLeg(conId, 1, "buy", exchange)], [p]) == -p
  {
  }

  /** The price of a four-leg, unit-ratio combo with the given actions. */
  lemma FourLegSum(legs: seq<ComboLeg>, prices: seq<real>)
    requires |legs| == |prices| == 4
    ensures SignedSum(legs, prices)
      == LegValue(legs[0], prices[0]) + LegValue(legs[1], prices[1])
       + LegValue(legs[2], prices[2]) + LegValue(legs[3], prices[3])
  {
    assert legs[..3][..2] == legs[..2] && prices[..3][..2] == prices[..2];
    assert legs[..2][..1] == legs[..1] && prices[..2][..1] == prices[..1];
    assert legs[..1][..0] == [] && prices[..1][..0] == [];
    assert SignedSum(legs[..1], prices[..1]) == LegValue(legs[0], prices[0]);
    assert SignedSum(legs[..2], prices[..2]) == SignedSum(legs[..1], prices[..1]) + LegValue(legs[1], prices[1]);
    assert SignedSum(legs[..3], prices[..3]) == SignedSum(legs[..2], prices[..2]) + LegValue(legs[2], prices[2]);
  }

  /** The iron condor's price from its leg prices: -p0 + p1 - p2 + p3. */
  lemma IronCondorPrice(contracts: seq<Contract>, prices: seq<real>)
    requires forall c :: c in contracts ==> Qualified(c)
    requires |contracts| >= 4 && |prices| == 4
    ensures CreateIc(contracts).Ok?
    ensures SignedSum(CreateIc(contracts).value.comboLegs, prices)
      == -prices[0] + prices[1] - prices[2] + prices[3]
  {
    FourLegSum(CreateIc(contracts).value.comboLegs, prices);
  }

  /** The inverse iron condor is priced at exactly the negated iron-condor price. */
  lemma InverseIronCondorPrice(contracts: seq<Contract>, prices: seq<real>)
    requires forall c :: c in contracts ==> Qualified(c)
    requires |contracts| >= 4 && |prices| == 4
    ensures CreateIc(contracts).Ok? && CreateIci(contracts).Ok?
    ensures SignedSum(CreateIci(contracts).value.comboLegs, prices)
      == -SignedSum(CreateIc(contracts).value.comboLegs, prices)
  {
    var ic, ici := CreateIc(contracts).value, CreateIci(contracts).value;
    InverseIsOppositeIronCondor(contracts);
    assert ici.comboLegs == Flipped(ic.comboLegs);
    assert BuyOrSell(ic.comboLegs);
    FlippedNegates(ic.comboLegs, prices);
  }
}
