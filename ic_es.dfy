/**
 * The pieces of the iron-condor script `strategies/IC_ES.py` that are functions of
 * their inputs: its own copies of the delta selector and of quarter-tick rounding,
 * and the four option contracts it lays out around the selected call and put strikes.
 */
module IcEs {
  import opened Wrappers
  import opened Sequences
  import EsFuture
  import opened Options
  import Bag

  /** `get_delta_index`: line for line the selector of es_future.py. */
  function GetDeltaIndex(deltas: seq<real>, reference: real): (r: Result<nat>)
    ensures r == EsFuture.DeltaIndex(deltas, reference)
    ensures r.Ok? <==> EsFuture.Bracketed(deltas, reference)
    ensures r.Err? ==> r.error == StopIteration
    ensures r.Ok? ==> EsFuture.IsDeltaChoice(deltas, reference, r.value)
  {
    EsFuture.DeltaIndex(deltas, reference)
  }

  /** `x_round`: the same expression as `round_2tick`. */
  function XRound(x: real): (r: real)
    ensures r == EsFuture.RoundToQuarter(x)
    ensures EsFuture.IsQuarterTick(r) && Abs(r - x) <= 0.125
    ensures Abs(r - x) == 0.125 ==> (r * 4.0).Floor % 2 == 0
  {
    EsFuture.RoundToQuarter(x)
  }

  /** Distance of the bought call wing above the sold call. */
  const CallWidth: real := 50.0

  /** `put_width = -call_width`: the bought put wing sits below the sold put. */
  const PutWidth: real := -CallWidth

  /** `FuturesOption(symbol, expiration, strike, right, 'CME', '50', 'USD', tradingClass=...)`. */
  function FuturesOption(symbol: string, expiration: string, strike: real, right: string, tradingClass: string)
    : Contract
  {
    Contract("FOP", 0, symbol, expiration, strike, right, "50", "CME", "USD", tradingClass, [])
  }

  /** The contract list of the live script: [call, call + 50, put, put - 50]. */
  function IronCondorContracts(symbol: string, expiration: string, callStrike: real, putStrike: real,
                               tradingClass: string): (r: seq<Contract>)
    ensures |r| == 4
    ensures r[0].strike == callStrike && r[1].strike == callStrike + 50.0
    ensures r[2].strike == putStrike && r[3].strike == putStrike - 50.0
    ensures r[0].right == "C" && r[1].right == "C" && r[2].right == "P" && r[3].right == "P"
    ensures forall i :: 0 <= i < 4 ==>
      r[i].symbol == symbol && r[i].lastTradeDateOrContractMonth == expiration
      && r[i].exchange == "CME" && r[i].multiplier == "50" && r[i].currency == "USD"
      && r[i].tradingClass == tradingClass
  {
    [FuturesOption(symbol, expiration, callStrike, "C", tradingClass),
     FuturesOption(symbol, expiration, callStrike + CallWidth, "C", tradingClass),
     FuturesOption(symbol, expiration, putStrike, "P", tradingClass),
     FuturesOption(symbol, expiration, putStrike + PutWidth, "P", tradingClass)]
  }

  /** The contracts as the broker returns them after qualification: ids filled in. */
  function WithConIds(contracts: seq<Contract>, conIds: seq<int>): (r: seq<Contract>)
    requires |conIds| == |contracts|
    ensures |r| == |contracts|
    ensures forall i :: 0 <= i < |r| ==> r[i] == contracts[i].(conId := conIds[i])
  {
    seq(|contracts|, i requires 0 <= i < |contracts| => contracts[i].(conId := conIds[i]))
  }

  /**
   * What the script sends: the iron condor over its four contracts sells the two
   * inner strikes (the selected call and put) and buys the wings 50 points outside
   * them, and its leg-by-leg price is -p0 + p1 - p2 + p3.
   */
  lemma {:induction false} IronCondorOrder(symbol: string, expiration: string, callStrike: real, putStrike: real,
                                           tradingClass: string, conIds: seq<int>, prices: seq<real>)
    requires |conIds| == 4 && forall i :: 0 <= i < 4 ==> conIds[i] != 0
    requires |prices| == 4
    ensures var legs := WithConIds(IronCondorContracts(symbol, expiration, callStrike, putStrike, tradingClass), conIds);
      && (forall c :: c in legs ==> Qualified(c))
      && CreateIc(legs).Ok?
      && var bag := CreateIc(legs).value;
      && bag.symbol == symbol
      && (forall i :: 0 <= i < 4 ==> bag.comboLegs[i].conId == conIds[i])
      && bag.comboLegs[0].action == Sell && legs[0].right == "C" && legs[0].strike == callStrike
      && bag.comboLegs[1].action == Buy && legs[1].right == "C" && legs[1].strike == callStrike + 50.0
      && bag.comboLegs[2].action == Sell && legs[2].right == "P" && legs[2].strike == putStrike
      && bag.comboLegs[3].action == Buy && legs[3].right == "P" && legs[3].strike == putStrike - 50.0
      && Bag.SignedSum(bag.comboLegs, prices) == -prices[0] + prices[1] - prices[2] + prices[3]
  {
    var legs := WithConIds(IronCondorContracts(symbol, expiration, callStrike, putStrike, tradingClass), conIds);
    forall c | c in legs ensures Qualified(c) {
      var i :| 0 <= i < |legs| && legs[i] == c;
    }
    Bag.IronCondorPrice(legs, prices);
  }
}
