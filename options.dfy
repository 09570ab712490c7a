/**
 * `strategies/util/options.py`: picking an option chain and building the four-leg
 * combination ("BAG") contracts of an iron condor, a double calendar and an
 * inverse iron condor out of four already-qualified single-leg contracts.
 */
module Options {
  import opened Wrappers

  /** One leg of a combination contract. */
  datatype ComboLeg = ComboLeg(conId: int, ratio: int, action: string, exchange: string)

  /** The fields of a broker contract that this code reads or writes. */
  datatype Contract = Contract(
    secType: string,
    conId: int,
    symbol: string,
    lastTradeDateOrContractMonth: string,
    strike: real,
    right: string,
    multiplier: string,
    exchange: string,
    currency: string,
    tradingClass: string,
    comboLegs: seq<ComboLeg>)

  /** One entry of the option-chain parameters the broker returns. */
  datatype OptionChain = OptionChain(
    exchange: string,
    underlyingConId: int,
    tradingClass: string,
    multiplier: string,
    expirations: seq<string>,
    strikes: seq<real>)

  /** A contract the broker has resolved carries a non-zero contract id. */
  predicate Qualified(c: Contract) {
    c.conId != 0
  }

  // ---------------------------------------------------------------------------
  // get_option_chain
  // ---------------------------------------------------------------------------

  predicate ChainMatches(c: OptionChain, tradingClass: string, exchange: string) {
    c.tradingClass == tradingClass && c.exchange == exchange
  }

  /** Position of the first chain matching both trading class and exchange. */
  function FirstMatchingChain(chains: seq<OptionChain>, tradingClass: string, exchange: string)
    : (r: Option<nat>)
    ensures r.None? ==> forall k :: 0 <= k < |chains| ==> !ChainMatches(chains[k], tradingClass, exchange)
    ensures r.Some? ==>
      r.value < |chains|
      && ChainMatches(chains[r.value], tradingClass, exchange)
      && forall k :: 0 <= k < r.value ==> !ChainMatches(chains[k], tradingClass, exchange)
  {
    if chains == [] then None
    else if ChainMatches(chains[0], tradingClass, exchange) then Some(0)
    else
      match FirstMatchingChain(chains[1..], tradingClass, exchange)
      case None => None
      case Some(i) => Some(i + 1)
  }

  /**
   * `get_option_chain` given the chains the broker returned for `contract`: the first
   * one whose trading class and exchange match; StopIteration when none does.
   */
  function GetOptionChain(chains: seq<OptionChain>, contract: Contract, tradingClass: string)
    : (r: Result<OptionChain>)
    ensures r.Err? <==> forall k :: 0 <= k < |chains| ==> !ChainMatches(chains[k], tradingClass, contract.exchange)
    ensures r.Err? ==> r.error == StopIteration
    ensures r.Ok? ==>
      exists i :: 0 <= i < |chains| && chains[i] == r.value
        && ChainMatches(chains[i], tradingClass, contract.exchange)
        && forall k :: 0 <= k < i ==> !ChainMatches(chains[k], tradingClass, contract.exchange)
  {
    match FirstMatchingChain(chains, tradingClass, contract.exchange)
    case None => Err(StopIteration)
    case Some(i) => Ok(chains[i])
  }

  // ---------------------------------------------------------------------------
  // create_ic, create_double_cal, create_ici
  // ---------------------------------------------------------------------------

  const Buy: string := "BUY"
  const Sell: string := "SELL"

  /** The action table of an iron condor (and of a double calendar). */
  const IronCondorActions: seq<string> := [Sell, Buy, Sell, Buy]

  /** The action table of an inverse iron condor. */
  const InverseIronCondorActions: seq<string> := [Buy, Sell, Buy, Sell]

  /** The other side of a trade. */
  function Opposite(action: string): string {
    if action == Buy then Sell else Buy
  }

  /** `Contract(symbol=..., secType='BAG', exchange='SMART', currency='USD')` with its legs. */
  function BagContract(symbol: string, legs: seq<ComboLeg>): Contract {
    Contract("BAG", 0, symbol, "", 0.0, "", "", "SMART", "USD", "", legs)
  }

  /**
   * `c` is the BAG over the first four `contracts` with the given actions: smart
   * routed in USD under the first contract's symbol, one unit-ratio leg per contract
   * in input order, each carrying that contract's id and exchange.
   */
  ghost predicate IsComboOf(c: Contract, contracts: seq<Contract>, actions: seq<string>)
    requires |contracts| >= 4 && |actions| == 4
  {
    && c.secType == "BAG" && c.exchange == "SMART" && c.currency == "USD"
    && c.symbol == contracts[0].symbol
    && |c.comboLegs| == 4
    && forall i :: 0 <= i < 4 ==>
         c.comboLegs[i] == ComboLeg(contracts[i].conId, 1, actions[i], contracts[i].exchange)
  }

  /** The shared body of the three builders: only the action table differs. */
  function BuildCombo(contracts: seq<Contract>, actions: seq<string>): (r: Result<Contract>)
    requires |actions| == 4
    ensures r.Ok? <==> |contracts| >= 4
    ensures r.Err? ==> r.error == IndexError
    ensures r.Ok? ==> IsComboOf(r.value, contracts, actions)
  {
    if |contracts| < 4 then Err(IndexError)
    else
      Ok(BagContract(contracts[0].symbol, [
        ComboLeg(contracts[0].conId, 1, actions[0], contracts[0].exchange),
        ComboLeg(contracts[1].conId, 1, actions[1], contracts[1].exchange),
        ComboLeg(contracts[2].conId, 1, actions[2], contracts[2].exchange),
        ComboLeg(contracts[3].conId, 1, actions[3], contracts[3].exchange)]))
  }

  /** `create_ic`: legs SELL, BUY, SELL, BUY over the four qualified contracts. */
  function CreateIc(contracts: seq<Contract>): (r: Result<Contract>)
    requires forall c :: c in contracts ==> Qualified(c)
    ensures r.Ok? <==> |contracts| >= 4
    ensures r.Err? ==> r.error == IndexError
    ensures r.Ok? ==> IsComboOf(r.value, contracts, [Sell, Buy, Sell, Buy])
  {
    BuildCombo(contracts, IronCondorActions)
  }

  /** `create_double_cal`: the same table as `create_ic`. */
  function CreateDoubleCal(contracts: seq<Contract>): (r: Result<Contract>)
    requires forall c :: c in contracts ==> Qualified(c)
    ensures r.Ok? <==> |contracts| >= 4
    ensures r.Err? ==> r.error == IndexError
    ensures r.Ok? ==> IsComboOf(r.value, contracts, [Sell, Buy, Sell, Buy])
  {
    BuildCombo(contracts, IronCondorActions)
  }

  /** `create_ici`: legs BUY, SELL, BUY, SELL over the four qualified contracts. */
  function CreateIci(contracts: seq<Contract>): (r: Result<Contract>)
    requires forall c :: c in contracts ==> Qualified(c)
    ensures r.Ok? <==> |contracts| >= 4
    ensures r.Err? ==> r.error == IndexError
    ensures r.Ok? ==> IsComboOf(r.value, contracts, [Buy, Sell, Buy, Sell])
  {
    BuildCombo(contracts, InverseIronCondorActions)
  }

  /** A double calendar is built exactly like an iron condor. */
  lemma DoubleCalIsIronCondor(contracts: seq<Contract>)
    requires forall c :: c in contracts ==> Qualified(c)
    ensures CreateDoubleCal(contracts) == CreateIc(contracts)
  {
  }

  /**
   * The inverse iron condor is the iron condor with every leg's action reversed and
   * everything else (symbol, routing, ids, exchanges, ratios, order) the same.
   */
  lemma InverseIsOppositeIronCondor(contracts: seq<Contract>)
    requires forall c :: c in contracts ==> Qualified(c)
    requires |contracts| >= 4
    ensures CreateIc(contracts).Ok? && CreateIci(contracts).Ok?
    ensures var ic, ici := CreateIc(contracts).value, CreateIci(contracts).value;
      && ici.(comboLegs := ic.comboLegs) == ic
      && |ici.comboLegs| == |ic.comboLegs| == 4
      && forall i :: 0 <= i < 4 ==>
           ici.comboLegs[i] == ic.comboLegs[i].(action := Opposite(ic.comboLegs[i].action))
  {
  }

  /** Only the first four contracts are read: extra ones change nothing. */
  lemma ExtraContractsIgnored(contracts: seq<Contract>)
    requires forall c :: c in contracts ==> Qualified(c)
    requires |contracts| >= 4
    ensures CreateIc(contracts) == CreateIc(contracts[..4])
    ensures CreateIci(contracts) == CreateIci(contracts[..4])
  {
  }
}
