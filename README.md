# Strike selection and combo construction of the ES option scripts

The scripts of this repository trade E-mini S&P 500 (ES) futures options through a
broker gateway. Almost all of their lines are broker calls. Between those calls sits a
small amount of self-contained logic, and that logic is what this Dafny project
models. Broker results come in as plain values.

- **Delta-nearest strike selection** (`__get_delta_index` and its copy `get_delta_index`).
  The selector sorts the deltas and finds the smallest delta strictly above the
  reference and the largest strictly below it. It returns the list position of the
  closer of the two. A tie goes to the delta above. The position is found by value, so
  it is the first occurrence. The selector raises StopIteration when the reference is
  not bracketed.
- **The surrounding steps of `get_ticker`.** The chain strikes are cut to a call window
  or a put window. Tickers with |delta| < 0.01 are dropped. A ticker's delta comes from
  a fallback chain: the last-trade greeks, then the bid/ask midpoint, then the model
  greeks.
- **Weekly trading-class names** (`__f2`, `get_DTE_trading_class`). The week number is
  the occurrence of the weekday in the month. Fridays give `EW<n>`. Other days give
  `E<n><A..G>`.
- **Quarter-tick rounding** (`round_2tick`, `x_round`): `round(x*4)/4`. Python's
  `round` sends halves to the even integer.
- **The BAG builders** (`create_ic`, `create_double_cal`, `create_ici`) and the
  first-match chain lookup `get_option_chain`.
- **The leg-by-leg combo price** (`get_price_leg_by_leg`): a signed, ratio-weighted sum
  of the leg prices.
- **The iron condor's contract layout** in `strategies/IC_ES.py`:
  [call, call + 50, put, put − 50].
- **The session-window test** `in_between`.

Modules: `Wrappers` holds Option, Result and the two Python exceptions that escape.
`Sequences` holds the Python built-ins the selector uses. `EsFuture`, `Options`, `Bag`,
`IcEs` and `ReadOptionsData` each model one source file.

Floats are modelled as `real`. Scaling by 4 and dividing by 4 are exact in binary
floating point, so `round_2tick` is modelled exactly. The price sum in `Bag` is
idealised: float additions are taken as exact.

Behaviour of the code that the model keeps as written:
- The selector returns a position in the delta list; the caller indexes the tickers with it.
- A tie goes to the delta strictly above the reference.
- The builders raise IndexError only for fewer than four contracts. Contracts after the
  fourth are ignored.
- The currency of the BAG is always "USD". It is not copied from the first leg.

## Model

| member | source | states |
|---|---|---|
| `Sequences.Sort` | strategies/util/es_future.py:103 | `sorted(deltas)` is ascending and a permutation (same multiset) of the deltas |
| `Sequences.FirstAbove` | strategies/util/es_future.py:105 | the generator search finds a value exactly when some element exceeds the reference; on an ascending list that value is the smallest element above the reference |
| `Sequences.FirstBelow` | strategies/util/es_future.py:106 | the search over the reversed list finds a value exactly when some element is below the reference; on a descending list that value is the largest element below |
| `Sequences.Reverse` | strategies/util/es_future.py:106 | element i of `reversed(s)` is element (length of s)-1-i of s |
| `Sequences.IndexOf` | strategies/util/es_future.py:111-113 | `list.index` returns the first position holding the value |
| `EsFuture.RoundHalfEven` | strategies/util/es_future.py:16 | Python's `round`: an integer within 0.5 of the input, even when the input is exactly halfway |
| `EsFuture.RoundToQuarter` | strategies/util/es_future.py:15-16 | `round_2tick(x)` is a multiple of 0.25 within 0.125 of x; an exact half-quarter goes to the even multiple |
| `EsFuture.RoundToQuarterNearest` | strategies/util/es_future.py:15-16 | no multiple of 0.25 is closer to x than `round_2tick(x)` |
| `EsFuture.RoundToQuarterUnique` | strategies/util/es_future.py:15-16 | any quarter tick that is within 0.125 and even on a tie equals `round_2tick(x)`, so the contract determines the result |
| `EsFuture.WeekOfMonth` | strategies/util/es_future.py:117-124 | the week number is ceil(day/7): 7(w-1) < day <= 7w for day >= 1, and 0 for day <= 0 |
| `EsFuture.NthOccurrence` | strategies/util/es_future.py:117-124 | the subtract-7 counting loop of `__f2` terminates and returns ceil(day/7), or 0 for day <= 0 |
| `EsFuture.WeekOfMonthInMonth` | strategies/util/es_future.py:117-124 | for days 1..31 the week number is between 1 and 5 |
| `EsFuture.TradingClass` | strategies/util/es_future.py:30-39 | the class has three characters and starts with 'E'; the second is 'W' exactly on Fridays (weekday 4); Fridays end in the week digit; other days give week digit then `chr(65+weekday)` |
| `EsFuture.TradingClassRoundTrip` | strategies/util/es_future.py:33-39 | the class string decodes back to the week number and the weekday it was built from |
| `EsFuture.TradingClassInjective` | strategies/util/es_future.py:33-39 | two dates share a class exactly when their week number and weekday agree |
| `EsFuture.WeekdayLetters` | strategies/util/es_future.py:39 | Monday to Thursday are lettered 'A' to 'D' |
| `EsFuture.TickerDelta` | strategies/util/es_future.py:87-97 | a non-zero last-trade delta wins; otherwise, when both bid and ask greeks exist, the midpoint of the two deltas (between them and equally far from each); otherwise the model delta; None exactly when none of these applies |
| `EsFuture.StrikeWindow` | strategies/util/es_future.py:67-74 | a strike is kept exactly when it is in the chain, is a multiple of 5 and lies strictly inside (price-5, price+90) for 'C' or (price-90, price+5) otherwise |
| `EsFuture.StrikeWindowCounts` | strategies/util/es_future.py:67-74 | every strike inside the window is kept as many times as the chain lists it, every other strike not at all |
| `EsFuture.StrikeWindowAppend` | strategies/util/es_future.py:67-74 | the window of two chains joined is the window of the first followed by the window of the second, so it is a filter that keeps chain order |
| `EsFuture.StrikeWindowKeepsOrder` | strategies/util/es_future.py:67-74 | the comprehension keeps chain order: ascending chain strikes give ascending window strikes |
| `EsFuture.LiquidTickers` | strategies/util/es_future.py:80 | a ticker survives the filter exactly when it is in the input and its absolute delta is at least 0.01 |
| `EsFuture.LiquidTickersCounts` | strategies/util/es_future.py:80 | every liquid ticker is kept as many times as it occurs in the input, every other ticker not at all |
| `EsFuture.LiquidTickersAppend` | strategies/util/es_future.py:80 | filtering two ticker lists joined gives the filtered first list followed by the filtered second, so the filter keeps input order |
| `EsFuture.Deltas` | strategies/util/es_future.py:82 | the delta list pairs with the filtered tickers position by position |
| `EsFuture.DeltaIndex` | strategies/util/es_future.py:99-113 | succeeds exactly when some delta is above and some below the reference (else StopIteration); the index is in range and holds the smallest delta above or the largest below; that delta is nearest among those not equal to the reference; a below choice is strictly nearer than every above delta (ties go above); the index is the first occurrence of the value |
| `EsFuture.DeltaChoiceUnique` | strategies/util/es_future.py:99-113 | at most one index meets the selector's specification, so the specification determines the answer |
| `EsFuture.DeltaIndexCharacterized` | strategies/util/es_future.py:99-113 | on bracketed deltas, any index that meets the specification is the one the selector returns |
| `EsFuture.DeltaIndexSkipsReference` | strategies/util/es_future.py:105-106 | a delta equal to the reference is never chosen |
| `EsFuture.DeltaIndexExample` | strategies/util/es_future.py:110-111 | deltas [0.10, 0.30, 0.55] with reference 0.25 give index 1 |
| `EsFuture.DeltaIndexTieGoesAbove` | strategies/util/es_future.py:110 | with 0.20 and 0.30 equally far from 0.25, the selector takes 0.30 |
| `EsFuture.DeltaIndexFirstOccurrence` | strategies/util/es_future.py:111 | with 0.30 at positions 0 and 2, the selector returns position 0 |
| `EsFuture.DeltaIndexUnbracketed` | strategies/util/es_future.py:105 | all deltas below the reference raise StopIteration |
| `EsFuture.LiquidBracketed` | strategies/util/es_future.py:80-84 | the selector's delta list is bracketed exactly when liquid tickers exist with a delta above and with a delta below the reference |
| `EsFuture.SelectedIsNearest` | strategies/util/es_future.py:80-84 | the ticker at the selector's index is an input ticker with absolute delta >= 0.01 whose delta is nearest to the reference |
| `EsFuture.SelectTicker` | strategies/util/es_future.py:80-84 | the filter-then-select step succeeds exactly when liquid tickers bracket the reference; the chosen ticker is an input ticker, is liquid, has a delta other than the reference, and that delta is nearest among the liquid tickers; it sits at a position of the liquid list that meets the selector's specification, so a tie goes to the delta above and a repeated delta resolves to its first liquid ticker |
| `EsFuture.GetTicker` | strategies/util/es_future.py:67-84 | the result, success or StopIteration, is exactly the filter-then-select result on the window's tickers; a selected ticker's strike is a chain strike inside the call or put window |
| `Options.FirstMatchingChain` | strategies/util/options.py:14 | returns the first position whose trading class and exchange both match, or None when no chain matches |
| `Options.GetOptionChain` | strategies/util/options.py:8-14 | returns the first chain matching the trading class and the contract's exchange; StopIteration exactly when none matches |
| `Options.BuildCombo` | strategies/util/options.py:25-33 | with four or more contracts, a BAG routed SMART in USD under the first contract's symbol, holding four unit-ratio legs in input order with each contract's id and exchange; IndexError with fewer |
| `Options.CreateIc` | strategies/util/options.py:17-35 | the BAG over contracts 0..3 with actions SELL, BUY, SELL, BUY; IndexError for fewer than four contracts |
| `Options.CreateDoubleCal` | strategies/util/options.py:37-49 | the same BAG and actions SELL, BUY, SELL, BUY |
| `Options.CreateIci` | strategies/util/options.py:52-64 | the same BAG with actions BUY, SELL, BUY, SELL |
| `Options.DoubleCalIsIronCondor` | strategies/util/options.py:37-49 | `create_double_cal` and `create_ic` build identical contracts |
| `Options.InverseIsOppositeIronCondor` | strategies/util/options.py:52-64 | `create_ici` equals `create_ic` with each leg's action reversed at the same position, everything else unchanged |
| `Options.ExtraContractsIgnored` | strategies/util/options.py:28-31 | only contracts 0..3 are read; further contracts do not change the result |
| `Bag.PriceLegByLeg` | strategies/util/bag.py:5-18 | the loop returns the signed sum: +price·ratio for each leg whose action is exactly 'BUY', -price·ratio for any other action, with price i paired with leg i; after k iterations the accumulator is the sum of the first k legs |
| `Bag.Flipped` | strategies/util/options.py:57-60 | leg i of the flipped list is leg i with its action reversed |
| `Bag.FlippedNegates` | strategies/util/bag.py:11-16 | reversing every BUY/SELL action negates the leg-by-leg price |
| `Bag.NonBuyActionSubtracts` | strategies/util/bag.py:13-16 | an action spelled "buy" (not exactly 'BUY') is priced as a sale |
| `Bag.FourLegSum` | strategies/util/bag.py:11-16 | a four-leg price is the sum of the four signed leg values |
| `Bag.IronCondorPrice` | strategies/util/bag.py:11-16 | the `create_ic` combo is priced at -p0 + p1 - p2 + p3 |
| `Bag.InverseIronCondorPrice` | strategies/util/bag.py:11-16 | the `create_ici` combo is priced at exactly the negated `create_ic` price |
| `IcEs.GetDeltaIndex` | strategies/IC_ES.py:23-37 | agrees with the es_future selector on every input: StopIteration exactly when unbracketed, otherwise the nearest non-equal delta, ties above, first occurrence |
| `IcEs.XRound` | strategies/IC_ES.py:43-44 | equals `round_2tick`: a multiple of 0.25 within 0.125 of x, with ties to the even multiple |
| `IcEs.IronCondorContracts` | strategies/IC_ES.py:79-97 | four FOP contracts at strikes call, call+50, put, put-50 with rights C, C, P, P, all on CME with multiplier 50 in USD under the given symbol, expiry and trading class |
| `IcEs.WithConIds` | strategies/util/options.py:24 | qualification fills each contract's id and changes nothing else |
| `IcEs.IronCondorOrder` | strategies/IC_ES.py:93-99 | the script's iron condor sells the selected call and put and buys the wings 50 points outside them, with the given contract ids, and its leg-by-leg price is -p0 + p1 - p2 + p3 |
| `ReadOptionsData.InBetween` | week4/IB_ReadOptionsData.py:9-13 | the result is always 1 or 2, and it is 1 exactly when start <= now < end |
| `ReadOptionsData.InSession` | week4/IB_ReadOptionsData.py:9 | with the default window the result is 1 exactly from 09:30 (minute 570) up to but excluding 16:00 (minute 960) |
| `ReadOptionsData.WindowIsHalfOpen` | week4/IB_ReadOptionsData.py:10 | now = start gives 1 and now = end gives 2 |
| `ReadOptionsData.EmptyWindow` | week4/IB_ReadOptionsData.py:10 | a window with start >= end always gives 2 |

## Left out

- Every broker call is left out: connect, qualifyContracts, reqTickers, reqMktData, reqSecDefOptParams, bracketOrder, placeOrder and disconnect. Their results are inputs. These are contracts that already carry a conId, chains, market prices and ticker snapshots.
- `Options.CreateIc`, `Options.CreateDoubleCal`, `Options.CreateIci`: the in-place qualification of the contracts at options.py:24, 39 and 54 is a precondition (`Qualified`) instead.
- `EsFuture.GetTicker`: the market-price request, the expiry assertion against today's date, the trading-class computation from the clock and the chain request (es_future.py:56-65) are broker or clock I/O. The market price, the chain strikes and the tickers of the window contracts are parameters. Contracts the broker fails to qualify are simply absent from `tickers`.
- `EsFuture.TickerDelta`: a greeks object that is present but has no delta makes Python raise TypeError in the bid/ask midpoint. That case is excluded by a precondition (`NoTypeError`). `abs(None)` in the filter at es_future.py:80 is excluded in the same way (`HasDelta`). The `print` calls are left out.
- `EsFuture.TradingClass`: `datetime.today() + timedelta(days=dte)` reads the clock. The target date's day of month and Python weekday are parameters instead. `get_expiration` and `get_0DTE_expiration` only format the clock's date and are left out.
- `get_call_ticker` / `get_put_ticker` only assert the sign of the target delta and call `get_ticker`; they are not modelled separately.
- `bag.get_ticker` (bag.py:20-40) is a market-data retry loop with sleeps and cancellation. It is left out as timing and I/O.
- `Bag.PriceLegByLeg`: prices are reals, so float rounding in the running sum is not modelled. A NaN market price is not modelled either.
- `ReadOptionsData.InBetween`: times are whole minutes since midnight, so sub-minute precision of Python `time` values is not represented.
- strategies/util/ib.py (clock polling, event callbacks) and strategies/util/config.py (YAML loading) are not part of this model.
- The other strategy scripts (ICI_ES.py, DobleCal_VM_ES.py, combo_test.py, apple_chatgpt.py, week4/BuyApple.py) are not part of this model. They are top-level broker scripts. Their limit and stop prices multiply by non-dyadic factors in floating point.
- The second strike-selection block of strategies/IC_ES.py (lines 127-245) comes after `sys.exit(0)` and never runs, so it is not modelled.
