/**
 * The order-based helpers of `strategies/util/es_future.py`: quarter-tick rounding,
 * the weekly trading-class name of ES options, the delta reading of a ticker, the
 * strike window and |delta| filter of `get_ticker`, and the delta-nearest selector.
 * Broker results (market price, chain strikes, tickers) come in as values.
 */
module EsFuture {
  import opened Wrappers
  import opened Sequences

  // ---------------------------------------------------------------------------
  // round_2tick: round(x*4)/4 with Python's round-half-to-even
  // ---------------------------------------------------------------------------

  /** True of the reals that are a whole number of quarter points. */
  predicate IsQuarterTick(q: real) {
    (q * 4.0).Floor as real == q * 4.0
  }

  /** Python's `round(y)` for a float `y`: nearest integer, halves to the even one. */
  function RoundHalfEven(y: real): (n: int)
    ensures Abs(n as real - y) <= 0.5
    ensures Abs(n as real - y) == 0.5 ==> n % 2 == 0
  {
    var f := y.Floor;
    var frac := y - f as real;
    if frac < 0.5 then f
    else if frac > 0.5 then f + 1
    else if f % 2 == 0 then f
    else f + 1
  }

  /** `round_2tick(x)`: the price `x` rounded to the ES tick of 0.25. */
  function RoundToQuarter(x: real): (r: real)
    ensures IsQuarterTick(r)
    ensures Abs(r - x) <= 0.125
    ensures Abs(r - x) == 0.125 ==> (r * 4.0).Floor % 2 == 0
  {
    var n := RoundHalfEven(x * 4.0);
    assert (n as real / 4.0) * 4.0 == n as real;
    n as real / 4.0
  }

  /** No quarter tick is strictly closer to `x` than `RoundToQuarter(x)`. */
  lemma RoundToQuarterNearest(x: real, k: int)
    ensures Abs(RoundToQuarter(x) - x) <= Abs(k as real / 4.0 - x)
  {
    var r := RoundToQuarter(x);
    var n := (r * 4.0).Floor;
    assert n as real == r * 4.0;
    if k != n {
      assert Abs(k as real - n as real) >= 1.0;
      assert Abs(n as real - x * 4.0) <= 0.5;
      assert Abs(k as real - x * 4.0) >= 0.5;
      assert Abs(k as real / 4.0 - x) * 4.0 == Abs(k as real - x * 4.0);
    }
  }

  /**
   * The three properties of RoundToQuarter's contract pin it down: any quarter tick
   * within 0.125 of `x`, and even on an exact half, is the rounded value.
   */
  lemma RoundToQuarterUnique(x: real, q: real)
    requires IsQuarterTick(q)
    requires Abs(q - x) <= 0.125
    requires Abs(q - x) == 0.125 ==> (q * 4.0).Floor % 2 == 0
    ensures q == RoundToQuarter(x)
  {
    var r := RoundToQuarter(x);
    var m, n := (q * 4.0).Floor, (r * 4.0).Floor;
    assert m as real == q * 4.0 && n as real == r * 4.0;
    assert -0.5 <= m as real - x * 4.0 <= 0.5;
    assert -0.5 <= n as real - x * 4.0 <= 0.5;
    assert -1 <= m - n <= 1;
    assert m == n + 1 ==> Abs(q - x) == 0.125 && Abs(r - x) == 0.125;
    assert n == m + 1 ==> Abs(q - x) == 0.125 && Abs(r - x) == 0.125;
  }

  // ---------------------------------------------------------------------------
  // __f2 and get_DTE_trading_class
  // ---------------------------------------------------------------------------

  /** Which occurrence of its weekday in the month a day of the month is: ceil(day/7). */
  function WeekOfMonth(day: int): (w: nat)
    ensures day <= 0 ==> w == 0
    ensures day > 0 ==> 7 * (w - 1) < day <= 7 * w
  {
    if day <= 0 then 0 else (day + 6) / 7
  }

  /** `__f2`: counts how often 7 can be taken off the day before it drops to 0 or below. */
  method NthOccurrence(dayOfMonth: int) returns (counter: nat)
    ensures counter == WeekOfMonth(dayOfMonth)
  {
    var actualDay := dayOfMonth;
    counter := 0;
    while actualDay > 0
      invariant actualDay == dayOfMonth - 7 * counter
      invariant counter > 0 ==> actualDay > -7
      decreases actualDay
    {
      actualDay := actualDay - 7;
      counter := counter + 1;
    }
  }

  lemma WeekOfMonthInMonth(day: int)
    requires 1 <= day <= 31
    ensures 1 <= WeekOfMonth(day) <= 5
  {
  }

  /** `str(d)` for a single decimal digit. */
  function Digit(d: nat): (c: char)
    requires d <= 9
  {
    ('0' as int + d) as char
  }

  /** `chr(65 + weekday).upper()`: Monday 'A', Tuesday 'B', ..., Sunday 'G'. */
  function DayLetter(weekday: nat): (c: char)
    requires weekday <= 6
  {
    (65 + weekday) as char
  }

  /**
   * `get_DTE_trading_class` for a target date given as its day of month and its
   * Python weekday (Monday = 0): `"EW<n>"` on Fridays, `"E<n><letter>"` otherwise,
   * where n is the occurrence of that weekday in the month.
   */
  function TradingClass(day: int, weekday: nat): (r: string)
    requires 1 <= day <= 31 && weekday <= 6
    ensures |r| == 3 && r[0] == 'E'
    ensures weekday == 4 <==> r[1] == 'W'
    ensures weekday == 4 ==> r[2] == Digit(WeekOfMonth(day))
    ensures weekday != 4 ==> r[1] == Digit(WeekOfMonth(day)) && r[2] == DayLetter(weekday)
  {
    var week := WeekOfMonth(day);
    if weekday == 4 then "EW" + [Digit(week)]
    else "E" + [Digit(week)] + [DayLetter(weekday)]
  }

  /** Reads a weekly trading class back into (occurrence, weekday). */
  function ParseTradingClass(s: string): (r: Option<(nat, nat)>)
  {
    if |s| != 3 || s[0] != 'E' then None
    else if s[1] == 'W' then
      (if '0' <= s[2] <= '9' then Some(((s[2] as int - '0' as int) as nat, 4)) else None)
    else if '0' <= s[1] <= '9' && 'A' <= s[2] <= 'G' then
      Some(((s[1] as int - '0' as int) as nat, (s[2] as int - 'A' as int) as nat))
    else None
  }

  /** The trading class names the week and the weekday it was built from. */
  lemma TradingClassRoundTrip(day: int, weekday: nat)
    requires 1 <= day <= 31 && weekday <= 6
    ensures ParseTradingClass(TradingClass(day, weekday)) == Some((WeekOfMonth(day), weekday))
  {
  }

  /** Two dates get the same class exactly when their occurrence and weekday agree. */
  lemma TradingClassInjective(day1: int, weekday1: nat, day2: int, weekday2: nat)
    requires 1 <= day1 <= 31 && weekday1 <= 6
    requires 1 <= day2 <= 31 && weekday2 <= 6
    ensures TradingClass(day1, weekday1) == TradingClass(day2, weekday2)
        <==> WeekOfMonth(day1) == WeekOfMonth(day2) && weekday1 == weekday2
  {
  }

  /** Monday to Thursday carry the letters 'A' to 'D'. */
  lemma WeekdayLetters(day: int)
    requires 1 <= day <= 31
    ensures TradingClass(day, 0)[2] == 'A' && TradingClass(day, 1)[2] == 'B'
    ensures TradingClass(day, 2)[2] == 'C' && TradingClass(day, 3)[2] == 'D'
  {
  }

  // ---------------------------------------------------------------------------
  // get_ticker_delta
  // ---------------------------------------------------------------------------

  /** An option computation as far as this code looks at it. */
  datatype Greeks = Greeks(delta: Option<real>)

  /** A market-data snapshot of one option contract. */
  datatype Ticker = Ticker(
    strike: real,
    lastGreeks: Option<Greeks>,
    bidGreeks: Option<Greeks>,
    askGreeks: Option<Greeks>,
    modelGreeks: Option<Greeks>)

  /** `t.lastGreeks and t.lastGreeks.delta`: present and non-zero (0.0 is falsy). */
  predicate LastUsable(t: Ticker) {
    t.lastGreeks.Some? && t.lastGreeks.value.delta.Some? && t.lastGreeks.value.delta.value != 0.0
  }

  predicate BidAskPresent(t: Ticker) {
    t.askGreeks.Some? && t.bidGreeks.Some?
  }

  /** The midpoint branch adds two deltas; a missing one raises TypeError in Python. */
  predicate NoTypeError(t: Ticker) {
    LastUsable(t) || !BidAskPresent(t)
    || (t.askGreeks.value.delta.Some? && t.bidGreeks.value.delta.Some?)
  }

  /**
   * `get_ticker_delta`: the last-trade delta when it is set and non-zero, else the
   * bid/ask midpoint when both exist, else the model delta, else `None`.
   */
  function TickerDelta(t: Ticker): (r: Option<real>)
    requires NoTypeError(t)
    ensures LastUsable(t) ==> r == t.lastGreeks.value.delta
    ensures !LastUsable(t) && BidAskPresent(t) ==>
      r.Some?
      && Min(t.askGreeks.value.delta.value, t.bidGreeks.value.delta.value) <= r.value
      && r.value <= Max(t.askGreeks.value.delta.value, t.bidGreeks.value.delta.value)
      && r.value - Min(t.askGreeks.value.delta.value, t.bidGreeks.value.delta.value)
         == Max(t.askGreeks.value.delta.value, t.bidGreeks.value.delta.value) - r.value
    ensures !LastUsable(t) && !BidAskPresent(t) ==>
      r == (if t.modelGreeks.Some? then t.modelGreeks.value.delta else None)
    ensures r.None? <==>
      !LastUsable(t) && !BidAskPresent(t) && (t.modelGreeks.None? || t.modelGreeks.value.delta.None?)
  {
    if LastUsable(t) then t.lastGreeks.value.delta
    else if BidAskPresent(t) then
      Some((t.askGreeks.value.delta.value + t.bidGreeks.value.delta.value) / 2.0)
    else if t.modelGreeks.Some? then t.modelGreeks.value.delta
    else None
  }

  function Min(a: real, b: real): real { if a <= b then a else b }
  function Max(a: real, b: real): real { if a <= b then b else a }

  // ---------------------------------------------------------------------------
  // The strike window and the |delta| filter of get_ticker
  // ---------------------------------------------------------------------------

  /** `strike % 5 == 0` on a float strike. */
  predicate MultipleOf5(s: real) {
    (s / 5.0).Floor as real == s / 5.0
  }

  /** The call window (write == 'C') or else the put window around `price`. */
  predicate InWindow(s: real, price: real, write: string) {
    MultipleOf5(s)
    && if write == "C" then price - 5.0 < s < price + 90.0
       else price - 90.0 < s < price + 5.0
  }

  /** The list comprehension over `chain.strikes`, keeping chain order. */
  function StrikeWindow(strikes: seq<real>, price: real, write: string): (r: seq<real>)
    ensures |r| <= |strikes|
    ensures forall x :: x in r <==> x in strikes && InWindow(x, price, write)
  {
    if strikes == [] then []
    else
      var rest := StrikeWindow(strikes[1..], price, write);
      assert forall x :: x in strikes <==> x == strikes[0] || x in strikes[1..];
      if InWindow(strikes[0], price, write) then [strikes[0]] + rest else rest
  }

  /** Each strike inside the window is kept as often as it occurs, every other one not at all. */
  lemma {:induction false} StrikeWindowCounts(strikes: seq<real>, price: real, write: string)
    ensures forall x ::
      multiset(StrikeWindow(strikes, price, write))[x]
      == if InWindow(x, price, write) then multiset(strikes)[x] else 0
  {
    if strikes != [] {
      StrikeWindowCounts(strikes[1..], price, write);
      assert strikes == [strikes[0]] + strikes[1..];
      assert multiset(strikes) == multiset{strikes[0]} + multiset(strikes[1..]);
    }
  }

  /** Filtering a concatenation filters each part: the window is a pure filter. */
  lemma {:induction false} StrikeWindowAppend(a: seq<real>, b: seq<real>, price: real, write: string)
    ensures StrikeWindow(a + b, price, write) == StrikeWindow(a, price, write) + StrikeWindow(b, price, write)
  {
    if a != [] {
      assert (a + b)[1..] == a[1..] + b;
      StrikeWindowAppend(a[1..], b, price, write);
    } else {
      assert a + b == b;
    }
  }

  /** The window keeps the chain's order: ascending strikes stay ascending. */
  lemma {:induction false} StrikeWindowKeepsOrder(strikes: seq<real>, price: real, write: string)
    requires SortedAsc(strikes)
    ensures SortedAsc(StrikeWindow(strikes, price, write))
  {
    if strikes != [] {
      StrikeWindowKeepsOrder(strikes[1..], price, write);
      var rest := StrikeWindow(strikes[1..], price, write);
      forall k | 0 <= k < |rest| ensures strikes[0] <= rest[k] {
        assert rest[k] in rest;
        assert rest[k] in strikes[1..];
        var i :| 0 <= i < |strikes[1..]| && strikes[1..][i] == rest[k];
        assert strikes[i + 1] == rest[k];
      }
      ConsSorted(strikes[0], rest);
    }
  }

  /** The ticker yields a delta and computing it raises nothing. */
  predicate HasDelta(t: Ticker) {
    NoTypeError(t) && TickerDelta(t).Some?
  }

  function DeltaOf(t: Ticker): real
    requires HasDelta(t)
  {
    TickerDelta(t).value
  }

  /** A ticker that survives `abs(get_ticker_delta(t)) >= 0.01`. */
  predicate Liquid(t: Ticker)
    requires HasDelta(t)
  {
    Abs(DeltaOf(t)) >= 0.01
  }

  /** `list(filter(lambda t: abs(get_ticker_delta(t)) >= 0.01, tickers))`. */
  function LiquidTickers(tickers: seq<Ticker>): (r: seq<Ticker>)
    requires forall t :: t in tickers ==> HasDelta(t)
    ensures |r| <= |tickers|
    ensures forall t :: t in r <==> t in tickers && Liquid(t)
  {
    if tickers == [] then []
    else
      var rest := LiquidTickers(tickers[1..]);
      assert forall t :: t in tickers <==> t == tickers[0] || t in tickers[1..];
      if Liquid(tickers[0]) then [tickers[0]] + rest else rest
  }

  /** Each liquid ticker is kept as often as it occurs, every other one not at all. */
  lemma {:induction false} LiquidTickersCounts(tickers: seq<Ticker>)
    requires forall t :: t in tickers ==> HasDelta(t)
    ensures forall t ::
      multiset(LiquidTickers(tickers))[t] == if t in tickers && Liquid(t) then multiset(tickers)[t] else 0
  {
    if tickers != [] {
      assert forall t :: t in tickers[1..] ==> t in tickers;
      LiquidTickersCounts(tickers[1..]);
      assert tickers == [tickers[0]] + tickers[1..];
      assert multiset(tickers) == multiset{tickers[0]} + multiset(tickers[1..]);
    }
  }

  /** Filtering a concatenation filters each part, keeping input order. */
  lemma {:induction false} LiquidTickersAppend(a: seq<Ticker>, b: seq<Ticker>)
    requires forall t :: t in a ==> HasDelta(t)
    requires forall t :: t in b ==> HasDelta(t)
    ensures LiquidTickers(a + b) == LiquidTickers(a) + LiquidTickers(b)
  {
    if a != [] {
      assert (a + b)[1..] == a[1..] + b;
      LiquidTickersAppend(a[1..], b);
    } else {
      assert a + b == b;
    }
  }

  /** `[get_ticker_delta(t) for t in tickers]`. */
  function Deltas(tickers: seq<Ticker>): (r: seq<real>)
    requires forall t :: t in tickers ==> HasDelta(t)
    ensures |r| == |tickers|
    ensures forall i :: 0 <= i < |tickers| ==> r[i] == DeltaOf(tickers[i])
  {
    seq(|tickers|, i requires 0 <= i < |tickers| => DeltaOf(tickers[i]))
  }

  // ---------------------------------------------------------------------------
  // __get_delta_index
  // ---------------------------------------------------------------------------

  /** Some delta lies strictly above and some strictly below the reference. */
  predicate Bracketed(deltas: seq<real>, reference: real) {
    (exists i :: 0 <= i < |deltas| && deltas[i] > reference)
    && (exists j :: 0 <= j < |deltas| && deltas[j] < reference)
  }

  ghost predicate IsMinAbove(deltas: seq<real>, reference: real, v: real) {
    v in deltas && v > reference && forall x :: x in deltas && x > reference ==> v <= x
  }

  ghost predicate IsMaxBelow(deltas: seq<real>, reference: real, v: real) {
    v in deltas && v < reference && forall x :: x in deltas && x < reference ==> x <= v
  }

  /**
   * Independent statement of the selector's choice: index `i` holds a delta other
   * than the reference, no other such delta is closer, a below-reference choice is
   * strictly closer than every above-reference delta (ties go above), and `i` is
   * the first position holding that value.
   */
  ghost predicate IsDeltaChoice(deltas: seq<real>, reference: real, i: nat) {
    && i < |deltas|
    && deltas[i] != reference
    && (forall k :: 0 <= k < |deltas| && deltas[k] != reference ==>
          Abs(deltas[i] - reference) <= Abs(deltas[k] - reference))
    && (deltas[i] < reference ==> forall k :: 0 <= k < |deltas| && deltas[k] > reference ==>
          Abs(deltas[i] - reference) < Abs(deltas[k] - reference))
    && (forall k :: 0 <= k < i ==> deltas[k] != deltas[i])
  }

  /** `__get_delta_index(deltas, reference)`. */
  function DeltaIndex(deltas: seq<real>, reference: real): (r: Result<nat>)
    ensures r.Ok? <==> Bracketed(deltas, reference)
    ensures r.Err? ==> r.error == StopIteration
    ensures r.Ok? ==> IsDeltaChoice(deltas, reference, r.value)
    ensures r.Ok? ==>
      r.value < |deltas|
      && (IsMinAbove(deltas, reference, deltas[r.value]) || IsMaxBelow(deltas, reference, deltas[r.value]))
  {
    var sortedDeltas := Sort(deltas);
    var above := FirstAbove(sortedDeltas, reference);
    var below := FirstBelow(Reverse(sortedDeltas), reference);
    SelectorCandidates(deltas, reference);
    if above.None? || below.None? then Err(StopIteration)
    else if Abs(above.value - reference) <= Abs(below.value - reference) then
      var i := IndexOf(deltas, above.value);
      ChoiceFromCandidates(deltas, reference, above.value, below.value, i);
      Ok(i)
    else
      var i := IndexOf(deltas, below.value);
      ChoiceFromCandidates(deltas, reference, above.value, below.value, i);
      Ok(i)
  }

  /** What the two generator searches over the sorted deltas find. */
  lemma SelectorCandidates(deltas: seq<real>, reference: real)
    ensures var sortedDeltas := Sort(deltas);
      var above := FirstAbove(sortedDeltas, reference);
      var below := FirstBelow(Reverse(sortedDeltas), reference);
      && (above.Some? && below.Some? <==> Bracketed(deltas, reference))
      && (above.Some? ==> IsMinAbove(deltas, reference, above.value))
      && (below.Some? ==> IsMaxBelow(deltas, reference, below.value))
  {
    AboveCandidate(deltas, reference);
    BelowCandidate(deltas, reference);
  }

  /** The search for a delta above the reference, over the ascending deltas. */
  lemma AboveCandidate(deltas: seq<real>, reference: real)
    ensures var above := FirstAbove(Sort(deltas), reference);
      && (above.Some? <==> exists i :: 0 <= i < |deltas| && deltas[i] > reference)
      && (above.Some? ==> IsMinAbove(deltas, reference, above.value))
  {
    var sortedDeltas := Sort(deltas);
    SortSameElements(deltas);
    if i :| 0 <= i < |deltas| && deltas[i] > reference {
      assert deltas[i] in sortedDeltas;
    }
  }

  /** The search for a delta below the reference, over the descending deltas. */
  lemma BelowCandidate(deltas: seq<real>, reference: real)
    ensures var below := FirstBelow(Reverse(Sort(deltas)), reference);
      && (below.Some? <==> exists j :: 0 <= j < |deltas| && deltas[j] < reference)
      && (below.Some? ==> IsMaxBelow(deltas, reference, below.value))
  {
    var sortedDeltas := Sort(deltas);
    var rev := Reverse(sortedDeltas);
    SortSameElements(deltas);
    ReverseSameElements(sortedDeltas);
    ReverseOfAscIsDesc(sortedDeltas);
    if j :| 0 <= j < |deltas| && deltas[j] < reference {
      assert deltas[j] in rev;
    }
  }

  /** The index of the closer candidate satisfies IsDeltaChoice. */
  lemma ChoiceFromCandidates(deltas: seq<real>, reference: real, above: real, below: real, i: nat)
    requires IsMinAbove(deltas, reference, above) && IsMaxBelow(deltas, reference, below)
    requires i < |deltas| && (forall k :: 0 <= k < i ==> deltas[k] != deltas[i])
    requires (deltas[i] == above && Abs(above - reference) <= Abs(below - reference))
          || (deltas[i] == below && Abs(above - reference) > Abs(below - reference))
    ensures IsDeltaChoice(deltas, reference, i)
  {
    forall k | 0 <= k < |deltas| && deltas[k] != reference
      ensures Abs(deltas[i] - reference) <= Abs(deltas[k] - reference)
    {
      assert deltas[k] in deltas;
    }
    forall k | 0 <= k < |deltas| && deltas[k] > reference
      ensures deltas[i] < reference ==> Abs(deltas[i] - reference) < Abs(deltas[k] - reference)
    {
      assert deltas[k] in deltas;
    }
  }

  /** At most one index satisfies IsDeltaChoice, so the selector's answer is determined. */
  lemma DeltaChoiceUnique(deltas: seq<real>, reference: real, i: nat, j: nat)
    requires IsDeltaChoice(deltas, reference, i) && IsDeltaChoice(deltas, reference, j)
    ensures i == j
  {
  }

  /** A delta equal to the reference is never the one chosen. */
  lemma DeltaIndexSkipsReference(deltas: seq<real>, reference: real)
    requires Bracketed(deltas, reference)
    ensures DeltaIndex(deltas, reference).Ok?
    ensures deltas[DeltaIndex(deltas, reference).value] != reference
  {
  }

  /**
   * On bracketed deltas IsDeltaChoice characterizes the selector: it holds of the
   * index returned and of no other.
   */
  lemma DeltaIndexCharacterized(deltas: seq<real>, reference: real, i: nat)
    requires Bracketed(deltas, reference)
    requires IsDeltaChoice(deltas, reference, i)
    ensures DeltaIndex(deltas, reference) == Ok(i)
  {
  }

  /** Deltas 0.10, 0.30, 0.55 and reference 0.25: 0.30 at index 1 is the closer. */
  lemma DeltaIndexExample()
    ensures DeltaIndex([0.10, 0.30, 0.55], 0.25) == Ok(1)
  {
    var d := [0.10, 0.30, 0.55];
    assert d[1] > 0.25 && d[0] < 0.25;
    DeltaIndexCharacterized(d, 0.25, 1);
  }

  /** An exact tie between 0.20 and 0.30 around 0.25 goes to the delta above. */
  lemma DeltaIndexTieGoesAbove()
    ensures DeltaIndex([0.20, 0.30], 0.25) == Ok(1)
  {
  }

  /** A repeated delta value resolves to its first position. */
  lemma DeltaIndexFirstOccurrence()
    ensures DeltaIndex([0.30, 0.10, 0.30], 0.25) == Ok(0)
  {
    var d := [0.30, 0.10, 0.30];
    assert d[0] > 0.25 && d[1] < 0.25;
    DeltaIndexCharacterized(d, 0.25, 0);
  }

  /** With every delta below the reference the search for one above raises. */
  lemma DeltaIndexUnbracketed()
    ensures DeltaIndex([0.10, 0.20], 0.25) == Err(StopIteration)
  {
  }

  // ---------------------------------------------------------------------------
  // get_ticker, from the tickers of the window's contracts onwards
  // ---------------------------------------------------------------------------

  /**
   * The last three lines of `get_ticker`: drop tickers with |delta| < 0.01, then
   * index the survivors with the delta selector.
   */
  function SelectTicker(tickers: seq<Ticker>, reference: real): (r: Result<Ticker>)
    requires forall t :: t in tickers ==> HasDelta(t)
    ensures r.Ok? <==>
      (exists t :: t in tickers && Liquid(t) && DeltaOf(t) > reference)
      && (exists t :: t in tickers && Liquid(t) && DeltaOf(t) < reference)
    ensures r.Err? ==> r.error == StopIteration
    ensures r.Ok? ==> r.value in tickers && Liquid(r.value) && DeltaOf(r.value) != reference
    ensures r.Ok? ==> forall t :: t in tickers && Liquid(t) && DeltaOf(t) != reference ==>
      Abs(DeltaOf(r.value) - reference) <= Abs(DeltaOf(t) - reference)
    ensures r.Ok? ==>
      exists i :: 0 <= i < |LiquidTickers(tickers)|
        && r.value == LiquidTickers(tickers)[i]
        && IsDeltaChoice(Deltas(LiquidTickers(tickers)), reference, i)
  {
    var liquid := LiquidTickers(tickers);
    var deltas := Deltas(liquid);
    LiquidBracketed(tickers, liquid, deltas, reference);
    match DeltaIndex(deltas, reference)
    case Err(e) => Err(e)
    case Ok(i) =>
      SelectedIsNearest(tickers, liquid, deltas, reference, i);
      assert 0 <= i < |liquid| && IsDeltaChoice(deltas, reference, i);
      Ok(liquid[i])
  }

  /** The selector's deltas are bracketed exactly when the liquid tickers are. */
  lemma LiquidBracketed(tickers: seq<Ticker>, liquid: seq<Ticker>, deltas: seq<real>, reference: real)
    requires forall t :: t in tickers ==> HasDelta(t)
    requires liquid == LiquidTickers(tickers) && deltas == Deltas(liquid)
    ensures Bracketed(deltas, reference) <==>
      (exists t :: t in tickers && Liquid(t) && DeltaOf(t) > reference)
      && (exists t :: t in tickers && Liquid(t) && DeltaOf(t) < reference)
  {
  }

  /** The ticker at the selector's index is liquid and nearest to the reference. */
  lemma SelectedIsNearest(tickers: seq<Ticker>, liquid: seq<Ticker>, deltas: seq<real>, reference: real, i: nat)
    requires forall t :: t in tickers ==> HasDelta(t)
    requires liquid == LiquidTickers(tickers) && deltas == Deltas(liquid)
    requires IsDeltaChoice(deltas, reference, i)
    ensures i < |liquid| && liquid[i] in tickers && Liquid(liquid[i])
    ensures DeltaOf(liquid[i]) != reference
    ensures forall t :: t in tickers && Liquid(t) && DeltaOf(t) != reference ==>
      Abs(DeltaOf(liquid[i]) - reference) <= Abs(DeltaOf(t) - reference)
  {
    assert liquid[i] in liquid;
    forall t | t in tickers && Liquid(t) && DeltaOf(t) != reference
      ensures Abs(DeltaOf(liquid[i]) - reference) <= Abs(DeltaOf(t) - reference)
    {
      assert t in liquid;
      var k :| 0 <= k < |liquid| && liquid[k] == t;
      assert deltas[k] == DeltaOf(t);
    }
  }

  /**
   * `get_ticker` once the broker has answered: `price` is the underlying's market
   * price, `chainStrikes` the chain's strikes, and `tickers` the snapshots of the
   * contracts built for the window's strikes.
   */
  function GetTicker(price: real, chainStrikes: seq<real>, write: string, tickers: seq<Ticker>, reference: real)
    : (r: Result<Ticker>)
    requires forall t :: t in tickers ==> t.strike in StrikeWindow(chainStrikes, price, write)
    requires forall t :: t in tickers ==> HasDelta(t)
    ensures r.Ok? ==> r.value in tickers && Liquid(r.value)
    ensures r.Ok? ==> r.value.strike in chainStrikes && InWindow(r.value.strike, price, write)
    ensures r == SelectTicker(tickers, reference)
    ensures r.Err? ==> r.error == StopIteration
  {
    var r := SelectTicker(tickers, reference);
    if r.Ok? then
      assert r.value.strike in StrikeWindow(chainStrikes, price, write);
      r
    else r
  }
}
