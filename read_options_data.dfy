/**
 * `in_between` of `week4/IB_ReadOptionsData.py`: whether a time of day falls in
 * the regular session. Times are minutes since midnight; the result 1 selects live
 * market data and 2 frozen data.
 */
module ReadOptionsData {

  /** 09:30, the default start of the window. */
  const SessionStart: int := 9 * 60 + 30

  /** 16:00, the default end of the window. */
  const SessionEnd: int := 16 * 60

  /** `in_between(now, start, end)`: 1 on the half-open window [start, end), else 2. */
  function InBetween(now: int, start: int, end: int): (r: int)
    ensures r == 1 || r == 2
    ensures r == 1 <==> start <= now && now < end
  {
    if start <= now < end then 1 else 2
  }

  /** `in_between(now)` with the default window. */
  function InSession(now: int): (r: int)
    ensures r == 1 <==> 570 <= now < 960
    ensures r == 2 <==> now < 570 || now >= 960
  {
    InBetween(now, SessionStart, SessionEnd)
  }

  /** The start is inside the window and the end is not. */
  lemma WindowIsHalfOpen(start: int, end: int)
    requires start < end
    ensures InBetween(start, start, end) == 1
    ensures InBetween(end, start, end) == 2
  {
  }

  /** An empty or inverted window contains no time. */
  lemma EmptyWindow(now: int, start: int, end: int)
    requires start >= end
    ensures InBetween(now, start, end) == 2
  {
  }
}
