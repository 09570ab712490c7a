/**
 * The Python built-ins the strike selector relies on, over sequences of reals:
 * `sorted`, `reversed`, `next` over a filtering generator, `list.index` and `abs`.
 */
module Sequences {
  import opened Wrappers

  function Abs(x: real): (r: real)
    ensures r >= 0.0 && (r == x || r == -x)
  {
    if x < 0.0 then -x else x
  }

  predicate SortedAsc(s: seq<real>) {
    forall i, j :: 0 <= i < j < |s| ==> s[i] <= s[j]
  }

  predicate SortedDesc(s: seq<real>) {
    forall i, j :: 0 <= i < j < |s| ==> s[i] >= s[j]
  }

  /** Inserts `x` into an ascending sequence. */
  function Insert(x: real, s: seq<real>): (r: seq<real>)
    requires SortedAsc(s)
    ensures SortedAsc(r)
    ensures multiset(r) == multiset(s) + multiset{x}
  {
    if s == [] then [x]
    else if x <= s[0] then [x] + s
    else
      assert s == [s[0]] + s[1..];
      var rest := Insert(x, s[1..]);
      forall i | 0 <= i < |rest| ensures s[0] <= rest[i] {
        assert rest[i] in multiset(s[1..]) + multiset{x};
      }
      ConsSorted(s[0], rest);
      [s[0]] + rest
  }

  /** A sorted sequence stays sorted behind a head no larger than any of its elements. */
  lemma ConsSorted(a: real, t: seq<real>)
    requires SortedAsc(t)
    requires forall i :: 0 <= i < |t| ==> a <= t[i]
    ensures SortedAsc([a] + t)
  {
  }

  /** `sorted(s)`: an ascending permutation of `s`. */
  function Sort(s: seq<real>): (r: seq<real>)
    ensures SortedAsc(r)
    ensures multiset(r) == multiset(s)
  {
    if s == [] then []
    else
      assert s == [s[0]] + s[1..];
      Insert(s[0], Sort(s[1..]))
  }

  /** `reversed(s)`: element `i` of the result is element `|s|-1-i` of `s`. */
  function Reverse(s: seq<real>): (r: seq<real>)
    ensures |r| == |s|
    ensures forall i :: 0 <= i < |s| ==> r[i] == s[|s| - 1 - i]
  {
    if s == [] then [] else Reverse(s[1..]) + [s[0]]
  }

  /** Sorting keeps exactly the elements it was given. */
  lemma SortSameElements(s: seq<real>)
    ensures forall x :: x in Sort(s) <==> x in s
  {
    forall x ensures x in Sort(s) <==> x in s {
      assert x in Sort(s) <==> x in multiset(Sort(s));
      assert x in s <==> x in multiset(s);
    }
  }

  lemma ReverseSameElements(s: seq<real>)
    ensures forall x :: x in Reverse(s) <==> x in s
  {
  }

  lemma ReverseOfAscIsDesc(s: seq<real>)
    requires SortedAsc(s)
    ensures SortedDesc(Reverse(s))
  {
  }

  /** `next(d for d in s if d > ref)`; `None` where Python raises StopIteration. */
  function FirstAbove(s: seq<real>, ref: real): (r: Option<real>)
    ensures r.Some? <==> exists i :: 0 <= i < |s| && s[i] > ref
    ensures r.Some? ==> r.value in s && r.value > ref
    ensures r.Some? && SortedAsc(s) ==> forall x :: x in s && x > ref ==> r.value <= x
  {
    if s == [] then None
    else if s[0] > ref then Some(s[0])
    else
      var r := FirstAbove(s[1..], ref);
      assert forall i :: 1 <= i < |s| ==> s[i] == s[1..][i - 1];
      assert forall x :: x in s && x > ref ==> x in s[1..];
      r
  }

  /** `next(d for d in s if d < ref)`; `None` where Python raises StopIteration. */
  function FirstBelow(s: seq<real>, ref: real): (r: Option<real>)
    ensures r.Some? <==> exists i :: 0 <= i < |s| && s[i] < ref
    ensures r.Some? ==> r.value in s && r.value < ref
    ensures r.Some? && SortedDesc(s) ==> forall x :: x in s && x < ref ==> r.value >= x
  {
    if s == [] then None
    else if s[0] < ref then Some(s[0])
    else
      var r := FirstBelow(s[1..], ref);
      assert forall i :: 1 <= i < |s| ==> s[i] == s[1..][i - 1];
      assert forall x :: x in s && x < ref ==> x in s[1..];
      r
  }

  /** `s.index(v)`: the position of the first occurrence of `v`. */
  function IndexOf(s: seq<real>, v: real): (i: nat)
    requires v in s
    ensures i < |s| && s[i] == v
    ensures forall k :: 0 <= k < i ==> s[k] != v
  {
    if s[0] == v then 0 else 1 + IndexOf(s[1..], v)
  }
}
