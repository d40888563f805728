/**
 * The numeric helpers the statistics are computed with: the sum of `reduce`,
 * `Math.min`/`Math.max` over a list, the sorted copy and `getMedian`,
 * `Math.round`, `Math.floor` and `roundToOneDecimal` (`Number(x.toFixed(1))`).
 * Numbers are exact reals.
 */
module Numeric {

  /** `xs.reduce((sum, x) => sum + x, 0)`. */
  function Sum(xs: seq<real>): real
  {
    if xs == [] then 0.0 else Sum(xs[..|xs| - 1]) + xs[|xs| - 1]
  }

  /** `Math.min(...xs)` on a non-empty list: an element no larger than any other. */
  function MinOf(xs: seq<real>): (m: real)
    requires |xs| > 0
    ensures m in xs
    ensures forall i :: 0 <= i < |xs| ==> m <= xs[i]
  {
    if |xs| == 1 then xs[0]
    else
      var rest := MinOf(xs[..|xs| - 1]);
      if xs[|xs| - 1] < rest then xs[|xs| - 1] else rest
  }

  /** `Math.max(...xs)` on a non-empty list: an element no smaller than any other. */
  function MaxOf(xs: seq<real>): (m: real)
    requires |xs| > 0
    ensures m in xs
    ensures forall i :: 0 <= i < |xs| ==> xs[i] <= m
  {
    if |xs| == 1 then xs[0]
    else
      var rest := MaxOf(xs[..|xs| - 1]);
      if xs[|xs| - 1] > rest then xs[|xs| - 1] else rest
  }

  /** A lower bound of every element, times the length, bounds the sum from below. */
  lemma {:induction false} SumAtLeast(xs: seq<real>, lo: real)
    requires forall i :: 0 <= i < |xs| ==> lo <= xs[i]
    ensures lo * |xs| as real <= Sum(xs)
  {
    if xs != [] {
      var k := |xs| - 1;
      SumAtLeast(xs[..k], lo);
      assert lo * k as real + lo == lo * (k + 1) as real;
    }
  }

  /** An upper bound of every element, times the length, bounds the sum from above. */
  lemma {:induction false} SumAtMost(xs: seq<real>, hi: real)
    requires forall i :: 0 <= i < |xs| ==> xs[i] <= hi
    ensures Sum(xs) <= hi * |xs| as real
  {
    if xs != [] {
      var k := |xs| - 1;
      SumAtMost(xs[..k], hi);
      assert hi * k as real + hi == hi * (k + 1) as real;
    }
  }

  /** The average of a non-empty list whose elements lie in [lo, hi] lies in [lo, hi]. */
  lemma MeanWithinBounds(xs: seq<real>, lo: real, hi: real)
    requires |xs| > 0
    requires forall i :: 0 <= i < |xs| ==> lo <= xs[i] <= hi
    ensures lo <= Sum(xs) / |xs| as real <= hi
  {
    SumAtLeast(xs, lo);
    SumAtMost(xs, hi);
    DivideBounds(Sum(xs), |xs| as real, lo, hi);
  }

  /** The average of a non-empty list lies between its minimum and its maximum. */
  lemma MeanBetweenMinAndMax(xs: seq<real>)
    requires |xs| > 0
    ensures MinOf(xs) <= Sum(xs) / |xs| as real <= MaxOf(xs)
  {
    MeanWithinBounds(xs, MinOf(xs), MaxOf(xs));
  }

  /** Dividing `lo * n <= x <= hi * n` by a positive `n`. */
  lemma DivideBounds(x: real, n: real, lo: real, hi: real)
    requires 0.0 < n && lo * n <= x <= hi * n
    ensures lo <= x / n <= hi
  {
    var q := x / n;
    assert q * n == x;
    assert (q - lo) * n >= 0.0;
    assert (hi - q) * n >= 0.0;
  }

  /** Ascending order, as `sort((a, b) => a - b)` leaves a list of numbers. */
  predicate Sorted(s: seq<real>) {
    forall i, j :: 0 <= i < j < |s| ==> s[i] <= s[j]
  }

  /** Places `x` in front of the first element not smaller than it. */
  function Insert(x: real, s: seq<real>): (r: seq<real>)
    requires Sorted(s)
    ensures Sorted(r)
    ensures multiset(r) == multiset(s) + multiset{x}
    ensures |r| == |s| + 1
    ensures r[0] == if s == [] || x <= s[0] then x else s[0]
  {
    if s == [] || x <= s[0] then [x] + s
    else
      assert s == [s[0]] + s[1..];
      [s[0]] + Insert(x, s[1..])
  }

  /** The sorted copy `[...xs].sort((a, b) => a - b)`: ascending and a permutation of `xs`. */
  function SortAscending(xs: seq<real>): (r: seq<real>)
    ensures Sorted(r)
    ensures multiset(r) == multiset(xs)
  {
    if xs == [] then []
    else
      assert xs == [xs[0]] + xs[1..];
      Insert(xs[0], SortAscending(xs[1..]))
  }

  /** The first element of an ascending list is the least element of its multiset. */
  lemma SortedHeadIsLeast(a: seq<real>, x: real)
    requires Sorted(a) && x in multiset(a)
    ensures a[0] <= x
  {
    var j :| 0 <= j < |a| && a[j] == x;
  }

  /** Two ascending arrangements of the same multiset are the same list. */
  lemma {:induction false} SortedPermutationUnique(a: seq<real>, b: seq<real>)
    requires Sorted(a) && Sorted(b) && multiset(a) == multiset(b)
    ensures a == b
  {
    assert |a| == |b| by { assert |multiset(a)| == |multiset(b)|; }
    if a != [] {
      SortedHeadIsLeast(a, b[0]);
      SortedHeadIsLeast(b, a[0]);
      SameTails(a, b);
      SortedTail(a);
      SortedTail(b);
      SortedPermutationUnique(a[1..], b[1..]);
      assert a == [a[0]] + a[1..] && b == [b[0]] + b[1..];
    }
  }

  /** Lists with the same multiset and the same first element have tails with the same multiset. */
  lemma SameTails(a: seq<real>, b: seq<real>)
    requires multiset(a) == multiset(b) && a != [] && b != [] && a[0] == b[0]
    ensures multiset(a[1..]) == multiset(b[1..])
  {
    assert a == [a[0]] + a[1..] && b == [b[0]] + b[1..];
    calc {
      multiset(a[1..]);
      multiset(a) - multiset{a[0]};
      multiset(b) - multiset{b[0]};
      multiset(b[1..]);
    }
  }

  /** Dropping the first element keeps a list ascending. */
  lemma SortedTail(a: seq<real>)
    requires Sorted(a) && a != []
    ensures Sorted(a[1..])
  {
    forall i, j | 0 <= i < j < |a| - 1 ensures a[1..][i] <= a[1..][j] {
      assert a[1..][i] == a[i + 1] && a[1..][j] == a[j + 1];
    }
  }

  /**
   * `getMedian(numbers)`: 0 for an empty list; otherwise the middle element of the
   * sorted copy, or the mean of its two middle elements when the length is even.
   * The result lies between the list's minimum and maximum.
   */
  function Median(numbers: seq<real>): (m: real)
    ensures |numbers| == 0 ==> m == 0.0
    ensures |numbers| > 0 ==> MinOf(numbers) <= m <= MaxOf(numbers)
  {
    if |numbers| == 0 then 0.0
    else
      var arr := SortAscending(numbers);
      var mid := |arr| / 2;
      assert |arr| == |numbers| by { assert |multiset(arr)| == |multiset(numbers)|; }
      assert arr[mid] in multiset(numbers);
      if |arr| % 2 == 1 then arr[mid]
      else
        assert arr[mid - 1] in multiset(numbers);
        (arr[mid - 1] + arr[mid]) / 2.0
  }

  /**
   * The median is determined by any ascending arrangement of the list, whichever
   * sorting algorithm produced it: its middle element, or the mean of its two
   * middle elements.
   */
  lemma MedianOfSortedArrangement(numbers: seq<real>, s: seq<real>)
    requires Sorted(s) && multiset(s) == multiset(numbers) && |numbers| > 0
    ensures |s| == |numbers|
    ensures |s| % 2 == 1 ==> Median(numbers) == s[|s| / 2]
    ensures |s| % 2 == 0 ==> Median(numbers) == (s[|s| / 2 - 1] + s[|s| / 2]) / 2.0
  {
    assert |multiset(s)| == |multiset(numbers)|;
    SortedPermutationUnique(SortAscending(numbers), s);
  }

  /** The median of a list already in ascending order is read off the list itself. */
  lemma MedianOfAscending(s: seq<real>)
    requires Sorted(s) && |s| > 0
    ensures |s| % 2 == 1 ==> Median(s) == s[|s| / 2]
    ensures |s| % 2 == 0 ==> Median(s) == (s[|s| / 2 - 1] + s[|s| / 2]) / 2.0
  {
    MedianOfSortedArrangement(s, s);
  }

  /** Reordering the list does not change its median. */
  lemma MedianIgnoresOrder(xs: seq<real>, ys: seq<real>)
    requires multiset(xs) == multiset(ys)
    ensures Median(xs) == Median(ys)
  {
    assert |xs| == |ys| by { assert |multiset(xs)| == |multiset(ys)|; }
    SortedPermutationUnique(SortAscending(xs), SortAscending(ys));
  }

  /** `Math.round(x)`: the nearest integer, halves rounded up. */
  function Round(x: real): (n: int)
    ensures n as real - 0.5 <= x < n as real + 0.5
  {
    (x + 0.5).Floor
  }

  /** `Math.floor(x)`: the largest integer not above `x`. */
  function Floor(x: real): (n: int)
    ensures n as real <= x < n as real + 1.0
  {
    x.Floor
  }

  /**
   * `Number(x.toFixed(1))`: the nearest multiple of 0.1, a tie going to the value of
   * larger magnitude.
   */
  function RoundToOneDecimal(x: real): (r: real)
    ensures (r * 10.0).Floor as real == r * 10.0
    ensures 0.0 <= x ==> r - 0.05 <= x < r + 0.05
    ensures x < 0.0 ==> r - 0.05 < x <= r + 0.05
  {
    var n := NearestTenths(if x < 0.0 then -x else x);
    var tenths := if x < 0.0 then -n else n;
    SignedTenths(x, n);
    tenths as real / 10.0
  }

  /** Giving the rounded magnitude `n / 10` the sign of `x` rounds `x` itself. */
  lemma SignedTenths(x: real, n: int)
    requires n as real / 10.0 - 0.05 <= (if x < 0.0 then -x else x) < n as real / 10.0 + 0.05
    ensures var r := (if x < 0.0 then -n else n) as real / 10.0;
            && (r * 10.0).Floor as real == r * 10.0
            && (0.0 <= x ==> r - 0.05 <= x < r + 0.05)
            && (x < 0.0 ==> r - 0.05 < x <= r + 0.05)
  {
    var t := if x < 0.0 then -n else n;
    var r := t as real / 10.0;
    assert r * 10.0 == t as real;
    assert (t as real).Floor == t;
    if x < 0.0 {
      assert r == -(n as real / 10.0);
    } else {
      assert r == n as real / 10.0;
    }
  }

  /** For `m >= 0`, the count of tenths `toFixed(1)` writes: `n / 10` is within 0.05 of `m`, ties up. */
  function NearestTenths(m: real): (n: int)
    requires 0.0 <= m
    ensures n as real / 10.0 - 0.05 <= m < n as real / 10.0 + 0.05
  {
    (m * 10.0 + 0.5).Floor
  }

  /** The integers of a list, as the reals the median is taken over. */
  function AsReals(xs: seq<int>): (r: seq<real>)
    ensures |r| == |xs| && forall i :: 0 <= i < |xs| ==> r[i] == xs[i] as real
  {
    seq(|xs|, i requires 0 <= i < |xs| => xs[i] as real)
  }

  /** The median of a list of integers is an integer or lies halfway between two. */
  lemma MedianOfIntegersIsHalfInteger(xs: seq<int>)
    ensures (2.0 * Median(AsReals(xs))).Floor as real == 2.0 * Median(AsReals(xs))
  {
    var twice := TwiceMedianOfIntegers(xs);
    assert (twice as real).Floor == twice;
  }

  /** Twice the median of a list of integers, as an integer. */
  lemma TwiceMedianOfIntegers(xs: seq<int>) returns (twice: int)
    ensures 2.0 * Median(AsReals(xs)) == twice as real
  {
    var ys := AsReals(xs);
    if |ys| == 0 {
      twice := 0;
    } else {
      var s := SortAscending(ys);
      MedianOfSortedArrangement(ys, s);
      var mid := |s| / 2;
      var i := IndexOfElement(ys, s[mid]);
      if |s| % 2 == 0 {
        var j := IndexOfElement(ys, s[mid - 1]);
        twice := xs[j] + xs[i];
      } else {
        twice := 2 * xs[i];
      }
    }
  }

  /** An element of a list's sorted copy, located in the list itself. */
  lemma IndexOfElement(ys: seq<real>, y: real) returns (i: nat)
    requires y in multiset(SortAscending(ys))
    ensures i < |ys| && ys[i] == y
  {
    assert y in multiset(ys);
    i :| 0 <= i < |ys| && ys[i] == y;
  }
}
