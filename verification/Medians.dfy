/** The upper median of a list of round-trip times, 0 for an empty list. */
module Medians {
  import opened Sorting
  import opened Statistics

  predicate Ascending(s: seq<int>) {
    forall i, j :: 0 <= i < j < |s| ==> s[i] <= s[j]
  }

  function InsertInto(x: int, s: seq<int>): (r: seq<int>)
    ensures |r| == |s| + 1
  {
    if s == [] || x <= s[0] then [x] + s else [s[0]] + InsertInto(x, s[1..])
  }

  lemma {:induction false} InsertIntoElements(x: int, s: seq<int>)
    ensures multiset(InsertInto(x, s)) == multiset(s) + multiset{x}
  {
    if s != [] && x > s[0] {
      InsertIntoElements(x, s[1..]);
      assert s == [s[0]] + s[1..];
    }
  }

  lemma InsertedAbove(x: int, s: seq<int>, r: seq<int>)
    requires Ascending(s) && s != [] && x > s[0] && multiset(r) == multiset(s[1..]) + multiset{x}
    ensures forall y :: y in r ==> s[0] <= y
  {
    forall y | y in r
      ensures s[0] <= y
    {
      assert y in multiset(r);
    }
  }

  lemma AscendingCons(x: int, s: seq<int>)
    requires Ascending(s) && (s == [] || x <= s[0] || forall y :: y in s ==> x <= y)
    ensures Ascending([x] + s)
  {
    assert s == [] || s[0] in s;
  }

  lemma {:induction false} InsertIntoAscending(x: int, s: seq<int>)
    requires Ascending(s)
    ensures Ascending(InsertInto(x, s))
  {
    if s != [] && x > s[0] {
      var r := InsertInto(x, s[1..]);
      InsertIntoAscending(x, s[1..]);
      InsertIntoElements(x, s[1..]);
      InsertedAbove(x, s, r);
      AscendingCons(s[0], r);
    } else {
      AscendingCons(x, s);
    }
  }

  /** The sorted copy `medianInt` works on. */
  function SortInts(vals: seq<int>): (r: seq<int>)
    ensures |r| == |vals|
  {
    if vals == [] then [] else InsertInto(vals[0], SortInts(vals[1..]))
  }

  lemma {:induction false} SortIntsSorts(vals: seq<int>)
    ensures Ascending(SortInts(vals)) && multiset(SortInts(vals)) == multiset(vals)
  {
    if vals != [] {
      SortIntsSorts(vals[1..]);
      InsertIntoAscending(vals[0], SortInts(vals[1..]));
      InsertIntoElements(vals[0], SortInts(vals[1..]));
      assert vals == [vals[0]] + vals[1..];
    }
  }

  function Median(vals: seq<int>): int {
    if vals == [] then 0 else SortInts(vals)[|vals| / 2]
  }

  function CountBelow(s: seq<int>, x: int): nat {
    if s == [] then 0 else CountBelow(s[..|s| - 1], x) + if s[|s| - 1] < x then 1 else 0
  }

  /** How many elements are below `x` in terms of a real sum, so that sums' permutation law applies. */
  function BelowAs(x: int): int -> real {
    y => if y < x then 1.0 else 0.0
  }

  lemma {:induction false} CountIsSum(s: seq<int>, x: int)
    ensures CountBelow(s, x) as real == Sum(s, BelowAs(x))
  {
    if s != [] {
      CountIsSum(s[..|s| - 1], x);
    }
  }

  lemma CountPermutation(s: seq<int>, t: seq<int>, x: int)
    requires multiset(s) == multiset(t)
    ensures CountBelow(s, x) == CountBelow(t, x)
  {
    CountIsSum(s, x);
    CountIsSum(t, x);
    SumPermutation(s, t, BelowAs(x));
  }

  lemma {:induction false} CountAtMostPrefix(s: seq<int>, x: int, k: nat)
    requires k <= |s| && forall j :: k <= j < |s| ==> s[j] >= x
    ensures CountBelow(s, x) <= k
  {
    if s != [] {
      CountAtMostPrefix(s[..|s| - 1], x, if k == |s| then k - 1 else k);
    }
  }

  lemma {:induction false} CountAtLeastPrefix(s: seq<int>, x: int, k: nat)
    requires k <= |s| && forall j :: 0 <= j < k ==> s[j] < x
    ensures CountBelow(s, x) >= k
  {
    if s != [] {
      CountAtLeastPrefix(s[..|s| - 1], x, if k == |s| then k - 1 else k);
    }
  }

  lemma RankInSorted(sorted: seq<int>, k: nat)
    requires Ascending(sorted) && k < |sorted|
    ensures CountBelow(sorted, sorted[k]) <= k < CountBelow(sorted, sorted[k] + 1)
  {
    hide CountBelow;
    CountAtMostPrefix(sorted, sorted[k], k);
    CountAtLeastPrefix(sorted, sorted[k] + 1, k + 1);
  }

  /** The median is a sample with at most n/2 samples below it and more than n/2 at or below it. */
  lemma MedianRank(vals: seq<int>)
    requires vals != []
    ensures Median(vals) in vals
    ensures CountBelow(vals, Median(vals)) <= |vals| / 2 < CountBelow(vals, Median(vals) + 1)
  {
    hide CountBelow, SortInts;
    var sorted, k := SortInts(vals), |vals| / 2;
    SortIntsSorts(vals);
    SameElements(sorted, vals);
    assert sorted[k] in sorted;
    RankInSorted(sorted, k);
    CountPermutation(sorted, vals, sorted[k]);
    CountPermutation(sorted, vals, sorted[k] + 1);
  }

  lemma {:induction false} CountMonotone(s: seq<int>, t: seq<int>, x: int, y: int)
    requires |s| == |t| && forall i :: 0 <= i < |s| && t[i] < y ==> s[i] < x
    ensures CountBelow(t, y) <= CountBelow(s, x)
  {
    if s != [] {
      CountMonotone(s[..|s| - 1], t[..|t| - 1], x, y);
    }
  }

  /** Raising every sample by at least `d` raises the median by at least `d`. */
  lemma MedianRaised(s: seq<int>, t: seq<int>, d: int)
    requires |s| == |t| && s != [] && forall i :: 0 <= i < |s| ==> t[i] >= s[i] + d
    ensures Median(t) >= Median(s) + d
  {
    hide CountBelow, Median;
    MedianRank(s);
    MedianRank(t);
    if Median(t) < Median(s) + d {
      CountMonotone(s, t, Median(s), Median(t) + 1);
    }
  }

  /** The rank pins the median down, so any sample of the right rank in a reordered list is the median. */
  lemma MedianFromRank(vals: seq<int>, m: int)
    requires vals != [] && CountBelow(vals, m) <= |vals| / 2 < CountBelow(vals, m + 1)
    ensures m == Median(vals)
  {
    hide CountBelow, Median;
    MedianRank(vals);
    if m < Median(vals) {
      CountMonotone(vals, vals, Median(vals), m + 1);
    } else if m > Median(vals) {
      CountMonotone(vals, vals, m, Median(vals) + 1);
    }
  }

  lemma MedianPermutation(s: seq<int>, t: seq<int>)
    requires multiset(s) == multiset(t)
    ensures Median(s) == Median(t)
  {
    hide CountBelow, SortInts;
    SameElements(s, t);
    if s != [] {
      hide Median;
      MedianRank(s);
      CountPermutation(s, t, Median(s));
      CountPermutation(s, t, Median(s) + 1);
      MedianFromRank(t, Median(s));
    }
  }
}
