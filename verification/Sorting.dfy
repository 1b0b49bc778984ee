/** Sorting through a caller-supplied comparison, and the byte order on strings. */
module Sorting {

  /** `less` is asymmetric on the elements of `s`, and "not before" is transitive on them. */
  ghost predicate StrictWeakOn<T(!new)>(less: (T, T) -> bool, s: seq<T>) {
    && (forall x, y :: x in s && y in s && less(x, y) ==> !less(y, x))
    && (forall x, y, z :: x in s && y in s && z in s && !less(x, y) && !less(y, z) ==> !less(x, z))
  }

  ghost predicate SortedBy<T(!new)>(less: (T, T) -> bool, s: seq<T>) {
    forall i, j :: 0 <= i < j < |s| ==> !less(s[j], s[i])
  }

  lemma SameElements<T>(s: seq<T>, t: seq<T>)
    requires multiset(s) == multiset(t)
    ensures forall x :: x in s <==> x in t
    ensures |s| == |t|
  {
    assert forall x :: x in s <==> x in multiset(s);
    assert forall x :: x in t <==> x in multiset(t);
    assert |multiset(s)| == |s| && |multiset(t)| == |t|;
  }

  /** `r` is in order up to and including index `i`, looking past index `j`. */
  ghost predicate SortedAround<T(!new)>(less: (T, T) -> bool, r: seq<T>, i: nat, j: nat) {
    forall p, q :: 0 <= p < q <= i < |r| && q != j ==> !less(r[q], r[p])
  }

  function Swap<T>(s: seq<T>, j: nat): (r: seq<T>)
    requires 0 < j < |s|
  {
    s[j := s[j - 1]][j - 1 := s[j]]
  }

  lemma SwapKeepsElements<T>(s: seq<T>, j: nat)
    requires 0 < j < |s|
    ensures multiset(Swap(s, j)) == multiset(s)
  {
    assert s == s[..j - 1] + [s[j - 1]] + [s[j]] + s[j + 1..];
    assert Swap(s, j) == s[..j - 1] + [s[j]] + [s[j - 1]] + s[j + 1..];
  }

  lemma SwapKeepsOrder<T(!new)>(less: (T, T) -> bool, r: seq<T>, i: nat, j: nat)
    requires 0 < j <= i < |r|
    requires StrictWeakOn(less, r) && SortedAround(less, r, i, j) && less(r[j], r[j - 1])
    ensures SortedAround(less, Swap(r, j), i, j - 1)
  {
    assert r[j] in r && r[j - 1] in r;
  }

  lemma SunkElementIsInOrder<T(!new)>(less: (T, T) -> bool, r: seq<T>, i: nat, j: nat)
    requires j <= i < |r|
    requires StrictWeakOn(less, r) && SortedAround(less, r, i, j)
    requires j == 0 || !less(r[j], r[j - 1])
    ensures SortedBy(less, r[..i + 1])
  {
    forall p | 0 <= p < j
      ensures !less(r[j], r[p])
    {
      assert r[j] in r && r[j - 1] in r && r[p] in r;
    }
  }

  lemma StrictWeakPermutation<T(!new)>(less: (T, T) -> bool, s: seq<T>, t: seq<T>)
    requires StrictWeakOn(less, s) && multiset(s) == multiset(t)
    ensures StrictWeakOn(less, t)
  {
    SameElements(s, t);
  }

  /** Moves element `i` left past every larger element of the sorted prefix before it. */
  method SinkInto<T(!new)>(s: seq<T>, i: nat, less: (T, T) -> bool) returns (r: seq<T>)
    requires i < |s|
    ensures |r| == |s| && multiset(r) == multiset(s)
    ensures StrictWeakOn(less, s) && SortedBy(less, s[..i]) ==> SortedBy(less, r[..i + 1])
  {
    r := s;
    var j := i;
    ghost var ordered := StrictWeakOn(less, s) && SortedBy(less, s[..i]);
    assert ordered ==> SortedAround(less, r, i, i) by {
      assert forall p :: 0 <= p < i ==> s[p] == s[..i][p];
    }
    while j > 0 && less(r[j], r[j - 1])
      invariant 0 <= j <= i && |r| == |s| && multiset(r) == multiset(s)
      invariant ordered ==> StrictWeakOn(less, r) && SortedAround(less, r, i, j)
    {
      ghost var before := r;
      if ordered { SwapKeepsOrder(less, r, i, j); }
      SwapKeepsElements(r, j);
      r := r[j := r[j - 1]][j - 1 := r[j]];
      j := j - 1;
      if ordered { StrictWeakPermutation(less, before, r); }
    }
    if ordered { SunkElementIsInOrder(less, r, i, j); }
  }

  /**
   Some permutation of `s`, in order whenever the comparison is a strict weak order on `s`.
   Nothing is promised about the order of ties, nor about a comparison that is not such an order.
   */
  method SortSlice<T(!new)>(s: seq<T>, less: (T, T) -> bool) returns (r: seq<T>)
    ensures multiset(r) == multiset(s)
    ensures StrictWeakOn(less, s) ==> SortedBy(less, r)
  {
    r := s;
    for i := 0 to |s|
      invariant |r| == |s| && multiset(r) == multiset(s)
      invariant StrictWeakOn(less, s) ==> SortedBy(less, r[..i])
    {
      SameElements(r, s);
      r := SinkInto(r, i, less);
    }
    assert r[..|s|] == r;
  }

  /** Byte order on strings: `a` comes strictly before `b`. */
  predicate Before(a: string, b: string) {
    b != [] && (a == [] || a[0] < b[0] || (a[0] == b[0] && Before(a[1..], b[1..])))
  }

  /** `a` and `b` agree up to place `k`, where `a` ends or has the smaller character. */
  ghost predicate SmallerAt(a: string, b: string, k: nat) {
    k <= |a| && k < |b| && a[..k] == b[..k] && (k == |a| || a[k] < b[k])
  }

  lemma FirstAgrees(a: string, b: string, k: nat)
    requires SmallerAt(a, b, k) && k > 0
    ensures a[0] == b[0]
  {
    assert a[..k][0] == a[0] && b[..k][0] == b[0];
  }

  lemma {:induction false} BeforeIff(a: string, b: string)
    ensures Before(a, b) <==> exists k: nat :: SmallerAt(a, b, k)
  {
    if a != [] && b != [] && a[0] == b[0] {
      BeforeIff(a[1..], b[1..]);
      if k: nat :| SmallerAt(a[1..], b[1..], k) {
        assert a[..k + 1] == [a[0]] + a[1..][..k] && b[..k + 1] == [b[0]] + b[1..][..k];
        assert SmallerAt(a, b, k + 1);
      }
      if k: nat :| SmallerAt(a, b, k) {
        assert a[1..][..k - 1] == a[..k][1..] && b[1..][..k - 1] == b[..k][1..];
        assert SmallerAt(a[1..], b[1..], k - 1);
      }
    } else if Before(a, b) {
      assert SmallerAt(a, b, 0);
    } else if k: nat :| SmallerAt(a, b, k) {
      if k > 0 { FirstAgrees(a, b, k); }
    }
  }

  lemma {:induction false} BeforeTotal(a: string, b: string)
    ensures Before(a, b) || a == b || Before(b, a)
    ensures Before(a, b) ==> a != b && !Before(b, a)
  {
    if a != [] && b != [] && a[0] == b[0] {
      BeforeTotal(a[1..], b[1..]);
      assert a == [a[0]] + a[1..] && b == [b[0]] + b[1..];
    }
  }

  lemma {:induction false} BeforeTransitive(a: string, b: string, c: string)
    requires Before(a, b) && Before(b, c)
    ensures Before(a, c)
  {
    if a != [] && a[0] == b[0] == c[0] {
      BeforeTransitive(a[1..], b[1..], c[1..]);
    }
  }

  lemma BeforeIsStrictWeak(s: seq<string>)
    ensures StrictWeakOn(Before, s)
  {
    forall x, y | x in s && y in s && Before(x, y)
      ensures !Before(y, x)
    {
      BeforeTotal(x, y);
    }
    forall x, y, z | x in s && y in s && z in s && !Before(x, y) && !Before(y, z)
      ensures !Before(x, z)
    {
      BeforeTotal(x, y);
      BeforeTotal(y, z);
      BeforeTotal(x, z);
      if z != y && y != x {
        BeforeTransitive(z, y, x);
      }
    }
  }
}
