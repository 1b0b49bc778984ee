/** Sums, means and squared deviations over sequences of any element type, on exact reals. */
module Statistics {
  import opened Sorting

  function Sum<T>(s: seq<T>, f: T -> real): real {
    if s == [] then 0.0 else Sum(s[..|s| - 1], f) + f(s[|s| - 1])
  }

  /** The squared distance of `f` from `c`. */
  function SquareFrom<T>(f: T -> real, c: real): T -> real {
    x => (f(x) - c) * (f(x) - c)
  }

  function Scaled<T>(f: T -> real, k: real): T -> real {
    x => k * f(x)
  }

  function Constant<T>(k: real): T -> real {
    x => k
  }

  function Mean<T>(s: seq<T>, f: T -> real): real {
    if s == [] then 0.0 else Sum(s, f) / |s| as real
  }

  /** The population variance: the mean squared distance from the mean. */
  function Variance<T>(s: seq<T>, f: T -> real): real {
    Mean(s, SquareFrom(f, Mean(s, f)))
  }

  // --- Sums ---------------------------------------------------------------------------------

  lemma {:induction false} SumConcat<T>(a: seq<T>, b: seq<T>, f: T -> real)
    ensures Sum(a + b, f) == Sum(a, f) + Sum(b, f)
  {
    if b == [] {
      assert a + b == a;
    } else {
      SumConcat(a, b[..|b| - 1], f);
      assert (a + b)[..|a + b| - 1] == a + b[..|b| - 1];
    }
  }

  function Without<T>(s: seq<T>, i: nat): seq<T>
    requires i < |s|
  {
    s[..i] + s[i + 1..]
  }

  lemma WithoutElement<T>(s: seq<T>, i: nat)
    requires i < |s|
    ensures multiset(Without(s, i)) == multiset(s) - multiset{s[i]}
  {
    assert s == s[..i] + [s[i]] + s[i + 1..];
  }

  lemma SumOne<T>(x: T, f: T -> real)
    ensures Sum([x], f) == f(x)
  {
  }

  lemma SumWithout<T>(s: seq<T>, i: nat, f: T -> real)
    requires i < |s|
    ensures Sum(s, f) == Sum(Without(s, i), f) + f(s[i])
  {
    hide Sum;
    var before, x, after := s[..i], [s[i]], s[i + 1..];
    SumOne(s[i], f);
    SumConcat(before, x + after, f);
    SumConcat(x, after, f);
    SumConcat(before, after, f);
    assert s == before + (x + after);
  }

  lemma {:induction false} SumPermutation<T>(s: seq<T>, t: seq<T>, f: T -> real)
    requires multiset(s) == multiset(t)
    ensures Sum(s, f) == Sum(t, f)
    decreases |s|
  {
    SameElements(s, t);
    if s != [] {
      var last := |s| - 1;
      assert s[last] in t;
      var i :| 0 <= i < |t| && t[i] == s[last];
      WithoutElement(s, last);
      WithoutElement(t, i);
      assert Without(s, last) == s[..last];
      SumPermutation(s[..last], Without(t, i), f);
      SumWithout(t, i, f);
    }
  }

  lemma {:induction false} SumBounds<T>(s: seq<T>, f: T -> real, lo: real, hi: real)
    requires forall x :: x in s ==> lo <= f(x) <= hi
    ensures |s| as real * lo <= Sum(s, f) <= |s| as real * hi
  {
    if s != [] {
      SumBounds(s[..|s| - 1], f, lo, hi);
      assert s[|s| - 1] in s;
    }
  }

  lemma {:induction false} SumAdd<T>(s: seq<T>, f: T -> real, g: T -> real, h: T -> real, k: T -> real)
    requires forall x :: x in s ==> f(x) == g(x) + h(x) + k(x)
    ensures Sum(s, f) == Sum(s, g) + Sum(s, h) + Sum(s, k)
  {
    if s != [] {
      SumAdd(s[..|s| - 1], f, g, h, k);
      assert s[|s| - 1] in s;
    }
  }

  lemma {:induction false} SumScaled<T>(s: seq<T>, f: T -> real, k: real)
    ensures Sum(s, Scaled(f, k)) == k * Sum(s, f)
  {
    if s != [] {
      SumScaled(s[..|s| - 1], f, k);
    }
  }

  lemma {:induction false} SumConstant<T>(s: seq<T>, k: real)
    ensures Sum(s, Constant(k)) == |s| as real * k
  {
    if s != [] {
      SumConstant(s[..|s| - 1], k);
      assert |s[..|s| - 1]| as real == |s| as real - 1.0;
    }
  }

  lemma MeanTimesLength<T>(s: seq<T>, f: T -> real)
    ensures Mean(s, f) * |s| as real == Sum(s, f)
  {
  }

  lemma VarianceTimesLength<T>(s: seq<T>, f: T -> real)
    ensures Variance(s, f) * |s| as real == Sum(s, SquareFrom(f, Mean(s, f)))
  {
    hide SquareFrom, Sum;
    MeanTimesLength(s, SquareFrom(f, Mean(s, f)));
  }

  /** The sum of one more element of a prefix. */
  lemma SumPrefix<T>(s: seq<T>, i: nat, f: T -> real)
    requires i < |s|
    ensures Sum(s[..i + 1], f) == Sum(s[..i], f) + f(s[i])
  {
    assert s[..i + 1][..i] == s[..i];
  }

  lemma DivideMonotone(x: real, y: real, n: real)
    requires n > 0.0 && x <= y
    ensures x / n <= y / n
  {
  }

  lemma DivideBounds(x: real, n: real, lo: real, hi: real)
    requires n > 0.0 && n * lo <= x <= n * hi
    ensures lo <= x / n <= hi
  {
    DivideMonotone(n * lo, x, n);
    DivideMonotone(x, n * hi, n);
    assert n * lo / n == lo && n * hi / n == hi;
  }

  /** A mean lies between any bounds on its terms. */
  lemma MeanWithin<T>(s: seq<T>, f: T -> real, lo: real, hi: real)
    requires s != []
    requires forall x :: x in s ==> lo <= f(x) <= hi
    ensures lo <= Mean(s, f) <= hi
  {
    SumBounds(s, f, lo, hi);
    DivideBounds(Sum(s, f), |s| as real, lo, hi);
  }

  // --- Squared deviations -------------------------------------------------------------------

  lemma ExpandSquare(x: real, a: real, b: real)
    ensures (x - a) * (x - a) == (x - b) * (x - b) + 2.0 * (b - a) * x + (a * a - b * b)
  {
  }

  lemma SquareSplits<T>(f: T -> real, a: real, b: real, x: T)
    ensures SquareFrom(f, a)(x)
         == SquareFrom(f, b)(x) + Scaled(f, 2.0 * (b - a))(x) + Constant(a * a - b * b)(x)
  {
    ExpandSquare(f(x), a, b);
  }

  /** Moving the reference point of a sum of squares from `b` to `a`. */
  lemma SquaresShift<T>(s: seq<T>, f: T -> real, a: real, b: real)
    ensures Sum(s, SquareFrom(f, a))
         == Sum(s, SquareFrom(f, b)) + 2.0 * (b - a) * Sum(s, f) + |s| as real * (a * a - b * b)
  {
    hide SquareFrom, Scaled, Constant, Sum;
    forall x | x in s
      ensures SquareFrom(f, a)(x)
           == SquareFrom(f, b)(x) + Scaled(f, 2.0 * (b - a))(x) + Constant(a * a - b * b)(x)
    {
      SquareSplits(f, a, b, x);
    }
    SumAdd(s, SquareFrom(f, a), SquareFrom(f, b), Scaled(f, 2.0 * (b - a)), Constant(a * a - b * b));
    SumScaled(s, f, 2.0 * (b - a));
    SumConstant(s, a * a - b * b);
  }

  lemma CompleteSquare(atA: real, atM: real, sum: real, n: real, m: real, a: real)
    requires sum == m * n
    requires atA == atM + 2.0 * (m - a) * sum + n * (a * a - m * m)
    ensures atA == atM + n * ((m - a) * (m - a))
  {
  }

  /** The mean `m` minimises the sum of squares; the excess at `a` is exactly n times the squared offset. */
  lemma SquaresAroundMean<T>(s: seq<T>, f: T -> real, m: real, a: real)
    requires m * |s| as real == Sum(s, f)
    ensures Sum(s, SquareFrom(f, a)) == Sum(s, SquareFrom(f, m)) + |s| as real * ((m - a) * (m - a))
  {
    hide SquareFrom;
    SquaresShift(s, f, a, m);
    CompleteSquare(Sum(s, SquareFrom(f, a)), Sum(s, SquareFrom(f, m)), Sum(s, f), |s| as real, m, a);
  }

  lemma Square(d: real)
    ensures d * d >= 0.0
  {
  }

  lemma SquaresNonNegative<T>(s: seq<T>, f: T -> real, c: real)
    ensures Sum(s, SquareFrom(f, c)) >= 0.0
    ensures Mean(s, SquareFrom(f, c)) >= 0.0
  {
    if s != [] {
      var init := s[..|s| - 1];
      SquaresNonNegative(init, f, c);
      Square(f(s[|s| - 1]) - c);
    }
  }

  lemma VarianceNonNegative<T>(s: seq<T>, f: T -> real)
    ensures Variance(s, f) >= 0.0
  {
    SquaresNonNegative(s, f, Mean(s, f));
  }

  /** Stated with a name for the product, which also serves when the factors are the same. */
  lemma PositiveProduct(x: real, y: real, product: real)
    requires x > 0.0 && y > 0.0 && product == x * y
    ensures product > 0.0
  {
  }

  function Squared(x: real): (r: real)
    ensures r >= 0.0
    ensures x > 0.0 ==> r > 0.0
  {
    if x > 0.0 then
      PositiveProduct(x, x, x * x);
      x * x
    else
      x * x
  }

  function Ratio(x: real, y: real): real
    requires y != 0.0
  {
    x / y
  }

  lemma RatioBelow(x: real, y: real, k: real)
    requires y > 0.0
    ensures Ratio(x, y) < k <==> x < k * y
    ensures Ratio(x, y) <= k <==> x <= k * y
  {
    var q := x / y;
    assert q * y == x;
  }

  lemma NonNegativeProduct(x: real, y: real)
    requires x >= 0.0 && y >= 0.0
    ensures x * y >= 0.0
  {
  }

  lemma SquaresLeastAtMean<T>(s: seq<T>, f: T -> real, m: real, a: real)
    requires m * |s| as real == Sum(s, f)
    ensures Sum(s, SquareFrom(f, m)) <= Sum(s, SquareFrom(f, a))
  {
    hide SquareFrom;
    SquaresAroundMean(s, f, m, a);
    Square(m - a);
    NonNegativeProduct(|s| as real, (m - a) * (m - a));
  }

  lemma SquareAtMost(d: real, h: real)
    requires -h <= d <= h
    ensures 0.0 <= d * d <= h * h
  {
    assert h * h - d * d == (h - d) * (h + d);
  }

  lemma SquaresWithin<T>(s: seq<T>, f: T -> real, mid: real, half: real)
    requires s != []
    requires forall x :: x in s ==> mid - half <= f(x) <= mid + half
    ensures Mean(s, SquareFrom(f, mid)) <= half * half
  {
    forall x | x in s
      ensures 0.0 <= SquareFrom(f, mid)(x) <= half * half
    {
      SquareAtMost(f(x) - mid, half);
    }
    MeanWithin(s, SquareFrom(f, mid), 0.0, half * half);
  }

  lemma VarianceLeastAtMean<T>(s: seq<T>, f: T -> real, a: real)
    requires s != []
    ensures Variance(s, f) <= Mean(s, SquareFrom(f, a))
  {
    hide SquareFrom, Sum;
    MeanTimesLength(s, f);
    SquaresLeastAtMean(s, f, Mean(s, f), a);
    DivideMonotone(Sum(s, SquareFrom(f, Mean(s, f))), Sum(s, SquareFrom(f, a)), |s| as real);
  }

  /** Popoviciu's inequality: values in an interval of width w have variance at most (w / 2) squared. */
  lemma Popoviciu<T>(s: seq<T>, f: T -> real, lo: real, hi: real)
    requires s != []
    requires forall x :: x in s ==> lo <= f(x) <= hi
    ensures Variance(s, f) <= ((hi - lo) / 2.0) * ((hi - lo) / 2.0)
  {
    hide SquareFrom, Sum;
    SquaresWithin(s, f, (lo + hi) / 2.0, (hi - lo) / 2.0);
    VarianceLeastAtMean(s, f, (lo + hi) / 2.0);
  }

  lemma BalanceArithmetic(atM: real, atM': real, sum: real, k: real, m': real, m: real, x: real)
    requires k >= 0.0 && atM' >= 0.0
    requires m' * k == sum && m * (k + 1.0) == sum + x
    requires atM == atM' + k * ((m' - m) * (m' - m))
    ensures k * atM >= (x - m) * (x - m)
  {
    var d := x - m;
    assert (m' - m) * k == -d;
    assert k * (k * ((m' - m) * (m' - m))) == ((m' - m) * k) * ((m' - m) * k);
    NonNegativeProduct(k, atM');
  }

  /** The terms other than `k` contribute at least the squared deviation of `k`, spread over them. */
  lemma OthersBalance<T>(s: seq<T>, f: T -> real, k: nat, m: real)
    requires k < |s| && m * |s| as real == Sum(s, f)
    ensures (|s| - 1) as real * Sum(Without(s, k), SquareFrom(f, m)) >= (f(s[k]) - m) * (f(s[k]) - m)
  {
    hide SquareFrom, Sum, Mean;
    var rest := Without(s, k);
    SumWithout(s, k, f);
    MeanTimesLength(rest, f);
    var m' := Mean(rest, f);
    SquaresAroundMean(rest, f, m', m);
    SquaresNonNegative(rest, f, m');
    BalanceArithmetic(Sum(rest, SquareFrom(f, m)), Sum(rest, SquareFrom(f, m')), Sum(rest, f),
                      |rest| as real, m', m, f(s[k]));
  }

  lemma SquareFromAt<T>(f: T -> real, c: real, x: T)
    ensures SquareFrom(f, c)(x) == (f(x) - c) * (f(x) - c)
  {
  }

  lemma CancelFactor(x: real, y: real, n: real)
    requires n > 0.0 && n * x <= n * y
    ensures x <= y
  {
  }

  lemma SamuelsonArithmetic(others: real, d: real, n: real, total: real, v: real)
    requires n >= 1.0 && (n - 1.0) * others >= d * d
    requires total == others + d * d && v * n == total
    ensures d * d <= (n - 1.0) * v
  {
    var dd := d * d;
    assert (n - 1.0) * total == (n - 1.0) * others + (n - 1.0) * dd;
    assert (n - 1.0) * total >= n * dd;
    assert n * ((n - 1.0) * v) == (n - 1.0) * total;
    CancelFactor(dd, (n - 1.0) * v, n);
  }

  /** Samuelson's inequality: no value lies further than sqrt(n - 1) standard deviations from the mean. */
  lemma Samuelson<T>(s: seq<T>, f: T -> real, k: nat)
    requires k < |s|
    ensures (f(s[k]) - Mean(s, f)) * (f(s[k]) - Mean(s, f)) <= (|s| - 1) as real * Variance(s, f)
  {
    hide SquareFrom, Sum, Mean, Variance;
    var m := Mean(s, f);
    MeanTimesLength(s, f);
    VarianceTimesLength(s, f);
    OthersBalance(s, f, k, m);
    SumWithout(s, k, SquareFrom(f, m));
    SquareFromAt(f, m, s[k]);
    SamuelsonArithmetic(Sum(Without(s, k), SquareFrom(f, m)), f(s[k]) - m,
                        |s| as real, Sum(s, SquareFrom(f, m)), Variance(s, f));
  }

  /** Mean and variance do not depend on the order of the terms. */
  lemma MomentsPermutation<T>(s: seq<T>, t: seq<T>, f: T -> real)
    requires multiset(s) == multiset(t)
    ensures Mean(s, f) == Mean(t, f) && Variance(s, f) == Variance(t, f)
  {
    SameElements(s, t);
    SumPermutation(s, t, f);
    SumPermutation(s, t, SquareFrom(f, Mean(s, f)));
  }
}
