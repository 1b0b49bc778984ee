/**
 The statistical spoofing checks: sample jitter, probe correlation and the VPN signature
 (internal/geo/geo.go and internal/geo/jitter.go). Standard deviations are compared through
 their squares, so no square root is taken.
 */
module Jitter {
  import opened Geometry
  import opened Medians
  import opened Sorting
  import opened Statistics

  function Us(): int -> real { (x: int) => x as real }

  // --- Range check ----------------------------------------------------------------------------

  function MinOf(s: seq<int>): (m: int)
    requires s != []
    ensures m in s && forall x :: x in s ==> m <= x
  {
    if |s| == 1 then s[0] else
    assert s == s[..|s| - 1] + [s[|s| - 1]];
    var m := MinOf(s[..|s| - 1]);
    if s[|s| - 1] < m then s[|s| - 1] else m
  }

  function MaxOf(s: seq<int>): (m: int)
    requires s != []
    ensures m in s && forall x :: x in s ==> x <= m
  {
    if |s| == 1 then s[0] else
    assert s == s[..|s| - 1] + [s[|s| - 1]];
    var m := MaxOf(s[..|s| - 1]);
    if s[|s| - 1] > m then s[|s| - 1] else m
  }

  function Spread(s: seq<int>): int {
    if s == [] then 0 else MaxOf(s) - MinOf(s)
  }

  /** The range check passes: fewer than two samples, or a spread that fits the mean. */
  ghost predicate RangeNormal(rtts: seq<int>) {
    |rtts| < 2 ||
    (Spread(rtts) != 0 && !(Mean(rtts, Us()) > 50000.0 && Spread(rtts) as real < 0.005 * Mean(rtts, Us())))
  }

  datatype JitterResult = JitterResult(normal: bool, jitterUs: int)

  method CheckJitter(rttsUs: seq<int>) returns (r: JitterResult)
    ensures r.normal <==> RangeNormal(rttsUs)
    ensures r.jitterUs == if |rttsUs| < 2 then 0 else Spread(rttsUs)
  {
    if |rttsUs| < 2 {
      return JitterResult(true, 0);
    }
    var minRtt, maxRtt, sum := rttsUs[0], rttsUs[0], 0;
    for i := 0 to |rttsUs|
      invariant i == 0 ==> minRtt == maxRtt == rttsUs[0]
      invariant i > 0 ==> minRtt == MinOf(rttsUs[..i]) && maxRtt == MaxOf(rttsUs[..i])
      invariant sum as real == Sum(rttsUs[..i], Us())
    {
      assert rttsUs[..i + 1][..i] == rttsUs[..i];
      if rttsUs[i] < minRtt {
        minRtt := rttsUs[i];
      }
      if rttsUs[i] > maxRtt {
        maxRtt := rttsUs[i];
      }
      sum := sum + rttsUs[i];
    }
    assert rttsUs[..|rttsUs|] == rttsUs;
    var jitter := maxRtt - minRtt;
    var avgRtt := sum as real / |rttsUs| as real;
    if jitter == 0 {
      return JitterResult(false, 0);
    }
    if avgRtt > 50000.0 {
      var jitterRatio := Ratio(jitter as real, avgRtt);
      RatioBelow(jitter as real, avgRtt, 0.005);
      if jitterRatio < 0.005 {
        return JitterResult(false, jitter);
      }
    }
    return JitterResult(true, jitter);
  }

  // --- Coefficient of variation ---------------------------------------------------------------

  /** The squared coefficient of variation, 0 when the mean is not positive. */
  function CvSquared(rtts: seq<int>): real {
    if |rtts| <= 1 then 0.0 else
    var mean := Mean(rtts, Us());
    if mean > 0.0 then Ratio(Variance(rtts, Us()), Squared(mean)) else 0.0
  }

  /** The variation check passes: one sample, or variation neither absent, nor wild, nor too low for a long trip. */
  ghost predicate VariationNormal(rtts: seq<int>) {
    |rtts| <= 1 ||
    (0.0 < CvSquared(rtts) <= 0.64 && !(Mean(rtts, Us()) > 50000.0 && CvSquared(rtts) < 0.0001))
  }

  datatype JitterAnalysis = JitterAnalysis(normal: bool, cvSquared: real, meanUs: real, variance: real)

  method MeanFloat(vals: seq<int>) returns (mean: real)
    ensures mean == Mean(vals, Us())
    ensures vals == [] ==> mean == 0.0
  {
    if |vals| == 0 {
      return 0.0;
    }
    var sum := 0.0;
    for i := 0 to |vals|
      invariant sum == Sum(vals[..i], Us())
    {
      assert vals[..i + 1][..i] == vals[..i];
      sum := sum + vals[i] as real;
    }
    assert vals[..|vals|] == vals;
    return sum / |vals| as real;
  }

  /** The square of what `stddevFloat` returns. */
  method VarianceFloat(vals: seq<int>, mean: real) returns (variance: real)
    ensures variance == if |vals| < 2 then 0.0 else Mean(vals, SquareFrom(Us(), mean))
  {
    if |vals| < 2 {
      return 0.0;
    }
    var sumSq := 0.0;
    for i := 0 to |vals|
      invariant sumSq == Sum(vals[..i], SquareFrom(Us(), mean))
    {
      assert vals[..i + 1][..i] == vals[..i];
      SquareFromAt(Us(), mean, vals[i]);
      hide SquareFrom;
      var d := vals[i] as real - mean;
      sumSq := sumSq + d * d;
    }
    assert vals[..|vals|] == vals;
    return sumSq / |vals| as real;
  }

  lemma CvNonNegative(rtts: seq<int>)
    ensures CvSquared(rtts) >= 0.0
  {
    hide Mean, Variance, Ratio, Squared;
    VarianceNonNegative(rtts, Us());
    if Mean(rtts, Us()) > 0.0 {
      RatioBelow(Variance(rtts, Us()), Squared(Mean(rtts, Us())), 0.0);
    }
  }

  method AnalyzeJitter(rttsUs: seq<int>) returns (a: JitterAnalysis)
    ensures a.normal <==> VariationNormal(rttsUs)
    ensures a.cvSquared == CvSquared(rttsUs)
    ensures |rttsUs| > 1 ==> a.meanUs == Mean(rttsUs, Us()) && a.variance == Variance(rttsUs, Us())
  {
    if |rttsUs| <= 1 {
      return JitterAnalysis(true, 0.0, 0.0, 0.0);
    }
    var mean := MeanFloat(rttsUs);
    var variance := VarianceFloat(rttsUs, mean);
    var cvSquared := 0.0;
    if mean > 0.0 {
      cvSquared := Ratio(variance, Squared(mean));
    }
    CvNonNegative(rttsUs);
    hide CvSquared, Mean, Variance, Ratio, Squared;
    if cvSquared == 0.0 {
      return JitterAnalysis(false, 0.0, mean, variance);
    }
    if cvSquared > 0.64 {
      return JitterAnalysis(false, cvSquared, mean, variance);
    }
    if mean > 50000.0 && cvSquared < 0.0001 {
      return JitterAnalysis(false, cvSquared, mean, variance);
    }
    return JitterAnalysis(true, cvSquared, mean, variance);
  }

  // --- The variation check subsumes the range check -------------------------------------------

  /** By Popoviciu's inequality the squared variation is at most a quarter of the squared relative spread. */
  lemma VariationBelowSpread(rtts: seq<int>)
    requires rtts != []
    ensures Variance(rtts, Us()) <= (Spread(rtts) as real / 2.0) * (Spread(rtts) as real / 2.0)
  {
    hide Variance;
    Popoviciu(rtts, Us(), MinOf(rtts) as real, MaxOf(rtts) as real);
  }

  lemma StrictSquare(x: real, y: real)
    requires 0.0 <= x < y
    ensures x * x < y * y
  {
    assert y * y - x * x == (y - x) * (y + x);
    PositiveProduct(y - x, y + x, y * y - x * x);
  }

  lemma HundredthSquared(half: real, mean: real)
    requires 0.0 <= half < 0.01 * mean
    ensures half * half < 0.0001 * Squared(mean)
  {
    StrictSquare(half, 0.01 * mean);
  }

  lemma SpreadNonNegative(rtts: seq<int>)
    ensures Spread(rtts) >= 0
  {
    if rtts != [] {
      assert rtts[0] in rtts;
    }
  }

  /** Any spread under 2% of a mean above 50 ms is flagged, four times what the range check flags. */
  lemma NarrowSpreadIsFlagged(rtts: seq<int>)
    requires |rtts| >= 2 && Mean(rtts, Us()) > 50000.0 && Spread(rtts) as real < 0.02 * Mean(rtts, Us())
    ensures !VariationNormal(rtts)
  {
    hide Variance, Mean, Spread, Ratio, Squared;
    VariationBelowSpread(rtts);
    SpreadNonNegative(rtts);
    HundredthSquared(Spread(rtts) as real / 2.0, Mean(rtts, Us()));
    RatioBelow(Variance(rtts, Us()), Squared(Mean(rtts, Us())), 0.0001);
  }

  lemma ConstantSamplesHaveNoVariation(rtts: seq<int>)
    requires rtts != [] && Spread(rtts) == 0
    ensures CvSquared(rtts) == 0.0
  {
    hide Variance, Mean, Spread, Ratio, Squared;
    VariationBelowSpread(rtts);
    CvNonNegative(rtts);
    if Mean(rtts, Us()) > 0.0 {
      RatioBelow(Variance(rtts, Us()), Squared(Mean(rtts, Us())), 0.0);
    }
  }

  /** Whatever the range check calls abnormal, the variation check calls abnormal too. */
  lemma VariationSubsumesRange(rtts: seq<int>)
    requires !RangeNormal(rtts)
    ensures !VariationNormal(rtts)
  {
    if Spread(rtts) == 0 {
      ConstantSamplesHaveNoVariation(rtts);
    } else {
      NarrowSpreadIsFlagged(rtts);
    }
  }

  /** The converse fails: 100 ms and 101 ms have 1% spread but well under 1% variation. */
  lemma SubsumptionIsStrict()
    ensures RangeNormal([100_000, 101_000]) && !VariationNormal([100_000, 101_000])
  {
    var rtts := [100_000, 101_000];
    assert rtts[..1] == [100_000];
    assert Sum(rtts, Us()) == Sum(rtts[..1], Us()) + 101_000.0;
    assert Mean(rtts, Us()) == 100_500.0;
    assert Spread(rtts) == 1000;
    NarrowSpreadIsFlagged(rtts);
  }

  // --- Probe correlation ----------------------------------------------------------------------

  datatype ProbeRtt = ProbeRtt(m: Measurement, median: int)

  /** Every later probe of the order meets the first one. */
  ghost predicate HubConsistent(e: Earth, order: seq<Measurement>) {
    forall i :: 1 <= i < |order| ==> PairMeets(e, order[0], order[i])
  }

  ghost predicate ByMedian(order: seq<Measurement>) {
    forall i, j :: 0 <= i < j < |order| ==> Median(order[i].rtts) <= Median(order[j].rtts)
  }

  function Unpair(ps: seq<ProbeRtt>): seq<Measurement> {
    seq(|ps|, i requires 0 <= i < |ps| => ps[i].m)
  }

  lemma UnpairWithout(ps: seq<ProbeRtt>, i: nat)
    requires i < |ps|
    ensures multiset(Unpair(ps)) == multiset(Unpair(Without(ps, i))) + multiset{ps[i].m}
  {
    var all := Unpair(ps);
    assert all == all[..i] + [all[i]] + all[i + 1..];
    assert Unpair(Without(ps, i)) == all[..i] + all[i + 1..];
  }

  lemma WithoutLength<T>(s: seq<T>, i: nat)
    requires i < |s|
    ensures |Without(s, i)| == |s| - 1
  {
  }

  lemma {:induction false} UnpairPermutation(ps: seq<ProbeRtt>, qs: seq<ProbeRtt>)
    requires multiset(ps) == multiset(qs)
    ensures multiset(Unpair(ps)) == multiset(Unpair(qs))
    decreases |ps|
  {
    hide Unpair, Without;
    SameElements(ps, qs);
    if ps == [] {
      assert qs == [];
    } else {
      assert ps[0] in qs;
      var i :| 0 <= i < |qs| && qs[i] == ps[0];
      WithoutElement(ps, 0);
      WithoutElement(qs, i);
      SameElements(Without(ps, 0), Without(qs, i));
      WithoutLength(ps, 0);
      UnpairPermutation(Without(ps, 0), Without(qs, i));
      UnpairWithout(ps, 0);
      UnpairWithout(qs, i);
    }
  }

  method PairWithMedian(ms: seq<Measurement>) returns (pairs: seq<ProbeRtt>)
    ensures Unpair(pairs) == ms
    ensures forall p :: p in pairs ==> p.median == Median(p.m.rtts)
  {
    hide Median;
    pairs := [];
    for i := 0 to |ms|
      invariant Unpair(pairs) == ms[..i]
      invariant forall p :: p in pairs ==> p.median == Median(p.m.rtts)
    {
      var p := ProbeRtt(ms[i], Median(ms[i].rtts));
      assert Unpair(pairs + [p]) == Unpair(pairs) + [p.m];
      pairs := pairs + [p];
    }
  }

  method SortByMedian(ms: seq<Measurement>) returns (sorted: seq<ProbeRtt>)
    ensures multiset(Unpair(sorted)) == multiset(ms) && |sorted| == |ms|
    ensures ByMedian(Unpair(sorted))
    ensures forall p :: p in sorted ==> p.median == Median(p.m.rtts)
  {
    hide Median;
    var pairs := PairWithMedian(ms);
    var less := (a: ProbeRtt, b: ProbeRtt) => a.median < b.median;
    sorted := SortSlice(pairs, less);
    UnpairPermutation(sorted, pairs);
    SameElements(sorted, pairs);
    SameElements(Unpair(sorted), ms);
    assert StrictWeakOn(less, pairs);
    forall i, j | 0 <= i < j < |sorted|
      ensures Median(sorted[i].m.rtts) <= Median(sorted[j].m.rtts)
    {
      assert sorted[i] in sorted && sorted[j] in sorted && !less(sorted[j], sorted[i]);
    }
  }

  method PairReachable(e: Earth, closest: ProbeRtt, other: ProbeRtt) returns (ok: bool)
    requires closest.median == Median(closest.m.rtts) && other.median == Median(other.m.rtts)
    ensures ok <==> PairMeets(e, closest.m, other.m)
  {
    var probeDistance := e.dist(closest.m.probe, other.m.probe);
    var maxDistClosest := MaxDistanceFromRTT(closest.median);
    var maxDistOther := MaxDistanceFromRTT(other.median);
    return !(maxDistClosest + maxDistOther < probeDistance);
  }

  lemma ReachNonNegative(m: Measurement)
    ensures Reach(m) >= 0.0
  {
  }

  /** The full pairwise check implies the hub check, whatever order ties are put in. */
  lemma RatiosImplyHub(e: Earth, ms: seq<Measurement>, order: seq<Measurement>)
    requires Pseudometric(e) && RatiosOk(e, ms) && multiset(order) == multiset(ms)
    ensures HubConsistent(e, order)
  {
    hide Reach;
    SameElements(order, ms);
    forall i | 1 <= i < |order|
      ensures PairMeets(e, order[0], order[i])
    {
      assert order[0] in ms && order[i] in ms;
      var a :| 0 <= a < |ms| && ms[a] == order[0];
      var b :| 0 <= b < |ms| && ms[b] == order[i];
      ReachNonNegative(ms[a]);
      ReachNonNegative(ms[b]);
      assert a < b ==> PairMeets(e, ms[a], ms[b]);
      assert b < a ==> PairMeets(e, ms[b], ms[a]);
    }
  }

  method CorrelateProbes(e: Earth, ms: seq<Measurement>) returns (consistent: bool, ghost order: seq<Measurement>)
    ensures multiset(order) == multiset(ms)
    ensures |ms| >= 2 ==> ByMedian(order)
    ensures consistent <==> HubConsistent(e, order)
    ensures Pseudometric(e) && RatiosOk(e, ms) ==> consistent
  {
    hide RatiosOk, ByMedian, Pseudometric, PairMeets, Median;
    order := ms;
    if |ms| < 2 {
      return true, order;
    }
    var sorted := SortByMedian(ms);
    order := Unpair(sorted);
    if Pseudometric(e) && RatiosOk(e, ms) {
      RatiosImplyHub(e, ms, order);
    }
    var closest := sorted[0];
    consistent := true;
    for i := 1 to |sorted|
      invariant consistent && forall k :: 1 <= k < i ==> PairMeets(e, order[0], order[k])
    {
      assert sorted[0] in sorted && sorted[i] in sorted;
      assert order[0] == closest.m && order[i] == sorted[i].m;
      consistent := PairReachable(e, closest, sorted[i]);
      if !consistent {
        return false, order;
      }
    }
  }

  lemma MedianOfOne(x: int)
    ensures Median([x]) == x
  {
    MedianRank([x]);
  }

  /** The hub check is strictly weaker: two far probes can each meet the closest one but not each other. */
  lemma HubMissesInconsistency()
    ensures var north := Measurement("n", Point(18.0, 0.0), [20_000]);
            var south := Measurement("s", Point(-18.0, 0.0), [20_000]);
            var hub := Measurement("h", Point(0.0, 0.0), [20_000]);
            && ByMedian([hub, north, south])
            && HubConsistent(FLAT_EARTH, [hub, north, south])
            && !RatiosOk(FLAT_EARTH, [hub, north, south])
  {
    var north := Measurement("n", Point(18.0, 0.0), [20_000]);
    var south := Measurement("s", Point(-18.0, 0.0), [20_000]);
    var hub := Measurement("h", Point(0.0, 0.0), [20_000]);
    var ms := [hub, north, south];
    hide Median;
    MedianOfOne(20_000);
    assert Reach(hub) == Reach(north) == Reach(south) == 1000.0;
    hide Reach;
    assert !PairMeets(FLAT_EARTH, ms[1], ms[2]);
  }

  /** For lists of `n` measurements in order of median, the hub check finds whatever the pair check finds. */
  ghost predicate HubDecides(e: Earth, n: nat) {
    forall ms: seq<Measurement> :: |ms| == n && ByMedian(ms) && HubConsistent(e, ms) ==> RatiosOk(e, ms)
  }

  /** The hub, and then one probe on one side of it and any number on the other. */
  lemma HubMisses(n: nat)
    requires n > 2
    ensures !HubDecides(FLAT_EARTH, n)
  {
    var north := Measurement("n", Point(18.0, 0.0), [20_000]);
    var south := Measurement("s", Point(-18.0, 0.0), [20_000]);
    var hub := Measurement("h", Point(0.0, 0.0), [20_000]);
    var ms := [hub, north] + seq(n - 2, i => south);
    hide Median;
    MedianOfOne(20_000);
    assert Reach(hub) == Reach(north) == Reach(south) == 1000.0;
    assert ByMedian(ms);
    hide Reach, ByMedian;
    assert HubConsistent(FLAT_EARTH, ms);
    assert !PairMeets(FLAT_EARTH, ms[1], ms[2]);
  }

  /** The hub check decides the pair check exactly for lists of up to two measurements. */
  lemma HubDecidesIff(e: Earth, n: nat)
    ensures n <= 2 ==> HubDecides(e, n)
    ensures HubDecides(FLAT_EARTH, n) <==> n <= 2
  {
    hide PairMeets, ByMedian;
    if n > 2 {
      HubMisses(n);
    }
  }

  // --- VPN signature --------------------------------------------------------------------------

  function MedianUs(): Measurement -> real {
    (m: Measurement) => Median(m.rtts) as real
  }

  /** High medians that hardly differ between probes, each from samples that hardly differ. */
  ghost predicate VpnPattern(ms: seq<Measurement>) {
    && |ms| >= 2
    && Mean(ms, MedianUs()) >= 50000.0
    && Variance(ms, MedianUs()) < 0.0025 * Squared(Mean(ms, MedianUs()))
    && forall m :: m in ms ==> CvSquared(m.rtts) <= 0.0009
  }

  lemma EmptySum<T>(s: seq<T>, f: T -> real)
    ensures Sum(s[..0], f) == 0.0
  {
  }

  method MeanSquareFrom(ghost ms: seq<Measurement>, medians: seq<real>, mean: real) returns (variance: real)
    requires ms != [] && |medians| == |ms| && forall k :: 0 <= k < |ms| ==> medians[k] == MedianUs()(ms[k])
    ensures variance == Mean(ms, SquareFrom(MedianUs(), mean))
  {
    hide SquareFrom, Sum, Median;
    EmptySum(ms, SquareFrom(MedianUs(), mean));
    var sumSq := 0.0;
    for i := 0 to |medians|
      invariant sumSq == Sum(ms[..i], SquareFrom(MedianUs(), mean))
    {
      SumPrefix(ms, i, SquareFrom(MedianUs(), mean));
      SquareFromAt(MedianUs(), mean, ms[i]);
      var d := medians[i] - mean;
      sumSq := sumSq + d * d;
    }
    assert ms[..|ms|] == ms;
    variance := sumSq / |medians| as real;
  }

  method MedianMoments(ms: seq<Measurement>) returns (mean: real, variance: real)
    requires ms != []
    ensures mean == Mean(ms, MedianUs()) && variance == Variance(ms, MedianUs())
  {
    hide Median, Sum;
    var medians: seq<real> := [];
    for i := 0 to |ms|
      invariant |medians| == i && forall k :: 0 <= k < i ==> medians[k] == MedianUs()(ms[k])
    {
      medians := medians + [Median(ms[i].rtts) as real];
    }
    EmptySum(ms, MedianUs());
    mean := 0.0;
    for i := 0 to |medians|
      invariant mean == Sum(ms[..i], MedianUs())
    {
      SumPrefix(ms, i, MedianUs());
      mean := mean + medians[i];
    }
    assert ms[..|ms|] == ms;
    mean := mean / |medians| as real;
    variance := MeanSquareFrom(ms, medians, mean);
  }

  method DetectVPN(ms: seq<Measurement>) returns (vpn: bool)
    ensures vpn <==> VpnPattern(ms)
  {
    hide CvSquared;
    if |ms| < 2 {
      return false;
    }
    var mean, variance := MedianMoments(ms);
    if mean < 50000.0 {
      return false;
    }
    hide Mean, Variance, Ratio, Squared;
    RatioBelow(variance, Squared(mean), 0.0025);
    var cvSquared := Ratio(variance, Squared(mean));
    if cvSquared < 0.0025 {
      for i := 0 to |ms|
        invariant forall k :: 0 <= k < i ==> CvSquared(ms[k].rtts) <= 0.0009
      {
        var j := AnalyzeJitter(ms[i].rtts);
        if j.cvSquared > 0.0009 {
          assert ms[i] in ms;
          return false;
        }
      }
      return true;
    }
    return false;
  }

  lemma ScaleStrictly(n: real, v: real, k: real, mm: real)
    requires n > 0.0 && v < k * mm
    ensures n * v < k * (n * mm)
  {
    assert n * (k * mm - v) > 0.0;
  }

  /** A VPN flag means flat medians: each is within 5% of the mean times sqrt(n - 1). */
  lemma VpnMeansFlat(ms: seq<Measurement>, k: nat)
    requires VpnPattern(ms) && k < |ms|
    ensures var mean := Mean(ms, MedianUs());
            var d := Median(ms[k].rtts) as real - mean;
            d * d < 0.0025 * ((|ms| - 1) as real * Squared(mean))
  {
    hide Mean, Variance, CvSquared, Squared;
    Samuelson(ms, MedianUs(), k);
    ScaleStrictly((|ms| - 1) as real, Variance(ms, MedianUs()), 0.0025, Squared(Mean(ms, MedianUs())));
  }

  lemma FifthOfMean(d: real, n: real, mean: real)
    requires mean > 0.0 && n <= 16.0 && d * d < 0.0025 * (n * Squared(mean))
    ensures -0.2 * mean < d < 0.2 * mean
  {
    assert n * Squared(mean) <= 16.0 * Squared(mean);
    var fifth := 0.2 * mean;
    assert d * d < fifth * fifth;
    if d >= fifth {
      SquareAtMost(fifth, d);
    } else if d <= -fifth {
      SquareAtMost(fifth, -d);
    }
  }

  /** With the 16 probes a challenge hands out, no median is a fifth of the mean away from it. */
  lemma VpnMediansWithinFifth(ms: seq<Measurement>, k: nat)
    requires VpnPattern(ms) && k < |ms| <= 17
    ensures var mean := Mean(ms, MedianUs());
            0.8 * mean < Median(ms[k].rtts) as real < 1.2 * mean
  {
    hide Mean, Variance, CvSquared, Squared, Median;
    VpnMeansFlat(ms, k);
    FifthOfMean(Median(ms[k].rtts) as real - Mean(ms, MedianUs()), (|ms| - 1) as real, Mean(ms, MedianUs()));
  }

  // --- The thresholds, exactly ----------------------------------------------------------------

  lemma HalvedGap(x: real, y: real)
    ensures var mean := (x + y) / 2.0;
            ((x - mean) * (x - mean) + (y - mean) * (y - mean)) / 2.0 == Squared((y - x) / 2.0)
  {
    var mean, half := (x + y) / 2.0, (y - x) / 2.0;
    assert x - mean == -half && y - mean == half;
  }

  lemma PairMoments<T>(x: T, y: T, f: T -> real)
    ensures Mean([x, y], f) == (f(x) + f(y)) / 2.0
    ensures Variance([x, y], f) == Squared((f(y) - f(x)) / 2.0)
  {
    var mean, pair := (f(x) + f(y)) / 2.0, [x, y];
    assert pair == [x] + [y];
    SumConcat([x], [y], f);
    SumOne(x, f);
    SumOne(y, f);
    SumConcat([x], [y], SquareFrom(f, mean));
    SumOne(x, SquareFrom(f, mean));
    SumOne(y, SquareFrom(f, mean));
    HalvedGap(f(x), f(y));
  }

  function AbsGap(a: int, b: int): nat {
    if a < b then b - a else a - b
  }

  lemma PairSpread(a: int, b: int)
    ensures Spread([a, b]) == AbsGap(a, b)
  {
    assert [a, b][0] == a && [a, b][1] == b;
    var low, high := MinOf([a, b]), MaxOf([a, b]);
    assert a in [a, b] && b in [a, b];
  }

  /** Two samples pass the range check unless they are equal, or less than 0.5% apart with a mean above 50 ms. */
  lemma PairRange(a: int, b: int)
    ensures RangeNormal([a, b]) <==> a != b && (a + b <= 100_000 || 400 * AbsGap(a, b) >= a + b)
  {
    hide Mean, Spread;
    PairMoments(a, b, Us());
    PairSpread(a, b);
    assert Us()(a) == a as real && Us()(b) == b as real;
  }

  /** Fewer than two samples say nothing about jitter, and both checks pass them. */
  lemma FewSamplesPass(rtts: seq<int>)
    requires |rtts| < 2
    ensures RangeNormal(rtts) && VariationNormal(rtts) && CvSquared(rtts) == 0.0
  {
  }

  lemma SquaresCompare(x: real, y: real)
    requires x >= 0.0 && y >= 0.0
    ensures x * x <= y * y <==> x <= y
    ensures x * x < y * y <==> x < y
  {
    if x < y {
      StrictSquare(x, y);
    } else if y < x {
      StrictSquare(y, x);
    }
  }

  lemma SquaredGap(a: int, b: int)
    ensures Squared((b as real - a as real) / 2.0) == Squared(AbsGap(a, b) as real / 2.0)
  {
  }

  lemma SquareIs(x: real)
    ensures Squared(x) == x * x
  {
  }

  lemma ScaledSquare(k: real, x: real)
    ensures k * k * Squared(x) == (k * x) * (k * x)
  {
  }

  /** The variation of two samples against `k`: half their gap against `k` times their mean. */
  lemma PairVariation(a: int, b: int, k: real)
    requires k >= 0.0 && a + b > 0
    ensures CvSquared([a, b]) <= k * k <==> AbsGap(a, b) as real <= k * (a + b) as real
    ensures CvSquared([a, b]) < k * k <==> AbsGap(a, b) as real < k * (a + b) as real
  {
    hide Mean, Variance, Ratio, Squared;
    PairMoments(a, b, Us());
    var mean, half := (a + b) as real / 2.0, AbsGap(a, b) as real / 2.0;
    SquaredGap(a, b);
    assert Mean([a, b], Us()) == mean > 0.0;
    RatioBelow(Squared(half), Squared(mean), k * k);
    ScaledSquare(k, mean);
    NonNegativeProduct(k, mean);
    SquaresCompare(half, k * mean);
    SquareIs(half);
    assert k * mean == k * (a + b) as real / 2.0;
  }

  /** Two samples pass the variation check when neither equal, nor wild, nor varying by less than 1% above 50 ms. */
  lemma PairVariationNormal(a: int, b: int)
    ensures VariationNormal([a, b]) <==>
            && a != b && a + b > 0 && 5 * AbsGap(a, b) <= 4 * (a + b)
            && (a + b <= 100_000 || 100 * AbsGap(a, b) >= a + b)
  {
    hide Mean, Variance, Ratio, Squared;
    PairMoments(a, b, Us());
    assert Mean([a, b], Us()) == (a + b) as real / 2.0;
    if a + b > 0 {
      PairVariation(a, b, 0.0);
      PairVariation(a, b, 0.8);
      PairVariation(a, b, 0.01);
      CvNonNegative([a, b]);
      hide CvSquared;
    }
  }

  lemma PairMedians(m: Measurement, n: Measurement, x: int, y: int)
    requires Median(m.rtts) == x && Median(n.rtts) == y
    ensures Mean([m, n], MedianUs()) == (x + y) as real / 2.0
    ensures x + y > 0 ==> (Variance([m, n], MedianUs()) < 0.0025 * Squared(Mean([m, n], MedianUs()))
                           <==> 20 * AbsGap(x, y) < x + y)
  {
    hide Mean, Variance, Squared, Median;
    PairMoments(m, n, MedianUs());
    if x + y > 0 {
      var mean, half := (x + y) as real / 2.0, AbsGap(x, y) as real / 2.0;
      SquaredGap(x, y);
      SquareIs(half);
      ScaledSquare(0.05, mean);
      SquaresCompare(half, 0.05 * mean);
    }
  }

  /** One sample from each of two probes: a VPN when they average 50 ms or more and lie less than 10% apart. */
  lemma PairVpn(m: Measurement, n: Measurement, x: int, y: int)
    requires m.rtts == [x] && n.rtts == [y]
    ensures VpnPattern([m, n]) <==> x + y >= 100_000 && 20 * AbsGap(x, y) < x + y
  {
    MedianOfOne(x);
    MedianOfOne(y);
    PairMedians(m, n, x, y);
    assert CvSquared(m.rtts) == CvSquared(n.rtts) == 0.0;
    hide Mean, Variance, Squared, Median, CvSquared;
    assert forall k :: k in [m, n] ==> k == m || k == n;
  }

  lemma UpperOfTwo(a: int, b: int)
    requires a <= b
    ensures Median([a, b]) == b
  {
    assert [a, b][1..] == [b] && [b][1..] == [];
    assert SortInts([b]) == [b] && InsertInto(a, [b]) == [a] + [b];
  }

  /** The same two samples from each of two probes: a VPN when the upper is 50 ms or more, varying by 3% at most. */
  lemma SteadyPairVpn(m: Measurement, n: Measurement, a: int, b: int)
    requires m.rtts == n.rtts == [a, b] && 0 < a <= b
    ensures VpnPattern([m, n]) <==> b >= 50_000 && 100 * (b - a) <= 3 * (a + b)
  {
    UpperOfTwo(a, b);
    PairMedians(m, n, b, b);
    PairVariation(a, b, 0.03);
    hide Mean, Variance, Squared, Median, CvSquared;
    assert m in [m, n];
    assert forall k :: k in [m, n] ==> k == m || k == n;
  }

  // --- Order does not matter ------------------------------------------------------------------

  lemma VpnMeasurementOrder(ms: seq<Measurement>, ns: seq<Measurement>)
    requires multiset(ms) == multiset(ns)
    ensures VpnPattern(ms) <==> VpnPattern(ns)
  {
    hide CvSquared, Mean, Variance;
    SameElements(ms, ns);
    MomentsPermutation(ms, ns, MedianUs());
  }

  lemma {:induction false} SumPointwise<T>(s: seq<T>, t: seq<T>, f: T -> real)
    requires |s| == |t| && forall i :: 0 <= i < |s| ==> f(s[i]) == f(t[i])
    ensures Sum(s, f) == Sum(t, f)
  {
    if s != [] {
      SumPointwise(s[..|s| - 1], t[..|t| - 1], f);
    }
  }

  lemma MomentsPointwise<T>(s: seq<T>, t: seq<T>, f: T -> real)
    requires |s| == |t| && forall i :: 0 <= i < |s| ==> f(s[i]) == f(t[i])
    ensures Mean(s, f) == Mean(t, f) && Variance(s, f) == Variance(t, f)
  {
    SumPointwise(s, t, f);
    SumPointwise(s, t, SquareFrom(f, Mean(s, f)));
  }

  lemma CvPermutation(s: seq<int>, t: seq<int>)
    requires multiset(s) == multiset(t)
    ensures CvSquared(s) == CvSquared(t)
  {
    hide Mean, Variance;
    SameElements(s, t);
    MomentsPermutation(s, t, Us());
  }

  ghost predicate SameSamples(ms: seq<Measurement>, ns: seq<Measurement>) {
    |ms| == |ns| && forall i :: 0 <= i < |ms| ==> multiset(ms[i].rtts) == multiset(ns[i].rtts)
  }

  lemma SameSamplesSameCv(ms: seq<Measurement>, ns: seq<Measurement>, m: Measurement)
    requires SameSamples(ms, ns) && m in ms
    ensures exists n :: n in ns && CvSquared(n.rtts) == CvSquared(m.rtts)
  {
    var i :| 0 <= i < |ms| && ms[i] == m;
    CvPermutation(ms[i].rtts, ns[i].rtts);
    assert ns[i] in ns;
  }

  lemma SameSamplesSameMoments(ms: seq<Measurement>, ns: seq<Measurement>)
    requires SameSamples(ms, ns)
    ensures Mean(ms, MedianUs()) == Mean(ns, MedianUs()) && Variance(ms, MedianUs()) == Variance(ns, MedianUs())
  {
    hide Mean, Variance, Median;
    forall i | 0 <= i < |ms|
      ensures MedianUs()(ms[i]) == MedianUs()(ns[i])
    {
      MedianPermutation(ms[i].rtts, ns[i].rtts);
    }
    MomentsPointwise(ms, ns, MedianUs());
  }

  lemma VpnSampleOrder(ms: seq<Measurement>, ns: seq<Measurement>)
    requires SameSamples(ms, ns)
    ensures VpnPattern(ms) <==> VpnPattern(ns)
  {
    hide CvSquared, Mean, Variance, MedianUs;
    SameSamplesSameMoments(ms, ns);
    forall m | m in ms
      ensures exists n :: n in ns && CvSquared(n.rtts) == CvSquared(m.rtts)
    {
      SameSamplesSameCv(ms, ns, m);
    }
    forall n | n in ns
      ensures exists m :: m in ms && CvSquared(m.rtts) == CvSquared(n.rtts)
    {
      SameSamplesSameCv(ns, ms, n);
    }
  }
}
