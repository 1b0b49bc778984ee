/**
 From measurements to a verdict: the middle of `SubmitMeasurement`
 (internal/grpcserver/server.go), and what each verdict says about the geometry.
 */
module Verdicts {
  import opened Engine
  import opened Exclusions
  import opened Geometry
  import opened Intersection
  import opened Jitter
  import opened Medians
  import opened Wrappers
  import Statistics

  datatype Status = Plausible | Rejected | Suspicious | Confirmed

  /** The engine's result with the later flags overwritten, the status, and the stored suspicious bit. */
  datatype Verdict = Verdict(
    status: Status, located: LocateResult, vpnDetected: bool, correlated: bool, suspicious: bool)

  function StatusOf(s: Spoofing, confidence: real): Status {
    if s.physicallyImpossible then Rejected
    else if s.vpnLikely || s.jitterAbnormal || s.ratioInconsistent then Suspicious
    else if confidence >= 0.85 then Confirmed
    else Plausible
  }

  /** The hub check as run on some order of the measurements by median. */
  ghost predicate Correlated(e: Earth, ms: seq<Measurement>, consistent: bool) {
    exists order: seq<Measurement> ::
      multiset(order) == multiset(ms) && (|ms| >= 2 ==> ByMedian(order)) && (consistent <==> HubConsistent(e, order))
  }

  ghost predicate IsVerdict(
    e: Earth, refs: seq<ReferenceRegion>, ds: Option<Querier>, ms: seq<Measurement>, v: Verdict) {
    && (exists r: LocateResult ::
          && (if ms == [] then r == NO_RESULT else IsLocated(e, refs, ds, ms, r))
          && v.located == r.(spoofing := r.spoofing.(
                          vpnLikely := v.vpnDetected,
                          ratioInconsistent := r.spoofing.ratioInconsistent || !v.correlated)))
    && (v.vpnDetected <==> VpnPattern(ms))
    && Correlated(e, ms, v.correlated)
    && v.status == StatusOf(v.located.spoofing, v.located.confidence)
    && (v.suspicious <==> v.vpnDetected || v.located.spoofing.jitterAbnormal || !v.correlated)
  }

  lemma LocatedLeavesVpnUnset(
    e: Earth, refs: seq<ReferenceRegion>, ds: Option<Querier>, ms: seq<Measurement>, r: LocateResult)
    requires if ms == [] then r == NO_RESULT else IsLocated(e, refs, ds, ms, r)
    ensures !r.spoofing.vpnLikely
  {
  }

  method Evaluate(e: Earth, refs: seq<ReferenceRegion>, ds: Option<Querier>, ms: seq<Measurement>) returns (v: Verdict)
    ensures IsVerdict(e, refs, ds, ms, v)
  {
    hide IsLocated, VpnPattern, HubConsistent, ByMedian, RatiosOk, Pseudometric;
    var result := Locate(e, refs, ds, ms);
    ghost var located := result;
    var vpnDetected := DetectVPN(ms);
    var correlated, order := CorrelateProbes(e, ms);
    if vpnDetected {
      result := result.(spoofing := result.spoofing.(vpnLikely := true));
    }
    if !correlated {
      result := result.(spoofing := result.spoofing.(ratioInconsistent := true));
    }
    var status := Plausible;
    if result.spoofing.physicallyImpossible {
      status := Rejected;
    } else if result.spoofing.vpnLikely || result.spoofing.jitterAbnormal || result.spoofing.ratioInconsistent {
      status := Suspicious;
    } else if result.confidence >= 0.85 {
      status := Confirmed;
    }
    var suspicious := vpnDetected || result.spoofing.jitterAbnormal || !correlated;
    v := Verdict(status, result, vpnDetected, correlated, suspicious);
    assert !located.spoofing.vpnLikely by { LocatedLeavesVpnUnset(e, refs, ds, ms, located); }
    assert v.located == located.(spoofing := located.spoofing.(
                        vpnLikely := v.vpnDetected,
                        ratioInconsistent := located.spoofing.ratioInconsistent || !v.correlated));
  }

  // --- What the flags mean --------------------------------------------------------------------

  /** The flags and scores of a verdict on a non-empty list, in terms of the measurements alone. */
  ghost predicate Summary(e: Earth, ds: Option<Querier>, ms: seq<Measurement>, v: Verdict) {
    var r := v.located;
    && r.region == Intersect(e, Circles(ms))
    && r.spoofing.vpnLikely == v.vpnDetected == VpnPattern(ms)
    && r.spoofing.jitterAbnormal == AnyJitterBad(ms)
    && r.spoofing.ratioInconsistent == !RatiosOk(e, ms)
    && r.spoofing.physicallyImpossible == (|ms| > 1 && Intersect(e, Circles(ms)).radius == 0.0)
    && r.confidence == Score(r.region.radius, |ms|, AnyJitterBad(ms), RatiosOk(e, ms), MatchOf(ds, ms))
    && r.physicsOnly == Score(r.region.radius, |ms|, AnyJitterBad(ms), RatiosOk(e, ms), None)
    && (!v.correlated ==> !RatiosOk(e, ms))
    && v.status == StatusOf(r.spoofing, r.confidence)
    && v.suspicious == (VpnPattern(ms) || AnyJitterBad(ms) || !v.correlated)
  }

  lemma CorrelatedIfRatiosOk(e: Earth, ms: seq<Measurement>, consistent: bool)
    requires Pseudometric(e) && RatiosOk(e, ms) && Correlated(e, ms, consistent)
    ensures consistent
  {
    hide RatiosOk, HubConsistent;
    var order: seq<Measurement> :| multiset(order) == multiset(ms) && (|ms| >= 2 ==> ByMedian(order))
                                   && (consistent <==> HubConsistent(e, order));
    RatiosImplyHub(e, ms, order);
  }

  /** Folding the correlation answer into the ratio flag never changes it. */
  lemma VerdictSummary(
    e: Earth, refs: seq<ReferenceRegion>, ds: Option<Querier>, ms: seq<Measurement>, v: Verdict)
    requires Pseudometric(e) && ms != [] && IsVerdict(e, refs, ds, ms, v)
    ensures Summary(e, ds, ms, v)
  {
    hide Pseudometric, RatiosOk, VpnPattern, Score, Intersect, AnyJitterBad, HubConsistent;
    if RatiosOk(e, ms) {
      CorrelatedIfRatiosOk(e, ms, v.correlated);
    }
  }

  /** An inconsistent pair of probes always ends in rejection, with no region and no confidence. */
  lemma InconsistentIsRejected(
    e: Earth, refs: seq<ReferenceRegion>, ds: Option<Querier>, ms: seq<Measurement>, v: Verdict)
    requires Pseudometric(e) && IsVerdict(e, refs, ds, ms, v) && !RatiosOk(e, ms)
    ensures v.status == Rejected && v.located.region == NOWHERE
    ensures v.located.confidence == 0.0 && v.located.physicsOnly == 0.0
  {
    hide Pseudometric, RatiosOk, IsVerdict, Intersect, VpnPattern, AnyJitterBad;
    if |ms| < 2 { RatiosNeedTwo(e, ms); }
    VerdictSummary(e, refs, ds, ms, v);
    InconsistentMeansEmptyRegion(e, ms);
  }

  lemma EmptyIsCorrelated(e: Earth, consistent: bool)
    requires Correlated(e, [], consistent)
    ensures consistent
  {
    var order: seq<Measurement> :| multiset(order) == multiset([]) && (consistent <==> HubConsistent(e, order));
    assert |multiset(order)| == |order|;
  }

  /** An empty submission: nothing is flagged, and the answer is PLAUSIBLE with no confidence. */
  lemma EmptyIsPlausible(e: Earth, refs: seq<ReferenceRegion>, ds: Option<Querier>, v: Verdict)
    requires IsVerdict(e, refs, ds, [], v)
    ensures v.status == Plausible && v.located.confidence == 0.0 && !v.suspicious
  {
    EmptyIsCorrelated(e, v.correlated);
  }

  /** SUSPICIOUS arises only from the VPN or jitter checks, so the stored bit is set with it. */
  lemma SuspiciousIsRecorded(
    e: Earth, refs: seq<ReferenceRegion>, ds: Option<Querier>, ms: seq<Measurement>, v: Verdict)
    requires Pseudometric(e) && IsVerdict(e, refs, ds, ms, v) && v.status == Suspicious
    ensures VpnPattern(ms) || AnyJitterBad(ms)
    ensures v.suspicious
  {
    hide Pseudometric, RatiosOk, IsVerdict, Intersect, VpnPattern, AnyJitterBad, Score;
    if ms == [] {
      EmptyIsPlausible(e, refs, ds, v);
    } else {
      VerdictSummary(e, refs, ds, ms, v);
      if !RatiosOk(e, ms) {
        InconsistentIsRejected(e, refs, ds, ms, v);
      }
    }
  }

  lemma VerdictIsCorrelated(
    e: Earth, refs: seq<ReferenceRegion>, ds: Option<Querier>, ms: seq<Measurement>, v: Verdict)
    requires IsVerdict(e, refs, ds, ms, v)
    ensures Correlated(e, ms, v.correlated)
  {
  }

  /** The ratio anomaly is only ever logged beside a rejection. */
  lemma RatioAnomalyMeansRejected(
    e: Earth, refs: seq<ReferenceRegion>, ds: Option<Querier>, ms: seq<Measurement>, v: Verdict)
    requires Pseudometric(e) && IsVerdict(e, refs, ds, ms, v) && !v.correlated
    ensures v.status == Rejected
  {
    hide Pseudometric, RatiosOk, IsVerdict, Intersect, VpnPattern, AnyJitterBad, Score;
    if ms == [] {
      EmptyIsPlausible(e, refs, ds, v);
      VerdictIsCorrelated(e, refs, ds, ms, v);
      EmptyIsCorrelated(e, v.correlated);
    } else {
      VerdictSummary(e, refs, ds, ms, v);
      InconsistentIsRejected(e, refs, ds, ms, v);
    }
  }

  /**
   Exactly when a submission is rejected: two or more probes, and every sampled location in all the
   circles lies on the centre they average to. That holds when there is none, but also when there is one.
   */
  lemma RejectedIff(
    e: Earth, refs: seq<ReferenceRegion>, ds: Option<Querier>, ms: seq<Measurement>, v: Verdict)
    requires Pseudometric(e) && IsVerdict(e, refs, ds, ms, v)
    ensures v.status == Rejected <==>
            |ms| > 1 && var kept := Kept(e, Circles(ms)); forall p :: p in kept ==> e.dist(Centroid(kept), p) == 0.0
  {
    hide Pseudometric, RatiosOk, IsVerdict, Intersect, VpnPattern, AnyJitterBad, Score, Kept;
    if ms == [] {
      EmptyIsPlausible(e, refs, ds, v);
    } else {
      VerdictSummary(e, refs, ds, ms, v);
      if |ms| > 1 {
        ZeroRadius(e, Circles(ms));
      }
    }
  }

  /** What rejects a submission, whatever the dataset and the reference regions: a region of radius 0. */
  ghost predicate Rejects(e: Earth, ms: seq<Measurement>) {
    |ms| > 1 && Intersect(e, Circles(ms)).radius == 0.0
  }

  lemma RejectedMeans(
    e: Earth, refs: seq<ReferenceRegion>, ds: Option<Querier>, ms: seq<Measurement>, v: Verdict)
    requires Pseudometric(e) && IsVerdict(e, refs, ds, ms, v)
    ensures v.status == Rejected <==> Rejects(e, ms)
  {
    hide Pseudometric, IsVerdict, Intersect, Kept, Centroid;
    RejectedIff(e, refs, ds, ms, v);
    if |ms| > 1 {
      ZeroRadius(e, Circles(ms));
    }
  }

  lemma NothingIsFlagged()
    ensures !VpnPattern([]) && !AnyJitterBad([])
  {
  }

  /** Exactly when a submission is suspicious: not rejected, and the VPN pattern or abnormal jitter was seen. */
  lemma SuspiciousIff(
    e: Earth, refs: seq<ReferenceRegion>, ds: Option<Querier>, ms: seq<Measurement>, v: Verdict)
    requires Pseudometric(e) && IsVerdict(e, refs, ds, ms, v)
    ensures v.status == Suspicious <==> !Rejects(e, ms) && (VpnPattern(ms) || AnyJitterBad(ms))
  {
    hide Pseudometric, RatiosOk, IsVerdict, Intersect, VpnPattern, AnyJitterBad, Score;
    if ms == [] {
      EmptyIsPlausible(e, refs, ds, v);
      NothingIsFlagged();
    } else {
      VerdictSummary(e, refs, ds, ms, v);
      if !RatiosOk(e, ms) {
        InconsistentIsRejected(e, refs, ds, ms, v);
      }
    }
  }

  lemma RegionRadiusNonNegative(e: Earth, ms: seq<Measurement>)
    requires Pseudometric(e) && ms != []
    ensures Intersect(e, Circles(ms)).radius >= 0.0
  {
    hide Pseudometric, Reach, Kept;
    if |ms| == 1 {
      ReachNonNegative(ms[0]);
    } else {
      ZeroRadius(e, Circles(ms));
    }
  }

  /** CONFIRMED carries its evidence, and exactly this evidence, whatever the number of measurements. */
  lemma ConfirmedIff(
    e: Earth, refs: seq<ReferenceRegion>, ds: Option<Querier>, ms: seq<Measurement>, v: Verdict)
    requires Pseudometric(e) && IsVerdict(e, refs, ds, ms, v)
    ensures v.status == Confirmed <==>
            && v.located.region.radius > 0.0
            && RatiosOk(e, ms) && !AnyJitterBad(ms) && !VpnPattern(ms)
            && ProbePoints(|ms|) + RadiusPoints(v.located.region.radius) + MatchPoints(MatchOf(ds, ms)) >= 5
  {
    if ms == [] {
      EmptyIsPlausible(e, refs, ds, v);
      assert v.located.region == NOWHERE;
    } else {
      hide Pseudometric, RatiosOk, IsVerdict, VpnPattern, AnyJitterBad, Kept;
      VerdictSummary(e, refs, ds, ms, v);
      RegionRadiusNonNegative(e, ms);
    }
  }

  /** A region of positive radius rests on a sampled location in every circle. */
  lemma KeptSomewhere(e: Earth, ms: seq<Measurement>)
    requires Pseudometric(e) && ms != [] && Intersect(e, Circles(ms)).radius > 0.0
    ensures exists p :: p in Kept(e, Circles(ms)) && InAll(e, Circles(ms), p)
  {
    hide Kept, Reach, RatiosOk;
    var cs := Circles(ms);
    if |ms| == 1 {
      ReachNonNegative(ms[0]);
      CentreKept(e, cs);
      KeptIff(e, cs, Smallest(cs).centre);
    } else {
      ZeroRadius(e, cs);
      var p :| p in Kept(e, cs);
      KeptIff(e, cs, p);
    }
  }

  /** Whether a dataset match was found, with an error below the limit. */
  predicate MatchedBelow(ds: Option<Querier>, ms: seq<Measurement>, limit: real) {
    ds.Some? && ds.value.bestMatch(ms).city != "" && ds.value.bestMatch(ms).error < limit
  }

  /** What it takes to be confirmed, in numbers of probes, kilometres and match error. */
  lemma ConfirmedInNumbers(
    e: Earth, refs: seq<ReferenceRegion>, ds: Option<Querier>, ms: seq<Measurement>, v: Verdict)
    requires Pseudometric(e) && IsVerdict(e, refs, ds, ms, v)
    ensures var km := v.located.region.radius;
            v.status == Confirmed <==>
            && km > 0.0 && RatiosOk(e, ms) && !AnyJitterBad(ms) && !VpnPattern(ms)
            && if |ms| >= 6 then km < 2000.0 || MatchedBelow(ds, ms, 0.6)
               else if |ms| >= 3 then
                 km < 500.0 || MatchedBelow(ds, ms, 0.3) || (km < 2000.0 && MatchedBelow(ds, ms, 0.6))
               else (km < 500.0 && MatchedBelow(ds, ms, 0.6)) || (km < 2000.0 && MatchedBelow(ds, ms, 0.3))
  {
    hide Pseudometric, RatiosOk, IsVerdict, VpnPattern, AnyJitterBad;
    ConfirmedIff(e, refs, ds, ms, v);
  }

  lemma ConfirmedEvidence(
    e: Earth, refs: seq<ReferenceRegion>, ds: Option<Querier>, ms: seq<Measurement>, v: Verdict)
    requires Pseudometric(e) && IsVerdict(e, refs, ds, ms, v) && v.status == Confirmed
    ensures ms != [] && exists p :: p in Kept(e, Circles(ms)) && InAll(e, Circles(ms), p)
    ensures forall i, j :: 0 <= i < j < |ms| ==> PairMeets(e, ms[i], ms[j])
    ensures forall m :: m in ms ==> RangeNormal(m.rtts)
    ensures !VpnPattern(ms)
    ensures |ms| >= 3 || v.located.region.radius < 2000.0
  {
    hide Pseudometric, IsVerdict, Intersect, VpnPattern, Kept, PairMeets, InAll, RangeNormal;
    ConfirmedIff(e, refs, ds, ms, v);
    if ms == [] {
      EmptyIsPlausible(e, refs, ds, v);
    } else {
      VerdictSummary(e, refs, ds, ms, v);
      KeptSomewhere(e, ms);
    }
  }

  lemma ConfidenceBounds(
    e: Earth, refs: seq<ReferenceRegion>, ds: Option<Querier>, ms: seq<Measurement>, v: Verdict)
    requires IsVerdict(e, refs, ds, ms, v)
    ensures 0.0 <= v.located.physicsOnly <= v.located.confidence <= 1.0
    ensures v.located.confidence <= v.located.physicsOnly + 0.15
  {
    hide Score, VpnPattern, Correlated, Intersect;
    DatasetOnlyAdds(v.located.region.radius, |ms|, AnyJitterBad(ms), RatiosOk(e, ms), MatchOf(ds, ms));
  }

  /** A probe that answered in no time: its circle is the probe itself. */
  const INSTANT := Measurement("p", Point(0.0, 0.0), [0, 0])
  const POINT_CIRCLE := Circle(Point(0.0, 0.0), 0.0)

  lemma InstantCircles()
    ensures Circles([INSTANT, INSTANT]) == [POINT_CIRCLE, POINT_CIRCLE]
  {
    MedianRank(INSTANT.rtts);
    assert Reach(INSTANT) == 0.0;
  }

  lemma PointCircleHoldsItsCentre(p: Point)
    ensures Contains(FLAT_EARTH, POINT_CIRCLE, p) <==> p == POINT_CIRCLE.centre
  {
  }

  lemma KeptAtOnePlace(cs: seq<Circle>, c: Point)
    requires cs != [] && forall p :: p in Kept(FLAT_EARTH, cs) ==> p == c
    ensures var kept := Kept(FLAT_EARTH, cs); forall p :: p in kept ==> FLAT_EARTH.dist(Centroid(kept), p) == 0.0
  {
    hide Kept;
    var kept := Kept(FLAT_EARTH, cs);
    if kept != [] {
      Statistics.MeanWithin(kept, Lat(), c.lat, c.lat);
      Statistics.MeanWithin(kept, Lon(), c.lon, c.lon);
    }
  }

  /**
   A rejection does not mean there is no common location: two circles shrunk to one shared sampled
   point are rejected.
   */
  lemma RejectedWithCommonPoint(refs: seq<ReferenceRegion>, v: Verdict)
    requires IsVerdict(FLAT_EARTH, refs, None, [INSTANT, INSTANT], v)
    ensures v.status == Rejected && INSTANT.probe in Kept(FLAT_EARTH, Circles([INSTANT, INSTANT]))
  {
    hide IsVerdict, Kept, Contains, Centroid;
    var cs := [POINT_CIRCLE, POINT_CIRCLE];
    InstantCircles();
    FlatEarthIsPseudometric();
    RejectedIff(FLAT_EARTH, refs, None, [INSTANT, INSTANT], v);
    forall p | p in Kept(FLAT_EARTH, cs)
      ensures p == INSTANT.probe
    {
      KeptIff(FLAT_EARTH, cs, p);
      assert Contains(FLAT_EARTH, cs[0], p);
      PointCircleHoldsItsCentre(p);
    }
    PointCircleHoldsItsCentre(INSTANT.probe);
    KeptAtOnePlace(cs, INSTANT.probe);
    CentreKept(FLAT_EARTH, cs);
  }
}
