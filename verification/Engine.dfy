/** Wiring of the checks into one geolocation result, and its confidence score (internal/geo/engine.go). */
module Engine {
  import opened Exclusions
  import opened Geometry
  import opened Jitter
  import opened Medians
  import opened Sorting
  import opened Wrappers

  datatype DatasetMatch = DatasetMatch(city: string, at: Point, error: real)

  /** The two questions the engine asks an optional latency dataset. */
  datatype Querier = Querier(
    bestMatch: seq<Measurement> -> DatasetMatch,
    expected: (Point, string) -> Option<real>)

  datatype Spoofing = Spoofing(
    vpnLikely: bool, jitterAbnormal: bool, ratioInconsistent: bool, physicallyImpossible: bool)

  datatype ProbeResult = ProbeResult(
    probeId: string, rttMs: real, jitterMs: real, maxDistanceKm: real, expectedMs: real)

  datatype LocateResult = LocateResult(
    region: Circle, confidence: real, physicsOnly: real, exclusions: seq<Exclusion>, spoofing: Spoofing,
    probeResults: seq<ProbeResult>, datasetMatch: Option<DatasetMatch>, nearestProbe: string)

  const NOWHERE := Circle(Point(0.0, 0.0), 0.0)
  const NO_RESULT := LocateResult(NOWHERE, 0.0, 0.0, [], Spoofing(false, false, false, false), [], None, "")

  // --- Score ----------------------------------------------------------------------------------

  function ProbePoints(probeCount: nat): int {
    if probeCount >= 6 then 4 else if probeCount >= 3 then 2 else 0
  }

  function RadiusPoints(radius: real): int {
    if radius < 500.0 then 4 else if radius < 2000.0 then 2 else 0
  }

  function MatchPoints(m: Option<DatasetMatch>): int {
    if m.Some? && m.value.error < 0.3 then 3 else if m.Some? && m.value.error < 0.6 then 1 else 0
  }

  /** The score in twentieths, before it is clamped to [0, 1]. */
  function Twentieths(radius: real, probeCount: nat, jitterBad: bool, ratioOk: bool, m: Option<DatasetMatch>): int {
    10 + ProbePoints(probeCount) + RadiusPoints(radius)
    + (if jitterBad then -4 else 1) + (if ratioOk then 1 else -4) + MatchPoints(m)
  }

  ghost function Score(radius: real, probeCount: nat, jitterBad: bool, ratioOk: bool, m: Option<DatasetMatch>): real {
    if radius == 0.0 then 0.0 else
    var t := Twentieths(radius, probeCount, jitterBad, ratioOk, m);
    if t >= 20 then 1.0 else t as real / 20.0
  }

  method ComputeScore(region: Circle, probeCount: nat, jitterBad: bool, ratioOk: bool, m: Option<DatasetMatch>)
    returns (s: real)
    ensures s == Score(region.radius, probeCount, jitterBad, ratioOk, m)
  {
    if region.radius == 0.0 {
      return 0.0;
    }
    var score := 0.5;
    if probeCount >= 6 {
      score := score + 0.2;
    } else if probeCount >= 3 {
      score := score + 0.1;
    }
    if region.radius < 500.0 {
      score := score + 0.2;
    } else if region.radius < 2000.0 {
      score := score + 0.1;
    }
    if !jitterBad {
      score := score + 0.05;
    } else {
      score := score - 0.2;
    }
    if ratioOk {
      score := score + 0.05;
    } else {
      score := score - 0.2;
    }
    if m.Some? && m.value.error < 0.3 {
      score := score + 0.15;
    } else if m.Some? && m.value.error < 0.6 {
      score := score + 0.05;
    }
    if score < 0.0 {
      score := 0.0;
    }
    return if score > 1.0 then 1.0 else score;
  }

  /** The dataset can only add confidence, at most 0.15 of it. */
  lemma DatasetOnlyAdds(radius: real, probeCount: nat, jitterBad: bool, ratioOk: bool, m: Option<DatasetMatch>)
    ensures var physics := Score(radius, probeCount, jitterBad, ratioOk, None);
            var full := Score(radius, probeCount, jitterBad, ratioOk, m);
            0.0 <= physics <= full <= 1.0 && full <= physics + 0.15
  {
  }

  /** The second match, where there is a first, is there too and no worse. */
  predicate NoWorse(m: Option<DatasetMatch>, n: Option<DatasetMatch>) {
    m.Some? ==> n.Some? && n.value.error <= m.value.error
  }

  /** More probes, a tighter region, a closer match and a check that passes never lower the score. */
  lemma ScoreIsMonotone(
    radius: real, tighter: real, probeCount: nat, more: nat, jitterBad: bool, jitterBad': bool,
    ratioOk: bool, ratioOk': bool, m: Option<DatasetMatch>, n: Option<DatasetMatch>)
    requires 0.0 < tighter <= radius && probeCount <= more && NoWorse(m, n)
    requires (jitterBad' ==> jitterBad) && (ratioOk ==> ratioOk')
    ensures Score(radius, probeCount, jitterBad, ratioOk, m) <= Score(tighter, more, jitterBad', ratioOk', n)
  {
  }

  function AtMostOne(x: real): real {
    if x > 1.0 then 1.0 else x
  }

  /** What each piece of evidence is worth, in a score that starts at 0.1 when nothing speaks for the answer. */
  lemma ScoreInParts(radius: real, probeCount: nat, jitterBad: bool, ratioOk: bool, m: Option<DatasetMatch>)
    requires radius > 0.0
    ensures Score(2000.0, 0, true, false, None) == 0.1
    ensures Score(radius, probeCount, false, ratioOk, m)
         == AtMostOne(Score(radius, probeCount, true, ratioOk, m) + 0.25)
    ensures Score(radius, probeCount, jitterBad, true, m)
         == AtMostOne(Score(radius, probeCount, jitterBad, false, m) + 0.25)
    ensures Score(radius, probeCount, jitterBad, ratioOk, m)
         == AtMostOne(Score(radius, 0, jitterBad, ratioOk, m)
                      + if probeCount < 3 then 0.0 else if probeCount < 6 then 0.1 else 0.2)
    ensures Score(radius, probeCount, jitterBad, ratioOk, m)
         == AtMostOne(Score(2000.0, probeCount, jitterBad, ratioOk, m)
                      + if radius >= 2000.0 then 0.0 else if radius >= 500.0 then 0.1 else 0.2)
    ensures Score(radius, probeCount, jitterBad, ratioOk, m)
         == AtMostOne(Score(radius, probeCount, jitterBad, ratioOk, None)
                      + if m.None? || m.value.error >= 0.6 then 0.0 else if m.value.error >= 0.3 then 0.05 else 0.15)
    ensures Score(0.0, probeCount, jitterBad, ratioOk, m) == 0.0
  {
  }

  // --- Locate ---------------------------------------------------------------------------------

  ghost predicate AnyJitterBad(ms: seq<Measurement>) {
    exists m :: m in ms && !RangeNormal(m.rtts)
  }

  function MatchOf(ds: Option<Querier>, ms: seq<Measurement>): Option<DatasetMatch> {
    if ds.Some? && ds.value.bestMatch(ms).city != "" then Some(ds.value.bestMatch(ms)) else None
  }

  function ExpectedMs(ds: Option<Querier>, found: Option<DatasetMatch>, m: Measurement): real {
    if ds.Some? && found.Some? then
      match ds.value.expected(m.probe, found.value.city) case Some(v) => v case None => 0.0
    else 0.0
  }

  function JitterUsOf(rtts: seq<int>): int {
    if |rtts| < 2 then 0 else Spread(rtts)
  }

  function ProbeResultOf(m: Measurement, expectedMs: real): ProbeResult {
    ProbeResult(m.probeId, Median(m.rtts) as real / 1000.0, JitterUsOf(m.rtts) as real / 1000.0, Reach(m), expectedMs)
  }

  /** Measurement `k` is the first of those with the lowest median. */
  ghost predicate FirstFastest(ms: seq<Measurement>, k: nat) {
    && k < |ms|
    && (forall j :: 0 <= j < k ==> Median(ms[k].rtts) < Median(ms[j].rtts))
    && (forall j :: k <= j < |ms| ==> Median(ms[k].rtts) <= Median(ms[j].rtts))
  }

  /** Everything `Locate` promises about a non-empty list of measurements. */
  ghost predicate IsLocated(
    e: Earth, refs: seq<ReferenceRegion>, ds: Option<Querier>, ms: seq<Measurement>, r: LocateResult) {
    && r.region == Intersect(e, Circles(ms))
    && r.spoofing == Spoofing(false, AnyJitterBad(ms), !RatiosOk(e, ms), r.region.radius == 0.0 && |ms| > 1)
    && r.datasetMatch == MatchOf(ds, ms)
    && r.physicsOnly == Score(r.region.radius, |ms|, AnyJitterBad(ms), RatiosOk(e, ms), None)
    && r.confidence == Score(r.region.radius, |ms|, AnyJitterBad(ms), RatiosOk(e, ms), MatchOf(ds, ms))
    && multiset(r.exclusions) == multiset(ExclusionsOf(e, Circles(ms), refs)) && Descending(r.exclusions)
    && |r.probeResults| == |ms|
    && (forall i :: 0 <= i < |ms| ==>
                      r.probeResults[i] == ProbeResultOf(ms[i], ExpectedMs(ds, MatchOf(ds, ms), ms[i])))
    && (exists k: nat :: FirstFastest(ms, k) && r.nearestProbe == ms[k].probeId)
  }

  method MeasureProbes(ms: seq<Measurement>)
    returns (circles: seq<Circle>, results: seq<ProbeResult>, anyJitterBad: bool)
    ensures circles == Circles(ms)
    ensures |results| == |ms| && forall i :: 0 <= i < |ms| ==> results[i] == ProbeResultOf(ms[i], 0.0)
    ensures anyJitterBad <==> AnyJitterBad(ms)
  {
    hide Median, MaxDistanceFromRTT, RangeNormal, Spread;
    circles, results, anyJitterBad := [], [], false;
    for i := 0 to |ms|
      invariant |circles| == i && forall k :: 0 <= k < i ==> circles[k] == CircleOf(ms[k])
      invariant |results| == i && forall k :: 0 <= k < i ==> results[k] == ProbeResultOf(ms[k], 0.0)
      invariant anyJitterBad <==> exists k :: 0 <= k < i && !RangeNormal(ms[k].rtts)
    {
      var medRtt := Median(ms[i].rtts);
      var maxDist := MaxDistanceFromRTT(medRtt);
      circles := circles + [Circle(ms[i].probe, maxDist)];
      var j := CheckJitter(ms[i].rtts);
      if !j.normal {
        anyJitterBad := true;
      }
      var rttMs, jitterMs := medRtt as real / 1000.0, j.jitterUs as real / 1000.0;
      results := results + [ProbeResult(ms[i].probeId, rttMs, jitterMs, maxDist, 0.0)];
    }
  }

  /** A probe's line of the result, in milliseconds and kilometres. */
  lemma ProbeLine(m: Measurement, expectedMs: real)
    ensures var line := ProbeResultOf(m, expectedMs);
            && line.probeId == m.probeId && line.expectedMs == expectedMs
            && line.rttMs * 1000.0 == Median(m.rtts) as real
            && line.maxDistanceKm == MaxDistanceFromRTT(Median(m.rtts))
            && (|m.rtts| < 2 ==> line.jitterMs == 0.0)
            && (|m.rtts| >= 2 ==>
                  && (exists x, y :: x in m.rtts && y in m.rtts && line.jitterMs * 1000.0 == (x - y) as real)
                  && forall x, y :: x in m.rtts && y in m.rtts ==> (x - y) as real <= line.jitterMs * 1000.0)
  {
    hide Median, MaxDistanceFromRTT;
    if |m.rtts| >= 2 {
      var low, high := MinOf(m.rtts), MaxOf(m.rtts);
      assert Spread(m.rtts) == high - low;
      assert high in m.rtts && low in m.rtts && ProbeResultOf(m, expectedMs).jitterMs * 1000.0 == (high - low) as real;
    }
  }

  /** Expected times come from a dataset that knows a city for the measurements, and only where it has one. */
  lemma ExpectedIff(ds: Option<Querier>, ms: seq<Measurement>, m: Measurement, found: DatasetMatch, expected: real)
    ensures MatchOf(ds, ms) == Some(found) <==> ds.Some? && ds.value.bestMatch(ms) == found && found.city != ""
    ensures MatchOf(ds, ms) == Some(found) && ds.value.expected(m.probe, found.city) == Some(expected) ==>
              ExpectedMs(ds, MatchOf(ds, ms), m) == expected
    ensures MatchOf(ds, ms).None? || ds.value.expected(m.probe, MatchOf(ds, ms).value.city).None? ==>
              ExpectedMs(ds, MatchOf(ds, ms), m) == 0.0
  {
  }

  /** The nearest probe is the first of those whose median is least. */
  lemma NearestHasLeastMedian(
    e: Earth, refs: seq<ReferenceRegion>, ds: Option<Querier>, ms: seq<Measurement>, r: LocateResult)
    requires IsLocated(e, refs, ds, ms, r)
    ensures exists k: nat ::
              && k < |ms| && r.nearestProbe == ms[k].probeId
              && (forall j :: 0 <= j < |ms| ==> Median(ms[k].rtts) <= Median(ms[j].rtts))
              && (forall j :: 0 <= j < k ==> Median(ms[k].rtts) < Median(ms[j].rtts))
  {
    hide Median;
  }

  /** The exclusions are those of the regions that half the circles rule out, with the surest first. */
  lemma LocatedExclusions(
    e: Earth, refs: seq<ReferenceRegion>, ds: Option<Querier>, ms: seq<Measurement>, r: LocateResult, x: Exclusion)
    requires IsLocated(e, refs, ds, ms, r)
    ensures x in r.exclusions <==> exists ref :: ref in refs && RuledOut(e, Circles(ms), ref, x)
    ensures forall i, j :: 0 <= i < j < |r.exclusions| ==> r.exclusions[i].confidence >= r.exclusions[j].confidence
  {
    hide ExclusionsOf, RuledOut, Circles, Intersect, Score, RatiosOk;
    SameElements(r.exclusions, ExclusionsOf(e, Circles(ms), refs));
    ExclusionsExactly(e, Circles(ms), refs, x);
  }

  method FillExpected(ds: Option<Querier>, found: Option<DatasetMatch>, ms: seq<Measurement>, bare: seq<ProbeResult>)
    returns (filled: seq<ProbeResult>)
    requires |bare| == |ms| && forall i :: 0 <= i < |ms| ==> bare[i] == ProbeResultOf(ms[i], 0.0)
    ensures |filled| == |ms|
    ensures forall i :: 0 <= i < |ms| ==> filled[i] == ProbeResultOf(ms[i], ExpectedMs(ds, found, ms[i]))
  {
    hide Median, Reach, JitterUsOf;
    filled := bare;
    if ds.Some? && found.Some? {
      for i := 0 to |filled|
        invariant |filled| == |ms|
        invariant forall k :: 0 <= k < i ==> filled[k] == ProbeResultOf(ms[k], ExpectedMs(ds, found, ms[k]))
        invariant forall k :: i <= k < |ms| ==> filled[k] == bare[k]
      {
        var expected := ds.value.expected(ms[i].probe, found.value.city);
        if expected.Some? {
          filled := filled[i := filled[i].(expectedMs := expected.value)];
        }
      }
    }
  }

  method NearestProbe(ghost ms: seq<Measurement>, results: seq<ProbeResult>) returns (nearest: nat)
    requires results != [] && |results| == |ms|
    requires forall i :: 0 <= i < |ms| ==> results[i].rttMs == Median(ms[i].rtts) as real / 1000.0
    ensures FirstFastest(ms, nearest)
  {
    hide Median;
    nearest := 0;
    for i := 0 to |results|
      invariant nearest < |ms|
      invariant forall j :: 0 <= j < nearest ==> Median(ms[nearest].rtts) < Median(ms[j].rtts)
      invariant forall j :: nearest <= j < i ==> Median(ms[nearest].rtts) <= Median(ms[j].rtts)
    {
      if results[i].rttMs < results[nearest].rttMs {
        nearest := i;
      }
    }
  }

  method Locate(e: Earth, refs: seq<ReferenceRegion>, ds: Option<Querier>, ms: seq<Measurement>)
    returns (r: LocateResult)
    ensures if ms == [] then r == NO_RESULT else IsLocated(e, refs, ds, ms, r)
  {
    hide Intersect, RatiosOk, Score, RangeNormal, ExclusionsOf, Descending;
    if |ms| == 0 {
      return NO_RESULT;
    }
    var circles, bare, anyJitterBad := MeasureProbes(ms);
    var region := IntersectCircles(e, circles);
    var ratioOk := CheckRatios(e, ms);
    var exclusions := ComputeExclusions(e, refs, circles);
    var dsMatch := MatchOf(ds, ms);
    var probeResults := FillExpected(ds, dsMatch, ms, bare);
    var nearest := NearestProbe(ms, probeResults);
    var physicsOnly := ComputeScore(region, |ms|, anyJitterBad, ratioOk, None);
    var confidence := ComputeScore(region, |ms|, anyJitterBad, ratioOk, dsMatch);
    var spoofing := Spoofing(false, anyJitterBad, !ratioOk, region.radius == 0.0 && |ms| > 1);
    r := LocateResult(
      region, confidence, physicsOnly, exclusions, spoofing, probeResults, dsMatch, ms[nearest].probeId);
  }
}
