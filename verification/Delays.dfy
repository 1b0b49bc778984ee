/**
 What added delay does to the circles. The project's claim is that delay only makes circles
 bigger; the overhead threshold in the distance formula makes that hold for delays of at least
 10 ms, and fail for some smaller ones.
 */
module Delays {
  import opened Exclusions
  import opened Geometry
  import opened Medians
  import opened Statistics
  import opened Wrappers

  /** Exactly when adding `d` to a round trip of `rtt` does not shrink its distance bound. */
  lemma DelayNeverShrinksIff(rtt: int, d: nat)
    ensures MaxDistanceFromRTT(rtt + d) >= MaxDistanceFromRTT(rtt) <==>
            rtt <= 0 || rtt > TCP_OVERHEAD_US || rtt + d <= TCP_OVERHEAD_US || d >= TCP_OVERHEAD_US
  {
  }

  /** A delay is harmless for every round trip exactly when it is absent or at least the overhead. */
  lemma SafeDelayIff(d: nat)
    ensures (forall rtt :: MaxDistanceFromRTT(rtt + d) >= MaxDistanceFromRTT(rtt)) <==> d == 0 || d >= TCP_OVERHEAD_US
  {
    forall rtt: int
      ensures MaxDistanceFromRTT(rtt + d) >= MaxDistanceFromRTT(rtt) <==>
              rtt <= 0 || rtt > TCP_OVERHEAD_US || rtt + d <= TCP_OVERHEAD_US || d >= TCP_OVERHEAD_US
    {
      DelayNeverShrinksIff(rtt, d);
    }
    if 0 < d < TCP_OVERHEAD_US {
      assert MaxDistanceFromRTT(TCP_OVERHEAD_US + d) < MaxDistanceFromRTT(TCP_OVERHEAD_US);
    }
  }

  function Shifted(rtts: seq<int>, d: nat): (r: seq<int>)
    ensures |r| == |rtts|
  {
    seq(|rtts|, i requires 0 <= i < |rtts| => rtts[i] + d)
  }

  /** The same for whole measurements: one delay added to every sample is harmless under exactly that condition. */
  lemma SafeShiftIff(d: nat)
    ensures (forall rtts: seq<int> :: MaxDistanceFromRTT(Median(Shifted(rtts, d))) >= MaxDistanceFromRTT(Median(rtts)))
       <==> d == 0 || d >= TCP_OVERHEAD_US
  {
    hide Median;
    if d == 0 || d >= TCP_OVERHEAD_US {
      forall rtts: seq<int>
        ensures MaxDistanceFromRTT(Median(Shifted(rtts, d))) >= MaxDistanceFromRTT(Median(rtts))
      {
        if d == 0 || rtts == [] {
          assert Shifted(rtts, d) == rtts;
        } else {
          MedianRaised(rtts, Shifted(rtts, d), d);
        }
      }
    } else {
      var at := [TCP_OVERHEAD_US];
      MedianRank(at);
      MedianRank(Shifted(at, d));
      assert MaxDistanceFromRTT(Median(Shifted(at, d))) < MaxDistanceFromRTT(Median(at));
    }
  }

  function ShiftedAll(ms: seq<Measurement>, d: nat): (r: seq<Measurement>)
    ensures |r| == |ms|
  {
    seq(|ms|, i requires 0 <= i < |ms| => ms[i].(rtts := Shifted(ms[i].rtts, d)))
  }

  /** One delay on every sample of every measurement never breaks a passing pair check. */
  ghost predicate NeverBreaks(e: Earth, d: nat) {
    forall ms :: RatiosOk(e, ms) ==> RatiosOk(e, ShiftedAll(ms, d))
  }

  lemma ShiftKeepsPairs(e: Earth, d: nat)
    requires d == 0 || d >= TCP_OVERHEAD_US
    ensures NeverBreaks(e, d)
  {
    hide Median, MaxDistanceFromRTT, Shifted;
    SafeShiftIff(d);
    forall ms | RatiosOk(e, ms)
      ensures RatiosOk(e, ShiftedAll(ms, d))
    {
      var after := ShiftedAll(ms, d);
      forall i, j | 0 <= i < j < |after|
        ensures PairMeets(e, after[i], after[j])
      {
        assert PairMeets(e, ms[i], ms[j]);
      }
    }
  }

  /** Two probes 2000 km apart, both at the threshold. */
  lemma ShiftBreaksPair(d: nat)
    requires 0 < d < TCP_OVERHEAD_US
    ensures !NeverBreaks(FLAT_EARTH, d)
  {
    var at := [TCP_OVERHEAD_US];
    var ms := [Measurement("a", Point(0.0, 0.0), at), Measurement("b", Point(2000.0 / 111.0, 0.0), at)];
    var after := ShiftedAll(ms, d);
    MedianRank(at);
    MedianRank(Shifted(at, d));
    assert Reach(ms[0]) == Reach(ms[1]) == 1000.0;
    assert Reach(after[0]) < 1000.0 && Reach(after[1]) < 1000.0;
    hide Reach;
    assert RatiosOk(FLAT_EARTH, ms);
    assert !PairMeets(FLAT_EARTH, after[0], after[1]);
  }

  /** That holds for no delay and for delays of at least the overhead, whatever the distance, and for no others. */
  lemma SafeForPairsIff(e: Earth, d: nat)
    ensures d == 0 || d >= TCP_OVERHEAD_US ==> NeverBreaks(e, d)
    ensures NeverBreaks(FLAT_EARTH, d) <==> d == 0 || d >= TCP_OVERHEAD_US
  {
    if d == 0 || d >= TCP_OVERHEAD_US {
      ShiftKeepsPairs(e, d);
      ShiftKeepsPairs(FLAT_EARTH, d);
    } else {
      ShiftBreaksPair(d);
    }
  }

  /** One measurement after tampering: untouched, or every sample raised by at least the overhead. */
  ghost predicate Delayed(before: Measurement, after: Measurement) {
    && after.probe == before.probe
    && |after.rtts| == |before.rtts|
    && (after.rtts == before.rtts
        || forall i :: 0 <= i < |before.rtts| ==> after.rtts[i] >= before.rtts[i] + TCP_OVERHEAD_US)
  }

  ghost predicate AllDelayed(before: seq<Measurement>, after: seq<Measurement>) {
    |after| == |before| && forall i :: 0 <= i < |before| ==> Delayed(before[i], after[i])
  }

  lemma DelayedReach(before: Measurement, after: Measurement)
    requires Delayed(before, after)
    ensures Reach(after) >= Reach(before)
  {
    if after.rtts != before.rtts {
      MedianRaised(before.rtts, after.rtts, TCP_OVERHEAD_US);
    }
  }

  ghost predicate Wider(cs: seq<Circle>, ds: seq<Circle>) {
    |ds| == |cs| && forall i :: 0 <= i < |cs| ==> ds[i].centre == cs[i].centre && ds[i].radius >= cs[i].radius
  }

  /** Delaying measurements by at least the overhead shrinks no circle and breaks no consistent pair. */
  lemma DelayOnlyWidens(e: Earth, before: seq<Measurement>, after: seq<Measurement>)
    requires AllDelayed(before, after)
    ensures Wider(Circles(before), Circles(after))
    ensures RatiosOk(e, before) ==> RatiosOk(e, after)
  {
    hide Reach;
    forall i | 0 <= i < |before|
      ensures Reach(after[i]) >= Reach(before[i])
    {
      DelayedReach(before[i], after[i]);
    }
    if RatiosOk(e, before) {
      forall i, j | 0 <= i < j < |after|
        ensures PairMeets(e, after[i], after[j])
      {
        assert PairMeets(e, before[i], before[j]);
        assert Delayed(before[i], after[i]) && Delayed(before[j], after[j]);
      }
    }
  }

  /** Wider circles still hold every location the old ones held, sampled or not. */
  lemma WiderKeepsLocations(e: Earth, cs: seq<Circle>, ds: seq<Circle>, p: Point)
    requires Wider(cs, ds) && InAll(e, cs, p)
    ensures InAll(e, ds, p)
  {
    forall d | d in ds
      ensures Contains(e, d, p)
    {
      var i :| 0 <= i < |ds| && ds[i] == d;
      assert Contains(e, cs[i], p);
    }
  }

  lemma {:induction false} WiderExcludesLess(e: Earth, cs: seq<Circle>, ds: seq<Circle>, p: Point)
    requires Wider(cs, ds)
    ensures OutsideCount(e, ds, p) <= OutsideCount(e, cs, p)
  {
    if cs != [] {
      WiderExcludesLess(e, cs[..|cs| - 1], ds[..|ds| - 1], p);
    }
  }

  lemma WiderExclusionOf(e: Earth, cs: seq<Circle>, ds: seq<Circle>, ref: ReferenceRegion)
    requires Wider(cs, ds) && ExclusionOf(e, ds, ref).Some?
    ensures ExclusionOf(e, cs, ref).Some?
    ensures ExclusionOf(e, cs, ref).value.region == ExclusionOf(e, ds, ref).value.region
    ensures ExclusionOf(e, cs, ref).value.confidence >= ExclusionOf(e, ds, ref).value.confidence
  {
    hide OutsideCount;
    WiderExcludesLess(e, cs, ds, ref.at);
    if cs != [] {
      DivideMonotone(OutsideCount(e, ds, ref.at) as real, OutsideCount(e, cs, ref.at) as real, |cs| as real);
    }
  }

  /** After widening, every excluded region was excluded before, with at least that confidence. */
  lemma {:induction false} WiderExclusions(e: Earth, cs: seq<Circle>, ds: seq<Circle>, refs: seq<ReferenceRegion>)
    requires Wider(cs, ds)
    ensures forall x :: x in ExclusionsOf(e, ds, refs) ==>
                          exists y :: y in ExclusionsOf(e, cs, refs)
                                      && y.region == x.region && y.confidence >= x.confidence
  {
    hide ExclusionOf, Wider;
    if refs != [] {
      WiderExclusions(e, cs, ds, refs[..|refs| - 1]);
      var last := refs[|refs| - 1];
      if ExclusionOf(e, ds, last).Some? {
        WiderExclusionOf(e, cs, ds, last);
        assert ExclusionOf(e, cs, last).value in ExclusionsOf(e, cs, refs);
      }
      assert forall y :: y in ExclusionsOf(e, cs, refs[..|refs| - 1]) ==> y in ExclusionsOf(e, cs, refs);
    }
  }

  /** Delayed measurements push no location out of the circles, nor rule out a region that was not ruled out before. */
  lemma DelayNeverExpels(
    e: Earth, before: seq<Measurement>, after: seq<Measurement>, refs: seq<ReferenceRegion>, p: Point)
    requires AllDelayed(before, after)
    ensures InAll(e, Circles(before), p) ==> InAll(e, Circles(after), p)
    ensures forall x :: x in ExclusionsOf(e, Circles(after), refs) ==>
                          exists y :: y in ExclusionsOf(e, Circles(before), refs)
                                      && y.region == x.region && y.confidence >= x.confidence
  {
    hide InAll, Circles;
    DelayOnlyWidens(e, before, after);
    WiderExclusions(e, Circles(before), Circles(after), refs);
    if InAll(e, Circles(before), p) {
      WiderKeepsLocations(e, Circles(before), Circles(after), p);
    }
  }

  /** Below the threshold the claim fails: one microsecond turns two meeting circles into two that cannot meet. */
  lemma SmallDelayCanBreakConsistency()
    ensures var a := Measurement("a", Point(0.0, 0.0), [10_000]);
            var b := Measurement("b", Point(9.0, 0.0), [10_000]);
            && RatiosOk(FLAT_EARTH, [a, b])
            && !RatiosOk(FLAT_EARTH, [a.(rtts := [10_001]), b.(rtts := [10_001])])
  {
    var a := Measurement("a", Point(0.0, 0.0), [10_000]);
    var b := Measurement("b", Point(9.0, 0.0), [10_000]);
    var a', b' := a.(rtts := [10_001]), b.(rtts := [10_001]);
    MedianRank(a.rtts);
    MedianRank(a'.rtts);
    assert Reach(a) == Reach(b) == 1000.0;
    assert Reach(a') == Reach(b') == 0.1;
    hide Reach;
    assert !PairMeets(FLAT_EARTH, [a', b'][0], [a', b'][1]);
  }
}
