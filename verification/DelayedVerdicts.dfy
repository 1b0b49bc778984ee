/**
 What added delay does to the verdict. Wider circles keep every location, but the sampling grid is laid
 over the smallest of them: delaying that measurement moves the grid, and the grid can then miss
 locations the circles still share.
 */
module DelayedVerdicts {
  import opened Delays
  import opened Engine
  import opened Exclusions
  import opened Geometry
  import opened Intersection
  import opened Medians
  import opened Sampling
  import opened Verdicts
  import opened Wrappers

  /** The delay leaves the distance bound of the measurement with the smallest circle as it was. */
  ghost predicate SmallestUntouched(before: seq<Measurement>, after: seq<Measurement>)
    requires before != [] && |after| == |before|
  {
    var i := SmallestIndex(Circles(before));
    Reach(after[i]) == Reach(before[i])
  }

  lemma SmallestStays(before: seq<Measurement>, after: seq<Measurement>)
    requires before != [] && AllDelayed(before, after) && SmallestUntouched(before, after)
    ensures Smallest(Circles(after)) == Smallest(Circles(before))
  {
    hide Reach;
    var cs, ds := Circles(before), Circles(after);
    forall i | 0 <= i < |before|
      ensures ds[i].centre == cs[i].centre && ds[i].radius >= cs[i].radius
    {
      DelayedReach(before[i], after[i]);
    }
    assert FirstSmallest(ds, SmallestIndex(cs));
  }

  /** Delays elsewhere never lose a sampled location. */
  lemma DelayKeepsSamples(e: Earth, before: seq<Measurement>, after: seq<Measurement>)
    requires before != [] && AllDelayed(before, after) && SmallestUntouched(before, after)
    ensures forall p :: p in Kept(e, Circles(before)) ==> p in Kept(e, Circles(after))
  {
    hide Reach, InAll, Smallest;
    SmallestStays(before, after);
    DelayOnlyWidens(e, before, after);
    forall p | InAll(e, Circles(before), p)
      ensures InAll(e, Circles(after), p)
    {
      WiderKeepsLocations(e, Circles(before), Circles(after), p);
    }
    KeptMonotone(e, Circles(after), Circles(before), CELLS);
  }

  /** After any such delay, a sampled location is lost exactly when the grid has moved off it. */
  lemma LostIffOffGrid(e: Earth, before: seq<Measurement>, after: seq<Measurement>, p: Point)
    requires before != [] && AllDelayed(before, after) && p in Kept(e, Circles(before))
    ensures p in Kept(e, Circles(after)) <==> OnGrid(e, Smallest(Circles(after)), p)
  {
    hide Reach, InAll, Smallest, GridPoint, Kept;
    DelayOnlyWidens(e, before, after);
    KeptIff(e, Circles(before), p);
    WiderKeepsLocations(e, Circles(before), Circles(after), p);
    KeptIff(e, Circles(after), p);
  }

  /** Two sampled locations apart from each other rule rejection out. */
  lemma ApartMeansNotRejected(
    e: Earth, refs: seq<ReferenceRegion>, ds: Option<Querier>, ms: seq<Measurement>, v: Verdict, p: Point, q: Point)
    requires Pseudometric(e) && IsVerdict(e, refs, ds, ms, v) && ms != []
    requires p in Kept(e, Circles(ms)) && q in Kept(e, Circles(ms)) && e.dist(p, q) > 0.0
    ensures v.status != Rejected
  {
    hide Pseudometric, IsVerdict, Kept, Centroid;
    RejectedIff(e, refs, ds, ms, v);
    if v.status == Rejected {
      ZeroRadius(e, Circles(ms));
    }
  }

  /** So delays that leave the smallest circle alone never turn such a submission into a rejected one. */
  lemma DelayNeverRejects(
    e: Earth, refs: seq<ReferenceRegion>, ds: Option<Querier>, before: seq<Measurement>, after: seq<Measurement>,
    v: Verdict, p: Point, q: Point)
    requires before != [] && AllDelayed(before, after) && SmallestUntouched(before, after)
    requires Pseudometric(e) && IsVerdict(e, refs, ds, after, v)
    requires p in Kept(e, Circles(before)) && q in Kept(e, Circles(before)) && e.dist(p, q) > 0.0
    ensures v.status != Rejected
  {
    hide Pseudometric, IsVerdict, Kept, SmallestUntouched, Delayed;
    DelayKeepsSamples(e, before, after);
    ApartMeansNotRejected(e, refs, ds, after, v, p, q);
  }

  // --- Exactly which delays of the smallest circle are safe -----------------------------------

  /** The delay moves the distance bound of the measurement with the smallest circle from `r` to `r'`. */
  ghost predicate SmallestMoves(before: seq<Measurement>, after: seq<Measurement>, r: real, r': real)
    requires before != [] && |after| == |before|
  {
    var i := SmallestIndex(Circles(before));
    Reach(before[i]) == r && Reach(after[i]) == r'
  }

  /** No such delay ever turns a submission that is not rejected into one that is. */
  ghost predicate NeverRejects(e: Earth, r: real, r': real) {
    forall before, after: seq<Measurement> ::
      before != [] && AllDelayed(before, after) && SmallestMoves(before, after, r, r') && !Rejects(e, before) ==>
        !Rejects(e, after)
  }

  /** A smallest circle left as it was keeps the two locations that ruled rejection out. */
  lemma UntouchedNeverRejects(e: Earth, before: seq<Measurement>, after: seq<Measurement>)
    requires Pseudometric(e) && Separating(e)
    requires before != [] && AllDelayed(before, after) && SmallestUntouched(before, after) && !Rejects(e, before)
    ensures !Rejects(e, after)
  {
    hide Kept, Intersect, SmallestUntouched, Delayed, Separating, Pseudometric;
    if |before| > 1 {
      ZeroRadiusIff(e, Circles(before));
      DelayKeepsSamples(e, before, after);
      ZeroRadiusIff(e, Circles(after));
    }
  }

  /** The same on verdicts: a submission that was not rejected is not rejected after such delays. */
  lemma UntouchedKeepsVerdict(
    e: Earth, refs: seq<ReferenceRegion>, ds: Option<Querier>, before: seq<Measurement>, after: seq<Measurement>,
    v: Verdict, w: Verdict)
    requires Pseudometric(e) && Separating(e)
    requires before != [] && AllDelayed(before, after) && SmallestUntouched(before, after)
    requires IsVerdict(e, refs, ds, before, v) && IsVerdict(e, refs, ds, after, w) && v.status != Rejected
    ensures w.status != Rejected
  {
    hide Rejects, IsVerdict, SmallestUntouched, Delayed, Separating, Pseudometric;
    RejectedMeans(e, refs, ds, before, v);
    RejectedMeans(e, refs, ds, after, w);
    UntouchedNeverRejects(e, before, after);
  }

  lemma PointGrid(c: Circle, i: int, j: int)
    requires c.radius == 0.0
    ensures GridPoint(FLAT_EARTH, c, i, j) == c.centre
  {
    assert i as real * 0.0 == 0.0 && j as real * 0.0 == 0.0;
  }

  /** A smallest circle of radius 0 has a grid of one point, so the submission was rejected to begin with. */
  lemma PointGridRejects(ms: seq<Measurement>)
    requires |ms| > 1 && Smallest(Circles(ms)).radius == 0.0
    ensures Rejects(FLAT_EARTH, ms)
  {
    hide Kept, Smallest, Intersect, GridPoint;
    var cs := Circles(ms);
    forall p | p in Kept(FLAT_EARTH, cs)
      ensures p == Smallest(cs).centre
    {
      KeptIff(FLAT_EARTH, cs, p);
      var i, j :| 0 <= i <= 100 && 0 <= j <= 100 && p == GridPoint(FLAT_EARTH, Smallest(cs), i, j);
      PointGrid(Smallest(cs), i, j);
    }
    FlatEarthIsPseudometric();
    FlatEarthSeparates();
    ZeroRadiusIff(FLAT_EARTH, cs);
  }

  /** A circle around the origin, and two far ones that share only a lens between its first two grid rows. */
  function LensCircles(r: real, r': real, wide: real): seq<Circle> {
    var s := GridStep(r);
    [Circle(Point(0.0, 0.0), r')] + Lens(Point(s, s / 2.0), s / 2.0, wide / 111.0 - s / 2.0)
  }

  function LensMeasurements(r: real, rtt: int, wideRtt: int): seq<Measurement> {
    var s, far := GridStep(r), MaxDistanceFromRTT(wideRtt) / 111.0 - GridStep(r) / 2.0;
    [Measurement("a", Point(0.0, 0.0), [rtt]), Measurement("b", Point(s + far, s / 2.0), [wideRtt]),
     Measurement("c", Point(s - far, s / 2.0), [wideRtt])]
  }

  lemma SingleReach(m: Measurement, rtt: int)
    requires m.rtts == [rtt]
    ensures CircleOf(m) == Circle(m.probe, MaxDistanceFromRTT(rtt))
  {
    MedianRank([rtt]);
  }

  lemma CirclesOfLens(r: real, rtt: int, wideRtt: int)
    ensures Circles(LensMeasurements(r, rtt, wideRtt))
         == LensCircles(r, MaxDistanceFromRTT(rtt), MaxDistanceFromRTT(wideRtt))
  {
    var ms := LensMeasurements(r, rtt, wideRtt);
    hide MaxDistanceFromRTT, GridStep;
    SingleReach(ms[0], rtt);
    SingleReach(ms[1], wideRtt);
    SingleReach(ms[2], wideRtt);
  }

  lemma LensSmallest(r: real, r': real, wide: real)
    requires 0.0 < r <= r' <= wide
    ensures SmallestIndex(LensCircles(r, r', wide)) == 0
    ensures Smallest(LensCircles(r, r', wide)) == Circle(Point(0.0, 0.0), r')
  {
    assert FirstSmallest(LensCircles(r, r', wide), 0);
  }

  /** Grid points (51, 50) and (51, 51) lie in the lens. */
  lemma LensHoldsTwo(r: real, wide: real)
    requires 0.0 < r <= wide
    ensures var cs, s := LensCircles(r, r, wide), GridStep(r);
            && s > 0.0 && InAll(FLAT_EARTH, cs, Point(s, 0.0)) && InAll(FLAT_EARTH, cs, Point(s, s))
  {
    var s := GridStep(r);
    LensIff(Point(s, s / 2.0), s / 2.0, wide / 111.0 - s / 2.0, Point(s, 0.0));
    LensIff(Point(s, s / 2.0), s / 2.0, wide / 111.0 - s / 2.0, Point(s, s));
    assert Contains(FLAT_EARTH, Circle(Point(0.0, 0.0), r), Point(s, 0.0));
    assert Contains(FLAT_EARTH, Circle(Point(0.0, 0.0), r), Point(s, s));
    hide Lens, Contains;
  }

  lemma FirstGridRow(r: real)
    ensures var box, s := Circle(Point(0.0, 0.0), r), GridStep(r);
            && GridPoint(FLAT_EARTH, box, 51, 50) == Point(s, 0.0)
            && GridPoint(FLAT_EARTH, box, 51, 51) == Point(s, s)
  {
    hide GridPoint, GridStep, Steps;
    FlatGrid(Circle(Point(0.0, 0.0), r), 51, 50);
    FlatGrid(Circle(Point(0.0, 0.0), r), 51, 51);
    NoSteps(GridStep(r));
  }

  /** So before the delay two points are kept. */
  lemma LensKeepsTwo(r: real, wide: real)
    requires 0.0 < r <= wide
    ensures Intersect(FLAT_EARTH, LensCircles(r, r, wide)).radius > 0.0
  {
    var cs, s := LensCircles(r, r, wide), GridStep(r);
    assert |cs| == 3;
    LensSmallest(r, r, wide);
    LensHoldsTwo(r, wide);
    FirstGridRow(r);
    hide Kept, Smallest, Intersect, GridPoint, GridStep, InAll, LensCircles;
    KeptIff(FLAT_EARTH, cs, Point(s, 0.0));
    KeptIff(FLAT_EARTH, cs, Point(s, s));
    FlatEarthIsPseudometric();
    FlatEarthSeparates();
    ZeroRadius(FLAT_EARTH, cs);
    ZeroRadiusIff(FLAT_EARTH, cs);
    assert Point(s, 0.0) != Point(s, s);
  }

  lemma WiderStep(s: real, s': real, n: int)
    requires 0.0 < s < s'
    ensures Steps(n, s') < 0.0 || Steps(n, s') == 0.0 || Steps(n, s') > s
  {
    hide Steps;
    NoSteps(s');
    if n >= 1 {
      StepsAreMonotone(1, n, s');
    } else {
      StepsAreMonotone(n, 0, s');
    }
  }

  /** No point of a wider grid around the origin lies in the lens. */
  lemma OffLens(r: real, r': real, i: int, j: int)
    requires 0.0 < r < r'
    ensures var s := GridStep(r);
            var p := GridPoint(FLAT_EARTH, Circle(Point(0.0, 0.0), r'), i, j);
            FLAT_EARTH.dist(p, Point(s, s / 2.0)) > 111.0 * (s / 2.0)
  {
    assert 0.0 < GridStep(r) < GridStep(r');
    hide GridPoint, GridStep, Steps;
    FlatGrid(Circle(Point(0.0, 0.0), r'), i, j);
    WiderStep(GridStep(r), GridStep(r'), i - 50);
    WiderStep(GridStep(r), GridStep(r'), j - 50);
  }

  lemma SharedIsInLens(r: real, r': real, wide: real, p: Point)
    requires 0.0 < r < r' <= wide && InAll(FLAT_EARTH, LensCircles(r, r', wide), p)
    ensures var s := GridStep(r); FLAT_EARTH.dist(p, Point(s, s / 2.0)) <= 111.0 * (s / 2.0)
  {
    var s := GridStep(r);
    var q, far := Point(s, s / 2.0), wide / 111.0 - s / 2.0;
    assert far >= 0.0;
    hide Lens, Contains, GridStep, Gap;
    assert forall c :: c in Lens(q, s / 2.0, far) ==> c in LensCircles(r, r', wide);
    LensIff(q, s / 2.0, far, p);
  }

  lemma LensKeepsNothing(r: real, r': real, wide: real)
    requires 0.0 < r < r' <= wide
    ensures Kept(FLAT_EARTH, LensCircles(r, r', wide)) == []
  {
    var cs := LensCircles(r, r', wide);
    hide Kept, Smallest, GridPoint, GridStep, Gap, InAll, LensCircles;
    LensSmallest(r, r', wide);
    if Kept(FLAT_EARTH, cs) != [] {
      var p := Kept(FLAT_EARTH, cs)[0];
      KeptIff(FLAT_EARTH, cs, p);
      SharedIsInLens(r, r', wide, p);
      var i, j :| 0 <= i <= 100 && 0 <= j <= 100 && p == GridPoint(FLAT_EARTH, Smallest(cs), i, j);
      OffLens(r, r', i, j);
    }
  }

  /** A delay that widens a smallest circle of positive radius can reject. */
  lemma WideningCanReject(rtt: int, slowed: int) returns (before: seq<Measurement>, after: seq<Measurement>)
    requires slowed >= rtt + TCP_OVERHEAD_US && 0.0 < MaxDistanceFromRTT(rtt) < MaxDistanceFromRTT(slowed)
    ensures before != [] && AllDelayed(before, after)
    ensures SmallestMoves(before, after, MaxDistanceFromRTT(rtt), MaxDistanceFromRTT(slowed))
    ensures !Rejects(FLAT_EARTH, before) && Rejects(FLAT_EARTH, after)
  {
    var r, r', wideRtt := MaxDistanceFromRTT(rtt), MaxDistanceFromRTT(slowed), slowed + 2 * TCP_OVERHEAD_US;
    var wide := MaxDistanceFromRTT(wideRtt);
    assert r' <= wide;
    before, after := LensMeasurements(r, rtt, wideRtt), LensMeasurements(r, slowed, wideRtt);
    hide MaxDistanceFromRTT, GridStep, Kept, Smallest, LensCircles;
    CirclesOfLens(r, rtt, wideRtt);
    CirclesOfLens(r, slowed, wideRtt);
    LensSmallest(r, r, wide);
    LensKeepsTwo(r, wide);
    LensKeepsNothing(r, r', wide);
    SingleReach(before[0], rtt);
    SingleReach(after[0], slowed);
  }

  lemma SafeMove(before: seq<Measurement>, after: seq<Measurement>, r: real, r': real)
    requires before != [] && AllDelayed(before, after) && SmallestMoves(before, after, r, r')
    requires (r' == r || r == 0.0) && !Rejects(FLAT_EARTH, before)
    ensures !Rejects(FLAT_EARTH, after)
  {
    hide Reach;
    if |before| > 1 {
      if r == 0.0 {
        hide Rejects;
        PointGridRejects(before);
      } else {
        FlatEarthIsPseudometric();
        FlatEarthSeparates();
        hide Rejects;
        UntouchedNeverRejects(FLAT_EARTH, before, after);
      }
    }
  }

  /**
   Delaying the measurement with the smallest circle is safe for the verdict exactly when its bound stays
   what it was, or was 0. Delays of the other measurements do not matter.
   */
  lemma SafeForVerdictIff(rtt: int, slowed: int)
    requires slowed == rtt || slowed >= rtt + TCP_OVERHEAD_US
    ensures var r, r' := MaxDistanceFromRTT(rtt), MaxDistanceFromRTT(slowed);
            NeverRejects(FLAT_EARTH, r, r') <==> r' == r || r == 0.0
  {
    var r, r' := MaxDistanceFromRTT(rtt), MaxDistanceFromRTT(slowed);
    assert 0.0 <= r <= r';
    hide MaxDistanceFromRTT, Rejects;
    if r' == r || r == 0.0 {
      forall before, after: seq<Measurement> |
        before != [] && AllDelayed(before, after) && SmallestMoves(before, after, r, r') && !Rejects(FLAT_EARTH, before)
        ensures !Rejects(FLAT_EARTH, after)
      {
        SafeMove(before, after, r, r');
      }
    } else {
      var before, after := WideningCanReject(rtt, slowed);
    }
  }

  // --- Delaying the smallest circle -----------------------------------------------------------

  const USER := Point(0.01, 0.0)

  /** Three probes whose circles share a narrow band between two grid lines, and one right beside the user. */
  const PROMPT := [
    Measurement("a", Point(0.0, 0.0), [1110]), Measurement("b", Point(-3.0, 0.0), [3343]),
    Measurement("c", Point(3.0, 0.0), [3321]), Measurement("d", USER, [1])]

  /** The same with 100 ms added at the near probe. */
  const SLOWED := PROMPT[3 := Measurement("d", USER, [100_001])]

  const BAND := [Circle(Point(0.0, 0.0), 111.0), Circle(Point(-3.0, 0.0), 334.3), Circle(Point(3.0, 0.0), 332.1)]

  lemma ReachesOfCase()
    ensures Circles(PROMPT) == BAND + [Circle(USER, 0.1)] && Circles(SLOWED) == BAND + [Circle(USER, 9000.1)]
    ensures AllDelayed(PROMPT, SLOWED)
  {
    SingleReach(PROMPT[0], 1110);
    SingleReach(PROMPT[1], 3343);
    SingleReach(PROMPT[2], 3321);
    SingleReach(PROMPT[3], 1);
    SingleReach(SLOWED[3], 100_001);
    hide CircleOf;
    assert Circles(PROMPT) == BAND + [Circle(USER, 0.1)];
    assert Circles(SLOWED) == BAND + [Circle(USER, 9000.1)];
  }

  lemma BandBetweenGridLines(i: int, j: int)
    ensures var p := GridPoint(FLAT_EARTH, BAND[0], i, j);
            !Contains(FLAT_EARTH, BAND[1], p) || !Contains(FLAT_EARTH, BAND[2], p)
  {
    var p := GridPoint(FLAT_EARTH, BAND[0], i, j);
    assert p.lat == -1.0 + 0.02 * i as real;
  }

  lemma SlowedKeepsNothing()
    ensures Kept(FLAT_EARTH, Circles(SLOWED)) == []
  {
    ReachesOfCase();
    var cs := BAND + [Circle(USER, 9000.1)];
    assert Smallest(cs) == BAND[0] by { assert FirstSmallest(cs, 0); }
    assert cs[1] == BAND[1] && cs[2] == BAND[2] && cs[1] in cs && cs[2] in cs;
    hide Kept, Smallest, GridPoint, Contains, Circles;
    if Kept(FLAT_EARTH, cs) != [] {
      var p := Kept(FLAT_EARTH, cs)[0];
      KeptIff(FLAT_EARTH, cs, p);
      var i, j :| 0 <= i <= 100 && 0 <= j <= 100 && p == GridPoint(FLAT_EARTH, BAND[0], i, j);
      BandBetweenGridLines(i, j);
    }
  }

  lemma PromptKeepsTwo()
    ensures var q := Point(0.01 + 0.1 / 111.0, 0.0);
            USER in Kept(FLAT_EARTH, Circles(PROMPT)) && q in Kept(FLAT_EARTH, Circles(PROMPT))
            && FLAT_EARTH.dist(USER, q) > 0.0
  {
    ReachesOfCase();
    var cs, q := BAND + [Circle(USER, 0.1)], Point(0.01 + 0.1 / 111.0, 0.0);
    assert Smallest(cs) == Circle(USER, 0.1) by { assert FirstSmallest(cs, 3); }
    assert InAll(FLAT_EARTH, cs, USER) && InAll(FLAT_EARTH, cs, q);
    assert GridPoint(FLAT_EARTH, Circle(USER, 0.1), 100, 50) == q;
    hide Kept, Smallest, GridPoint, InAll, Circles;
    CentreKept(FLAT_EARTH, cs);
    KeptIff(FLAT_EARTH, cs, q);
  }

  /**
   Delay can put the user outside the verdict: with the near probe delayed the submission is rejected,
   although the user stands in every one of the wider circles and was found before.
   */
  lemma DelayCanReject(refs: seq<ReferenceRegion>, ds: Option<Querier>, v: Verdict, w: Verdict)
    requires IsVerdict(FLAT_EARTH, refs, ds, PROMPT, v) && IsVerdict(FLAT_EARTH, refs, ds, SLOWED, w)
    ensures AllDelayed(PROMPT, SLOWED) && InAll(FLAT_EARTH, Circles(SLOWED), USER)
    ensures v.status != Rejected && w.status == Rejected
  {
    hide IsVerdict, Kept, Centroid, Contains, CircleOf;
    FlatEarthIsPseudometric();
    ReachesOfCase();
    PromptKeepsTwo();
    SlowedKeepsNothing();
    KeptIff(FLAT_EARTH, Circles(PROMPT), USER);
    DelayOnlyWidens(FLAT_EARTH, PROMPT, SLOWED);
    WiderKeepsLocations(FLAT_EARTH, Circles(PROMPT), Circles(SLOWED), USER);
    ApartMeansNotRejected(FLAT_EARTH, refs, ds, PROMPT, v, USER, Point(0.01 + 0.1 / 111.0, 0.0));
    RejectedIff(FLAT_EARTH, refs, ds, SLOWED, w);
  }
}
