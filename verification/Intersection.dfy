/** What the grid intersection computes: its exact contents, its summary, and how it reacts to change. */
module Intersection {
  import opened Geometry
  import opened Medians
  import opened Statistics

  // --- Exactly the grid points in every circle, in row order ----------------------------------

  /** The kept points are those of the grid numbers `cells`: increasing, and all that lie in every circle. */
  ghost predicate Enumerates(e: Earth, cs: seq<Circle>, k: nat, ps: seq<Point>, cells: seq<nat>)
    requires cs != []
  {
    && |cells| == |ps|
    && (forall i :: 0 <= i < |ps| ==> ps[i] == Cell(e, Smallest(cs), cells[i]))
    && (forall i, j :: 0 <= i < j < |cells| ==> cells[i] < cells[j])
    && (forall n: nat :: n in cells <==> n < k && InAll(e, cs, Cell(e, Smallest(cs), n)))
  }

  lemma {:induction false} KeptExactly(e: Earth, cs: seq<Circle>, k: nat) returns (cells: seq<nat>)
    requires cs != []
    ensures Enumerates(e, cs, k, KeptBefore(e, cs, k), cells)
  {
    hide Cell, InAll;
    if k == 0 {
      cells := [];
    } else {
      cells := KeptExactly(e, cs, k - 1);
      if InAll(e, cs, Cell(e, Smallest(cs), k - 1)) {
        cells := cells + [k - 1];
      }
    }
  }

  lemma KeptIff(e: Earth, cs: seq<Circle>, p: Point)
    requires cs != []
    ensures p in Kept(e, cs) <==>
            InAll(e, cs, p) && exists i, j :: 0 <= i <= 100 && 0 <= j <= 100 && p == GridPoint(e, Smallest(cs), i, j)
  {
    hide InAll, GridPoint;
    var cells := KeptExactly(e, cs, CELLS);
    if p in Kept(e, cs) {
      var n :| 0 <= n < |cells| && Kept(e, cs)[n] == p;
      assert cells[n] in cells;
      assert p == GridPoint(e, Smallest(cs), cells[n] / 101, cells[n] % 101);
    }
    if i, j :| InAll(e, cs, p) && 0 <= i <= 100 && 0 <= j <= 100 && p == GridPoint(e, Smallest(cs), i, j) {
      CellAt(e, Smallest(cs), i, j);
      assert 101 * i + j in cells;
      var n :| 0 <= n < |cells| && cells[n] == 101 * i + j;
      assert Kept(e, cs)[n] == p;
    }
  }

  /** Grid point (50, 50) is the centre of the smallest circle. */
  lemma GridCentre(e: Earth, c: Circle)
    ensures GridPoint(e, c, 50, 50) == c.centre
  {
  }

  lemma CentreKept(e: Earth, cs: seq<Circle>)
    requires cs != [] && InAll(e, cs, Smallest(cs).centre)
    ensures Smallest(cs).centre in Kept(e, cs)
  {
    GridCentre(e, Smallest(cs));
    KeptIff(e, cs, Smallest(cs).centre);
  }

  // --- The box that is sampled ----------------------------------------------------------------

  /** `m` fiftieths of `half` away from `x`. */
  function Offset(x: real, half: real, m: int): real {
    x + m as real / 50.0 * half
  }

  /**
   A whole number of fiftieths of the half-height and of the half-width away from the centre, which are
   radius / 111 degrees of latitude and `lonHalf` degrees of longitude.
   */
  function BoxPoint(e: Earth, c: Circle, m: int, n: int): Point {
    Point(Offset(c.centre.lat, c.radius / 111.0, m), Offset(c.centre.lon, e.lonHalf(c), n))
  }

  ghost predicate InBoxSteps(e: Earth, c: Circle, p: Point) {
    exists m, n :: -50 <= m <= 50 && -50 <= n <= 50 && p == BoxPoint(e, c, m, n)
  }

  lemma OffsetWithin(x: real, half: real, m: int)
    requires half >= 0.0 && -50 <= m <= 50
    ensures x - half <= Offset(x, half, m) <= x + half
  {
    NonNegativeProduct(1.0 - m as real / 50.0, half);
    NonNegativeProduct(1.0 + m as real / 50.0, half);
    assert (1.0 - m as real / 50.0) * half == half - m as real / 50.0 * half;
    assert (1.0 + m as real / 50.0) * half == half + m as real / 50.0 * half;
  }

  lemma FiftiethTimes(m: real, half: real, step: real)
    requires 50.0 * step == half
    ensures m / 50.0 * half == m * step
  {
    assert m / 50.0 * half == m / 50.0 * 50.0 * step;
  }

  lemma StepsFromMiddle(x: real, half: real, i: int, step: real)
    requires 50.0 * step == half
    ensures (x - half) + i as real * step == Offset(x, half, i - 50)
  {
    FiftiethTimes((i - 50) as real, half, step);
    assert i as real * step == ((i - 50) as real + 50.0) * step == (i - 50) as real * step + 50.0 * step;
  }

  lemma GridOffset(x: real, half: real, i: int)
    ensures GridLine(x - half, x + half, i) == Offset(x, half, i - 50)
  {
    hide Offset;
    StepsFromMiddle(x, half, i, ((x + half) - (x - half)) / 100.0);
  }

  lemma GridPointOffset(e: Earth, c: Circle, i: int, j: int)
    ensures GridPoint(e, c, i, j) == BoxPoint(e, c, i - 50, j - 50)
  {
    hide Offset, GridLine;
    GridOffset(c.centre.lat, c.radius / 111.0, i);
    GridOffset(c.centre.lon, e.lonHalf(c), j);
  }

  /** For every earth: exactly the locations at such steps around the smallest circle that lie in all circles. */
  lemma KeptInBoxSteps(e: Earth, cs: seq<Circle>, p: Point)
    requires cs != []
    ensures p in Kept(e, cs) <==> InAll(e, cs, p) && InBoxSteps(e, Smallest(cs), p)
  {
    hide Kept, Smallest, InAll, GridPoint, BoxPoint;
    KeptIff(e, cs, p);
    var c := Smallest(cs);
    if i, j :| 0 <= i <= 100 && 0 <= j <= 100 && p == GridPoint(e, c, i, j) {
      GridPointOffset(e, c, i, j);
      assert -50 <= i - 50 <= 50 && -50 <= j - 50 <= 50;
    }
    if m, n :| -50 <= m <= 50 && -50 <= n <= 50 && p == BoxPoint(e, c, m, n) {
      GridPointOffset(e, c, m + 50, n + 50);
      assert m + 50 - 50 == m && n + 50 - 50 == n;
    }
  }

  /** The grid reaches the four corners of the box, and nothing it keeps lies outside the box. */
  lemma BoxCorners(e: Earth, cs: seq<Circle>, north: bool, east: bool)
    requires cs != []
    ensures var c := Smallest(cs);
            var height, width := c.radius / 111.0, e.lonHalf(c);
            var corner := Point(if north then c.centre.lat + height else c.centre.lat - height,
                                if east then c.centre.lon + width else c.centre.lon - width);
            corner in Kept(e, cs) <==> InAll(e, cs, corner)
    ensures var c := Smallest(cs);
            c.radius >= 0.0 && e.lonHalf(c) >= 0.0 ==>
              forall p :: p in Kept(e, cs) ==>
                            && c.centre.lat - c.radius / 111.0 <= p.lat <= c.centre.lat + c.radius / 111.0
                            && c.centre.lon - e.lonHalf(c) <= p.lon <= c.centre.lon + e.lonHalf(c)
  {
    hide Kept, Smallest, InAll;
    var c := Smallest(cs);
    var height, width := c.radius / 111.0, e.lonHalf(c);
    var m, n := if north then 50 else -50, if east then 50 else -50;
    KeptInBoxSteps(e, cs, BoxPoint(e, c, m, n));
    assert InBoxSteps(e, c, BoxPoint(e, c, m, n));
    if c.radius >= 0.0 && width >= 0.0 {
      forall p | p in Kept(e, cs)
        ensures c.centre.lat - height <= p.lat <= c.centre.lat + height
        ensures c.centre.lon - width <= p.lon <= c.centre.lon + width
      {
        KeptInBoxSteps(e, cs, p);
        var i, j :| -50 <= i <= 50 && -50 <= j <= 50 && p == BoxPoint(e, c, i, j);
        OffsetWithin(c.centre.lat, height, i);
        OffsetWithin(c.centre.lon, width, j);
      }
    }
  }

  // --- The summary ----------------------------------------------------------------------------

  lemma {:induction false} FarthestIsMaximum(e: Earth, c: Point, ps: seq<Point>)
    ensures forall p :: p in ps ==> e.dist(c, p) <= Farthest(e, c, ps)
    ensures Farthest(e, c, ps) >= 0.0
    ensures Farthest(e, c, ps) == 0.0 || exists p :: p in ps && e.dist(c, p) == Farthest(e, c, ps)
  {
    if ps != [] {
      FarthestIsMaximum(e, c, ps[..|ps| - 1]);
      assert ps[|ps| - 1] in ps;
      assert forall p :: p in ps ==> p in ps[..|ps| - 1] || p == ps[|ps| - 1];
    }
  }

  /** The centre stays within any box around the kept points, and the radius is the distance to one of them. */
  lemma SummaryOfKept(e: Earth, cs: seq<Circle>, south: real, north: real, west: real, east: real)
    requires Pseudometric(e) && |cs| > 1 && Kept(e, cs) != []
    requires forall p :: p in Kept(e, cs) ==> south <= p.lat <= north && west <= p.lon <= east
    ensures var r := Intersect(e, cs);
            && south <= r.centre.lat <= north && west <= r.centre.lon <= east
            && (forall p :: p in Kept(e, cs) ==> e.dist(r.centre, p) <= r.radius)
            && (exists p :: p in Kept(e, cs) && e.dist(r.centre, p) == r.radius)
  {
    hide Kept, Farthest;
    var kept := Kept(e, cs);
    MeanWithin(kept, Lat(), south, north);
    MeanWithin(kept, Lon(), west, east);
    FarthestIsMaximum(e, Centroid(kept), kept);
    assert kept[0] in kept;
  }

  /**
   The radius is 0 exactly when every kept point is at distance 0 from the centre: when nothing
   is kept, but also when all that is kept is one location.
   */
  lemma ZeroRadius(e: Earth, cs: seq<Circle>)
    requires Pseudometric(e) && |cs| > 1
    ensures Intersect(e, cs).radius >= 0.0
    ensures Intersect(e, cs).radius == 0.0 <==> forall p :: p in Kept(e, cs) ==> e.dist(Centroid(Kept(e, cs)), p) == 0.0
    ensures Intersect(e, cs).radius == 0.0 ==>
              forall p, q :: p in Kept(e, cs) && q in Kept(e, cs) ==> e.dist(p, q) == 0.0
  {
    hide Kept, Farthest;
    var kept := Kept(e, cs);
    var c := Centroid(kept);
    FarthestIsMaximum(e, c, kept);
    if Intersect(e, cs).radius == 0.0 {
      forall p, q | p in kept && q in kept
        ensures e.dist(p, q) == 0.0
      {
        assert e.dist(p, q) <= e.dist(p, c) + e.dist(c, q);
      }
    }
  }

  /** The centre balances the kept points: their deviations from it add up to nothing, in latitude and longitude. */
  lemma CentreBalances(e: Earth, cs: seq<Circle>)
    requires |cs| > 1 && Kept(e, cs) != []
    ensures var kept, c := Kept(e, cs), Intersect(e, cs).centre;
            && Sum(kept, Lat()) == |kept| as real * c.lat && Sum(kept, Lon()) == |kept| as real * c.lon
  {
    hide Kept, Farthest, Mean, Sum;
    MeanTimesLength(Kept(e, cs), Lat());
    MeanTimesLength(Kept(e, cs), Lon());
  }

  /** With one circle the region is the set of locations the circle allows. */
  lemma SingleCircleIsRegion(e: Earth, c: Circle, p: Point)
    ensures Contains(e, Intersect(e, [c]), p) <==> InAll(e, [c], p)
    ensures Intersect(e, [c]).centre == c.centre
  {
    assert c in [c];
    assert forall d :: d in [c] ==> d == c;
  }

  // --- Geometry decides -----------------------------------------------------------------------

  lemma RatiosNeedTwo(e: Earth, ms: seq<Measurement>)
    requires |ms| < 2
    ensures RatiosOk(e, ms)
  {
  }

  /** Two probes whose circles cannot meet leave an empty grid, so the region has radius 0. */
  lemma InconsistentMeansEmptyRegion(e: Earth, ms: seq<Measurement>)
    requires Pseudometric(e) && !RatiosOk(e, ms)
    ensures Kept(e, Circles(ms)) == []
    ensures Intersect(e, Circles(ms)) == Circle(Point(0.0, 0.0), 0.0)
  {
    hide RatiosOk, Kept, InAll;
    if |ms| < 2 { RatiosNeedTwo(e, ms); }
    if Kept(e, Circles(ms)) != [] {
      var p := Kept(e, Circles(ms))[0];
      KeptIff(e, Circles(ms), p);
      InconsistentMeansNowhere(e, ms, p);
    }
  }

  // --- Monotone intersection ------------------------------------------------------------------

  lemma {:induction false} KeptMonotone(e: Earth, cs: seq<Circle>, ds: seq<Circle>, k: nat)
    requires cs != [] && ds != [] && Smallest(cs) == Smallest(ds)
    requires forall p :: InAll(e, ds, p) ==> InAll(e, cs, p)
    ensures forall p :: p in KeptBefore(e, ds, k) ==> p in KeptBefore(e, cs, k)
  {
    hide InAll, Cell, Smallest;
    if k > 0 {
      KeptMonotone(e, cs, ds, k - 1);
    }
  }

  /** Another circle that is not strictly smaller than the smallest never adds a kept point. */
  lemma AddingLargerCircle(e: Earth, cs: seq<Circle>, c: Circle)
    requires cs != [] && c.radius >= Smallest(cs).radius
    ensures forall p :: p in Kept(e, cs + [c]) ==> p in Kept(e, cs)
    ensures Kept(e, cs) == [] ==> Kept(e, cs + [c]) == []
  {
    assert FirstSmallest(cs + [c], SmallestIndex(cs));
    assert Smallest(cs + [c]) == Smallest(cs);
    assert forall d :: d in cs ==> d in cs + [c];
    KeptMonotone(e, cs, cs + [c], CELLS);
    hide Kept;
    assert Kept(e, cs + [c]) == [] || Kept(e, cs + [c])[0] in Kept(e, cs + [c]);
  }

  /** Enlarging a circle other than the chosen smallest never removes a kept point. */
  lemma EnlargingCircle(e: Earth, cs: seq<Circle>, i: nat, radius: real)
    requires i < |cs| && i != SmallestIndex(cs) && radius >= cs[i].radius
    ensures forall p :: p in Kept(e, cs) ==> p in Kept(e, cs[i := Circle(cs[i].centre, radius)])
  {
    var ds := cs[i := Circle(cs[i].centre, radius)];
    assert FirstSmallest(ds, SmallestIndex(cs));
    assert Smallest(ds) == Smallest(cs);
    forall p | InAll(e, cs, p)
      ensures InAll(e, ds, p)
    {
      assert Contains(e, cs[i], p);
      assert forall d :: d in ds ==> d in cs || d == ds[i];
    }
    KeptMonotone(e, ds, cs, CELLS);
  }

  /** A circle of negative radius holds nothing, so nothing is kept with it. */
  lemma NegativeCircleKeepsNothing(e: Earth, cs: seq<Circle>, c: Circle)
    requires Pseudometric(e) && c.radius < 0.0
    ensures Kept(e, cs + [c]) == []
  {
    hide Kept, Smallest, GridPoint;
    assert (cs + [c])[|cs|] == c && c in cs + [c];
    if Kept(e, cs + [c]) != [] {
      var p := Kept(e, cs + [c])[0];
      KeptIff(e, cs + [c], p);
    }
  }

  /** No circle of radius `added` ever adds a kept point to circles whose smallest has radius `least`. */
  ghost predicate NeverAdds(e: Earth, least: real, added: real) {
    forall cs: seq<Circle>, c: Circle :: cs != [] && Smallest(cs).radius == least && c.radius == added ==>
                                           forall p :: p in Kept(e, cs + [c]) ==> p in Kept(e, cs)
  }

  /** No circle of radius `added` ever turns their empty grid into a non-empty one. */
  ghost predicate NeverRescues(e: Earth, least: real, added: real) {
    forall cs: seq<Circle>, c: Circle :: cs != [] && Smallest(cs).radius == least && c.radius == added ==>
                                           (Kept(e, cs) == [] ==> Kept(e, cs + [c]) == [])
  }

  /** Half a grid step north of the origin, on a grid around a circle of radius `r`. */
  function OffGrid(r: real): Point {
    Point(r / 11100.0, 0.0)
  }

  /** Three circles that share only that one location, and a smaller one around it. */
  function RescueCircles(least: real): seq<Circle> {
    var far, h := 2.0 * least / 111.0 + 1.0, least / 11100.0;
    [Circle(Point(0.0, 0.0), least),
     Circle(Point(-far, 0.0), 111.0 * (far + h)),
     Circle(Point(far, 0.0), 111.0 * (far - h))]
  }

  lemma OtherMultiple(x: real, n: real, h: real)
    requires h > 0.0 && n != 1.0 && x == n * h
    ensures x != h
  {
    assert x - h == (n - 1.0) * h;
  }

  lemma OffTheGrid(r: real, i: int, j: int)
    requires r > 0.0
    ensures GridPoint(FLAT_EARTH, Circle(Point(0.0, 0.0), r), i, j).lat != OffGrid(r).lat
  {
    var p := GridPoint(FLAT_EARTH, Circle(Point(0.0, 0.0), r), i, j);
    assert p.lat == (2 * i - 100) as real * (r / 11100.0);
    OtherMultiple(p.lat, (2 * i - 100) as real, r / 11100.0);
  }

  lemma OnlyOffGrid(least: real, p: Point)
    requires least > 0.0
    ensures var cs := RescueCircles(least);
            Contains(FLAT_EARTH, cs[1], p) && Contains(FLAT_EARTH, cs[2], p) ==> p.lat == OffGrid(least).lat
    ensures InAll(FLAT_EARTH, RescueCircles(least), OffGrid(least))
  {
  }

  lemma Rescue(least: real, added: real) returns (cs: seq<Circle>, c: Circle)
    requires 0.0 <= added < least
    ensures cs != [] && Smallest(cs).radius == least && c.radius == added
    ensures Kept(FLAT_EARTH, cs) == [] && c.centre in Kept(FLAT_EARTH, cs + [c])
  {
    cs, c := RescueCircles(least), Circle(OffGrid(least), added);
    assert Smallest(cs) == cs[0] && Smallest(cs + [c]) == c by {
      assert FirstSmallest(cs, 0);
      assert FirstSmallest(cs + [c], 3);
    }
    OnlyOffGrid(least, c.centre);
    assert Contains(FLAT_EARTH, c, c.centre);
    assert cs[1] in cs && cs[2] in cs;
    hide Kept, Smallest, GridPoint, Contains, RescueCircles, OffGrid;
    if Kept(FLAT_EARTH, cs) != [] {
      var p := Kept(FLAT_EARTH, cs)[0];
      KeptIff(FLAT_EARTH, cs, p);
      OnlyOffGrid(least, p);
      var i, j :| 0 <= i <= 100 && 0 <= j <= 100 && p == GridPoint(FLAT_EARTH, cs[0], i, j);
      OffTheGrid(least, i, j);
    }
    assert forall d :: d in cs + [c] <==> d in cs || d == c;
    CentreKept(FLAT_EARTH, cs + [c]);
  }

  /** One more circle is sure to narrow the grid down exactly when it is not the new smallest, or holds nothing. */
  lemma AddingCircleIff(least: real, added: real)
    ensures NeverAdds(FLAT_EARTH, least, added) <==> added >= least || added < 0.0
    ensures NeverRescues(FLAT_EARTH, least, added) <==> added >= least || added < 0.0
  {
    hide Kept, Smallest;
    if added >= least || added < 0.0 {
      forall cs: seq<Circle>, c: Circle | cs != [] && Smallest(cs).radius == least && c.radius == added
        ensures forall p :: p in Kept(FLAT_EARTH, cs + [c]) ==> p in Kept(FLAT_EARTH, cs)
        ensures Kept(FLAT_EARTH, cs) == [] ==> Kept(FLAT_EARTH, cs + [c]) == []
      {
        if added < 0.0 {
          FlatEarthIsPseudometric();
          NegativeCircleKeepsNothing(FLAT_EARTH, cs, c);
        } else {
          AddingLargerCircle(FLAT_EARTH, cs, c);
        }
      }
    } else {
      var cs, c := Rescue(least, added);
      assert c.centre in Kept(FLAT_EARTH, cs + [c]) && c.centre !in Kept(FLAT_EARTH, cs);
    }
  }

  // --- No fall-back ---------------------------------------------------------------------------

  /** The region is centred on the smallest circle when nothing is kept. */
  ghost predicate FallsBackToSmallest(e: Earth, cs: seq<Circle>)
    requires cs != []
  {
    Kept(e, cs) == [] ==> Intersect(e, cs).centre == Smallest(cs).centre
  }

  /** It is exactly when something is kept after all, or that circle is centred where the zero region lies anyway. */
  lemma FallBackIff(e: Earth, cs: seq<Circle>)
    requires |cs| > 1
    ensures FallsBackToSmallest(e, cs) <==> Kept(e, cs) != [] || Smallest(cs).centre == Point(0.0, 0.0)
  {
    hide Kept, Smallest;
  }
}
