/**
 Distance circles around probes and their intersection on a sampling grid
 (internal/geo/geo.go). Coordinates and distances are exact reals; the great-circle
 distance and the longitude half-width of the sampling box are parameters of an `Earth`.
 */
module Geometry {
  import opened Medians
  import opened Statistics

  datatype Point = Point(lat: real, lon: real)

  /** A distance circle around a probe, and also the region an intersection is summarised by. */
  datatype Circle = Circle(centre: Point, radius: real)

  datatype Measurement = Measurement(probeId: string, probe: Point, rtts: seq<int>)

  datatype Earth = Earth(dist: (Point, Point) -> real, lonHalf: Circle -> real)

  /** What the theorems need of the distance; great-circle distance has these properties. */
  ghost predicate Pseudometric(e: Earth) {
    && (forall p :: e.dist(p, p) == 0.0)
    && (forall p, q :: e.dist(p, q) >= 0.0)
    && (forall p, q :: e.dist(p, q) == e.dist(q, p))
    && (forall p, q, r :: e.dist(p, r) <= e.dist(p, q) + e.dist(q, r))
  }

  /** A concrete distance with these properties: 111 km per degree of latitude, and of longitude. */
  function Gap(x: real, y: real): real {
    if x < y then y - x else x - y
  }

  const FLAT_EARTH := Earth(
                        (p: Point, q: Point) => 111.0 * (Gap(p.lat, q.lat) + Gap(p.lon, q.lon)),
                        (c: Circle) => c.radius / 111.0)

  lemma FlatEarthIsPseudometric()
    ensures Pseudometric(FLAT_EARTH)
  {
  }

  // --- From round-trip times to circles -------------------------------------------------------

  const TCP_OVERHEAD_US := 10_000
  const FIBER_SPEED_KM_PER_US := 0.2

  function MaxDistanceFromRTT(rttUs: int): real {
    if rttUs <= 0 then
      0.0
    else
      var effective := rttUs - TCP_OVERHEAD_US;
      if effective <= 0 then
        rttUs as real / 2.0 * FIBER_SPEED_KM_PER_US
      else
        effective as real / 2.0 * FIBER_SPEED_KM_PER_US
  }

  /**
   Which round trips reach a given distance: 10 microseconds a kilometre, after 10 ms of overhead, which a
   round trip of no more than those 10 ms is spared.
   */
  lemma ReachesIff(rttUs: int, km: real)
    requires km > 0.0
    ensures MaxDistanceFromRTT(rttUs) >= km <==>
            (rttUs <= 10_000 && rttUs as real >= 10.0 * km) || (rttUs - 10_000) as real >= 10.0 * km
    ensures MaxDistanceFromRTT(rttUs) >= 0.0
  {
  }

  function Reach(m: Measurement): real {
    MaxDistanceFromRTT(Median(m.rtts))
  }

  /** A probe that reported no samples allows no distance at all. */
  lemma NoSamplesNoReach(m: Measurement)
    requires m.rtts == []
    ensures Median(m.rtts) == 0 && Reach(m) == 0.0
  {
  }

  function CircleOf(m: Measurement): Circle {
    Circle(m.probe, Reach(m))
  }

  function Circles(ms: seq<Measurement>): seq<Circle> {
    seq(|ms|, i requires 0 <= i < |ms| => CircleOf(ms[i]))
  }

  predicate Contains(e: Earth, c: Circle, p: Point) {
    e.dist(p, c.centre) <= c.radius
  }

  predicate InAll(e: Earth, cs: seq<Circle>, p: Point) {
    forall c :: c in cs ==> Contains(e, c, p)
  }

  // --- Pairwise consistency -------------------------------------------------------------------

  /** The two circles are close enough for some location to lie in both. */
  predicate PairMeets(e: Earth, a: Measurement, b: Measurement) {
    e.dist(a.probe, b.probe) <= Reach(a) + Reach(b)
  }

  ghost predicate RatiosOk(e: Earth, ms: seq<Measurement>) {
    forall i, j :: 0 <= i < j < |ms| ==> PairMeets(e, ms[i], ms[j])
  }

  method CheckRatios(e: Earth, ms: seq<Measurement>) returns (ok: bool)
    ensures ok <==> RatiosOk(e, ms)
  {
    hide Reach;
    if |ms| < 2 {
      return true;
    }
    for i := 0 to |ms|
      invariant forall k, j :: 0 <= k < i && k < j < |ms| ==> PairMeets(e, ms[k], ms[j])
    {
      for j := i + 1 to |ms|
        invariant forall k :: i < k < j ==> PairMeets(e, ms[i], ms[k])
      {
        var distIJ := e.dist(ms[i].probe, ms[j].probe);
        if Reach(ms[i]) + Reach(ms[j]) < distIJ {
          assert !PairMeets(e, ms[i], ms[j]);
          return false;
        }
      }
    }
    return true;
  }

  lemma DisjointCircles(e: Earth, a: Circle, b: Circle, p: Point)
    requires Pseudometric(e) && e.dist(a.centre, b.centre) > a.radius + b.radius
    ensures !Contains(e, a, p) || !Contains(e, b, p)
  {
    assert e.dist(a.centre, b.centre) <= e.dist(a.centre, p) + e.dist(p, b.centre);
  }

  /** Inconsistent pairs leave no location at all that lies in every circle. */
  lemma InconsistentMeansNowhere(e: Earth, ms: seq<Measurement>, p: Point)
    requires Pseudometric(e) && !RatiosOk(e, ms)
    ensures !InAll(e, Circles(ms), p)
  {
    hide Reach;
    var i, j :| 0 <= i < j < |ms| && !PairMeets(e, ms[i], ms[j]);
    assert Circles(ms)[i] in Circles(ms) && Circles(ms)[j] in Circles(ms);
    DisjointCircles(e, CircleOf(ms[i]), CircleOf(ms[j]), p);
  }

  // --- The sampling grid ----------------------------------------------------------------------

  /** Number `i` holds the first circle of least radius. */
  ghost predicate FirstSmallest(cs: seq<Circle>, i: nat) {
    && i < |cs|
    && (forall k :: 0 <= k < i ==> cs[k].radius > cs[i].radius)
    && (forall k :: i <= k < |cs| ==> cs[k].radius >= cs[i].radius)
  }

  function SmallestIndex(cs: seq<Circle>): (i: nat)
    requires cs != []
    ensures FirstSmallest(cs, i)
  {
    if |cs| == 1 then 0 else
    var i := SmallestIndex(cs[..|cs| - 1]);
    if cs[|cs| - 1].radius < cs[i].radius then |cs| - 1 else i
  }

  function Smallest(cs: seq<Circle>): Circle
    requires cs != []
  {
    cs[SmallestIndex(cs)]
  }

  /** Line `i` of 101 that divide an interval evenly. */
  function GridLine(least: real, most: real, i: int): real {
    least + i as real * ((most - least) / 100.0)
  }

  function GridPoint(e: Earth, box: Circle, i: int, j: int): Point {
    var latDelta := box.radius / 111.0;
    var lonDelta := e.lonHalf(box);
    var (minLat, maxLat) := (box.centre.lat - latDelta, box.centre.lat + latDelta);
    var (minLon, maxLon) := (box.centre.lon - lonDelta, box.centre.lon + lonDelta);
    Point(GridLine(minLat, maxLat, i), GridLine(minLon, maxLon, j))
  }

  /** The 101 by 101 grid points are numbered row by row. */
  function Cell(e: Earth, box: Circle, k: nat): Point {
    GridPoint(e, box, k / 101, k % 101)
  }

  lemma CellAt(e: Earth, box: Circle, i: nat, j: nat)
    requires j <= 100
    ensures Cell(e, box, 101 * i + j) == GridPoint(e, box, i, j)
  {
    assert (101 * i + j) / 101 == i && (101 * i + j) % 101 == j;
  }

  /** The grid points before number `k` that lie in every circle, in the order they are visited. */
  function KeptBefore(e: Earth, cs: seq<Circle>, k: nat): seq<Point>
    requires cs != []
  {
    if k == 0 then [] else
    var p := Cell(e, Smallest(cs), k - 1);
    KeptBefore(e, cs, k - 1) + if InAll(e, cs, p) then [p] else []
  }

  /** Visiting one more grid point. */
  lemma KeptStep(e: Earth, cs: seq<Circle>, i: nat, j: nat)
    requires cs != [] && j <= 100
    ensures var p := GridPoint(e, Smallest(cs), i, j);
            KeptBefore(e, cs, 101 * i + j + 1) == KeptBefore(e, cs, 101 * i + j) + if InAll(e, cs, p) then [p] else []
  {
    hide Smallest, FirstSmallest, InAll, GridPoint;
    CellAt(e, Smallest(cs), i, j);
  }

  lemma NothingKeptYet(e: Earth, cs: seq<Circle>)
    requires cs != []
    ensures KeptBefore(e, cs, 0) == []
  {
  }

  const CELLS: nat := 10201

  function Kept(e: Earth, cs: seq<Circle>): seq<Point>
    requires cs != []
  {
    KeptBefore(e, cs, CELLS)
  }

  function Lat(): Point -> real { (p: Point) => p.lat }

  function Lon(): Point -> real { (p: Point) => p.lon }

  function Centroid(ps: seq<Point>): Point {
    Point(Mean(ps, Lat()), Mean(ps, Lon()))
  }

  /** The largest distance from `c` to one of the points, 0 when there is none. */
  function Farthest(e: Earth, c: Point, ps: seq<Point>): real {
    if ps == [] then 0.0 else
    var r := Farthest(e, c, ps[..|ps| - 1]);
    var d := e.dist(c, ps[|ps| - 1]);
    if d > r then d else r
  }

  /** The region a set of circles is summarised by. */
  function Intersect(e: Earth, cs: seq<Circle>): Circle {
    if cs == [] then Circle(Point(0.0, 0.0), 0.0)
    else if |cs| == 1 then cs[0]
    else
      var kept := Kept(e, cs);
      if kept == [] then Circle(Point(0.0, 0.0), 0.0)
      else Circle(Centroid(kept), Farthest(e, Centroid(kept), kept))
  }

  method FindSmallest(circles: seq<Circle>) returns (smallest: Circle)
    requires circles != []
    ensures smallest == Smallest(circles)
  {
    smallest := circles[0];
    for i := 1 to |circles|
      invariant smallest == Smallest(circles[..i])
    {
      assert circles[..i + 1][..i] == circles[..i];
      if circles[i].radius < smallest.radius {
        smallest := circles[i];
      }
    }
    assert circles[..|circles|] == circles;
  }

  /** The inner loop over the circles, left at the first one that excludes the point. */
  method InsideEvery(e: Earth, circles: seq<Circle>, p: Point) returns (allInside: bool)
    ensures allInside <==> InAll(e, circles, p)
  {
    allInside := true;
    for i := 0 to |circles|
      invariant allInside && forall k :: 0 <= k < i ==> Contains(e, circles[k], p)
    {
      if e.dist(p, circles[i].centre) > circles[i].radius {
        assert circles[i] in circles && !Contains(e, circles[i], p);
        return false;
      }
    }
  }

  method SampleGrid(e: Earth, circles: seq<Circle>, smallest: Circle) returns (inside: seq<Point>)
    requires circles != [] && smallest == Smallest(circles)
    ensures inside == Kept(e, circles)
  {
    hide Smallest, FirstSmallest, InAll, KeptBefore, Cell;
    NothingKeptYet(e, circles);
    var latDelta := smallest.radius / 111.0;
    var lonDelta := e.lonHalf(smallest);
    var minLat, maxLat := smallest.centre.lat - latDelta, smallest.centre.lat + latDelta;
    var minLon, maxLon := smallest.centre.lon - lonDelta, smallest.centre.lon + lonDelta;
    var latStep, lonStep := (maxLat - minLat) / 100.0, (maxLon - minLon) / 100.0;
    inside := [];
    for i := 0 to 101
      invariant inside == KeptBefore(e, circles, 101 * i)
    {
      for j := 0 to 101
        invariant inside == KeptBefore(e, circles, 101 * i + j)
      {
        var p := Point(minLat + i as real * latStep, minLon + j as real * lonStep);
        assert p == GridPoint(e, smallest, i, j);
        KeptStep(e, circles, i, j);
        var allInside := InsideEvery(e, circles, p);
        if allInside {
          inside := inside + [p];
        }
      }
    }
  }

  method Summarise(e: Earth, inside: seq<Point>) returns (region: Circle)
    requires inside != []
    ensures region == Circle(Centroid(inside), Farthest(e, Centroid(inside), inside))
  {
    var sumLat, sumLon := 0.0, 0.0;
    for i := 0 to |inside|
      invariant sumLat == Sum(inside[..i], Lat()) && sumLon == Sum(inside[..i], Lon())
    {
      assert inside[..i + 1][..i] == inside[..i];
      sumLat := sumLat + inside[i].lat;
      sumLon := sumLon + inside[i].lon;
    }
    assert inside[..|inside|] == inside;
    var centre := Point(sumLat / |inside| as real, sumLon / |inside| as real);
    var maxR := 0.0;
    for i := 0 to |inside|
      invariant maxR == Farthest(e, centre, inside[..i])
    {
      assert inside[..i + 1][..i] == inside[..i];
      var d := e.dist(centre, inside[i]);
      if d > maxR {
        maxR := d;
      }
    }
    region := Circle(centre, maxR);
  }

  method IntersectCircles(e: Earth, circles: seq<Circle>) returns (region: Circle)
    ensures region == Intersect(e, circles)
    ensures circles == [] || (|circles| > 1 && Kept(e, circles) == []) ==> region == Circle(Point(0.0, 0.0), 0.0)
  {
    if |circles| == 0 {
      return Circle(Point(0.0, 0.0), 0.0);
    }
    if |circles| == 1 {
      return Circle(circles[0].centre, circles[0].radius);
    }
    var smallest := FindSmallest(circles);
    var inside := SampleGrid(e, circles, smallest);
    if |inside| == 0 {
      return Circle(Point(0.0, 0.0), 0.0);
    }
    region := Summarise(e, inside);
  }
}
