/**
 How finely the 101 by 101 grid samples: how much room a shared location needs so that the grid cannot
 miss it, and when the region around the kept points has radius 0.
 */
module Sampling {
  import opened Engine
  import opened Exclusions
  import opened Geometry
  import opened Intersection
  import opened Statistics
  import opened Verdicts
  import opened Wrappers

  // --- One kept location, or more -------------------------------------------------------------

  /** Different locations are apart. */
  ghost predicate Separating(e: Earth) {
    forall p, q :: p != q ==> e.dist(p, q) > 0.0
  }

  /** The region has radius 0 exactly when no two different locations are kept. */
  lemma ZeroRadiusIff(e: Earth, cs: seq<Circle>)
    requires Pseudometric(e) && Separating(e) && |cs| > 1
    ensures Intersect(e, cs).radius == 0.0 <==> forall p, q :: p in Kept(e, cs) && q in Kept(e, cs) ==> p == q
  {
    hide Kept, Intersect;
    ZeroRadius(e, cs);
    var kept := Kept(e, cs);
    if kept != [] && forall p, q :: p in kept && q in kept ==> p == q {
      var only := kept[0];
      assert only in kept;
      MeanWithin(kept, Lat(), only.lat, only.lat);
      MeanWithin(kept, Lon(), only.lon, only.lon);
      assert Centroid(kept) == only;
    }
  }

  lemma FlatEarthSeparates()
    ensures Separating(FLAT_EARTH)
  {
  }

  // --- The grid on FLAT_EARTH -----------------------------------------------------------------

  /** The distance between neighbouring grid lines, in degrees. */
  function GridStep(radius: real): real {
    radius / 5550.0
  }

  /** The length of `n` of them. */
  function Steps(n: int, s: real): real {
    n as real * s
  }

  lemma OneMoreGridStep(n: int, s: real)
    ensures Steps(n + 1, s) == Steps(n, s) + s
  {
  }

  lemma EvenSteps(x: real, i: int, d: real, s: real)
    requires d == 50.0 * s
    ensures GridLine(x - d, x + d, i) == x + Steps(i - 50, s)
  {
    assert ((x + d) - (x - d)) / 100.0 == s;
    assert Steps(i - 50, s) == (i as real - 50.0) * s == i as real * s - 50.0 * s;
  }

  lemma FlatGrid(c: Circle, i: int, j: int)
    ensures var s := GridStep(c.radius);
            GridPoint(FLAT_EARTH, c, i, j) == Point(c.centre.lat + Steps(i - 50, s), c.centre.lon + Steps(j - 50, s))
  {
    var d, s := c.radius / 111.0, GridStep(c.radius);
    assert d == 50.0 * s;
    hide Steps, GridStep, GridLine;
    EvenSteps(c.centre.lat, i, d, s);
    EvenSteps(c.centre.lon, j, d, s);
  }

  lemma NoSteps(s: real)
    ensures Steps(0, s) == 0.0 && Steps(1, s) == s
  {
  }

  lemma StepsAreMonotone(m: int, n: int, s: real)
    requires m <= n && s >= 0.0
    ensures Steps(m, s) <= Steps(n, s)
  {
    NonNegativeProduct((n - m) as real, s);
    assert (n - m) as real * s == n as real * s - m as real * s;
  }

  /** Two far circles that share exactly the locations within `111 h` of `q`. */
  function Lens(q: Point, h: real, far: real): seq<Circle> {
    [Circle(Point(q.lat + far, q.lon), 111.0 * (far + h)), Circle(Point(q.lat - far, q.lon), 111.0 * (far + h))]
  }

  lemma LensIff(q: Point, h: real, far: real, p: Point)
    requires far >= 0.0
    ensures InAll(FLAT_EARTH, Lens(q, h, far), p) <==> FLAT_EARTH.dist(p, q) <= 111.0 * h
  {
    var cs := Lens(q, h, far);
    assert cs[0] in cs && cs[1] in cs;
    assert forall c :: c in cs ==> c == cs[0] || c == cs[1];
  }

  // --- Room enough ----------------------------------------------------------------------------

  /** The location lies inside every circle with room to spare. */
  ghost predicate HasRoom(e: Earth, cs: seq<Circle>, p: Point, room: real) {
    forall c :: c in cs ==> e.dist(p, c.centre) + room <= c.radius
  }

  lemma RoomReaches(e: Earth, cs: seq<Circle>, p: Point, room: real, g: Point)
    requires Pseudometric(e) && HasRoom(e, cs, p, room) && e.dist(g, p) <= room
    ensures InAll(e, cs, g)
  {
    forall c | c in cs
      ensures Contains(e, c, g)
    {
      assert e.dist(g, c.centre) <= e.dist(g, p) + e.dist(p, c.centre);
    }
  }

  lemma StepsBelow(x: real, n: int, s: real)
    requires s > 0.0 && n == (x / s).Floor
    ensures Steps(n, s) <= x <= Steps(n, s) + s
  {
    var t, k := x / s, n as real;
    assert t * s == x;
    NonNegativeProduct(t - k, s);
    NonNegativeProduct(k + 1.0 - t, s);
    assert (t - k) * s == t * s - k * s && (k + 1.0 - t) * s == k * s + s - t * s;
  }

  /** The grid lines next to a coordinate at most 49 steps from the middle of the grid. */
  lemma Bracket(x: real, s: real) returns (i: int)
    requires s > 0.0 && -49.0 * s <= x <= 49.0 * s
    ensures 0 <= i < 100 && Steps(i - 50, s) <= x <= Steps(i - 50, s) + s
  {
    hide Steps;
    DivideBounds(x, s, -49.0, 49.0);
    i := (x / s).Floor + 50;
    StepsBelow(x, i - 50, s);
  }

  /** Of the corners of a grid cell around a location, two lie within one step of it. */
  lemma CornersNear(p: Point, a: Point, s: real) returns (g: Point, h: Point)
    requires a.lat <= p.lat <= a.lat + s && a.lon <= p.lon <= a.lon + s
    ensures g == a || g == Point(a.lat + s, a.lon + s)
    ensures h == Point(a.lat + s, a.lon) || h == Point(a.lat, a.lon + s)
    ensures FLAT_EARTH.dist(g, p) <= 111.0 * s && FLAT_EARTH.dist(h, p) <= 111.0 * s
  {
    var u, v := p.lat - a.lat, p.lon - a.lon;
    g := if u + v <= s then a else Point(a.lat + s, a.lon + s);
    h := if u <= v then Point(a.lat, a.lon + s) else Point(a.lat + s, a.lon);
  }

  ghost predicate OnGrid(e: Earth, box: Circle, p: Point) {
    exists i, j :: 0 <= i <= 100 && 0 <= j <= 100 && p == GridPoint(e, box, i, j)
  }

  /** The corners of the grid cell whose first one is number (i, j). */
  lemma CellCorners(box: Circle, i: int, j: int)
    requires 0 <= i < 100 && 0 <= j < 100
    ensures var s := GridStep(box.radius);
            var a := Point(box.centre.lat + Steps(i - 50, s), box.centre.lon + Steps(j - 50, s));
            && OnGrid(FLAT_EARTH, box, a) && OnGrid(FLAT_EARTH, box, Point(a.lat + s, a.lon + s))
            && OnGrid(FLAT_EARTH, box, Point(a.lat + s, a.lon)) && OnGrid(FLAT_EARTH, box, Point(a.lat, a.lon + s))
  {
    hide GridPoint, GridStep, Steps;
    FlatGrid(box, i, j);
    FlatGrid(box, i + 1, j);
    FlatGrid(box, i, j + 1);
    FlatGrid(box, i + 1, j + 1);
    OneMoreGridStep(i - 50, GridStep(box.radius));
    OneMoreGridStep(j - 50, GridStep(box.radius));
    assert i + 1 - 50 == i - 50 + 1 && j + 1 - 50 == j - 50 + 1;
  }

  lemma ClearOfEdge(box: Circle, p: Point)
    requires box.radius > 0.0 && FLAT_EARTH.dist(p, box.centre) + box.radius / 50.0 <= box.radius
    ensures var s := GridStep(box.radius);
            && s > 0.0 && 111.0 * s == box.radius / 50.0
            && -49.0 * s <= p.lat - box.centre.lat <= 49.0 * s && -49.0 * s <= p.lon - box.centre.lon <= 49.0 * s
  {
  }

  /** Two grid points within one step of any location that stays a step clear of the circle's edge. */
  lemma GridNear(box: Circle, p: Point) returns (g: Point, h: Point)
    requires box.radius > 0.0 && FLAT_EARTH.dist(p, box.centre) + box.radius / 50.0 <= box.radius
    ensures g != h && OnGrid(FLAT_EARTH, box, g) && OnGrid(FLAT_EARTH, box, h)
    ensures FLAT_EARTH.dist(g, p) <= box.radius / 50.0 && FLAT_EARTH.dist(h, p) <= box.radius / 50.0
  {
    var s := GridStep(box.radius);
    ClearOfEdge(box, p);
    var i := Bracket(p.lat - box.centre.lat, s);
    var j := Bracket(p.lon - box.centre.lon, s);
    hide GridPoint, GridStep, Steps, OnGrid, Gap;
    CellCorners(box, i, j);
    g, h := CornersNear(p, Point(box.centre.lat + Steps(i - 50, s), box.centre.lon + Steps(j - 50, s)), s);
  }

  /** A location with one grid step of room brings two kept points with it. */
  lemma RoomKeepsTwo(cs: seq<Circle>, p: Point) returns (g: Point, h: Point)
    requires cs != [] && Smallest(cs).radius > 0.0
    requires HasRoom(FLAT_EARTH, cs, p, Smallest(cs).radius / 50.0)
    ensures g != h && g in Kept(FLAT_EARTH, cs) && h in Kept(FLAT_EARTH, cs)
  {
    var box := Smallest(cs);
    assert box in cs;
    g, h := GridNear(box, p);
    hide Kept, Smallest, GridPoint, HasRoom, InAll, Gap;
    FlatEarthIsPseudometric();
    RoomReaches(FLAT_EARTH, cs, p, box.radius / 50.0, g);
    RoomReaches(FLAT_EARTH, cs, p, box.radius / 50.0, h);
    KeptIff(FLAT_EARTH, cs, g);
    KeptIff(FLAT_EARTH, cs, h);
  }

  /** With that room for a shared location, and that smallest radius, something is always kept. */
  ghost predicate RoomKeeps(e: Earth, least: real, room: real) {
    forall cs, p :: |cs| > 1 && Smallest(cs).radius == least && HasRoom(e, cs, p, room) ==> Kept(e, cs) != []
  }

  /** With that room, and that smallest radius, the region never collapses. */
  ghost predicate RoomGivesRegion(e: Earth, least: real, room: real) {
    forall cs, p :: |cs| > 1 && Smallest(cs).radius == least && HasRoom(e, cs, p, room) ==>
                      Intersect(e, cs).radius > 0.0
  }

  /** Circles that share a location half a grid step off the grid each way, with that room and no more. */
  function Pinhole(least: real, room: real): seq<Circle> {
    var s := GridStep(least);
    [Circle(Point(0.0, 0.0), least)] + Lens(Point(s / 2.0, s / 2.0), if room < 0.0 then 0.0 else room / 111.0, least)
  }

  lemma PinholeHasRoom(least: real, room: real)
    requires least > 0.0 && room < least / 50.0
    ensures var cs, s := Pinhole(least, room), GridStep(least);
            && Smallest(cs) == Circle(Point(0.0, 0.0), least)
            && HasRoom(FLAT_EARTH, cs, Point(s / 2.0, s / 2.0), room)
  {
    var cs := Pinhole(least, room);
    assert FirstSmallest(cs, 0);
    assert forall c :: c in cs ==> c == cs[0] || c == cs[1] || c == cs[2];
  }

  lemma OffHalfStep(m: int, s: real)
    requires s > 0.0
    ensures Gap(Steps(m, s), s / 2.0) >= s / 2.0
  {
    hide Steps;
    NoSteps(s);
    if m >= 1 {
      StepsAreMonotone(1, m, s);
    } else {
      StepsAreMonotone(m, 0, s);
    }
  }

  lemma OffPinhole(least: real, i: int, j: int)
    requires least > 0.0
    ensures var s := GridStep(least);
            var p := GridPoint(FLAT_EARTH, Circle(Point(0.0, 0.0), least), i, j);
            FLAT_EARTH.dist(p, Point(s / 2.0, s / 2.0)) >= least / 50.0
  {
    hide GridPoint, Steps, Gap;
    FlatGrid(Circle(Point(0.0, 0.0), least), i, j);
    OffHalfStep(i - 50, GridStep(least));
    OffHalfStep(j - 50, GridStep(least));
  }

  lemma PinholeKeepsNothing(least: real, room: real)
    requires least > 0.0 && room < least / 50.0
    ensures Kept(FLAT_EARTH, Pinhole(least, room)) == []
  {
    var cs, s := Pinhole(least, room), GridStep(least);
    var q, h := Point(s / 2.0, s / 2.0), if room < 0.0 then 0.0 else room / 111.0;
    PinholeHasRoom(least, room);
    assert forall c :: c in Lens(q, h, least) ==> c in cs;
    hide Kept, Smallest, GridPoint, GridStep, Gap, Contains, Pinhole, HasRoom, Lens;
    if Kept(FLAT_EARTH, cs) != [] {
      var p := Kept(FLAT_EARTH, cs)[0];
      KeptIff(FLAT_EARTH, cs, p);
      LensIff(q, h, least, p);
      var i, j :| 0 <= i <= 100 && 0 <= j <= 100 && p == GridPoint(FLAT_EARTH, Smallest(cs), i, j);
      OffPinhole(least, i, j);
    }
  }

  lemma RoomMakesRegion(cs: seq<Circle>, p: Point, room: real)
    requires |cs| > 1 && Smallest(cs).radius > 0.0 && room >= Smallest(cs).radius / 50.0
    requires HasRoom(FLAT_EARTH, cs, p, room)
    ensures Kept(FLAT_EARTH, cs) != [] && Intersect(FLAT_EARTH, cs).radius > 0.0
  {
    hide Kept, Smallest, Intersect;
    var g, h := RoomKeepsTwo(cs, p);
    FlatEarthIsPseudometric();
    FlatEarthSeparates();
    ZeroRadius(FLAT_EARTH, cs);
    ZeroRadiusIff(FLAT_EARTH, cs);
  }

  /**
   How much room a shared location needs: a fiftieth of the smallest radius, one grid step, always keeps a
   point and then always leaves a region; with any less the grid can miss the location altogether.
   */
  lemma RoomIff(least: real, room: real)
    requires least > 0.0
    ensures RoomKeeps(FLAT_EARTH, least, room) <==> room >= least / 50.0
    ensures RoomGivesRegion(FLAT_EARTH, least, room) <==> room >= least / 50.0
  {
    hide Kept, Smallest, Intersect;
    if room >= least / 50.0 {
      forall cs, p | |cs| > 1 && Smallest(cs).radius == least && HasRoom(FLAT_EARTH, cs, p, room)
        ensures Kept(FLAT_EARTH, cs) != [] && Intersect(FLAT_EARTH, cs).radius > 0.0
      {
        RoomMakesRegion(cs, p, room);
      }
    } else {
      PinholeHasRoom(least, room);
      PinholeKeepsNothing(least, room);
      FlatEarthIsPseudometric();
      ZeroRadius(FLAT_EARTH, Pinhole(least, room));
      assert |Pinhole(least, room)| == 3;
    }
  }

  /** So a submission whose circles share a location with that much room is not rejected. */
  lemma RoomNotRejected(
    refs: seq<ReferenceRegion>, ds: Option<Querier>, ms: seq<Measurement>, v: Verdict, p: Point)
    requires IsVerdict(FLAT_EARTH, refs, ds, ms, v)
    requires ms != [] && Smallest(Circles(ms)).radius > 0.0
    requires HasRoom(FLAT_EARTH, Circles(ms), p, Smallest(Circles(ms)).radius / 50.0)
    ensures v.status != Rejected
  {
    hide IsVerdict, Intersect, Smallest, HasRoom, Kept;
    FlatEarthIsPseudometric();
    RejectedMeans(FLAT_EARTH, refs, ds, ms, v);
    if |ms| > 1 {
      RoomMakesRegion(Circles(ms), p, Smallest(Circles(ms)).radius / 50.0);
    }
  }
}
