/** Reference regions the circles rule out (internal/geo/geo.go). The region table is a parameter. */
module Exclusions {
  import opened Geometry
  import opened Sorting
  import opened Wrappers

  datatype ReferenceRegion = ReferenceRegion(name: string, at: Point)

  datatype Exclusion = Exclusion(region: string, confidence: real)

  /** How many of the circles leave `p` outside. */
  function OutsideCount(e: Earth, cs: seq<Circle>, p: Point): nat {
    if cs == [] then 0 else
    OutsideCount(e, cs[..|cs| - 1], p) + if Contains(e, cs[|cs| - 1], p) then 0 else 1
  }

  /** A region is excluded when at least half of the circles, and at least one, leave it outside. */
  function ExclusionOf(e: Earth, cs: seq<Circle>, ref: ReferenceRegion): Option<Exclusion> {
    var outside := OutsideCount(e, cs, ref.at);
    if outside > 0 && |cs| > 0 && outside as real / |cs| as real >= 0.5
    then Some(Exclusion(ref.name, outside as real / |cs| as real))
    else None
  }

  function ExclusionsOf(e: Earth, cs: seq<Circle>, refs: seq<ReferenceRegion>): seq<Exclusion> {
    if refs == [] then [] else
    ExclusionsOf(e, cs, refs[..|refs| - 1])
    + match ExclusionOf(e, cs, refs[|refs| - 1]) case Some(x) => [x] case None => []
  }

  lemma OutsideCountBounds(e: Earth, cs: seq<Circle>, p: Point)
    ensures OutsideCount(e, cs, p) <= |cs|
    ensures OutsideCount(e, cs, p) == 0 <==> InAll(e, cs, p)
  {
    if cs != [] {
      OutsideCountBounds(e, cs[..|cs| - 1], p);
      assert forall c :: c in cs <==> c in cs[..|cs| - 1] || c == cs[|cs| - 1];
    }
  }

  ghost predicate Descending(xs: seq<Exclusion>) {
    forall i, j :: 0 <= i < j < |xs| ==> xs[i].confidence >= xs[j].confidence
  }

  method CountOutside(e: Earth, circles: seq<Circle>, p: Point) returns (outsideCount: nat)
    ensures outsideCount == OutsideCount(e, circles, p)
  {
    outsideCount := 0;
    for i := 0 to |circles|
      invariant outsideCount == OutsideCount(e, circles[..i], p)
    {
      assert circles[..i + 1][..i] == circles[..i];
      if e.dist(p, circles[i].centre) > circles[i].radius {
        outsideCount := outsideCount + 1;
      }
    }
    assert circles[..|circles|] == circles;
  }

  method ComputeExclusions(e: Earth, refs: seq<ReferenceRegion>, circles: seq<Circle>)
    returns (exclusions: seq<Exclusion>)
    ensures multiset(exclusions) == multiset(ExclusionsOf(e, circles, refs))
    ensures Descending(exclusions)
  {
    exclusions := [];
    for i := 0 to |refs|
      invariant exclusions == ExclusionsOf(e, circles, refs[..i])
    {
      assert refs[..i + 1][..i] == refs[..i];
      var outsideCount := CountOutside(e, circles, refs[i].at);
      OutsideCountBounds(e, circles, refs[i].at);
      if outsideCount > 0 {
        var confidence := outsideCount as real / |circles| as real;
        if confidence >= 0.5 {
          exclusions := exclusions + [Exclusion(refs[i].name, confidence)];
        }
      }
    }
    assert refs[..|refs|] == refs;
    var less := (a: Exclusion, b: Exclusion) => a.confidence > b.confidence;
    assert StrictWeakOn(less, exclusions);
    exclusions := SortSlice(exclusions, less);
    forall i, j | 0 <= i < j < |exclusions|
      ensures exclusions[i].confidence >= exclusions[j].confidence
    {
      assert !less(exclusions[j], exclusions[i]);
    }
  }

  lemma AtLeastHalfReal(q: real, x: real, n: real)
    requires n > 0.0 && q * n == x
    ensures q >= 0.5 <==> 2.0 * x >= n
  {
    var d := q - 0.5;
    assert d * n == x - 0.5 * n;
  }

  lemma AtLeastHalf(x: nat, n: nat)
    requires n > 0
    ensures x as real / n as real >= 0.5 <==> 2 * x >= n
  {
    AtLeastHalfReal(x as real / n as real, x as real, n as real);
  }

  /** A region is excluded exactly when half the circles rule it out; so no excluded point lies in all of them. */
  lemma ExcludedMeansOutside(e: Earth, cs: seq<Circle>, ref: ReferenceRegion)
    ensures ExclusionOf(e, cs, ref).Some? ==> !InAll(e, cs, ref.at)
    ensures ExclusionOf(e, cs, ref).Some? <==> cs != [] && 2 * OutsideCount(e, cs, ref.at) >= |cs|
  {
    hide OutsideCount;
    OutsideCountBounds(e, cs, ref.at);
    if cs != [] {
      AtLeastHalf(OutsideCount(e, cs, ref.at), |cs|);
    }
  }

  /** The numbers of the circles that leave `p` outside. */
  ghost function Outsiders(e: Earth, cs: seq<Circle>, p: Point): set<nat> {
    set i: nat | i < |cs| && e.dist(p, cs[i].centre) > cs[i].radius
  }

  lemma {:induction false} OutsideCountIsSize(e: Earth, cs: seq<Circle>, p: Point)
    ensures OutsideCount(e, cs, p) == |Outsiders(e, cs, p)|
  {
    if cs != [] {
      var init, last := cs[..|cs| - 1], |cs| - 1;
      OutsideCountIsSize(e, init, p);
      assert Outsiders(e, cs, p)
          == Outsiders(e, init, p) + if e.dist(p, cs[last].centre) > cs[last].radius then {last} else {};
    }
  }

  /** What a region's exclusion must say: its name, and the share of circles that rule it out, at least a half. */
  ghost predicate RuledOut(e: Earth, cs: seq<Circle>, ref: ReferenceRegion, x: Exclusion) {
    var n := |Outsiders(e, cs, ref.at)|;
    cs != [] && 2 * n >= |cs| && x.region == ref.name && x.confidence * |cs| as real == n as real
  }

  lemma ShareIff(share: real, n: real, total: real)
    requires total > 0.0
    ensures share == n / total <==> share * total == n
  {
    var q := n / total;
    assert q * total == n;
    assert (share - q) * total == share * total - n;
  }

  lemma ExclusionIff(e: Earth, cs: seq<Circle>, ref: ReferenceRegion, x: Exclusion)
    ensures ExclusionOf(e, cs, ref) == Some(x) <==> RuledOut(e, cs, ref, x)
  {
    hide OutsideCount, Outsiders;
    ExcludedMeansOutside(e, cs, ref);
    OutsideCountIsSize(e, cs, ref.at);
    if cs != [] {
      ShareIff(x.confidence, OutsideCount(e, cs, ref.at) as real, |cs| as real);
    }
  }

  /** The exclusions are those of the reference regions that half the circles rule out, and no others. */
  lemma {:induction false} ExclusionsExactly(e: Earth, cs: seq<Circle>, refs: seq<ReferenceRegion>, x: Exclusion)
    ensures x in ExclusionsOf(e, cs, refs) <==> exists ref :: ref in refs && RuledOut(e, cs, ref, x)
  {
    hide ExclusionOf, RuledOut;
    if refs != [] {
      var init, last := refs[..|refs| - 1], refs[|refs| - 1];
      ExclusionsExactly(e, cs, init, x);
      ExclusionIff(e, cs, last, x);
      assert forall ref :: ref in refs <==> ref in init || ref == last;
    }
  }
}
