/**
 Probe selection (internal/challenge/challenge.go): the nearest probe of every region first, in
 alphabetical order of region, then the nearest of the rest. The probe table is a parameter.
 */
module ProbeSelection {
  import opened Geometry
  import opened Sorting
  import opened Statistics

  datatype Probe = Probe(id: string, host: string, at: Point, port: int, region: string, distanceKm: real)

  predicate UniqueIds(ps: seq<Probe>) {
    forall i, j :: 0 <= i < j < |ps| ==> ps[i].id != ps[j].id
  }

  /** The probe with its distance from the estimated location filled in. */
  function Measured(e: Earth, est: Point, p: Probe): Probe {
    p.(distanceKm := e.dist(est, p.at))
  }

  function MeasuredAll(e: Earth, est: Point, known: seq<Probe>): seq<Probe> {
    seq(|known|, i requires 0 <= i < |known| => Measured(e, est, known[i]))
  }

  ghost function Regions(ps: seq<Probe>): set<string> {
    set p | p in ps :: p.region
  }

  function InRegion(ps: seq<Probe>, region: string): seq<Probe> {
    if ps == [] then [] else
    InRegion(ps[..|ps| - 1], region) + if ps[|ps| - 1].region == region then [ps[|ps| - 1]] else []
  }

  lemma {:induction false} InRegionMembers(ps: seq<Probe>, region: string)
    ensures forall p :: p in InRegion(ps, region) <==> p in ps && p.region == region
  {
    if ps != [] {
      InRegionMembers(ps[..|ps| - 1], region);
      assert forall p :: p in ps <==> p in ps[..|ps| - 1] || p == ps[|ps| - 1];
    }
  }

  /** The first of the nearest probes of a group. */
  ghost predicate FirstNearest(group: seq<Probe>, k: nat) {
    && k < |group|
    && (forall j :: 0 <= j < k ==> group[k].distanceKm < group[j].distanceKm)
    && (forall j :: k <= j < |group| ==> group[k].distanceKm <= group[j].distanceKm)
  }

  ghost predicate NearestOfRegion(measured: seq<Probe>, p: Probe) {
    exists k: nat :: FirstNearest(InRegion(measured, p.region), k) && InRegion(measured, p.region)[k] == p
  }

  lemma NearestIsLeast(measured: seq<Probe>, p: Probe)
    requires NearestOfRegion(measured, p)
    ensures p in measured
    ensures forall q :: q in measured && q.region == p.region ==> p.distanceKm <= q.distanceKm
  {
    InRegionMembers(measured, p.region);
    var k: nat :| FirstNearest(InRegion(measured, p.region), k) && InRegion(measured, p.region)[k] == p;
    assert InRegion(measured, p.region)[k] in InRegion(measured, p.region);
  }

  /** Nearest probes of the alphabetically first regions. */
  ghost predicate Heads(measured: seq<Probe>, heads: seq<Probe>) {
    && (forall i :: 0 <= i < |heads| ==> NearestOfRegion(measured, heads[i]))
    && (forall i, j :: 0 <= i < j < |heads| ==> Before(heads[i].region, heads[j].region))
    && (forall r, i :: r in Regions(measured) - Regions(heads) && 0 <= i < |heads| ==> Before(heads[i].region, r))
  }

  // --- Optimality -----------------------------------------------------------------------------

  function Distance(): Probe -> real { (p: Probe) => p.distanceKm }

  ghost function Elements(ps: seq<Probe>): set<Probe> {
    set p | p in ps
  }

  ghost function Total(s: set<Probe>): real {
    if s == {} then 0.0 else
    var p :| p in s;
    p.distanceKm + Total(s - {p})
  }

  lemma {:induction false} TotalWithout(s: set<Probe>, p: Probe)
    requires p in s
    ensures Total(s) == p.distanceKm + Total(s - {p})
    decreases |s|
  {
    var q :| q in s && Total(s) == q.distanceKm + Total(s - {q});
    if q != p {
      TotalWithout(s - {q}, p);
      TotalWithout(s - {p}, q);
      assert s - {q} - {p} == s - {p} - {q};
    }
  }

  ghost predicate CoversRegions(s: set<Probe>, regions: set<string>) {
    forall r :: r in regions ==> exists p :: p in s && p.region == r
  }

  /** What each head is to the probes it was chosen from. */
  ghost predicate RegionLeaders(pool: set<Probe>, heads: seq<Probe>) {
    && (forall i :: 0 <= i < |heads| ==> heads[i] in pool)
    && (forall i, p :: 0 <= i < |heads| && p in pool && p.region == heads[i].region ==>
                         heads[i].distanceKm <= p.distanceKm)
    && (forall i, j :: 0 <= i < j < |heads| ==> heads[i].region != heads[j].region)
  }

  lemma SwapIn(pool: set<Probe>, heads: seq<Probe>, u: set<Probe>, h: Probe, p: Probe)
    returns (t: set<Probe>)
    requires u <= pool && h in pool && h !in u && p in u && p.region == h.region && h.distanceKm <= p.distanceKm
    requires CoversRegions(u, Regions(heads))
    ensures t == u - {p} + {h} && t <= pool && |t| == |u| && Total(t) <= Total(u) && CoversRegions(t, Regions(heads))
  {
    t := u - {p} + {h};
    TotalWithout(u, p);
    TotalWithout(t, h);
    assert t - {h} == u - {p};
    forall r | r in Regions(heads)
      ensures exists q :: q in t && q.region == r
    {
      var q :| q in u && q.region == r;
      if q == p {
        assert h in t && h.region == r;
      } else {
        assert q in t;
      }
    }
  }

  /** Any covering set can be changed, at no cost, into a covering set that holds the first `n` heads. */
  lemma {:induction false} Exchange(pool: set<Probe>, heads: seq<Probe>, s: set<Probe>, n: nat) returns (t: set<Probe>)
    requires n <= |heads| && RegionLeaders(pool, heads) && s <= pool && CoversRegions(s, Regions(heads))
    ensures t <= pool && |t| == |s| && Total(t) <= Total(s) && CoversRegions(t, Regions(heads))
    ensures forall i :: 0 <= i < n ==> heads[i] in t
  {
    if n == 0 {
      t := s;
    } else {
      var u := Exchange(pool, heads, s, n - 1);
      var h := heads[n - 1];
      if h in u {
        t := u;
      } else {
        assert h.region in Regions(heads);
        var p :| p in u && p.region == h.region;
        t := SwapIn(pool, heads, u, h, p);
      }
    }
  }

  lemma ElementsSnoc(ps: seq<Probe>)
    requires ps != []
    ensures Elements(ps) == Elements(ps[..|ps| - 1]) + {ps[|ps| - 1]}
  {
    assert forall p :: p in ps <==> p in ps[..|ps| - 1] || p == ps[|ps| - 1];
  }

  lemma ElementsGone(t: set<Probe>, heads: seq<Probe>)
    requires heads != [] && heads[|heads| - 1] in t && heads[|heads| - 1] !in heads[..|heads| - 1]
    ensures var init, last := heads[..|heads| - 1], heads[|heads| - 1];
            last in t - Elements(init) && t - Elements(heads) == t - Elements(init) - {last}
  {
    ElementsSnoc(heads);
  }

  lemma {:induction false} TotalSplit(t: set<Probe>, heads: seq<Probe>)
    requires forall i :: 0 <= i < |heads| ==> heads[i] in t
    requires forall i, j :: 0 <= i < j < |heads| ==> heads[i] != heads[j]
    ensures Total(t) == Sum(heads, Distance()) + Total(t - Elements(heads))
    ensures |t - Elements(heads)| == |t| - |heads|
  {
    hide Total;
    if heads == [] {
      assert t - Elements(heads) == t;
    } else {
      hide Elements;
      var init, last := heads[..|heads| - 1], heads[|heads| - 1];
      TotalSplit(t, init);
      ElementsGone(t, heads);
      TotalWithout(t - Elements(init), last);
    }
  }

  ghost predicate ByDistance(ps: seq<Probe>) {
    forall i, j :: 0 <= i < j < |ps| ==> ps[i].distanceKm <= ps[j].distanceKm
  }

  lemma FirstOfSlice(rest: seq<Probe>, k: nat)
    requires 0 < k <= |rest|
    ensures Sum(rest[..k], Distance()) == rest[0].distanceKm + Sum(rest[1..][..k - 1], Distance())
  {
    assert rest[..k] == [rest[0]] + rest[1..][..k - 1];
    SumConcat([rest[0]], rest[1..][..k - 1], Distance());
    assert Sum([rest[0]], Distance()) == rest[0].distanceKm;
  }

  lemma DropOne(rest: seq<Probe>, f: set<Probe>) returns (y: Probe)
    requires ByDistance(rest) && f <= Elements(rest) && f != {}
    ensures y in f && rest != [] && rest[0].distanceKm <= y.distanceKm && f - {y} <= Elements(rest[1..])
    ensures ByDistance(rest[1..])
  {
    var some :| some in f;
    y := if rest[0] in f then rest[0] else some;
    assert y in rest;
    forall p | p in f - {y}
      ensures p in rest[1..]
    {
      assert p in rest && p != rest[0];
    }
  }

  lemma EmptyTotals()
    ensures Sum([], Distance()) == 0.0 && Total({}) == 0.0
  {
  }

  /** No `k` of the sorted probes have a smaller total than the first `k`. */
  lemma {:induction false} FirstAreLeast(rest: seq<Probe>, f: set<Probe>)
    requires ByDistance(rest) && f <= Elements(rest)
    ensures |f| <= |rest| && Sum(rest[..|f|], Distance()) <= Total(f)
    decreases |rest|
  {
    hide ByDistance, Elements, Sum, Total;
    if f == {} {
      assert rest[..0] == [];
      EmptyTotals();
    } else {
      var y := DropOne(rest, f);
      assert |f - {y}| == |f| - 1;
      FirstAreLeast(rest[1..], f - {y});
      TotalWithout(f, y);
      FirstOfSlice(rest, |f|);
    }
  }

  /** No other choice of as many elements of `pool` has a smaller total. */
  ghost predicate Cheapest(pool: set<Probe>, picked: seq<Probe>) {
    && (forall p :: p in picked ==> p in pool)
    && (forall i, j :: 0 <= i < j < |picked| ==> picked[i] != picked[j])
    && (forall f: set<Probe> :: f <= pool && |f| == |picked| ==> Sum(picked, Distance()) <= Total(f))
  }

  /** Heads first, then the cheapest of everything else, is the cheapest covering choice of its size. */
  lemma GreedyIsLeast(pool: set<Probe>, heads: seq<Probe>, picked: seq<Probe>, s: set<Probe>)
    requires RegionLeaders(pool, heads) && Cheapest(pool - Elements(heads), picked)
    requires s <= pool && |s| == |heads| + |picked| && CoversRegions(s, Regions(heads))
    ensures Sum(heads + picked, Distance()) <= Total(s)
  {
    hide Total, Sum, CoversRegions, Elements;
    var t := Exchange(pool, heads, s, |heads|);
    forall i, j | 0 <= i < j < |heads|
      ensures heads[i] != heads[j]
    {
      assert heads[i].region != heads[j].region;
    }
    TotalSplit(t, heads);
    SumConcat(heads, picked, Distance());
  }

  /** A selection of `count` distinct probes that holds every region's nearest probe, at least total distance. */
  ghost predicate Optimal(measured: seq<Probe>, count: int, result: seq<Probe>) {
    && |result| == count && UniqueIds(result)
    && (forall p :: p in result ==> p in measured)
    && (forall r :: r in Regions(measured) ==> exists p :: p in result && p.region == r && NearestOfRegion(measured, p))
    && (forall s: set<Probe> :: s <= Elements(measured) && |s| == count && CoversRegions(s, Regions(measured)) ==>
                                  Sum(result, Distance()) <= Total(s))
  }

  // --- The selection itself -------------------------------------------------------------------

  /** Probes whose identifier is not selected yet, in table order. */
  function Unselected(ps: seq<Probe>, selected: set<string>): seq<Probe> {
    if ps == [] then [] else
    Unselected(ps[..|ps| - 1], selected) + if ps[|ps| - 1].id in selected then [] else [ps[|ps| - 1]]
  }

  ghost function Ids(ps: seq<Probe>): set<string> {
    set p | p in ps :: p.id
  }

  ghost predicate Rest(measured: seq<Probe>, heads: seq<Probe>, rest: seq<Probe>) {
    multiset(rest) == multiset(Unselected(measured, Ids(heads))) && ByDistance(rest)
  }

  lemma NoSuchRegion(ps: seq<Probe>, region: string)
    requires region !in Regions(ps)
    ensures InRegion(ps, region) == []
  {
    InRegionMembers(ps, region);
    assert InRegion(ps, region) != [] ==> InRegion(ps, region)[0] in InRegion(ps, region);
  }

  lemma RegionsGrow(ps: seq<Probe>, p: Probe)
    ensures Regions(ps + [p]) == Regions(ps) + {p.region}
  {
    assert forall q :: q in ps + [p] <==> q in ps || q == p;
  }

  method GroupByRegion(measured: seq<Probe>) returns (groups: map<string, seq<Probe>>)
    ensures groups.Keys == Regions(measured)
    ensures forall r :: r in groups ==> groups[r] == InRegion(measured, r)
  {
    groups := map[];
    for i := 0 to |measured|
      invariant groups.Keys == Regions(measured[..i])
      invariant forall r :: r in groups ==> groups[r] == InRegion(measured[..i], r)
    {
      var p := measured[i];
      assert measured[..i + 1][..i] == measured[..i];
      RegionsGrow(measured[..i], p);
      assert measured[..i + 1] == measured[..i] + [p];
      if p.region !in groups {
        NoSuchRegion(measured[..i], p.region);
      }
      groups := groups[p.region := (if p.region in groups then groups[p.region] else []) + [p]];
    }
    assert measured[..|measured|] == measured;
  }

  lemma DistinctEntries<T>(s: seq<T>, elems: set<T>, i: nat, j: nat)
    requires multiset(s) == multiset(elems) && i < j < |s|
    ensures s[i] != s[j]
  {
    assert s == s[..i] + [s[i]] + s[i + 1..j] + [s[j]] + s[j + 1..];
    assert multiset(s)[s[i]] <= 1;
  }

  method SortedRegions(groups: map<string, seq<Probe>>) returns (regions: seq<string>)
    ensures multiset(regions) == multiset(groups.Keys)
    ensures forall i, j :: 0 <= i < j < |regions| ==> Before(regions[i], regions[j])
  {
    regions := [];
    var keys := groups.Keys;
    while keys != {}
      invariant keys <= groups.Keys
      invariant multiset(regions) == multiset(groups.Keys - keys)
    {
      var r :| r in keys;
      regions := regions + [r];
      assert groups.Keys - (keys - {r}) == (groups.Keys - keys) + {r};
      keys := keys - {r};
    }
    assert groups.Keys - {} == groups.Keys;
    BeforeIsStrictWeak(regions);
    regions := SortSlice(regions, Before);
    forall i, j | 0 <= i < j < |regions|
      ensures Before(regions[i], regions[j])
    {
      DistinctEntries(regions, groups.Keys, i, j);
      BeforeTotal(regions[i], regions[j]);
    }
  }

  method NearestIn(group: seq<Probe>) returns (bestIdx: nat)
    requires group != []
    ensures FirstNearest(group, bestIdx)
  {
    bestIdx := 0;
    for i := 0 to |group|
      invariant bestIdx < |group|
      invariant forall j :: 0 <= j < bestIdx ==> group[bestIdx].distanceKm < group[j].distanceKm
      invariant forall j :: bestIdx <= j < i ==> group[bestIdx].distanceKm <= group[j].distanceKm
    {
      if group[i].distanceKm < group[bestIdx].distanceKm {
        bestIdx := i;
      }
    }
  }

  function Min(x: int, y: int): int {
    if x < y then x else y
  }

  function Max(x: int, y: int): int {
    if x < y then y else x
  }

  lemma SameKeys(s: seq<string>, keys: set<string>)
    requires multiset(s) == multiset(keys)
    ensures |s| == |keys|
    ensures forall r :: r in s <==> r in keys
  {
    assert forall r :: r in s <==> r in multiset(s);
    assert |multiset(s)| == |s| && |multiset(keys)| == |keys|;
  }

  method NearestOf(ghost measured: seq<Probe>, group: seq<Probe>, region: string) returns (p: Probe)
    requires group == InRegion(measured, region) && region in Regions(measured)
    ensures p.region == region && NearestOfRegion(measured, p)
  {
    InRegionMembers(measured, region);
    assert exists q :: q in measured && q.region == region;
    var k := NearestIn(group);
    p := group[k];
    assert p in group;
  }

  lemma IdsGrow(ps: seq<Probe>, p: Probe)
    ensures Ids(ps + [p]) == Ids(ps) + {p.id}
  {
    assert forall q :: q in ps + [p] <==> q in ps || q == p;
  }

  method VisitRegions(ghost measured: seq<Probe>, groups: map<string, seq<Probe>>, regions: seq<string>, count: int)
    returns (result: seq<Probe>, selected: set<string>)
    requires groups.Keys == Regions(measured)
    requires forall r :: r in groups ==> groups[r] == InRegion(measured, r)
    requires forall r :: r in regions ==> r in groups
    ensures |result| == Min(|regions|, Max(1, count)) && selected == Ids(result)
    ensures forall i :: 0 <= i < |result| ==> result[i].region == regions[i] && NearestOfRegion(measured, result[i])
  {
    hide NearestOfRegion, InRegion;
    result, selected := [], {};
    for n := 0 to |regions|
      invariant |result| == n && (n > 0 ==> n < count)
      invariant forall i :: 0 <= i < n ==> result[i].region == regions[i] && NearestOfRegion(measured, result[i])
      invariant selected == Ids(result)
    {
      var region := regions[n];
      var p := NearestOf(measured, groups[region], region);
      IdsGrow(result, p);
      result := result + [p];
      selected := selected + {p.id};
      if |result| >= count {
        return;
      }
    }
  }

  lemma HeadsSoFar(measured: seq<Probe>, regions: seq<string>, result: seq<Probe>)
    requires forall r :: r in regions <==> r in Regions(measured)
    requires forall i, j :: 0 <= i < j < |regions| ==> Before(regions[i], regions[j])
    requires |result| <= |regions|
    requires forall i :: 0 <= i < |result| ==> result[i].region == regions[i] && NearestOfRegion(measured, result[i])
    ensures Heads(measured, result)
    ensures |result| == |regions| ==> Regions(result) == Regions(measured)
  {
    hide Before, NearestOfRegion;
    assert forall j :: 0 <= j < |result| ==> result[j].region in Regions(result) by {
      assert forall j :: 0 <= j < |result| ==> result[j] in result;
    }
    forall r, i | r in Regions(measured) - Regions(result) && 0 <= i < |result|
      ensures Before(result[i].region, r)
    {
      var j :| 0 <= j < |regions| && regions[j] == r;
    }
    if |result| == |regions| {
      forall r
        ensures r in Regions(result) <==> r in Regions(measured)
      {
        if r in regions {
          var j :| 0 <= j < |regions| && regions[j] == r;
          assert result[j] in result;
        }
      }
    }
  }

  /** One nearest probe per region, until `count` is reached; one even when `count` is not positive. */
  method PickHeads(measured: seq<Probe>, count: int) returns (result: seq<Probe>, selected: set<string>)
    ensures Heads(measured, result) && selected == Ids(result)
    ensures |result| == Min(|Regions(measured)|, Max(1, count))
    ensures |result| == |Regions(measured)| ==> Regions(result) == Regions(measured)
  {
    hide Before, Heads, Regions, NearestOfRegion;
    var groups := GroupByRegion(measured);
    var regions := SortedRegions(groups);
    SameKeys(regions, Regions(measured));
    result, selected := VisitRegions(measured, groups, regions, count);
    HeadsSoFar(measured, regions, result);
  }

  method CollectUnselected(measured: seq<Probe>, selected: set<string>) returns (remaining: seq<Probe>)
    ensures remaining == Unselected(measured, selected)
  {
    remaining := [];
    for i := 0 to |measured|
      invariant remaining == Unselected(measured[..i], selected)
    {
      assert measured[..i + 1][..i] == measured[..i];
      if measured[i].id !in selected {
        remaining := remaining + [measured[i]];
      }
    }
    assert measured[..|measured|] == measured;
  }

  method SortRemaining(remaining: seq<Probe>) returns (rest: seq<Probe>)
    ensures multiset(rest) == multiset(remaining) && ByDistance(rest)
  {
    var less := (a: Probe, b: Probe) => a.distanceKm < b.distanceKm;
    assert StrictWeakOn(less, remaining);
    rest := SortSlice(remaining, less);
    forall i, j | 0 <= i < j < |rest|
      ensures rest[i].distanceKm <= rest[j].distanceKm
    {
      assert !less(rest[j], rest[i]);
    }
  }

  lemma {:induction false} UnselectedMembers(ps: seq<Probe>, selected: set<string>)
    ensures forall p :: p in Unselected(ps, selected) <==> p in ps && p.id !in selected
  {
    if ps != [] {
      UnselectedMembers(ps[..|ps| - 1], selected);
      assert forall p :: p in ps <==> p in ps[..|ps| - 1] || p == ps[|ps| - 1];
    }
  }

  lemma {:induction false} UnselectedUnique(ps: seq<Probe>, selected: set<string>)
    requires UniqueIds(ps)
    ensures UniqueIds(Unselected(ps, selected))
  {
    if ps != [] {
      var init, last := ps[..|ps| - 1], ps[|ps| - 1];
      UnselectedUnique(init, selected);
      UnselectedMembers(init, selected);
      forall i | 0 <= i < |Unselected(init, selected)|
        ensures Unselected(init, selected)[i].id != last.id
      {
        assert Unselected(init, selected)[i] in init;
      }
    }
  }

  lemma {:induction false} UniqueMultiset(ps: seq<Probe>)
    requires UniqueIds(ps)
    ensures multiset(ps) == multiset(Elements(ps)) && |Elements(ps)| == |ps|
  {
    if ps != [] {
      var init, last := ps[..|ps| - 1], ps[|ps| - 1];
      UniqueMultiset(init);
      assert last !in init;
      assert ps == init + [last];
      assert Elements(ps) == Elements(init) + {last};
    }
  }

  // --- Putting it together --------------------------------------------------------------------

  lemma HeadsLead(measured: seq<Probe>, heads: seq<Probe>)
    requires Heads(measured, heads)
    ensures RegionLeaders(Elements(measured), heads)
  {
    hide Before, NearestOfRegion;
    forall i | 0 <= i < |heads|
      ensures heads[i] in measured
      ensures forall q :: q in measured && q.region == heads[i].region ==> heads[i].distanceKm <= q.distanceKm
    {
      NearestIsLeast(measured, heads[i]);
    }
    forall i, j | 0 <= i < j < |heads|
      ensures heads[i].region != heads[j].region
    {
      BeforeTotal(heads[i].region, heads[j].region);
    }
  }

  lemma SameIdSameProbe(measured: seq<Probe>, p: Probe, q: Probe)
    requires UniqueIds(measured) && p in measured && q in measured && p.id == q.id
    ensures p == q
  {
  }

  lemma RestIsComplement(measured: seq<Probe>, heads: seq<Probe>, rest: seq<Probe>)
    requires UniqueIds(measured) && Rest(measured, heads, rest) && forall p :: p in heads ==> p in measured
    ensures Elements(rest) == Elements(measured) - Elements(heads)
    ensures forall i, j :: 0 <= i < j < |rest| ==> rest[i] != rest[j]
  {
    var unselected := Unselected(measured, Ids(heads));
    SameElements(rest, unselected);
    UnselectedMembers(measured, Ids(heads));
    UnselectedUnique(measured, Ids(heads));
    UniqueMultiset(unselected);
    forall p | p in measured
      ensures p.id in Ids(heads) <==> p in heads
    {
      if q :| q in heads && q.id == p.id {
        SameIdSameProbe(measured, p, q);
      }
    }
    forall i, j | 0 <= i < j < |rest|
      ensures rest[i] != rest[j]
    {
      DistinctEntries(rest, Elements(unselected), i, j);
    }
  }

  lemma {:induction false} FewElements(ps: seq<Probe>)
    ensures |Elements(ps)| <= |ps|
  {
    if ps != [] {
      FewElements(ps[..|ps| - 1]);
      ElementsSnoc(ps);
    }
  }

  lemma SubsetSize<T>(a: set<T>, b: set<T>)
    requires a <= b
    ensures |a| <= |b|
  {
    assert b == a + (b - a);
  }

  lemma EnoughRest(measured: seq<Probe>, heads: seq<Probe>, rest: seq<Probe>)
    requires UniqueIds(measured) && Elements(rest) == Elements(measured) - Elements(heads)
    ensures |heads| + |rest| >= |measured|
  {
    UniqueMultiset(measured);
    FewElements(heads);
    FewElements(rest);
    assert Elements(measured) <= Elements(rest) + Elements(heads);
    SubsetSize(Elements(measured), Elements(rest) + Elements(heads));
  }

  lemma RestIsCheapest(measured: seq<Probe>, heads: seq<Probe>, rest: seq<Probe>, k: nat)
    requires UniqueIds(measured) && Rest(measured, heads, rest) && forall p :: p in heads ==> p in measured
    requires |heads| + k <= |measured|
    ensures k <= |rest| && Cheapest(Elements(measured) - Elements(heads), rest[..k])
  {
    RestIsComplement(measured, heads, rest);
    EnoughRest(measured, heads, rest);
    hide Total, Sum, ByDistance;
    forall p | p in rest[..k]
      ensures p in Elements(rest)
    {
    }
    forall f: set<Probe> | f <= Elements(rest) && |f| == k
      ensures Sum(rest[..k], Distance()) <= Total(f)
    {
      FirstAreLeast(rest, f);
    }
  }

  lemma NothingIsCheapest(pool: set<Probe>)
    ensures Cheapest(pool, [])
  {
  }

  lemma SelectedAreDistinct(measured: seq<Probe>, heads: seq<Probe>, picked: seq<Probe>)
    requires UniqueIds(measured) && RegionLeaders(Elements(measured), heads)
    requires Cheapest(Elements(measured) - Elements(heads), picked)
    ensures UniqueIds(heads + picked)
    ensures forall p :: p in heads + picked ==> p in measured
  {
    hide Total, Sum;
    var all := heads + picked;
    forall i | 0 <= i < |all|
      ensures all[i] in measured && (i >= |heads| ==> all[i] !in heads)
    {
      assert i >= |heads| ==> all[i] == picked[i - |heads|] && picked[i - |heads|] in picked;
    }
    forall i, j | 0 <= i < j < |all|
      ensures all[i].id != all[j].id
    {
      if all[i].id == all[j].id {
        SameIdSameProbe(measured, all[i], all[j]);
      }
    }
  }

  lemma SelectionIsOptimal(measured: seq<Probe>, heads: seq<Probe>, picked: seq<Probe>)
    requires UniqueIds(measured) && Heads(measured, heads) && Regions(heads) == Regions(measured)
    requires Cheapest(Elements(measured) - Elements(heads), picked)
    ensures Optimal(measured, |heads| + |picked|, heads + picked)
  {
    HeadsLead(measured, heads);
    SelectedAreDistinct(measured, heads, picked);
    hide Sum, Total, Before, NearestOfRegion, Cheapest;
    forall r | r in Regions(measured)
      ensures exists p :: p in heads + picked && p.region == r && NearestOfRegion(measured, p)
    {
      assert r in Regions(heads);
      var p :| p in heads && p.region == r;
      var i :| 0 <= i < |heads| && heads[i] == p;
      assert p in heads + picked;
    }
    forall s: set<Probe> | s <= Elements(measured) && |s| == |heads| + |picked| && CoversRegions(s, Regions(measured))
      ensures Sum(heads + picked, Distance()) <= Total(s)
    {
      GreedyIsLeast(Elements(measured), heads, picked, s);
    }
  }

  /** The nearest probes of the regions come first, in order of region, and then the others, nearest first. */
  ghost predicate HeadsFirst(measured: seq<Probe>, n: nat, result: seq<Probe>) {
    n <= |result| && Heads(measured, result[..n]) && ByDistance(result[n..])
  }

  lemma HeadsComeFirst(measured: seq<Probe>, heads: seq<Probe>, picked: seq<Probe>)
    requires Heads(measured, heads) && ByDistance(picked)
    ensures HeadsFirst(measured, |heads|, heads + picked)
  {
    hide Heads, ByDistance;
    assert (heads + picked)[..|heads|] == heads && (heads + picked)[|heads|..] == picked;
  }

  /**
   Everything when `count` allows it, the optimal choice when it allows one probe per region, else the
   nearest probes of the first regions.
   */
  ghost predicate IsSelection(e: Earth, est: Point, known: seq<Probe>, count: int, result: seq<Probe>) {
    var measured := MeasuredAll(e, est, known);
    if count >= |known| then result == measured
    else if count >= |Regions(measured)| then
      Optimal(measured, count, result) && HeadsFirst(measured, |Regions(measured)|, result)
    else Heads(measured, result) && |result| == Min(|Regions(measured)|, Max(1, count))
  }

  lemma HeadsAreKnown(measured: seq<Probe>, heads: seq<Probe>)
    requires Heads(measured, heads)
    ensures forall p :: p in heads ==> p in measured
  {
    hide Before, NearestOfRegion;
    forall i | 0 <= i < |heads|
      ensures heads[i] in measured
    {
      NearestIsLeast(measured, heads[i]);
    }
  }

  method MeasureAll(e: Earth, est: Point, known: seq<Probe>) returns (measured: seq<Probe>)
    requires UniqueIds(known)
    ensures measured == MeasuredAll(e, est, known) && UniqueIds(measured)
  {
    measured := [];
    for i := 0 to |known|
      invariant |measured| == i && forall k :: 0 <= k < i ==> measured[k] == Measured(e, est, known[k])
    {
      measured := measured + [known[i].(distanceKm := e.dist(est, known[i].at))];
    }
  }

  method SelectProbes(e: Earth, est: Point, known: seq<Probe>, count: int) returns (result: seq<Probe>)
    requires UniqueIds(known)
    ensures IsSelection(e, est, known, count, result)
  {
    hide Heads, Optimal, HeadsFirst, Regions;
    var measured := MeasureAll(e, est, known);
    if count >= |known| {
      return measured;
    }
    var heads, selected := PickHeads(measured, count);
    result := heads;
    HeadsAreKnown(measured, heads);
    if |result| < count {
      var remaining := CollectUnselected(measured, selected);
      var rest := SortRemaining(remaining);
      RestIsCheapest(measured, heads, rest, count - |heads|);
      SelectionIsOptimal(measured, heads, rest[..count - |heads|]);
      HeadsComeFirst(measured, heads, rest[..count - |heads|]);
      for i := 0 to |rest|
        invariant result == heads + rest[..i] && |result| <= count
      {
        if |result| >= count {
          break;
        }
        result := result + [rest[i]];
      }
      assert result == heads + rest[..count - |heads|];
    } else if |Regions(measured)| <= count {
      NothingIsCheapest(Elements(measured) - Elements(heads));
      SelectionIsOptimal(measured, heads, []);
      HeadsComeFirst(measured, heads, []);
      assert heads + [] == heads;
    }
  }

  // --- The selection in terms of the table and the distance alone -----------------------------

  /** How far a probe lies from the estimated location. */
  function From(e: Earth, est: Point): Probe -> real {
    (p: Probe) => e.dist(est, p.at)
  }

  /** Probe `i` of the table is the first of the nearest of its region. */
  ghost predicate NearestInTable(e: Earth, est: Point, known: seq<Probe>, i: nat) {
    && i < |known|
    && forall j :: 0 <= j < |known| && known[j].region == known[i].region ==>
                     && e.dist(est, known[i].at) <= e.dist(est, known[j].at)
                     && (j < i ==> e.dist(est, known[i].at) < e.dist(est, known[j].at))
  }

  /** The selected probe is probe `i` of the table, with its distance filled in. */
  predicate IsProbe(e: Earth, est: Point, known: seq<Probe>, i: nat, p: Probe) {
    i < |known| && p.distanceKm == e.dist(est, p.at) && known[i] == p.(distanceKm := known[i].distanceKm)
  }

  /** The selected probe is the nearest one of its region in the table, with its distance filled in. */
  ghost predicate IsNearest(e: Earth, est: Point, known: seq<Probe>, p: Probe) {
    exists i :: IsProbe(e, est, known, i, p) && NearestInTable(e, est, known, i)
  }

  lemma TableRegions(e: Earth, est: Point, known: seq<Probe>)
    ensures Regions(MeasuredAll(e, est, known)) == Regions(known)
  {
    var measured := MeasuredAll(e, est, known);
    forall r
      ensures r in Regions(measured) <==> r in Regions(known)
    {
      if r in Regions(measured) {
        var i :| 0 <= i < |measured| && measured[i].region == r;
        assert known[i] in known;
      }
      if r in Regions(known) {
        var i :| 0 <= i < |known| && known[i].region == r;
        assert measured[i] in measured;
      }
    }
  }

  lemma TableProbe(e: Earth, est: Point, known: seq<Probe>, p: Probe) returns (i: nat)
    requires p in MeasuredAll(e, est, known)
    ensures IsProbe(e, est, known, i, p)
  {
    i :| 0 <= i < |known| && MeasuredAll(e, est, known)[i] == p;
  }

  /** The places of a region's probes in the table, in order. */
  lemma {:induction false} RegionPlaces(ps: seq<Probe>, region: string) returns (places: seq<nat>)
    ensures |places| == |InRegion(ps, region)|
    ensures forall k :: 0 <= k < |places| ==> places[k] < |ps| && ps[places[k]] == InRegion(ps, region)[k]
    ensures forall k, l :: 0 <= k < l < |places| ==> places[k] < places[l]
    ensures forall j :: 0 <= j < |ps| && ps[j].region == region ==> j in places
  {
    if ps == [] {
      places := [];
    } else {
      places := RegionPlaces(ps[..|ps| - 1], region);
      if ps[|ps| - 1].region == region {
        places := places + [|ps| - 1];
      }
    }
  }

  lemma NearestOfRegionInTable(e: Earth, est: Point, known: seq<Probe>, p: Probe)
    requires NearestOfRegion(MeasuredAll(e, est, known), p)
    ensures IsNearest(e, est, known, p)
  {
    var measured := MeasuredAll(e, est, known);
    var group := InRegion(measured, p.region);
    var k: nat :| FirstNearest(group, k) && group[k] == p;
    var places := RegionPlaces(measured, p.region);
    var i := places[k];
    forall j | 0 <= j < |known| && known[j].region == known[i].region
      ensures e.dist(est, known[i].at) <= e.dist(est, known[j].at)
      ensures j < i ==> e.dist(est, known[i].at) < e.dist(est, known[j].at)
    {
      assert measured[j].region == p.region;
      var l :| 0 <= l < |places| && places[l] == j;
      assert group[l] == measured[j];
    }
    assert IsProbe(e, est, known, i, p) && NearestInTable(e, est, known, i);
  }

  lemma HeadsAreNearest(e: Earth, est: Point, known: seq<Probe>, heads: seq<Probe>)
    requires Heads(MeasuredAll(e, est, known), heads)
    ensures forall k :: 0 <= k < |heads| ==> IsNearest(e, est, known, heads[k])
    ensures forall k, l :: 0 <= k < l < |heads| ==> Before(heads[k].region, heads[l].region)
  {
    hide NearestOfRegion, IsNearest, Before, MeasuredAll;
    forall k | 0 <= k < |heads|
      ensures IsNearest(e, est, known, heads[k])
    {
      NearestOfRegionInTable(e, est, known, heads[k]);
    }
  }

  lemma {:induction false} SumOfDistances(e: Earth, est: Point, ps: seq<Probe>)
    ensures Sum(MeasuredAll(e, est, ps), Distance()) == Sum(ps, From(e, est))
  {
    if ps != [] {
      SumOfDistances(e, est, ps[..|ps| - 1]);
      assert MeasuredAll(e, est, ps)[..|ps| - 1] == MeasuredAll(e, est, ps[..|ps| - 1]);
    }
  }

  lemma TotalOfElements(ps: seq<Probe>)
    requires UniqueIds(ps)
    ensures |Elements(ps)| == |ps| && Total(Elements(ps)) == Sum(ps, Distance())
  {
    hide Sum;
    UniqueMultiset(ps);
    TotalSplit(Elements(ps), ps);
    assert Elements(ps) - Elements(ps) == {};
    EmptyTotals();
  }

  lemma {:induction false} SumOfSelected(e: Earth, est: Point, ps: seq<Probe>)
    requires forall p :: p in ps ==> p.distanceKm == e.dist(est, p.at)
    ensures Sum(ps, Distance()) == Sum(ps, From(e, est))
  {
    if ps != [] {
      SumOfSelected(e, est, ps[..|ps| - 1]);
    }
  }

  /** Whatever the count, the probes of the selection are probes of the table, at their true distances. */
  lemma SelectedFromTable(e: Earth, est: Point, known: seq<Probe>, count: int, result: seq<Probe>)
    requires IsSelection(e, est, known, count, result)
    ensures forall p :: p in result ==> exists i :: IsProbe(e, est, known, i, p)
  {
    var measured := MeasuredAll(e, est, known);
    if count < |known| && count < |Regions(measured)| {
      HeadsAreKnown(measured, result);
    }
    forall p | p in result
      ensures exists i :: IsProbe(e, est, known, i, p)
    {
      var i := TableProbe(e, est, known, p);
    }
  }

  /** With room for the whole table, the selection is the whole table in its order. */
  lemma AllAreSelected(e: Earth, est: Point, known: seq<Probe>, count: int, result: seq<Probe>)
    requires IsSelection(e, est, known, count, result) && count >= |known|
    ensures |result| == |known| && forall i :: 0 <= i < |known| ==> IsProbe(e, est, known, i, result[i])
  {
  }

  /** The middle case of the selection. */
  lemma CoveringCase(e: Earth, est: Point, known: seq<Probe>, count: int, result: seq<Probe>)
    requires IsSelection(e, est, known, count, result) && |Regions(known)| <= count < |known|
    ensures var measured := MeasuredAll(e, est, known);
            Optimal(measured, count, result) && HeadsFirst(measured, |Regions(known)|, result)
  {
    hide Optimal, HeadsFirst, Regions, Heads;
    TableRegions(e, est, known);
  }

  /** A choice of table probes, with their distances filled in. */
  lemma MeasuredChoice(e: Earth, est: Point, known: seq<Probe>, s: seq<Probe>)
    requires UniqueIds(s) && (forall p :: p in s ==> p in known) && Regions(s) == Regions(known)
    ensures var measured, chosen := MeasuredAll(e, est, known), Elements(MeasuredAll(e, est, s));
            && chosen <= Elements(measured) && |chosen| == |s| && CoversRegions(chosen, Regions(measured))
            && Total(chosen) == Sum(s, From(e, est))
  {
    var measured, chosen := MeasuredAll(e, est, known), MeasuredAll(e, est, s);
    forall p | p in chosen
      ensures p in measured
    {
      var k :| 0 <= k < |s| && chosen[k] == p;
      assert s[k] in known;
      var j :| 0 <= j < |known| && known[j] == s[k];
      assert measured[j] == p;
    }
    hide Sum, Total;
    TotalOfElements(chosen);
    SumOfDistances(e, est, s);
    TableRegions(e, est, known);
    TableRegions(e, est, s);
    forall r | r in Regions(measured)
      ensures exists p :: p in Elements(chosen) && p.region == r
    {
      assert r in Regions(chosen);
    }
  }

  /** No covering choice of as many probes of the table has a smaller sum of distances. */
  lemma LeastDistances(e: Earth, est: Point, known: seq<Probe>, count: int, result: seq<Probe>, s: seq<Probe>)
    requires IsSelection(e, est, known, count, result) && |Regions(known)| <= count < |known|
    requires UniqueIds(s) && |s| == count && (forall p :: p in s ==> p in known) && Regions(s) == Regions(known)
    ensures |result| == count && UniqueIds(result)
    ensures Sum(result, From(e, est)) <= Sum(s, From(e, est))
  {
    CoveringCase(e, est, known, count, result);
    SelectedFromTable(e, est, known, count, result);
    MeasuredChoice(e, est, known, s);
    hide Sum, Total, HeadsFirst, IsSelection, MeasuredAll, CoversRegions, Elements, Regions;
    SumOfSelected(e, est, result);
  }

  lemma NotAmongRegions(ps: seq<Probe>, region: string)
    requires forall i :: 0 <= i < |ps| ==> ps[i].region != region
    ensures region !in Regions(ps)
  {
  }

  lemma {:induction false} DistinctRegions(ps: seq<Probe>)
    requires forall i, j :: 0 <= i < j < |ps| ==> ps[i].region != ps[j].region
    ensures |Regions(ps)| == |ps|
  {
    if ps != [] {
      hide Regions;
      var init, last := ps[..|ps| - 1], ps[|ps| - 1];
      DistinctRegions(init);
      RegionsGrow(init, last);
      NotAmongRegions(init, last.region);
      assert ps == init + [last];
    }
  }

  lemma SameSize<T>(a: set<T>, b: set<T>)
    requires a <= b && |a| == |b|
    ensures a == b
  {
    assert b == a + (b - a);
  }

  /** As many heads as there are regions leave no region out. */
  lemma HeadsCover(measured: seq<Probe>, heads: seq<Probe>)
    requires Heads(measured, heads) && |heads| == |Regions(measured)|
    ensures Regions(heads) == Regions(measured)
  {
    hide Before, NearestOfRegion;
    HeadsLead(measured, heads);
    HeadsAreKnown(measured, heads);
    DistinctRegions(heads);
    SameSize(Regions(heads), Regions(measured));
  }

  lemma ReportedDistances(e: Earth, est: Point, known: seq<Probe>, count: int, result: seq<Probe>)
    requires IsSelection(e, est, known, count, result)
    ensures forall p :: p in result ==> p.distanceKm == e.dist(est, p.at)
  {
    SelectedFromTable(e, est, known, count, result);
    hide IsSelection;
    forall p | p in result
      ensures p.distanceKm == e.dist(est, p.at)
    {
      var i :| IsProbe(e, est, known, i, p);
    }
  }

  lemma TailInOrder(e: Earth, est: Point, result: seq<Probe>, n: nat)
    requires n <= |result| && ByDistance(result[n..]) && forall p :: p in result ==> p.distanceKm == e.dist(est, p.at)
    ensures forall k, l :: n <= k < l < |result| ==> e.dist(est, result[k].at) <= e.dist(est, result[l].at)
  {
    forall k, l | n <= k < l < |result|
      ensures e.dist(est, result[k].at) <= e.dist(est, result[l].at)
    {
      assert result[n..][k - n] == result[k] && result[n..][l - n] == result[l];
      assert result[k] in result && result[l] in result;
    }
  }

  lemma OthersInOrder(e: Earth, est: Point, known: seq<Probe>, count: int, result: seq<Probe>)
    requires IsSelection(e, est, known, count, result) && |Regions(known)| <= count < |known|
    ensures |result| == count
    ensures forall k, l :: |Regions(known)| <= k < l < count ==>
                             e.dist(est, result[k].at) <= e.dist(est, result[l].at)
  {
    CoveringCase(e, est, known, count, result);
    ReportedDistances(e, est, known, count, result);
    hide IsSelection, Regions, MeasuredAll, Heads, ByDistance;
    TailInOrder(e, est, result, |Regions(known)|);
  }

  /** Every region's nearest probe is selected, in order of region, and then the others, nearest first. */
  lemma NearestAreSelected(e: Earth, est: Point, known: seq<Probe>, count: int, result: seq<Probe>)
    requires IsSelection(e, est, known, count, result) && |Regions(known)| <= count < |known|
    ensures var n := |Regions(known)|;
            && |result| == count && Regions(result[..n]) == Regions(known)
            && (forall k :: 0 <= k < n ==> IsNearest(e, est, known, result[k]))
            && (forall k, l :: 0 <= k < l < n ==> Before(result[k].region, result[l].region))
            && (forall k, l :: n <= k < l < count ==> e.dist(est, result[k].at) <= e.dist(est, result[l].at))
  {
    var measured, n := MeasuredAll(e, est, known), |Regions(known)|;
    CoveringCase(e, est, known, count, result);
    TableRegions(e, est, known);
    hide IsSelection, Regions, MeasuredAll, Heads, Before, IsNearest;
    var heads := result[..n];
    HeadsCover(measured, heads);
    HeadsAreNearest(e, est, known, heads);
    assert forall k :: 0 <= k < n ==> heads[k] == result[k];
    OthersInOrder(e, est, known, count, result);
  }

  /** With fewer slots than regions, one slot at least: the nearest probes of the alphabetically first regions. */
  lemma FirstRegionsAreSelected(e: Earth, est: Point, known: seq<Probe>, count: int, result: seq<Probe>)
    requires IsSelection(e, est, known, count, result) && count < |known| && count < |Regions(known)|
    ensures |result| == if known == [] then 0 else if count < 1 then 1 else count
    ensures forall k :: 0 <= k < |result| ==> IsNearest(e, est, known, result[k])
    ensures forall k, l :: 0 <= k < l < |result| ==> Before(result[k].region, result[l].region)
    ensures forall r, k :: r in Regions(known) - Regions(result) && 0 <= k < |result| ==> Before(result[k].region, r)
  {
    TableRegions(e, est, known);
    assert known == [] || known[0].region in Regions(known);
    HeadsAreNearest(e, est, known, result);
  }
}
