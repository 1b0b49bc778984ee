/** The city-pair latency index and the best-matching city (internal/dataset/dataset.go). */
module Dataset {
  import opened Geometry
  import opened Medians
  import opened Sorting
  import opened Statistics
  import opened Wrappers

  datatype RttRange = RttRange(avgMs: real, minMs: real, maxMs: real)

  datatype RawEntry = RawEntry(src: string, dst: string, srcAt: Point, dstAt: Point, range: RttRange)

  datatype City = City(name: string, at: Point)

  datatype Dataset = Dataset(entries: map<string, RttRange>, cities: map<string, City>)

  /** The joined key of an unordered pair of names. */
  function PairKey(a: string, b: string): string {
    if Before(b, a) then b + "|" + a else a + "|" + b
  }

  function Lookup(entries: map<string, RttRange>, a: string, b: string): Option<RttRange> {
    if PairKey(a, b) in entries then Some(entries[PairKey(a, b)]) else None
  }

  predicate SamePair(a: string, b: string, c: string, d: string) {
    (a == c && b == d) || (a == d && b == c)
  }

  /** The last entry whose unordered pair of names is {a, b}. */
  function LastMatch(entries: seq<RawEntry>, a: string, b: string): Option<RttRange> {
    if entries == [] then None else
    var e := entries[|entries| - 1];
    if SamePair(e.src, e.dst, a, b) then Some(e.range) else LastMatch(entries[..|entries| - 1], a, b)
  }

  /** What inserting the entries one by one under their joined keys leaves behind. */
  function Index(entries: seq<RawEntry>): map<string, RttRange> {
    if entries == [] then map[] else
    var e := entries[|entries| - 1];
    Index(entries[..|entries| - 1])[PairKey(e.src, e.dst) := e.range]
  }

  function NoteCity(cities: map<string, City>, name: string, at: Point, always: bool): map<string, City> {
    if always || at != Point(0.0, 0.0) then cities[name := City(name, at)] else cities
  }

  function CitiesOf(entries: seq<RawEntry>, always: bool): map<string, City> {
    if entries == [] then map[] else
    var e := entries[|entries| - 1];
    NoteCity(NoteCity(CitiesOf(entries[..|entries| - 1], always), e.src, e.srcAt, always), e.dst, e.dstAt, always)
  }

  /** Where the entry places the name, the destination last; coordinates (0, 0) count only when `always` is set. */
  function PlacedBy(e: RawEntry, name: string, always: bool): Option<Point> {
    if e.dst == name && (always || e.dstAt != Point(0.0, 0.0)) then Some(e.dstAt)
    else if e.src == name && (always || e.srcAt != Point(0.0, 0.0)) then Some(e.srcAt)
    else None
  }

  /** Entry `i` places the name at `at`, and no later entry places it. */
  ghost predicate LastPlaced(entries: seq<RawEntry>, name: string, always: bool, i: nat, at: Point) {
    && i < |entries| && PlacedBy(entries[i], name, always) == Some(at)
    && forall k :: i < k < |entries| ==> PlacedBy(entries[k], name, always) == None
  }

  /** A city is known exactly when some entry places it, under its own name and where the last such entry does. */
  lemma {:induction false} CityIsLastPlaced(entries: seq<RawEntry>, name: string, always: bool)
    ensures var cities := CitiesOf(entries, always);
            && (name in cities ==> exists i: nat :: LastPlaced(entries, name, always, i, cities[name].at)
                                                    && cities[name].name == name)
            && (name !in cities ==> forall k :: 0 <= k < |entries| ==> PlacedBy(entries[k], name, always) == None)
  {
    if entries != [] {
      var init, last := entries[..|entries| - 1], |entries| - 1;
      CityIsLastPlaced(init, name, always);
      var cities := CitiesOf(entries, always);
      if PlacedBy(entries[last], name, always).Some? {
        assert LastPlaced(entries, name, always, last, cities[name].at);
      } else if name in cities {
        var i: nat :| LastPlaced(init, name, always, i, cities[name].at);
        assert LastPlaced(entries, name, always, i, cities[name].at);
      }
    }
  }

  method FromEntries(entries: seq<RawEntry>) returns (ds: Dataset)
    ensures ds == Dataset(Index(entries), CitiesOf(entries, false))
  {
    var index: map<string, RttRange>, cities: map<string, City> := map[], map[];
    for i := 0 to |entries|
      invariant index == Index(entries[..i]) && cities == CitiesOf(entries[..i], false)
    {
      var e := entries[i];
      assert entries[..i + 1][..i] == entries[..i];
      index := index[PairKey(e.src, e.dst) := e.range];
      if e.srcAt.lat != 0.0 || e.srcAt.lon != 0.0 {
        cities := cities[e.src := City(e.src, e.srcAt)];
      }
      if e.dstAt.lat != 0.0 || e.dstAt.lon != 0.0 {
        cities := cities[e.dst := City(e.dst, e.dstAt)];
      }
    }
    assert entries[..|entries|] == entries;
    ds := Dataset(index, cities);
  }

  // --- CSV rows -------------------------------------------------------------------------------

  /** Trimming of a field, and number parsing that yields 0 on malformed text. */
  datatype FieldReader = FieldReader(trim: string -> string, number: string -> real)

  function ReadRow(f: FieldReader, row: seq<string>): Option<RawEntry> {
    if |row| < 9 then None else
    var num := (i: int) requires 0 <= i < 9 => f.number(f.trim(row[i]));
    Some(RawEntry(f.trim(row[0]), f.trim(row[1]), Point(num(5), num(6)), Point(num(7), num(8)),
                  RttRange(num(2), num(3), num(4))))
  }

  /** What stands in which column: names, then average, least and most time, then both coordinates. */
  lemma RowColumns(
    f: FieldReader, src: string, dst: string, avg: string, least: string, most: string,
    srcLat: string, srcLon: string, dstLat: string, dstLon: string, more: seq<string>)
    ensures var num := (s: string) => f.number(f.trim(s));
            var (from, to) := (Point(num(srcLat), num(srcLon)), Point(num(dstLat), num(dstLon)));
            ReadRow(f, [src, dst, avg, least, most, srcLat, srcLon, dstLat, dstLon] + more)
            == Some(RawEntry(f.trim(src), f.trim(dst), from, to, RttRange(num(avg), num(least), num(most))))
  {
    var row := [src, dst, avg, least, most, srcLat, srcLon, dstLat, dstLon] + more;
    assert row[0] == src && row[1] == dst && row[2] == avg && row[3] == least && row[4] == most;
    assert row[5] == srcLat && row[6] == srcLon && row[7] == dstLat && row[8] == dstLon;
  }

  /** The entries of the rows that have all nine fields. */
  function ReadRows(f: FieldReader, rows: seq<seq<string>>): seq<RawEntry> {
    if rows == [] then [] else
    ReadRows(f, rows[..|rows| - 1])
    + match ReadRow(f, rows[|rows| - 1]) case Some(e) => [e] case None => []
  }

  lemma OneMoreRow(f: FieldReader, records: seq<seq<string>>, i: nat)
    requires 1 <= i < |records|
    ensures ReadRows(f, records[1..i + 1])
         == ReadRows(f, records[1..i]) + match ReadRow(f, records[i]) case Some(e) => [e] case None => []
  {
    assert records[1..i + 1][..i - 1] == records[1..i];
  }

  lemma OneMoreEntry(entries: seq<RawEntry>, e: RawEntry, always: bool)
    ensures Index(entries + [e]) == Index(entries)[PairKey(e.src, e.dst) := e.range]
    ensures CitiesOf(entries + [e], always)
         == NoteCity(NoteCity(CitiesOf(entries, always), e.src, e.srcAt, always), e.dst, e.dstAt, always)
  {
    assert (entries + [e])[..|entries|] == entries;
  }

  lemma NothingRead(f: FieldReader, always: bool)
    ensures ReadRows(f, []) == [] && Index([]) == map[] && CitiesOf([], always) == map[]
  {
  }

  /** Skips the header row and rows with missing fields. */
  method LoadRows(f: FieldReader, records: seq<seq<string>>) returns (ds: Dataset)
    ensures var entries := if records == [] then [] else ReadRows(f, records[1..]);
            ds == Dataset(Index(entries), CitiesOf(entries, true))
  {
    hide Index, CitiesOf, ReadRows, PairKey;
    NothingRead(f, true);
    var index: map<string, RttRange>, cities: map<string, City> := map[], map[];
    ghost var read: seq<RawEntry> := [];
    if records == [] {
      return Dataset(index, cities);
    }
    assert records[1..1] == [];
    for i := 1 to |records|
      invariant read == ReadRows(f, records[1..i])
      invariant index == Index(read) && cities == CitiesOf(read, true)
    {
      OneMoreRow(f, records, i);
      var row := ReadRow(f, records[i]);
      if row.None? {
        assert read + [] == read;
        continue;
      }
      hide ReadRow;
      var e := row.value;
      OneMoreEntry(read, e, true);
      index := index[PairKey(e.src, e.dst) := e.range];
      cities := cities[e.src := City(e.src, e.srcAt)][e.dst := City(e.dst, e.dstAt)];
      read := read + [e];
    }
    assert records[1..|records|] == records[1..];
    ds := Dataset(index, cities);
  }

  // --- The index agrees with the scan ---------------------------------------------------------

  lemma PairKeySymmetric(a: string, b: string)
    ensures PairKey(a, b) == PairKey(b, a)
  {
    BeforeTotal(a, b);
  }

  function First(a: string, b: string): string {
    if Before(b, a) then b else a
  }

  /** The joined key splits at a bar into two names in order in one way only. */
  ghost predicate Unambiguous(a: string, b: string) {
    var key := PairKey(a, b);
    forall i :: 0 <= i < |key| && key[i] == '|' && !Before(key[i + 1..], key[..i]) ==> i == |First(a, b)|
  }

  /** Names without a bar are never ambiguous. */
  lemma NoBarIsUnambiguous(a: string, b: string)
    requires '|' !in a && '|' !in b
    ensures Unambiguous(a, b)
  {
  }

  lemma KeySplitsBack(c: string, d: string)
    ensures var i, key := |First(c, d)|, PairKey(c, d);
            && i < |key| && key[i] == '|' && !Before(key[i + 1..], key[..i])
            && SamePair(key[..i], key[i + 1..], c, d)
  {
    var i, key := |First(c, d)|, PairKey(c, d);
    BeforeTotal(c, d);
    if Before(d, c) {
      assert key[..i] == d && key[i + 1..] == c;
    } else {
      assert key[..i] == c && key[i + 1..] == d;
    }
  }

  /** An unambiguous key is shared by no other pair. */
  lemma KeyDetermines(a: string, b: string, c: string, d: string)
    requires Unambiguous(a, b) && PairKey(c, d) == PairKey(a, b)
    ensures SamePair(a, b, c, d)
  {
    KeySplitsBack(a, b);
    KeySplitsBack(c, d);
  }

  lemma SamePairSameKey(a: string, b: string, c: string, d: string)
    requires SamePair(a, b, c, d)
    ensures PairKey(a, b) == PairKey(c, d)
  {
    PairKeySymmetric(c, d);
  }

  lemma {:induction false} LookupIsLastMatch(entries: seq<RawEntry>, a: string, b: string)
    requires Unambiguous(a, b)
    ensures Lookup(Index(entries), a, b) == LastMatch(entries, a, b)
  {
    hide Unambiguous, PairKey;
    if entries != [] {
      var e := entries[|entries| - 1];
      LookupIsLastMatch(entries[..|entries| - 1], a, b);
      if PairKey(e.src, e.dst) == PairKey(a, b) {
        KeyDetermines(a, b, e.src, e.dst);
      } else if SamePair(e.src, e.dst, a, b) {
        SamePairSameKey(e.src, e.dst, a, b);
      }
    }
  }

  lemma OneEntry(e: RawEntry, a: string, b: string)
    ensures Index([e]) == map[PairKey(e.src, e.dst) := e.range]
    ensures LastMatch([e], a, b) == if SamePair(e.src, e.dst, a, b) then Some(e.range) else None
  {
    assert [e][..0] == [];
    assert Index([]) == map[] && LastMatch([], a, b) == None;
  }

  lemma OtherSplitOtherPair(a: string, b: string, i: nat)
    requires var key := PairKey(a, b);
             i < |key| && key[i] == '|' && !Before(key[i + 1..], key[..i]) && i != |First(a, b)|
    ensures var key := PairKey(a, b); !SamePair(key[..i], key[i + 1..], a, b)
  {
    var key := PairKey(a, b);
    var c, d := key[..i], key[i + 1..];
    BeforeTotal(a, b);
    BeforeTotal(c, d);
  }

  /** The pair the other split stands for shadows {a, b}, which no entry mentions. */
  lemma ClashingEntry(a: string, b: string, i: nat) returns (entries: seq<RawEntry>)
    requires var key := PairKey(a, b);
             i < |key| && key[i] == '|' && !Before(key[i + 1..], key[..i]) && i != |First(a, b)|
    ensures Lookup(Index(entries), a, b) != LastMatch(entries, a, b)
  {
    var key := PairKey(a, b);
    var e := RawEntry(key[..i], key[i + 1..], Point(0.0, 0.0), Point(0.0, 0.0), RttRange(0.0, 0.0, 0.0));
    entries := [e];
    assert e.src + "|" + e.dst == key;
    OtherSplitOtherPair(a, b, i);
    hide Index, LastMatch;
    OneEntry(e, a, b);
  }

  /** The index answers like a last-wins scan, for every list of entries, exactly when the key is unambiguous. */
  lemma LookupAgreesIff(a: string, b: string)
    ensures Unambiguous(a, b) <==>
            forall entries: seq<RawEntry> :: Lookup(Index(entries), a, b) == LastMatch(entries, a, b)
  {
    if Unambiguous(a, b) {
      forall entries: seq<RawEntry>
        ensures Lookup(Index(entries), a, b) == LastMatch(entries, a, b)
      {
        LookupIsLastMatch(entries, a, b);
      }
    } else {
      var key := PairKey(a, b);
      var i :| 0 <= i < |key| && key[i] == '|' && !Before(key[i + 1..], key[..i]) && i != |First(a, b)|;
      var entries := ClashingEntry(a, b, i);
    }
  }

  // --- Best match -----------------------------------------------------------------------------

  /** The comparison treats mean errors closer than this as tied. */
  const TIE_BAND := 0.01

  datatype Scored = Scored(city: City, err: real, count: nat)

  /** The normalised error of one measurement against a candidate city, when the index has data for it. */
  function ErrorOf(ds: Dataset, probeToCity: map<string, string>, candidate: string, m: Measurement): Option<real> {
    if m.probeId !in probeToCity then None else
    match Lookup(ds.entries, candidate, probeToCity[m.probeId])
    case None => None
    case Some(r) =>
      if r.avgMs > 0.0 then
        var observedMs := Median(m.rtts) as real / 1000.0;
        Some((if observedMs < r.avgMs then r.avgMs - observedMs else observedMs - r.avgMs) / r.avgMs)
      else None
  }

  lemma QuotientIff(gap: real, avg: real, x: real)
    requires avg > 0.0
    ensures gap / avg == x <==> gap == x * avg
  {
    var q := gap / avg;
    assert q * avg == gap;
    assert (q - x) * avg == gap - x * avg;
  }

  lemma RelativeGap(ms: real, avg: real, x: real)
    requires avg > 0.0
    ensures (if ms < avg then avg - ms else ms - avg) / avg == x <==>
            x >= 0.0 && (ms == avg + x * avg || ms == avg - x * avg)
  {
    var gap := if ms < avg then avg - ms else ms - avg;
    QuotientIff(gap, avg, x);
    if x >= 0.0 {
      NonNegativeProduct(x, avg);
    } else {
      NonNegativeProduct(-x, avg);
      assert x * avg < 0.0 || x * avg == 0.0;
      PositiveProduct(-x, avg, -(x * avg));
    }
  }

  /**
   A probe's error is how far its median lies from the expected time, above or below, relative to that
   time; it has one exactly when its city is known and the index has a positive expected time for the pair.
   */
  lemma ErrorIff(ds: Dataset, probeToCity: map<string, string>, candidate: string, m: Measurement, x: real)
    ensures var known := if m.probeId !in probeToCity then None
                         else Lookup(ds.entries, candidate, probeToCity[m.probeId]);
            ErrorOf(ds, probeToCity, candidate, m) == Some(x) <==>
            && known.Some? && known.value.avgMs > 0.0 && x >= 0.0
            && var (us, expectedUs) := (Median(m.rtts) as real, known.value.avgMs * 1000.0);
            us == expectedUs + x * expectedUs || us == expectedUs - x * expectedUs
  {
    hide Median, Lookup;
    if m.probeId in probeToCity && Lookup(ds.entries, candidate, probeToCity[m.probeId]).Some? {
      var avg := Lookup(ds.entries, candidate, probeToCity[m.probeId]).value.avgMs;
      var ms := Median(m.rtts) as real / 1000.0;
      if avg > 0.0 {
        RelativeGap(ms, avg, x);
        assert x * (avg * 1000.0) == x * avg * 1000.0;
      }
    }
  }

  function ErrorsOf(ds: Dataset, probeToCity: map<string, string>, candidate: string, ms: seq<Measurement>): seq<real> {
    if ms == [] then [] else
    ErrorsOf(ds, probeToCity, candidate, ms[..|ms| - 1])
    + match ErrorOf(ds, probeToCity, candidate, ms[|ms| - 1]) case Some(x) => [x] case None => []
  }

  function Itself(): real -> real { (x: real) => x }

  /** The mean normalised error of a city over the measurements with data, and how many those are. */
  function ScoreOf(ds: Dataset, probeToCity: map<string, string>, ms: seq<Measurement>, city: City): Option<Scored> {
    var errors := ErrorsOf(ds, probeToCity, city.name, ms);
    if errors == [] then None else Some(Scored(city, Mean(errors, Itself()), |errors|))
  }

  /** A measurement's error, 0 without data. */
  function ErrorOrZero(ds: Dataset, probeToCity: map<string, string>, candidate: string): Measurement -> real {
    (m: Measurement) => match ErrorOf(ds, probeToCity, candidate, m) case Some(x) => x case None => 0.0
  }

  ghost function WithData(
    ds: Dataset, probeToCity: map<string, string>, candidate: string, ms: seq<Measurement>): set<nat> {
    set i: nat | i < |ms| && ErrorOf(ds, probeToCity, candidate, ms[i]).Some?
  }

  function Listed(x: Option<real>): seq<real> {
    if x.Some? then [x.value] else []
  }

  lemma OneMoreError(ds: Dataset, probeToCity: map<string, string>, candidate: string, ms: seq<Measurement>)
    requires ms != []
    ensures ErrorsOf(ds, probeToCity, candidate, ms)
         == ErrorsOf(ds, probeToCity, candidate, ms[..|ms| - 1])
            + Listed(ErrorOf(ds, probeToCity, candidate, ms[|ms| - 1]))
  {
    hide ErrorOf;
  }

  lemma SumListed(x: Option<real>)
    ensures |Listed(x)| == (if x.Some? then 1 else 0) && Sum(Listed(x), Itself()) == if x.Some? then x.value else 0.0
  {
    if x.Some? {
      SumOne(x.value, Itself());
    }
  }

  lemma OneMoreWithData(ds: Dataset, probeToCity: map<string, string>, candidate: string, ms: seq<Measurement>)
    requires ms != []
    ensures |WithData(ds, probeToCity, candidate, ms)|
         == |WithData(ds, probeToCity, candidate, ms[..|ms| - 1])|
            + if ErrorOf(ds, probeToCity, candidate, ms[|ms| - 1]).Some? then 1 else 0
  {
    hide ErrorOf;
    var last: nat := |ms| - 1;
    assert WithData(ds, probeToCity, candidate, ms)
        == WithData(ds, probeToCity, candidate, ms[..last])
           + if ErrorOf(ds, probeToCity, candidate, ms[last]).Some? then {last} else {};
  }

  lemma {:induction false} ErrorsAddUp(
    ds: Dataset, probeToCity: map<string, string>, candidate: string, ms: seq<Measurement>)
    ensures var errors := ErrorsOf(ds, probeToCity, candidate, ms);
            && |errors| == |WithData(ds, probeToCity, candidate, ms)|
            && Sum(errors, Itself()) == Sum(ms, ErrorOrZero(ds, probeToCity, candidate))
  {
    hide ErrorOf;
    if ms != [] {
      var init, x := ms[..|ms| - 1], ErrorOf(ds, probeToCity, candidate, ms[|ms| - 1]);
      ErrorsAddUp(ds, probeToCity, candidate, init);
      OneMoreError(ds, probeToCity, candidate, ms);
      OneMoreWithData(ds, probeToCity, candidate, ms);
      SumListed(x);
      SumConcat(ErrorsOf(ds, probeToCity, candidate, init), Listed(x), Itself());
      hide ErrorsOf, WithData, Listed;
    }
  }

  /** A city's score: the mean over the measurements that have data, and how many those are; none without any. */
  lemma ScoreIsMean(ds: Dataset, probeToCity: map<string, string>, ms: seq<Measurement>, city: City)
    ensures var (score, n) := (ScoreOf(ds, probeToCity, ms, city), |WithData(ds, probeToCity, city.name, ms)|);
            && (score.None? <==> n == 0)
            && (score.Some? ==>
                  && score.value.city == city && score.value.count == n
                  && score.value.err * n as real == Sum(ms, ErrorOrZero(ds, probeToCity, city.name)))
  {
    hide ErrorsOf, WithData, Mean, Sum;
    ErrorsAddUp(ds, probeToCity, city.name, ms);
    MeanTimesLength(ErrorsOf(ds, probeToCity, city.name, ms), Itself());
  }

  predicate Close(x: Scored, y: Scored) {
    -TIE_BAND < x.err - y.err < TIE_BAND
  }

  /** The comparison: fewer errors first, but within the tie band more matched probes first. */
  predicate Beats(x: Scored, y: Scored) {
    if Close(x, y) then x.count > y.count else x.err < y.err
  }

  ghost function Candidates(ds: Dataset, probeToCity: map<string, string>, ms: seq<Measurement>): set<Scored> {
    set name | name in ds.cities && ScoreOf(ds, probeToCity, ms, ds.cities[name]).Some? ::
      ScoreOf(ds, probeToCity, ms, ds.cities[name]).value
  }

  ghost predicate Unbeaten(s: set<Scored>, b: Scored) {
    b in s && forall c :: c in s ==> !Beats(c, b)
  }

  /**
   Along two ties whose ends are not tied, the better end has more matches than the middle, or the
   middle more than the worse end.
   */
  ghost predicate TiesRespectErrors(s: set<Scored>) {
    forall x, y, z :: x in s && y in s && z in s && Close(x, y) && Close(y, z) && z.err - x.err >= TIE_BAND ==>
                        x.count > y.count || y.count > z.count
  }

  /** Candidates' errors are equal or at least the tie band apart. */
  ghost predicate Separated(s: set<Scored>) {
    forall x, y :: x in s && y in s && Close(x, y) ==> x.err == y.err
  }

  ghost predicate Argmin(s: set<Scored>, b: Scored) {
    b in s && forall c :: c in s ==> b.err < c.err || (b.err == c.err && b.count >= c.count)
  }

  method ScoreCity(ds: Dataset, probeToCity: map<string, string>, ms: seq<Measurement>, city: City)
    returns (r: Option<Scored>)
    ensures r == ScoreOf(ds, probeToCity, ms, city)
  {
    hide ErrorOf;
    var totalErr, matched := 0.0, 0;
    for i := 0 to |ms|
      invariant var errors := ErrorsOf(ds, probeToCity, city.name, ms[..i]);
                matched == |errors| && totalErr == Sum(errors, Itself())
    {
      assert ms[..i + 1][..i] == ms[..i];
      var x := ErrorOf(ds, probeToCity, city.name, ms[i]);
      ghost var errors := ErrorsOf(ds, probeToCity, city.name, ms[..i]);
      ghost var errors' := ErrorsOf(ds, probeToCity, city.name, ms[..i + 1]);
      if x.Some? {
        assert errors' == errors + [x.value];
        assert errors'[..|errors'| - 1] == errors;
        assert Sum(errors', Itself()) == Sum(errors, Itself()) + x.value;
        totalErr := totalErr + x.value;
        matched := matched + 1;
      } else {
        assert errors' == errors;
      }
    }
    assert ms[..|ms|] == ms;
    if matched > 0 {
      return Some(Scored(city, totalErr / matched as real, matched));
    }
    return None;
  }

  /** Scores the cities in an arbitrary order, as iteration over a map does. */
  method ScoreCities(ds: Dataset, probeToCity: map<string, string>, ms: seq<Measurement>) returns (found: seq<Scored>)
    ensures forall x :: x in found <==> x in Candidates(ds, probeToCity, ms)
  {
    hide ScoreOf;
    found := [];
    var names := ds.cities.Keys;
    while names != {}
      invariant names <= ds.cities.Keys
      invariant forall x :: x in found <==>
                            exists name :: name in ds.cities.Keys - names
                                           && ScoreOf(ds, probeToCity, ms, ds.cities[name]) == Some(x)
    {
      var name :| name in names;
      var score := ScoreCity(ds, probeToCity, ms, ds.cities[name]);
      names := names - {name};
      if score.Some? {
        found := found + [score.value];
      }
    }
  }

  ghost function Members(s: seq<Scored>): set<Scored> {
    set x | x in s
  }

  lemma SameMembers(found: seq<Scored>, all: set<Scored>)
    requires forall x :: x in found <==> x in all
    ensures all == Members(found) && (found == [] <==> all == {})
  {
    assert found == [] || found[0] in found;
  }

  lemma HeadIsUnbeaten(sorted: seq<Scored>, candidates: seq<Scored>)
    requires sorted != [] && multiset(sorted) == multiset(candidates) && SortedBy(Beats, sorted)
    ensures Unbeaten(Members(candidates), sorted[0])
  {
    SameElements(sorted, candidates);
    assert sorted[0] in sorted;
    forall c | c in candidates
      ensures !Beats(c, sorted[0])
    {
      var k :| 0 <= k < |sorted| && sorted[k] == c;
      assert k > 0 ==> !Beats(sorted[k], sorted[0]);
    }
  }

  lemma NotOrdered(s: seq<Scored>)
    requires !StrictWeakOn(Beats, s)
    ensures exists x, y, z :: x in s && y in s && z in s && Close(x, y) && Close(y, z) && z.err - x.err >= TIE_BAND
                              && x.count <= y.count <= z.count
  {
    var x, y, z :| x in s && y in s && z in s && !Beats(x, y) && !Beats(y, z) && Beats(x, z);
    if Close(x, z) {
      assert Close(x, y) != Close(y, z);
      if Close(x, y) {
        assert Close(z, x) && y.err - z.err >= TIE_BAND && z.count <= x.count <= y.count;
      }
    }
  }

  /** Exactly when the comparison is a strict weak order on the candidates. */
  lemma ComparisonOrdersIff(s: seq<Scored>)
    ensures StrictWeakOn(Beats, s) <==> TiesRespectErrors(Members(s))
  {
    if StrictWeakOn(Beats, s) {
      forall x, y, z | x in s && y in s && z in s && Close(x, y) && Close(y, z) && z.err - x.err >= TIE_BAND
        ensures x.count > y.count || y.count > z.count
      {
        assert Beats(x, z);
        assert Beats(x, y) || Beats(y, z);
      }
    } else {
      NotOrdered(s);
    }
  }

  /** Whoever is unbeaten has an error within the band of the least, and the most matches within its band. */
  lemma UnbeatenIsNearBest(s: set<Scored>, b: Scored)
    requires Unbeaten(s, b)
    ensures forall c :: c in s ==> b.err < c.err + 0.01
    ensures forall c :: c in s && -0.01 < b.err - c.err < 0.01 ==> b.count >= c.count
  {
    assert forall c :: c in s ==> !Beats(c, b);
  }

  /**
   With errors equal or a band apart the comparison is an order, and being unbeaten means least error
   and most matches.
   */
  lemma SeparatedArgmin(s: set<Scored>, b: Scored)
    ensures Separated(s) ==> TiesRespectErrors(s) && (Unbeaten(s, b) <==> Argmin(s, b))
  {
    if Unbeaten(s, b) {
      UnbeatenIsNearBest(s, b);
    }
  }

  method BestMatch(ds: Dataset, probeToCity: map<string, string>, ms: seq<Measurement>) returns (best: Option<Scored>)
    ensures best.None? <==> Candidates(ds, probeToCity, ms) == {}
    ensures best.Some? ==> best.value in Candidates(ds, probeToCity, ms)
    ensures best.Some? && TiesRespectErrors(Candidates(ds, probeToCity, ms)) ==>
              Unbeaten(Candidates(ds, probeToCity, ms), best.value)
    ensures best.Some? && Separated(Candidates(ds, probeToCity, ms)) ==>
              Argmin(Candidates(ds, probeToCity, ms), best.value)
  {
    hide Candidates, Beats, StrictWeakOn, TiesRespectErrors, Separated, Argmin, Unbeaten;
    var found := ScoreCities(ds, probeToCity, ms);
    ghost var all := Candidates(ds, probeToCity, ms);
    SameMembers(found, all);
    if found == [] {
      return None;
    }
    var sorted := SortSlice(found, Beats);
    SameElements(sorted, found);
    best := Some(sorted[0]);
    assert sorted[0] in sorted;
    ComparisonOrdersIff(found);
    if TiesRespectErrors(all) {
      HeadIsUnbeaten(sorted, found);
    }
    SeparatedArgmin(all, sorted[0]);
  }

  /** In general the comparison may run in a circle, where every candidate is beaten by another. */
  lemma ComparisonCanCycle(a: City, b: City, c: City)
    ensures var x, y, z := Scored(a, 0.0, 1), Scored(b, 0.008, 2), Scored(c, 0.016, 3);
            Beats(y, x) && Beats(z, y) && Beats(x, z) && forall s :: !Unbeaten({x, y, z}, s)
  {
    var x, y, z := Scored(a, 0.0, 1), Scored(b, 0.008, 2), Scored(c, 0.016, 3);
    var s := {x, y, z};
    assert x in s && y in s && z in s;
  }

  // --- A dataset whose candidates run in a circle ---------------------------------------------

  const HERE := Point(1.0, 1.0)
  const UNPLACED := Point(0.0, 0.0)

  function Link(src: string, dst: string, ms: real): RawEntry {
    RawEntry(src, dst, HERE, UNPLACED, RttRange(ms, ms, ms))
  }

  /** City A has data for one probe city, B for two, C for three. */
  const CIRCLE_ENTRIES := [
    Link("A", "X", 126.0), Link("B", "X", 125.0), Link("B", "Y", 125.0),
    Link("C", "X", 126.0 / 1.016), Link("C", "Y", 126.0 / 1.016), Link("C", "Z", 126.0 / 1.016)]

  const CIRCLE_DATA := Dataset(
                         map["A|X" := Link("A", "X", 126.0).range, "B|X" := Link("B", "X", 125.0).range,
                             "B|Y" := Link("B", "Y", 125.0).range, "C|X" := Link("C", "X", 126.0 / 1.016).range,
                             "C|Y" := Link("C", "Y", 126.0 / 1.016).range,
                             "C|Z" := Link("C", "Z", 126.0 / 1.016).range],
                         map["A" := City("A", HERE), "B" := City("B", HERE), "C" := City("C", HERE)])

  const CIRCLE_PROBES := map["x" := "X", "y" := "Y", "z" := "Z"]

  function Ping(probeId: string): Measurement {
    Measurement(probeId, HERE, [126_000])
  }

  lemma LetterKey(a: char, b: char)
    requires a < b
    ensures PairKey([a], [b]) == [a, '|', b]
  {
  }

  lemma CircleKeys()
    ensures PairKey("A", "X") == "A|X" && PairKey("A", "Y") == "A|Y" && PairKey("A", "Z") == "A|Z"
    ensures PairKey("B", "X") == "B|X" && PairKey("B", "Y") == "B|Y" && PairKey("B", "Z") == "B|Z"
    ensures PairKey("C", "X") == "C|X" && PairKey("C", "Y") == "C|Y" && PairKey("C", "Z") == "C|Z"
  {
    LetterKey('A', 'X'); LetterKey('A', 'Y'); LetterKey('A', 'Z');
    LetterKey('B', 'X'); LetterKey('B', 'Y'); LetterKey('B', 'Z');
    LetterKey('C', 'X'); LetterKey('C', 'Y'); LetterKey('C', 'Z');
  }

  lemma CircleDataFromEntries()
    ensures CIRCLE_DATA == Dataset(Index(CIRCLE_ENTRIES), CitiesOf(CIRCLE_ENTRIES, false))
  {
    var es := CIRCLE_ENTRIES;
    hide Index, CitiesOf, PairKey;
    CircleKeys();
    assert es[..0] == [];
    NothingRead(FieldReader((s: string) => s, (s: string) => 0.0), false);
    OneMoreEntry(es[..0], es[0], false);
    OneMoreEntry(es[..1], es[1], false);
    OneMoreEntry(es[..2], es[2], false);
    OneMoreEntry(es[..3], es[3], false);
    OneMoreEntry(es[..4], es[4], false);
    OneMoreEntry(es[..5], es[5], false);
    assert es[..0] + [es[0]] == es[..1] && es[..1] + [es[1]] == es[..2] && es[..2] + [es[2]] == es[..3];
    assert es[..3] + [es[3]] == es[..4] && es[..4] + [es[4]] == es[..5] && es[..5] + [es[5]] == es;
    assert CitiesOf(es, false) == CIRCLE_DATA.cities;
    assert Index(es) == CIRCLE_DATA.entries;
  }

  lemma ThreeErrors(ds: Dataset, probeToCity: map<string, string>, candidate: string, ms: seq<Measurement>)
    requires |ms| == 3
    ensures ErrorsOf(ds, probeToCity, candidate, ms)
         == Listed(ErrorOf(ds, probeToCity, candidate, ms[0])) + Listed(ErrorOf(ds, probeToCity, candidate, ms[1]))
            + Listed(ErrorOf(ds, probeToCity, candidate, ms[2]))
  {
    hide ErrorOf;
    assert ms[..2][..1] == ms[..1] && ms[..1][..0] == [];
    assert ErrorsOf(ds, probeToCity, candidate, ms[..1]) == Listed(ErrorOf(ds, probeToCity, candidate, ms[0]));
    assert ErrorsOf(ds, probeToCity, candidate, ms[..2])
        == Listed(ErrorOf(ds, probeToCity, candidate, ms[0])) + Listed(ErrorOf(ds, probeToCity, candidate, ms[1]));
  }

  const CIRCLE_SCORES := {
    Scored(City("A", HERE), 0.0, 1), Scored(City("B", HERE), 0.008, 2), Scored(City("C", HERE), 0.016, 3)}

  const PINGS := [Ping("x"), Ping("y"), Ping("z")]

  lemma {:induction false} MeanOfEqual(s: seq<real>, x: real)
    requires s != [] && forall i :: 0 <= i < |s| ==> s[i] == x
    ensures Mean(s, Itself()) == x
  {
    MeanWithin(s, Itself(), x, x);
  }

  /** The data for one city, one key at a time. */
  lemma CircleErrors(p: string, x: string)
    requires p in CIRCLE_PROBES && CIRCLE_PROBES[p] == x
    ensures ErrorOf(CIRCLE_DATA, CIRCLE_PROBES, "A", Ping(p)) == if x == "X" then Some(0.0) else None
    ensures ErrorOf(CIRCLE_DATA, CIRCLE_PROBES, "B", Ping(p)) == if x == "Z" then None else Some(0.008)
    ensures ErrorOf(CIRCLE_DATA, CIRCLE_PROBES, "C", Ping(p)) == Some(0.016)
  {
    MedianRank([126_000]);
    CircleKeys();
    hide PairKey, Median;
    assert x == "X" || x == "Y" || x == "Z";
    assert Median(Ping(p).rtts) == 126_000;
  }

  lemma CircleScores()
    ensures ScoreOf(CIRCLE_DATA, CIRCLE_PROBES, PINGS, City("A", HERE)) == Some(Scored(City("A", HERE), 0.0, 1))
    ensures ScoreOf(CIRCLE_DATA, CIRCLE_PROBES, PINGS, City("B", HERE)) == Some(Scored(City("B", HERE), 0.008, 2))
    ensures ScoreOf(CIRCLE_DATA, CIRCLE_PROBES, PINGS, City("C", HERE)) == Some(Scored(City("C", HERE), 0.016, 3))
  {
    hide ErrorOf, ErrorsOf, Mean;
    ThreeErrors(CIRCLE_DATA, CIRCLE_PROBES, "A", PINGS);
    ThreeErrors(CIRCLE_DATA, CIRCLE_PROBES, "B", PINGS);
    ThreeErrors(CIRCLE_DATA, CIRCLE_PROBES, "C", PINGS);
    CircleErrors("x", "X");
    CircleErrors("y", "Y");
    CircleErrors("z", "Z");
    assert ErrorsOf(CIRCLE_DATA, CIRCLE_PROBES, "A", PINGS) == [0.0];
    assert ErrorsOf(CIRCLE_DATA, CIRCLE_PROBES, "B", PINGS) == [0.008, 0.008];
    assert ErrorsOf(CIRCLE_DATA, CIRCLE_PROBES, "C", PINGS) == [0.016, 0.016, 0.016];
    MeanOfEqual([0.0], 0.0);
    MeanOfEqual([0.008, 0.008], 0.008);
    MeanOfEqual([0.016, 0.016, 0.016], 0.016);
  }

  /** It does happen to a dataset built from entries: its three candidates run in a circle, so none is unbeaten. */
  lemma BestMatchCanFaceACycle()
    ensures CIRCLE_DATA == Dataset(Index(CIRCLE_ENTRIES), CitiesOf(CIRCLE_ENTRIES, false))
    ensures var all := Candidates(CIRCLE_DATA, CIRCLE_PROBES, PINGS);
            && all == CIRCLE_SCORES
            && forall s :: !Unbeaten(all, s)
  {
    hide ScoreOf, Index, CitiesOf, Beats, Unbeaten;
    CircleDataFromEntries();
    CircleScores();
    ComparisonCanCycle(City("A", HERE), City("B", HERE), City("C", HERE));
    assert CIRCLE_DATA.cities.Keys == {"A", "B", "C"};
    var all := Candidates(CIRCLE_DATA, CIRCLE_PROBES, PINGS);
    assert "A" in CIRCLE_DATA.cities && "B" in CIRCLE_DATA.cities && "C" in CIRCLE_DATA.cities;
    assert all == CIRCLE_SCORES;
  }
}
