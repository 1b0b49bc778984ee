/**
 The request handler (internal/grpcserver/server.go): challenges handed out, submissions judged,
 and results stored under the challenge's identifier. The store is a map whose insert fails, without
 notice to the client, on a key it already holds, and a list of anomalies.
 */
module Server {
  import opened Engine
  import opened Exclusions
  import opened Geometry
  import opened Jitter
  import opened ProbeSelection
  import opened Tokens
  import opened Verdicts
  import opened Wrappers

  datatype PingReport = PingReport(probeId: string, rttsUs: seq<int>)

  datatype SubmitError = Unauthenticated(why: TokenError) | UnknownProbe

  datatype Record = Record(
    clientId: string, status: Status, confidence: real, region: Circle,
    matchedCity: string, matchError: real, suspicious: bool)

  datatype AnomalyKind = JitterAnomaly | VpnAnomaly | RatioAnomaly

  datatype Anomaly = Anomaly(challengeId: string, clientId: string, kind: AnomalyKind)

  datatype World = World(
    earth: Earth, refs: seq<ReferenceRegion>, dataset: Option<Querier>, known: seq<Probe>, persist: bool,
    pingCount: int, timeoutMs: int)

  /** What a client is told about a probe. */
  datatype Target = Target(id: string, host: string, port: int, pingCount: int)

  datatype Challenge = Challenge(token: ChallengeToken, targets: seq<Target>, timeoutMs: int)

  /** Conversion to a 32-bit integer, wrapping around. */
  function Int32(n: int): int {
    (n + 0x8000_0000) % 0x1_0000_0000 - 0x8000_0000
  }

  function TargetOf(p: Probe, pingCount: int): Target {
    Target(p.id, p.host, Int32(p.port), Int32(pingCount))
  }

  function TargetsOf(ps: seq<Probe>, pingCount: int): seq<Target> {
    seq(|ps|, i requires 0 <= i < |ps| => TargetOf(ps[i], pingCount))
  }

  const ORIGIN := Point(0.0, 0.0)

  function RecordOf(clientId: string, v: Verdict): Record {
    var found := v.located.datasetMatch;
    Record(clientId, v.status, v.located.confidence, v.located.region,
           if found.Some? then found.value.city else "", if found.Some? then found.value.error else 0.0, v.suspicious)
  }

  function AnomaliesOf(challengeId: string, clientId: string, v: Verdict): seq<Anomaly> {
    (if v.located.spoofing.jitterAbnormal then [Anomaly(challengeId, clientId, JitterAnomaly)] else [])
    + (if v.vpnDetected then [Anomaly(challengeId, clientId, VpnAnomaly)] else [])
    + (if v.correlated then [] else [Anomaly(challengeId, clientId, RatioAnomaly)])
  }

  /** Numbers that fit stay, others come back into range by a multiple of 2^32. */
  lemma Int32Wraps(n: int)
    ensures -0x8000_0000 <= Int32(n) < 0x8000_0000 && (Int32(n) - n) % 0x1_0000_0000 == 0
    ensures -0x8000_0000 <= n < 0x8000_0000 ==> Int32(n) == n
  {
  }

  /** The targets are the probes, in order, each with its own host and port and the common number of pings. */
  lemma TargetsTellProbes(ps: seq<Probe>, pingCount: int, i: nat)
    requires i < |ps| && 0 <= ps[i].port < 0x8000_0000 && 0 <= pingCount < 0x8000_0000
    ensures |TargetsOf(ps, pingCount)| == |ps|
    ensures TargetsOf(ps, pingCount)[i] == Target(ps[i].id, ps[i].host, ps[i].port, pingCount)
  {
    Int32Wraps(ps[i].port);
    Int32Wraps(pingCount);
  }

  /** Which anomalies a verdict leaves: one for each flag that is raised, under its challenge and client. */
  lemma AnomaliesIff(challengeId: string, clientId: string, v: Verdict, a: Anomaly)
    ensures multiset(AnomaliesOf(challengeId, clientId, v))[a]
         == if a.challengeId == challengeId && a.clientId == clientId
               && match a.kind
                  case JitterAnomaly => v.located.spoofing.jitterAbnormal
                  case VpnAnomaly => v.vpnDetected
                  case RatioAnomaly => !v.correlated
            then 1 else 0
  {
  }

  /** What a stored result says of its verdict; a city that was not matched is stored as an empty name without error. */
  lemma RecordTellsVerdict(clientId: string, v: Verdict, found: DatasetMatch)
    ensures var r := RecordOf(clientId, v);
            && r.clientId == clientId && r.status == v.status && r.suspicious == v.suspicious
            && r.confidence == v.located.confidence && r.region == v.located.region
            && (v.located.datasetMatch == Some(found) ==> r.matchedCity == found.city && r.matchError == found.error)
            && (v.located.datasetMatch == None ==> r.matchedCity == "" && r.matchError == 0.0)
  {
  }

  predicate HasProbe(known: seq<Probe>, id: string, at: Point) {
    exists p :: p in known && p.id == id && p.at == at
  }

  /** The measurements a list of reports stands for, given where each probe is. */
  ghost predicate Resolves(known: seq<Probe>, reports: seq<PingReport>, ms: seq<Measurement>) {
    && |ms| == |reports|
    && forall i :: 0 <= i < |ms| ==>
                     && ms[i].probeId == reports[i].probeId && ms[i].rtts == reports[i].rttsUs
                     && HasProbe(known, reports[i].probeId, ms[i].probe)
  }

  /** Probe table entries, unchanged but for their distance field. */
  ghost predicate FromTable(known: seq<Probe>, ps: seq<Probe>) {
    forall p :: p in ps ==> exists q :: q in known && p == q.(distanceKm := p.distanceKm)
  }

  lemma MeasuredFromTable(e: Earth, est: Point, known: seq<Probe>)
    ensures FromTable(known, MeasuredAll(e, est, known))
  {
    forall p | p in MeasuredAll(e, est, known)
      ensures exists q :: q in known && p == q.(distanceKm := p.distanceKm)
    {
      var i :| 0 <= i < |known| && MeasuredAll(e, est, known)[i] == p;
      assert known[i] in known;
    }
  }

  lemma SelectionFromTable(e: Earth, est: Point, known: seq<Probe>, count: int, result: seq<Probe>)
    requires IsSelection(e, est, known, count, result)
    ensures FromTable(known, result)
  {
    var measured := MeasuredAll(e, est, known);
    MeasuredFromTable(e, est, known);
    if count < |known| && count < |Regions(measured)| {
      HeadsAreKnown(measured, result);
    }
  }

  /** The anomaly has a stored result of the same client, a rejected one if it is a ratio anomaly. */
  predicate Backed(store: map<string, Record>, a: Anomaly) {
    && a.challengeId in store && a.clientId == store[a.challengeId].clientId
    && (a.kind == RatioAnomaly ==> store[a.challengeId].status == Rejected)
  }

  ghost predicate AllBacked(store: map<string, Record>, anomalies: seq<Anomaly>) {
    forall a :: a in anomalies ==> Backed(store, a)
  }

  /** The result names the client its challenge was issued to, and a SUSPICIOUS one has its bit set. */
  predicate Sound(r: Record, issuedTo: string) {
    r.clientId == issuedTo && (r.status == Suspicious ==> r.suspicious)
  }

  /** The store after an insert, which is dropped without notice when the key is taken. */
  function Inserted(store: map<string, Record>, challengeId: string, r: Record): map<string, Record> {
    if challengeId in store then store else store[challengeId := r]
  }

  lemma AnomaliesStayBacked(
    store: map<string, Record>, anomalies: seq<Anomaly>, challengeId: string, clientId: string, v: Verdict)
    requires AllBacked(store, anomalies) && (challengeId in store ==> store[challengeId].clientId == clientId)
    requires !v.correlated ==> v.status == Rejected && challengeId !in store
    ensures AllBacked(Inserted(store, challengeId, RecordOf(clientId, v)),
                      anomalies + AnomaliesOf(challengeId, clientId, v))
  {
    var store' := Inserted(store, challengeId, RecordOf(clientId, v));
    forall a | a in anomalies
      ensures Backed(store', a)
    {
      assert Backed(store, a);
    }
    assert forall a :: a in AnomaliesOf(challengeId, clientId, v) ==> Backed(store', a);
  }

  /** Stored results belong to consumed challenges and are sound. */
  ghost predicate AllSound(store: map<string, Record>, mgr: Manager)
    reads mgr
  {
    && store.Keys <= mgr.consumed
    && forall id :: id in store ==> id in mgr.issued && Sound(store[id], mgr.issued[id].clientId)
  }

  /** The result belongs to a consumed challenge and its client, and its flags bear each other out. */
  ghost predicate Storable(
    store: map<string, Record>, mgr: Manager, challengeId: string, clientId: string, v: Verdict)
    reads mgr
  {
    && challengeId in mgr.consumed && challengeId in mgr.issued && clientId == mgr.issued[challengeId].clientId
    && (v.status == Suspicious ==> v.suspicious)
    && (!v.correlated ==> v.status == Rejected && challengeId !in store)
  }

  lemma SavingKeepsStore(
    store: map<string, Record>, anomalies: seq<Anomaly>, mgr: Manager,
    challengeId: string, clientId: string, v: Verdict)
    requires AllSound(store, mgr) && AllBacked(store, anomalies) && Storable(store, mgr, challengeId, clientId, v)
    ensures AllSound(Inserted(store, challengeId, RecordOf(clientId, v)), mgr)
    ensures AllBacked(Inserted(store, challengeId, RecordOf(clientId, v)),
                      anomalies + AnomaliesOf(challengeId, clientId, v))
  {
    hide AllBacked;
    AnomaliesStayBacked(store, anomalies, challengeId, clientId, v);
  }

  lemma NoIds()
    ensures Ids([]) == {}
  {
  }

  lemma TableHasProbe(known: seq<Probe>, all: seq<Probe>, i: nat)
    requires FromTable(known, all) && i < |all|
    ensures HasProbe(known, all[i].id, all[i].at)
  {
    assert all[i] in all;
  }

  method IndexById(ghost known: seq<Probe>, all: seq<Probe>) returns (m: map<string, Point>)
    requires FromTable(known, all)
    ensures forall id :: id in m ==> HasProbe(known, id, m[id])
    ensures m.Keys == Ids(all)
  {
    hide HasProbe, Ids;
    m := map[];
    NoIds();
    for i := 0 to |all|
      invariant m.Keys == Ids(all[..i])
      invariant forall id :: id in m ==> HasProbe(known, id, m[id])
    {
      TableHasProbe(known, all, i);
      assert all[..i + 1] == all[..i] + [all[i]];
      IdsGrow(all[..i], all[i]);
      m := m[all[i].id := all[i].at];
    }
    assert all[..|all|] == all;
  }

  /** Every report becomes the measurement of the probe it names, with the reported samples, at the table's place. */
  lemma ResolvedInFull(known: seq<Probe>, reports: seq<PingReport>, ms: seq<Measurement>, i: nat)
    requires Resolves(known, reports, ms) && i < |reports|
    ensures |ms| == |reports| && ms[i].probeId == reports[i].probeId && ms[i].rtts == reports[i].rttsUs
    ensures exists p :: p in known && p.id == reports[i].probeId && p.at == ms[i].probe
  {
    assert HasProbe(known, reports[i].probeId, ms[i].probe);
  }

  /** What resolving reports against a probe table comes to: everything resolved, or an unknown probe. */
  ghost predicate Resolved(known: seq<Probe>, reports: seq<PingReport>, r: Result<seq<Measurement>, SubmitError>) {
    && (r.Success? ==> Resolves(known, reports, r.value))
    && (r.Failure? ==> r.error == UnknownProbe)
    && (|known| <= 100 ==> (r.Success? <==> forall i :: 0 <= i < |reports| ==> reports[i].probeId in Ids(known)))
  }

  /** Reports that stick to the targets handed out with a challenge are never refused for an unknown probe. */
  lemma IssuedTargetsAreAccepted(
    known: seq<Probe>, handedOut: seq<Probe>, pingCount: int, reports: seq<PingReport>,
    r: Result<seq<Measurement>, SubmitError>)
    requires |known| <= 100 && FromTable(known, handedOut) && Resolved(known, reports, r)
    requires forall i :: 0 <= i < |reports| ==>
                           exists t :: t in TargetsOf(handedOut, pingCount) && t.id == reports[i].probeId
    ensures r.Success? && Resolves(known, reports, r.value)
  {
    forall i | 0 <= i < |reports|
      ensures reports[i].probeId in Ids(known)
    {
      var t :| t in TargetsOf(handedOut, pingCount) && t.id == reports[i].probeId;
      var k :| 0 <= k < |handedOut| && TargetsOf(handedOut, pingCount)[k] == t;
      assert handedOut[k] in handedOut;
    }
  }

  lemma MeasuredIds(e: Earth, est: Point, known: seq<Probe>)
    ensures Ids(MeasuredAll(e, est, known)) == Ids(known)
  {
    var all := MeasuredAll(e, est, known);
    forall id
      ensures id in Ids(all) <==> id in Ids(known)
    {
      if p :| p in all && p.id == id {
        var i :| 0 <= i < |all| && all[i] == p;
        assert known[i] in known;
      }
      if p :| p in known && p.id == id {
        var i :| 0 <= i < |known| && known[i] == p;
        assert all[i] in all;
      }
    }
  }

  lemma FlagsAreRecorded(world: World, ms: seq<Measurement>, v: Verdict)
    requires Pseudometric(world.earth) && IsVerdict(world.earth, world.refs, world.dataset, ms, v)
    ensures v.status == Suspicious ==> v.suspicious
    ensures !v.correlated ==> v.status == Rejected
  {
    hide Pseudometric, IsVerdict;
    if v.status == Suspicious {
      SuspiciousIsRecorded(world.earth, world.refs, world.dataset, ms, v);
    }
    if !v.correlated {
      RatioAnomalyMeansRejected(world.earth, world.refs, world.dataset, ms, v);
    }
  }

  class Handler {
    const world: World
    const mgr: Manager
    var store: map<string, Record>
    var anomalies: seq<Anomaly>

    /**
     Stored results belong to consumed challenges, name the client the challenge was issued to, and have
     the suspicious bit set when SUSPICIOUS; a ratio anomaly sits beside a rejected result.
     */
    ghost predicate Valid()
      reads this, mgr
    {
      && mgr.Valid()
      && Pseudometric(world.earth) && UniqueIds(world.known)
      && AllSound(store, mgr) && AllBacked(store, anomalies)
    }

    constructor (world: World, mgr: Manager)
      requires mgr.Valid() && Pseudometric(world.earth) && UniqueIds(world.known)
      ensures Valid() && this.world == world && this.mgr == mgr && store == map[] && anomalies == []
    {
      this.world, this.mgr, store, anomalies := world, mgr, map[], [];
    }

    /** Refuses an empty client; otherwise issues a token and hands out probes of the table. */
    method FetchChallenge(clientId: string, challengeId: string, now: int)
      returns (r: Option<Challenge>)
      requires Valid() && challengeId !in mgr.issued
      modifies mgr
      ensures Valid()
      ensures r.None? <==> clientId == ""
      ensures r.None? ==> mgr.issued == old(mgr.issued) && mgr.tokens == old(mgr.tokens)
      ensures r.Some? ==>
                var e := MakeEntry(mgr.cfg, challengeId, clientId, now);
                && mgr.issued == old(mgr.issued)[challengeId := e] && mgr.tokens == old(mgr.tokens)[challengeId := e]
                && r.value.token == Announced(challengeId, e) && r.value.timeoutMs == Int32(world.timeoutMs)
                && exists probes :: IsSelection(world.earth, Point(0.0, 0.0), world.known, 16, probes)
                                    && FromTable(world.known, probes)
                                    && r.value.targets == TargetsOf(probes, world.pingCount)
    {
      if clientId == "" {
        return None;
      }
      hide Pseudometric, Int32;
      var tok := mgr.GenerateToken(challengeId, clientId, now);
      var probes := SelectProbes(world.earth, ORIGIN, world.known, 16);
      SelectionFromTable(world.earth, ORIGIN, world.known, 16, probes);
      hide IsSelection, FromTable;
      var targets: seq<Target> := [];
      for i := 0 to |probes|
        invariant |targets| == i && forall k :: 0 <= k < i ==> targets[k] == TargetOf(probes[k], world.pingCount)
      {
        targets := targets + [Target(probes[i].id, probes[i].host, Int32(probes[i].port), Int32(world.pingCount))];
      }
      assert targets == TargetsOf(probes, world.pingCount);
      return Some(Challenge(tok, targets, Int32(world.timeoutMs)));
    }

    method BuildProbeMap() returns (m: map<string, Point>)
      requires UniqueIds(world.known)
      ensures forall id :: id in m ==> HasProbe(world.known, id, m[id])
      ensures |world.known| <= 100 ==> m.Keys == Ids(world.known)
    {
      var all := SelectProbes(world.earth, ORIGIN, world.known, 100);
      SelectionFromTable(world.earth, ORIGIN, world.known, 100, all);
      if |world.known| <= 100 {
        MeasuredIds(world.earth, ORIGIN, world.known);
      }
      hide IsSelection, FromTable, HasProbe, Ids, MeasuredAll;
      m := IndexById(world.known, all);
    }

    method ResolveReports(reports: seq<PingReport>) returns (r: Result<seq<Measurement>, SubmitError>)
      requires UniqueIds(world.known)
      ensures Resolved(world.known, reports, r)
    {
      var probeMap := BuildProbeMap();
      hide Ids, HasProbe;
      var ms := [];
      for i := 0 to |reports|
        invariant Resolves(world.known, reports[..i], ms)
        invariant forall k :: 0 <= k < i ==> reports[k].probeId in probeMap
      {
        if reports[i].probeId !in probeMap {
          return Failure(UnknownProbe);
        }
        ms := ms + [Measurement(reports[i].probeId, probeMap[reports[i].probeId], reports[i].rttsUs)];
      }
      assert reports[..|reports|] == reports;
      return Success(ms);
    }

    /** The insert, dropped without notice when the key is taken, and then the anomalies. */
    method Save(challengeId: string, clientId: string, v: Verdict)
      modifies this
      ensures store == Inserted(old(store), challengeId, RecordOf(clientId, v))
      ensures anomalies == old(anomalies) + AnomaliesOf(challengeId, clientId, v)
      ensures old(Valid() && Storable(store, mgr, challengeId, clientId, v)) ==> Valid()
    {
      hide Pseudometric, UniqueIds, AllBacked, AllSound, Storable, RecordOf;
      if Valid() && Storable(store, mgr, challengeId, clientId, v) {
        SavingKeepsStore(store, anomalies, mgr, challengeId, clientId, v);
      }
      if challengeId !in store {
        store := store[challengeId := RecordOf(clientId, v)];
      }
      if v.located.spoofing.jitterAbnormal {
        anomalies := anomalies + [Anomaly(challengeId, clientId, JitterAnomaly)];
      }
      if v.vpnDetected {
        anomalies := anomalies + [Anomaly(challengeId, clientId, VpnAnomaly)];
      }
      if !v.correlated {
        anomalies := anomalies + [Anomaly(challengeId, clientId, RatioAnomaly)];
      }
      assert anomalies == old(anomalies) + AnomaliesOf(challengeId, clientId, v);
    }

    /** Consumes the challenge, judges the reports, and stores the result under the challenge. */
    method SubmitMeasurement(challengeId: string, token: string, reports: seq<PingReport>, now: int)
      returns (r: Result<Verdict, SubmitError>)
      requires Valid()
      modifies this, mgr
      ensures Valid()
      ensures mgr.issued == old(mgr.issued) && mgr.tokens == old(mgr.tokens) - {challengeId}
      ensures var judged := Judge(Find(old(mgr.tokens), challengeId), now, token);
              && (judged.Failure? ==> r == Failure(Unauthenticated(judged.error)))
              && (judged.Success? ==> r.Success? || r.error == UnknownProbe)
      ensures |world.known| <= 100 && Judge(Find(old(mgr.tokens), challengeId), now, token).Success? ==>
                (r.Success? <==> forall i :: 0 <= i < |reports| ==> reports[i].probeId in Ids(world.known))
      ensures r.Failure? ==> store == old(store) && anomalies == old(anomalies)
      ensures r.Success? ==>
                && challengeId !in old(store)
                && (exists ms: seq<Measurement> ::
                      Resolves(world.known, reports, ms)
                      && IsVerdict(world.earth, world.refs, world.dataset, ms, r.value))
                && var client := old(mgr.tokens)[challengeId].clientId;
                if world.persist then
                  && store == old(store)[challengeId := RecordOf(client, r.value)]
                  && anomalies == old(anomalies) + AnomaliesOf(challengeId, client, r.value)
                else store == old(store) && anomalies == old(anomalies)
    {
      hide Pseudometric, IsVerdict, Resolves;
      var clientId := mgr.GetClientID(challengeId);
      var checked := mgr.ValidateToken(challengeId, token, now);
      if checked.Failure? {
        return Failure(Unauthenticated(checked.error));
      }
      var resolved := ResolveReports(reports);
      if resolved.Failure? {
        return Failure(resolved.error);
      }
      var v := Evaluate(world.earth, world.refs, world.dataset, resolved.value);
      FlagsAreRecorded(world, resolved.value, v);
      if world.persist {
        Save(challengeId, clientId, v);
      }
      return Success(v);
    }
  }
}
