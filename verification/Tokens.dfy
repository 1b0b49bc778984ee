/**
 Single-use challenge tokens (internal/challenge/challenge.go). The keyed hash is an arbitrary
 function `mac`, challenge identifiers are supplied by the caller, and the clock is a parameter.
 */
module Tokens {
  import opened Wrappers

  datatype Entry = Entry(token: string, clientId: string, expiresAt: int)

  datatype TokenError = UnknownChallenge | TokenExpired | InvalidToken

  datatype ChallengeToken = ChallengeToken(challengeId: string, token: string, expiresAt: int)

  datatype Config = Config(ttl: int, mac: (string, string, int) -> string)

  function MakeEntry(cfg: Config, challengeId: string, clientId: string, now: int): Entry {
    var expiresAt := now + cfg.ttl;
    Entry(cfg.mac(challengeId, clientId, expiresAt), clientId, expiresAt)
  }

  /** What the client learns of an entry; the expiry is rounded down to whole seconds. */
  function Announced(challengeId: string, e: Entry): ChallengeToken {
    ChallengeToken(challengeId, e.token, e.expiresAt / 1_000_000_000)
  }

  /** The checks made after the entry has been taken out of the table, outside the lock. */
  function Judge(entry: Option<Entry>, now: int, presented: string): Result<(), TokenError> {
    match entry
    case None => Failure(UnknownChallenge)
    case Some(e) =>
      if now > e.expiresAt then Failure(TokenExpired)
      else if e.token != presented then Failure(InvalidToken)
      else Success(())
  }

  function Find(tokens: map<string, Entry>, challengeId: string): Option<Entry> {
    if challengeId in tokens then Some(tokens[challengeId]) else None
  }

  function ClientIn(tokens: map<string, Entry>, challengeId: string): string {
    match Find(tokens, challengeId)
    case Some(e) => e.clientId
    case None => ""
  }

  class Manager {
    const cfg: Config
    var tokens: map<string, Entry>
    ghost var issued: map<string, Entry>
    ghost var consumed: set<string>

    /** Every issued challenge is either still live, with the entry it was issued with, or consumed. */
    ghost predicate Valid()
      reads this
    {
      && tokens.Keys !! consumed
      && issued.Keys == tokens.Keys + consumed
      && forall id :: id in tokens ==> tokens[id] == issued[id]
    }

    constructor (cfg: Config)
      ensures Valid() && this.cfg == cfg && issued == map[] && tokens == map[]
    {
      this.cfg := cfg;
      tokens, issued, consumed := map[], map[], {};
    }

    method GenerateToken(challengeId: string, clientId: string, now: int) returns (tok: ChallengeToken)
      requires Valid() && challengeId !in issued
      modifies this
      ensures Valid() && consumed == old(consumed)
      ensures var e := MakeEntry(cfg, challengeId, clientId, now);
              && issued == old(issued)[challengeId := e] && tokens == old(tokens)[challengeId := e]
              && tok == Announced(challengeId, e)
      ensures var due := now + cfg.ttl;
              && tokens[challengeId] == Entry(cfg.mac(challengeId, clientId, due), clientId, due)
              && tok.challengeId == challengeId && tok.token == tokens[challengeId].token
              && tok.expiresAt * 1_000_000_000 <= due < (tok.expiresAt + 1) * 1_000_000_000
    {
      var expiresAt := now + cfg.ttl;
      var token := cfg.mac(challengeId, clientId, expiresAt);
      tokens := tokens[challengeId := Entry(token, clientId, expiresAt)];
      issued := issued[challengeId := Entry(token, clientId, expiresAt)];
      return ChallengeToken(challengeId, token, expiresAt / 1_000_000_000);
    }

    method GetClientID(challengeId: string) returns (clientId: string)
      ensures clientId == ClientIn(tokens, challengeId)
    {
      if challengeId !in tokens {
        return "";
      }
      return tokens[challengeId].clientId;
    }

    method ValidateToken(challengeId: string, token: string, now: int) returns (r: Result<(), TokenError>)
      requires Valid()
      modifies this
      ensures Valid() && issued == old(issued) && tokens == old(tokens) - {challengeId}
      ensures r == Judge(Find(old(tokens), challengeId), now, token)
      ensures r == Failure(UnknownChallenge) <==> challengeId !in old(tokens)
      ensures challengeId in old(tokens) ==>
                var e := old(tokens)[challengeId];
                && (r == Failure(TokenExpired) <==> now > e.expiresAt)
                && (r == Failure(InvalidToken) <==> now <= e.expiresAt && token != e.token)
                && (r == Success(()) <==> now <= e.expiresAt && token == e.token)
    {
      if challengeId !in tokens {
        assert tokens == tokens - {challengeId};
        return Failure(UnknownChallenge);
      }
      var entry := tokens[challengeId];
      tokens := tokens - {challengeId};
      consumed := consumed + {challengeId};
      if now > entry.expiresAt {
        return Failure(TokenExpired);
      }
      if entry.token != token {
        return Failure(InvalidToken);
      }
      return Success(());
    }
  }
}

/**
 Any number of concurrent submissions against the token table, interleaved between the locked
 sections: issue, read the client, take the entry, then check and save without the lock.
 */
module TokenRuns {
  import opened Tokens
  import opened Wrappers

  /** How far a submission has come, with the client it read and the entry it took. */
  datatype Phase =
    | Begun
    | ClientRead(clientId: string)
    | Taken(clientId: string, entry: Option<Entry>)
    | Accepted(clientId: string, entry: Option<Entry>, checkedAt: int)
    | Saved(clientId: string, entry: Option<Entry>, checkedAt: int)
    | Refused(why: TokenError)
    | Dropped

  /** `early` remembers that the client was read before the challenge was issued. */
  datatype Submission = Submission(challengeId: string, presented: string, phase: Phase, early: bool)

  /** A stored result: the client it names and the submission that wrote it. */
  datatype Record = Record(clientId: string, writer: nat)

  datatype State = State(
    clock: int, tokens: map<string, Entry>, issued: map<string, Entry>, consumed: set<string>,
    subs: map<nat, Submission>, store: map<string, Record>, lost: nat)

  datatype Step =
    | Issue(challengeId: string, client: string, stampedAt: int)
    | Begin(sub: nat, id: string, presented: string)
    | ReadClient(sub: nat)
    | Take(sub: nat)
    | Check(sub: nat)
    | Save(sub: nat)
    | Drop(sub: nat)
    | Tick(elapsed: nat)

  const START := State(0, map[], map[], {}, map[], map[], 0)

  function Advance(s: State, sub: nat, phase: Phase): State
    requires sub in s.subs
  {
    s.(subs := s.subs[sub := s.subs[sub].(phase := phase)])
  }

  /** One step; a step that does not apply to its submission's phase leaves the state alone. */
  function Apply(cfg: Config, s: State, step: Step): State {
    match step
    case Issue(id, client, stampedAt) =>
      if client == "" then s else
      var e := MakeEntry(cfg, id, client, stampedAt);
      s.(tokens := s.tokens[id := e], issued := s.issued[id := e])
    case Begin(sub, id, presented) =>
      if sub in s.subs then s else s.(subs := s.subs[sub := Submission(id, presented, Begun, false)])
    case ReadClient(sub) =>
      if sub !in s.subs || !s.subs[sub].phase.Begun? then s else
      var id := s.subs[sub].challengeId;
      s.(subs := s.subs[sub := s.subs[sub].(phase := ClientRead(ClientIn(s.tokens, id)), early := id !in s.issued)])
    case Take(sub) =>
      if sub !in s.subs || !s.subs[sub].phase.ClientRead? then s else
      var id := s.subs[sub].challengeId;
      var taken := Advance(s, sub, Taken(s.subs[sub].phase.clientId, Find(s.tokens, id)));
      if id in s.tokens then taken.(tokens := s.tokens - {id}, consumed := s.consumed + {id}) else taken
    case Check(sub) =>
      if sub !in s.subs || !s.subs[sub].phase.Taken? then s else
      var p := s.subs[sub].phase;
      Advance(s, sub,
              match Judge(p.entry, s.clock, s.subs[sub].presented)
              case Success(_) => Accepted(p.clientId, p.entry, s.clock)
              case Failure(why) => Refused(why))
    case Save(sub) =>
      if sub !in s.subs || !s.subs[sub].phase.Accepted? then s else
      var p, id := s.subs[sub].phase, s.subs[sub].challengeId;
      var saved := Advance(s, sub, Saved(p.clientId, p.entry, p.checkedAt));
      if id in s.store then saved.(lost := s.lost + 1) else saved.(store := s.store[id := Record(p.clientId, sub)])
    case Drop(sub) =>
      if sub !in s.subs || !s.subs[sub].phase.Accepted? then s else Advance(s, sub, Dropped)
    case Tick(elapsed) => s.(clock := s.clock + elapsed)
  }

  function Run(cfg: Config, steps: seq<Step>): State {
    if steps == [] then START else Apply(cfg, Run(cfg, steps[..|steps| - 1]), steps[|steps| - 1])
  }

  /** No two challenges of the run are issued under one identifier. */
  ghost predicate FreshIds(cfg: Config, steps: seq<Step>) {
    forall i :: 0 <= i < |steps| && steps[i].Issue? ==> steps[i].challengeId !in Run(cfg, steps[..i]).issued
  }

  // --- Invariants -----------------------------------------------------------------------------

  predicate WellIssued(cfg: Config, challengeId: string, e: Entry) {
    e.clientId != "" && e.token == cfg.mac(challengeId, e.clientId, e.expiresAt)
  }

  ghost predicate TableOk(cfg: Config, s: State) {
    && s.tokens.Keys !! s.consumed
    && s.issued.Keys == s.tokens.Keys + s.consumed
    && (forall id :: id in s.tokens ==> s.tokens[id] == s.issued[id])
    && (forall id :: id in s.issued ==> WellIssued(cfg, id, s.issued[id]))
  }

  /** The submission holds the entry of its challenge, or held it when it was accepted. */
  predicate Holds(sub: Submission) {
    (sub.phase.Taken? || sub.phase.Accepted? || sub.phase.Saved?) && sub.phase.entry.Some?
  }

  predicate Succeeded(sub: Submission) {
    sub.phase.Accepted? || sub.phase.Saved?
  }

  /** A submission that read its client late enough knows it, unless someone else consumed the challenge first. */
  ghost predicate ReadOk(s: State, sub: Submission) {
    sub.phase.ClientRead? ==>
      if sub.early then sub.phase.clientId == ""
      else sub.challengeId in s.issued
           && (sub.phase.clientId == s.issued[sub.challengeId].clientId || sub.challengeId in s.consumed)
  }

  ghost predicate HolderOk(s: State, sub: Submission) {
    Holds(sub) ==>
      && sub.challengeId in s.consumed && sub.challengeId in s.issued
      && sub.phase.entry.value == s.issued[sub.challengeId]
      && sub.phase.clientId == if sub.early then "" else s.issued[sub.challengeId].clientId
  }

  ghost predicate SuccessOk(s: State, sub: Submission) {
    Succeeded(sub) ==>
      && Holds(sub)
      && sub.presented == sub.phase.entry.value.token
      && sub.phase.checkedAt <= sub.phase.entry.value.expiresAt
      && sub.phase.checkedAt <= s.clock
  }

  ghost predicate SubOk(s: State, sub: Submission) {
    ReadOk(s, sub) && HolderOk(s, sub) && SuccessOk(s, sub)
  }

  ghost predicate SubsOk(s: State) {
    forall i :: i in s.subs ==> SubOk(s, s.subs[i])
  }

  ghost predicate OneHolder(s: State) {
    forall i, j | i in s.subs && j in s.subs && Holds(s.subs[i]) && Holds(s.subs[j]) ::
      s.subs[i].challengeId == s.subs[j].challengeId ==> i == j
  }

  ghost predicate StoreOk(s: State) {
    && s.lost == 0
    && forall id :: id in s.store ==>
                      var w := s.store[id].writer;
                      && w in s.subs && s.subs[w].phase.Saved? && s.subs[w].challengeId == id
                      && s.store[id].clientId == s.subs[w].phase.clientId
  }

  ghost predicate Inv(cfg: Config, s: State) {
    TableOk(cfg, s) && SubsOk(s) && OneHolder(s) && StoreOk(s)
  }

  lemma StepKeepsTable(cfg: Config, s: State, step: Step)
    requires TableOk(cfg, s) && (step.Issue? ==> step.challengeId !in s.issued)
    ensures TableOk(cfg, Apply(cfg, s, step))
  {
    hide Judge;
  }

  /** What is issued stays as issued, what is consumed stays consumed, and time does not run backwards. */
  ghost predicate Grows(s: State, s': State) {
    && (forall id :: id in s.issued ==> id in s'.issued && s'.issued[id] == s.issued[id])
    && s.consumed <= s'.consumed && s.clock <= s'.clock
  }

  lemma StepGrows(cfg: Config, s: State, step: Step)
    requires step.Issue? ==> step.challengeId !in s.issued
    ensures Grows(s, Apply(cfg, s, step))
  {
    hide Judge, MakeEntry;
  }

  lemma GrowthKeepsSub(s: State, s': State, sub: Submission)
    requires Grows(s, s') && SubOk(s, sub)
    ensures SubOk(s', sub)
  {
  }

  lemma MovedSub(cfg: Config, s: State, step: Step, i: nat)
    requires TableOk(cfg, s) && i in s.subs && SubOk(s, s.subs[i]) && i in Apply(cfg, s, step).subs
    requires Apply(cfg, s, step).subs[i] != s.subs[i]
    ensures SubOk(Apply(cfg, s, step), Apply(cfg, s, step).subs[i])
  {
    hide WellIssued;
  }

  lemma StepKeepsSub(cfg: Config, s: State, step: Step, i: nat)
    requires TableOk(cfg, s) && SubsOk(s) && (step.Issue? ==> step.challengeId !in s.issued)
    requires i in Apply(cfg, s, step).subs
    ensures SubOk(Apply(cfg, s, step), Apply(cfg, s, step).subs[i])
  {
    StepGrows(cfg, s, step);
    if i in s.subs && Apply(cfg, s, step).subs[i] == s.subs[i] {
      hide Apply, TableOk, SubOk;
      GrowthKeepsSub(s, Apply(cfg, s, step), s.subs[i]);
    } else if i in s.subs {
      assert SubOk(s, s.subs[i]);
      hide SubsOk;
      MovedSub(cfg, s, step, i);
    }
  }

  /** Only taking a live entry makes a new holder. */
  lemma HolderWasOrTakes(cfg: Config, s: State, step: Step, i: nat)
    ensures var s' := Apply(cfg, s, step);
            i in s'.subs && Holds(s'.subs[i]) ==>
              && i in s.subs && s.subs[i].challengeId == s'.subs[i].challengeId
              && (Holds(s.subs[i]) || (step == Take(i) && s.subs[i].challengeId in s.tokens))
  {
    hide Judge, MakeEntry, ClientIn;
  }

  /** A live entry has no holder yet, so no second holder comes about. */
  lemma StepKeepsOneHolder(cfg: Config, s: State, step: Step)
    requires TableOk(cfg, s) && SubsOk(s) && OneHolder(s)
    ensures OneHolder(Apply(cfg, s, step))
  {
    hide Apply, WellIssued, ReadOk, SuccessOk;
    var s' := Apply(cfg, s, step);
    forall i, j | i in s'.subs && j in s'.subs && Holds(s'.subs[i]) && Holds(s'.subs[j])
                  && s'.subs[i].challengeId == s'.subs[j].challengeId
      ensures i == j
    {
      HolderWasOrTakes(cfg, s, step, i);
      HolderWasOrTakes(cfg, s, step, j);
      assert SubOk(s, s.subs[i]) && SubOk(s, s.subs[j]);
    }
  }

  /** Whoever holds the entry of a challenge with a stored result is the one who stored it. */
  lemma HolderIsWriter(s: State, i: nat)
    requires SubsOk(s) && OneHolder(s) && StoreOk(s)
    ensures i in s.subs && Holds(s.subs[i]) && s.subs[i].challengeId in s.store ==> s.subs[i].phase.Saved?
    ensures i in s.subs && Succeeded(s.subs[i]) ==> Holds(s.subs[i])
  {
    hide ReadOk, HolderOk;
    assert i in s.subs ==> SubOk(s, s.subs[i]);
    assert i in s.subs && s.subs[i].challengeId in s.store ==>
        SubOk(s, s.subs[s.store[s.subs[i].challengeId].writer]);
  }

  lemma StepKeepsStore(cfg: Config, s: State, step: Step)
    requires SubsOk(s) && OneHolder(s) && StoreOk(s)
    ensures StoreOk(Apply(cfg, s, step))
  {
    if step.Save? {
      HolderIsWriter(s, step.sub);
    }
    hide SubsOk, OneHolder, Judge;
  }

  lemma StepKeepsInv(cfg: Config, s: State, step: Step)
    requires Inv(cfg, s) && (step.Issue? ==> step.challengeId !in s.issued)
    ensures Inv(cfg, Apply(cfg, s, step))
  {
    hide Apply, TableOk, OneHolder, StoreOk, SubOk;
    StepKeepsTable(cfg, s, step);
    forall i | i in Apply(cfg, s, step).subs
      ensures SubOk(Apply(cfg, s, step), Apply(cfg, s, step).subs[i])
    {
      StepKeepsSub(cfg, s, step, i);
    }
    StepKeepsOneHolder(cfg, s, step);
    StepKeepsStore(cfg, s, step);
  }

  lemma StartInv(cfg: Config)
    ensures Inv(cfg, START)
  {
  }

  lemma {:induction false} RunKeepsInv(cfg: Config, steps: seq<Step>)
    requires FreshIds(cfg, steps)
    ensures Inv(cfg, Run(cfg, steps))
  {
    hide Inv, Apply;
    if steps == [] {
      StartInv(cfg);
    } else {
      var init := steps[..|steps| - 1];
      assert forall i :: 0 <= i < |init| ==> init[..i] == steps[..i];
      RunKeepsInv(cfg, init);
      StepKeepsInv(cfg, Run(cfg, init), steps[|steps| - 1]);
    }
  }

  // --- What every run guarantees --------------------------------------------------------------

  lemma FreshPrefix(cfg: Config, steps: seq<Step>, p: nat)
    requires FreshIds(cfg, steps) && p <= |steps|
    ensures FreshIds(cfg, steps[..p])
  {
    assert forall i :: 0 <= i < p ==> steps[..p][..i] == steps[..i] && steps[..p][i] == steps[i];
  }

  /** The challenge is spent, and the submission does not hold its entry. */
  ghost predicate Barred(s: State, id: string, j: nat) {
    id in s.consumed && (j in s.subs && s.subs[j].challengeId == id ==> !Holds(s.subs[j]))
  }

  lemma StepKeepsBarred(cfg: Config, s: State, step: Step, id: string, j: nat)
    requires TableOk(cfg, s) && Barred(s, id, j)
    ensures Barred(Apply(cfg, s, step), id, j)
  {
    hide WellIssued, Judge;
  }

  /** Whoever comes too late for a challenge stays without it for the rest of the run. */
  lemma {:induction false} BarredForGood(cfg: Config, steps: seq<Step>, p: nat, q: nat, id: string, j: nat)
    requires FreshIds(cfg, steps) && p <= q <= |steps| && Barred(Run(cfg, steps[..p]), id, j)
    ensures Barred(Run(cfg, steps[..q]), id, j)
    decreases q
  {
    hide Barred, Apply, TableOk, SubsOk, OneHolder, StoreOk;
    if p < q {
      BarredForGood(cfg, steps, p, q - 1, id, j);
      FreshPrefix(cfg, steps, q - 1);
      RunKeepsInv(cfg, steps[..q - 1]);
      StepKeepsBarred(cfg, Run(cfg, steps[..q - 1]), steps[q - 1], id, j);
      assert steps[..q][..q - 1] == steps[..q - 1];
    }
  }

  /**
   At most one submission ever succeeds on a challenge: not two at different times of the run either,
   even when the first success was dropped in between.
   */
  lemma AtMostOneSuccess(cfg: Config, steps: seq<Step>, p: nat, q: nat, i: nat, j: nat)
    requires FreshIds(cfg, steps) && p <= q <= |steps|
    requires var early, late := Run(cfg, steps[..p]).subs, Run(cfg, steps[..q]).subs;
             i in early && j in late && Succeeded(early[i]) && Succeeded(late[j])
             && early[i].challengeId == late[j].challengeId
    ensures i == j
  {
    FreshPrefix(cfg, steps, p);
    FreshPrefix(cfg, steps, q);
    RunKeepsInv(cfg, steps[..p]);
    RunKeepsInv(cfg, steps[..q]);
    hide Run, TableOk, StoreOk, ReadOk;
    var s, t := Run(cfg, steps[..p]), Run(cfg, steps[..q]);
    assert SubOk(s, s.subs[i]) && SubOk(t, t.subs[j]);
    if i != j {
      BarredForGood(cfg, steps, p, q, s.subs[i].challengeId, j);
    }
  }

  /** Success means the issued token was presented, and checked no later than it expired. */
  lemma SuccessIsEarned(cfg: Config, steps: seq<Step>, i: nat)
    requires FreshIds(cfg, steps) && i in Run(cfg, steps).subs && Succeeded(Run(cfg, steps).subs[i])
    ensures var s := Run(cfg, steps);
            var sub := s.subs[i];
            && sub.challengeId in s.issued
            && var e := s.issued[sub.challengeId];
            sub.presented == e.token == cfg.mac(sub.challengeId, e.clientId, e.expiresAt)
            && sub.phase.checkedAt <= e.expiresAt && sub.phase.checkedAt <= s.clock
  {
    RunKeepsInv(cfg, steps);
  }

  /** Issued challenges are the live and the consumed ones, and no challenge is both. */
  lemma IssuedSplits(cfg: Config, steps: seq<Step>)
    requires FreshIds(cfg, steps)
    ensures var s := Run(cfg, steps);
            s.issued.Keys == s.tokens.Keys + s.consumed && s.tokens.Keys !! s.consumed
  {
    RunKeepsInv(cfg, steps);
  }

  /**
   No result is lost to a duplicate key, and a stored result names the issuing client exactly when its
   writer read the client after the challenge was issued.
   */
  lemma RecordsNameTheirClient(cfg: Config, steps: seq<Step>)
    requires FreshIds(cfg, steps)
    ensures var s := Run(cfg, steps);
            && s.lost == 0
            && forall id :: id in s.store ==>
                              && id in s.issued && id in s.consumed && s.store[id].writer in s.subs
                              && (s.store[id].clientId == s.issued[id].clientId <==> !s.subs[s.store[id].writer].early)
  {
    RunKeepsInv(cfg, steps);
    var s := Run(cfg, steps);
    forall id | id in s.store
      ensures id in s.issued && id in s.consumed && s.store[id].writer in s.subs
      ensures s.store[id].clientId == s.issued[id].clientId <==> !s.subs[s.store[id].writer].early
    {
      assert SubOk(s, s.subs[s.store[id].writer]);
    }
  }

  ghost predicate OnRecord(cfg: Config, s: State, id: string, client: string, due: int) {
    id in s.issued && s.issued[id] == Entry(cfg.mac(id, client, due), client, due)
  }

  lemma IssuePutsOnRecord(cfg: Config, s: State, id: string, client: string, stampedAt: int)
    requires client != ""
    ensures OnRecord(cfg, Apply(cfg, s, Issue(id, client, stampedAt)), id, client, stampedAt + cfg.ttl)
  {
  }

  lemma StepKeepsOnRecord(cfg: Config, s: State, step: Step, id: string, client: string, due: int)
    requires OnRecord(cfg, s, id, client, due) && (step.Issue? ==> step.challengeId !in s.issued)
    ensures OnRecord(cfg, Apply(cfg, s, step), id, client, due)
  {
    StepGrows(cfg, s, step);
    hide Apply;
  }

  /** Once issued, an entry stays on record as the issue step made it. */
  lemma {:induction false} IssuedAsStamped(cfg: Config, steps: seq<Step>, k: nat)
    requires FreshIds(cfg, steps) && k < |steps| && steps[k].Issue? && steps[k].client != ""
    ensures OnRecord(cfg, Run(cfg, steps), steps[k].challengeId, steps[k].client, steps[k].stampedAt + cfg.ttl)
  {
    hide OnRecord, Apply;
    var init, last := steps[..|steps| - 1], steps[|steps| - 1];
    if k < |init| {
      FreshPrefix(cfg, steps, |init|);
      IssuedAsStamped(cfg, init, k);
      StepKeepsOnRecord(
        cfg, Run(cfg, init), last, steps[k].challengeId, steps[k].client, steps[k].stampedAt + cfg.ttl);
    } else {
      IssuePutsOnRecord(cfg, Run(cfg, init), last.challengeId, last.client, last.stampedAt);
    }
  }

  /** A challenge is good for the configured time from its issue, and only for the token made then. */
  lemma SuccessIsInTime(cfg: Config, steps: seq<Step>, k: nat, i: nat)
    requires FreshIds(cfg, steps) && k < |steps| && steps[k].Issue? && steps[k].client != ""
    requires i in Run(cfg, steps).subs && Succeeded(Run(cfg, steps).subs[i])
    requires Run(cfg, steps).subs[i].challengeId == steps[k].challengeId
    ensures var sub, due := Run(cfg, steps).subs[i], steps[k].stampedAt + cfg.ttl;
            sub.phase.checkedAt <= due && sub.presented == cfg.mac(sub.challengeId, steps[k].client, due)
  {
    IssuedAsStamped(cfg, steps, k);
    SuccessIsEarned(cfg, steps, i);
  }

  lemma RunOneMore(cfg: Config, steps: seq<Step>, step: Step)
    ensures Run(cfg, steps + [step]) == Apply(cfg, Run(cfg, steps), step)
  {
    assert (steps + [step])[..|steps|] == steps;
  }

  /** A submission that names a challenge and looks up its client before the challenge is issued to alice. */
  function EarlyStart(cfg: Config): seq<Step> {
    [Begin(0, "c", MakeEntry(cfg, "c", "alice", 0).token)] + [ReadClient(0)] + [Issue("c", "alice", 0)]
  }

  function EarlyRun(cfg: Config): seq<Step> {
    EarlyStart(cfg) + [Take(0)] + [Check(0)] + [Save(0)]
  }

  lemma EarlyStartState(cfg: Config)
    ensures var e := MakeEntry(cfg, "c", "alice", 0);
            Run(cfg, EarlyStart(cfg)) == START.(tokens := map["c" := e], issued := map["c" := e],
            subs := map[0 := Submission("c", e.token, ClientRead(""), true)])
    ensures FreshIds(cfg, EarlyRun(cfg))
  {
    var s0 := [Begin(0, "c", MakeEntry(cfg, "c", "alice", 0).token)];
    var s1 := s0 + [ReadClient(0)];
    assert [] + s0 == s0;
    RunOneMore(cfg, [], s0[0]);
    RunOneMore(cfg, s0, ReadClient(0));
    RunOneMore(cfg, s1, Issue("c", "alice", 0));
    assert EarlyRun(cfg)[..2] == s1;
  }

  /** Reading the client too early does happen: the stored result then names no one. */
  lemma EarlyReadLosesTheClient(cfg: Config)
    requires cfg.ttl >= 0
    ensures FreshIds(cfg, EarlyRun(cfg))
    ensures var s := Run(cfg, EarlyRun(cfg));
            "c" in s.store && s.store["c"].clientId == "" && "c" in s.issued && s.issued["c"].clientId == "alice"
  {
    hide Run, FreshIds, EarlyStart;
    EarlyStartState(cfg);
    var s2 := EarlyStart(cfg);
    var s3 := s2 + [Take(0)];
    RunOneMore(cfg, s2, Take(0));
    RunOneMore(cfg, s3, Check(0));
    RunOneMore(cfg, s3 + [Check(0)], Save(0));
  }

  // --- One submission without interruption ----------------------------------------------------

  /** Read the client, take the entry, check, and then save or give up. */
  function Serially(sub: nat, known: bool): seq<Step> {
    [ReadClient(sub)] + [Take(sub)] + [Check(sub)] + [if known then Save(sub) else Drop(sub)]
  }

  lemma ReadAndTake(cfg: Config, s: State, sub: nat)
    requires sub in s.subs && s.subs[sub].phase.Begun?
    ensures var t := Apply(cfg, Apply(cfg, s, ReadClient(sub)), Take(sub));
            var id := s.subs[sub].challengeId;
            && t.issued == s.issued && t.tokens == s.tokens - {id} && t.store == s.store && t.lost == s.lost
            && t.clock == s.clock && sub in t.subs
            && t.subs[sub] == s.subs[sub].(phase := Taken(ClientIn(s.tokens, id), Find(s.tokens, id)),
                              early := id !in s.issued)
  {
    hide MakeEntry, Judge;
    var id := s.subs[sub].challengeId;
    assert id !in s.tokens ==> s.tokens == s.tokens - {id};
  }

  lemma CheckAndSettle(cfg: Config, s: State, sub: nat, known: bool)
    requires sub in s.subs && s.subs[sub].phase.Taken? && s.subs[sub].challengeId !in s.store
    ensures var t := Apply(cfg, Apply(cfg, s, Check(sub)), if known then Save(sub) else Drop(sub));
            var p, id := s.subs[sub].phase, s.subs[sub].challengeId;
            var judged := Judge(p.entry, s.clock, s.subs[sub].presented);
            && t.issued == s.issued && t.tokens == s.tokens && t.lost == s.lost && sub in t.subs
            && t.subs[sub].phase == (match judged
                                     case Failure(why) => Refused(why)
                                     case Success(_) => if known then Saved(p.clientId, p.entry, s.clock) else Dropped)
            && t.store == if judged.Success? && known then s.store[id := Record(p.clientId, sub)] else s.store
  {
    hide MakeEntry, Judge, ClientIn, Find;
  }

  /** A submission that found no entry is refused, be there a stored result or not. */
  lemma CheckWithoutEntry(cfg: Config, s: State, sub: nat, known: bool)
    requires sub in s.subs && s.subs[sub].phase.Taken? && s.subs[sub].phase.entry.None?
    ensures var t := Apply(cfg, Apply(cfg, s, Check(sub)), if known then Save(sub) else Drop(sub));
            && t.issued == s.issued && t.tokens == s.tokens && t.lost == s.lost && sub in t.subs
            && t.subs[sub].phase == Refused(UnknownChallenge) && t.store == s.store
  {
    hide MakeEntry, ClientIn, Find;
  }

  lemma OneMoreStep(cfg: Config, steps: seq<Step>, step: Step)
    requires FreshIds(cfg, steps) && !step.Issue?
    ensures FreshIds(cfg, steps + [step])
    ensures Run(cfg, steps + [step]) == Apply(cfg, Run(cfg, steps), step)
  {
    RunOneMore(cfg, steps, step);
    hide Run;
    assert forall i :: 0 <= i < |steps| ==> (steps + [step])[..i] == steps[..i] && (steps + [step])[i] == steps[i];
  }

  /** A challenge that is still live has no stored result. */
  lemma LiveIsNotStored(cfg: Config, s: State, id: string)
    requires Inv(cfg, s)
    ensures id in s.tokens ==> id !in s.store && id in s.issued && s.tokens[id] == s.issued[id]
  {
    if id in s.store {
      assert SubOk(s, s.subs[s.store[id].writer]);
    }
  }

  lemma SerialSteps(cfg: Config, steps: seq<Step>, sub: nat, known: bool)
    requires FreshIds(cfg, steps)
    ensures FreshIds(cfg, steps + Serially(sub, known))
    ensures var taken := Apply(cfg, Apply(cfg, Run(cfg, steps), ReadClient(sub)), Take(sub));
            Run(cfg, steps + Serially(sub, known))
            == Apply(cfg, Apply(cfg, taken, Check(sub)), if known then Save(sub) else Drop(sub))
  {
    var last := if known then Save(sub) else Drop(sub);
    var s1 := steps + [ReadClient(sub)];
    var s2 := s1 + [Take(sub)];
    var s3 := s2 + [Check(sub)];
    assert steps + Serially(sub, known) == s3 + [last];
    hide Run, FreshIds, Apply;
    OneMoreStep(cfg, steps, ReadClient(sub));
    OneMoreStep(cfg, s1, Take(sub));
    OneMoreStep(cfg, s2, Check(sub));
    OneMoreStep(cfg, s3, last);
  }

  /**
   Uninterrupted, a submission does what the handler promises of one call: the entry is gone whatever the
   outcome, the decision is that of the entry as found, and the result is stored, under a free key and with
   the client the challenge was issued to, exactly when it was accepted and its probes were known.
   */
  lemma SerialSubmission(cfg: Config, steps: seq<Step>, sub: nat, known: bool)
    requires FreshIds(cfg, steps)
    requires sub in Run(cfg, steps).subs && Run(cfg, steps).subs[sub].phase.Begun?
    ensures FreshIds(cfg, steps + Serially(sub, known))
    ensures var s, t := Run(cfg, steps), Run(cfg, steps + Serially(sub, known));
            var id := s.subs[sub].challengeId;
            var judged := Judge(Find(s.tokens, id), s.clock, s.subs[sub].presented);
            && t.issued == s.issued && t.tokens == s.tokens - {id} && t.lost == s.lost && sub in t.subs
            && (judged.Failure? ==> t.subs[sub].phase == Refused(judged.error) && t.store == s.store)
            && (judged.Success? && !known ==> t.subs[sub].phase == Dropped && t.store == s.store)
            && (judged.Success? && known ==>
                  && t.subs[sub].phase.Saved? && id in s.tokens && id !in s.store
                  && t.store == s.store[id := Record(s.tokens[id].clientId, sub)])
  {
    var s := Run(cfg, steps);
    SerialSteps(cfg, steps, sub, known);
    RunKeepsInv(cfg, steps);
    LiveIsNotStored(cfg, s, s.subs[sub].challengeId);
    ReadAndTake(cfg, s, sub);
    hide Run, FreshIds, Inv, Apply, Serially, MakeEntry;
    var taken := Apply(cfg, Apply(cfg, s, ReadClient(sub)), Take(sub));
    if s.subs[sub].challengeId in s.tokens {
      CheckAndSettle(cfg, taken, sub, known);
    } else {
      CheckWithoutEntry(cfg, taken, sub, known);
    }
  }

  /**
   On a challenge that is still live, the outcome in terms of the step that issued it: the token made then
   is good up to the configured time, later nothing is, and a wrong token in time is invalid. Without a live
   challenge the submission is refused as unknown.
   */
  lemma SerialOutcome(cfg: Config, steps: seq<Step>, k: nat, sub: nat, known: bool)
    requires FreshIds(cfg, steps) && k < |steps| && steps[k].Issue? && steps[k].client != ""
    requires sub in Run(cfg, steps).subs && Run(cfg, steps).subs[sub].phase.Begun?
    requires Run(cfg, steps).subs[sub].challengeId == steps[k].challengeId
    ensures var s, t := Run(cfg, steps), Run(cfg, steps + Serially(sub, known));
            var id, client, due := steps[k].challengeId, steps[k].client, steps[k].stampedAt + cfg.ttl;
            var right := s.subs[sub].presented == cfg.mac(id, client, due);
            sub in t.subs &&
            var phase := t.subs[sub].phase;
            && (phase == Refused(UnknownChallenge) <==> id !in s.tokens)
            && (phase == Refused(TokenExpired) <==> id in s.tokens && s.clock > due)
            && (phase == Refused(InvalidToken) <==> id in s.tokens && s.clock <= due && !right)
            && (phase == Dropped <==> id in s.tokens && s.clock <= due && right && !known)
            && (phase.Saved? <==> id in s.tokens && s.clock <= due && right && known)
            && (phase.Saved? ==> id in t.store && t.store[id] == Record(client, sub))
  {
    SerialSubmission(cfg, steps, sub, known);
    IssuedAsStamped(cfg, steps, k);
    RunKeepsInv(cfg, steps);
    hide Run, FreshIds, Inv, Apply, Serially, MakeEntry;
    LiveIsNotStored(cfg, Run(cfg, steps), steps[k].challengeId);
  }
}
