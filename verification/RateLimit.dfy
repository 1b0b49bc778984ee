/**
 The per-key request limiter (internal/ratelimit/ratelimit.go). Its window is anchored at the
 first request after the previous window ran out. Times are integers on a clock that never
 runs backwards.
 */
module RateLimit {
  datatype ClientWindow = ClientWindow(count: int, windowAt: int)

  datatype Config = Config(maxRequests: int, window: int)

  datatype Request = Request(key: string, at: int)

  type Clients = map<string, ClientWindow>

  // --- One request ----------------------------------------------------------------------------

  /** A request at `now` finds no window of its key still open. */
  predicate Opens(cfg: Config, clients: Clients, r: Request) {
    r.key !in clients || r.at - clients[r.key].windowAt >= cfg.window
  }

  predicate Allowed(cfg: Config, clients: Clients, r: Request) {
    Opens(cfg, clients, r) || clients[r.key].count < cfg.maxRequests
  }

  function After(cfg: Config, clients: Clients, r: Request): Clients {
    if Opens(cfg, clients, r) then clients[r.key := ClientWindow(1, r.at)]
    else if Allowed(cfg, clients, r) then clients[r.key := clients[r.key].(count := clients[r.key].count + 1)]
    else clients
  }

  // --- Runs -----------------------------------------------------------------------------------

  function ClientsAfter(cfg: Config, run: seq<Request>): Clients {
    if run == [] then map[] else After(cfg, ClientsAfter(cfg, run[..|run| - 1]), run[|run| - 1])
  }

  /** The decisions taken along a run. */
  function Decisions(cfg: Config, run: seq<Request>): (d: seq<bool>)
    ensures |d| == |run|
  {
    if run == [] then [] else
    var init := run[..|run| - 1];
    Decisions(cfg, init) + [Allowed(cfg, ClientsAfter(cfg, init), run[|run| - 1])]
  }

  ghost predicate Ordered(run: seq<Request>) {
    forall i, j :: 0 <= i < j < |run| ==> run[i].at <= run[j].at
  }

  /** How many requests of `key` with a time in [from, until) the run admits. */
  function Admitted(cfg: Config, run: seq<Request>, key: string, from: int, until: int): nat {
    if run == [] then 0 else
    var init, r := run[..|run| - 1], run[|run| - 1];
    Admitted(cfg, init, key, from, until)
    + if r.key == key && from <= r.at < until && Allowed(cfg, ClientsAfter(cfg, init), r) then 1 else 0
  }

  /** The number of requests one window can hold: its first request always goes through. */
  function Capacity(cfg: Config): nat {
    if cfg.maxRequests < 1 then 1 else cfg.maxRequests
  }

  class Limiter {
    const cfg: Config
    var clients: Clients
    ghost var run: seq<Request>

    /** The client table is what the requests so far, in clock order, make of an empty one. */
    ghost predicate Valid()
      reads this
    {
      Ordered(run) && clients == ClientsAfter(cfg, run)
    }

    constructor (maxRequests: int, window: int)
      ensures Valid() && run == [] && cfg == Config(maxRequests, window)
    {
      cfg := Config(maxRequests, window);
      clients := map[];
      run := [];
    }

    method Allow(key: string, now: int) returns (ok: bool)
      requires Valid() && (run == [] || run[|run| - 1].at <= now)
      modifies this
      ensures Valid() && run == old(run) + [Request(key, now)]
      ensures Decisions(cfg, run) == Decisions(cfg, old(run)) + [ok]
      ensures forall k :: k != key ==> (k in clients <==> k in old(clients))
      ensures forall k :: k != key && k in clients ==> clients[k] == old(clients)[k]
    {
      ghost var r := Request(key, now);
      run := run + [r];
      assert run[..|run| - 1] == old(run);
      if key !in clients || now - clients[key].windowAt >= cfg.window {
        clients := clients[key := ClientWindow(1, now)];
        return true;
      }
      var cw := clients[key];
      if cw.count >= cfg.maxRequests {
        return false;
      }
      clients := clients[key := cw.(count := cw.count + 1)];
      return true;
    }
  }

  // --- The rate bound -------------------------------------------------------------------------

  /** What full windows begun at least a window length before `offset` can have admitted. */
  function Spent(cfg: Config, offset: nat): nat
    requires cfg.window > 0
    decreases offset
  {
    if offset < cfg.window then 0 else Capacity(cfg) + Spent(cfg, offset - cfg.window)
  }

  /** One full window for every window length begun. */
  function FullWindows(cfg: Config, length: int): nat
    requires cfg.window > 0
    decreases length
  {
    if length <= 0 then 0 else Capacity(cfg) + FullWindows(cfg, length - cfg.window)
  }

  lemma {:induction false} FullWindowsExactly(cfg: Config, length: int, k: nat)
    requires cfg.window > 0 && (k - 1) * cfg.window < length <= k * cfg.window
    ensures FullWindows(cfg, length) == k * Capacity(cfg)
    decreases k
  {
    if k > 0 {
      assert (k - 1) * cfg.window == k * cfg.window - cfg.window;
      assert (k - 2) * cfg.window == (k - 1) * cfg.window - cfg.window;
      assert (k - 1) * Capacity(cfg) == k * Capacity(cfg) - Capacity(cfg);
      FullWindowsExactly(cfg, length - cfg.window, k - 1);
    }
  }

  lemma {:induction false} SpentLater(cfg: Config, a: nat, b: nat)
    requires cfg.window > 0 && b >= a + cfg.window
    ensures Spent(cfg, b) >= Spent(cfg, a) + Capacity(cfg)
    decreases a
  {
    if a >= cfg.window {
      SpentLater(cfg, a - cfg.window, b - cfg.window);
    }
  }

  /** A window begun inside an interval still fits the bound in full. */
  lemma {:induction false} SpentInside(cfg: Config, offset: nat, length: int)
    requires cfg.window > 0 && offset < length
    ensures Spent(cfg, offset) + Capacity(cfg) <= FullWindows(cfg, length)
    decreases offset
  {
    if offset >= cfg.window {
      SpentInside(cfg, offset - cfg.window, length - cfg.window);
    }
  }

  /** The larger of what full windows alone and full windows after a tail can admit. */
  function Most(cfg: Config, length: nat): nat
    requires cfg.window > 0 && length > 0
  {
    var whole, afterTail := FullWindows(cfg, length), FullWindows(cfg, length - 1) + Capacity(cfg) - 1;
    if whole < afterTail then afterTail else whole
  }

  ghost predicate WithoutTail(cfg: Config, w: ClientWindow, from: int, c: nat)
    requires cfg.window > 0 && from <= w.windowAt
  {
    c <= Spent(cfg, w.windowAt - from) + w.count
  }

  ghost predicate WithTail(cfg: Config, w: ClientWindow, from: int, c: nat)
    requires cfg.window > 0 && from <= w.windowAt
  {
    from < w.windowAt && c <= Capacity(cfg) - 1 + Spent(cfg, w.windowAt - from - 1) + w.count
  }

  /**
   With `c` admissions counted so far, the current window of the key limits how many there are. A window
   begun before the interval spent its first request outside it. One begun inside comes after at most
   one full window per window length; if the interval also caught the tail of an earlier window, the
   first window inside it begins at least one tick later.
   */
  ghost predicate Budget(cfg: Config, clients: Clients, key: string, from: int, until: int, c: nat)
    requires cfg.window > 0 && from < until
  {
    && c <= Most(cfg, until - from)
    && if key !in clients then c == 0 else
       var w := clients[key];
       && 1 <= w.count <= Capacity(cfg)
       && (w.windowAt < from ==> c <= w.count - 1 && (c > 0 ==> w.windowAt + cfg.window > from))
       && (from <= w.windowAt < until ==> WithoutTail(cfg, w, from, c) || WithTail(cfg, w, from, c))
  }

  lemma BudgetStep(cfg: Config, clients: Clients, r: Request, key: string, from: int, until: int, c: nat)
    requires cfg.window > 0 && from < until
    requires key in clients ==> clients[key].windowAt <= r.at
    requires Budget(cfg, clients, key, from, until, c) && (r.at < from ==> c == 0)
    ensures Budget(cfg, After(cfg, clients, r), key, from, until,
                   if r.key == key && from <= r.at < until && Allowed(cfg, clients, r) then c + 1 else c)
  {
    hide Spent, FullWindows;
    if r.key == key && Allowed(cfg, clients, r) {
      var w' := After(cfg, clients, r)[key];
      if key in clients && from <= clients[key].windowAt && Opens(cfg, clients, r) {
        SpentLater(cfg, clients[key].windowAt - from, r.at - from);
        if from < clients[key].windowAt {
          SpentLater(cfg, clients[key].windowAt - from - 1, r.at - from - 1);
        }
      }
      if from <= w'.windowAt < until {
        SpentInside(cfg, w'.windowAt - from, until - from);
        if from < w'.windowAt {
          SpentInside(cfg, w'.windowAt - from - 1, until - from - 1);
        }
      }
    }
  }

  lemma {:induction false} WindowsNotAfter(cfg: Config, run: seq<Request>, key: string, now: int)
    requires forall i :: 0 <= i < |run| ==> run[i].at <= now
    ensures var clients := ClientsAfter(cfg, run); key in clients ==> clients[key].windowAt <= now
  {
    if run != [] {
      WindowsNotAfter(cfg, run[..|run| - 1], key, now);
    }
  }

  lemma {:induction false} NothingBefore(cfg: Config, run: seq<Request>, key: string, from: int, until: int, now: int)
    requires forall i :: 0 <= i < |run| ==> run[i].at <= now
    ensures now < from ==> Admitted(cfg, run, key, from, until) == 0
  {
    if run != [] {
      NothingBefore(cfg, run[..|run| - 1], key, from, until, now);
    }
  }

  lemma EmptyBudget(cfg: Config, key: string, from: int, until: int)
    requires cfg.window > 0 && from < until
    ensures Budget(cfg, map[], key, from, until, 0)
  {
  }

  lemma {:induction false} RunWithinBudget(cfg: Config, run: seq<Request>, key: string, from: int, until: int)
    requires cfg.window > 0 && from < until && Ordered(run)
    ensures Budget(cfg, ClientsAfter(cfg, run), key, from, until, Admitted(cfg, run, key, from, until))
  {
    hide Budget;
    if run == [] {
      EmptyBudget(cfg, key, from, until);
    } else {
      var init, r := run[..|run| - 1], run[|run| - 1];
      RunWithinBudget(cfg, init, key, from, until);
      WindowsNotAfter(cfg, init, key, r.at);
      NothingBefore(cfg, init, key, from, until, r.at);
      BudgetStep(cfg, ClientsAfter(cfg, init), r, key, from, until, Admitted(cfg, init, key, from, until));
    }
  }

  /**
   The most requests of a key an interval can admit that is longer than `k` window lengths and no longer
   than k + 1: that many full windows, and before them all but the first request of another one unless
   the interval is only one tick longer than `k` window lengths.
   */
  function MostIn(cfg: Config, length: nat, k: nat): nat
    requires k * cfg.window < length
  {
    (k + 1) * Capacity(cfg) + if length == k * cfg.window + 1 then 0 else Capacity(cfg) - 1
  }

  lemma MostIsMostIn(cfg: Config, length: nat, k: nat)
    requires cfg.window > 0 && k * cfg.window < length <= (k + 1) * cfg.window
    ensures Most(cfg, length) == MostIn(cfg, length, k)
  {
    hide FullWindows;
    assert (k + 1) * cfg.window == k * cfg.window + cfg.window;
    assert (k - 1) * cfg.window == k * cfg.window - cfg.window;
    assert (k + 1) * Capacity(cfg) == k * Capacity(cfg) + Capacity(cfg);
    FullWindowsExactly(cfg, length, k + 1);
    FullWindowsExactly(cfg, length - 1, if length == k * cfg.window + 1 then k else k + 1);
  }

  lemma RateBound(cfg: Config, run: seq<Request>, key: string, from: int, until: int, k: nat)
    requires cfg.window > 0 && k * cfg.window < until - from <= (k + 1) * cfg.window && Ordered(run)
    ensures Admitted(cfg, run, key, from, until) <= MostIn(cfg, until - from, k)
  {
    hide Most, FullWindows;
    assert k * cfg.window >= 0;
    RunWithinBudget(cfg, run, key, from, until);
    MostIsMostIn(cfg, until - from, k);
  }

  /** A window length of zero or less turns the limiter off. */
  lemma NoWindowNoLimit(cfg: Config, clients: Clients, r: Request)
    requires cfg.window <= 0 && (r.key in clients ==> clients[r.key].windowAt <= r.at)
    ensures Allowed(cfg, clients, r)
  {
  }

  // --- The bound is attained ------------------------------------------------------------------

  /** `n` requests of one key at one instant. */
  function Burst(key: string, at: int, n: nat): seq<Request> {
    if n == 0 then [] else Burst(key, at, n - 1) + [Request(key, at)]
  }

  lemma {:induction false} BurstShape(key: string, at: int, n: nat)
    ensures |Burst(key, at, n)| == n && forall i :: 0 <= i < n ==> Burst(key, at, n)[i] == Request(key, at)
  {
    if n > 0 {
      BurstShape(key, at, n - 1);
    }
  }

  lemma OneMore(cfg: Config, run: seq<Request>, r: Request, key: string, from: int, until: int)
    ensures ClientsAfter(cfg, run + [r]) == After(cfg, ClientsAfter(cfg, run), r)
    ensures Admitted(cfg, run + [r], key, from, until)
         == Admitted(cfg, run, key, from, until)
            + if r.key == key && from <= r.at < until && Allowed(cfg, ClientsAfter(cfg, run), r) then 1 else 0
  {
    assert (run + [r])[..|run|] == run;
  }

  /** A burst that fits the open window is admitted in full. */
  lemma {:induction false} BurstIntoOpenWindow(
    cfg: Config, run: seq<Request>, key: string, at: int, n: nat, from: int, until: int)
    requires var clients := ClientsAfter(cfg, run);
             key in clients && at - clients[key].windowAt < cfg.window
             && (n == 0 || clients[key].count + n <= cfg.maxRequests)
    ensures var w := ClientsAfter(cfg, run)[key];
            var clients := ClientsAfter(cfg, run + Burst(key, at, n));
            key in clients && clients[key] == ClientWindow(w.count + n, w.windowAt)
    ensures Admitted(cfg, run + Burst(key, at, n), key, from, until)
         == Admitted(cfg, run, key, from, until) + if from <= at < until then n else 0
  {
    hide ClientsAfter, Admitted;
    if n == 0 {
      assert run + Burst(key, at, 0) == run;
    } else {
      BurstIntoOpenWindow(cfg, run, key, at, n - 1, from, until);
      OneMore(cfg, run + Burst(key, at, n - 1), Request(key, at), key, from, until);
      assert run + Burst(key, at, n) == run + Burst(key, at, n - 1) + [Request(key, at)];
    }
  }

  /** A burst of exactly one window's capacity, once the old window has run out, is admitted in full. */
  lemma BurstIntoNewWindow(cfg: Config, run: seq<Request>, key: string, at: int, from: int, until: int)
    requires cfg.window > 0
    requires var clients := ClientsAfter(cfg, run); key in clients ==> at - clients[key].windowAt >= cfg.window
    ensures var clients := ClientsAfter(cfg, run + Burst(key, at, Capacity(cfg)));
            key in clients && clients[key] == ClientWindow(Capacity(cfg), at)
    ensures Admitted(cfg, run + Burst(key, at, Capacity(cfg)), key, from, until)
         == Admitted(cfg, run, key, from, until) + if from <= at < until then Capacity(cfg) else 0
  {
    hide ClientsAfter, Admitted, Burst;
    OneMore(cfg, run, Request(key, at), key, from, until);
    BurstIntoOpenWindow(cfg, run + [Request(key, at)], key, at, Capacity(cfg) - 1, from, until);
    BurstShape(key, at, Capacity(cfg));
    BurstShape(key, at, Capacity(cfg) - 1);
    assert run + [Request(key, at)] + Burst(key, at, Capacity(cfg) - 1) == run + Burst(key, at, Capacity(cfg));
  }

  /** One request at 0, a burst just before that window ends, then a full burst at every window start up to the k-th. */
  function Worst(cfg: Config, key: string, k: nat): seq<Request>
    requires cfg.window > 0
  {
    if k == 0 then [Request(key, 0)] + Burst(key, cfg.window - 1, Capacity(cfg) - 1)
    else Worst(cfg, key, k - 1) + Burst(key, k * cfg.window, Capacity(cfg))
  }

  lemma StartState(cfg: Config, key: string, from: int, until: int)
    requires from > 0
    ensures ClientsAfter(cfg, [Request(key, 0)]) == map[key := ClientWindow(1, 0)]
    ensures Admitted(cfg, [Request(key, 0)], key, from, until) == 0
  {
    assert [] + [Request(key, 0)] == [Request(key, 0)];
    OneMore(cfg, [], Request(key, 0), key, from, until);
  }

  /** Counting from just before or from the end of the first window, and past the k-th window start. */
  lemma {:induction false} WorstState(cfg: Config, key: string, k: nat, from: int, until: int)
    requires cfg.window > 0 && 0 < from && cfg.window - 1 <= from <= cfg.window
    requires until > k * cfg.window && until >= cfg.window
    ensures var clients := ClientsAfter(cfg, Worst(cfg, key, k));
            key in clients && clients[key] == ClientWindow(Capacity(cfg), k * cfg.window)
    ensures Admitted(cfg, Worst(cfg, key, k), key, from, until)
         == k * Capacity(cfg) + if from < cfg.window then Capacity(cfg) - 1 else 0
  {
    hide ClientsAfter, Admitted, Burst;
    if k == 0 {
      StartState(cfg, key, from, until);
      BurstIntoOpenWindow(cfg, [Request(key, 0)], key, cfg.window - 1, Capacity(cfg) - 1, from, until);
    } else {
      assert (k - 1) * cfg.window == k * cfg.window - cfg.window;
      assert (k - 1) * Capacity(cfg) == k * Capacity(cfg) - Capacity(cfg);
      WorstState(cfg, key, k - 1, from, until);
      BurstIntoNewWindow(cfg, Worst(cfg, key, k - 1), key, k * cfg.window, from, until);
    }
  }

  lemma {:induction false} WorstIsOrdered(cfg: Config, key: string, k: nat)
    requires cfg.window > 0
    ensures Ordered(Worst(cfg, key, k))
    ensures forall i :: 0 <= i < |Worst(cfg, key, k)| ==> Worst(cfg, key, k)[i].at < k * cfg.window + cfg.window
  {
    if k == 0 {
      BurstShape(key, cfg.window - 1, Capacity(cfg) - 1);
    } else {
      assert (k - 1) * cfg.window == k * cfg.window - cfg.window;
      WorstIsOrdered(cfg, key, k - 1);
      BurstShape(key, k * cfg.window, Capacity(cfg));
    }
  }

  /** For every interval length some run admits exactly that many, so the bound cannot be improved at any length. */
  lemma RateBoundAttained(cfg: Config, key: string, length: nat, k: nat) returns (run: seq<Request>, from: int)
    requires cfg.window > 0 && k * cfg.window < length <= (k + 1) * cfg.window
    ensures Ordered(run) && Admitted(cfg, run, key, from, from + length) == MostIn(cfg, length, k)
  {
    hide ClientsAfter, Admitted, Worst;
    assert (k + 1) * cfg.window == k * cfg.window + cfg.window;
    assert k * cfg.window >= 0;
    run, from := Worst(cfg, key, k + 1), if length == k * cfg.window + 1 then cfg.window else cfg.window - 1;
    WorstIsOrdered(cfg, key, k + 1);
    WorstState(cfg, key, k + 1, from, from + length);
  }

  // --- When the limiter keeps the promise of a sliding window ---------------------------------

  /** No interval of one window length ever admits more than `maxRequests` requests of a key. */
  ghost predicate SlidingLimit(cfg: Config) {
    forall run, key, from, until :: Ordered(run) && until == from + cfg.window ==>
                                      Admitted(cfg, run, key, from, until) <= cfg.maxRequests
  }

  /** The configuration keeps that promise exactly when it allows one request, or its window is one tick. */
  lemma SlidingLimitIff(cfg: Config)
    requires cfg.window > 0
    ensures SlidingLimit(cfg) <==> cfg.maxRequests == 1 || (cfg.window == 1 && cfg.maxRequests >= 1)
  {
    hide Admitted, Ordered;
    if cfg.maxRequests == 1 || (cfg.window == 1 && cfg.maxRequests >= 1) {
      forall run, key, from, until | Ordered(run) && until == from + cfg.window
        ensures Admitted(cfg, run, key, from, until) <= cfg.maxRequests
      {
        RateBound(cfg, run, key, from, until, 0);
      }
    } else {
      var run, from := RateBoundAttained(cfg, "", cfg.window, 0);
    }
  }

  // --- Never stricter than a sliding log ------------------------------------------------------

  lemma {:induction false} AdmittedShrinks(
    cfg: Config, run: seq<Request>, key: string, from: int, later: int, until: int)
    requires from <= later
    ensures Admitted(cfg, run, key, later, until) <= Admitted(cfg, run, key, from, until)
  {
    if run != [] {
      AdmittedShrinks(cfg, run[..|run| - 1], key, from, later, until);
    }
  }

  /** Nothing of the key has been admitted after its current window ran out. */
  lemma {:induction false} AdmittedBeforeWindowEnd(cfg: Config, run: seq<Request>, key: string, until: int)
    requires cfg.window > 0 && Ordered(run)
    ensures var clients := ClientsAfter(cfg, run);
            key in clients ==> Admitted(cfg, run, key, clients[key].windowAt + cfg.window, until) == 0
    ensures key !in ClientsAfter(cfg, run) ==> forall from :: Admitted(cfg, run, key, from, until) == 0
  {
    if run != [] {
      var init, r := run[..|run| - 1], run[|run| - 1];
      AdmittedBeforeWindowEnd(cfg, init, key, until);
      NothingBefore(cfg, run, key, r.at + cfg.window, until, r.at);
    }
  }

  /** The counter of a window is the number of requests admitted since it began. */
  lemma {:induction false} CountIsAdmitted(cfg: Config, run: seq<Request>, key: string, until: int)
    requires cfg.window > 0 && Ordered(run) && forall i :: 0 <= i < |run| ==> run[i].at < until
    ensures var clients := ClientsAfter(cfg, run);
            key in clients ==> Admitted(cfg, run, key, clients[key].windowAt, until) == clients[key].count
  {
    if run != [] {
      var init, r := run[..|run| - 1], run[|run| - 1];
      var before := ClientsAfter(cfg, init);
      CountIsAdmitted(cfg, init, key, until);
      AdmittedBeforeWindowEnd(cfg, init, key, until);
      WindowsNotAfter(cfg, init, key, r.at);
      if r.key == key && key in before && Opens(cfg, before, r) {
        AdmittedShrinks(cfg, init, key, before[key].windowAt + cfg.window, r.at, until);
      }
    }
  }

  /** How many requests of the key were admitted in the window length up to and including `r`. */
  function RecentlyAdmitted(cfg: Config, run: seq<Request>, r: Request): nat {
    Admitted(cfg, run, r.key, r.at - cfg.window + 1, r.at + 1)
  }

  /**
   A refusal means the capacity was reached within the last window length: exactly that many admissions
   since the window's anchor, and between that and twice it less one in all.
   */
  lemma RefusalIsEarned(cfg: Config, run: seq<Request>, r: Request)
    requires cfg.window > 0 && Ordered(run + [r]) && !Allowed(cfg, ClientsAfter(cfg, run), r)
    ensures var anchor := ClientsAfter(cfg, run)[r.key].windowAt;
            r.at - cfg.window < anchor <= r.at
            && Admitted(cfg, run, r.key, anchor, r.at + 1) == Capacity(cfg)
    ensures Capacity(cfg) <= RecentlyAdmitted(cfg, run, r) <= MostIn(cfg, cfg.window, 0)
  {
    var all := run + [r];
    assert forall i :: 0 <= i < |run| ==> run[i] == all[i] && all[i].at <= all[|run|].at;
    WindowsNotAfter(cfg, run, r.key, r.at);
    CountIsAdmitted(cfg, run, r.key, r.at + 1);
    RunWithinBudget(cfg, run, r.key, r.at - cfg.window + 1, r.at + 1);
    RateBound(cfg, run, r.key, r.at - cfg.window + 1, r.at + 1, 0);
    AdmittedShrinks(cfg, run, r.key, r.at - cfg.window + 1, ClientsAfter(cfg, run)[r.key].windowAt, r.at + 1);
  }

  lemma WorstEndsAtWindow(cfg: Config, key: string)
    requires cfg.window > 0
    ensures forall i :: 0 <= i < |Worst(cfg, key, 1)| ==> Worst(cfg, key, 1)[i].at <= cfg.window
  {
    WorstIsOrdered(cfg, key, 0);
    BurstShape(key, cfg.window, Capacity(cfg));
    assert Worst(cfg, key, 1) == Worst(cfg, key, 0) + Burst(key, 1 * cfg.window, Capacity(cfg));
  }

  /** The upper end is reached: a refusal can follow that many admissions within one window length. */
  lemma RefusalAfterMost(cfg: Config, key: string) returns (run: seq<Request>, r: Request)
    requires cfg.window > 0
    ensures Ordered(run + [r]) && !Allowed(cfg, ClientsAfter(cfg, run), r)
    ensures RecentlyAdmitted(cfg, run, r) == MostIn(cfg, cfg.window, 0)
  {
    hide ClientsAfter, Admitted;
    run, r := Worst(cfg, key, 1), Request(key, cfg.window);
    WorstIsOrdered(cfg, key, 1);
    var from := if cfg.window == 1 then 1 else cfg.window - 1;
    WorstState(cfg, key, 1, from, cfg.window + 1);
    WorstEndsAtWindow(cfg, key);
    AdmittedShrinks(cfg, run, key, 1, from, cfg.window + 1);
    RefusalIsEarned(cfg, run, r);
  }

  /** Every refusal comes after exactly `maxRequests` admissions in the last window length. */
  ghost predicate RefusalsExact(cfg: Config) {
    forall run, r :: Ordered(run + [r]) && !Allowed(cfg, ClientsAfter(cfg, run), r) ==>
                       RecentlyAdmitted(cfg, run, r) == cfg.maxRequests
  }

  /** The same configurations refuse exactly at the limit. */
  lemma RefusalsExactIff(cfg: Config)
    requires cfg.window > 0
    ensures RefusalsExact(cfg) <==> cfg.maxRequests == 1 || (cfg.window == 1 && cfg.maxRequests >= 1)
  {
    hide RecentlyAdmitted, ClientsAfter, Ordered, Allowed;
    if cfg.maxRequests == 1 || (cfg.window == 1 && cfg.maxRequests >= 1) {
      forall run, r | Ordered(run + [r]) && !Allowed(cfg, ClientsAfter(cfg, run), r)
        ensures RecentlyAdmitted(cfg, run, r) == cfg.maxRequests
      {
        RefusalIsEarned(cfg, run, r);
      }
    } else {
      var run, r := RefusalAfterMost(cfg, "");
    }
  }

  // --- Keys are independent -------------------------------------------------------------------

  function Only(run: seq<Request>, key: string): seq<Request> {
    if run == [] then [] else
    Only(run[..|run| - 1], key) + if run[|run| - 1].key == key then [run[|run| - 1]] else []
  }

  /** The decisions of the full run on the requests of one key. */
  function DecisionsOn(cfg: Config, run: seq<Request>, key: string): seq<bool> {
    if run == [] then [] else
    var init, r := run[..|run| - 1], run[|run| - 1];
    DecisionsOn(cfg, init, key) + if r.key == key then [Allowed(cfg, ClientsAfter(cfg, init), r)] else []
  }

  /** One key fares in an interleaved run exactly as it would alone. */
  lemma {:induction false} KeysAreIndependent(cfg: Config, run: seq<Request>, key: string)
    ensures var all, alone := ClientsAfter(cfg, run), ClientsAfter(cfg, Only(run, key));
            (key in all <==> key in alone) && (key in all ==> all[key] == alone[key])
    ensures DecisionsOn(cfg, run, key) == Decisions(cfg, Only(run, key))
  {
    if run != [] {
      var init, r := run[..|run| - 1], run[|run| - 1];
      KeysAreIndependent(cfg, init, key);
      if r.key == key {
        assert Only(run, key) == Only(init, key) + [r];
        assert Only(run, key)[..|Only(run, key)| - 1] == Only(init, key);
      } else {
        assert Only(run, key) == Only(init, key);
      }
    }
  }
}
