/**
 The rate-limiting decision of src/common/throttler/throttle-window.ts.

 A key carries a window with a hit counter and, once the counter passes the limit, a block.
 The first half states the decision; the second half states what a whole run of requests gets,
 in terms of the request times alone: the run falls into epochs, and a request is refused
 exactly when its rank inside its epoch exceeds the limit.
 */
module ThrottleWindow {
  import opened Options

  /** What the guard passes for a key. Times are milliseconds. */
  datatype Config = Config(ttl: int, limit: int, blockDuration: int) {
    predicate Valid() {
      ttl > 0 && limit >= 0 && blockDuration > 0
    }

    /** The shortest time after which a key can get a fresh window. */
    function Period(): int {
      if ttl <= blockDuration then ttl else blockDuration
    }
  }

  /** A `blockedUntil` of 0 stands for no block. */
  datatype Window = Window(totalHits: int, windowEndsAt: int, blockedUntil: int)

  datatype Decision = Decision(totalHits: int, timeToExpire: int, isBlocked: bool, timeToBlockExpire: int)

  /** `Math.ceil(x / d)`. */
  function CeilDiv(x: int, d: int): int
    requires d > 0
  {
    (x + d - 1) / d
  }

  lemma CeilDivBounds(x: int, d: int)
    requires d > 0
    ensures x <= CeilDiv(x, d) * d < x + d
  {
  }

  // ---------- One request ----------

  /** The window no longer binds: it has ended, or its block has lapsed. */
  predicate Over(w: Window, now: int) {
    w.windowEndsAt <= now || 0 < w.blockedUntil <= now
  }

  function Hit(cfg: Config, w: Window, now: int): Window {
    Window(w.totalHits + 1, w.windowEndsAt, if w.totalHits + 1 > cfg.limit then now + cfg.blockDuration else 0)
  }

  /** The window a request at `now` leaves behind. */
  function Next(cfg: Config, current: Option<Window>, now: int): Window {
    if current.None? || Over(current.value, now) then
      Hit(cfg, Window(0, now + cfg.ttl, 0), now)
    else if current.value.blockedUntil == 0 then
      Hit(cfg, current.value, now)
    else
      current.value
  }

  /** What is reported about a window at `now`, in whole seconds. */
  function Report(w: Window, now: int): Decision {
    Decision(w.totalHits, CeilDiv(w.windowEndsAt - now, 1000), w.blockedUntil > now,
             if w.blockedUntil > now then CeilDiv(w.blockedUntil - now, 1000) else 0)
  }

  /** The decision as it is computed: copy or replace the window, then count, then block. */
  method AdvanceThrottleWindow(current: Option<Window>, now: nat, cfg: Config) returns (next: Window, record: Decision)
    ensures next == Next(cfg, current, now)
    ensures record == Report(next, now)
  {
    var reset := Window(0, now + cfg.ttl, 0);
    if current.None? || current.value.windowEndsAt <= now {
      next := reset;
    } else if current.value.blockedUntil > 0 && current.value.blockedUntil <= now {
      next := reset;
    } else {
      next := current.value;
    }

    if next.blockedUntil == 0 {
      next := next.(totalHits := next.totalHits + 1);
    }
    if next.totalHits > cfg.limit && next.blockedUntil == 0 {
      next := next.(blockedUntil := now + cfg.blockDuration);
    }

    var blockSeconds := 0;
    if next.blockedUntil > now {
      blockSeconds := CeilDiv(next.blockedUntil - now, 1000);
    }
    record := Decision(next.totalHits, CeilDiv(next.windowEndsAt - now, 1000), next.blockedUntil > now, blockSeconds);
  }

  /** The reported seconds never point before the stored instants, and less than a second past them. */
  lemma ReportedSeconds(w: Window, now: int)
    ensures var r := Report(w, now);
            && w.windowEndsAt <= now + 1000 * r.timeToExpire < w.windowEndsAt + 1000
            && (r.isBlocked ==> w.blockedUntil <= now + 1000 * r.timeToBlockExpire < w.blockedUntil + 1000)
            && (!r.isBlocked ==> r.timeToBlockExpire == 0)
  {
  }

  // ---------- A run of requests ----------

  predicate Nondecreasing(ts: seq<nat>) {
    forall i, j :: 0 <= i <= j < |ts| ==> ts[i] <= ts[j]
  }

  /** The stored window after the first `n` of the requests `ts`. */
  function After(cfg: Config, start: Option<Window>, ts: seq<nat>, n: nat): Option<Window>
    requires n <= |ts|
  {
    if n == 0 then start else Some(Next(cfg, After(cfg, start, ts, n - 1), ts[n - 1]))
  }

  /** The answer to request `k` of a run on a key without an item. */
  function DecisionAt(cfg: Config, ts: seq<nat>, k: nat): Decision
    requires k < |ts|
  {
    Report(After(cfg, None, ts, k + 1).value, ts[k])
  }

  /** Request `k` is refused: it leaves a block behind that is still ahead. */
  predicate Refused(cfg: Config, ts: seq<nat>, k: nat)
    requires k < |ts|
  {
    After(cfg, None, ts, k + 1).value.blockedUntil > ts[k]
  }

  lemma {:induction false} AfterIgnoresLaterRequests(cfg: Config, start: Option<Window>, ts: seq<nat>, us: seq<nat>,
                                                     n: nat)
    requires n <= |ts| && n <= |us| && ts[..n] == us[..n]
    ensures After(cfg, start, ts, n) == After(cfg, start, us, n)
  {
    if n > 0 {
      assert ts[..n][..n - 1] == ts[..n - 1] && us[..n][..n - 1] == us[..n - 1];
      assert ts[n - 1] == ts[..n][n - 1] == us[..n][n - 1] == us[n - 1];
      AfterIgnoresLaterRequests(cfg, start, ts, us, n - 1);
    }
  }

  /** The request that opened the epoch of request `k`, found from the request times alone. */
  function Opener(cfg: Config, ts: seq<nat>, k: nat): (o: nat)
    requires k < |ts| && cfg.limit >= 0
    ensures o <= k
  {
    if k == 0 then 0
    else
      var o := Opener(cfg, ts, k - 1);
      if ts[k] >= ts[o] + cfg.ttl || (k > o + cfg.limit && ts[k] >= ts[o + cfg.limit] + cfg.blockDuration) then k else o
  }

  function Rank(cfg: Config, ts: seq<nat>, k: nat): (r: nat)
    requires k < |ts| && cfg.limit >= 0
    ensures 1 <= r
  {
    k - Opener(cfg, ts, k) + 1
  }

  /** The stored window, written in terms of the epoch of the last request. */
  function EpochWindow(cfg: Config, ts: seq<nat>, k: nat): Window
    requires k < |ts| && cfg.limit >= 0
  {
    var o := Opener(cfg, ts, k);
    if k < o + cfg.limit then Window(k - o + 1, ts[o] + cfg.ttl, 0)
    else Window(cfg.limit + 1, ts[o] + cfg.ttl, ts[o + cfg.limit] + cfg.blockDuration)
  }

  lemma {:induction false} EpochWindowIsStored(cfg: Config, ts: seq<nat>, k: nat)
    requires cfg.Valid() && k < |ts|
    ensures After(cfg, None, ts, k + 1) == Some(EpochWindow(cfg, ts, k))
  {
    if k > 0 {
      EpochWindowIsStored(cfg, ts, k - 1);
    }
  }

  /**
   The decision that the request times alone call for: request `k` is refused exactly when its rank in its epoch
   exceeds the limit, the counter is the rank capped at one past the limit, the window runs from the opening request
   for `ttl`, and the block from the first request over the limit for `blockDuration`, in seconds rounded up.
   */
  ghost predicate EpochDecision(cfg: Config, ts: seq<nat>, k: nat, d: Decision)
    requires cfg.Valid() && k < |ts|
  {
    var o, r := Opener(cfg, ts, k), Rank(cfg, ts, k);
    && (d.isBlocked <==> r > cfg.limit)
    && d.totalHits == (if r <= cfg.limit then r else cfg.limit + 1)
    && d.timeToExpire == CeilDiv(ts[o] + cfg.ttl - ts[k], 1000)
    && d.timeToBlockExpire
       == (if r > cfg.limit then CeilDiv(ts[o + cfg.limit] + cfg.blockDuration - ts[k], 1000) else 0)
  }

  /** The state machine refines the list of request times. */
  lemma RefinesEpochs(cfg: Config, ts: seq<nat>, k: nat)
    requires cfg.Valid() && k < |ts|
    ensures EpochDecision(cfg, ts, k, DecisionAt(cfg, ts, k))
    ensures DecisionAt(cfg, ts, k).isBlocked <==> Refused(cfg, ts, k)
  {
    EpochWindowIsStored(cfg, ts, k);
  }

  /** Epochs that know of windows only: one opens at the first request `ttl` or more after the previous opening. */
  function WindowOpener(ttl: int, ts: seq<nat>, k: nat): (o: nat)
    requires k < |ts|
    ensures o <= k
  {
    if k == 0 then 0
    else
      var o := WindowOpener(ttl, ts, k - 1);
      if ts[k] >= ts[o] + ttl then k else o
  }

  /** With a block at least as long as the window, blocks play no part in where epochs open. */
  lemma {:induction false} LongBlocksLeaveWindowsAlone(cfg: Config, ts: seq<nat>, k: nat)
    requires cfg.Valid() && cfg.blockDuration >= cfg.ttl && Nondecreasing(ts) && k < |ts|
    ensures Opener(cfg, ts, k) == WindowOpener(cfg.ttl, ts, k)
  {
    if k > 0 {
      LongBlocksLeaveWindowsAlone(cfg, ts, k - 1);
      var o := Opener(cfg, ts, k - 1);
      if k > o + cfg.limit {
        assert ts[o] <= ts[o + cfg.limit];
      }
    }
  }

  // ---------- How many requests get through ----------

  predicate InInterval(t: int, a: int, b: int) {
    a <= t < b
  }

  /** Of the first `n` requests, how many fell into `[a, b)` and were let through. */
  function Admitted(cfg: Config, ts: seq<nat>, n: nat, a: int, b: int): nat
    requires n <= |ts|
  {
    if n == 0 then 0
    else Admitted(cfg, ts, n - 1, a, b)
         + (if InInterval(ts[n - 1], a, b) && !Refused(cfg, ts, n - 1) then 1 else 0)
  }

  /** Of the first `n` requests, how many opened an epoch inside `[a, b)`. */
  function Openings(cfg: Config, ts: seq<nat>, n: nat, a: int, b: int): nat
    requires n <= |ts| && cfg.limit >= 0
  {
    if n == 0 then 0
    else Openings(cfg, ts, n - 1, a, b)
         + (if InInterval(ts[n - 1], a, b) && Opener(cfg, ts, n - 1) == n - 1 then 1 else 0)
  }

  /**
   The most requests one key can get through in an interval of the given length. It is used up by full epochs a
   period apart, the first one opening with the interval or, after all but one request of an earlier epoch, an
   instant later; the later start is better unless it costs an epoch.
   */
  function Budget(cfg: Config, length: int): int
    requires cfg.Valid() && length >= 0
  {
    if cfg.limit == 0 || length == 0 then 0
    else
      var n := CeilDiv(length - 1, cfg.Period());
      cfg.limit * (n + 1) - (if n * cfg.Period() == length - 1 then 0 else 1)
  }

  /** Successive epochs open at least a period apart. */
  lemma OpeningsAreSpaced(cfg: Config, ts: seq<nat>, k: nat)
    requires cfg.Valid() && Nondecreasing(ts) && 0 < k < |ts| && Opener(cfg, ts, k) == k
    ensures ts[k] >= ts[Opener(cfg, ts, k - 1)] + cfg.Period()
  {
    var o := Opener(cfg, ts, k - 1);
    if k > o + cfg.limit {
      assert ts[o] <= ts[o + cfg.limit];
    }
  }

  /** The requests of the epoch opened by request `o` that can have been let through up to request `k`. */
  function InEpoch(cfg: Config, k: int, o: int): int {
    if k - o < cfg.limit then k - o + 1 else cfg.limit
  }

  /**
   The state of the count after request `k`, while the run is still before `b`: `o` opened the current epoch,
   and an epoch from before `a` has put all but one of its requests into the interval only if the first epoch
   of the interval opened after `a`.
   */
  ghost predicate CountSoFar(cfg: Config, ts: seq<nat>, k: nat, a: int, b: int)
    requires cfg.Valid() && k < |ts|
  {
    var o := Opener(cfg, ts, k);
    var m := Openings(cfg, ts, k + 1, a, b);
    var x := Admitted(cfg, ts, k + 1, a, b);
    && (ts[k] < a ==> x == 0)
    && (ts[o] < a ==> m == 0)
    && (ts[o] >= a ==> m >= 1 && (m - 1) * cfg.Period() <= ts[o] - a)
    && (cfg.limit == 0 ==> x == 0)
    && (cfg.limit > 0 && m == 0 ==>
          x <= cfg.limit - 1 && x <= k - o && (k >= o + cfg.limit && ts[o + cfg.limit] < a ==> x == 0))
    && (cfg.limit > 0 && m > 0 ==> CountFromOpenings(cfg.limit, cfg.Period(), m, x - InEpoch(cfg, k, o), ts[o] - a))
  }

  /** `x` requests from before the last of `m` openings, which came `since` after the interval's start. */
  ghost predicate CountFromOpenings(limit: int, p: int, m: int, x: int, since: int) {
    x <= limit * (m - 1) || ((m - 1) * p < since && x <= limit * m - 1)
  }

  lemma OneOpening(limit: int, p: int, x: int, since: int)
    requires x <= 0 || (x <= limit - 1 && since > 0)
    ensures CountFromOpenings(limit, p, 1, x, since)
  {
  }

  lemma OneMoreOpening(limit: int, p: int, m: int, x: int, since: int, next: int)
    requires CountFromOpenings(limit, p, m, x - limit, since) && (m - 1) * p <= since && since + p <= next
    ensures CountFromOpenings(limit, p, m + 1, x, next) && m * p <= next
  {
    assert m * p == (m - 1) * p + p && limit * m == limit * (m - 1) + limit && limit * (m + 1) == limit * m + limit;
  }

  lemma RefusedByRank(cfg: Config, ts: seq<nat>, k: nat)
    requires cfg.Valid() && k < |ts|
    ensures Refused(cfg, ts, k) <==> k >= Opener(cfg, ts, k) + cfg.limit
  {
    RefinesEpochs(cfg, ts, k);
  }

  lemma CountFirst(cfg: Config, ts: seq<nat>, a: int, b: int)
    requires cfg.Valid() && |ts| > 0 && ts[0] < b
    ensures CountSoFar(cfg, ts, 0, a, b)
  {
    RefusedByRank(cfg, ts, 0);
    assert Admitted(cfg, ts, 0, a, b) == 0 && Openings(cfg, ts, 0, a, b) == 0;
  }

  lemma CountOpening(cfg: Config, ts: seq<nat>, k: nat, a: int, b: int)
    requires cfg.Valid() && Nondecreasing(ts) && 0 < k < |ts| && ts[k] < b && Opener(cfg, ts, k) == k
    requires CountSoFar(cfg, ts, k - 1, a, b)
    ensures CountSoFar(cfg, ts, k, a, b)
  {
    if Openings(cfg, ts, k, a, b) == 0 {
      CountFirstOpening(cfg, ts, k, a, b);
    } else {
      CountLaterOpening(cfg, ts, k, a, b);
    }
  }

  lemma CountFirstOpening(cfg: Config, ts: seq<nat>, k: nat, a: int, b: int)
    requires cfg.Valid() && Nondecreasing(ts) && 0 < k < |ts| && ts[k] < b && Opener(cfg, ts, k) == k
    requires CountSoFar(cfg, ts, k - 1, a, b) && Openings(cfg, ts, k, a, b) == 0
    ensures CountSoFar(cfg, ts, k, a, b)
  {
    var x := Admitted(cfg, ts, k, a, b);
    if x > 0 {
      CarriedOverDelaysOpening(cfg, ts, k, a, b);
    }
    assert ts[k - 1] <= ts[k];
    RefusedByRank(cfg, ts, k);
    if cfg.limit > 0 {
      OneOpening(cfg.limit, cfg.Period(), x, ts[k] - a);
    }
  }

  lemma CountLaterOpening(cfg: Config, ts: seq<nat>, k: nat, a: int, b: int)
    requires cfg.Valid() && Nondecreasing(ts) && 0 < k < |ts| && ts[k] < b && Opener(cfg, ts, k) == k
    requires CountSoFar(cfg, ts, k - 1, a, b) && Openings(cfg, ts, k, a, b) > 0
    ensures CountSoFar(cfg, ts, k, a, b)
  {
    var o, m, x := Opener(cfg, ts, k - 1), Openings(cfg, ts, k, a, b), Admitted(cfg, ts, k, a, b);
    RefusedByRank(cfg, ts, k);
    OpeningsAreSpaced(cfg, ts, k);
    NextMultiple(m, cfg.Period(), cfg.limit);
    if cfg.limit > 0 {
      OneMoreOpening(cfg.limit, cfg.Period(), m, x, ts[o] - a, ts[k] - a);
    }
  }

  /** Where an earlier epoch got requests into the interval, the next epoch opens after the interval's start. */
  lemma CarriedOverDelaysOpening(cfg: Config, ts: seq<nat>, k: nat, a: int, b: int)
    requires cfg.Valid() && Nondecreasing(ts) && 0 < k < |ts| && Opener(cfg, ts, k) == k
    requires CountSoFar(cfg, ts, k - 1, a, b)
    requires Openings(cfg, ts, k, a, b) == 0 < Admitted(cfg, ts, k, a, b)
    ensures ts[k] > a
  {
    assert a <= ts[k - 1] <= ts[k];
  }

  lemma CountFollowing(cfg: Config, ts: seq<nat>, k: nat, a: int, b: int)
    requires cfg.Valid() && Nondecreasing(ts) && 0 < k < |ts| && ts[k] < b && Opener(cfg, ts, k) != k
    requires CountSoFar(cfg, ts, k - 1, a, b)
    ensures CountSoFar(cfg, ts, k, a, b)
  {
    RefusedByRank(cfg, ts, k);
    assert Opener(cfg, ts, k) == Opener(cfg, ts, k - 1);
    assert Openings(cfg, ts, k + 1, a, b) == Openings(cfg, ts, k, a, b);
  }

  lemma {:induction false} CountBeforeEnd(cfg: Config, ts: seq<nat>, k: nat, a: int, b: int)
    requires cfg.Valid() && Nondecreasing(ts) && k < |ts| && ts[k] < b
    ensures CountSoFar(cfg, ts, k, a, b)
  {
    if k == 0 {
      CountFirst(cfg, ts, a, b);
    } else {
      CountBeforeEnd(cfg, ts, k - 1, a, b);
      if Opener(cfg, ts, k) == k {
        CountOpening(cfg, ts, k, a, b);
      } else {
        CountFollowing(cfg, ts, k, a, b);
      }
    }
  }

  lemma NextMultiple(m: int, p: int, limit: int)
    ensures m * p == (m - 1) * p + p
    ensures limit * (m + 1) == limit * m + limit
  {
  }

  /** Requests from `b` on change neither count. */
  lemma {:induction false} CountStopsAtEnd(cfg: Config, ts: seq<nat>, i: nat, n: nat, a: int, b: int)
    requires cfg.Valid() && i <= n <= |ts| && forall k :: i <= k < n ==> ts[k] >= b
    ensures Admitted(cfg, ts, n, a, b) == Admitted(cfg, ts, i, a, b)
  {
    if i < n {
      CountStopsAtEnd(cfg, ts, i, n - 1, a, b);
    }
  }

  /** The index of the first request at or after `b`. */
  ghost function FirstFrom(ts: seq<nat>, n: nat, b: int): (i: nat)
    requires n <= |ts| && Nondecreasing(ts)
    ensures i <= n && (i > 0 ==> ts[i - 1] < b) && forall k :: i <= k < n ==> ts[k] >= b
  {
    if n == 0 || ts[n - 1] < b then n else FirstFrom(ts, n - 1, b)
  }

  /** The counting bound, over every run and every interval `[a, b)`. */
  lemma AdmittedWithinBudget(cfg: Config, ts: seq<nat>, a: int, b: int)
    requires cfg.Valid() && Nondecreasing(ts) && a <= b
    ensures Admitted(cfg, ts, |ts|, a, b) <= Budget(cfg, b - a)
  {
    var i := FirstFrom(ts, |ts|, b);
    CountStopsAtEnd(cfg, ts, i, |ts|, a, b);
    if i > 0 {
      CountBeforeEnd(cfg, ts, i - 1, a, b);
      CountFits(cfg, ts, i - 1, a, b);
    } else if cfg.limit > 0 && a < b {
      BudgetCoversOpenings(cfg, 0, 0, b - a, 0);
    }
  }

  lemma CountFits(cfg: Config, ts: seq<nat>, k: nat, a: int, b: int)
    requires cfg.Valid() && Nondecreasing(ts) && k < |ts| && ts[k] < b && a <= b && CountSoFar(cfg, ts, k, a, b)
    ensures Admitted(cfg, ts, k + 1, a, b) <= Budget(cfg, b - a)
  {
    if cfg.limit > 0 && a < b {
      var o, m: int, x := Opener(cfg, ts, k), Openings(cfg, ts, k + 1, a, b), Admitted(cfg, ts, k + 1, a, b);
      assert cfg.limit * (m - 1) + cfg.limit == cfg.limit * m == cfg.limit * (m + 1) - cfg.limit;
      BudgetCoversOpenings(cfg, m, ts[o] - a, b - a, x);
    }
  }

  /** `x` requests from `m` epochs opened a period apart, with or without a share of an earlier one. */
  lemma BudgetCoversOpenings(cfg: Config, m: int, last: int, length: int, x: int)
    requires cfg.Valid() && cfg.limit > 0 && length > 0 && m >= 0
    requires m == 0 ==> x <= cfg.limit - 1
    requires m > 0 ==>
               && last < length
               && ((x <= cfg.limit * m && (m - 1) * cfg.Period() <= last)
                   || (x <= cfg.limit * (m + 1) - 1 && (m - 1) * cfg.Period() < last))
    ensures x <= Budget(cfg, length)
  {
    var n := CeilDiv(length - 1, cfg.Period());
    if m == 0 {
      ScaleUp(cfg.limit, 0, n);
    } else {
      CountOpenings(m, cfg.Period(), last, length);
      if m <= n {
        ScaleUp(cfg.limit, m, n);
      }
    }
  }

  /** How many multiples of `p` fit below `length`, the last one at or before `last`. */
  lemma CountOpenings(m: int, p: int, last: int, length: int)
    requires m > 0 && p > 0 && (m - 1) * p <= last < length
    ensures var n := CeilDiv(length - 1, p); m <= n || (m == n + 1 && n * p == last == length - 1)
  {
    var n := CeilDiv(length - 1, p);
    CeilDivBounds(length - 1, p);
    if (m - 1) * p < length - 1 {
      CancelFactor(m - 1, n, p);
    } else {
      assert m * p == (m - 1) * p + p;
      CancelFactor(n, m, p);
      if n < m - 1 {
        CancelFactor(m - 1, n + 1, p);
      }
    }
  }

  lemma CancelFactor(a: int, b: int, p: int)
    requires p > 0 && a * p < b * p
    ensures a < b
  {
    if b <= a {
      MulMonotone(b, a, p);
    }
  }

  lemma {:induction false} MulMonotone(a: int, b: int, p: int)
    requires a <= b && p >= 0
    ensures a * p <= b * p
    decreases b - a
  {
    if a < b {
      MulMonotone(a, b - 1, p);
      assert b * p == (b - 1) * p + p;
    }
  }

  lemma ScaleUp(limit: int, m: int, n: int)
    requires limit >= 0 && (m <= n || limit == 0)
    ensures limit * m <= limit * n && limit * (m + 1) <= limit * (n + 1)
  {
    assert limit * (n - m) >= 0;
  }

  // ---------- The budget is the exact maximum ----------

  lemma {:induction false} OpenerIgnoresLaterRequests(cfg: Config, ts: seq<nat>, us: seq<nat>, k: nat)
    requires cfg.Valid() && k < |ts| <= |us| && ts == us[..|ts|]
    ensures Opener(cfg, us, k) == Opener(cfg, ts, k)
  {
    if k > 0 {
      OpenerIgnoresLaterRequests(cfg, ts, us, k - 1);
    }
  }

  lemma {:induction false} LaterRequestsDoNotMatter(cfg: Config, ts: seq<nat>, us: seq<nat>, n: nat, a: int, b: int)
    requires n <= |ts| <= |us| && ts == us[..|ts|]
    ensures Admitted(cfg, us, n, a, b) == Admitted(cfg, ts, n, a, b)
  {
    if n > 0 {
      LaterRequestsDoNotMatter(cfg, ts, us, n - 1, a, b);
      assert ts[..n] == us[..n];
      AfterIgnoresLaterRequests(cfg, None, ts, us, n);
      assert ts[n - 1] == us[n - 1];
    }
  }

  function Repeat(t: nat, n: nat): (ts: seq<nat>)
    ensures |ts| == n && forall i :: 0 <= i < n ==> ts[i] == t
  {
    if n == 0 then [] else Repeat(t, n - 1) + [t]
  }

  function Times(n: nat, d: nat): nat {
    if n == 0 then 0 else Times(n - 1, d) + d
  }

  lemma {:induction false} TimesIsProduct(n: nat, d: nat)
    ensures Times(n, d) == n * d
  {
    if n > 0 {
      TimesIsProduct(n - 1, d);
      assert n * d == (n - 1) * d + d;
    }
  }

  /** Further requests of an open epoch, within its limit, are all let through. */
  lemma {:induction false} FillEpoch(cfg: Config, ts: seq<nat>, i: nat, n: nat, a: int, b: int)
    requires cfg.Valid() && 0 < i <= n <= |ts|
    requires n <= Opener(cfg, ts, i - 1) + cfg.limit
    requires forall k :: i <= k < n ==> a <= ts[k] < b && ts[k] < ts[Opener(cfg, ts, i - 1)] + cfg.ttl
    ensures Opener(cfg, ts, n - 1) == Opener(cfg, ts, i - 1)
    ensures Admitted(cfg, ts, n, a, b) == Admitted(cfg, ts, i, a, b) + (n - i)
  {
    if i < n {
      FillEpoch(cfg, ts, i, n - 1, a, b);
      RefusedByRank(cfg, ts, n - 1);
    }
  }

  /** A request at `t` or later would open an epoch. */
  predicate Ready(cfg: Config, ts: seq<nat>, t: nat)
    requires cfg.Valid()
  {
    ts == [] ||
    var o := Opener(cfg, ts, |ts| - 1);
    t >= ts[o] + cfg.ttl || (|ts| > o + cfg.limit && t >= ts[o + cfg.limit] + cfg.blockDuration)
  }

  /** An epoch of `limit + 1` requests at one instant: all but the last get through, and the last starts a block. */
  lemma NewEpoch(cfg: Config, us: seq<nat>, i: nat, t: nat, a: int, b: int)
    requires cfg.Valid() && cfg.limit >= 1 && a <= t < b && |us| == i + cfg.limit + 1 && Opener(cfg, us, i) == i
    requires forall k :: i <= k < |us| ==> us[k] == t
    ensures Opener(cfg, us, |us| - 1) == i
    ensures Admitted(cfg, us, |us|, a, b) == Admitted(cfg, us, i, a, b) + cfg.limit
  {
    RefusedByRank(cfg, us, i);
    FillEpoch(cfg, us, i + 1, i + cfg.limit, a, b);
    RefusedByRank(cfg, us, i + cfg.limit);
  }

  lemma ReadyOpens(cfg: Config, ts: seq<nat>, us: seq<nat>, t: nat)
    requires cfg.Valid() && Ready(cfg, ts, t) && |us| > |ts| && us[..|ts|] == ts && us[|ts|] == t
    ensures Opener(cfg, us, |ts|) == |ts|
  {
    if ts != [] {
      OpenerIgnoresLaterRequests(cfg, ts, us, |ts| - 1);
      forall k | 0 <= k < |ts| ensures us[k] == ts[k] {
        assert us[..|ts|][k] == us[k];
      }
    }
  }

  lemma AppendEpoch(cfg: Config, ts: seq<nat>, us: seq<nat>, t: nat, a: int, b: int)
    requires cfg.Valid() && cfg.limit >= 1 && Ready(cfg, ts, t) && a <= t < b && us == ts + Repeat(t, cfg.limit + 1)
    ensures Ready(cfg, us, t + cfg.Period())
    ensures Admitted(cfg, us, |us|, a, b) == Admitted(cfg, ts, |ts|, a, b) + cfg.limit
  {
    assert us[..|ts|] == ts;
    ReadyOpens(cfg, ts, us, t);
    NewEpoch(cfg, us, |ts|, t, a, b);
    LaterRequestsDoNotMatter(cfg, ts, us, |ts|, a, b);
  }

  /** After `ts`, `n` such epochs a period apart, from `t` on. */
  function WithEpochs(cfg: Config, ts: seq<nat>, t: nat, n: nat): seq<nat>
    requires cfg.Valid()
    decreases n
  {
    if n == 0 then ts else WithEpochs(cfg, ts + Repeat(t, cfg.limit + 1), t + cfg.Period(), n - 1)
  }

  lemma {:induction false} EpochsGetThrough(cfg: Config, ts: seq<nat>, t: nat, n: nat, a: int, b: int)
    requires cfg.Valid() && cfg.limit >= 1 && Ready(cfg, ts, t) && a <= t
    requires n > 0 ==> t + Times(n - 1, cfg.Period()) < b
    ensures var us := WithEpochs(cfg, ts, t, n);
            Admitted(cfg, us, |us|, a, b) == Admitted(cfg, ts, |ts|, a, b) + Times(n, cfg.limit)
    decreases n
  {
    if n > 0 {
      var us := ts + Repeat(t, cfg.limit + 1);
      AppendEpoch(cfg, ts, us, t, a, b);
      EpochsGetThrough(cfg, us, t + cfg.Period(), n - 1, a, b);
    }
  }

  lemma {:induction false} EpochsInOrder(cfg: Config, ts: seq<nat>, t: nat, n: nat)
    requires cfg.Valid() && Nondecreasing(ts) && forall i :: 0 <= i < |ts| ==> ts[i] <= t
    ensures Nondecreasing(WithEpochs(cfg, ts, t, n))
    decreases n
  {
    if n > 0 {
      EpochsInOrder(cfg, ts + Repeat(t, cfg.limit + 1), t + cfg.Period(), n - 1);
    }
  }

  /** An epoch opened at 0 that gets all but its first request into its window's last instant. */
  function LateEpoch(cfg: Config): seq<nat>
    requires cfg.Valid() && cfg.limit >= 1
  {
    [0] + Repeat(cfg.ttl - 1, cfg.limit - 1)
  }

  lemma LateEpochGetsThrough(cfg: Config, b: int)
    requires cfg.Valid() && cfg.limit >= 1 && cfg.ttl >= 2 && cfg.ttl <= b
    ensures var ts := LateEpoch(cfg);
            && Nondecreasing(ts) && Ready(cfg, ts, cfg.ttl)
            && Admitted(cfg, ts, |ts|, cfg.ttl - 1, b) == cfg.limit - 1
  {
    var ts := LateEpoch(cfg);
    assert Opener(cfg, ts, 0) == 0;
    assert Admitted(cfg, ts, 1, cfg.ttl - 1, b) == Admitted(cfg, ts, 0, cfg.ttl - 1, b) == 0;
    FillEpoch(cfg, ts, 1, |ts|, cfg.ttl - 1, b);
  }

  lemma AlignedRun(cfg: Config, n: nat) returns (ts: seq<nat>)
    requires cfg.Valid() && cfg.limit >= 1
    ensures Nondecreasing(ts)
    ensures Admitted(cfg, ts, |ts|, 0, Times(n, cfg.Period()) + 1) == Times(n + 1, cfg.limit)
  {
    ts := WithEpochs(cfg, [], 0, n + 1);
    EpochsGetThrough(cfg, [], 0, n + 1, 0, Times(n, cfg.Period()) + 1);
    EpochsInOrder(cfg, [], 0, n + 1);
  }

  lemma LateRun(cfg: Config, n: nat, length: nat) returns (ts: seq<nat>)
    requires cfg.Valid() && cfg.limit >= 1 && cfg.ttl >= 2 && n > 0 && Times(n - 1, cfg.Period()) < length - 1
    ensures Nondecreasing(ts)
    ensures Admitted(cfg, ts, |ts|, cfg.ttl - 1, cfg.ttl - 1 + length) == Times(n + 1, cfg.limit) - 1
  {
    ts := WithEpochs(cfg, LateEpoch(cfg), cfg.ttl, n);
    LateEpochGetsThrough(cfg, cfg.ttl - 1 + length);
    EpochsGetThrough(cfg, LateEpoch(cfg), cfg.ttl, n, cfg.ttl - 1, cfg.ttl - 1 + length);
    EpochsInOrder(cfg, LateEpoch(cfg), cfg.ttl, n);
  }

  /** The budget again, for a length that `n` periods cover. */
  lemma BudgetInEpochs(cfg: Config, length: nat, n: nat)
    requires cfg.Valid() && cfg.limit >= 1 && length > 0 && n == CeilDiv(length - 1, cfg.Period())
    ensures length - 1 <= Times(n, cfg.Period()) < length - 1 + cfg.Period()
    ensures Budget(cfg, length) == Times(n + 1, cfg.limit) - (if Times(n, cfg.Period()) == length - 1 then 0 else 1)
  {
    CeilDivBounds(length - 1, cfg.Period());
    TimesIsProduct(n, cfg.Period());
    TimesIsProduct(n + 1, cfg.limit);
    Commutes(n + 1, cfg.limit);
  }

  lemma Commutes(a: int, b: int)
    ensures a * b == b * a
  {
  }

  /** A run that gets the whole budget through in the `length` milliseconds from `a` on. */
  predicate UsesUpBudget(cfg: Config, ts: seq<nat>, a: nat, length: nat)
    requires cfg.Valid()
  {
    Nondecreasing(ts) && Admitted(cfg, ts, |ts|, a, a + length) == Budget(cfg, length)
  }

  /** No smaller budget would do, for any configuration and any length: some run uses up all of it. */
  lemma BudgetIsReached(cfg: Config, length: nat)
    requires cfg.Valid()
    ensures exists ts, a :: UsesUpBudget(cfg, ts, a, length)
  {
    var ts: seq<nat>, a: nat := [], 0;
    if cfg.limit > 0 && length > 0 {
      var n: nat := CeilDiv(length - 1, cfg.Period());
      BudgetInEpochs(cfg, length, n);
      if Times(n, cfg.Period()) == length - 1 {
        ts := AlignedRun(cfg, n);
      } else {
        a := cfg.ttl - 1;
        ts := LateRun(cfg, n, length);
      }
    }
    assert UsesUpBudget(cfg, ts, a, length);
  }

  /** Over whole windows: one epoch's requests more than the number of windows suggests, less one request. */
  lemma BudgetOfWholePeriods(cfg: Config, n: nat)
    requires cfg.Valid() && cfg.limit >= 1 && cfg.Period() >= 2 && n >= 1
    ensures Budget(cfg, Times(n, cfg.Period())) == Times(n + 1, cfg.limit) - 1
  {
    var p, c := cfg.Period(), CeilDiv(Times(n, cfg.Period()) - 1, cfg.Period());
    TimesIsProduct(n, p);
    CeilDivBounds(n * p - 1, p);
    NextMultiple(n - 1, p, cfg.limit);
    NextMultiple(n, p, cfg.limit);
    CancelFactor(n - 1, c, p);
    CancelFactor(c, n + 1, p);
    BudgetInEpochs(cfg, Times(n, p), n);
  }

  // ---------- What a block means ----------

  /** The instant a blocked window stops binding: its block lapses or the window itself ends. */
  function BlockEnds(w: Window): int {
    if w.windowEndsAt <= w.blockedUntil then w.windowEndsAt else w.blockedUntil
  }

  /** Requests during a block leave no trace, and the first one after it opens a fresh window. */
  lemma {:induction false} BlockIsWaitedOut(cfg: Config, w: Window, during: seq<nat>, t: nat)
    requires cfg.Valid() && w.blockedUntil > 0 && BlockEnds(w) <= t
    requires forall k :: 0 <= k < |during| ==> during[k] < BlockEnds(w)
    ensures After(cfg, Some(w), during, |during|) == Some(w)
    ensures var next := Next(cfg, After(cfg, Some(w), during, |during|), t);
            next.totalHits == 1 && next.windowEndsAt == t + cfg.ttl && (Report(next, t).isBlocked <==> cfg.limit == 0)
  {
    if |during| > 0 {
      var earlier := during[..|during| - 1];
      BlockIsWaitedOut(cfg, w, earlier, t);
      AfterIgnoresLaterRequests(cfg, Some(w), earlier, during, |during| - 1);
    }
  }

  /**
   A refused client is told to wait until `blockedUntil`. It would be refused until then exactly when
   the block does not outlast the window, or nothing is ever let through.
   */
  lemma ReportedBlockIsHonoured(cfg: Config, w: Window, now: nat)
    requires cfg.Valid() && now < BlockEnds(w)
    ensures (forall t: nat :: now <= t < w.blockedUntil ==> Report(Next(cfg, Some(w), t), t).isBlocked)
            <==> cfg.limit == 0 || w.blockedUntil <= w.windowEndsAt
  {
    if cfg.limit > 0 && w.blockedUntil > w.windowEndsAt {
      assert !Report(Next(cfg, Some(w), w.windowEndsAt), w.windowEndsAt).isBlocked;
    }
  }

  /**
   The same over every run, on the request times: the wait reported to refused request `k` is honoured exactly
   when the request that went over the limit came early enough in its window for the block to end inside it.
   */
  lemma RefusedUntilReportedEnd(cfg: Config, ts: seq<nat>, k: nat)
    requires cfg.Valid() && Nondecreasing(ts) && k < |ts| && Refused(cfg, ts, k)
    ensures var w, o := After(cfg, None, ts, k + 1), Opener(cfg, ts, k);
            && o + cfg.limit <= k
            && ((forall t: nat :: ts[k] <= t < w.value.blockedUntil ==> Report(Next(cfg, w, t), t).isBlocked)
                <==> cfg.limit == 0 || ts[o + cfg.limit] + cfg.blockDuration <= ts[o] + cfg.ttl)
  {
    EpochWindowIsStored(cfg, ts, k);
    RefusedByRank(cfg, ts, k);
    OpenEpochIsInWindow(cfg, ts, k);
    ReportedBlockIsHonoured(cfg, EpochWindow(cfg, ts, k), ts[k]);
  }

  lemma OpenEpochIsInWindow(cfg: Config, ts: seq<nat>, k: nat)
    requires cfg.Valid() && k < |ts|
    ensures ts[k] < ts[Opener(cfg, ts, k)] + cfg.ttl
  {
  }

  /**
   With a block at least as long as the window, the wait is honoured exactly when the block is just as long and
   the request that went over the limit came in the instant the window opened.
   */
  lemma LongBlockIsRarelyHonoured(cfg: Config, ts: seq<nat>, k: nat)
    requires cfg.Valid() && cfg.limit >= 1 && cfg.blockDuration >= cfg.ttl
    requires Nondecreasing(ts) && k < |ts| && Refused(cfg, ts, k)
    ensures var w, o := After(cfg, None, ts, k + 1), Opener(cfg, ts, k);
            && o + cfg.limit <= k
            && ((forall t: nat :: ts[k] <= t < w.value.blockedUntil ==> Report(Next(cfg, w, t), t).isBlocked)
                <==> cfg.blockDuration == cfg.ttl && ts[o + cfg.limit] == ts[o])
  {
    RefusedUntilReportedEnd(cfg, ts, k);
    var o := Opener(cfg, ts, k);
    assert ts[o] <= ts[o + cfg.limit];
  }

  /** The input that shows it: at one request per second, the second is told to wait 1 s and let in after 500 ms. */
  lemma ReportedWaitCanBeTooLong()
    ensures var cfg, ts := Config(1000, 1, 1000), [0, 500, 1000];
            && After(cfg, None, ts, 2) == Some(Window(2, 1000, 1500))
            && Refused(cfg, ts, 1) && DecisionAt(cfg, ts, 1).timeToBlockExpire == 1 && !Refused(cfg, ts, 2)
  {
    var cfg: Config, ts: seq<nat> := Config(1000, 1, 1000), [0, 500, 1000];
    EpochWindowIsStored(cfg, ts, 0);
    EpochWindowIsStored(cfg, ts, 1);
    EpochWindowIsStored(cfg, ts, 2);
  }
}
