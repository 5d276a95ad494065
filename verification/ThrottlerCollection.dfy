/**
 DynamoDB deletes an item some time after its `expiresAt` attribute. That deletion is invisible exactly when it
 falls between no attempt's read and write: then the run with deletions and the same run without them give the
 same answers and commit the same writes. Versions differ, since a deleted key starts again at 1.
 */
module ThrottlerCollection {
  import opened Options
  import opened ThrottleWindow
  import opened ThrottlerStore

  /** No attempt is between its read and its write. */
  ghost predicate Quiet(s: State) {
    forall c :: c in s.calls ==> s.calls[c].Reading? || s.calls[c].Returned?
  }

  /** Every deletion that finds an item to delete falls between attempts. */
  ghost predicate CollectsWhenQuiet(cfg: Config, s: State, steps: seq<Step>) {
    forall i :: 0 <= i < |steps| && steps[i].Collect? ==>
                  var r := Run(cfg, s, steps[..i]); Collects(cfg, r) ==> Quiet(r)
  }

  /** A TTL deletion in this state would delete the item. */
  predicate Collects(cfg: Config, s: State) {
    Do(cfg, s, Collect) != s
  }

  function WithoutCollection(steps: seq<Step>): seq<Step> {
    if steps == [] then []
    else
      var last := steps[|steps| - 1];
      WithoutCollection(steps[..|steps| - 1]) + (if last.Collect? then [] else [last])
  }

  /** The attributes `write` gives an item: a positive version and an expiry an hour past the window. */
  ghost predicate AsWritten(item: Option<Item>) {
    item.Some? ==>
      && item.value.version >= 1
      && item.value.expiresAt == CeilDiv(item.value.window.windowEndsAt, 1000) + GARBAGE_COLLECTION_GRACE_SECONDS
  }

  /** An item is collectable only after its window has ended: an hour after, less than a second over. */
  lemma ExpiryIsAfterTheWindow(item: Item)
    requires AsWritten(Some(item))
    ensures item.window.windowEndsAt + 3_600_000 <= item.expiresAt * 1000 < item.window.windowEndsAt + 3_601_000
  {
  }

  /**
   An item `x` of the run without deletions against the item `y` of the run with them, at time `now`:
   the same contents with `y` a fixed number of versions behind, or `x` over and `y` deleted.
   */
  ghost predicate SameItem(behind: int, now: int, x: Option<Item>, y: Option<Item>) {
    && behind >= 0 && AsWritten(x) && AsWritten(y)
    && match x {
      case None => y.None? && behind == 0
      case Some(i) =>
        if y.None? then i.version == behind && i.window.windowEndsAt <= now
        else y.value == i.(version := i.version - behind)
    }
  }

  ghost predicate SamePhase(behind: int, clock: int, p: Phase, q: Phase) {
    match p
    case Reading(_) => q == p
    case HasRead(k, x) => q.HasRead? && q.attempt == k && SameItem(behind, clock, x, q.snapshot)
    case Sampled(k, x, now) => q.Sampled? && q.attempt == k && q.now == now && SameItem(behind, now, x, q.snapshot)
    case Returned(_, _) => q == p
  }

  ghost predicate Same(behind: int, s: State, t: State) {
    && s.clock == t.clock && s.began == t.began && s.commits == t.commits && s.replies == t.replies
    && SameItem(behind, s.clock, s.item, t.item)
    && s.calls.Keys == t.calls.Keys
    && forall c :: c in s.calls ==> SamePhase(behind, s.clock, s.calls[c], t.calls[c])
  }

  lemma SameCondition(behind: int, clock: int, now: int,
                      x: Option<Item>, y: Option<Item>, p: Option<Item>, q: Option<Item>)
    requires SameItem(behind, clock, x, y) && SameItem(behind, now, p, q)
    ensures ConditionHolds(x, p) <==> ConditionHolds(y, q)
  {
  }

  lemma SameProposal(cfg: Config, behind: int, now: nat, clock: int, p: Option<Item>, q: Option<Item>)
    requires SameItem(behind, now, p, q)
    ensures Proposed(cfg, p, now).window == Proposed(cfg, q, now).window
    ensures SameItem(behind, clock, Some(Proposed(cfg, p, now)), Some(Proposed(cfg, q, now)))
  {
  }

  lemma SameReturn(behind: int, s: State, t: State, c: CallId, outcome: Outcome, record: Decision, at: nat)
    requires Same(behind, s, t) && c in s.calls
    ensures Same(behind, Return(s, c, outcome, record, at), Return(t, c, outcome, record, at))
  {
  }

  lemma SameLand(cfg: Config, behind: int, s: State, t: State, c: CallId, p: Option<Item>, q: Option<Item>, now: nat)
    requires Same(behind, s, t) && SameItem(behind, now, p, q)
    ensures Same(behind, Land(cfg, s, c, p, now), Land(cfg, t, c, q, now))
  {
    SameProposal(cfg, behind, now, s.clock, p, q);
  }

  lemma SameWrite(cfg: Config, behind: int, s: State, t: State, step: Step)
    requires Same(behind, s, t) && (step.Write? || step.WriteError?)
    requires step.call in s.calls && s.calls[step.call].Sampled?
    ensures Same(behind, Do(cfg, s, step), Do(cfg, t, step))
  {
    var c := step.call;
    var now, p, q := s.calls[c].now, s.calls[c].snapshot, t.calls[c].snapshot;
    assert SamePhase(behind, s.clock, s.calls[c], t.calls[c]);
    SameCondition(behind, s.clock, now, s.item, t.item, p, q);
    if Lands(s, step) {
      var s', t' := Land(cfg, s, c, p, now), Land(cfg, t, c, q, now);
      SameLand(cfg, behind, s, t, c, p, q, now);
      SameProposal(cfg, behind, now, s.clock, p, q);
      SameReturn(behind, s', t', c, Counted, Report(Proposed(cfg, p, now).window, now), now);
      SameReturn(behind, s', t', c, StoreFailed, FailOpen(cfg), s.clock);
    } else {
      SameReturn(behind, s, t, c, GaveUp, FailOpen(cfg), s.clock);
      SameReturn(behind, s, t, c, StoreFailed, FailOpen(cfg), s.clock);
    }
  }

  lemma SameStep(cfg: Config, behind: int, s: State, t: State, step: Step)
    requires Same(behind, s, t) && !step.Collect?
    ensures Same(behind, Do(cfg, s, step), Do(cfg, t, step))
  {
    if (step.Write? || step.WriteError?) && step.call in s.calls {
      assert SamePhase(behind, s.clock, s.calls[step.call], t.calls[step.call]);
      if s.calls[step.call].Sampled? {
        SameWrite(cfg, behind, s, t, step);
      }
    } else if !step.Tick? && step.call in s.calls {
      assert SamePhase(behind, s.clock, s.calls[step.call], t.calls[step.call]);
    }
  }

  /** Deleting the item restarts its versions: from here on the run lags by the deleted version. */
  lemma SameAfterCollection(cfg: Config, behind: int, s: State, t: State) returns (lag: int)
    requires Same(behind, s, t) && (Collects(cfg, t) ==> Quiet(t))
    ensures Same(lag, s, Do(cfg, t, Collect))
  {
    lag := behind;
    if Collects(cfg, t) {
      ExpiryIsAfterTheWindow(t.item.value);
      lag := s.item.value.version;
      forall c | c in s.calls ensures SamePhase(lag, s.clock, s.calls[c], t.calls[c]) {
        assert SamePhase(behind, s.clock, s.calls[c], t.calls[c]);
      }
    }
  }

  lemma {:induction false} SameRun(cfg: Config, before: int, s: State, t: State, steps: seq<Step>) returns (behind: int)
    requires Same(before, s, t) && CollectsWhenQuiet(cfg, t, steps)
    ensures Same(behind, Run(cfg, s, WithoutCollection(steps)), Run(cfg, t, steps))
  {
    if steps == [] {
      behind := before;
    } else {
      var front, step := steps[..|steps| - 1], steps[|steps| - 1];
      forall i | 0 <= i < |front| && front[i].Collect?
        ensures var r := Run(cfg, t, front[..i]); Collects(cfg, r) ==> Quiet(r)
      {
        assert front[..i] == steps[..i] && steps[i].Collect?;
      }
      behind := SameRun(cfg, before, s, t, front);
      if step.Collect? {
        assert WithoutCollection(steps) == WithoutCollection(front);
        behind := SameAfterCollection(cfg, behind, Run(cfg, s, WithoutCollection(front)), Run(cfg, t, front));
      } else {
        RunOneMore(cfg, s, WithoutCollection(front), step);
        SameStep(cfg, behind, Run(cfg, s, WithoutCollection(front)), Run(cfg, t, front), step);
      }
    }
  }

  /** Any number of deletions between attempts leaves every answer and every committed write as it was. */
  lemma CollectionIsInvisible(cfg: Config, clock: nat, start: Option<Item>, steps: seq<Step>)
    requires AsWritten(start) && CollectsWhenQuiet(cfg, Initial(clock, start), steps)
    ensures var s := Run(cfg, Initial(clock, start), WithoutCollection(steps));
            var t := Run(cfg, Initial(clock, start), steps);
            && t.replies == s.replies && t.commits == s.commits && t.calls.Keys == s.calls.Keys
            && forall c :: c in s.calls && s.calls[c].Returned? ==> t.calls[c] == s.calls[c]
  {
    var s := Run(cfg, Initial(clock, start), WithoutCollection(steps));
    var t := Run(cfg, Initial(clock, start), steps);
    var behind := SameRun(cfg, 0, Initial(clock, start), Initial(clock, start), steps);
    forall c | c in s.calls && s.calls[c].Returned? ensures t.calls[c] == s.calls[c] {
      assert SamePhase(behind, s.clock, s.calls[c], t.calls[c]);
    }
  }

  lemma {:induction false} NothingCollected(steps: seq<Step>)
    ensures NoCollection(WithoutCollection(steps))
  {
    if steps != [] {
      NothingCollected(steps[..|steps| - 1]);
    }
  }

  /** Every answer is still the one that the committed clocks call for. */
  lemma AnswersDespiteCollection(cfg: Config, clock: nat, start: Option<Item>, steps: seq<Step>, c: CallId)
    requires AsWritten(start) && CollectsWhenQuiet(cfg, Initial(clock, start), steps)
    requires var s := Run(cfg, Initial(clock, start), steps); c in s.calls && s.calls[c].Returned?
    ensures Answered(cfg, start, Run(cfg, Initial(clock, start), steps), c)
  {
    var s := Run(cfg, Initial(clock, start), WithoutCollection(steps));
    var t := Run(cfg, Initial(clock, start), steps);
    var behind := SameRun(cfg, 0, Initial(clock, start), Initial(clock, start), steps);
    assert SamePhase(behind, s.clock, s.calls[c], t.calls[c]);
    NothingCollected(steps);
    AnswersReportCommits(cfg, clock, start, WithoutCollection(steps), c);
    SameAnswered(cfg, start, s, t, c);
  }

  lemma SameAnswered(cfg: Config, start: Option<Item>, s: State, t: State, c: CallId)
    requires c in s.calls && s.calls[c].Returned? && c in t.calls && t.calls[c] == s.calls[c]
    requires SameHistory(s, t) && Answered(cfg, start, s, c)
    ensures Answered(cfg, start, t, c)
  {
    var k :| 0 <= k < |s.replies| && s.replies[k].call == c
      && s.replies[k].outcome == s.calls[c].outcome && s.replies[k].record == s.calls[c].record
      && (forall l :: 0 <= l < |s.replies| && s.replies[l].call == c ==> l == k)
      && (s.calls[c].outcome != Counted ==> s.calls[c].record == FailOpen(cfg))
      && (s.calls[c].outcome == Counted ==> exists i :: ReportsOnly(cfg, start, s, k, i));
    if s.calls[c].outcome == Counted {
      var i :| ReportsOnly(cfg, start, s, k, i);
      assert ReportsOnly(cfg, start, t, k, i);
    }
  }

  /** So the budgets of the key hold with deletions as well. */
  lemma WithinBudgetDespiteCollection(cfg: Config, clock: nat, steps: seq<Step>, a: int, b: int)
    requires cfg.Valid() && a <= b && CollectsWhenQuiet(cfg, Initial(clock, None), steps)
    ensures var s := Run(cfg, Initial(clock, None), steps);
            && Passed(s.replies, a, b) <= Budget(cfg, b - a) + FailedOpen(s.replies, a, b)
            && LandedUnblocked(cfg, s.commits, |s.commits|, a, b) <= Budget(cfg, b - a) + 1
  {
    CollectionIsInvisible(cfg, clock, None, steps);
    NothingCollected(steps);
    PassedWithinBudget(cfg, clock, WithoutCollection(steps), a, b);
    LandedWithinBudget(cfg, clock, WithoutCollection(steps), a, b);
  }

  // ---------- When a deletion is noticed ----------

  /** The item and every snapshot of it were written by a call. */
  ghost predicate AllWritten(s: State) {
    && AsWritten(s.item)
    && forall c :: c in s.calls && (s.calls[c].HasRead? || s.calls[c].Sampled?) ==> AsWritten(s.calls[c].snapshot)
  }

  lemma StepKeepsWritten(cfg: Config, s: State, step: Step)
    requires AllWritten(s)
    ensures AllWritten(Do(cfg, s, step))
  {
    var t := Do(cfg, s, step);
    if Lands(s, step) {
      var c := step.call;
      assert AsWritten(Some(Proposed(cfg, s.calls[c].snapshot, s.calls[c].now)));
    } else {
      assert t.item == s.item || t.item == None;
    }
    forall c | c in t.calls && (t.calls[c].HasRead? || t.calls[c].Sampled?) ensures AsWritten(t.calls[c].snapshot) {
      assert t.calls[c].snapshot == s.item || (c in s.calls && t.calls[c].snapshot == s.calls[c].snapshot);
    }
  }

  lemma {:induction false} RunKeepsWritten(cfg: Config, clock: nat, start: Option<Item>, steps: seq<Step>)
    requires AsWritten(start)
    ensures AllWritten(Run(cfg, Initial(clock, start), steps))
  {
    if steps != [] {
      RunKeepsWritten(cfg, clock, start, steps[..|steps| - 1]);
      StepKeepsWritten(cfg, Run(cfg, Initial(clock, start), steps[..|steps| - 1]), steps[|steps| - 1]);
    }
  }

  /** The same answers given and the same writes landed. */
  ghost predicate SameHistory(s: State, t: State) {
    t.replies == s.replies && t.commits == s.commits
  }

  lemma QuietDeletionIsInvisible(cfg: Config, s: State, steps: seq<Step>)
    requires AllWritten(s) && Quiet(s)
    requires CollectsWhenQuiet(cfg, s, steps) && CollectsWhenQuiet(cfg, Do(cfg, s, Collect), steps)
    ensures SameHistory(Run(cfg, s, steps), Run(cfg, Do(cfg, s, Collect), steps))
  {
    assert Same(0, s, s);
    var lag := SameAfterCollection(cfg, 0, s, s);
    var kept := SameRun(cfg, 0, s, s, steps);
    var deleted := SameRun(cfg, lag, s, Do(cfg, s, Collect), steps);
  }

  /** Calls `first`, `first + 1`, ..., `n` of them, one after the other. */
  function ServeInTurn(first: CallId, n: nat): (steps: seq<Step>)
    ensures NoCollection(steps)
  {
    if n == 0 then [] else ServeInTurn(first, n - 1) + Serve(first + (n - 1))
  }

  lemma {:induction false} ServedInTurn(cfg: Config, s: State, first: CallId, n: nat)
    requires forall c :: c in s.calls ==> c < first
    ensures var t := Run(cfg, s, ServeInTurn(first, n));
            && Version(t.item) == Version(s.item) + n && (t.item.Some? <==> s.item.Some? || n > 0)
            && |t.commits| == |s.commits| + n
            && (forall c :: c in t.calls ==> c < first + n)
            && forall c :: c in s.calls ==> c in t.calls && t.calls[c] == s.calls[c]
  {
    if n > 0 {
      var t := Run(cfg, s, ServeInTurn(first, n - 1));
      ServedInTurn(cfg, s, first, n - 1);
      Served(cfg, t, first + (n - 1));
      RunAppend(cfg, s, ServeInTurn(first, n - 1), Serve(first + (n - 1)));
    }
  }

  lemma {:induction false} FreshCall(calls: set<CallId>) returns (first: CallId)
    ensures forall c :: c in calls ==> c < first
    decreases calls
  {
    if calls == {} {
      first := 0;
    } else {
      var c :| c in calls;
      var rest := FreshCall(calls - {c});
      first := if c < rest then rest else c + 1;
      forall d | d in calls ensures d < first {
        assert d == c || d in calls - {c};
      }
    }
  }

  /** After its read, a call lands its write exactly when its condition still holds. */
  lemma AttemptEnds(cfg: Config, s: State, c: CallId)
    requires c in s.calls && (s.calls[c].HasRead? || s.calls[c].Sampled?)
    ensures |Run(cfg, s, [Sample(c), Write(c)]).commits|
            == |s.commits| + (if ConditionHolds(s.item, s.calls[c].snapshot) then 1 else 0)
  {
    Run2(cfg, s, Sample(c), Write(c));
  }

  /** Call `c` finishes its attempt once as many calls have been served as would restore the version it read. */
  function Probe(first: CallId, n: nat, c: CallId): (steps: seq<Step>)
    ensures NoCollection(steps)
  {
    ServeInTurn(first, n) + [Sample(c), Write(c)]
  }

  lemma Probed(cfg: Config, s: State, first: CallId, n: nat, c: CallId)
    requires c in s.calls && (s.calls[c].HasRead? || s.calls[c].Sampled?)
    requires n == Version(s.calls[c].snapshot) && AsWritten(s.calls[c].snapshot) && AsWritten(s.item)
    requires forall d :: d in s.calls ==> d < first
    ensures |Run(cfg, s, Probe(first, n, c)).commits| == |s.commits| + n + (if s.item.None? then 1 else 0)
  {
    ServedInTurn(cfg, s, first, n);
    AttemptEnds(cfg, Run(cfg, s, ServeInTurn(first, n)), c);
    RunAppend(cfg, s, ServeInTurn(first, n), [Sample(c), Write(c)]);
  }

  lemma DeletionInsideAnAttemptIsNoticed(cfg: Config, s: State, c: CallId) returns (steps: seq<Step>)
    requires AllWritten(s) && Collects(cfg, s) && c in s.calls && (s.calls[c].HasRead? || s.calls[c].Sampled?)
    ensures NoCollection(steps) && |Run(cfg, Do(cfg, s, Collect), steps).commits| == |Run(cfg, s, steps).commits| + 1
  {
    var n: nat := Version(s.calls[c].snapshot);
    var first := FreshCall(s.calls.Keys);
    steps := Probe(first, n, c);
    Probed(cfg, s, first, n, c);
    Probed(cfg, Do(cfg, s, Collect), first, n, c);
  }

  /**
   In every state that a run can reach, whatever was deleted before: deleting the item there changes the answers
   and commits of no continuation if and only if no call is between its read and its write.
   */
  lemma DeletionIsInvisibleExactlyWhen(cfg: Config, clock: nat, start: Option<Item>, before: seq<Step>)
    requires AsWritten(start) && Collects(cfg, Run(cfg, Initial(clock, start), before))
    ensures var s := Run(cfg, Initial(clock, start), before);
            (forall steps :: NoCollection(steps) ==>
               SameHistory(Run(cfg, s, steps), Run(cfg, Do(cfg, s, Collect), steps)))
            <==> Quiet(s)
  {
    var s := Run(cfg, Initial(clock, start), before);
    RunKeepsWritten(cfg, clock, start, before);
    if Quiet(s) {
      forall steps | NoCollection(steps)
        ensures SameHistory(Run(cfg, s, steps), Run(cfg, Do(cfg, s, Collect), steps))
      {
        QuietDeletionIsInvisible(cfg, s, steps);
      }
    } else {
      var c :| c in s.calls && !s.calls[c].Reading? && !s.calls[c].Returned?;
      var steps := DeletionInsideAnAttemptIsNoticed(cfg, s, c);
      assert !SameHistory(Run(cfg, s, steps), Run(cfg, Do(cfg, s, Collect), steps));
    }
  }

  // ---------- A count that a deletion loses ----------

  lemma ReadThenDeleted(cfg: Config, s: State, c: CallId)
    requires s.item.Some? && s.item.value.expiresAt * 1000 <= s.clock && c !in s.calls
    ensures var t := Run(cfg, s, [Start(c), Read(c), Collect]);
            && t.item == None && t.commits == s.commits && t.clock == s.clock
            && t.calls == s.calls[c := HasRead(0, s.item)]
  {
    Run3(cfg, s, Start(c), Read(c), Collect);
  }

  lemma StaleVersionMatches(cfg: Config, s: State, c: CallId)
    requires c in s.calls && s.calls[c].HasRead? && s.calls[c].snapshot.Some? && s.item.Some?
    requires s.item.value.version == s.calls[c].snapshot.value.version
    requires s.calls[c].snapshot.value.window.windowEndsAt <= s.clock
    ensures var t := Run(cfg, s, [Sample(c), Write(c)]);
            t.item.Some? && t.item.value.window.totalHits == 1 && |t.commits| == |s.commits| + 1
  {
    Run2(cfg, s, Sample(c), Write(c));
  }

  /**
   A call holding version 1 of a deleted item meets the version 1 of its successor: both calls commit,
   and the stored counter says one.
   */
  lemma CollectionInsideAnAttemptLosesACount(cfg: Config, s: State)
    requires s.item.Some? && s.item.value.version == 1 && AsWritten(s.item)
    requires s.item.value.expiresAt * 1000 <= s.clock && 0 !in s.calls && 1 !in s.calls
    ensures var t := Run(cfg, s, [Start(0), Read(0), Collect] + Serve(1) + [Sample(0), Write(0)]);
            |t.commits| == |s.commits| + 2 && t.item.Some? && t.item.value.window.totalHits == 1
  {
    var a, b, c := [Start(0), Read(0), Collect], Serve(1), [Sample(0), Write(0)];
    ExpiryIsAfterTheWindow(s.item.value);
    ReadThenDeleted(cfg, s, 0);
    Served(cfg, Run(cfg, s, a), 1);
    RunAppend(cfg, s, a, b);
    StaleVersionMatches(cfg, Run(cfg, s, a + b), 0);
    RunAppend(cfg, s, a + b, c);
  }
}
