/**
 The DynamoDB-backed counter of src/common/throttler/dynamodb-throttler-storage.ts, for one throttler key.

 Any number of calls to `increment` run at once. A call makes up to three attempts; an attempt reads the
 item consistently, samples the clock, decides, and writes under a condition on the item's version. Every
 interleaving of those steps is a sequence of `Step`s: a step that is not possible in a state changes nothing,
 so every sequence is a run.
 */
module ThrottlerStore {
  import opened Options
  import opened ThrottleWindow

  const MAX_ATTEMPTS: nat := 3
  const GARBAGE_COLLECTION_GRACE_SECONDS := 3600

  type CallId = nat

  datatype Item = Item(window: Window, version: int, expiresAt: int)

  datatype Outcome = Counted | GaveUp | StoreFailed

  datatype Phase =
    | Reading(attempt: nat)
    | HasRead(attempt: nat, snapshot: Option<Item>)
    | Sampled(attempt: nat, snapshot: Option<Item>, now: nat)
    | Returned(outcome: Outcome, record: Decision)

  /** A write that landed: who wrote, the clock it decided on, and the clock when it landed. */
  datatype Commit = Commit(call: CallId, now: nat, at: nat)

  /** An answer: a counted one is dated by the clock it was decided on, a fail-open one by its return. */
  datatype Reply = Reply(call: CallId, outcome: Outcome, record: Decision, at: nat)

  /** `began`, `commits` and `replies` are history; the protocol never looks at them. */
  datatype State = State(clock: nat, item: Option<Item>, calls: map<CallId, Phase>,
                         began: map<CallId, nat>, commits: seq<Commit>, replies: seq<Reply>)

  datatype Step =
    | Tick(ms: nat)
    | Start(call: CallId)
    | Read(call: CallId)
    | ReadError(call: CallId)
    | Sample(call: CallId)
    | Write(call: CallId)
    | WriteError(call: CallId, landed: bool)
    | Collect  // DynamoDB's TTL deletion

  function Initial(clock: nat, item: Option<Item>): State {
    State(clock, item, map[], map[], [], [])
  }

  function Version(item: Option<Item>): int {
    if item.Some? then item.value.version else 0
  }

  function WindowOf(item: Option<Item>): Option<Window> {
    if item.Some? then Some(item.value.window) else None
  }

  /** The item a call would write: never stored when its condition fails. */
  function NewItem(window: Window, currentVersion: int): Item {
    Item(window, currentVersion + 1, CeilDiv(window.windowEndsAt, 1000) + GARBAGE_COLLECTION_GRACE_SECONDS)
  }

  function Proposed(cfg: Config, snapshot: Option<Item>, now: nat): Item {
    NewItem(Next(cfg, WindowOf(snapshot), now), Version(snapshot))
  }

  /** `attribute_not_exists(pk)` for a call that saw no item, `version = :version` otherwise. */
  predicate ConditionHolds(item: Option<Item>, snapshot: Option<Item>) {
    if snapshot.None? then item.None? else item.Some? && item.value.version == snapshot.value.version
  }

  function FailOpen(cfg: Config): Decision {
    Decision(1, CeilDiv(cfg.ttl, 1000), false, 0)
  }

  /** Failing open answers as for the first request of a fresh window, except where the limit is 0. */
  lemma FailOpenIsAFirstHit(cfg: Config, now: nat)
    requires cfg.Valid()
    ensures FailOpen(cfg) == Report(Next(cfg, None, now), now) <==> cfg.limit >= 1
    ensures FailOpen(cfg).totalHits == 1 && !FailOpen(cfg).isBlocked && FailOpen(cfg).timeToBlockExpire == 0
    ensures cfg.ttl <= 1000 * FailOpen(cfg).timeToExpire < cfg.ttl + 1000
  {
  }

  function Return(s: State, call: CallId, outcome: Outcome, record: Decision, at: nat): State {
    s.(calls := s.calls[call := Returned(outcome, record)], replies := s.replies + [Reply(call, outcome, record, at)])
  }

  function Land(cfg: Config, s: State, call: CallId, snapshot: Option<Item>, now: nat): State {
    s.(item := Some(Proposed(cfg, snapshot, now)), commits := s.commits + [Commit(call, now, s.clock)])
  }

  /** The whole transition relation. */
  function Do(cfg: Config, s: State, step: Step): State {
    match step
    case Tick(ms) => s.(clock := s.clock + ms)
    case Start(c) =>
      if c in s.calls then s
      else s.(calls := s.calls[c := Reading(0)], began := s.began[c := |s.commits|])
    case Read(c) =>
      if c in s.calls && s.calls[c].Reading? then s.(calls := s.calls[c := HasRead(s.calls[c].attempt, s.item)]) else s
    case ReadError(c) =>
      if c in s.calls && s.calls[c].Reading? then Return(s, c, StoreFailed, FailOpen(cfg), s.clock) else s
    case Sample(c) =>
      if c in s.calls && s.calls[c].HasRead? then
        s.(calls := s.calls[c := Sampled(s.calls[c].attempt, s.calls[c].snapshot, s.clock)])
      else s
    case Write(c) =>
      if !(c in s.calls && s.calls[c].Sampled?) then s
      else
        var Sampled(attempt, snapshot, now) := s.calls[c];
        if ConditionHolds(s.item, snapshot) then
          Return(Land(cfg, s, c, snapshot, now), c, Counted, Report(Proposed(cfg, snapshot, now).window, now), now)
        else if attempt + 1 < MAX_ATTEMPTS then
          s.(calls := s.calls[c := Reading(attempt + 1)])
        else
          Return(s, c, GaveUp, FailOpen(cfg), s.clock)
    case WriteError(c, landed) =>
      if !(c in s.calls && s.calls[c].Sampled?) then s
      else
        var Sampled(_, snapshot, now) := s.calls[c];
        var t := if landed && ConditionHolds(s.item, snapshot) then Land(cfg, s, c, snapshot, now) else s;
        Return(t, c, StoreFailed, FailOpen(cfg), s.clock)
    case Collect =>
      if s.item.Some? && s.item.value.expiresAt * 1000 <= s.clock then s.(item := None) else s
  }

  function Run(cfg: Config, s: State, steps: seq<Step>): State {
    if steps == [] then s else Do(cfg, Run(cfg, s, steps[..|steps| - 1]), steps[|steps| - 1])
  }

  lemma RunOneMore(cfg: Config, s: State, steps: seq<Step>, step: Step)
    ensures Run(cfg, s, steps + [step]) == Do(cfg, Run(cfg, s, steps), step)
  {
    assert (steps + [step])[..|steps|] == steps;
  }

  lemma {:induction false} RunAppend(cfg: Config, s: State, a: seq<Step>, b: seq<Step>)
    ensures Run(cfg, s, a + b) == Run(cfg, Run(cfg, s, a), b)
  {
    if b == [] {
      assert a + b == a;
    } else {
      RunAppend(cfg, s, a, b[..|b| - 1]);
      assert a + b == (a + b[..|b| - 1]) + [b[|b| - 1]];
      RunOneMore(cfg, s, a + b[..|b| - 1], b[|b| - 1]);
    }
  }

  lemma Run2(cfg: Config, s: State, x: Step, y: Step)
    ensures Run(cfg, s, [x, y]) == Do(cfg, Do(cfg, s, x), y)
  {
    assert Run(cfg, s, []) == s;
    RunOneMore(cfg, s, [], x);
    assert [] + [x] == [x];
    RunOneMore(cfg, s, [x], y);
    assert [x] + [y] == [x, y];
  }

  lemma Run3(cfg: Config, s: State, x: Step, y: Step, z: Step)
    ensures Run(cfg, s, [x, y, z]) == Do(cfg, Do(cfg, Do(cfg, s, x), y), z)
  {
    Run2(cfg, s, x, y);
    RunOneMore(cfg, s, [x, y], z);
    assert [x, y] + [z] == [x, y, z];
  }

  ghost predicate NoCollection(steps: seq<Step>) {
    forall i :: 0 <= i < |steps| ==> !steps[i].Collect?
  }

  ghost predicate NoStoreErrors(steps: seq<Step>) {
    forall i :: 0 <= i < |steps| ==> !steps[i].ReadError? && !steps[i].WriteError?
  }

  // ---------- What every interleaving keeps ----------

  function Nows(commits: seq<Commit>): (ts: seq<nat>)
    ensures |ts| == |commits| && forall i :: 0 <= i < |ts| ==> ts[i] == commits[i].now
  {
    if commits == [] then [] else Nows(commits[..|commits| - 1]) + [commits[|commits| - 1].now]
  }

  ghost predicate WellFormed(item: Option<Item>) {
    item.Some? ==> item.value.version >= 1
  }

  /** Each commit was decided before it landed, and after every earlier one had landed. */
  ghost predicate Ordered(s: State) {
    && (forall i :: 0 <= i < |s.commits| ==> s.commits[i].now <= s.commits[i].at <= s.clock)
    && (forall i, j :: 0 <= i < j < |s.commits| ==> s.commits[i].at <= s.commits[j].now)
  }

  /** The item is the fold of the decision over the committed clocks, one version per commit. */
  ghost predicate ItemIsFold(cfg: Config, start: Option<Item>, s: State) {
    && WellFormed(s.item)
    && Version(s.item) == Version(start) + |s.commits|
    && WindowOf(s.item) == After(cfg, WindowOf(start), Nows(s.commits), |s.commits|)
  }

  /** A snapshot is at most as new as the item, and the same item if it has the same version. */
  ghost predicate Tracks(start: Option<Item>, s: State, snapshot: Option<Item>, seen: int) {
    && WellFormed(snapshot)
    && Version(start) + seen <= Version(snapshot) <= Version(s.item)
    && (Version(snapshot) == Version(s.item) ==> snapshot == s.item)
  }

  ghost predicate CallOk(start: Option<Item>, s: State, c: CallId)
    requires c in s.calls
  {
    && c in s.began
    && match s.calls[c] {
      case Reading(k) => k < MAX_ATTEMPTS && s.began[c] + k <= |s.commits|
      case HasRead(k, snapshot) => k < MAX_ATTEMPTS && Tracks(start, s, snapshot, s.began[c] + k)
      case Sampled(k, snapshot, now) =>
        && k < MAX_ATTEMPTS && Tracks(start, s, snapshot, s.began[c] + k) && now <= s.clock
        && (snapshot == s.item ==> forall i :: 0 <= i < |s.commits| ==> s.commits[i].at <= now)
      case Returned(outcome, record) =>
        && (outcome == GaveUp ==> s.began[c] + MAX_ATTEMPTS <= |s.commits|)
        && (outcome == Counted ==> exists i :: 0 <= i < |s.commits| && s.commits[i].call == c)
    }
  }

  /** A call commits at most once, and only as its last step. */
  ghost predicate OneCommitPerCall(s: State) {
    && (forall i :: 0 <= i < |s.commits| ==>
      s.commits[i].call in s.calls && s.calls[s.commits[i].call].Returned?
        && s.calls[s.commits[i].call].outcome != GaveUp)
    && (forall i, j :: 0 <= i < j < |s.commits| ==> s.commits[i].call != s.commits[j].call)
  }

  ghost predicate Inv(cfg: Config, start: Option<Item>, s: State) {
    && Ordered(s)
    && ItemIsFold(cfg, start, s)
    && OneCommitPerCall(s)
    && forall c :: c in s.calls ==> CallOk(start, s, c)
  }

  lemma LandKeepsFold(cfg: Config, start: Option<Item>, s: State, c: CallId, snapshot: Option<Item>, now: nat)
    requires ItemIsFold(cfg, start, s) && snapshot == s.item
    ensures ItemIsFold(cfg, start, Land(cfg, s, c, snapshot, now))
  {
    var t := Land(cfg, s, c, snapshot, now);
    var n := |s.commits|;
    assert t.commits[..n] == s.commits;
    assert Nows(t.commits)[..n] == Nows(s.commits)[..n];
    AfterIgnoresLaterRequests(cfg, WindowOf(start), Nows(s.commits), Nows(t.commits), n);
  }

  /** A write whose condition holds was prepared from the very item it replaces. */
  lemma ConditionMeansCurrent(start: Option<Item>, s: State, snapshot: Option<Item>, seen: int)
    requires Tracks(start, s, snapshot, seen) && WellFormed(s.item)
    ensures ConditionHolds(s.item, snapshot) <==> snapshot == s.item
    ensures ConditionHolds(s.item, snapshot) <==> Version(snapshot) == Version(s.item)
  {
  }

  /** Landing a write, with the writer returned in the same step. */
  lemma LandKeepsInv(cfg: Config, start: Option<Item>, s: State, c: CallId, outcome: Outcome, record: Decision, at: nat)
    requires Inv(cfg, start, s) && c in s.calls && s.calls[c].Sampled? && s.calls[c].snapshot == s.item
    requires outcome != GaveUp
    ensures Inv(cfg, start, Return(Land(cfg, s, c, s.item, s.calls[c].now), c, outcome, record, at))
  {
    var t := Return(Land(cfg, s, c, s.item, s.calls[c].now), c, outcome, record, at);
    LandKeepsFold(cfg, start, s, c, s.item, s.calls[c].now);
    assert CallOk(start, s, c);
    LandKeepsCommits(cfg, start, s, c, outcome, record, at);
    assert t.commits[|s.commits|].call == c;
    forall d | d in t.calls ensures CallOk(start, t, d) {
      if d != c {
        LandKeepsOtherCalls(cfg, start, s, c, outcome, record, at, d);
      }
    }
  }

  lemma LandKeepsCommits(cfg: Config, start: Option<Item>, s: State, c: CallId, outcome: Outcome, record: Decision,
                         at: nat)
    requires Ordered(s) && OneCommitPerCall(s) && outcome != GaveUp
    requires c in s.calls && s.calls[c].Sampled? && s.calls[c].snapshot == s.item && CallOk(start, s, c)
    ensures var t := Return(Land(cfg, s, c, s.item, s.calls[c].now), c, outcome, record, at);
            Ordered(t) && OneCommitPerCall(t)
  {
  }

  lemma LandKeepsOtherCalls(cfg: Config, start: Option<Item>, s: State, c: CallId, outcome: Outcome, record: Decision,
                            at: nat, d: CallId)
    requires ItemIsFold(cfg, start, s) && c in s.calls && s.calls[c].Sampled?
    requires d in s.calls && d != c && CallOk(start, s, d)
    ensures CallOk(start, Return(Land(cfg, s, c, s.item, s.calls[c].now), c, outcome, record, at), d)
  {
    var t := Return(Land(cfg, s, c, s.item, s.calls[c].now), c, outcome, record, at);
    if s.calls[d].Returned? && s.calls[d].outcome == Counted {
      var i :| 0 <= i < |s.commits| && s.commits[i].call == d;
      assert t.commits[i].call == d;
    }
  }

  /** The step lands a write. */
  ghost predicate Lands(s: State, step: Step) {
    && (step.Write? || (step.WriteError? && step.landed))
    && step.call in s.calls && s.calls[step.call].Sampled?
    && ConditionHolds(s.item, s.calls[step.call].snapshot)
  }

  predicate ActsFor(step: Step, c: CallId) {
    !step.Tick? && !step.Collect? && step.call == c
  }

  /** A step that lands nothing touches only the call it acts for. */
  lemma QuietStepFrame(cfg: Config, s: State, step: Step)
    requires !step.Collect? && !Lands(s, step)
    ensures var t := Do(cfg, s, step);
            && t.commits == s.commits && t.item == s.item && t.clock >= s.clock
            && forall d :: !ActsFor(step, d) ==>
              && (d in t.calls <==> d in s.calls) && (d in s.calls ==> t.calls[d] == s.calls[d])
              && (d in t.began <==> d in s.began) && (d in s.began ==> t.began[d] == s.began[d])
  {
  }

  lemma QuietStepKeepsActor(cfg: Config, start: Option<Item>, s: State, step: Step)
    requires ItemIsFold(cfg, start, s) && !step.Tick? && !step.Collect? && !Lands(s, step)
    requires Ordered(s) && (step.call in s.calls ==> CallOk(start, s, step.call))
    ensures step.call in Do(cfg, s, step).calls ==> CallOk(start, Do(cfg, s, step), step.call)
  {
  }

  lemma QuietStepKeepsCommitters(cfg: Config, s: State, step: Step)
    requires OneCommitPerCall(s) && !step.Collect? && !Lands(s, step)
    ensures OneCommitPerCall(Do(cfg, s, step))
  {
  }

  lemma QuietStepKeepsInv(cfg: Config, start: Option<Item>, s: State, step: Step)
    requires Inv(cfg, start, s) && !step.Collect? && !Lands(s, step)
    ensures Inv(cfg, start, Do(cfg, s, step))
  {
    var t := Do(cfg, s, step);
    QuietStepFrame(cfg, s, step);
    QuietStepKeepsCommitters(cfg, s, step);
    forall d | d in t.calls ensures CallOk(start, t, d) {
      if ActsFor(step, d) {
        QuietStepKeepsActor(cfg, start, s, step);
      } else {
        assert CallOk(start, s, d);
      }
    }
  }

  lemma StepKeepsInv(cfg: Config, start: Option<Item>, s: State, step: Step)
    requires Inv(cfg, start, s) && !step.Collect?
    ensures Inv(cfg, start, Do(cfg, s, step))
  {
    if Lands(s, step) {
      var c := step.call;
      assert CallOk(start, s, c);
      ConditionMeansCurrent(start, s, s.calls[c].snapshot, s.began[c] + s.calls[c].attempt);
      if step.Write? {
        var now := s.calls[c].now;
        LandKeepsInv(cfg, start, s, c, Counted, Report(Proposed(cfg, s.item, now).window, now), now);
      } else {
        LandKeepsInv(cfg, start, s, c, StoreFailed, FailOpen(cfg), s.clock);
      }
    } else {
      QuietStepKeepsInv(cfg, start, s, step);
    }
  }

  lemma {:induction false} RunKeepsInv(cfg: Config, clock: nat, start: Option<Item>, steps: seq<Step>)
    requires WellFormed(start) && NoCollection(steps)
    ensures Inv(cfg, start, Run(cfg, Initial(clock, start), steps))
  {
    if steps != [] {
      RunKeepsInv(cfg, clock, start, steps[..|steps| - 1]);
      StepKeepsInv(cfg, start, Run(cfg, Initial(clock, start), steps[..|steps| - 1]), steps[|steps| - 1]);
    }
  }

  lemma InvMeansFold(cfg: Config, start: Option<Item>, s: State)
    requires Inv(cfg, start, s)
    ensures Nondecreasing(Nows(s.commits))
    ensures forall c :: c in s.calls && s.calls[c].Sampled? ==>
                          (ConditionHolds(s.item, s.calls[c].snapshot) <==> s.calls[c].snapshot == s.item)
  {
    forall c | c in s.calls && s.calls[c].Sampled?
      ensures ConditionHolds(s.item, s.calls[c].snapshot) <==> s.calls[c].snapshot == s.item
    {
      assert CallOk(start, s, c);
      ConditionMeansCurrent(start, s, s.calls[c].snapshot, s.began[c] + s.calls[c].attempt);
    }
  }

  /**
   In every interleaving the stored window is the fold of the decision over the committed writes in commit
   order, their sampled clocks never decrease, and a call's write condition holds exactly while the item it
   read, version and window, is still the stored one.
   */
  lemma {:induction false} StoredWindowIsFold(cfg: Config, clock: nat, start: Option<Item>, steps: seq<Step>)
    requires WellFormed(start) && NoCollection(steps)
    ensures var s := Run(cfg, Initial(clock, start), steps);
            && WindowOf(s.item) == After(cfg, WindowOf(start), Nows(s.commits), |s.commits|)
            && Version(s.item) == Version(start) + |s.commits|
            && Nondecreasing(Nows(s.commits))
            && forall c :: c in s.calls && s.calls[c].Sampled? ==>
                             (ConditionHolds(s.item, s.calls[c].snapshot) <==> s.calls[c].snapshot == s.item)
  {
    RunKeepsInv(cfg, clock, start, steps);
    InvMeansFold(cfg, start, Run(cfg, Initial(clock, start), steps));
  }

  /** A write that failed may have counted all the same: the caller passes unrecorded, and the counter has moved. */
  lemma LandedErrorCounts(cfg: Config, s: State, c: CallId)
    requires c in s.calls && s.calls[c].Sampled? && ConditionHolds(s.item, s.calls[c].snapshot)
    ensures var landed, lost := Do(cfg, s, WriteError(c, true)), Do(cfg, s, WriteError(c, false));
            && landed.calls[c] == lost.calls[c] == Returned(StoreFailed, FailOpen(cfg))
            && landed.item == Do(cfg, s, Write(c)).item && landed.commits == Do(cfg, s, Write(c)).commits
            && |landed.commits| == |s.commits| + 1 && lost.item == s.item && lost.commits == s.commits
  {
  }

  // ---------- What is answered ----------

  /** Reply `k` reports the window that commit `i`, of the same call, left behind. */
  ghost predicate Reports(cfg: Config, start: Option<Item>, s: State, k: int, i: int)
    requires 0 <= k < |s.replies|
  {
    && 0 <= i < |s.commits| && s.commits[i].call == s.replies[k].call && s.commits[i].now == s.replies[k].at
    && s.replies[k].record == Report(After(cfg, WindowOf(start), Nows(s.commits), i + 1).value, s.commits[i].now)
  }

  ghost predicate ReplyOk(cfg: Config, start: Option<Item>, s: State, k: int)
    requires 0 <= k < |s.replies|
  {
    var r := s.replies[k];
    && r.call in s.calls && s.calls[r.call] == Returned(r.outcome, r.record)
    && (r.outcome == Counted ==> exists i :: Reports(cfg, start, s, k, i))
    && (r.outcome != Counted ==> r.record == FailOpen(cfg))
  }

  /** Every call that returned has one reply, and every reply is what its commit, if it has one, calls for. */
  ghost predicate RepliesOk(cfg: Config, start: Option<Item>, s: State) {
    && (forall k :: 0 <= k < |s.replies| ==> ReplyOk(cfg, start, s, k))
    && (forall k, l :: 0 <= k < l < |s.replies| ==> s.replies[k].call != s.replies[l].call)
    && (forall c :: c in s.calls && s.calls[c].Returned? ==> exists k :: 0 <= k < |s.replies| && s.replies[k].call == c)
  }

  lemma ReportsStays(cfg: Config, start: Option<Item>, s: State, t: State, k: int, i: int)
    requires 0 <= k < |s.replies| <= |t.replies| && t.replies[k] == s.replies[k] && Reports(cfg, start, s, k, i)
    requires s.commits <= t.commits
    ensures Reports(cfg, start, t, k, i)
  {
    var n := i + 1;
    assert t.commits[i] == s.commits[i];
    assert Nows(t.commits)[..n] == Nows(s.commits)[..n];
    AfterIgnoresLaterRequests(cfg, WindowOf(start), Nows(s.commits), Nows(t.commits), n);
  }

  lemma ReplyStays(cfg: Config, start: Option<Item>, s: State, t: State, k: int)
    requires 0 <= k < |s.replies| && s.replies <= t.replies && s.commits <= t.commits && ReplyOk(cfg, start, s, k)
    requires s.replies[k].call in t.calls && t.calls[s.replies[k].call] == s.calls[s.replies[k].call]
    ensures ReplyOk(cfg, start, t, k)
  {
    assert t.replies[k] == s.replies[k];
    if s.replies[k].outcome == Counted {
      var i :| Reports(cfg, start, s, k, i);
      ReportsStays(cfg, start, s, t, k, i);
    }
  }

  /** A call that returns, with or without a commit, gets its one reply. */
  lemma ReturnKeepsReplies(cfg: Config, start: Option<Item>, s: State, t: State, c: CallId, outcome: Outcome,
                           record: Decision, at: nat)
    requires RepliesOk(cfg, start, s) && c in s.calls && !s.calls[c].Returned?
    requires s.commits <= t.commits && t.replies == s.replies && t.calls == s.calls
    requires outcome != Counted ==> record == FailOpen(cfg)
    requires outcome == Counted ==>
               && |t.commits| > 0 && t.commits[|t.commits| - 1].call == c && t.commits[|t.commits| - 1].now == at
               && record == Report(After(cfg, WindowOf(start), Nows(t.commits), |t.commits|).value, at)
    ensures RepliesOk(cfg, start, Return(t, c, outcome, record, at))
  {
    var u := Return(t, c, outcome, record, at);
    var n := |s.replies|;
    forall k | 0 <= k < |u.replies| ensures ReplyOk(cfg, start, u, k) {
      if k < n {
        assert ReplyOk(cfg, start, s, k);
        ReplyStays(cfg, start, s, u, k);
      } else {
        assert outcome == Counted ==> Reports(cfg, start, u, n, |t.commits| - 1);
      }
    }
    forall d | d in u.calls && u.calls[d].Returned? ensures exists k :: 0 <= k < |u.replies| && u.replies[k].call == d {
      if d == c {
        assert u.replies[n].call == c;
      } else {
        var k :| 0 <= k < n && s.replies[k].call == d;
        assert u.replies[k].call == d;
      }
    }
    forall k | 0 <= k < n ensures s.replies[k].call != c {
      assert ReplyOk(cfg, start, s, k);
    }
  }

  /** A step that answers nobody moves no call that has returned. */
  lemma UnansweredStepKeepsReplies(cfg: Config, start: Option<Item>, s: State, step: Step)
    requires RepliesOk(cfg, start, s) && !step.Collect? && !Lands(s, step) && Do(cfg, s, step).replies == s.replies
    ensures RepliesOk(cfg, start, Do(cfg, s, step))
  {
    var t := Do(cfg, s, step);
    UnansweredStepFrame(cfg, s, step);
    forall k | 0 <= k < |t.replies| ensures ReplyOk(cfg, start, t, k) {
      assert ReplyOk(cfg, start, s, k);
      ReplyStays(cfg, start, s, t, k);
    }
  }

  lemma UnansweredStepFrame(cfg: Config, s: State, step: Step)
    requires !step.Collect? && !Lands(s, step) && Do(cfg, s, step).replies == s.replies
    ensures var t := Do(cfg, s, step);
            && t.commits == s.commits
            && (forall c :: c in t.calls && t.calls[c].Returned? ==> c in s.calls && t.calls[c] == s.calls[c])
            && forall c :: c in s.calls && s.calls[c].Returned? ==> c in t.calls && t.calls[c] == s.calls[c]
  {
  }

  lemma LandKeepsReplies(cfg: Config, start: Option<Item>, s: State, c: CallId, outcome: Outcome, record: Decision,
                         at: nat)
    requires ItemIsFold(cfg, start, s) && RepliesOk(cfg, start, s)
    requires c in s.calls && s.calls[c].Sampled? && s.calls[c].snapshot == s.item
    requires outcome != Counted ==> record == FailOpen(cfg)
    requires var now := s.calls[c].now;
             outcome == Counted ==> at == now && record == Report(Proposed(cfg, s.item, now).window, now)
    ensures RepliesOk(cfg, start, Return(Land(cfg, s, c, s.item, s.calls[c].now), c, outcome, record, at))
  {
    LandKeepsFold(cfg, start, s, c, s.item, s.calls[c].now);
    ReturnKeepsReplies(cfg, start, s, Land(cfg, s, c, s.item, s.calls[c].now), c, outcome, record, at);
  }

  lemma StepKeepsReplies(cfg: Config, start: Option<Item>, s: State, step: Step)
    requires Inv(cfg, start, s) && RepliesOk(cfg, start, s) && !step.Collect?
    ensures RepliesOk(cfg, start, Do(cfg, s, step))
  {
    if Lands(s, step) {
      var c := step.call;
      assert CallOk(start, s, c);
      ConditionMeansCurrent(start, s, s.calls[c].snapshot, s.began[c] + s.calls[c].attempt);
      if step.Write? {
        var now := s.calls[c].now;
        LandKeepsReplies(cfg, start, s, c, Counted, Report(Proposed(cfg, s.item, now).window, now), now);
      } else {
        LandKeepsReplies(cfg, start, s, c, StoreFailed, FailOpen(cfg), s.clock);
      }
    } else if Do(cfg, s, step).replies == s.replies {
      UnansweredStepKeepsReplies(cfg, start, s, step);
    } else {
      QuietAnswer(cfg, s, step);
      var outcome := if step.Write? then GaveUp else StoreFailed;
      ReturnKeepsReplies(cfg, start, s, s, step.call, outcome, FailOpen(cfg), s.clock);
    }
  }

  lemma QuietAnswer(cfg: Config, s: State, step: Step)
    requires !step.Collect? && !Lands(s, step) && Do(cfg, s, step).replies != s.replies
    ensures !step.Tick? && step.call in s.calls && !s.calls[step.call].Returned?
    ensures Do(cfg, s, step)
            == Return(s, step.call, if step.Write? then GaveUp else StoreFailed, FailOpen(cfg), s.clock)
  {
  }

  lemma {:induction false} RunKeepsReplies(cfg: Config, clock: nat, start: Option<Item>, steps: seq<Step>)
    requires WellFormed(start) && NoCollection(steps)
    ensures RepliesOk(cfg, start, Run(cfg, Initial(clock, start), steps))
  {
    if steps != [] {
      var front := steps[..|steps| - 1];
      RunKeepsReplies(cfg, clock, start, front);
      RunKeepsInv(cfg, clock, start, front);
      StepKeepsReplies(cfg, start, Run(cfg, Initial(clock, start), front), steps[|steps| - 1]);
    }
  }

  // ---------- How things are dated ----------

  /** The run took the step when its clock stood at `now`. */
  ghost predicate TookAt(cfg: Config, s: State, steps: seq<Step>, step: Step, now: nat) {
    exists n :: 0 <= n < |steps| && steps[n] == step && Run(cfg, s, steps[..n]).clock == now
  }

  lemma TookAtStays(cfg: Config, s: State, steps: seq<Step>, step: Step, now: nat)
    requires steps != [] && TookAt(cfg, s, steps[..|steps| - 1], step, now)
    ensures TookAt(cfg, s, steps, step, now)
  {
    var front := steps[..|steps| - 1];
    var n :| 0 <= n < |front| && front[n] == step && Run(cfg, s, front[..n]).clock == now;
    assert front[..n] == steps[..n] && steps[n] == step;
  }

  lemma TookLast(cfg: Config, s: State, steps: seq<Step>)
    requires steps != []
    ensures TookAt(cfg, s, steps, steps[|steps| - 1], Run(cfg, s, steps[..|steps| - 1]).clock)
  {
  }

  ghost predicate CommitDated(cfg: Config, s: State, steps: seq<Step>, c: Commit) {
    && TookAt(cfg, s, steps, Sample(c.call), c.now)
    && (TookAt(cfg, s, steps, Write(c.call), c.at) || TookAt(cfg, s, steps, WriteError(c.call, true), c.at))
  }

  ghost predicate CallDated(cfg: Config, s: State, steps: seq<Step>, c: CallId, phase: Phase) {
    phase.Sampled? ==> TookAt(cfg, s, steps, Sample(c), phase.now)
  }

  /** A call that fails open is dated by the clock of the step that ends it. */
  ghost predicate ReplyDated(cfg: Config, s: State, steps: seq<Step>, r: Reply) {
    r.outcome != Counted ==>
      || TookAt(cfg, s, steps, ReadError(r.call), r.at)
      || TookAt(cfg, s, steps, Write(r.call), r.at)
      || exists landed :: TookAt(cfg, s, steps, WriteError(r.call, landed), r.at)
  }

  ghost predicate Dated(cfg: Config, s: State, steps: seq<Step>) {
    var t := Run(cfg, s, steps);
    && (forall c :: c in t.calls ==> CallDated(cfg, s, steps, c, t.calls[c]))
    && (forall i :: 0 <= i < |t.commits| ==> CommitDated(cfg, s, steps, t.commits[i]))
    && (forall k :: 0 <= k < |t.replies| ==> ReplyDated(cfg, s, steps, t.replies[k]))
  }

  lemma CallStaysDated(cfg: Config, s: State, steps: seq<Step>, c: CallId)
    requires steps != [] && Dated(cfg, s, steps[..|steps| - 1]) && c in Run(cfg, s, steps).calls
    ensures CallDated(cfg, s, steps, c, Run(cfg, s, steps).calls[c])
  {
    var t, phase := Run(cfg, s, steps[..|steps| - 1]), Run(cfg, s, steps).calls[c];
    if phase.Sampled? && c in t.calls && t.calls[c] == phase {
      assert CallDated(cfg, s, steps[..|steps| - 1], c, phase);
      TookAtStays(cfg, s, steps, Sample(c), phase.now);
    } else if phase.Sampled? {
      NewlySampled(cfg, t, steps[|steps| - 1], c);
      TookLast(cfg, s, steps);
    }
  }

  lemma NewlySampled(cfg: Config, s: State, step: Step, c: CallId)
    requires c in Do(cfg, s, step).calls && Do(cfg, s, step).calls[c].Sampled?
    ensures (c in s.calls && s.calls[c] == Do(cfg, s, step).calls[c])
            || (step == Sample(c) && Do(cfg, s, step).calls[c].now == s.clock)
  {
  }

  lemma CommitStaysDated(cfg: Config, s: State, steps: seq<Step>, c: Commit)
    requires steps != [] && CommitDated(cfg, s, steps[..|steps| - 1], c)
    ensures CommitDated(cfg, s, steps, c)
  {
    TookAtStays(cfg, s, steps, Sample(c.call), c.now);
    if TookAt(cfg, s, steps[..|steps| - 1], Write(c.call), c.at) {
      TookAtStays(cfg, s, steps, Write(c.call), c.at);
    } else {
      TookAtStays(cfg, s, steps, WriteError(c.call, true), c.at);
    }
  }

  lemma ReplyStaysDated(cfg: Config, s: State, steps: seq<Step>, r: Reply)
    requires steps != [] && ReplyDated(cfg, s, steps[..|steps| - 1], r)
    ensures ReplyDated(cfg, s, steps, r)
  {
    var front := steps[..|steps| - 1];
    if TookAt(cfg, s, front, ReadError(r.call), r.at) {
      TookAtStays(cfg, s, steps, ReadError(r.call), r.at);
    } else if TookAt(cfg, s, front, Write(r.call), r.at) {
      TookAtStays(cfg, s, steps, Write(r.call), r.at);
    } else if landed :| TookAt(cfg, s, front, WriteError(r.call, landed), r.at) {
      TookAtStays(cfg, s, steps, WriteError(r.call, landed), r.at);
    }
  }

  /** A step adds at most one commit and one reply, at its own clock. */
  lemma StepDates(cfg: Config, s: State, step: Step)
    ensures var t := Do(cfg, s, step);
            && (t.commits == s.commits
                || (Lands(s, step) && t.commits == s.commits + [Commit(step.call, s.calls[step.call].now, s.clock)]))
            && (t.replies == s.replies
                || (|t.replies| == |s.replies| + 1 && t.replies[..|s.replies|] == s.replies
                    && (step.ReadError? || step.Write? || step.WriteError?)
                    && t.replies[|s.replies|].call == step.call
                    && (t.replies[|s.replies|].outcome != Counted ==> t.replies[|s.replies|].at == s.clock)))
  {
  }

  lemma NewCommitIsDated(cfg: Config, s: State, steps: seq<Step>, i: nat)
    requires steps != [] && Dated(cfg, s, steps[..|steps| - 1])
    requires |Run(cfg, s, steps[..|steps| - 1]).commits| <= i < |Run(cfg, s, steps).commits|
    ensures CommitDated(cfg, s, steps, Run(cfg, s, steps).commits[i])
  {
    var front, step := steps[..|steps| - 1], steps[|steps| - 1];
    var t := Run(cfg, s, front);
    StepDates(cfg, t, step);
    assert CallDated(cfg, s, front, step.call, t.calls[step.call]);
    TookAtStays(cfg, s, steps, Sample(step.call), t.calls[step.call].now);
    TookLast(cfg, s, steps);
  }

  /**
   In every run, deletions included: a commit's decision is dated by the clock of its call's sampling and its landing
   by the clock of its call's write, and a call that fails open by the clock of the step that ends it.
   */
  lemma {:induction false} EverythingIsDated(cfg: Config, clock: nat, start: Option<Item>, steps: seq<Step>)
    ensures Dated(cfg, Initial(clock, start), steps)
  {
    if steps != [] {
      var s, front, step := Initial(clock, start), steps[..|steps| - 1], steps[|steps| - 1];
      var t, u := Run(cfg, s, front), Run(cfg, s, steps);
      EverythingIsDated(cfg, clock, start, front);
      StepDates(cfg, t, step);
      forall c | c in u.calls ensures CallDated(cfg, s, steps, c, u.calls[c]) {
        CallStaysDated(cfg, s, steps, c);
      }
      forall i | 0 <= i < |u.commits| ensures CommitDated(cfg, s, steps, u.commits[i]) {
        if i < |t.commits| {
          CommitStaysDated(cfg, s, steps, t.commits[i]);
        } else {
          NewCommitIsDated(cfg, s, steps, i);
        }
      }
      forall k | 0 <= k < |u.replies| ensures ReplyDated(cfg, s, steps, u.replies[k]) {
        if k < |t.replies| {
          assert u.replies[..|t.replies|][k] == t.replies[k];
          ReplyStaysDated(cfg, s, steps, t.replies[k]);
        } else {
          TookLast(cfg, s, steps);
        }
      }
    }
  }

  // ---------- What a call is answered ----------

  /**
   What a call is answered, in every interleaving: each call that returned has exactly one reply, with the record it
   returned. A counted one belongs to the one commit of its call, is dated by that commit's clock and carries the
   decision that the committed clocks call for; every other one fails open.
   */
  lemma {:induction false} AnswersReportCommits(cfg: Config, clock: nat, start: Option<Item>, steps: seq<Step>,
                                                c: CallId)
    requires WellFormed(start) && NoCollection(steps)
    requires var s := Run(cfg, Initial(clock, start), steps); c in s.calls && s.calls[c].Returned?
    ensures Answered(cfg, start, Run(cfg, Initial(clock, start), steps), c)
  {
    RunKeepsReplies(cfg, clock, start, steps);
    RunKeepsInv(cfg, clock, start, steps);
    InvMeansAnswered(cfg, start, Run(cfg, Initial(clock, start), steps), c);
  }

  ghost predicate Answered(cfg: Config, start: Option<Item>, s: State, c: CallId)
    requires c in s.calls && s.calls[c].Returned?
  {
    var Returned(outcome, record) := s.calls[c];
    exists k :: 0 <= k < |s.replies| && s.replies[k].call == c
      && s.replies[k].outcome == outcome && s.replies[k].record == record
      && (forall l :: 0 <= l < |s.replies| && s.replies[l].call == c ==> l == k)
      && (outcome != Counted ==> record == FailOpen(cfg))
      && (outcome == Counted ==> exists i :: ReportsOnly(cfg, start, s, k, i))
  }

  /** Commit `i` is the only one of the call that reply `k` answers, and the reply is what it calls for. */
  ghost predicate ReportsOnly(cfg: Config, start: Option<Item>, s: State, k: int, i: int)
    requires 0 <= k < |s.replies|
  {
    && Reports(cfg, start, s, k, i)
    && (forall j :: 0 <= j < |s.commits| && s.commits[j].call == s.replies[k].call ==> j == i)
    && (start.None? && cfg.Valid() ==> EpochDecision(cfg, Nows(s.commits), i, s.replies[k].record))
  }

  lemma InvMeansAnswered(cfg: Config, start: Option<Item>, s: State, c: CallId)
    requires Inv(cfg, start, s) && RepliesOk(cfg, start, s) && c in s.calls && s.calls[c].Returned?
    ensures Answered(cfg, start, s, c)
  {
    var k :| 0 <= k < |s.replies| && s.replies[k].call == c;
    assert ReplyOk(cfg, start, s, k);
    if s.calls[c].outcome == Counted {
      var i :| Reports(cfg, start, s, k, i);
      if start.None? && cfg.Valid() {
        RefinesEpochs(cfg, Nows(s.commits), i);
      }
      assert ReportsOnly(cfg, start, s, k, i);
    }
  }

  // ---------- Giving up ----------

  /** A call that gave up was overtaken by at least three writes, each of a different other call. */
  lemma GivingUpMeansOvertaken(cfg: Config, clock: nat, start: Option<Item>, steps: seq<Step>, c: CallId)
    requires WellFormed(start) && NoCollection(steps)
    requires var s := Run(cfg, Initial(clock, start), steps);
             c in s.calls && s.calls[c].Returned? && s.calls[c].outcome == GaveUp
    ensures var s := Run(cfg, Initial(clock, start), steps);
            && c in s.began && s.began[c] + 3 <= |s.commits|
            && (forall i :: 0 <= i < |s.commits| ==> s.commits[i].call != c)
            && (forall i, j :: 0 <= i < j < |s.commits| ==> s.commits[i].call != s.commits[j].call)
  {
    RunKeepsInv(cfg, clock, start, steps);
    assert CallOk(start, Run(cfg, Initial(clock, start), steps), c);
  }

  ghost function CountedCalls(s: State): set<CallId> {
    set c | c in s.calls && s.calls[c].Returned? && s.calls[c].outcome == Counted
  }

  ghost function Committers(commits: seq<Commit>): set<CallId> {
    if commits == [] then {} else Committers(commits[..|commits| - 1]) + {commits[|commits| - 1].call}
  }

  lemma {:induction false} CommittersAreDistinct(commits: seq<Commit>)
    requires forall i, j :: 0 <= i < j < |commits| ==> commits[i].call != commits[j].call
    ensures |Committers(commits)| == |commits|
    ensures forall c :: c in Committers(commits) ==> exists i :: 0 <= i < |commits| && commits[i].call == c
  {
    if commits != [] {
      var front := commits[..|commits| - 1];
      CommittersAreDistinct(front);
      forall c | c in Committers(front) ensures exists i :: 0 <= i < |front| && commits[i].call == c {
        var i :| 0 <= i < |front| && front[i].call == c;
        assert commits[i].call == c;
      }
      assert commits[|front|].call == commits[|commits| - 1].call;
    }
  }

  lemma {:induction false} NoErrorsNoFailures(cfg: Config, s: State, steps: seq<Step>, c: CallId)
    requires NoStoreErrors(steps) && c in Run(cfg, s, steps).calls && s.calls == map[]
    ensures Run(cfg, s, steps).calls[c].Returned? ==> Run(cfg, s, steps).calls[c].outcome != StoreFailed
  {
    if steps != [] {
      var r := Run(cfg, s, steps[..|steps| - 1]);
      if c in r.calls {
        NoErrorsNoFailures(cfg, s, steps[..|steps| - 1], c);
      }
    }
  }

  ghost predicate AllReturned(s: State) {
    forall c :: c in s.calls ==> s.calls[c].Returned?
  }

  /**
   Among n overlapping calls that have all returned, at least min(n, 3) are counted, and with
   n <= 3 every one of them is.
   */
  lemma AtLeastThreeAreCounted(cfg: Config, clock: nat, start: Option<Item>, steps: seq<Step>)
    requires WellFormed(start) && NoCollection(steps) && NoStoreErrors(steps)
    requires AllReturned(Run(cfg, Initial(clock, start), steps))
    ensures var s := Run(cfg, Initial(clock, start), steps);
            && (|s.calls| <= 3 ==> CountedCalls(s) == s.calls.Keys)
            && (|s.calls| >= 3 ==> |CountedCalls(s)| >= 3)
  {
    var s := Run(cfg, Initial(clock, start), steps);
    RunKeepsInv(cfg, clock, start, steps);
    forall c | c in s.calls ensures s.calls[c].outcome != StoreFailed {
      NoErrorsNoFailures(cfg, Initial(clock, start), steps, c);
    }
    CommittersAreCounted(cfg, start, s);
    if c :| c in s.calls && s.calls[c].outcome == GaveUp {
      UncountedMakesFour(cfg, start, s, c);
    } else {
      assert CountedCalls(s) == s.calls.Keys;
    }
  }

  lemma UncountedMakesFour(cfg: Config, start: Option<Item>, s: State, c: CallId)
    requires Inv(cfg, start, s) && |s.commits| <= |CountedCalls(s)|
    requires c in s.calls && s.calls[c].Returned? && s.calls[c].outcome == GaveUp
    ensures |CountedCalls(s)| >= 3 && |s.calls| >= 4
  {
    assert CallOk(start, s, c);
    SubsetSize(CountedCalls(s) + {c}, s.calls.Keys);
  }

  lemma CommittersAreCounted(cfg: Config, start: Option<Item>, s: State)
    requires Inv(cfg, start, s)
    requires forall c :: c in s.calls ==> s.calls[c].Returned? && s.calls[c].outcome != StoreFailed
    ensures |s.commits| <= |CountedCalls(s)|
  {
    CommittersAreDistinct(s.commits);
    forall c | c in Committers(s.commits) ensures c in CountedCalls(s) {
      var i :| 0 <= i < |s.commits| && s.commits[i].call == c;
    }
    SubsetSize(Committers(s.commits), CountedCalls(s));
  }

  lemma SubsetSize(a: set<CallId>, b: set<CallId>)
    requires a <= b
    ensures |a| <= |b|
  {
    assert b == a + (b - a);
  }

  function Serve(b: CallId): seq<Step> {
    [Start(b), Read(b)] + [Sample(b), Write(b)]
  }

  /** A call with nothing in between is counted. */
  lemma Served(cfg: Config, s: State, b: CallId)
    requires b !in s.calls
    ensures var t := Run(cfg, s, Serve(b));
            && t.item.Some? && Version(t.item) == Version(s.item) + 1
            && |t.commits| == |s.commits| + 1 && t.clock == s.clock
            && t.calls.Keys == s.calls.Keys + {b} && t.calls[b].Returned? && t.calls[b].outcome == Counted
            && forall d :: d in s.calls ==> t.calls[d] == s.calls[d]
  {
    Run2(cfg, s, Start(b), Read(b));
    var u := Run(cfg, s, [Start(b), Read(b)]);
    assert u.calls[b] == HasRead(0, s.item) && u.item == s.item;
    Run2(cfg, u, Sample(b), Write(b));
    RunAppend(cfg, s, [Start(b), Read(b)], [Sample(b), Write(b)]);
  }

  lemma LosesTheWrite(cfg: Config, s: State, a: CallId)
    requires a in s.calls && s.calls[a].HasRead? && !ConditionHolds(s.item, s.calls[a].snapshot)
    ensures var t := Run(cfg, s, [Sample(a), Write(a)]);
            && t.item == s.item
            && t.calls == s.calls[a := if s.calls[a].attempt + 1 < MAX_ATTEMPTS then Reading(s.calls[a].attempt + 1)
                                       else Returned(GaveUp, FailOpen(cfg))]
  {
    Run2(cfg, s, Sample(a), Write(a));
  }

  /** Calls 0 to `m - 1` start; all of them read; and all of them try to write. */
  function StartAll(m: nat): seq<Step> {
    if m == 0 then [] else StartAll(m - 1) + [Start(m - 1)]
  }

  function ReadAll(m: nat): seq<Step> {
    if m == 0 then [] else ReadAll(m - 1) + [Read(m - 1)]
  }

  function WriteAll(m: nat): seq<Step> {
    if m == 0 then [] else WriteAll(m - 1) + TryWrite(m - 1)
  }

  function TryWrite(c: CallId): seq<Step> {
    [Sample(c), Write(c)]
  }

  /** Calls 0 to `m - 1` read, call `b` is served, and they lose their writes. */
  function Round(m: nat, b: CallId): seq<Step> {
    ReadAll(m) + Serve(b) + WriteAll(m)
  }

  function Contend(m: nat, k: nat): seq<Step> {
    if k == 0 then StartAll(m) else Contend(m, k - 1) + Round(m, m + k - 1)
  }

  ghost predicate AllAre(s: State, m: nat, phase: Phase) {
    forall c: nat :: c < m ==> c in s.calls && s.calls[c] == phase
  }

  ghost predicate CallsAre(s: State, n: nat) {
    forall c: nat :: c in s.calls <==> c < n
  }

  /** Only calls 0 to `m - 1` may have moved. */
  ghost predicate OthersAsBefore(s: State, t: State, m: nat) {
    && (forall c: nat :: c in t.calls <==> c in s.calls)
    && forall c: nat :: c in s.calls && c >= m ==> t.calls[c] == s.calls[c]
  }

  function Lost(cfg: Config, k: nat): Phase {
    if k < MAX_ATTEMPTS then Reading(k) else Returned(GaveUp, FailOpen(cfg))
  }

  /** Calls 0 to `m - 1` have lost `k` writes, and the `k` calls after them are counted. */
  ghost predicate Contended(cfg: Config, s: State, m: nat, k: nat) {
    && WellFormed(s.item) && CallsAre(s, m + k) && AllAre(s, m, Lost(cfg, k))
    && forall c: nat :: m <= c < m + k ==> s.calls[c].Returned? && s.calls[c].outcome == Counted
  }

  lemma {:induction false} AllStarted(cfg: Config, s: State, m: nat)
    requires s.calls == map[]
    ensures var t := Run(cfg, s, StartAll(m)); t.item == s.item && CallsAre(t, m) && AllAre(t, m, Reading(0))
  {
    if m > 0 {
      AllStarted(cfg, s, m - 1);
      RunOneMore(cfg, s, StartAll(m - 1), Start(m - 1));
    }
  }

  lemma {:induction false} AllRead(cfg: Config, s: State, m: nat, k: nat)
    requires AllAre(s, m, Reading(k))
    ensures var t := Run(cfg, s, ReadAll(m));
            t.item == s.item && OthersAsBefore(s, t, m) && AllAre(t, m, HasRead(k, s.item))
  {
    if m > 0 {
      AllRead(cfg, s, m - 1, k);
      RunOneMore(cfg, s, ReadAll(m - 1), Read(m - 1));
    }
  }

  /** `t` is `s` after the first `n` of its `m` outdated calls have lost their writes. */
  ghost predicate Losing(cfg: Config, s: State, t: State, n: nat, k: nat) {
    t.item == s.item && OthersAsBefore(s, t, n) && AllAre(t, n, Lost(cfg, k + 1))
  }

  lemma {:induction false} AllLose(cfg: Config, s: State, m: nat, k: nat, snapshot: Option<Item>)
    requires k < MAX_ATTEMPTS && !ConditionHolds(s.item, snapshot) && AllAre(s, m, HasRead(k, snapshot))
    ensures Losing(cfg, s, Run(cfg, s, WriteAll(m)), m, k)
  {
    if m > 0 {
      AllLose(cfg, s, m - 1, k, snapshot);
      OneMoreTryLoses(cfg, s, m - 1, k, snapshot);
    }
  }

  lemma OneMoreTryLoses(cfg: Config, s: State, n: nat, k: nat, snapshot: Option<Item>)
    requires k < MAX_ATTEMPTS && !ConditionHolds(s.item, snapshot)
    requires n in s.calls && s.calls[n] == HasRead(k, snapshot)
    requires Losing(cfg, s, Run(cfg, s, WriteAll(n)), n, k)
    ensures Losing(cfg, s, Run(cfg, s, WriteAll(n + 1)), n + 1, k)
  {
    OneMoreLoses(cfg, s, Run(cfg, s, WriteAll(n)), n, k, snapshot);
    RunAppend(cfg, s, WriteAll(n), TryWrite(n));
  }

  lemma OneMoreLoses(cfg: Config, s: State, t: State, c: CallId, k: nat, snapshot: Option<Item>)
    requires k < MAX_ATTEMPTS && !ConditionHolds(s.item, snapshot)
    requires c in s.calls && s.calls[c] == HasRead(k, snapshot)
    requires Losing(cfg, s, t, c, k)
    ensures Losing(cfg, s, Run(cfg, t, TryWrite(c)), c + 1, k)
  {
    LosesTheWrite(cfg, t, c);
  }

  /** `t` is `s` with calls 0 to `m - 1` having read and call `m + k` counted. */
  ghost predicate Overtaken(s: State, t: State, m: nat, k: nat) {
    && t.item.Some? && Version(t.item) == Version(s.item) + 1
    && CallsAre(t, m + k + 1) && AllAre(t, m, HasRead(k, s.item))
    && t.calls[m + k].Returned? && t.calls[m + k].outcome == Counted
    && forall c: nat :: m <= c < m + k && c in s.calls ==> t.calls[c] == s.calls[c]
  }

  lemma OneOvertakes(cfg: Config, s: State, m: nat, k: nat)
    requires k < MAX_ATTEMPTS && Contended(cfg, s, m, k)
    ensures Overtaken(s, Run(cfg, s, ReadAll(m) + Serve(m + k)), m, k)
  {
    AllRead(cfg, s, m, k);
    ServedAfterReads(cfg, s, Run(cfg, s, ReadAll(m)), m, k);
    RunAppend(cfg, s, ReadAll(m), Serve(m + k));
  }

  lemma ServedAfterReads(cfg: Config, s: State, t: State, m: nat, k: nat)
    requires WellFormed(s.item) && CallsAre(s, m + k)
    requires t.item == s.item && OthersAsBefore(s, t, m) && AllAre(t, m, HasRead(k, s.item))
    ensures Overtaken(s, Run(cfg, t, Serve(m + k)), m, k)
  {
    Served(cfg, t, m + k);
  }

  lemma OvertakenLose(cfg: Config, s: State, t: State, m: nat, k: nat)
    requires k < MAX_ATTEMPTS && Contended(cfg, s, m, k) && Overtaken(s, t, m, k)
    ensures Contended(cfg, Run(cfg, t, WriteAll(m)), m, k + 1)
  {
    AllLose(cfg, t, m, k, s.item);
  }

  lemma {:induction false} Contending(cfg: Config, s: State, m: nat, k: nat)
    requires s.calls == map[] && WellFormed(s.item) && k <= MAX_ATTEMPTS
    ensures Contended(cfg, Run(cfg, s, Contend(m, k)), m, k)
  {
    if k == 0 {
      AllStarted(cfg, s, m);
    } else {
      var t := Run(cfg, s, Contend(m, k - 1));
      Contending(cfg, s, m, k - 1);
      OneOvertakes(cfg, t, m, k - 1);
      OvertakenLose(cfg, t, Run(cfg, t, ReadAll(m) + Serve(m + k - 1)), m, k - 1);
      RunAppend(cfg, t, ReadAll(m) + Serve(m + k - 1), WriteAll(m));
      RunAppend(cfg, s, Contend(m, k - 1), Round(m, m + k - 1));
    }
  }

  /** The run has neither store errors nor deletions. */
  ghost predicate Undisturbed(steps: seq<Step>) {
    NoStoreErrors(steps) && NoCollection(steps)
  }

  lemma {:induction false} RoundIsUndisturbed(m: nat, b: CallId)
    ensures Undisturbed(StartAll(m)) && Undisturbed(ReadAll(m)) && Undisturbed(WriteAll(m)) && Undisturbed(Round(m, b))
  {
    if m > 0 {
      RoundIsUndisturbed(m - 1, b);
    }
  }

  lemma {:induction false} ContendIsUndisturbed(m: nat, k: nat)
    ensures Undisturbed(Contend(m, k))
  {
    RoundIsUndisturbed(m, if k == 0 then 0 else m + k - 1);
    if k > 0 {
      ContendIsUndisturbed(m, k - 1);
    }
  }

  /** Three is the most that can be promised: any number of calls, from any item, can finish with only three counted. */
  lemma OnlyThreeNeedBeCounted(cfg: Config, clock: nat, start: Option<Item>, n: nat) returns (steps: seq<Step>)
    requires WellFormed(start) && n >= 3
    ensures NoStoreErrors(steps) && NoCollection(steps)
    ensures var s := Run(cfg, Initial(clock, start), steps);
            AllReturned(s) && |s.calls| == n && |CountedCalls(s)| == 3
  {
    steps := Contend(n - 3, 3);
    ContendIsUndisturbed(n - 3, 3);
    Contending(cfg, Initial(clock, start), n - 3, 3);
    ThreeAreCounted(cfg, Run(cfg, Initial(clock, start), steps), n);
  }

  lemma ThreeAreCounted(cfg: Config, s: State, n: nat)
    requires n >= 3 && Contended(cfg, s, n - 3, 3)
    ensures AllReturned(s) && |s.calls| == n && |CountedCalls(s)| == 3
  {
    assert s.calls.Keys == Numbers(n);
    assert |s.calls| == |s.calls.Keys|;
    forall c | c in s.calls ensures s.calls[c].Returned? && (s.calls[c].outcome == Counted <==> c >= n - 3) {
      assert c < n;
    }
    assert CountedCalls(s) == {n - 3, n - 2, n - 1};
  }

  function Numbers(n: nat): (ns: set<nat>)
    ensures |ns| == n && forall c: nat :: c in ns <==> c < n
  {
    if n == 0 then {} else Numbers(n - 1) + {n - 1}
  }

  // ---------- How many answers let a request through ----------

  /** Answers dated in `[a, b)` that let the request pass. */
  function Passed(replies: seq<Reply>, a: int, b: int): nat {
    if replies == [] then 0
    else
      var last := replies[|replies| - 1];
      Passed(replies[..|replies| - 1], a, b) + (if InInterval(last.at, a, b) && !last.record.isBlocked then 1 else 0)
  }

  /** Answers given in `[a, b)` without a count: the store failed or the call gave up. */
  function FailedOpen(replies: seq<Reply>, a: int, b: int): nat {
    if replies == [] then 0
    else
      var last := replies[|replies| - 1];
      FailedOpen(replies[..|replies| - 1], a, b)
        + (if InInterval(last.at, a, b) && last.outcome != Counted then 1 else 0)
  }

  ghost predicate PassedIsBounded(cfg: Config, s: State, a: int, b: int) {
    Passed(s.replies, a, b) <= Admitted(cfg, Nows(s.commits), |s.commits|, a, b) + FailedOpen(s.replies, a, b)
  }

  lemma ReplyCounts(cfg: Config, s: State, c: CallId, outcome: Outcome, record: Decision, at: nat, a: int, b: int)
    ensures var t := Return(s, c, outcome, record, at);
            && Passed(t.replies, a, b)
                 == Passed(s.replies, a, b) + (if InInterval(at, a, b) && !record.isBlocked then 1 else 0)
            && FailedOpen(t.replies, a, b)
                 == FailedOpen(s.replies, a, b) + (if InInterval(at, a, b) && outcome != Counted then 1 else 0)
  {
    var t := Return(s, c, outcome, record, at);
    assert t.replies[..|t.replies| - 1] == s.replies;
  }

  lemma LandCounts(cfg: Config, s: State, c: CallId, now: nat, a: int, b: int)
    requires ItemIsFold(cfg, None, s)
    ensures var t := Land(cfg, s, c, s.item, now);
            Admitted(cfg, Nows(t.commits), |t.commits|, a, b) == Admitted(cfg, Nows(s.commits), |s.commits|, a, b)
              + (if InInterval(now, a, b) && !Report(Proposed(cfg, s.item, now).window, now).isBlocked then 1 else 0)
  {
    var t := Land(cfg, s, c, s.item, now);
    var n := |s.commits|;
    LandKeepsFold(cfg, None, s, c, s.item, now);
    assert t.commits[..n] == s.commits;
    assert Nows(s.commits) == Nows(t.commits)[..n];
    LaterRequestsDoNotMatter(cfg, Nows(s.commits), Nows(t.commits), n, a, b);
    assert After(cfg, None, Nows(t.commits), n + 1) == WindowOf(t.item);
  }

  lemma {:induction false} RunKeepsPassedBounded(cfg: Config, clock: nat, steps: seq<Step>, a: int, b: int)
    requires NoCollection(steps)
    ensures PassedIsBounded(cfg, Run(cfg, Initial(clock, None), steps), a, b)
  {
    if steps != [] {
      var front, step := steps[..|steps| - 1], steps[|steps| - 1];
      var s := Run(cfg, Initial(clock, None), front);
      RunKeepsPassedBounded(cfg, clock, front, a, b);
      RunKeepsInv(cfg, clock, None, front);
      StepKeepsPassedBounded(cfg, s, step, a, b);
    }
  }

  lemma StepKeepsPassedBounded(cfg: Config, s: State, step: Step, a: int, b: int)
    requires Inv(cfg, None, s) && !step.Collect? && PassedIsBounded(cfg, s, a, b)
    ensures PassedIsBounded(cfg, Do(cfg, s, step), a, b)
  {
    if Lands(s, step) {
      assert CallOk(None, s, step.call);
      LandKeepsPassedBounded(cfg, s, step, a, b);
    } else {
      QuietStepFrame(cfg, s, step);
      QuietReply(cfg, s, step);
      if Do(cfg, s, step).replies != s.replies {
        ReplyCounts(cfg, s, step.call, if step.Write? then GaveUp else StoreFailed, FailOpen(cfg), s.clock, a, b);
      }
    }
  }

  /** A step that lands nothing answers nobody, or one call without a count. */
  lemma QuietReply(cfg: Config, s: State, step: Step)
    requires !step.Collect? && !Lands(s, step)
    ensures var t := Do(cfg, s, step);
            || t.replies == s.replies
            || (!step.Tick? && t.replies == Return(s, step.call, if step.Write? then GaveUp else StoreFailed,
                                                   FailOpen(cfg), s.clock).replies)
  {
  }

  lemma LandKeepsPassedBounded(cfg: Config, s: State, step: Step, a: int, b: int)
    requires Lands(s, step) && s.calls[step.call].snapshot == s.item
    requires ItemIsFold(cfg, None, s) && PassedIsBounded(cfg, s, a, b)
    ensures PassedIsBounded(cfg, Do(cfg, s, step), a, b)
  {
    var c, now := step.call, s.calls[step.call].now;
    if step.Write? {
      LandedReplyIsBounded(cfg, s, c, now, Counted, Report(Proposed(cfg, s.item, now).window, now), now, a, b);
    } else {
      LandedReplyIsBounded(cfg, s, c, now, StoreFailed, FailOpen(cfg), s.clock, a, b);
    }
  }

  /** The reply to a write that landed is either the decision it stored or counts as failed open. */
  lemma LandedReplyIsBounded(cfg: Config, s: State, c: CallId, now: nat, outcome: Outcome, record: Decision, at: nat,
                             a: int, b: int)
    requires ItemIsFold(cfg, None, s) && PassedIsBounded(cfg, s, a, b)
    requires outcome == Counted ==> at == now && record == Report(Proposed(cfg, s.item, now).window, now)
    ensures PassedIsBounded(cfg, Return(Land(cfg, s, c, s.item, now), c, outcome, record, at), a, b)
  {
    LandCounts(cfg, s, c, now, a, b);
    ReplyCounts(cfg, Land(cfg, s, c, s.item, now), c, outcome, record, at, a, b);
  }

  /**
   Over every concurrent run, store errors included, the answers that let a request through in an interval
   are at most the budget of one key plus the answers the store could not back.
   */
  lemma {:induction false} PassedWithinBudget(cfg: Config, clock: nat, steps: seq<Step>, a: int, b: int)
    requires cfg.Valid() && a <= b && NoCollection(steps)
    ensures var s := Run(cfg, Initial(clock, None), steps);
            Passed(s.replies, a, b) <= Budget(cfg, b - a) + FailedOpen(s.replies, a, b)
  {
    RunKeepsPassedBounded(cfg, clock, steps, a, b);
    StoredWindowIsFold(cfg, clock, None, steps);
    AdmittedWithinBudget(cfg, Nows(Run(cfg, Initial(clock, None), steps).commits), a, b);
  }

  /** Unblocked writes by the time they landed rather than the time they were decided. */
  function LandedUnblocked(cfg: Config, commits: seq<Commit>, n: nat, a: int, b: int): nat
    requires n <= |commits|
  {
    if n == 0 then 0
    else LandedUnblocked(cfg, commits, n - 1, a, b)
         + (if InInterval(commits[n - 1].at, a, b) && !Refused(cfg, Nows(commits), n - 1) then 1 else 0)
  }

  lemma {:induction false} LandedFollowsDecided(cfg: Config, s: State, n: nat, a: int, b: int)
    requires Ordered(s) && n <= |s.commits|
    ensures LandedUnblocked(cfg, s.commits, n, a, b) <= Admitted(cfg, Nows(s.commits), n, a, b) + 1
    ensures n == 0 || s.commits[n - 1].at < a ==> LandedUnblocked(cfg, s.commits, n, a, b) == 0
  {
    if n > 0 {
      LandedFollowsDecided(cfg, s, n - 1, a, b);
      assert n > 1 ==> s.commits[n - 2].at <= s.commits[n - 1].now <= s.commits[n - 1].at;
    }
  }

  /** Dated by landing, a slow write can carry one more request into the interval, and no more than one. */
  lemma LandedWithinBudget(cfg: Config, clock: nat, steps: seq<Step>, a: int, b: int)
    requires cfg.Valid() && a <= b && NoCollection(steps)
    ensures var commits := Run(cfg, Initial(clock, None), steps).commits;
            LandedUnblocked(cfg, commits, |commits|, a, b) <= Budget(cfg, b - a) + 1
  {
    var s := Run(cfg, Initial(clock, None), steps);
    RunKeepsInv(cfg, clock, None, steps);
    StoredWindowIsFold(cfg, clock, None, steps);
    LandedFollowsDecided(cfg, s, |s.commits|, a, b);
    AdmittedWithinBudget(cfg, Nows(s.commits), a, b);
  }
}
