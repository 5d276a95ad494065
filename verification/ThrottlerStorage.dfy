/**
 `DynamoDbThrottlerStorage.increment` as it runs: a bounded retry loop over a shared table item, with whatever
 the other calls do in between. Its effect is a run of the transition system of `ThrottlerStore`.
 */
module ThrottlerStorage {
  import opened Options
  import opened ThrottleWindow
  import opened ThrottlerStore

  /** What happens around one attempt: the steps of others at each `await`, and the store's faults. */
  datatype Round = Round(beforeRead: seq<Step>, readFails: bool, beforeSample: seq<Step>,
                         beforeWrite: seq<Step>, writeFault: Option<bool>)

  ghost predicate OthersOnly(steps: seq<Step>, c: CallId) {
    forall i :: 0 <= i < |steps| ==> !ActsFor(steps[i], c)
  }

  ghost predicate RoundOfOthers(r: Round, c: CallId) {
    OthersOnly(r.beforeRead, c) && OthersOnly(r.beforeSample, c) && OthersOnly(r.beforeWrite, c)
  }

  /** The store fails a request of the attempt, which ends the call there. */
  predicate Faulty(r: Round) {
    r.readFails || r.writeFault.Some?
  }

  predicate NoneFaulty(rounds: seq<Round>, n: int)
    requires n <= |rounds|
  {
    forall i :: 0 <= i < n ==> !Faulty(rounds[i])
  }

  /** How a call ends in an attempt: counted with the decision, or failing open on a fault. */
  ghost predicate EndsIn(cfg: Config, phase: Phase, r: Round, record: Decision) {
    && phase.Returned? && phase.record == record
    && (if Faulty(r) then phase.outcome == StoreFailed && record == FailOpen(cfg) else phase.outcome == Counted)
  }

  /** How a call ends: in its last attempt, or giving up after three that all lost their condition. */
  ghost predicate Ends(cfg: Config, phase: Phase, rounds: seq<Round>, attempts: int, record: Decision)
    requires 1 <= attempts <= |rounds|
  {
    && NoneFaulty(rounds, attempts - 1)
    && (|| EndsIn(cfg, phase, rounds[attempts - 1], record)
        || (attempts == 3 && NoneFaulty(rounds, 3) && phase == Returned(GaveUp, record) && record == FailOpen(cfg)))
  }

  lemma {:induction false} OthersLeaveCall(cfg: Config, s: State, steps: seq<Step>, c: CallId)
    requires OthersOnly(steps, c) && c in s.calls
    ensures c in Run(cfg, s, steps).calls && Run(cfg, s, steps).calls[c] == s.calls[c]
  {
    if steps != [] {
      OthersLeaveCall(cfg, s, steps[..|steps| - 1], c);
    }
  }

  /** The interleaving of one attempt. */
  function AttemptTrace(c: CallId, r: Round): seq<Step> {
    if r.readFails then r.beforeRead + [ReadError(c)]
    else (r.beforeRead + [Read(c)]) + (r.beforeSample + [Sample(c)])
         + (r.beforeWrite + [if r.writeFault.Some? then WriteError(c, r.writeFault.value) else Write(c)])
  }

  /** The interleaving of a whole call that made `n` attempts. */
  function CallTrace(c: CallId, rounds: seq<Round>, n: nat): seq<Step>
    requires n <= |rounds|
  {
    if n == 0 then [Start(c)] else CallTrace(c, rounds, n - 1) + AttemptTrace(c, rounds[n - 1])
  }

  lemma OneMoreAttempt(cfg: Config, s: State, before: State, after: State, c: CallId, rounds: seq<Round>, n: nat)
    requires n < |rounds| && Reaches(cfg, s, CallTrace(c, rounds, n), before)
    requires Reaches(cfg, before, AttemptTrace(c, rounds[n]), after)
    ensures Reaches(cfg, s, CallTrace(c, rounds, n + 1), after)
  {
    RunAppend(cfg, s, CallTrace(c, rounds, n), AttemptTrace(c, rounds[n]));
  }

  ghost predicate Reaches(cfg: Config, s: State, steps: seq<Step>, t: State) {
    t == Run(cfg, s, steps)
  }

  lemma CallBegins(cfg: Config, s: State, c: CallId, rounds: seq<Round>)
    ensures Run(cfg, s, CallTrace(c, rounds, 0)) == Do(cfg, s, Start(c))
  {
    RunOneMore(cfg, s, [], Start(c));
    assert [] + [Start(c)] == CallTrace(c, rounds, 0);
  }

  lemma GivingUpEnds(cfg: Config, rounds: seq<Round>)
    requires |rounds| == MAX_ATTEMPTS && NoneFaulty(rounds, MAX_ATTEMPTS)
    ensures Ends(cfg, Returned(GaveUp, FailOpen(cfg)), rounds, MAX_ATTEMPTS, FailOpen(cfg))
  {
  }

  lemma LastAttemptEnds(cfg: Config, phase: Phase, rounds: seq<Round>, n: nat, record: Decision)
    requires n < |rounds| && NoneFaulty(rounds, n) && EndsIn(cfg, phase, rounds[n], record)
    ensures Ends(cfg, phase, rounds, n + 1, record)
  {
  }

  function ItemKey(throttlerName: string, key: string): string {
    throttlerName + (":" + key)
  }

  /** Named limits never share a counter, as long as no throttler name holds a colon. */
  lemma NamedLimitsAreSeparate(name: string, key: string, otherName: string, otherKey: string)
    requires ':' !in name && ':' !in otherName
    ensures ItemKey(name, key) == ItemKey(otherName, otherKey) <==> name == otherName && key == otherKey
  {
    var a, b := ItemKey(name, key), ItemKey(otherName, otherKey);
    assert a[|name|] == ':' && b[|otherName|] == ':';
    assert forall i :: 0 <= i < |name| ==> a[i] == name[i] != ':';
    assert forall i :: 0 <= i < |otherName| ==> b[i] == otherName[i] != ':';
    assert a[..|name|] == name && b[..|otherName|] == otherName;
    assert a[|name| + 1..] == key && b[|otherName| + 1..] == otherKey;
  }

  datatype PutResult = PutOk | ConditionalCheckFailed | PutFailed

  class DynamoDbThrottlerStorage {
    const cfg: Config
    var clock: nat
    var item: Option<Item>
    var calls: map<CallId, Phase>
    var began: map<CallId, nat>
    var commits: seq<Commit>
    var replies: seq<Reply>

    constructor (cfg: Config, clock: nat, item: Option<Item>)
      ensures this.cfg == cfg && View() == Initial(clock, item)
    {
      this.cfg, this.clock, this.item := cfg, clock, item;
      calls, began, commits, replies := map[], map[], [], [];
    }

    function View(): State
      reads this
    {
      State(clock, item, calls, began, commits, replies)
    }

    /** The other calls, the clock and the table move while this call awaits. */
    method Await(steps: seq<Step>)
      modifies this
      ensures View() == Run(cfg, old(View()), steps)
    {
      var i := 0;
      while i < |steps|
        invariant 0 <= i <= |steps|
        invariant View() == Run(cfg, old(View()), steps[..i])
      {
        var s := Do(cfg, View(), steps[i]);
        clock, item, calls, began, commits, replies := s.clock, s.item, s.calls, s.began, s.commits, s.replies;
        RunOneMore(cfg, old(View()), steps[..i], steps[i]);
        assert steps[..i] + [steps[i]] == steps[..i + 1];
        i := i + 1;
      }
      assert steps[..|steps|] == steps;
    }

    /** The conditional PutItem. A failing request may still have landed. */
    method PutItem(c: CallId, window: Window, currentVersion: Option<int>, now: nat, fault: Option<bool>)
      returns (r: PutResult)
      modifies this`item, this`commits
      ensures var holds :=
                if currentVersion.None? then old(item).None?
                else old(item).Some? && old(item).value.version == currentVersion.value;
              var lands := holds && (fault.None? || fault.value);
              && r == (if fault.Some? then PutFailed else if holds then PutOk else ConditionalCheckFailed)
              && item == (if lands then Some(NewItem(window, if currentVersion.Some? then currentVersion.value else 0))
                          else old(item))
              && commits == (if lands then old(commits) + [Commit(c, now, clock)] else old(commits))
    {
      var holds :=
        if currentVersion.None? then item.None?
        else item.Some? && item.value.version == currentVersion.value;
      if holds && (fault.None? || fault.value) {
        item := Some(NewItem(window, if currentVersion.Some? then currentVersion.value else 0));
        commits := commits + [Commit(c, now, clock)];
      }
      r := if fault.Some? then PutFailed else if holds then PutOk else ConditionalCheckFailed;
    }

    method Answer(c: CallId, outcome: Outcome, record: Decision, at: nat)
      modifies this`calls, this`replies
      ensures View() == Return(old(View()), c, outcome, record, at)
    {
      calls := calls[c := Returned(outcome, record)];
      replies := replies + [Reply(c, outcome, record, at)];
    }

    /** The steps of the others at one `await`, which leave this call where it is. */
    method AwaitOthers(c: CallId, steps: seq<Step>)
      requires c in calls && OthersOnly(steps, c)
      modifies this
      ensures View() == Run(cfg, old(View()), steps)
      ensures c in calls && calls[c] == old(calls[c])
    {
      OthersLeaveCall(cfg, View(), steps, c);
      Await(steps);
    }

    /** The consistent read; `None` when the request failed, which fails the call open. */
    method ReadItem(c: CallId, attempt: nat, others: seq<Step>, fails: bool) returns (current: Option<Option<Item>>)
      requires c in calls && calls[c] == Reading(attempt) && OthersOnly(others, c)
      modifies this
      ensures View() == Run(cfg, old(View()), others + [if fails then ReadError(c) else Read(c)])
      ensures current.None? <==> fails
      ensures c in calls
                && calls[c] == (if fails then Returned(StoreFailed, FailOpen(cfg)) else HasRead(attempt, current.value))
    {
      AwaitOthers(c, others);
      RunOneMore(cfg, old(View()), others, if fails then ReadError(c) else Read(c));
      if fails {
        current := None;
        Answer(c, StoreFailed, FailOpen(cfg), clock);
      } else {
        current := Some(item);
        calls := calls[c := HasRead(attempt, item)];
      }
    }

    /** `Date.now()` once the read is back. */
    method SampleClock(c: CallId, attempt: nat, current: Option<Item>, others: seq<Step>) returns (now: nat)
      requires c in calls && calls[c] == HasRead(attempt, current) && OthersOnly(others, c)
      modifies this
      ensures View() == Run(cfg, old(View()), others + [Sample(c)])
      ensures c in calls && calls[c] == Sampled(attempt, current, now)
    {
      AwaitOthers(c, others);
      now := clock;
      calls := calls[c := Sampled(attempt, current, now)];
      RunOneMore(cfg, old(View()), others, Sample(c));
    }

    /** The conditional write and what its result means for the call; `None` asks for another attempt. */
    method WriteItem(c: CallId, attempt: nat, current: Option<Item>, now: nat, others: seq<Step>, fault: Option<bool>)
      returns (record: Option<Decision>)
      requires c in calls && calls[c] == Sampled(attempt, current, now) && attempt < MAX_ATTEMPTS
                 && OthersOnly(others, c)
      modifies this
      ensures View() == Run(cfg, old(View()), others + [if fault.Some? then WriteError(c, fault.value) else Write(c)])
      ensures c in calls
      ensures record.Some? ==> calls[c] == Returned(if fault.Some? then StoreFailed else Counted, record.value)
                               && (fault.Some? ==> record.value == FailOpen(cfg))
      ensures record.None? ==>
                calls[c] == if attempt + 1 < MAX_ATTEMPTS then Reading(attempt + 1) else Returned(GaveUp, FailOpen(cfg))
      ensures record.None? ==> fault.None?
    {
      var next, decision := AdvanceThrottleWindow(WindowOf(current), now, cfg);
      AwaitOthers(c, others);
      RunOneMore(cfg, old(View()), others, if fault.Some? then WriteError(c, fault.value) else Write(c));
      var r := PutItem(c, next, if current.Some? then Some(current.value.version) else None, now, fault);
      record := None;
      if r == PutOk {
        record := Some(decision);
        Answer(c, Counted, decision, now);
      } else if r == PutFailed {
        record := Some(FailOpen(cfg));
        Answer(c, StoreFailed, FailOpen(cfg), clock);
      } else if attempt + 1 < MAX_ATTEMPTS {
        calls := calls[c := Reading(attempt + 1)];
      } else {
        Answer(c, GaveUp, FailOpen(cfg), clock);
      }
    }

    method Begin(c: CallId)
      requires c !in calls
      modifies this
      ensures View() == Do(cfg, old(View()), Start(c))
      ensures c in calls && calls[c] == Reading(0)
    {
      calls, began := calls[c := Reading(0)], began[c := |commits|];
    }

    /** One turn of the retry loop. */
    method Attempt(c: CallId, attempt: nat, round: Round) returns (record: Option<Decision>)
      requires c in calls && calls[c] == Reading(attempt) && attempt < MAX_ATTEMPTS && RoundOfOthers(round, c)
      modifies this
      ensures Reaches(cfg, old(View()), AttemptTrace(c, round), View())
      ensures c in calls
      ensures record.Some? ==> EndsIn(cfg, calls[c], round, record.value)
      ensures record.None? ==> !Faulty(round)
      ensures record.None? ==>
                calls[c] == if attempt + 1 < MAX_ATTEMPTS then Reading(attempt + 1) else Returned(GaveUp, FailOpen(cfg))
    {
      var s0 := View();
      var current := ReadItem(c, attempt, round.beforeRead, round.readFails);
      if current.None? {
        return Some(FailOpen(cfg));
      }
      ghost var a := round.beforeRead + [Read(c)];
      var now := SampleClock(c, attempt, current.value, round.beforeSample);
      ghost var b := round.beforeSample + [Sample(c)];
      RunAppend(cfg, s0, a, b);
      record := WriteItem(c, attempt, current.value, now, round.beforeWrite, round.writeFault);
      ghost var d := round.beforeWrite
        + [if round.writeFault.Some? then WriteError(c, round.writeFault.value) else Write(c)];
      RunAppend(cfg, s0, a + b, d);
      assert a + b + d == AttemptTrace(c, round);
    }

    /** The state of the loop after `n` attempts that all lost their condition. */
    ghost predicate Trying(s0: State, c: CallId, rounds: seq<Round>, n: nat)
      reads this
      requires n <= |rounds|
    {
      && Reaches(cfg, s0, CallTrace(c, rounds, n), View()) && NoneFaulty(rounds, n)
      && c in calls && calls[c] == if n < MAX_ATTEMPTS then Reading(n) else Returned(GaveUp, FailOpen(cfg))
    }

    /** One more turn, seen from the start of the call. */
    method TryAgain(ghost s0: State, c: CallId, rounds: seq<Round>, n: nat) returns (record: Option<Decision>)
      requires n < |rounds| == MAX_ATTEMPTS && RoundOfOthers(rounds[n], c) && Trying(s0, c, rounds, n)
      modifies this
      ensures record.None? ==> Trying(s0, c, rounds, n + 1)
      ensures record.Some? ==> Reaches(cfg, s0, CallTrace(c, rounds, n + 1), View())
      ensures record.Some? ==> c in calls && Ends(cfg, calls[c], rounds, n + 1, record.value)
    {
      ghost var before := View();
      record := Attempt(c, n, rounds[n]);
      OneMoreAttempt(cfg, s0, before, View(), c, rounds, n);
      if record.Some? {
        LastAttemptEnds(cfg, calls[c], rounds, n, record.value);
      }
    }

    /**
     The retry loop, at most three attempts and then failing open. The whole call is a run of the transition
     system, so everything proved about runs holds for it.
     */
    method Increment(c: CallId, rounds: seq<Round>) returns (record: Decision, ghost attempts: nat)
      requires c !in calls
      requires |rounds| == MAX_ATTEMPTS && forall i :: 0 <= i < |rounds| ==> RoundOfOthers(rounds[i], c)
      modifies this
      ensures 1 <= attempts <= 3
      ensures View() == Run(cfg, old(View()), CallTrace(c, rounds, attempts))
      ensures c in calls && Ends(cfg, calls[c], rounds, attempts, record)
    {
      var s0 := View();
      Begin(c);
      CallBegins(cfg, s0, c, rounds);

      for attempt := 0 to MAX_ATTEMPTS
        invariant Trying(s0, c, rounds, attempt)
      {
        var answer := TryAgain(s0, c, rounds, attempt);
        if answer.Some? {
          return answer.value, attempt + 1;
        }
      }
      GivingUpEnds(cfg, rounds);
      return FailOpen(cfg), MAX_ATTEMPTS;
    }
  }
}
