/**
 The single-use exchange codes of src/auth/auth.service.ts, under every interleaving of mints, exchanges,
 prunes and changes to the users table. `DELETE ... RETURNING` is one step; the expiry check and the user
 lookup that follow it are steps of their own. A step that is not possible in a state changes nothing.
 */
module ExchangeCodes {
  import opened Options
  import opened Hashing
  import opened Users

  const OAUTH_EXCHANGE_CODE_TTL_MS: nat := 60_000

  type ExchangeId = nat

  datatype Row = Row(userId: UserId, expiresAt: nat)

  datatype Phase =
    | Presented(code: string, entry: Option<Row>)
    | Checked(code: string, userId: UserId)
    | Issued(claims: JwtPayload)
    | Rejected

  /** History: when a code was stored, presented, accepted and turned into a token. */
  datatype Event =
    | StoredEvent(code: string, userId: UserId, mintedAt: nat)
    | PresentedEvent(exchange: ExchangeId, code: string, found: bool, at: nat)
    | AcceptedEvent(exchange: ExchangeId, code: string, userId: UserId, at: nat)
    | IssuedEvent(exchange: ExchangeId, code: string, userId: UserId, claims: JwtPayload)
    | UserDeletedEvent(userId: UserId)

  /** `drawn` holds the codes the generator produced; it never repeats one. */
  datatype State = State(clock: nat, rows: map<string, Row>, users: Table, drawn: set<string>,
                         exchanges: map<ExchangeId, Phase>, log: seq<Event>)

  datatype Step =
    | Tick(ms: nat)
    | Mint(code: string, userId: UserId, mintedAt: nat)
    | Prune(before: nat)
    | Present(exchange: ExchangeId, code: string)
    | Check(exchange: ExchangeId)
    | Issue(exchange: ExchangeId)
    | PutUser(user: User)
    | DeleteUser(userId: UserId)

  function Initial(clock: nat, users: Table): State {
    State(clock, map[], users, {}, map[], [])
  }

  /** The transition relation. `hash` is SHA-256 of a code. */
  function Do(hash: string -> string, s: State, step: Step): State {
    match step
    case Tick(ms) => s.(clock := s.clock + ms)
    case Mint(code, userId, mintedAt) =>
      // `mintedAt` was sampled before the insert; the row needs an existing user.
      if code in s.drawn || userId !in s.users || mintedAt > s.clock then s
      else s.(rows := s.rows[hash(code) := Row(userId, mintedAt + OAUTH_EXCHANGE_CODE_TTL_MS)],
              drawn := s.drawn + {code}, log := s.log + [StoredEvent(code, userId, mintedAt)])
    case Prune(before) =>
      if before > s.clock then s else s.(rows := map h | h in s.rows && s.rows[h].expiresAt >= before :: s.rows[h])
    case Present(x, code) =>
      if x in s.exchanges then s
      else
        var h := hash(code);
        var entry := if h in s.rows then Some(s.rows[h]) else None;
        s.(rows := s.rows - {h}, exchanges := s.exchanges[x := Presented(code, entry)],
           log := s.log + [PresentedEvent(x, code, entry.Some?, s.clock)])
    case Check(x) =>
      if !(x in s.exchanges && s.exchanges[x].Presented?) then s
      else
        var Presented(code, entry) := s.exchanges[x];
        if entry.None? || entry.value.expiresAt < s.clock then s.(exchanges := s.exchanges[x := Rejected])
        else s.(exchanges := s.exchanges[x := Checked(code, entry.value.userId)],
                log := s.log + [AcceptedEvent(x, code, entry.value.userId, s.clock)])
    case Issue(x) =>
      if !(x in s.exchanges && s.exchanges[x].Checked?) then s
      else
        var Checked(code, userId) := s.exchanges[x];
        if userId !in s.users then s.(exchanges := s.exchanges[x := Rejected])
        else
          var claims := ToJwtPayload(s.users[userId]);
          s.(exchanges := s.exchanges[x := Issued(claims)], log := s.log + [IssuedEvent(x, code, userId, claims)])
    case PutUser(u) => s.(users := s.users[u.id := u])
    case DeleteUser(id) =>
      // ON DELETE CASCADE takes the pending codes along.
      s.(users := s.users - {id}, rows := map h | h in s.rows && s.rows[h].userId != id :: s.rows[h],
         log := s.log + [UserDeletedEvent(id)])
  }

  function Run(hash: string -> string, s: State, steps: seq<Step>): State {
    if steps == [] then s else Do(hash, Run(hash, s, steps[..|steps| - 1]), steps[|steps| - 1])
  }

  lemma RunOneMore(hash: string -> string, s: State, steps: seq<Step>, step: Step)
    ensures Run(hash, s, steps + [step]) == Do(hash, Run(hash, s, steps), step)
  {
    assert (steps + [step])[..|steps|] == steps;
  }

  lemma {:induction false} RunAppend(hash: string -> string, s: State, a: seq<Step>, b: seq<Step>)
    ensures Run(hash, s, a + b) == Run(hash, Run(hash, s, a), b)
  {
    if b == [] {
      assert a + b == a;
    } else {
      RunAppend(hash, s, a, b[..|b| - 1]);
      assert a + b == (a + b[..|b| - 1]) + [b[|b| - 1]];
      RunOneMore(hash, s, a + b[..|b| - 1], b[|b| - 1]);
    }
  }

  // ---------- Histories ----------

  predicate IsStored(e: Event, code: string) {
    e.StoredEvent? && e.code == code
  }

  predicate IsPresented(e: Event, code: string) {
    e.PresentedEvent? && e.code == code
  }

  /** The event ends the life of a pending code: it is presented, or its user is deleted. */
  predicate Ends(e: Event, code: string, userId: UserId) {
    IsPresented(e, code) || e == UserDeletedEvent(userId)
  }

  /** The row stored by event `i` for `code`, with the code not presented and the user not deleted in `(i, j)`. */
  ghost predicate Untouched(log: seq<Event>, code: string, row: Row, i: int, j: int) {
    && 0 <= i < j <= |log|
    && IsStored(log[i], code) && row == Row(log[i].userId, log[i].mintedAt + OAUTH_EXCHANGE_CODE_TTL_MS)
    && forall k :: i < k < j ==> !Ends(log[k], code, row.userId)
  }

  /** A stored row belongs to a code that was stored and never presented since. */
  ghost predicate RowOk(hash: string -> string, s: State, h: string)
    requires h in s.rows
  {
    exists code, i :: hash(code) == h && Untouched(s.log, code, s.rows[h], i, |s.log|)
  }

  /** Exchange `x` presented `code` as event `j` and got the row stored by event `i`, as its first presenter. */
  ghost predicate Took(log: seq<Event>, x: ExchangeId, code: string, row: Row, i: int, j: int) {
    && 0 <= j < |log| && log[j].PresentedEvent? && log[j].exchange == x && log[j].code == code && log[j].found
    && Untouched(log, code, row, i, j)
  }

  /** The token path of exchange `x` up to its accepted expiry check, event `a`. */
  ghost predicate Accepted(log: seq<Event>, x: ExchangeId, code: string, userId: UserId, i: int, j: int, a: int) {
    && 0 <= a < |log| && log[a].AcceptedEvent? && log[a].exchange == x && log[a].code == code && log[a].userId == userId
    && j < a && exists row :: Took(log, x, code, row, i, j) && row.userId == userId && log[a].at <= row.expiresAt
  }

  ghost predicate ExchangeOk(s: State, x: ExchangeId)
    requires x in s.exchanges
  {
    match s.exchanges[x]
    case Presented(code, entry) => entry.Some? ==> exists i, j :: Took(s.log, x, code, entry.value, i, j)
    case Checked(code, userId) => exists i, j, a :: Accepted(s.log, x, code, userId, i, j, a)
    case Issued(claims) =>
      exists k :: 0 <= k < |s.log| && s.log[k].IssuedEvent? && s.log[k].exchange == x && s.log[k].claims == claims
    case Rejected => true
  }

  ghost predicate EventOk(s: State, k: int)
    requires 0 <= k < |s.log|
  {
    match s.log[k]
    case StoredEvent(code, _, _) => code in s.drawn && forall i :: 0 <= i < k ==> !IsStored(s.log[i], code)
    case PresentedEvent(x, code, found, _) =>
      x in s.exchanges && (found ==> exists i, row :: Took(s.log, x, code, row, i, k))
    case UserDeletedEvent(_) => true
    case AcceptedEvent(x, _, _, _) => x in s.exchanges && !s.exchanges[x].Presented?
    case IssuedEvent(x, code, userId, claims) =>
      && x in s.exchanges && s.exchanges[x] == Issued(claims)
      && (exists i, j, a :: a < k && Accepted(s.log, x, code, userId, i, j, a))
      && forall i :: 0 <= i < k ==> !(s.log[i].IssuedEvent? && s.log[i].exchange == x)
  }

  ghost predicate Inv(hash: string -> string, s: State) {
    && (forall h :: h in s.rows ==> RowOk(hash, s, h))
    && (forall x :: x in s.exchanges ==> ExchangeOk(s, x))
    && (forall k :: 0 <= k < |s.log| ==> EventOk(s, k))
  }

  // ---------- What every interleaving keeps ----------

  ghost predicate Grows(s: State, t: State) {
    && |s.log| <= |t.log| && t.log[..|s.log|] == s.log
    && s.drawn <= t.drawn
    && forall x :: x in s.exchanges ==>
      && x in t.exchanges
      && (!s.exchanges[x].Presented? ==> !t.exchanges[x].Presented?)
      && (s.exchanges[x].Issued? ==> t.exchanges[x] == s.exchanges[x])
  }

  lemma TookGrows(s: State, t: State, x: ExchangeId, code: string, row: Row, i: int, j: int)
    requires Grows(s, t) && Took(s.log, x, code, row, i, j)
    ensures Took(t.log, x, code, row, i, j)
  {
    forall k | 0 <= k < |s.log| ensures t.log[k] == s.log[k] {
      assert t.log[..|s.log|][k] == t.log[k];
    }
  }

  lemma AcceptedGrows(s: State, t: State, x: ExchangeId, code: string, userId: UserId, i: int, j: int, a: int)
    requires Grows(s, t) && Accepted(s.log, x, code, userId, i, j, a)
    ensures Accepted(t.log, x, code, userId, i, j, a)
  {
    var row :| Took(s.log, x, code, row, i, j) && row.userId == userId && s.log[a].at <= row.expiresAt;
    TookGrows(s, t, x, code, row, i, j);
    assert t.log[..|s.log|][a] == t.log[a];
  }

  lemma ExchangeGrows(s: State, t: State, x: ExchangeId)
    requires Grows(s, t) && x in s.exchanges && t.exchanges[x] == s.exchanges[x] && ExchangeOk(s, x)
    ensures ExchangeOk(t, x)
  {
    match s.exchanges[x]
    case Presented(code, entry) =>
      if entry.Some? {
        var i, j :| Took(s.log, x, code, entry.value, i, j);
        TookGrows(s, t, x, code, entry.value, i, j);
      }
    case Checked(code, userId) =>
      var i, j, a :| Accepted(s.log, x, code, userId, i, j, a);
      AcceptedGrows(s, t, x, code, userId, i, j, a);
    case Issued(claims) =>
      var k :| 0 <= k < |s.log| && s.log[k].IssuedEvent? && s.log[k].exchange == x && s.log[k].claims == claims;
      assert t.log[..|s.log|][k] == t.log[k];
    case _ =>
  }

  lemma EventGrows(s: State, t: State, k: int)
    requires Grows(s, t) && 0 <= k < |s.log| && EventOk(s, k)
    ensures EventOk(t, k)
  {
    forall m | 0 <= m < |s.log| ensures t.log[m] == s.log[m] {
      assert t.log[..|s.log|][m] == t.log[m];
    }
    match s.log[k]
    case PresentedEvent(x, code, found, _) =>
      if found {
        var i, row :| Took(s.log, x, code, row, i, k);
        TookGrows(s, t, x, code, row, i, k);
      }
    case IssuedEvent(x, code, userId, _) =>
      var i, j, a :| a < k && Accepted(s.log, x, code, userId, i, j, a);
      AcceptedGrows(s, t, x, code, userId, i, j, a);
    case _ =>
  }

  /** A row survives events that present no code with its hash and do not delete its user. */
  lemma RowGrows(hash: string -> string, s: State, t: State, h: string)
    requires Grows(s, t) && h in s.rows && h in t.rows && t.rows[h] == s.rows[h] && RowOk(hash, s, h)
    requires forall k :: |s.log| <= k < |t.log| ==>
               (t.log[k].PresentedEvent? ==> hash(t.log[k].code) != h) && t.log[k] != UserDeletedEvent(s.rows[h].userId)
    ensures RowOk(hash, t, h)
  {
    var code, i :| hash(code) == h && Untouched(s.log, code, s.rows[h], i, |s.log|);
    forall m | 0 <= m < |s.log| ensures t.log[m] == s.log[m] {
      assert t.log[..|s.log|][m] == t.log[m];
    }
    assert Untouched(t.log, code, t.rows[h], i, |t.log|);
  }

  lemma StepGrows(hash: string -> string, s: State, step: Step)
    ensures Grows(s, Do(hash, s, step))
  {
  }

  lemma StepKeepsRows(hash: string -> string, s: State, step: Step)
    requires Injective(hash) && Inv(hash, s)
    ensures var t := Do(hash, s, step); forall h :: h in t.rows ==> RowOk(hash, t, h)
  {
    var t := Do(hash, s, step);
    StepGrows(hash, s, step);
    forall h | h in t.rows ensures RowOk(hash, t, h) {
      if h in s.rows && t.rows[h] == s.rows[h] && !(step.Mint? && t.log != s.log && h == hash(step.code)) {
        RowGrows(hash, s, t, h);
      } else {
        assert Untouched(t.log, step.code, t.rows[h], |s.log|, |t.log|);
      }
    }
  }

  lemma StepKeepsExchanges(hash: string -> string, s: State, step: Step)
    requires Injective(hash) && Inv(hash, s)
    ensures var t := Do(hash, s, step); forall x :: x in t.exchanges ==> ExchangeOk(t, x)
  {
    var t := Do(hash, s, step);
    StepGrows(hash, s, step);
    forall x | x in t.exchanges ensures ExchangeOk(t, x) {
      if x in s.exchanges && t.exchanges[x] == s.exchanges[x] {
        ExchangeGrows(s, t, x);
      } else if step.Present? {
        PresentTakes(hash, s, step);
      } else if step.Check? && t.exchanges[x].Checked? {
        CheckAccepts(hash, s, step);
      } else if step.Issue? && t.exchanges[x].Issued? {
        assert t.log[|s.log|].IssuedEvent? && t.log[|s.log|].exchange == x;
      }
    }
  }

  /** An exchange that gets a row is the first to present its code. */
  lemma PresentTakes(hash: string -> string, s: State, step: Step)
    requires Injective(hash) && Inv(hash, s) && step.Present? && step.exchange !in s.exchanges
    ensures var t := Do(hash, s, step);
            hash(step.code) in s.rows ==>
              exists i :: Took(t.log, step.exchange, step.code, s.rows[hash(step.code)], i, |s.log|)
  {
    var t, h := Do(hash, s, step), hash(step.code);
    if h in s.rows {
      assert RowOk(hash, s, h);
      var code, i :| hash(code) == h && Untouched(s.log, code, s.rows[h], i, |s.log|);
      assert code == step.code;
      assert Took(t.log, step.exchange, step.code, s.rows[h], i, |s.log|);
    }
  }

  lemma CheckAccepts(hash: string -> string, s: State, step: Step)
    requires Inv(hash, s) && step.Check?
    ensures var t, x := Do(hash, s, step), step.exchange;
            x in t.exchanges && t.exchanges[x].Checked?
            && t.exchanges[x] != (if x in s.exchanges then s.exchanges[x] else Rejected) ==>
              exists i, j :: Accepted(t.log, x, t.exchanges[x].code, t.exchanges[x].userId, i, j, |s.log|)
  {
    var t, x := Do(hash, s, step), step.exchange;
    StepGrows(hash, s, step);
    if x in t.exchanges && t.exchanges[x].Checked?
       && t.exchanges[x] != (if x in s.exchanges then s.exchanges[x] else Rejected)
    {
      assert ExchangeOk(s, x);
      var Presented(code, entry) := s.exchanges[x];
      var i, j :| Took(s.log, x, code, entry.value, i, j);
      TookGrows(s, t, x, code, entry.value, i, j);
      assert Accepted(t.log, x, code, entry.value.userId, i, j, |s.log|);
    }
  }

  lemma StepKeepsEvents(hash: string -> string, s: State, step: Step)
    requires Injective(hash) && Inv(hash, s)
    ensures var t := Do(hash, s, step); forall k :: 0 <= k < |t.log| ==> EventOk(t, k)
  {
    var t := Do(hash, s, step);
    StepGrows(hash, s, step);
    forall k | 0 <= k < |t.log| ensures EventOk(t, k) {
      if k < |s.log| {
        EventGrows(s, t, k);
      } else {
        NewEventOk(hash, s, step);
      }
    }
  }

  lemma NewEventOk(hash: string -> string, s: State, step: Step)
    requires Injective(hash) && Inv(hash, s) && |Do(hash, s, step).log| > |s.log|
    ensures EventOk(Do(hash, s, step), |s.log|)
  {
    var t := Do(hash, s, step);
    StepGrows(hash, s, step);
    if step.Mint? {
      forall i | 0 <= i < |s.log| ensures !IsStored(t.log[i], step.code) {
        assert EventOk(s, i);
      }
    } else if step.Present? {
      PresentTakes(hash, s, step);
    } else if step.Issue? {
      var x := step.exchange;
      assert ExchangeOk(s, x);
      var Checked(code, userId) := s.exchanges[x];
      var i, j, a :| Accepted(s.log, x, code, userId, i, j, a);
      AcceptedGrows(s, t, x, code, userId, i, j, a);
      forall i | 0 <= i < |s.log| ensures !(t.log[i].IssuedEvent? && t.log[i].exchange == x) {
        assert EventOk(s, i);
      }
    }
  }

  lemma {:induction false} RunKeepsInv(hash: string -> string, clock: nat, users: Table, steps: seq<Step>)
    requires Injective(hash)
    ensures Inv(hash, Run(hash, Initial(clock, users), steps))
  {
    if steps != [] {
      var s, step := Run(hash, Initial(clock, users), steps[..|steps| - 1]), steps[|steps| - 1];
      RunKeepsInv(hash, clock, users, steps[..|steps| - 1]);
      StepKeepsRows(hash, s, step);
      StepKeepsExchanges(hash, s, step);
      StepKeepsEvents(hash, s, step);
    }
  }

  /**
   The history of every token: its code was stored once, the exchange that got the token was the first to
   present the code after that, and the expiry check it passed came at most 60 seconds after minting.
   */
  lemma TokenHistory(hash: string -> string, clock: nat, users: Table, steps: seq<Step>, k: nat)
    requires Injective(hash)
    requires var log := Run(hash, Initial(clock, users), steps).log; k < |log| && log[k].IssuedEvent?
    ensures var log := Run(hash, Initial(clock, users), steps).log;
            exists i, j, a :: 0 <= i < j < a < k
              && IsStored(log[i], log[k].code) && log[i].userId == log[k].userId
              && log[j].PresentedEvent? && log[j].code == log[k].code && log[j].exchange == log[k].exchange
              && (forall m :: i < m < j ==> !Ends(log[m], log[k].code, log[k].userId))
              && log[a].AcceptedEvent? && log[a].exchange == log[k].exchange && log[a].at <= log[i].mintedAt + 60_000
  {
    var s := Run(hash, Initial(clock, users), steps);
    RunKeepsInv(hash, clock, users, steps);
    assert EventOk(s, k);
    var IssuedEvent(x, code, userId, _) := s.log[k];
    var i, j, a :| a < k && Accepted(s.log, x, code, userId, i, j, a);
    var row :| Took(s.log, x, code, row, i, j) && row.userId == userId && s.log[a].at <= row.expiresAt;
    assert IsStored(s.log[i], code);
  }

  /** A code yields at most one token, whoever presents it and how often. */
  lemma OneTokenPerCode(hash: string -> string, clock: nat, users: Table, steps: seq<Step>, k: nat, l: nat)
    requires Injective(hash)
    requires var log := Run(hash, Initial(clock, users), steps).log;
             k < l < |log| && log[k].IssuedEvent? && log[l].IssuedEvent?
    ensures var log := Run(hash, Initial(clock, users), steps).log; log[k].code != log[l].code
  {
    var s := Run(hash, Initial(clock, users), steps);
    RunKeepsInv(hash, clock, users, steps);
    var code := s.log[k].code;
    if s.log[l].code == code {
      assert EventOk(s, k) && EventOk(s, l);
      var i, j, a :| a < k && Accepted(s.log, s.log[k].exchange, code, s.log[k].userId, i, j, a);
      var i', j', a' :| a' < l && Accepted(s.log, s.log[l].exchange, code, s.log[l].userId, i', j', a');
      SameStore(hash, s, code, i, i');
      FirstPresentersAgree(s, code, i, j, j');
    }
  }

  lemma SameStore(hash: string -> string, s: State, code: string, i: int, i': int)
    requires Inv(hash, s) && 0 <= i < |s.log| && 0 <= i' < |s.log|
    requires IsStored(s.log[i], code) && IsStored(s.log[i'], code)
    ensures i == i'
  {
    assert EventOk(s, i) && EventOk(s, i');
  }

  lemma FirstPresentersAgree(s: State, code: string, i: int, j: int, j': int)
    requires 0 <= i < j < |s.log| && i < j' < |s.log| && IsPresented(s.log[j], code) && IsPresented(s.log[j'], code)
    requires IsStored(s.log[i], code)
    requires forall m :: i < m < j ==> !Ends(s.log[m], code, s.log[i].userId)
    requires forall m :: i < m < j' ==> !Ends(s.log[m], code, s.log[i].userId)
    ensures j == j'
  {
  }

  /** A step that logs a token issues it to a user who is there, with the claims of that row. */
  lemma IssuedByStep(hash: string -> string, s: State, step: Step, k: nat)
    requires |s.log| <= k < |Do(hash, s, step).log| && Do(hash, s, step).log[k].IssuedEvent?
    ensures var t := Do(hash, s, step);
            var e := t.log[k];
            && s.log == t.log[..k] && t.log == t.log[..k + 1] && step == Issue(e.exchange)
            && e.userId in s.users && ClaimsOf(e.claims, s.users[e.userId])
  {
  }

  /** The claims are those of the user row at the very step that issues the token, after the code was consumed. */
  lemma {:induction false} ClaimsAreCurrent(hash: string -> string, s: State, steps: seq<Step>, k: nat) returns (n: nat)
    requires s.log == [] && k < |Run(hash, s, steps).log| && Run(hash, s, steps).log[k].IssuedEvent?
    ensures n < |steps|
    ensures var e, now := Run(hash, s, steps).log[k], Run(hash, s, steps[..n]);
            && now.log == Run(hash, s, steps).log[..k] && steps[n] == Issue(e.exchange)
            && Run(hash, s, steps[..n + 1]).log == Run(hash, s, steps).log[..k + 1]
            && e.userId in now.users && ClaimsOf(e.claims, now.users[e.userId])
  {
    var front, last := steps[..|steps| - 1], steps[|steps| - 1];
    var before, after := Run(hash, s, front), Run(hash, s, steps);
    if k < |before.log| {
      StepGrows(hash, before, last);
      assert after.log[..|before.log|][k] == after.log[k];
      n := ClaimsAreCurrent(hash, s, front, k);
      assert front[..n] == steps[..n] && front[..n + 1] == steps[..n + 1];
      assert after.log[..k] == after.log[..|before.log|][..k];
      assert after.log[..k + 1] == after.log[..|before.log|][..k + 1];
    } else {
      n := |front|;
      assert steps[..n] == front && steps[..n + 1] == steps;
      IssuedByStep(hash, before, last, k);
    }
  }

  /**
   The token an exchange is answered with, in every interleaving, carries the five claims of the user's row at the
   step that issues it: the role Admin, for one, if and only if the row has it then.
   */
  lemma TokenIsCurrent(hash: string -> string, clock: nat, users: Table, steps: seq<Step>, x: ExchangeId)
    returns (k: nat, n: nat)
    requires Injective(hash)
    requires var s := Run(hash, Initial(clock, users), steps); x in s.exchanges && s.exchanges[x].Issued?
    ensures n < |steps| && steps[n] == Issue(x)
    ensures var s, now := Run(hash, Initial(clock, users), steps), Run(hash, Initial(clock, users), steps[..n]);
            && k < |s.log| && s.log[k].IssuedEvent? && s.log[k].exchange == x
            && var claims, id := s.exchanges[x].claims, s.log[k].userId;
               && id in now.users && ClaimsOf(claims, now.users[id])
               && (claims.role == Admin <==> now.users[id].role == Admin)
  {
    var s := Run(hash, Initial(clock, users), steps);
    RunKeepsInv(hash, clock, users, steps);
    assert ExchangeOk(s, x);
    k :| 0 <= k < |s.log| && s.log[k].IssuedEvent? && s.log[k].exchange == x
         && s.log[k].claims == s.exchanges[x].claims;
    n := ClaimsAreCurrent(hash, Initial(clock, users), steps, k);
  }

  // ---------- A code in time is good ----------

  /** Event `i` stored `code`, and nothing has ended its life since. */
  ghost predicate Pending(s: State, code: string, i: int) {
    && 0 <= i < |s.log| && IsStored(s.log[i], code)
    && forall k :: i < k < |s.log| ==> !Ends(s.log[k], code, s.log[i].userId)
  }

  /** The row and the user of a pending code are there, unless the code has expired. */
  ghost predicate PendingOk(hash: string -> string, s: State, code: string, i: int)
    requires 0 <= i < |s.log| && IsStored(s.log[i], code)
  {
    var expiresAt := s.log[i].mintedAt + OAUTH_EXCHANGE_CODE_TTL_MS;
    && s.log[i].userId in s.users
    && (expiresAt < s.clock || (hash(code) in s.rows && s.rows[hash(code)] == Row(s.log[i].userId, expiresAt)))
  }

  lemma StepKeepsPending(hash: string -> string, s: State, step: Step, code: string, i: int)
    requires Injective(hash) && Inv(hash, s) && Pending(Do(hash, s, step), code, i)
    requires Pending(s, code, i) ==> PendingOk(hash, s, code, i)
    ensures PendingOk(hash, Do(hash, s, step), code, i)
  {
    var t := Do(hash, s, step);
    if i < |s.log| {
      forall k | 0 <= k < |s.log| ensures t.log[k] == s.log[k] {}
      assert Pending(s, code, i);
      assert EventOk(s, i);
      assert step.Present? && |t.log| > |s.log| ==>
        t.log[|s.log|] == PresentedEvent(step.exchange, step.code, hash(step.code) in s.rows, s.clock);
      assert step.DeleteUser? ==> t.log[|s.log|] == UserDeletedEvent(step.userId);
    }
  }

  lemma {:induction false} RunKeepsPending(hash: string -> string, clock: nat, users: Table, steps: seq<Step>,
                                           code: string, i: int)
    requires Injective(hash) && Pending(Run(hash, Initial(clock, users), steps), code, i)
    ensures PendingOk(hash, Run(hash, Initial(clock, users), steps), code, i)
  {
    if steps != [] {
      var front := steps[..|steps| - 1];
      var s := Run(hash, Initial(clock, users), front);
      RunKeepsInv(hash, clock, users, front);
      if Pending(s, code, i) {
        RunKeepsPending(hash, clock, users, front, code, i);
      }
      StepKeepsPending(hash, s, steps[|steps| - 1], code, i);
    }
  }

  /** Event `i` is what made `code` pending, and -1 stands for a code that is not and has no row. */
  ghost predicate PendingSince(hash: string -> string, s: State, code: string, i: int) {
    && (i >= 0 ==> Pending(s, code, i) && PendingOk(hash, s, code, i))
    && (hash(code) in s.rows ==>
          i >= 0 && s.rows[hash(code)] == Row(s.log[i].userId, s.log[i].mintedAt + OAUTH_EXCHANGE_CODE_TTL_MS))
    && forall k :: Pending(s, code, k) ==> k == i
  }

  lemma SomePendingSince(hash: string -> string, clock: nat, users: Table, steps: seq<Step>, code: string)
    returns (i: int)
    requires Injective(hash)
    ensures PendingSince(hash, Run(hash, Initial(clock, users), steps), code, i)
  {
    var s, h := Run(hash, Initial(clock, users), steps), hash(code);
    RunKeepsInv(hash, clock, users, steps);
    i := -1;
    if k :| Pending(s, code, k) {
      i := k;
      RunKeepsPending(hash, clock, users, steps, code, i);
      forall l | Pending(s, code, l) ensures l == i {
        SameStore(hash, s, code, i, l);
      }
    }
    if h in s.rows {
      assert RowOk(hash, s, h);
      var c, k :| hash(c) == h && Untouched(s.log, c, s.rows[h], k, |s.log|);
      assert c == code;
      assert Pending(s, code, k);
    }
  }

  /** The steps of an exchange, with those other requests take while it awaits. */
  function ExchangeSteps(x: ExchangeId, code: string, beforeCheck: seq<Step>, beforeLookup: seq<Step>): seq<Step> {
    [Present(x, code)] + (beforeCheck + [Check(x)]) + (beforeLookup + [Issue(x)])
  }

  /** The state that meets the expiry check of an exchange begun in `s`, and the one that meets its user lookup. */
  function AtCheck(hash: string -> string, s: State, x: ExchangeId, code: string, beforeCheck: seq<Step>): State {
    Run(hash, Do(hash, s, Present(x, code)), beforeCheck)
  }

  function AtLookup(hash: string -> string, s: State, x: ExchangeId, code: string,
                    beforeCheck: seq<Step>, beforeLookup: seq<Step>): State
  {
    Run(hash, Do(hash, AtCheck(hash, s, x, code, beforeCheck), Check(x)), beforeLookup)
  }

  lemma ExchangeRun(hash: string -> string, s: State, x: ExchangeId, code: string,
                    beforeCheck: seq<Step>, beforeLookup: seq<Step>)
    ensures Run(hash, s, ExchangeSteps(x, code, beforeCheck, beforeLookup))
            == Do(hash, AtLookup(hash, s, x, code, beforeCheck, beforeLookup), Issue(x))
  {
    var present, check := [Present(x, code)], beforeCheck + [Check(x)];
    RunOneMore(hash, s, [], Present(x, code));
    assert [] + present == present;
    RunAppend(hash, s, present, check);
    RunOneMore(hash, Run(hash, s, present), beforeCheck, Check(x));
    RunAppend(hash, s, present + check, beforeLookup + [Issue(x)]);
    RunOneMore(hash, Run(hash, s, present + check), beforeLookup, Issue(x));
  }

  /** What the three steps of an exchange do, in terms of the states they meet. */
  lemma ExchangeOutcome(hash: string -> string, s: State, x: ExchangeId, code: string,
                        beforeCheck: seq<Step>, beforeLookup: seq<Step>)
    requires x !in s.exchanges && OthersOnly(beforeCheck, x) && OthersOnly(beforeLookup, x)
    ensures var atLookup := AtLookup(hash, s, x, code, beforeCheck, beforeLookup);
            var t := Do(hash, atLookup, Issue(x));
            && x in t.exchanges && (t.exchanges[x].Issued? || t.exchanges[x] == Rejected)
            && (t.exchanges[x].Issued? <==>
                && hash(code) in s.rows
                && AtCheck(hash, s, x, code, beforeCheck).clock <= s.rows[hash(code)].expiresAt
                && s.rows[hash(code)].userId in atLookup.users)
  {
    OthersLeaveExchange(hash, Do(hash, s, Present(x, code)), beforeCheck, x);
    OthersLeaveExchange(hash, Do(hash, AtCheck(hash, s, x, code, beforeCheck), Check(x)), beforeLookup, x);
  }

  lemma ExchangeOfPending(hash: string -> string, s: State, i: int, x: ExchangeId, code: string,
                          beforeCheck: seq<Step>, beforeLookup: seq<Step>)
    requires PendingSince(hash, s, code, i)
    requires x !in s.exchanges && OthersOnly(beforeCheck, x) && OthersOnly(beforeLookup, x)
    ensures var atLookup := AtLookup(hash, s, x, code, beforeCheck, beforeLookup);
            var t := Do(hash, atLookup, Issue(x));
            && x in t.exchanges && (t.exchanges[x].Issued? || t.exchanges[x] == Rejected)
            && (t.exchanges[x].Issued? <==> exists k ::
                  && Pending(s, code, k)
                  && AtCheck(hash, s, x, code, beforeCheck).clock <= s.log[k].mintedAt + 60_000
                  && s.log[k].userId in atLookup.users)
  {
    ExchangeOutcome(hash, s, x, code, beforeCheck, beforeLookup);
    ClockGrows(hash, Do(hash, s, Present(x, code)), beforeCheck);
    assert i >= 0 ==> Pending(s, code, i);
  }

  /**
   After any history, and whatever other requests do in between, an exchange yields a token if and only if the
   code was stored and has not been presented nor its user deleted since; at most 60 seconds have passed since
   minting at the expiry check; and the user is there at the lookup.
   */
  lemma ExchangeSucceedsExactlyWhen(hash: string -> string, clock: nat, users: Table, steps: seq<Step>,
                                    x: ExchangeId, code: string, beforeCheck: seq<Step>, beforeLookup: seq<Step>)
    requires Injective(hash) && x !in Run(hash, Initial(clock, users), steps).exchanges
    requires OthersOnly(beforeCheck, x) && OthersOnly(beforeLookup, x)
    ensures var s := Run(hash, Initial(clock, users), steps);
            var t := Run(hash, s, ExchangeSteps(x, code, beforeCheck, beforeLookup));
            && x in t.exchanges && (t.exchanges[x].Issued? || t.exchanges[x] == Rejected)
            && (t.exchanges[x].Issued? <==> exists i ::
                  && Pending(s, code, i)
                  && AtCheck(hash, s, x, code, beforeCheck).clock <= s.log[i].mintedAt + 60_000
                  && s.log[i].userId in AtLookup(hash, s, x, code, beforeCheck, beforeLookup).users)
  {
    var s := Run(hash, Initial(clock, users), steps);
    var i := SomePendingSince(hash, clock, users, steps, code);
    ExchangeOfPending(hash, s, i, x, code, beforeCheck, beforeLookup);
    ExchangeRun(hash, s, x, code, beforeCheck, beforeLookup);
  }

  /** With nothing in between, a pending code no more than 60 seconds old is all it takes. */
  lemma UndisturbedExchangeSucceedsExactlyWhen(hash: string -> string, clock: nat, users: Table, steps: seq<Step>,
                                               x: ExchangeId, code: string)
    requires Injective(hash) && x !in Run(hash, Initial(clock, users), steps).exchanges
    ensures var s := Run(hash, Initial(clock, users), steps);
            var t := Run(hash, s, ExchangeSteps(x, code, [], []));
            && x in t.exchanges && (t.exchanges[x].Issued? || t.exchanges[x] == Rejected)
            && (t.exchanges[x].Issued? <==> exists i :: Pending(s, code, i) && s.clock <= s.log[i].mintedAt + 60_000)
  {
    var s := Run(hash, Initial(clock, users), steps);
    var i := SomePendingSince(hash, clock, users, steps, code);
    ExchangeSucceedsExactlyWhen(hash, clock, users, steps, x, code, [], []);
  }

  // ---------- Pruning cannot be noticed ----------

  /** A prune leaves the rows that were in time at its clock, as they are, and no others. */
  lemma PruneTidiesUp(hash: string -> string, s: State, before: nat, h: string)
    requires before <= s.clock
    ensures var t := Do(hash, s, Prune(before));
            && (h in t.rows <==> h in s.rows && s.rows[h].expiresAt >= before)
            && (h in t.rows ==> t.rows[h] == s.rows[h])
            && t == s.(rows := t.rows)
  {
  }

  function WithoutPrunes(steps: seq<Step>): seq<Step> {
    if steps == [] then []
    else
      var last := steps[|steps| - 1];
      WithoutPrunes(steps[..|steps| - 1]) + (if last.Prune? then [] else [last])
  }

  ghost predicate SamePhase(clock: nat, p: Phase, q: Phase) {
    || p == q
    || (p.Presented? && q.Presented? && p.code == q.code
        && p.entry.None? && q.entry.Some? && q.entry.value.expiresAt < clock)
  }

  ghost predicate SameTables(s: State, t: State) {
    && s.clock == t.clock && s.users == t.users && s.drawn == t.drawn
    && (forall h :: h in s.rows ==> h in t.rows && t.rows[h] == s.rows[h])
    && (forall h :: h in t.rows && h !in s.rows ==> t.rows[h].expiresAt < t.clock)
  }

  ghost predicate SameExchange(s: State, t: State, x: ExchangeId) {
    && (x in s.exchanges <==> x in t.exchanges)
    && (x in s.exchanges ==> SamePhase(s.clock, s.exchanges[x], t.exchanges[x]))
  }

  /** `s` ran with prunes and `t` without: `t` has the same rows and perhaps some expired ones more. */
  ghost predicate Same(s: State, t: State) {
    SameTables(s, t) && forall x :: SameExchange(s, t, x)
  }

  lemma SameTablesAfter(hash: string -> string, s: State, t: State, step: Step)
    requires SameTables(s, t) && !step.Prune?
    requires !step.Tick? && !step.Mint? && !step.PutUser? && !step.DeleteUser? ==> SameExchange(s, t, step.exchange)
    ensures SameTables(Do(hash, s, step), Do(hash, t, step))
  {
  }

  lemma SameExchangeAfter(hash: string -> string, s: State, t: State, step: Step, x: ExchangeId)
    requires SameTables(s, t) && SameExchange(s, t, x) && !step.Prune?
    ensures SameExchange(Do(hash, s, step), Do(hash, t, step), x)
  {
  }

  lemma SameStep(hash: string -> string, s: State, t: State, step: Step)
    requires Same(s, t) && !step.Prune?
    ensures Same(Do(hash, s, step), Do(hash, t, step))
  {
    SameTablesAfter(hash, s, t, step);
    forall x ensures SameExchange(Do(hash, s, step), Do(hash, t, step), x) {
      SameExchangeAfter(hash, s, t, step, x);
    }
  }

  lemma PruneStaysSame(hash: string -> string, s: State, t: State, before: nat)
    requires Same(s, t)
    ensures Same(Do(hash, s, Prune(before)), t)
  {
    forall x ensures SameExchange(Do(hash, s, Prune(before)), t, x) {
      assert SameExchange(s, t, x);
    }
  }

  lemma {:induction false} SameRun(hash: string -> string, s: State, steps: seq<Step>)
    ensures Same(Run(hash, s, steps), Run(hash, s, WithoutPrunes(steps)))
  {
    if steps != [] {
      var front, step := steps[..|steps| - 1], steps[|steps| - 1];
      SameRun(hash, s, front);
      if step.Prune? {
        assert WithoutPrunes(steps) == WithoutPrunes(front);
        PruneStaysSame(hash, Run(hash, s, front), Run(hash, s, WithoutPrunes(front)), step.before);
      } else {
        RunOneMore(hash, s, WithoutPrunes(front), step);
        SameStep(hash, Run(hash, s, front), Run(hash, s, WithoutPrunes(front)), step);
      }
    }
  }

  /** Erasing every prune leaves every exchange with the same answer and the same claims. */
  lemma PruningIsInvisible(hash: string -> string, clock: nat, users: Table, steps: seq<Step>, x: ExchangeId)
    ensures var s := Run(hash, Initial(clock, users), steps);
            var t := Run(hash, Initial(clock, users), WithoutPrunes(steps));
            && (x in s.exchanges <==> x in t.exchanges)
            && (x in s.exchanges && (s.exchanges[x].Issued? || s.exchanges[x].Rejected?) ==>
                t.exchanges[x] == s.exchanges[x])
            && (x in t.exchanges && (t.exchanges[x].Issued? || t.exchanges[x].Rejected?) ==>
                t.exchanges[x] == s.exchanges[x])
  {
    SameRun(hash, Initial(clock, users), steps);
    assert SameExchange(Run(hash, Initial(clock, users), steps),
                        Run(hash, Initial(clock, users), WithoutPrunes(steps)), x);
  }

  // ---------- The service ----------

  class AuthService {
    const hash: string -> string
    var clock: nat
    var oauthExchangeCodes: map<string, Row>
    var users: Table
    var drawn: set<string>
    var exchanges: map<ExchangeId, Phase>
    var log: seq<Event>

    constructor (hash: string -> string, clock: nat, users: Table)
      ensures this.hash == hash && View() == Initial(clock, users)
    {
      this.hash, this.clock, this.users := hash, clock, users;
      oauthExchangeCodes, drawn, exchanges, log := map[], {}, map[], [];
    }

    function View(): State
      reads this
    {
      State(clock, oauthExchangeCodes, users, drawn, exchanges, log)
    }

    /** Other requests run while this one awaits. */
    method Await(steps: seq<Step>)
      modifies this
      ensures View() == Run(hash, old(View()), steps)
    {
      var i := 0;
      while i < |steps|
        invariant 0 <= i <= |steps|
        invariant View() == Run(hash, old(View()), steps[..i])
      {
        var s := Do(hash, View(), steps[i]);
        clock, oauthExchangeCodes, users, drawn := s.clock, s.rows, s.users, s.drawn;
        exchanges, log := s.exchanges, s.log;
        RunOneMore(hash, old(View()), steps[..i], steps[i]);
        assert steps[..i] + [steps[i]] == steps[..i + 1];
        i := i + 1;
      }
      assert steps[..|steps|] == steps;
    }

    /** The insert, which fails when the user is gone by then. */
    method InsertCode(code: string, userId: UserId, mintedAt: nat) returns (ok: bool)
      requires code !in drawn && mintedAt <= clock
      modifies this
      ensures View() == Do(hash, old(View()), Mint(code, userId, mintedAt))
      ensures ok <==> userId in old(users)
    {
      ok := userId in users;
      if ok {
        oauthExchangeCodes := oauthExchangeCodes[hash(code) := Row(userId, mintedAt + OAUTH_EXCHANGE_CODE_TTL_MS)];
        drawn, log := drawn + {code}, log + [StoredEvent(code, userId, mintedAt)];
      }
    }

    /** Mint and then tidy up; the minted code stands whatever happens to the tidying. */
    method CreateOAuthExchangeCode(code: string, userId: UserId, beforeInsert: seq<Step>, beforePrune: seq<Step>,
                                   pruneFails: bool)
      returns (ok: bool, ghost trace: seq<Step>)
      requires code !in Run(hash, View(), beforeInsert).drawn  // the generator never repeats a code
      modifies this
      ensures View() == Run(hash, old(View()), trace)
      ensures ok <==> userId in Run(hash, old(View()), beforeInsert).users
      ensures var mint := beforeInsert + [Mint(code, userId, old(clock))];
              trace == if !ok then mint
                       else mint + beforePrune
                            + (if pruneFails then [] else [Prune(Run(hash, old(View()), mint).clock)])
    {
      var s0 := View();
      var mintedAt := clock;
      ClockGrows(hash, s0, beforeInsert);
      Await(beforeInsert);
      ok := InsertCode(code, userId, mintedAt);
      RunOneMore(hash, s0, beforeInsert, Mint(code, userId, mintedAt));
      trace := beforeInsert + [Mint(code, userId, mintedAt)];
      if !ok {
        return;
      }
      var prunedBefore := clock;
      ClockGrows(hash, View(), beforePrune);
      Await(beforePrune);
      RunAppend(hash, s0, trace, beforePrune);
      trace := trace + beforePrune;
      if !pruneFails {
        var rows := oauthExchangeCodes;
        oauthExchangeCodes := map h | h in rows && rows[h].expiresAt >= prunedBefore :: rows[h];
        RunOneMore(hash, s0, trace, Prune(prunedBefore));
        trace := trace + [Prune(prunedBefore)];
      }
    }

    /** `DELETE ... RETURNING`. */
    method TakeEntry(x: ExchangeId, code: string) returns (entry: Option<Row>)
      requires x !in exchanges
      modifies this
      ensures View() == Do(hash, old(View()), Present(x, code))
      ensures exchanges == old(exchanges)[x := Presented(code, entry)]
    {
      var h := hash(code);
      entry := if h in oauthExchangeCodes then Some(oauthExchangeCodes[h]) else None;
      oauthExchangeCodes := oauthExchangeCodes - {h};
      exchanges, log := exchanges[x := Presented(code, entry)], log + [PresentedEvent(x, code, entry.Some?, clock)];
    }

    method CheckExpiry(x: ExchangeId, code: string, entry: Option<Row>, others: seq<Step>)
      returns (userId: Option<UserId>)
      requires x in exchanges && exchanges[x] == Presented(code, entry) && OthersOnly(others, x)
      modifies this
      ensures View() == Run(hash, old(View()), others + [Check(x)])
      ensures x in exchanges && exchanges[x] == if userId.Some? then Checked(code, userId.value) else Rejected
    {
      OthersLeaveExchange(hash, View(), others, x);
      Await(others);
      RunOneMore(hash, old(View()), others, Check(x));
      if entry.None? || entry.value.expiresAt < clock {
        userId := None;
        exchanges := exchanges[x := Rejected];
      } else {
        userId := Some(entry.value.userId);
        exchanges := exchanges[x := Checked(code, userId.value)];
        log := log + [AcceptedEvent(x, code, userId.value, clock)];
      }
    }

    method IssueToken(x: ExchangeId, code: string, userId: UserId, others: seq<Step>)
      returns (claims: Option<JwtPayload>)
      requires x in exchanges && exchanges[x] == Checked(code, userId) && OthersOnly(others, x)
      modifies this
      ensures View() == Run(hash, old(View()), others + [Issue(x)])
      ensures x in exchanges && exchanges[x] == if claims.Some? then Issued(claims.value) else Rejected
    {
      OthersLeaveExchange(hash, View(), others, x);
      Await(others);
      RunOneMore(hash, old(View()), others, Issue(x));
      if userId !in users {
        claims := None;
        exchanges := exchanges[x := Rejected];
      } else {
        claims := Some(ToJwtPayload(users[userId]));
        exchanges, log := exchanges[x := Issued(claims.value)], log + [IssuedEvent(x, code, userId, claims.value)];
      }
    }

    /** Delete and read in one statement, then check the expiry, then read the user; `None` is the 401. */
    method ExchangeOAuthCode(x: ExchangeId, code: string, beforeCheck: seq<Step>, beforeLookup: seq<Step>)
      returns (claims: Option<JwtPayload>, ghost trace: seq<Step>)
      requires x !in exchanges && OthersOnly(beforeCheck, x) && OthersOnly(beforeLookup, x)
      modifies this
      ensures View() == Run(hash, old(View()), trace)
      ensures trace == ExchangeSteps(x, code, beforeCheck, beforeLookup)
              || (claims.None? && trace == [Present(x, code)] + (beforeCheck + [Check(x)]))
      ensures x in exchanges && exchanges[x] == if claims.Some? then Issued(claims.value) else Rejected
    {
      var s0 := View();
      RunOneMore(hash, s0, [], Present(x, code));
      assert [] + [Present(x, code)] == [Present(x, code)];
      var entry := TakeEntry(x, code);
      var userId := CheckExpiry(x, code, entry, beforeCheck);
      RunAppend(hash, s0, [Present(x, code)], beforeCheck + [Check(x)]);
      trace := [Present(x, code)] + (beforeCheck + [Check(x)]);
      if userId.None? {
        return None, trace;
      }
      claims := IssueToken(x, code, userId.value, beforeLookup);
      RunAppend(hash, s0, trace, beforeLookup + [Issue(x)]);
      trace := trace + (beforeLookup + [Issue(x)]);
    }
  }

  predicate ActsFor(step: Step, x: ExchangeId) {
    (step.Present? || step.Check? || step.Issue?) && step.exchange == x
  }

  ghost predicate OthersOnly(steps: seq<Step>, x: ExchangeId) {
    forall i :: 0 <= i < |steps| ==> !ActsFor(steps[i], x)
  }

  lemma {:induction false} OthersLeaveExchange(hash: string -> string, s: State, steps: seq<Step>, x: ExchangeId)
    requires x in s.exchanges && OthersOnly(steps, x)
    ensures x in Run(hash, s, steps).exchanges && Run(hash, s, steps).exchanges[x] == s.exchanges[x]
  {
    if steps != [] {
      OthersLeaveExchange(hash, s, steps[..|steps| - 1], x);
    }
  }

  lemma {:induction false} ClockGrows(hash: string -> string, s: State, steps: seq<Step>)
    ensures s.clock <= Run(hash, s, steps).clock
  {
    if steps != [] {
      ClockGrows(hash, s, steps[..|steps| - 1]);
    }
  }
}
