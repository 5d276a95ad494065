/**
 The emailed sign-in codes of src/auth/otp.service.ts. Each call is taken as one step, `wait` milliseconds after
 the previous one. Next to the table a log of what happened is kept; the guarantees are read off the log alone.
 */
module Otp {
  import opened Options
  import opened Hashing
  import opened Strings
  import opened Users

  const OTP_RESEND_COOLDOWN_MS: nat := 60_000
  const OTP_MAX_ATTEMPTS: nat := 5
  const OTP_TTL_MS: nat := 10 * 60_000

  /** `email` is unique in the table, so rows are kept by email. */
  datatype Row = Row(codeHash: string, expiresAt: nat, attempts: nat, createdAt: nat)

  datatype Outcome = NoCode | Expired | TooManyAttempts | Wrong | Right

  datatype Event =
    | Issued(email: string, code: string, at: nat, sent: bool)
    | CooledDown(email: string, at: nat)
    | Verified(email: string, guess: string, at: nat, outcome: Outcome)

  datatype Call =
    | Request(email: string, code: string, wait: nat, sent: bool)
    | Verify(email: string, guess: string, wait: nat)

  datatype State = State(clock: nat, otps: map<string, Row>, log: seq<Event>)

  function HashOtpCode(hash: string -> string, email: string, code: string): string {
    hash(email + ":" + code)
  }

  lemma SameHashSameCode(hash: string -> string, email: string, a: string, b: string)
    requires Injective(hash)
    ensures HashOtpCode(hash, email, a) == HashOtpCode(hash, email, b) <==> a == b
  {
    assert (email + ":" + a)[|email| + 1..] == a && (email + ":" + b)[|email| + 1..] == b;
  }

  /** A stored hash is good for one code at one address: codes, being digits, hold no colon. */
  lemma HashIsOfOneCode(hash: string -> string, email: string, code: string, other: string, guess: string)
    requires Injective(hash) && ':' !in code && ':' !in guess
    ensures HashOtpCode(hash, email, code) == HashOtpCode(hash, other, guess) <==> email == other && code == guess
  {
    assert email + ":" + code == email + ([':'] + code) && other + ":" + guess == other + ([':'] + guess);
    if HashOtpCode(hash, email, code) == HashOtpCode(hash, other, guess) {
      LastBreakIsUnique(email, code, other, guess, ':');
    }
  }

  // ---------- One call ----------

  /** A code is pending that is both recent and alive. */
  predicate InCooldown(s: State, email: string, now: nat) {
    email in s.otps && s.otps[email].createdAt + OTP_RESEND_COOLDOWN_MS > now && s.otps[email].expiresAt > now
  }

  function VerifyOutcome(hash: string -> string, s: State, email: string, guess: string, now: nat): Outcome {
    if email !in s.otps then NoCode
    else
      var entry := s.otps[email];
      if entry.expiresAt < now then Expired
      else if entry.attempts >= OTP_MAX_ATTEMPTS then TooManyAttempts
      else if entry.codeHash != HashOtpCode(hash, email, guess) then Wrong
      else Right
  }

  function Do(hash: string -> string, s: State, call: Call): State {
    var now := s.clock + call.wait;
    match call
    case Request(email, code, _, sent) =>
      if InCooldown(s, email, now) then State(now, s.otps, s.log + [CooledDown(email, now)])
      else
        var row := Row(HashOtpCode(hash, email, code), now + OTP_TTL_MS, 0, now);
        State(now, if sent then s.otps[email := row] else s.otps - {email}, s.log + [Issued(email, code, now, sent)])
    case Verify(email, guess, _) =>
      var outcome := VerifyOutcome(hash, s, email, guess, now);
      var otps := match outcome
        case NoCode => s.otps
        case Wrong => s.otps[email := s.otps[email].(attempts := s.otps[email].attempts + 1)]
        case _ => s.otps - {email};
      State(now, otps, s.log + [Verified(email, guess, now, outcome)])
  }

  function Run(hash: string -> string, s: State, calls: seq<Call>): State {
    if calls == [] then s else Do(hash, Run(hash, s, calls[..|calls| - 1]), calls[|calls| - 1])
  }

  function Initial(clock: nat): State {
    State(clock, map[], [])
  }

  // ---------- Reading the log ----------

  predicate IssuedTo(e: Event, email: string) {
    e.Issued? && e.email == email
  }

  predicate VerifiedBy(e: Event, email: string, outcome: Outcome) {
    e.Verified? && e.email == email && e.outcome == outcome
  }

  /** The last code issued to an address, if any. */
  function Latest(log: seq<Event>, email: string): (i: int)
    ensures -1 <= i < |log|
    ensures i >= 0 ==> IssuedTo(log[i], email)
    ensures forall k :: i < k < |log| ==> !IssuedTo(log[k], email)
  {
    if log == [] then -1
    else if IssuedTo(log[|log| - 1], email) then |log| - 1
    else
      assert forall k :: 0 <= k < |log| - 1 ==> log[..|log| - 1][k] == log[k];
      Latest(log[..|log| - 1], email)
  }

  /** How many events after `i` verify a code of `email` with the given outcome. */
  function Count(log: seq<Event>, i: int, email: string, outcome: Outcome): nat
    requires -1 <= i
  {
    if |log| <= i + 1 then 0
    else Count(log[..|log| - 1], i, email, outcome) + (if VerifiedBy(log[|log| - 1], email, outcome) then 1 else 0)
  }

  lemma CountOneMore(log: seq<Event>, e: Event, i: int, email: string, outcome: Outcome)
    requires -1 <= i < |log|
    ensures Count(log + [e], i, email, outcome)
            == Count(log, i, email, outcome) + (if VerifiedBy(e, email, outcome) then 1 else 0)
  {
    assert (log + [e])[..|log|] == log;
  }

  lemma LatestOneMore(log: seq<Event>, e: Event, email: string)
    ensures Latest(log + [e], email) == if IssuedTo(e, email) then |log| else Latest(log, email)
  {
    assert (log + [e])[..|log|] == log;
  }

  /** The code is still worth a guess, going by the log alone. */
  predicate Alive(log: seq<Event>, email: string) {
    var i := Latest(log, email);
    i >= 0 && log[i].sent
    && Count(log, i, email, Right) == 0 && Count(log, i, email, TooManyAttempts) == 0
    && Count(log, i, email, Expired) == 0
  }

  // ---------- The table against the log ----------

  ghost predicate EmailOk(hash: string -> string, s: State, email: string) {
    var i := Latest(s.log, email);
    && (email in s.otps <==> Alive(s.log, email))
    && (i >= 0 ==>
      && s.log[i].at <= s.clock
      && Count(s.log, i, email, Wrong) <= OTP_MAX_ATTEMPTS
      && Count(s.log, i, email, Right) <= 1
      && Count(s.log, i, email, Wrong) + Count(s.log, i, email, Right) <= OTP_MAX_ATTEMPTS
      && (Count(s.log, i, email, TooManyAttempts) > 0 ==> Count(s.log, i, email, Wrong) == OTP_MAX_ATTEMPTS)
      && (Count(s.log, i, email, Expired) > 0 ==> s.log[i].at + OTP_TTL_MS < s.clock))
    && (email in s.otps ==>
      s.otps[email]
      == Row(HashOtpCode(hash, email, s.log[i].code), s.log[i].at + OTP_TTL_MS,
             Count(s.log, i, email, Wrong), s.log[i].at))
  }

  /** What one more event does to everything `EmailOk` reads. */
  lemma LogOneMore(log: seq<Event>, e: Event, email: string)
    ensures Latest(log + [e], email) == if IssuedTo(e, email) then |log| else Latest(log, email)
    ensures var i := Latest(log, email);
            i >= 0 ==> forall outcome ::
              Count(log + [e], i, email, outcome)
              == Count(log, i, email, outcome) + (if VerifiedBy(e, email, outcome) then 1 else 0)
  {
    LatestOneMore(log, e, email);
    var i := Latest(log, email);
    if i >= 0 {
      forall outcome
        ensures Count(log + [e], i, email, outcome)
                == Count(log, i, email, outcome) + (if VerifiedBy(e, email, outcome) then 1 else 0)
      {
        CountOneMore(log, e, i, email, outcome);
      }
    }
  }

  /** A code just issued has no history yet. */
  lemma FreshCodeOk(hash: string -> string, t: State, email: string)
    requires t.log != [] && IssuedTo(t.log[|t.log| - 1], email) && t.log[|t.log| - 1].at <= t.clock
    requires var e := t.log[|t.log| - 1];
             && (email in t.otps <==> e.sent)
             && (e.sent ==> t.otps[email] == Row(HashOtpCode(hash, email, e.code), e.at + OTP_TTL_MS, 0, e.at))
    ensures EmailOk(hash, t, email)
  {
    assert Latest(t.log, email) == |t.log| - 1;
  }

  lemma RequestKeepsEmail(hash: string -> string, s: State, call: Call)
    requires EmailOk(hash, s, call.email) && call.Request?
    ensures EmailOk(hash, Do(hash, s, call), call.email)
  {
    var now := s.clock + call.wait;
    if InCooldown(s, call.email, now) {
      LogOneMore(s.log, CooledDown(call.email, now), call.email);
    } else {
      FreshCodeOk(hash, Do(hash, s, call), call.email);
    }
  }

  lemma VerifyKeepsEmail(hash: string -> string, s: State, call: Call)
    requires EmailOk(hash, s, call.email) && call.Verify?
    ensures EmailOk(hash, Do(hash, s, call), call.email)
  {
    var now := s.clock + call.wait;
    var outcome := VerifyOutcome(hash, s, call.email, call.guess, now);
    LogOneMore(s.log, Verified(call.email, call.guess, now, outcome), call.email);
  }

  lemma OtherCallKeepsEmail(hash: string -> string, s: State, call: Call, email: string)
    requires EmailOk(hash, s, email) && call.email != email
    ensures EmailOk(hash, Do(hash, s, call), email)
  {
    var t := Do(hash, s, call);
    assert t.log == s.log + [t.log[|s.log|]];
    LogOneMore(s.log, t.log[|s.log|], email);
  }

  lemma CallKeepsEmail(hash: string -> string, s: State, call: Call, email: string)
    requires EmailOk(hash, s, email)
    ensures EmailOk(hash, Do(hash, s, call), email)
  {
    if call.email != email {
      OtherCallKeepsEmail(hash, s, call, email);
    } else if call.Request? {
      RequestKeepsEmail(hash, s, call);
    } else {
      VerifyKeepsEmail(hash, s, call);
    }
  }

  lemma {:induction false} RunKeepsEmail(hash: string -> string, clock: nat, calls: seq<Call>, email: string)
    ensures EmailOk(hash, Run(hash, Initial(clock), calls), email)
  {
    if calls != [] {
      RunKeepsEmail(hash, clock, calls[..|calls| - 1], email);
      CallKeepsEmail(hash, Run(hash, Initial(clock), calls[..|calls| - 1]), calls[|calls| - 1], email);
    }
  }

  // ---------- The log alone ----------

  /** How many guesses have been made at an address after event `i`, whatever they were answered. */
  function Tries(log: seq<Event>, i: int, email: string): nat
    requires -1 <= i
  {
    if |log| <= i + 1 then 0
    else
      var last := log[|log| - 1];
      Tries(log[..|log| - 1], i, email) + (if last.Verified? && last.email == email then 1 else 0)
  }

  /** How many of them were not code `i`. */
  function OtherTries(log: seq<Event>, i: nat, email: string): nat
    requires i < |log| && log[i].Issued?
  {
    if |log| == i + 1 then 0
    else
      var last := log[|log| - 1];
      OtherTries(log[..|log| - 1], i, email)
      + (if last.Verified? && last.email == email && last.guess != log[i].code then 1 else 0)
  }

  /** The last code was sent, and all guesses since, at most five, were in time and not it. */
  predicate Untaken(log: seq<Event>, email: string) {
    var i := Latest(log, email);
    && i >= 0 && log[i].sent && Tries(log, i, email) <= 5
    && forall k :: i < k < |log| && log[k].Verified? && log[k].email == email ==>
         log[k].guess != log[i].code && log[k].at <= log[i].at + 600_000
  }

  /** What a guess is answered, read off texts and times. */
  function Reading(log: seq<Event>, email: string, guess: string, now: nat): Outcome {
    var i := Latest(log, email);
    if !Untaken(log, email) then NoCode
    else if now > log[i].at + 600_000 then Expired
    else if Tries(log, i, email) == 5 then TooManyAttempts
    else if guess != log[i].code then Wrong
    else Right
  }

  /** What a call adds to the log, read off the log. */
  function Recorded(log: seq<Event>, call: Call, now: nat): Event {
    match call
    case Request(email, code, _, sent) =>
      if Untaken(log, email) && now < log[Latest(log, email)].at + 60_000 then CooledDown(email, now)
      else Issued(email, code, now, sent)
    case Verify(email, guess, _) => Verified(email, guess, now, Reading(log, email, guess, now))
  }

  ghost predicate TextOk(hash: string -> string, s: State, email: string) {
    var i := Latest(s.log, email);
    && (email in s.otps <==> Untaken(s.log, email))
    && (email in s.otps ==>
          s.otps[email]
          == Row(HashOtpCode(hash, email, s.log[i].code), s.log[i].at + 600_000, Tries(s.log, i, email), s.log[i].at))
    && (i >= 0 ==> s.log[i].at <= s.clock)
  }

  lemma TriesOneMore(log: seq<Event>, e: Event, email: string)
    ensures Latest(log + [e], email) == if IssuedTo(e, email) then |log| else Latest(log, email)
    ensures var i := Latest(log, email);
            i >= 0 ==>
              Tries(log + [e], i, email) == Tries(log, i, email) + (if e.Verified? && e.email == email then 1 else 0)
  {
    LatestOneMore(log, e, email);
    assert (log + [e])[..|log|] == log;
  }

  /** An event that is neither a code for the address nor a guess at it changes nothing. */
  lemma UntakenByOther(log: seq<Event>, e: Event, email: string)
    requires !IssuedTo(e, email) && !(e.Verified? && e.email == email)
    ensures Untaken(log + [e], email) <==> Untaken(log, email)
  {
    TriesOneMore(log, e, email);
    forall k | 0 <= k < |log| ensures (log + [e])[k] == log[k] {}
  }

  lemma UntakenByGuess(log: seq<Event>, e: Event, email: string)
    requires e.Verified? && e.email == email
    ensures Untaken(log + [e], email) <==>
              && Untaken(log, email) && Tries(log, Latest(log, email), email) < 5
              && e.guess != log[Latest(log, email)].code && e.at <= log[Latest(log, email)].at + 600_000
  {
    TriesOneMore(log, e, email);
    var i := Latest(log, email);
    forall k | 0 <= k < |log| ensures (log + [e])[k] == log[k] {}
    if Untaken(log + [e], email) {
      assert (log + [e])[|log|] == e;
    }
  }

  lemma UntakenByIssue(log: seq<Event>, e: Event, email: string)
    requires IssuedTo(e, email)
    ensures Untaken(log + [e], email) <==> e.sent
    ensures Tries(log + [e], |log|, email) == 0
  {
    LatestOneMore(log, e, email);
  }

  /** The call does to the log what the log calls for. */
  lemma CallIsRecorded(hash: string -> string, s: State, call: Call)
    requires Injective(hash) && TextOk(hash, s, call.email)
    ensures Do(hash, s, call).log == s.log + [Recorded(s.log, call, s.clock + call.wait)]
    ensures call.Verify? ==>
              VerifyOutcome(hash, s, call.email, call.guess, s.clock + call.wait)
              == Reading(s.log, call.email, call.guess, s.clock + call.wait)
  {
    var i := Latest(s.log, call.email);
    if call.Verify? && i >= 0 {
      SameHashSameCode(hash, call.email, s.log[i].code, call.guess);
    }
  }

  lemma OtherCallKeepsText(hash: string -> string, s: State, call: Call, email: string)
    requires TextOk(hash, s, email) && call.email != email
    ensures TextOk(hash, Do(hash, s, call), email)
  {
    var t := Do(hash, s, call);
    assert t.log == s.log + [t.log[|s.log|]];
    TriesOneMore(s.log, t.log[|s.log|], email);
    UntakenByOther(s.log, t.log[|s.log|], email);
    forall k | 0 <= k < |s.log| ensures t.log[k] == s.log[k] {}
  }

  lemma RequestKeepsText(hash: string -> string, s: State, call: Call)
    requires Injective(hash) && TextOk(hash, s, call.email) && call.Request?
    ensures TextOk(hash, Do(hash, s, call), call.email)
  {
    var e := Recorded(s.log, call, s.clock + call.wait);
    CallIsRecorded(hash, s, call);
    TriesOneMore(s.log, e, call.email);
    if IssuedTo(e, call.email) {
      UntakenByIssue(s.log, e, call.email);
    } else {
      UntakenByOther(s.log, e, call.email);
    }
  }

  lemma VerifyKeepsText(hash: string -> string, s: State, call: Call)
    requires Injective(hash) && TextOk(hash, s, call.email) && call.Verify?
    ensures TextOk(hash, Do(hash, s, call), call.email)
  {
    var e := Recorded(s.log, call, s.clock + call.wait);
    CallIsRecorded(hash, s, call);
    TriesOneMore(s.log, e, call.email);
    UntakenByGuess(s.log, e, call.email);
  }

  lemma {:induction false} RunKeepsText(hash: string -> string, clock: nat, calls: seq<Call>, email: string)
    requires Injective(hash)
    ensures TextOk(hash, Run(hash, Initial(clock), calls), email)
  {
    if calls != [] {
      var front, call := calls[..|calls| - 1], calls[|calls| - 1];
      RunKeepsText(hash, clock, front, email);
      if call.email != email {
        OtherCallKeepsText(hash, Run(hash, Initial(clock), front), call, email);
      } else if call.Request? {
        RequestKeepsText(hash, Run(hash, Initial(clock), front), call);
      } else {
        VerifyKeepsText(hash, Run(hash, Initial(clock), front), call);
      }
    }
  }

  /**
   The table is one way to keep this log: over all histories, every call adds to it exactly what can be read off the
   texts and times already in it. A request is turned away if the last code is untaken and less than a minute old. A
   guess is right if the code is untaken and in time, fewer than five guesses were made, and it is the code; wrong
   if all that holds but the last; one too many as the sixth; expired as the first one late; and no code otherwise.
   */
  lemma EveryCallIsReadOffTheLog(hash: string -> string, clock: nat, calls: seq<Call>, call: Call)
    requires Injective(hash)
    ensures var s := Run(hash, Initial(clock), calls);
            var now := s.clock + call.wait;
            && Do(hash, s, call).log == s.log + [Recorded(s.log, call, now)]
            && Do(hash, s, call).clock == now
            && (call.Verify? ==>
                  VerifyOutcome(hash, s, call.email, call.guess, now) == Reading(s.log, call.email, call.guess, now))
            && (call.Request? ==>
                  (InCooldown(s, call.email, now) <==> Recorded(s.log, call, now).CooledDown?))
  {
    RunKeepsText(hash, clock, calls, call.email);
    CallIsRecorded(hash, Run(hash, Initial(clock), calls), call);
  }

  /** A code sent, not accepted yet, in time and with fewer than five other guesses made at it is untaken. */
  ghost predicate NotTakenOk(s: State, email: string) {
    var i := Latest(s.log, email);
    (&& i >= 0 && s.log[i].sent && Count(s.log, i, email, Right) == 0
     && s.clock <= s.log[i].at + 600_000 && OtherTries(s.log, i, email) < 5)
    ==> Untaken(s.log, email)
  }

  lemma OtherTriesOneMore(log: seq<Event>, e: Event, i: nat, email: string)
    requires i < |log| && log[i].Issued?
    ensures OtherTries(log + [e], i, email)
            == OtherTries(log, i, email)
               + (if e.Verified? && e.email == email && e.guess != log[i].code then 1 else 0)
  {
    assert (log + [e])[..|log|] == log;
  }

  lemma {:induction false} UntakenTriesAreOther(log: seq<Event>, i: nat, email: string)
    requires i < |log| && log[i].Issued?
    requires forall k :: i < k < |log| && log[k].Verified? && log[k].email == email ==> log[k].guess != log[i].code
    ensures OtherTries(log, i, email) == Tries(log, i, email)
  {
    if |log| > i + 1 {
      UntakenTriesAreOther(log[..|log| - 1], i, email);
    }
  }

  lemma EventKeepsNotTaken(s: State, t: State, e: Event, email: string)
    requires NotTakenOk(s, email) && t.log == s.log + [e] && s.clock <= t.clock && e.at == t.clock
    requires e.Verified? && e.email == email ==> e.outcome == Reading(s.log, email, e.guess, e.at)
    ensures NotTakenOk(t, email)
  {
    var i := Latest(s.log, email);
    LogOneMore(s.log, e, email);
    if IssuedTo(e, email) {
      UntakenByIssue(s.log, e, email);
    } else if i >= 0 {
      OtherTriesOneMore(s.log, e, i, email);
      if e.Verified? && e.email == email {
        UntakenByGuess(s.log, e, email);
        if Untaken(s.log, email) {
          UntakenTriesAreOther(s.log, i, email);
        }
      } else {
        UntakenByOther(s.log, e, email);
      }
    }
  }

  lemma {:induction false} RunKeepsNotTaken(hash: string -> string, clock: nat, calls: seq<Call>, email: string)
    requires Injective(hash)
    ensures NotTakenOk(Run(hash, Initial(clock), calls), email)
  {
    if calls != [] {
      var front, call := calls[..|calls| - 1], calls[|calls| - 1];
      var s := Run(hash, Initial(clock), front);
      RunKeepsNotTaken(hash, clock, front, email);
      EveryCallIsReadOffTheLog(hash, clock, front, call);
      EventKeepsNotTaken(s, Do(hash, s, call), Recorded(s.log, call, s.clock + call.wait), email);
    }
  }

  /**
   When a guess is accepted, over all histories: exactly when it is the code last issued to the address, that
   code was sent and not yet accepted, at most ten minutes old, and fewer than five guesses other than it were made.
   */
  lemma {:induction false} AcceptedExactlyWhen(hash: string -> string, clock: nat, calls: seq<Call>,
                                             email: string, guess: string, wait: nat)
    requires Injective(hash)
    ensures var s := Run(hash, Initial(clock), calls);
            var now, i := s.clock + wait, Latest(s.log, email);
            VerifyOutcome(hash, s, email, guess, now) == Right <==>
              && i >= 0 && s.log[i].sent && s.log[i].code == guess
              && Count(s.log, i, email, Right) == 0
              && now <= s.log[i].at + 600_000
              && OtherTries(s.log, i, email) < 5
  {
    var s := Run(hash, Initial(clock), calls);
    RunKeepsEmail(hash, clock, calls, email);
    RunKeepsNotTaken(hash, clock, calls, email);
    EveryCallIsReadOffTheLog(hash, clock, calls, Verify(email, guess, wait));
    AcceptedByLog(s, email, guess, s.clock + wait);
    RightMeansAlive(hash, s, email, guess, s.clock + wait);
  }

  lemma AcceptedByLog(s: State, email: string, guess: string, now: nat)
    requires NotTakenOk(s, email) && s.clock <= now
    ensures var i := Latest(s.log, email);
            && (Reading(s.log, email, guess, now) == Right ==>
                  && i >= 0 && s.log[i].sent && s.log[i].code == guess
                  && now <= s.log[i].at + 600_000 && OtherTries(s.log, i, email) < 5)
            && (i >= 0 && s.log[i].sent && s.log[i].code == guess && Count(s.log, i, email, Right) == 0
                && now <= s.log[i].at + 600_000 && OtherTries(s.log, i, email) < 5 ==>
                  Reading(s.log, email, guess, now) == Right)
  {
    var i := Latest(s.log, email);
    if Untaken(s.log, email) {
      UntakenTriesAreOther(s.log, i, email);
      assert Tries(s.log, i, email) == OtherTries(s.log, i, email);
    }
  }

  lemma RightMeansAlive(hash: string -> string, s: State, email: string, guess: string, now: nat)
    requires EmailOk(hash, s, email)
    ensures VerifyOutcome(hash, s, email, guess, now) == Right ==> Count(s.log, Latest(s.log, email), email, Right) == 0
  {
  }

  /** A request is turned away exactly when the code last issued is still worth a guess and under a minute old. */
  lemma TurnedAwayExactlyWhen(hash: string -> string, clock: nat, calls: seq<Call>, email: string, wait: nat)
    ensures var s := Run(hash, Initial(clock), calls);
            InCooldown(s, email, s.clock + wait) <==>
              Alive(s.log, email) && s.clock + wait < s.log[Latest(s.log, email)].at + 60_000
  {
    RunKeepsEmail(hash, clock, calls, email);
  }

  /** At every call boundary a row has between 0 and 5 attempts. */
  lemma AttemptsStayInRange(hash: string -> string, clock: nat, calls: seq<Call>, email: string)
    ensures var s := Run(hash, Initial(clock), calls); email in s.otps ==> s.otps[email].attempts <= 5
  {
    RunKeepsEmail(hash, clock, calls, email);
  }

  // ---------- What can be done with one code ----------

  /** How many verifications of code `k`, before its address got another code, had the given outcome. */
  function Guesses(log: seq<Event>, k: nat, outcome: Outcome): nat
    requires k < |log| && log[k].Issued?
  {
    if |log| == k + 1 then 0
    else
      var front, last := log[..|log| - 1], log[|log| - 1];
      Guesses(front, k, outcome)
        + (if Latest(front, log[k].email) == k && VerifiedBy(last, log[k].email, outcome) then 1 else 0)
  }

  lemma {:induction false} GuessesAtLatest(log: seq<Event>, k: nat, outcome: Outcome)
    requires k < |log| && log[k].Issued? && Latest(log, log[k].email) == k
    ensures Guesses(log, k, outcome) == Count(log, k, log[k].email, outcome)
  {
    if |log| > k + 1 {
      GuessesAtLatest(log[..|log| - 1], k, outcome);
    }
  }

  lemma GuessesOneMore(log: seq<Event>, e: Event, k: nat, outcome: Outcome)
    requires k < |log| && log[k].Issued?
    ensures Guesses(log + [e], k, outcome)
            == Guesses(log, k, outcome)
              + (if Latest(log, log[k].email) == k && VerifiedBy(e, log[k].email, outcome) then 1 else 0)
  {
    assert (log + [e])[..|log|] == log;
  }

  /** Every code ever issued is compared with at most five guesses and accepted at most once. */
  lemma {:induction false} FiveGuessesPerCode(hash: string -> string, clock: nat, calls: seq<Call>, k: nat)
    requires var log := Run(hash, Initial(clock), calls).log; k < |log| && log[k].Issued?
    ensures var log := Run(hash, Initial(clock), calls).log;
            Guesses(log, k, Wrong) + Guesses(log, k, Right) <= 5 && Guesses(log, k, Right) <= 1
  {
    var front, call := calls[..|calls| - 1], calls[|calls| - 1];
    var s, t := Run(hash, Initial(clock), front), Run(hash, Initial(clock), calls);
    var e, email := t.log[|s.log|], t.log[k].email;
    assert t.log == s.log + [e];
    if Latest(t.log, email) == k {
      RunKeepsEmail(hash, clock, calls, email);
      GuessesAtLatest(t.log, k, Wrong);
      GuessesAtLatest(t.log, k, Right);
    } else if k < |s.log| {
      FiveGuessesPerCode(hash, clock, front, k);
      LatestOneMore(s.log, e, email);
      GuessesOneMore(s.log, e, k, Wrong);
      GuessesOneMore(s.log, e, k, Right);
    }
  }

  /** The guess logged as event `m`, if it is one, was answered as the log before it reads. */
  ghost predicate GuessOk(log: seq<Event>, m: nat)
    requires m < |log|
  {
    log[m].Verified? ==> log[m].outcome == Reading(log[..m], log[m].email, log[m].guess, log[m].at)
  }

  lemma GuessStaysOk(log: seq<Event>, e: Event, m: nat)
    requires m < |log| && GuessOk(log, m)
    ensures GuessOk(log + [e], m)
  {
    assert (log + [e])[..m] == log[..m];
  }

  lemma NewGuessOk(log: seq<Event>, call: Call, now: nat)
    ensures GuessOk(log + [Recorded(log, call, now)], |log|)
  {
    assert (log + [Recorded(log, call, now)])[..|log|] == log;
  }

  /** Every guess in the log of any history was answered as the log before it reads. */
  lemma {:induction false} GuessesAreReadOffTheLog(hash: string -> string, clock: nat, calls: seq<Call>, m: nat)
    requires Injective(hash) && m < |Run(hash, Initial(clock), calls).log|
    ensures GuessOk(Run(hash, Initial(clock), calls).log, m)
  {
    var front, call := calls[..|calls| - 1], calls[|calls| - 1];
    var s := Run(hash, Initial(clock), front);
    var e := Recorded(s.log, call, s.clock + call.wait);
    RunKeepsText(hash, clock, front, call.email);
    CallIsRecorded(hash, s, call);
    assert Run(hash, Initial(clock), calls).log == s.log + [e];
    if m < |s.log| {
      GuessesAreReadOffTheLog(hash, clock, front, m);
      GuessStaysOk(s.log, e, m);
    } else {
      NewGuessOk(s.log, call, s.clock + call.wait);
    }
  }

  /**
   Five guesses per code by text: of the guesses at a code, before its address got another, none after the fifth is
   compared with it, and one is accepted exactly if it is one of the first five, it is the code and in time, and
   those before it were other texts and in time.
   */
  lemma FiveTriesPerCode(hash: string -> string, clock: nat, calls: seq<Call>, k: nat, m: nat)
    requires Injective(hash)
    requires var log := Run(hash, Initial(clock), calls).log;
             && k < m < |log| && log[k].Issued? && log[m].Verified? && log[m].email == log[k].email
             && Latest(log[..m], log[k].email) == k
    ensures var log := Run(hash, Initial(clock), calls).log;
            var tries := Tries(log[..m], k, log[k].email);
            && (tries >= 5 ==> log[m].outcome != Wrong && log[m].outcome != Right)
            && (log[m].outcome == Right <==>
                  && log[k].sent && tries < 5 && log[m].guess == log[k].code && log[m].at <= log[k].at + 600_000
                  && OthersInTime(log[..m], k))
  {
    GuessesAreReadOffTheLog(hash, clock, calls, m);
  }

  ghost predicate OthersInTime(log: seq<Event>, k: nat)
    requires k < |log| && log[k].Issued?
  {
    forall j :: k < j < |log| && log[j].Verified? && log[j].email == log[k].email ==>
                  log[j].guess != log[k].code && log[j].at <= log[k].at + 600_000
  }

  // ---------- Resending ----------

  /** By the end of `log` code `k` is gone: not sent, accepted, or guessed at six times. */
  ghost predicate Removed(log: seq<Event>, k: nat, email: string)
    requires k < |log| && log[k].Issued?
  {
    || !log[k].sent
    || Count(log, k, email, Right) > 0
    || Count(log, k, email, Wrong) + Count(log, k, email, TooManyAttempts) >= 6
  }

  lemma {:induction false} CountGrows(log: seq<Event>, n: nat, i: int, email: string, outcome: Outcome)
    requires -1 <= i && n <= |log|
    ensures Count(log[..n], i, email, outcome) <= Count(log, i, email, outcome)
  {
    if n < |log| {
      CountGrows(log[..|log| - 1], n, i, email, outcome);
      assert log[..|log| - 1][..n] == log[..n];
    } else {
      assert log[..n] == log;
    }
  }

  /** A request that is not turned away within the cooldown finds the previous code gone. */
  lemma NewCodeMeansRemoval(hash: string -> string, s: State, call: Call, k: nat)
    requires EmailOk(hash, s, call.email) && call.Request? && !InCooldown(s, call.email, s.clock + call.wait)
    requires k < |s.log| && Latest(s.log, call.email) == k && s.clock + call.wait < s.log[k].at + OTP_RESEND_COOLDOWN_MS
    ensures Removed(s.log, k, call.email)
  {
  }

  /**
   Two codes issued to one address less than a minute apart: in between, the first failed to send, was
   accepted, or was the target of at least six verifications.
   */
  lemma {:induction false} EarlyResendMeansRemoval(hash: string -> string, clock: nat, calls: seq<Call>,
                                                   k: nat, l: nat, email: string)
    requires var log := Run(hash, Initial(clock), calls).log;
             k < l < |log| && IssuedTo(log[k], email) && IssuedTo(log[l], email) && log[l].at < log[k].at + 60_000
    ensures Removed(Run(hash, Initial(clock), calls).log[..l], k, email)
  {
    var front, call := calls[..|calls| - 1], calls[|calls| - 1];
    var s, t := Run(hash, Initial(clock), front), Run(hash, Initial(clock), calls);
    assert t.log == s.log + [t.log[|s.log|]];
    assert s.log == t.log[..|s.log|];
    if l < |s.log| {
      EarlyResendMeansRemoval(hash, clock, front, k, l, email);
      assert s.log[..l] == t.log[..l];
    } else {
      RunKeepsEmail(hash, clock, front, email);
      var m := Latest(s.log, email);
      if m == k {
        NewCodeMeansRemoval(hash, s, call, k);
      } else {
        EarlyResendMeansRemoval(hash, clock, front, k, m, email);
        CountGrows(s.log, m, k, email, Right);
        CountGrows(s.log, m, k, email, Wrong);
        CountGrows(s.log, m, k, email, TooManyAttempts);
      }
    }
  }

  // ---------- How many codes an address gets ----------

  /** What happened to an address in an interval: codes issued, codes not sent, codes accepted, guesses turned down. */
  datatype Tally = Tally(issued: nat, unsent: nat, accepted: nat, refused: nat)

  predicate TurnsDown(e: Event, email: string) {
    VerifiedBy(e, email, Wrong) || VerifiedBy(e, email, TooManyAttempts)
  }

  function TallyOf(log: seq<Event>, email: string, a: int, b: int): Tally {
    if log == [] then Tally(0, 0, 0, 0)
    else TallyOneMore(TallyOf(log[..|log| - 1], email, a, b), log[|log| - 1], email, a, b)
  }

  function TallyOneMore(y: Tally, e: Event, email: string, a: int, b: int): Tally {
    if !(a <= e.at < b) then y
    else
      Tally(y.issued + (if IssuedTo(e, email) then 1 else 0),
            y.unsent + (if IssuedTo(e, email) && !e.sent then 1 else 0),
            y.accepted + (if VerifiedBy(e, email, Right) then 1 else 0),
            y.refused + (if TurnsDown(e, email) then 1 else 0))
  }

  /** What removed or used up earlier codes, `i` being the latest: a failed send, an acceptance, or six guesses each. */
  function SpentBefore(log: seq<Event>, y: Tally, email: string, i: nat): int
    requires i < |log| && log[i].Issued?
  {
    6 * (y.unsent - (if log[i].sent then 0 else 1)) + 6 * (y.accepted - Count(log, i, email, Right))
    + (y.refused - Count(log, i, email, Wrong) - Count(log, i, email, TooManyAttempts))
  }

  /** Every code but the first came after the one before was spent, except `m` that came a cooldown after it. */
  ghost predicate Paced(log: seq<Event>, email: string, a: int, b: int, m: nat) {
    var i, y := Latest(log, email), TallyOf(log, email, a, b);
    && (i < 0 || log[i].at < a ==> y.issued == 0)
    && (i >= 0 && log[i].at >= a ==>
          m * 60_000 <= log[i].at - a && 6 * (y.issued - 1 - m) <= SpentBefore(log, y, email, i))
  }

  /** A new code keeps the pace, because it comes a cooldown after the one before or finds it spent. */
  lemma PacedByNewCode(log: seq<Event>, e: Event, email: string, a: int, b: int, m: nat) returns (next: nat)
    requires Paced(log, email, a, b, m) && IssuedTo(e, email) && e.at < b
    requires var i := Latest(log, email);
             i >= 0 ==> log[i].at <= e.at && (e.at < log[i].at + OTP_RESEND_COOLDOWN_MS ==> Removed(log, i, email))
    ensures Paced(log + [e], email, a, b, next)
  {
    var i := Latest(log, email);
    LatestOneMore(log, e, email);
    assert (log + [e])[..|log|] == log;
    next := 0;
    if i >= 0 && log[i].at >= a {
      next := if e.at < log[i].at + OTP_RESEND_COOLDOWN_MS then m else m + 1;
      SpentByNewCode(log, e, email, a, b, i);
    }
  }

  lemma SpentByNewCode(log: seq<Event>, e: Event, email: string, a: int, b: int, i: nat)
    requires IssuedTo(e, email) && i < |log| && IssuedTo(log[i], email) && a <= e.at < b
    ensures SpentBefore(log + [e], TallyOf(log + [e], email, a, b), email, |log|)
            >= SpentBefore(log, TallyOf(log, email, a, b), email, i) + (if Removed(log, i, email) then 6 else 0)
  {
    assert (log + [e])[..|log|] == log;
  }

  /** Anything else that happens leaves the latest code and what was spent before it as they were. */
  lemma PacedByOther(log: seq<Event>, e: Event, email: string, a: int, b: int, m: nat)
    requires Paced(log, email, a, b, m) && !IssuedTo(e, email) && e.at < b
    requires Latest(log, email) >= 0 ==> log[Latest(log, email)].at <= e.at
    ensures Paced(log + [e], email, a, b, m)
  {
    var i := Latest(log, email);
    LogOneMore(log, e, email);
    assert (log + [e])[..|log|] == log;
    if i >= 0 {
      CountOneMore(log, e, i, email, Right);
      CountOneMore(log, e, i, email, Wrong);
      CountOneMore(log, e, i, email, TooManyAttempts);
    }
  }

  lemma {:induction false} RunIsPaced(hash: string -> string, clock: nat, calls: seq<Call>, email: string,
                                      a: int, b: int)
    returns (m: nat)
    requires Run(hash, Initial(clock), calls).clock < b
    ensures Paced(Run(hash, Initial(clock), calls).log, email, a, b, m)
  {
    m := 0;
    if calls != [] {
      var front, call := calls[..|calls| - 1], calls[|calls| - 1];
      var s := Run(hash, Initial(clock), front);
      m := RunIsPaced(hash, clock, front, email, a, b);
      var log := Do(hash, s, call).log;
      var e := log[|s.log|];
      assert log == s.log + [e];
      RunKeepsEmail(hash, clock, front, email);
      if IssuedTo(e, email) {
        var i := Latest(s.log, email);
        if i >= 0 && e.at < s.log[i].at + OTP_RESEND_COOLDOWN_MS {
          NewCodeMeansRemoval(hash, s, call, i);
        }
        m := PacedByNewCode(s.log, e, email, a, b, m);
      } else {
        PacedByOther(s.log, e, email, a, b, m);
      }
    }
  }

  /** At most one code per started minute, and one more for whatever spent a code. */
  predicate WithinPace(y: Tally, length: int) {
    y.issued <= (length + 59_999) / 60_000 + y.unsent + y.accepted + y.refused / 6
  }

  lemma PacedIsWithinPace(log: seq<Event>, email: string, a: int, b: int, m: nat)
    requires Paced(log, email, a, b, m) && a <= b && (Latest(log, email) >= 0 ==> log[Latest(log, email)].at < b)
    ensures WithinPace(TallyOf(log, email, a, b), b - a)
  {
    var i, y := Latest(log, email), TallyOf(log, email, a, b);
    if i >= 0 && log[i].at >= a {
      assert 6 * (y.issued - 1 - m) <= 6 * y.unsent + 6 * y.accepted + y.refused;
    }
  }

  /**
   Over all histories, the codes issued to one address in an interval are at most one per started minute, plus the
   failed sends, the acceptances and a sixth of the guesses turned down in it.
   */
  lemma {:induction false} CodesWithinPace(hash: string -> string, clock: nat, calls: seq<Call>, email: string,
                                           a: int, b: int)
    requires a <= b
    ensures WithinPace(TallyOf(Run(hash, Initial(clock), calls).log, email, a, b), b - a)
  {
    var t := Run(hash, Initial(clock), calls);
    if t.clock < b {
      var m := RunIsPaced(hash, clock, calls, email, a, b);
      RunKeepsEmail(hash, clock, calls, email);
      PacedIsWithinPace(t.log, email, a, b, m);
    } else if calls != [] {
      CodesWithinPace(hash, clock, calls[..|calls| - 1], email, a, b);
      LateCallsDoNotMatter(hash, Run(hash, Initial(clock), calls[..|calls| - 1]), calls[|calls| - 1], email, a, b);
    }
  }

  lemma LateCallsDoNotMatter(hash: string -> string, s: State, call: Call, email: string, a: int, b: int)
    requires Do(hash, s, call).clock >= b
    ensures TallyOf(Do(hash, s, call).log, email, a, b) == TallyOf(s.log, email, a, b)
  {
    var log := Do(hash, s, call).log;
    assert log[..|log| - 1] == s.log;
  }

  // ---------- The service ----------

  datatype RequestResult = CodeSent | Cooldown | SendFailed

  datatype VerifyResult = Token(claims: JwtPayload) | Refused(outcome: Outcome) | UserBanned

  /**
   A first sign-in by code: a throwaway password, the local part of the address as public name, nothing a provider
   would know, and the admin role for the bootstrap address only.
   */
  ghost predicate FirstSignIn(u: User, throwaway: string, adminEmail: Option<string>) {
    && u.passwordHash == throwaway && u.displayName == Some(Split(u.email, '@')[0]) && !u.isBanned
    && u.name == None && u.avatarUrl == None && u.githubId == None && u.googleId == None
    && (u.role == Admin <==> adminEmail == Some(u.email))
  }

  class OtpService {
    const hash: string -> string
    const adminEmail: Option<string>
    var clock: nat
    var emailOtps: map<string, Row>
    var log: seq<Event>
    var users: Table

    constructor (hash: string -> string, adminEmail: Option<string>, clock: nat, users: Table)
      ensures this.hash == hash && this.adminEmail == adminEmail && this.users == users && View() == Initial(clock)
    {
      this.hash, this.adminEmail, this.clock, this.users := hash, adminEmail, clock, users;
      emailOtps, log := map[], [];
    }

    function View(): State
      reads this
    {
      State(clock, emailOtps, log)
    }

    method RequestCode(email: string, code: string, wait: nat, sent: bool) returns (r: RequestResult)
      modifies this`clock, this`emailOtps, this`log
      ensures View() == Do(hash, old(View()), Request(email, code, wait, sent))
      ensures r == (if InCooldown(old(View()), email, clock) then Cooldown else if sent then CodeSent else SendFailed)
    {
      clock := clock + wait;
      if email in emailOtps
         && emailOtps[email].createdAt + OTP_RESEND_COOLDOWN_MS > clock && emailOtps[email].expiresAt > clock
      {
        log := log + [CooledDown(email, clock)];
        return Cooldown;
      }
      emailOtps := emailOtps - {email};
      emailOtps := emailOtps[email := Row(HashOtpCode(hash, email, code), clock + OTP_TTL_MS, 0, clock)];
      log := log + [Issued(email, code, clock, sent)];
      if !sent {
        emailOtps := emailOtps - {email};
        assert emailOtps == old(emailOtps) - {email};
        return SendFailed;
      }
      assert emailOtps == old(emailOtps)[email := emailOtps[email]];
      return CodeSent;
    }

    /** Checks the code and says what it is good for; only the right one reaches the users table. */
    method CheckCode(email: string, guess: string, wait: nat) returns (outcome: Outcome)
      modifies this`clock, this`emailOtps, this`log
      ensures View() == Do(hash, old(View()), Verify(email, guess, wait))
      ensures outcome == VerifyOutcome(hash, old(View()), email, guess, clock)
    {
      clock := clock + wait;
      if email !in emailOtps {
        outcome := NoCode;
      } else if emailOtps[email].expiresAt < clock {
        emailOtps := emailOtps - {email};
        outcome := Expired;
      } else if emailOtps[email].attempts >= OTP_MAX_ATTEMPTS {
        emailOtps := emailOtps - {email};
        outcome := TooManyAttempts;
      } else if emailOtps[email].codeHash != HashOtpCode(hash, email, guess) {
        emailOtps := emailOtps[email := emailOtps[email].(attempts := emailOtps[email].attempts + 1)];
        outcome := Wrong;
      } else {
        emailOtps := emailOtps - {email};
        outcome := Right;
      }
      log := log + [Verified(email, guess, clock, outcome)];
    }

    /** The user with the address, or a new one on first login; nobody else is touched. */
    method FindOrCreate(email: string, newId: UserId, throwaway: string) returns (user: User)
      requires Consistent(users) && newId !in users
      modifies this`users
      ensures Consistent(users)
      ensures user.email == email && user.id in users && users[user.id] == user
      ensures forall id :: id in old(users) ==> id in users && users[id] == old(users)[id]
      ensures (exists id :: id in old(users) && old(users)[id].email == email) ==> users == old(users)
      ensures user.id !in old(users) ==>
        users.Keys == old(users).Keys + {newId} && user.id == newId && FirstSignIn(user, throwaway, adminEmail)
    {
      if id :| id in users && users[id].email == email {
        user := users[id];
      } else {
        user := User(newId, email, throwaway, None, Some(Split(email, '@')[0]), None, None, None, false,
                     if adminEmail == Some(email) then Admin else Member);
        users := users[newId := user];
      }
    }

    method VerifyCode(email: string, guess: string, wait: nat, newId: UserId, throwaway: string)
      returns (r: VerifyResult)
      requires Consistent(users) && newId !in users
      modifies this
      ensures View() == Do(hash, old(View()), Verify(email, guess, wait))
      ensures Consistent(users) && forall id :: id in old(users) ==> id in users && users[id] == old(users)[id]
      ensures var outcome := VerifyOutcome(hash, old(View()), email, guess, clock);
              if outcome != Right then r == Refused(outcome) && users == old(users)
              else exists id :: id in users && users[id].email == email
                     && (id in old(users) || (id == newId && users.Keys == old(users).Keys + {newId}
                                              && FirstSignIn(users[id], throwaway, adminEmail)))
                     && (if users[id].isBanned then r == UserBanned else r.Token? && ClaimsOf(r.claims, users[id]))
    {
      var outcome := CheckCode(email, guess, wait);
      if outcome != Right {
        return Refused(outcome);
      }
      var user := FindOrCreate(email, newId, throwaway);
      return if user.isBanned then UserBanned else Token(ToJwtPayload(user));
    }
  }
}
