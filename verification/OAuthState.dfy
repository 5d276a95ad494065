/**
 The state and PKCE attempt of src/auth/utils/oauth-state.util.ts, kept in one signed cookie per provider
 between the redirect out and the callback (section 10.12 of RFC 6749, sections 4.1 to 4.6 of RFC 7636).
 The browser keeps what it is told to set and drops what it is told to clear. It may also lose a cookie, or be
 given one from elsewhere: any text without a signature, or one this API signed for another browser.
 */
module OAuthState {
  import opened Options
  import opened Strings
  import opened Users

  datatype Attempt = Attempt(state: string, codeVerifier: string) {
    /** base64url text: never empty and without a dot. */
    predicate WellFormed() {
      state != "" && codeVerifier != "" && '.' !in state && '.' !in codeVerifier
    }
  }

  /** A cookie signed by this API, or any other text under its name. */
  datatype Cookie = Signed(value: string) | Unverifiable(raw: string)

  type Jar = map<Provider, Cookie>

  datatype Param = Missing | One(value: string) | Many(values: seq<string>)

  datatype Query = Query(error: Param, code: Param, state: Param)

  /** `Options` is what passport is handed; a mismatch is thrown before passport runs. */
  datatype Answer =
    | NoOptions
    | Redirect(state: string, codeChallenge: string)
    | Proceed(codeVerifier: string)
    | StateMismatch

  predicate Truthy(p: Param) {
    match p
    case Missing => false
    case One(value) => value != ""
    case Many(_) => true
  }

  predicate StatesMatch(expected: string, provided: Param) {
    provided.One? && |expected| == |provided.value| && expected == provided.value
  }

  // ---------- The cookie codec ----------

  function Encode(a: Attempt): string {
    a.state + ("." + a.codeVerifier)
  }

  function Decode(value: string): Option<Attempt> {
    var parts := Split(value, '.');
    if |parts| == 2 && parts[0] != "" && parts[1] != "" then Some(Attempt(parts[0], parts[1])) else None
  }

  /** Decoding inverts encoding on well-formed attempts and rejects every other text. */
  lemma DecodeInvertsEncode(value: string, a: Attempt)
    ensures Decode(value) == Some(a) <==> a.WellFormed() && value == a.state + "." + a.codeVerifier
    ensures a.WellFormed() ==> Decode(Encode(a)) == Some(a)
  {
    if a.WellFormed() {
      assert Encode(a) == a.state + "." + a.codeVerifier;
      SplitJoin([a.state, a.codeVerifier], '.');
      JoinOneMore([a.state], a.codeVerifier, '.');
      assert [a.state] + [a.codeVerifier] == [a.state, a.codeVerifier];
    }
    if Decode(value) == Some(a) {
      var parts := Split(value, '.');
      JoinSplit(value, '.');
      JoinOneMore([parts[0]], parts[1], '.');
      assert parts == [parts[0]] + [parts[1]];
    }
  }

  // ---------- One request ----------

  predicate IsCallback(q: Query) {
    !Truthy(q.error) && Truthy(q.code)
  }

  predicate IsStart(q: Query) {
    !Truthy(q.error) && !Truthy(q.code)
  }

  function Held(jar: Jar, p: Provider): Option<Attempt> {
    if p in jar && jar[p].Signed? then Decode(jar[p].value) else None
  }

  function JarAfterVisit(jar: Jar, p: Provider, q: Query, drawn: Attempt): Jar {
    if IsStart(q) then jar[p := Signed(Encode(drawn))]
    else if IsCallback(q) then jar - {p}
    else jar
  }

  function AnswerTo(challenge: string -> string, jar: Jar, p: Provider, q: Query, drawn: Attempt): Answer {
    if IsStart(q) then Redirect(drawn.state, challenge(drawn.codeVerifier))
    else if !IsCallback(q) then NoOptions
    else
      var held := Held(jar, p);
      if held.Some? && StatesMatch(held.value.state, q.state) then Proceed(held.value.codeVerifier) else StateMismatch
  }

  class OAuthGuard {
    const challenge: string -> string  // base64url of SHA-256
    var jar: Jar

    constructor (challenge: string -> string)
      ensures this.challenge == challenge && jar == map[]
    {
      this.challenge, jar := challenge, map[];
    }

    method RememberOAuthAttempt(p: Provider, a: Attempt)
      modifies this
      ensures jar == old(jar)[p := Signed(Encode(a))]
    {
      jar := jar[p := Signed(a.state + ("." + a.codeVerifier))];
    }

    /** Clears the cookie whatever it holds. */
    method TakeOAuthAttempt(p: Provider) returns (attempt: Option<Attempt>)
      modifies this
      ensures jar == old(jar) - {p}
      ensures attempt == Held(old(jar), p)
    {
      var signedValue := if p in jar then Some(jar[p]) else None;
      jar := jar - {p};
      if signedValue.None? || signedValue.value.Unverifiable? {
        return None;
      }
      var parts := Split(signedValue.value.value, '.');
      if |parts| < 2 || parts[0] == "" || parts[1] == "" || |parts| > 2 {
        return None;
      }
      return Some(Attempt(parts[0], parts[1]));
    }

    method OauthAuthenticateOptions(p: Provider, q: Query, drawn: Attempt) returns (answer: Answer)
      modifies this
      ensures jar == JarAfterVisit(old(jar), p, q, drawn)
      ensures answer == AnswerTo(challenge, old(jar), p, q, drawn)
    {
      if Truthy(q.error) {
        return NoOptions;
      }
      if Truthy(q.code) {
        var attempt := TakeOAuthAttempt(p);
        if attempt.None? || !StatesMatch(attempt.value.state, q.state) {
          return StateMismatch;
        }
        return Proceed(attempt.value.codeVerifier);
      }
      RememberOAuthAttempt(p, drawn);
      return Redirect(drawn.state, challenge(drawn.codeVerifier));
    }
  }

  // ---------- A browser's history ----------

  datatype Action =
    | Visit(provider: Provider, query: Query, drawn: Attempt)
    | Lose(provider: Provider)               // expired or deleted
    | Plant(provider: Provider, cookie: Cookie) // set from elsewhere

  function JarAfter(actions: seq<Action>, n: nat): Jar
    requires n <= |actions|
  {
    if n == 0 then map[]
    else
      var jar := JarAfter(actions, n - 1);
      match actions[n - 1]
      case Visit(p, q, drawn) => JarAfterVisit(jar, p, q, drawn)
      case Lose(p) => jar - {p}
      case Plant(p, cookie) => jar[p := cookie]
  }

  function AnswerAt(challenge: string -> string, actions: seq<Action>, n: nat): Answer
    requires n < |actions| && actions[n].Visit?
  {
    AnswerTo(challenge, JarAfter(actions, n), actions[n].provider, actions[n].query, actions[n].drawn)
  }

  predicate Starts(a: Action, p: Provider) {
    a.Visit? && a.provider == p && IsStart(a.query)
  }

  /** The action sets, clears or replaces the provider's cookie; a provider error does not. */
  predicate Touches(a: Action, p: Provider) {
    a.provider == p && (a.Visit? ==> IsStart(a.query) || IsCallback(a.query))
  }

  ghost predicate UntouchedBetween(actions: seq<Action>, p: Provider, i: int, n: int)
    requires n <= |actions|
  {
    forall k :: 0 <= i < k < n ==> !Touches(actions[k], p)
  }

  /** The cookie an action that touches it leaves, and the attempt in it. */
  function LeavesCookie(a: Action): Option<Cookie> {
    match a
    case Visit(_, query, drawn) => if IsStart(query) then Some(Signed(Encode(drawn))) else None
    case Lose(_) => None
    case Plant(_, cookie) => Some(cookie)
  }

  function Leaves(a: Action): Option<Attempt> {
    match a
    case Visit(_, query, drawn) => if IsStart(query) then Some(drawn) else None
    case Lose(_) => None
    case Plant(_, cookie) => if cookie.Signed? then Decode(cookie.value) else None
  }

  ghost predicate WellDrawn(actions: seq<Action>) {
    forall k :: 0 <= k < |actions| && actions[k].Visit? ==> actions[k].drawn.WellFormed()
  }

  /** Cookie and attempt after `n` actions are what the last action to touch the cookie left, none if there is none. */
  lemma {:induction false} CookieIsFromLastTouch(actions: seq<Action>, n: nat, p: Provider) returns (i: int)
    requires n <= |actions| && WellDrawn(actions)
    ensures -1 <= i < n
    ensures i >= 0 ==> Touches(actions[i], p)
    ensures forall k :: i < k < n ==> !Touches(actions[k], p)
    ensures var jar := JarAfter(actions, n);
            (if p in jar then Some(jar[p]) else None) == if i == -1 then None else LeavesCookie(actions[i])
    ensures Held(JarAfter(actions, n), p) == if i == -1 then None else Leaves(actions[i])
  {
    if n == 0 {
      i := -1;
    } else if Touches(actions[n - 1], p) {
      i := n - 1;
      if actions[i].Visit? {
        DecodeInvertsEncode(Encode(actions[i].drawn), actions[i].drawn);
      }
    } else {
      i := CookieIsFromLastTouch(actions, n - 1, p);
    }
  }

  // ---------- Every kind of visit ----------

  /** The query has the parameter, and not just as an empty text. */
  predicate Given(q: Param) {
    q != Missing && q != One("")
  }

  /**
   What any visit is answered and leaves, over every history: a provider error gets no options and touches nothing,
   whatever its code and state; a visit with neither error nor code is sent out with its own state and the challenge
   of its own verifier, which are kept; a callback goes on or is refused, and its cookie is gone; and no visit
   touches the other provider's cookie.
   */
  lemma VisitIsAnswered(challenge: string -> string, actions: seq<Action>, n: nat)
    requires n < |actions| && actions[n].Visit? && actions[n].drawn.WellFormed()
    ensures var Visit(p, q, drawn) := actions[n];
            var answer := AnswerAt(challenge, actions, n);
            var before, after := JarAfter(actions, n), JarAfter(actions, n + 1);
            && (Given(q.error) <==> answer.NoOptions?)
            && (!Given(q.error) && !Given(q.code) <==> answer.Redirect?)
            && (!Given(q.error) && Given(q.code) <==> answer.Proceed? || answer.StateMismatch?)
            && (answer.NoOptions? ==> after == before)
            && (answer.Redirect? ==> answer == Redirect(drawn.state, challenge(drawn.codeVerifier))
                                     && Held(after, p) == Some(drawn))
            && (answer.Proceed? || answer.StateMismatch? ==> p !in after)
            && forall other :: other != p ==> (other in after <==> other in before)
                                              && (other in after ==> after[other] == before[other])
  {
    DecodeInvertsEncode(Encode(actions[n].drawn), actions[n].drawn);
  }

  predicate ReportsError(a: Action) {
    a.Visit? && Given(a.query.error)
  }

  function WithoutErrors(actions: seq<Action>): seq<Action> {
    if actions == [] then []
    else
      var last := actions[|actions| - 1];
      WithoutErrors(actions[..|actions| - 1]) + (if ReportsError(last) then [] else [last])
  }

  lemma {:induction false} JarIgnoresLaterActions(actions: seq<Action>, others: seq<Action>, n: nat)
    requires n <= |actions| && n <= |others| && actions[..n] == others[..n]
    ensures JarAfter(actions, n) == JarAfter(others, n)
  {
    if n > 0 {
      assert actions[..n][..n - 1] == actions[..n - 1] && others[..n][..n - 1] == others[..n - 1];
      assert actions[n - 1] == actions[..n][n - 1] == others[..n][n - 1] == others[n - 1];
      JarIgnoresLaterActions(actions, others, n - 1);
    }
  }

  lemma {:induction false} JarWithoutErrors(actions: seq<Action>)
    ensures JarAfter(WithoutErrors(actions), |WithoutErrors(actions)|) == JarAfter(actions, |actions|)
  {
    if actions != [] {
      var front, last := actions[..|actions| - 1], actions[|actions| - 1];
      JarWithoutErrors(front);
      JarIgnoresLaterActions(front, actions, |front|);
      var kept := WithoutErrors(front);
      if ReportsError(last) {
        assert WithoutErrors(actions) == kept;
      } else {
        assert (kept + [last])[..|kept|] == kept;
        JarIgnoresLaterActions(kept, kept + [last], |kept|);
      }
    }
  }

  /** Erasing every provider error leaves each other visit, of any history, with the same answer and cookies. */
  lemma ErrorsAreInvisible(challenge: string -> string, actions: seq<Action>, n: nat)
    requires n < |actions| && actions[n].Visit? && !ReportsError(actions[n])
    ensures var kept := WithoutErrors(actions[..n]);
            && WithoutErrors(actions[..n + 1]) == kept + [actions[n]]
            && AnswerAt(challenge, kept + [actions[n]], |kept|) == AnswerAt(challenge, actions, n)
            && JarAfter(kept + [actions[n]], |kept| + 1) == JarAfter(actions, n + 1)
  {
    var kept := WithoutErrors(actions[..n]);
    assert actions[..n + 1][..n] == actions[..n];
    JarWithoutErrors(actions[..n]);
    JarIgnoresLaterActions(actions[..n], actions, n);
    JarIgnoresLaterActions(kept, kept + [actions[n]], |kept|);
  }

  // ---------- Which callbacks are accepted ----------

  /** A callback at `n` would be checked against the attempt that action `i` left, and carries its state. */
  ghost predicate Answers(actions: seq<Action>, i: int, n: int)
    requires 0 <= n < |actions| && actions[n].Visit?
  {
    && 0 <= i < n && Touches(actions[i], actions[n].provider)
    && UntouchedBetween(actions, actions[n].provider, i, n)
    && Leaves(actions[i]).Some? && actions[n].query.state == One(Leaves(actions[i]).value.state)
  }

  /**
   Over every history of one browser with both providers, a callback is accepted exactly when it carries the
   state of the attempt last left in that provider's cookie, with no callback processed since. Where that was
   left by a start of this browser, the callback gets the verifier whose challenge that start sent.
   */
  lemma CallbackAcceptedExactlyWhen(challenge: string -> string, actions: seq<Action>, n: nat)
    requires n < |actions| && actions[n].Visit? && IsCallback(actions[n].query) && WellDrawn(actions)
    ensures AnswerAt(challenge, actions, n).Proceed? <==> exists i :: Answers(actions, i, n)
    ensures forall i :: Answers(actions, i, n) ==>
              && AnswerAt(challenge, actions, n) == Proceed(Leaves(actions[i]).value.codeVerifier)
              && (Starts(actions[i], actions[n].provider) ==>
                    AnswerAt(challenge, actions, i)
                    == Redirect(actions[i].drawn.state, challenge(actions[i].drawn.codeVerifier)))
  {
    var p := actions[n].provider;
    var i := CookieIsFromLastTouch(actions, n, p);
    forall j | Answers(actions, j, n) ensures j == i {
      assert Touches(actions[j], p);
    }
    if i >= 0 && Leaves(actions[i]).Some? {
      assert Answers(actions, i, n) <==> StatesMatch(Leaves(actions[i]).value.state, actions[n].query.state);
    }
  }

  /**
   A signature says that this API made the attempt, not for which browser. So an accepted callback answers this
   browser's own latest start exactly when that start, and not a cookie from elsewhere, was the last to set it.
   */
  lemma AcceptedAnswersOwnStartExactlyWhen(challenge: string -> string, actions: seq<Action>, n: nat)
    requires n < |actions| && actions[n].Visit? && IsCallback(actions[n].query) && WellDrawn(actions)
    requires AnswerAt(challenge, actions, n).Proceed?
    ensures (exists i :: Answers(actions, i, n) && Starts(actions[i], actions[n].provider)) <==>
              !(exists i :: 0 <= i < n && actions[i].Plant? && actions[i].provider == actions[n].provider
                  && UntouchedBetween(actions, actions[n].provider, i, n))
  {
    var p := actions[n].provider;
    CallbackAcceptedExactlyWhen(challenge, actions, n);
    var j :| Answers(actions, j, n);
    forall i | 0 <= i < n && Touches(actions[i], p) && UntouchedBetween(actions, p, i, n) ensures i == j {
      assert Touches(actions[j], p);
    }
  }

  /** The input that shows it: a browser that never started an attempt, with the cookie of an attempt from elsewhere. */
  lemma CallbackCanAnswerAnotherStart(challenge: string -> string, elsewhere: Attempt, drawn: Attempt)
    requires elsewhere.WellFormed() && drawn.WellFormed()
    ensures var callback := Visit(Google, Query(Missing, One("code"), One(elsewhere.state)), drawn);
            var actions := [Plant(Google, Signed(Encode(elsewhere))), callback];
            && WellDrawn(actions) && IsCallback(callback.query) && !Starts(actions[0], Google)
            && AnswerAt(challenge, actions, 1) == Proceed(elsewhere.codeVerifier)
  {
    var callback := Visit(Google, Query(Missing, One("code"), One(elsewhere.state)), drawn);
    var actions := [Plant(Google, Signed(Encode(elsewhere))), callback];
    DecodeInvertsEncode(Encode(elsewhere), elsewhere);
    assert JarAfter(actions, 1) == JarAfter(actions, 0)[Google := Signed(Encode(elsewhere))];
    assert Held(JarAfter(actions, 1), Google) == Some(elsewhere);
  }

  /** No cookie of this API's making is brought in from elsewhere. */
  ghost predicate OwnCookiesOnly(actions: seq<Action>, p: Provider) {
    forall k :: 0 <= k < |actions| && actions[k].Plant? && actions[k].provider == p ==> actions[k].cookie.Unverifiable?
  }

  /**
   No attempt left in the cookie is accepted twice: two accepted callbacks of a provider answer what two different
   actions left, the later one between them; and these are two starts unless a signed cookie came from elsewhere.
   */
  lemma NoStartAcceptedTwice(challenge: string -> string, actions: seq<Action>, m: nat, n: nat)
    requires m < n < |actions| && actions[m].Visit? && actions[n].Visit? && actions[m].provider == actions[n].provider
    requires IsCallback(actions[m].query) && IsCallback(actions[n].query) && WellDrawn(actions)
    requires AnswerAt(challenge, actions, m).Proceed? && AnswerAt(challenge, actions, n).Proceed?
    ensures exists i, j :: i < m < j < n && Answers(actions, i, m) && Answers(actions, j, n)
              && (OwnCookiesOnly(actions, actions[n].provider) ==>
                    Starts(actions[i], actions[n].provider) && Starts(actions[j], actions[n].provider))
  {
    CallbackAcceptedExactlyWhen(challenge, actions, m);
    CallbackAcceptedExactlyWhen(challenge, actions, n);
    var i :| Answers(actions, i, m);
    var j :| Answers(actions, j, n);
    assert Touches(actions[m], actions[n].provider);
  }
}
