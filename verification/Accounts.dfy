/**
 Signing in with Google or GitHub, src/auth/strategies/google.strategy.ts and github.strategy.ts: find a user
 by provider id or email, or create one; or link a provider to a signed-in user. The read and the write are
 separate statements, so the table read and the table written may differ by what other requests did meanwhile.
 */
module Accounts {
  import opened Options
  import opened Users

  function ProviderId(u: User, p: Provider): Option<string> {
    if p == Google then u.googleId else u.githubId
  }

  function WithProviderId(u: User, p: Provider, id: string): User {
    if p == Google then u.(googleId := Some(id)) else u.(githubId := Some(id))
  }

  datatype Profile = Profile(providerId: string, email: string, name: string, avatarUrl: Option<string>)

  datatype Result =
    | LoggedIn(claims: JwtPayload)
    | AlreadyLinked
    | UserNotFound
    | EmailConflict
    | Failed  // an error page: a constraint or the row itself got in the way

  /** What a database call throws: the driver's error, or Drizzle's around it. */
  datatype DbError = PostgresError(code: string) | DrizzleError(cause: DbError)

  const UNIQUE_VIOLATION := "23505"

  /** A unique column refused the row. Drizzle puts its own error around the driver's. */
  const Collision := DrizzleError(PostgresError(UNIQUE_VIOLATION))

  /** It reads the code of the thrown error itself. */
  predicate IsUniqueViolation(e: DbError) {
    e.PostgresError? && e.code == UNIQUE_VIOLATION
  }

  function InsertFailed(p: Provider, thrown: DbError): Result {
    if p == Github && IsUniqueViolation(thrown) then EmailConflict else Failed
  }

  predicate Matches(u: User, p: Provider, profile: Profile) {
    ProviderId(u, p) == Some(profile.providerId) || u.email == profile.email
  }

  /** What `findFirst` with an OR may return: any matching row, and nothing only if there is none. */
  ghost predicate CanFind(t: Table, p: Provider, profile: Profile, found: Option<User>) {
    match found
    case None => forall id :: id in t ==> !Matches(t[id], p, profile)
    case Some(u) => u.id in t && t[u.id] == u && Matches(u, p, profile)
  }

  /** What `findFirst` on the provider id returns. */
  ghost predicate CanHold(t: Table, p: Provider, providerId: string, holder: Option<User>) {
    match holder
    case None => forall id :: id in t ==> ProviderId(t[id], p) != Some(providerId)
    case Some(u) => u.id in t && t[u.id] == u && ProviderId(u, p) == Some(providerId)
  }

  function Else<T>(a: Option<T>, b: Option<T>): Option<T> {
    if a.Some? then a else b
  }

  function NewUser(p: Provider, profile: Profile, id: UserId, throwaway: string, adminEmail: Option<string>): User {
    WithProviderId(User(id, profile.email, throwaway, Some(profile.name), None, profile.avatarUrl, None, None, false,
                        if adminEmail == Some(profile.email) then Admin else Member), p, profile.providerId)
  }

  /** The UPDATE of a login: it sets three columns, with name and avatar taken from the row as it was read. */
  function LoginUpdate(p: Provider, current: User, read: User, profile: Profile): User {
    WithProviderId(current, p, profile.providerId)
      .(name := Else(read.name, Some(profile.name)), avatarUrl := Else(read.avatarUrl, profile.avatarUrl))
  }

  /** The write of a login on table `t`, after reading `found`, and its answer. */
  function Login(p: Provider, t: Table, found: Option<User>, profile: Profile,
                 newId: UserId, throwaway: string, adminEmail: Option<string>): (Table, Result)
  {
    match found
    case Some(read) =>
      if read.id !in t then (t, Failed)
      else
        var row := LoginUpdate(p, t[read.id], read, profile);
        if Consistent(t[read.id := row]) then (t[read.id := row], LoggedIn(ToJwtPayload(row))) else (t, Failed)
    case None =>
      var row := NewUser(p, profile, newId, throwaway, adminEmail);
      if Consistent(t[newId := row]) then (t[newId := row], LoggedIn(ToJwtPayload(row)))
      else (t, InsertFailed(p, Collision))
  }

  /** The write of a link on table `t`, after reading the provider id's holder and the user to link. */
  function Link(p: Provider, t: Table, holder: Option<User>, current: Option<User>,
                userId: UserId, providerId: string, avatarUrl: Option<string>): (Table, Result)
  {
    if holder.Some? && holder.value.id != userId then (t, AlreadyLinked)
    else if current.None? then (t, UserNotFound)
    else if userId !in t then (t, Failed)
    else
      var row := WithProviderId(t[userId], p, providerId).(avatarUrl := Else(current.value.avatarUrl, avatarUrl));
      if Consistent(t[userId := row]) then (t[userId := row], LoggedIn(ToJwtPayload(row))) else (t, Failed)
  }

  /** Giving one user a provider id keeps the table consistent exactly when nobody else holds it. */
  lemma SettingProviderId(t: Table, p: Provider, id: string, row: User)
    requires Consistent(t) && row.id in t && row.email == t[row.id].email && ProviderId(row, p) == Some(id)
    requires forall q :: q != p ==> ProviderId(row, q) == ProviderId(t[row.id], q)
    ensures Consistent(t[row.id := row]) <==> forall h :: h in t && ProviderId(t[h], p) == Some(id) ==> h == row.id
  {
    var t' := t[row.id := row];
    if h :| h in t && ProviderId(t[h], p) == Some(id) && h != row.id {
      assert t'[h] == t[h] && t'[row.id] == row;
      assert p == Google ==> t'[h].googleId == t'[row.id].googleId;
      assert p == Github ==> t'[h].githubId == t'[row.id].githubId;
    } else {
      assert ProviderId(row, Google) == row.googleId && ProviderId(row, Github) == row.githubId;
      assert p == Google ==> row.githubId == t[row.id].githubId;
      assert p == Github ==> row.googleId == t[row.id].googleId;
    }
  }

  lemma InsertingProviderId(t: Table, p: Provider, id: string, row: User)
    requires row.id !in t && ProviderId(row, p) == Some(id)
    ensures Consistent(t[row.id := row]) ==> forall h :: h in t ==> ProviderId(t[h], p) != Some(id)
  {
    var t' := t[row.id := row];
    forall h | h in t ensures Consistent(t') ==> ProviderId(t[h], p) != Some(id) {
      assert t'[h] == t[h] && t'[row.id] == row;
    }
  }

  // ---------- What a sign-in may do ----------

  /** The columns of an existing account that no sign-in ever changes: all but provider ids, name and avatar. */
  ghost predicate SameAccount(u: User, v: User) {
    && v.id == u.id && v.email == u.email && v.passwordHash == u.passwordHash && v.displayName == u.displayName
    && v.isBanned == u.isBanned && v.role == u.role
  }

  /** A value that is there stays; a missing one is filled with what the provider offers. */
  ghost predicate Filled(before: Option<string>, after: Option<string>, offered: Option<string>) {
    after == if before.Some? then before else offered
  }

  /**
   What an UPDATE computed from a stale read does to a column that now holds `current` is what filling it would
   have done exactly when the column is as it was read, or the edit made since is what the provider offers anyway.
   */
  predicate NotOvertaken(read: Option<string>, current: Option<string>, offered: Option<string>) {
    read == current || (read.None? && current == offered) || (current.None? && read == offered)
  }

  /**
   A first login: the profile's address, name and avatar, a throwaway password, no public name yet, and the admin
   role for the bootstrap address only.
   */
  ghost predicate FirstLogin(u: User, p: Provider, profile: Profile, throwaway: string, adminEmail: Option<string>) {
    && u.email == profile.email && u.name == Some(profile.name) && u.avatarUrl == profile.avatarUrl && !u.isBanned
    && u.passwordHash == throwaway && u.displayName == None && ProviderId(u, p) == Some(profile.providerId)
    && (u.role == Admin <==> adminEmail == Some(profile.email))
    && forall q :: q != p ==> ProviderId(u, q) == None
  }

  /** Table `t` became `t'` by a sign-in of `providerId` that was answered with `claims`. */
  ghost predicate SignedIn(p: Provider, t: Table, t': Table, providerId: string, claims: JwtPayload) {
    var id := claims.sub;
    && id in t' && ClaimsOf(claims, t'[id]) && ProviderId(t'[id], p) == Some(providerId)
    && t'.Keys == t.Keys + {id}
    && (forall other :: other in t && other != id ==> t'[other] == t[other])
    && (forall h :: h in t && ProviderId(t[h], p) == Some(providerId) ==> h == id)
    && (id in t ==> SameAccount(t[id], t'[id]) && forall q :: q != p ==> ProviderId(t'[id], q) == ProviderId(t[id], q))
  }

  /** Storing a row with the provider id, where the table accepts it, is a sign-in of that row. */
  lemma StoredRowSignsIn(p: Provider, t: Table, row: User, providerId: string)
    requires Consistent(t) && Consistent(t[row.id := row]) && ProviderId(row, p) == Some(providerId)
    requires row.id in t ==>
               SameAccount(t[row.id], row) && forall q :: q != p ==> ProviderId(row, q) == ProviderId(t[row.id], q)
    ensures SignedIn(p, t, t[row.id := row], providerId, ToJwtPayload(row))
  {
    if row.id in t {
      SettingProviderId(t, p, providerId, row);
    } else {
      InsertingProviderId(t, p, providerId, row);
    }
  }

  /**
   A login, whatever row was found and whatever happened between the read and the write: the table stays
   consistent, a failure changes nothing, and a success answers with the holder of the provider id, who is
   the previous holder if there was one, and touches nobody else. Name and avatar are filled as they were read.
   */
  lemma LoginKeepsIdentity(p: Provider, t: Table, found: Option<User>, profile: Profile,
                           newId: UserId, throwaway: string, adminEmail: Option<string>)
    requires Consistent(t) && newId !in t
    ensures var (t', r) := Login(p, t, found, profile, newId, throwaway, adminEmail);
            && Consistent(t')
            && (r.LoggedIn? ==> SignedIn(p, t, t', profile.providerId, r.claims))
            && (!r.LoggedIn? ==> t' == t && r == Failed)
            && (r.LoggedIn? && found.Some? ==>
                  && r.claims.sub == found.value.id && found.value.id in t
                  && Filled(found.value.name, t'[r.claims.sub].name, Some(profile.name))
                  && Filled(found.value.avatarUrl, t'[r.claims.sub].avatarUrl, profile.avatarUrl))
            && (r.LoggedIn? && found.None? ==>
                  r.claims.sub == newId && FirstLogin(t'[newId], p, profile, throwaway, adminEmail))
  {
    match found
    case Some(read) =>
      if read.id in t {
        var row := LoginUpdate(p, t[read.id], read, profile);
        if Consistent(t[read.id := row]) {
          StoredRowSignsIn(p, t, row, profile.providerId);
        }
      }
    case None =>
      var row := NewUser(p, profile, newId, throwaway, adminEmail);
      if Consistent(t[newId := row]) {
        StoredRowSignsIn(p, t, row, profile.providerId);
      }
  }

  /** The same for a link, which never touches the name. */
  lemma LinkKeepsIdentity(p: Provider, t: Table, holder: Option<User>, current: Option<User>,
                          userId: UserId, providerId: string, avatarUrl: Option<string>)
    requires Consistent(t)
    ensures var (t', r) := Link(p, t, holder, current, userId, providerId, avatarUrl);
            && Consistent(t')
            && (r == AlreadyLinked <==> holder.Some? && holder.value.id != userId)
            && (r == UserNotFound <==> (holder.Some? ==> holder.value.id == userId) && current.None?)
            && (!r.LoggedIn? ==> t' == t && (r == Failed || r == AlreadyLinked || r == UserNotFound))
            && (r.LoggedIn? ==>
                  && SignedIn(p, t, t', providerId, r.claims) && r.claims.sub == userId && userId in t && current.Some?
                  && t'[userId].name == t[userId].name
                  && Filled(current.value.avatarUrl, t'[userId].avatarUrl, avatarUrl))
  {
    if current.Some? && userId in t {
      var row := WithProviderId(t[userId], p, providerId).(avatarUrl := Else(current.value.avatarUrl, avatarUrl));
      if Consistent(t[userId := row]) {
        StoredRowSignsIn(p, t, row, providerId);
      }
    }
  }

  // ---------- Edits made during a sign-in ----------

  /** A fill computed from a stale read keeps a name or avatar that is there exactly when the edit is not overtaken. */
  lemma StaleFill(read: Option<string>, current: Option<string>, offered: Option<string>, after: Option<string>)
    requires Filled(read, after, offered)
    ensures Filled(current, after, offered) <==> NotOvertaken(read, current, offered)
    ensures current.Some? ==> (after == current <==> read == current || (read.None? && current == offered))
  {
  }

  /**
   The source means a login never to overwrite a name or avatar the user has edited. It writes what it read, so
   that holds, for each of the two columns, exactly when the column was not edited between the read and the write
   to anything but what the login fills in.
   */
  lemma EditSurvivesLoginExactlyWhen(p: Provider, t: Table, read: User, profile: Profile,
                                     newId: UserId, throwaway: string, adminEmail: Option<string>)
    requires Consistent(t) && newId !in t && Login(p, t, Some(read), profile, newId, throwaway, adminEmail).1.LoggedIn?
    ensures read.id in t
    ensures var u, u' := t[read.id], Login(p, t, Some(read), profile, newId, throwaway, adminEmail).0[read.id];
            && (Filled(u.name, u'.name, Some(profile.name)) <==> NotOvertaken(read.name, u.name, Some(profile.name)))
            && (Filled(u.avatarUrl, u'.avatarUrl, profile.avatarUrl) <==>
                NotOvertaken(read.avatarUrl, u.avatarUrl, profile.avatarUrl))
            && (u.name.Some? ==>
                  (u'.name == u.name <==> read.name == u.name || (read.name.None? && u.name == Some(profile.name))))
            && (u.avatarUrl.Some? ==>
                  (u'.avatarUrl == u.avatarUrl <==>
                   read.avatarUrl == u.avatarUrl || (read.avatarUrl.None? && u.avatarUrl == profile.avatarUrl)))
  {
    LoginKeepsIdentity(p, t, Some(read), profile, newId, throwaway, adminEmail);
    var u, u' := t[read.id], Login(p, t, Some(read), profile, newId, throwaway, adminEmail).0[read.id];
    StaleFill(read.name, u.name, Some(profile.name), u'.name);
    StaleFill(read.avatarUrl, u.avatarUrl, profile.avatarUrl, u'.avatarUrl);
  }

  lemma EditSurvivesLinkExactlyWhen(p: Provider, t: Table, holder: Option<User>, read: User,
                                    userId: UserId, providerId: string, avatarUrl: Option<string>)
    requires Consistent(t) && Link(p, t, holder, Some(read), userId, providerId, avatarUrl).1.LoggedIn?
    ensures userId in t
    ensures var u, u' := t[userId], Link(p, t, holder, Some(read), userId, providerId, avatarUrl).0[userId];
            && (Filled(u.avatarUrl, u'.avatarUrl, avatarUrl) <==> NotOvertaken(read.avatarUrl, u.avatarUrl, avatarUrl))
            && (u.avatarUrl.Some? ==>
                  (u'.avatarUrl == u.avatarUrl <==>
                   read.avatarUrl == u.avatarUrl || (read.avatarUrl.None? && u.avatarUrl == avatarUrl)))
  {
    LinkKeepsIdentity(p, t, holder, Some(read), userId, providerId, avatarUrl);
    var u, u' := t[userId], Link(p, t, holder, Some(read), userId, providerId, avatarUrl).0[userId];
    StaleFill(read.avatarUrl, u.avatarUrl, avatarUrl, u'.avatarUrl);
  }

  function ExampleUser(id: UserId, email: string, name: Option<string>, googleId: Option<string>): User {
    User(id, email, "hash", name, None, None, None, googleId, false, Member)
  }

  /** The input that shows it: the user sets a name while a login that read none is on its way. */
  lemma EditDuringLoginIsLost()
    ensures var profile := Profile("g", "a@x", "from google", None);
            var read := ExampleUser(1, "a@x", None, Some("g"));
            var edited := read.(name := Some("edited"));
            var (t, t') := (map[1 := read], map[1 := edited]);
            && Consistent(t) && Consistent(t') && CanFind(t, Google, profile, Some(read))
            && (var (t'', r) := Login(Google, t', Some(read), profile, 2, "throwaway", None);
                r.LoggedIn? && t''[1].name == Some("from google"))
  {
  }

  // ---------- When a sign-in succeeds ----------

  /** A login that found `u` succeeds exactly when nobody else holds the provider id. */
  lemma FoundLoginSucceedsExactlyWhen(p: Provider, t: Table, u: User, profile: Profile,
                                      newId: UserId, throwaway: string, adminEmail: Option<string>)
    requires Consistent(t) && CanFind(t, p, profile, Some(u))
    ensures Login(p, t, Some(u), profile, newId, throwaway, adminEmail).1.LoggedIn? <==>
              forall h :: h in t && ProviderId(t[h], p) == Some(profile.providerId) ==> h == u.id
  {
    SettingProviderId(t, p, profile.providerId, LoginUpdate(p, t[u.id], u, profile));
  }

  /** With nobody else writing, a link fails exactly when another user holds the provider id or the user is gone. */
  lemma LinkSucceedsExactlyWhen(p: Provider, t: Table, holder: Option<User>,
                                userId: UserId, providerId: string, avatarUrl: Option<string>)
    requires Consistent(t) && CanHold(t, p, providerId, holder)
    ensures var current := if userId in t then Some(t[userId]) else None;
            var r := Link(p, t, holder, current, userId, providerId, avatarUrl).1;
            var taken := exists h :: h in t && h != userId && ProviderId(t[h], p) == Some(providerId);
            && (r == AlreadyLinked <==> taken)
            && (r == UserNotFound <==> !taken && userId !in t)
            && (r.LoggedIn? <==> !taken && userId in t)
  {
    if userId in t {
      var row := WithProviderId(t[userId], p, providerId).(avatarUrl := Else(t[userId].avatarUrl, avatarUrl));
      SettingProviderId(t, p, providerId, row);
    }
  }

  /**
   A login that found nobody succeeds exactly when by the time of its insert there still is nobody with the address
   or the provider id. Otherwise, with GitHub as with Google, the answer is the general failure and not the email
   conflict the source has a page for.
   */
  lemma FirstLoginSucceedsExactlyWhen(p: Provider, t: Table, profile: Profile,
                                      newId: UserId, throwaway: string, adminEmail: Option<string>)
    requires Consistent(t) && newId !in t
    ensures var (t', r) := Login(p, t, None, profile, newId, throwaway, adminEmail);
            && (r.LoggedIn? <==> forall id :: id in t ==> !Matches(t[id], p, profile))
            && (!r.LoggedIn? ==> t' == t && r == Failed)
  {
    var row := NewUser(p, profile, newId, throwaway, adminEmail);
    var t' := t[newId := row];
    if id :| id in t && Matches(t[id], p, profile) {
      InsertingProviderId(t, p, profile.providerId, row);
      assert t'[id] == t[id] && t'[newId] == row;
    } else {
      assert Consistent(t');
    }
  }

  /**
   The source means the provider id to be matched before the email. The query leaves the choice to the
   database, and the login succeeds for every choice exactly when there is no choice: no two users match.
   */
  lemma LoginIsSafeExactlyWhenUnambiguous(p: Provider, t: Table, profile: Profile,
                                          newId: UserId, throwaway: string, adminEmail: Option<string>)
    requires Consistent(t) && newId !in t
    ensures (forall found :: CanFind(t, p, profile, found) ==>
               Login(p, t, found, profile, newId, throwaway, adminEmail).1.LoggedIn?)
            <==> (forall a, b :: a in t && b in t && Matches(t[a], p, profile) && Matches(t[b], p, profile) ==> a == b)
  {
    forall found | CanFind(t, p, profile, found)
      ensures found.None? ==> Login(p, t, found, profile, newId, throwaway, adminEmail).1.LoggedIn?
      ensures found.Some? ==> (Login(p, t, found, profile, newId, throwaway, adminEmail).1.LoggedIn? <==>
                forall h :: h in t && ProviderId(t[h], p) == Some(profile.providerId) ==> h == found.value.id)
    {
      if found.None? {
        FirstLoginSucceedsExactlyWhen(p, t, profile, newId, throwaway, adminEmail);
      } else {
        FoundLoginSucceedsExactlyWhen(p, t, found.value, profile, newId, throwaway, adminEmail);
      }
    }
    if a, b :| a in t && b in t && Matches(t[a], p, profile) && Matches(t[b], p, profile) && a != b {
      // Emails and provider ids are unique, so one of the two matches by provider id and the other by email alone.
      var byEmail := if t[a].email == profile.email && ProviderId(t[a], p) != Some(profile.providerId) then a else b;
      assert CanFind(t, p, profile, Some(t[byEmail]));
    }
  }

  /** The input that shows the failure: one row holds the Google id and another the address. */
  function AmbiguousTable(): Table {
    map[1 := ExampleUser(1, "old@x", None, Some("g")), 2 := ExampleUser(2, "new@x", None, None)]
  }

  lemma AmbiguousTableIsConsistent()
    ensures Consistent(AmbiguousTable())
  {
    var t := AmbiguousTable();
    assert t[1].email[0] != t[2].email[0];
    forall a, b | a in t && b in t && a != b ensures t[a].email != t[b].email {
      assert (a == 1 && b == 2) || (a == 2 && b == 1);
    }
  }

  lemma AmbiguousLoginCanFail(name: string)
    ensures var t, profile := AmbiguousTable(), Profile("g", "new@x", name, None);
            && Consistent(t) && CanFind(t, Google, profile, Some(t[1])) && CanFind(t, Google, profile, Some(t[2]))
            && Login(Google, t, Some(t[1]), profile, 3, "throwaway", None).1.LoggedIn?
            && Login(Google, t, Some(t[2]), profile, 3, "throwaway", None) == (t, Failed)
  {
    var t, profile := AmbiguousTable(), Profile("g", "new@x", name, None);
    AmbiguousTableIsConsistent();
    FoundLoginSucceedsExactlyWhen(Google, t, t[1], profile, 3, "throwaway", None);
    FoundLoginSucceedsExactlyWhen(Google, t, t[2], profile, 3, "throwaway", None);
  }

  // ---------- Whole runs ----------

  /** A sign-in by either provider; what it read may be out of date. */
  datatype SignIn =
    | LoginWith(provider: Provider, found: Option<User>, profile: Profile, newId: UserId, throwaway: string)
    | LinkWith(provider: Provider, holder: Option<User>, current: Option<User>,
               userId: UserId, providerId: string, avatarUrl: Option<string>)

  function After(t: Table, op: SignIn, adminEmail: Option<string>): Table {
    match op
    case LoginWith(p, found, profile, newId, throwaway) =>
      if newId in t then t else Login(p, t, found, profile, newId, throwaway, adminEmail).0
    case LinkWith(p, holder, current, userId, providerId, avatarUrl) =>
      Link(p, t, holder, current, userId, providerId, avatarUrl).0
  }

  function RunSignIns(t: Table, ops: seq<SignIn>, adminEmail: Option<string>): Table {
    if ops == [] then t else After(RunSignIns(t, ops[..|ops| - 1], adminEmail), ops[|ops| - 1], adminEmail)
  }

  lemma SignedInKeepsAccounts(p: Provider, t: Table, t': Table, providerId: string, claims: JwtPayload)
    requires SignedIn(p, t, t', providerId, claims)
    ensures forall id :: id in t ==> id in t' && SameAccount(t[id], t'[id])
  {
  }

  lemma SignInKeepsAccounts(t: Table, op: SignIn, adminEmail: Option<string>)
    requires Consistent(t)
    ensures var t' := After(t, op, adminEmail);
            Consistent(t') && forall id :: id in t ==> id in t' && SameAccount(t[id], t'[id])
  {
    match op
    case LoginWith(p, found, profile, newId, throwaway) =>
      if newId !in t {
        LoginKeepsIdentity(p, t, found, profile, newId, throwaway, adminEmail);
        var (t', r) := Login(p, t, found, profile, newId, throwaway, adminEmail);
        if r.LoggedIn? {
          SignedInKeepsAccounts(p, t, t', profile.providerId, r.claims);
        }
      }
    case LinkWith(p, holder, current, userId, providerId, avatarUrl) =>
      LinkKeepsIdentity(p, t, holder, current, userId, providerId, avatarUrl);
      var (t', r) := Link(p, t, holder, current, userId, providerId, avatarUrl);
      if r.LoggedIn? {
        SignedInKeepsAccounts(p, t, t', providerId, r.claims);
      }
  }

  /**
   Over any run of logins and links with both providers, however stale their reads: no account disappears, none
   changes its id, email, password hash, ban flag or role, and no provider id or email is ever held twice.
   */
  lemma {:induction false} AccountsAreStable(t: Table, ops: seq<SignIn>, adminEmail: Option<string>)
    requires Consistent(t)
    ensures var t' := RunSignIns(t, ops, adminEmail);
            Consistent(t') && forall id :: id in t ==> id in t' && SameAccount(t[id], t'[id])
  {
    if ops != [] {
      AccountsAreStable(t, ops[..|ops| - 1], adminEmail);
      SignInKeepsAccounts(RunSignIns(t, ops[..|ops| - 1], adminEmail), ops[|ops| - 1], adminEmail);
    }
  }

  // ---------- Whose a provider id is ----------

  function Answer(t: Table, op: SignIn, adminEmail: Option<string>): Result {
    match op
    case LoginWith(p, found, profile, newId, throwaway) =>
      if newId in t then Failed else Login(p, t, found, profile, newId, throwaway, adminEmail).1
    case LinkWith(p, holder, current, userId, providerId, avatarUrl) =>
      Link(p, t, holder, current, userId, providerId, avatarUrl).1
  }

  function CarriedId(op: SignIn): string {
    if op.LoginWith? then op.profile.providerId else op.providerId
  }

  /** A sign-in to account `id` with another id of the provider than `x`. */
  predicate Replaces(t: Table, op: SignIn, adminEmail: Option<string>, p: Provider, id: UserId, x: string) {
    var r := Answer(t, op, adminEmail);
    op.provider == p && r.LoggedIn? && r.claims.sub == id && CarriedId(op) != x
  }

  lemma SignedInReplaces(q: Provider, t: Table, t': Table, carried: string, claims: JwtPayload,
                         p: Provider, id: UserId, x: string)
    requires SignedIn(q, t, t', carried, claims) && id in t && ProviderId(t[id], p) == Some(x)
    ensures id in t' && (ProviderId(t'[id], p) != Some(x) <==> q == p && claims.sub == id && carried != x)
  {
  }

  /** A sign-in takes a provider id off its account exactly when it signs in to it with another id of the provider. */
  lemma ProviderIdLeavesExactlyWhen(t: Table, op: SignIn, adminEmail: Option<string>,
                                    p: Provider, id: UserId, x: string)
    requires Consistent(t) && id in t && ProviderId(t[id], p) == Some(x)
    ensures var t' := After(t, op, adminEmail);
            id in t' && (ProviderId(t'[id], p) != Some(x) <==> Replaces(t, op, adminEmail, p, id, x))
  {
    var t', r := After(t, op, adminEmail), Answer(t, op, adminEmail);
    AnswerIsSignedIn(t, op, adminEmail);
    if r.LoggedIn? {
      SignedInReplaces(op.provider, t, t', CarriedId(op), r.claims, p, id, x);
    }
  }

  lemma AnswerIsSignedIn(t: Table, op: SignIn, adminEmail: Option<string>)
    requires Consistent(t)
    ensures var t', r := After(t, op, adminEmail), Answer(t, op, adminEmail);
            if r.LoggedIn? then SignedIn(op.provider, t, t', CarriedId(op), r.claims) else t' == t
  {
    match op
    case LoginWith(p, found, profile, newId, throwaway) =>
      if newId !in t {
        LoginKeepsIdentity(p, t, found, profile, newId, throwaway, adminEmail);
      }
    case LinkWith(p, holder, current, userId, providerId, avatarUrl) =>
      LinkKeepsIdentity(p, t, holder, current, userId, providerId, avatarUrl);
  }

  /**
   Over any run, however stale its reads, a provider id stays with its account as long as nobody signs in to that
   account with another id of the provider; and then every successful login with the id is to that account.
   */
  lemma {:induction false} ProviderIdStays(t: Table, ops: seq<SignIn>, adminEmail: Option<string>,
                                           p: Provider, id: UserId, x: string)
    requires Consistent(t) && id in t && ProviderId(t[id], p) == Some(x)
    requires forall i :: 0 <= i < |ops| ==> !Replaces(RunSignIns(t, ops[..i], adminEmail), ops[i], adminEmail, p, id, x)
    ensures var t' := RunSignIns(t, ops, adminEmail);
            && id in t' && ProviderId(t'[id], p) == Some(x)
            && forall op: SignIn :: op.provider == p && CarriedId(op) == x && Answer(t', op, adminEmail).LoggedIn? ==>
                 Answer(t', op, adminEmail).claims.sub == id
  {
    if ops != [] {
      var front := ops[..|ops| - 1];
      forall i | 0 <= i < |front|
        ensures !Replaces(RunSignIns(t, front[..i], adminEmail), front[i], adminEmail, p, id, x)
      {
        assert front[..i] == ops[..i] && front[i] == ops[i];
      }
      ProviderIdStays(t, front, adminEmail, p, id, x);
      AccountsAreStable(t, front, adminEmail);
      ProviderIdLeavesExactlyWhen(RunSignIns(t, front, adminEmail), ops[|front|], adminEmail, p, id, x);
    }
    AccountsAreStable(t, ops, adminEmail);
    HolderSignsIn(RunSignIns(t, ops, adminEmail), adminEmail, p, id, x);
  }

  lemma HolderSignsIn(t: Table, adminEmail: Option<string>, p: Provider, id: UserId, x: string)
    requires Consistent(t) && id in t && ProviderId(t[id], p) == Some(x)
    ensures forall op: SignIn :: op.provider == p && CarriedId(op) == x && Answer(t, op, adminEmail).LoggedIn? ==>
              Answer(t, op, adminEmail).claims.sub == id
  {
    forall op: SignIn | op.provider == p && CarriedId(op) == x && Answer(t, op, adminEmail).LoggedIn?
      ensures Answer(t, op, adminEmail).claims.sub == id
    {
      AnswerIsSignedIn(t, op, adminEmail);
    }
  }

  /**
   The input for the other case: a login found by its address replaces the Google id of the account, and the
   former id, coming back under a new address, gets an account of its own.
   */
  lemma FormerProviderIdGetsAnotherAccount()
    ensures var u := ExampleUser(1, "a@x", Some("A"), Some("g"));
            var second := Profile("h", "a@x", "A", None);
            var former := Profile("g", "b@x", "A", None);
            var t := map[1 := u];
            var (t', r) := Login(Google, t, Some(u), second, 2, "throwaway", None);
            var (t'', r') := Login(Google, t', None, former, 2, "throwaway", None);
            && Consistent(t) && CanFind(t, Google, second, Some(u)) && CanFind(t', Google, former, None)
            && r.LoggedIn? && r.claims.sub == 1 && r'.LoggedIn? && r'.claims.sub == 2
  {
    var u := ExampleUser(1, "a@x", Some("A"), Some("g"));
    var second := Profile("h", "a@x", "A", None);
    var former := Profile("g", "b@x", "A", None);
    var t := map[1 := u];
    FoundLoginSucceedsExactlyWhen(Google, t, u, second, 2, "throwaway", None);
    var t' := Login(Google, t, Some(u), second, 2, "throwaway", None).0;
    assert "a@x"[0] != "b@x"[0] && "g"[0] != "h"[0];
    FirstLoginSucceedsExactlyWhen(Google, t', former, 2, "throwaway", None);
  }

  // ---------- Edits over a run ----------

  /** The sign-in reads the row it will update as the table has it now. */
  ghost predicate ReadsCurrent(t: Table, op: SignIn) {
    match op
    case LoginWith(_, found, _, _, _) => found.Some? && found.value.id in t ==> t[found.value.id] == found.value
    case LinkWith(_, _, current, userId, _, _) => current.Some? && userId in t ==> t[userId] == current.value
  }

  /** A name or avatar, once there, stays. */
  ghost predicate KeepsProfile(u: User, v: User) {
    (u.name.Some? ==> v.name == u.name) && (u.avatarUrl.Some? ==> v.avatarUrl == u.avatarUrl)
  }

  lemma CurrentReadKeepsProfiles(t: Table, op: SignIn, adminEmail: Option<string>)
    requires Consistent(t) && ReadsCurrent(t, op)
    ensures var t' := After(t, op, adminEmail); forall id :: id in t ==> id in t' && KeepsProfile(t[id], t'[id])
  {
    match op
    case LoginWith(p, found, profile, newId, throwaway) =>
      if newId !in t {
        LoginKeepsIdentity(p, t, found, profile, newId, throwaway, adminEmail);
      }
    case LinkWith(p, holder, current, userId, providerId, avatarUrl) =>
      LinkKeepsIdentity(p, t, holder, current, userId, providerId, avatarUrl);
  }

  /** Over any run whose sign-ins are not overtaken by one another, no name or avatar that is there ever changes. */
  lemma {:induction false} ProfilesAreKept(t: Table, ops: seq<SignIn>, adminEmail: Option<string>)
    requires Consistent(t)
    requires forall i :: 0 <= i < |ops| ==> ReadsCurrent(RunSignIns(t, ops[..i], adminEmail), ops[i])
    ensures var t' := RunSignIns(t, ops, adminEmail); forall id :: id in t ==> id in t' && KeepsProfile(t[id], t'[id])
  {
    if ops != [] {
      var front := ops[..|ops| - 1];
      forall i | 0 <= i < |front| ensures ReadsCurrent(RunSignIns(t, front[..i], adminEmail), front[i]) {
        assert front[..i] == ops[..i] && front[i] == ops[i];
      }
      ProfilesAreKept(t, front, adminEmail);
      AccountsAreStable(t, front, adminEmail);
      CurrentReadKeepsProfiles(RunSignIns(t, front, adminEmail), ops[|front|], adminEmail);
    }
  }

  // ---------- The strategies ----------

  class ProviderStrategy {
    const provider: Provider
    const adminEmail: Option<string>
    var users: Table

    constructor (provider: Provider, adminEmail: Option<string>, users: Table)
      ensures this.provider == provider && this.adminEmail == adminEmail && this.users == users
    {
      this.provider, this.adminEmail, this.users := provider, adminEmail, users;
    }

    /** An UPDATE or INSERT of one row; the unique columns may refuse it. */
    method Store(row: User) returns (ok: bool)
      modifies this
      ensures ok <==> Consistent(old(users)[row.id := row])
      ensures users == if ok then old(users)[row.id := row] else old(users)
    {
      var next := users[row.id := row];
      ok := Consistent(next);
      if ok {
        users := next;
      }
    }

    /** `meanwhile` is the table as other requests have left it by the time of the write. */
    method LoginOrRegister(profile: Profile, meanwhile: Table, newId: UserId, throwaway: string)
      returns (r: Result, ghost found: Option<User>)
      requires Consistent(users) && Consistent(meanwhile) && newId !in meanwhile
      modifies this
      ensures CanFind(old(users), provider, profile, found)
      ensures (users, r) == Login(provider, meanwhile, found, profile, newId, throwaway, adminEmail)
      ensures Consistent(users) && (r.LoggedIn? ==> SignedIn(provider, meanwhile, users, profile.providerId, r.claims))
    {
      var existing: Option<User> := None;
      if id :| id in users && Matches(users[id], provider, profile) {
        existing := Some(users[id]);
      }
      found := existing;
      LoginKeepsIdentity(provider, meanwhile, found, profile, newId, throwaway, adminEmail);
      users := meanwhile;

      if existing.Some? {
        var read := existing.value;
        if read.id !in users {
          return Failed, found;
        }
        var row := WithProviderId(users[read.id], provider, profile.providerId);
        row := row.(name := Else(read.name, Some(profile.name)), avatarUrl := Else(read.avatarUrl, profile.avatarUrl));
        var ok := Store(row);
        return if ok then LoggedIn(ToJwtPayload(row)) else Failed, found;
      }
      var role := if adminEmail == Some(profile.email) then Admin else Member;
      var row := User(newId, profile.email, throwaway, Some(profile.name), None, profile.avatarUrl,
                      None, None, false, role);
      row := WithProviderId(row, provider, profile.providerId);
      var ok := Store(row);
      if !ok {
        return InsertFailed(provider, Collision), found;
      }
      return LoggedIn(ToJwtPayload(row)), found;
    }

    method LinkToExistingUser(userId: UserId, providerId: string, avatarUrl: Option<string>, meanwhile: Table)
      returns (r: Result, ghost holder: Option<User>, ghost current: Option<User>)
      requires Consistent(users) && Consistent(meanwhile)
      modifies this
      ensures CanHold(old(users), provider, providerId, holder)
      ensures current == if userId in old(users) then Some(old(users)[userId]) else None
      ensures (users, r) == Link(provider, meanwhile, holder, current, userId, providerId, avatarUrl)
      ensures Consistent(users) && (r.LoggedIn? ==> SignedIn(provider, meanwhile, users, providerId, r.claims))
    {
      var conflicting: Option<User> := None;
      if id :| id in users && ProviderId(users[id], provider) == Some(providerId) {
        conflicting := Some(users[id]);
      }
      var currentUser := if userId in users then Some(users[userId]) else None;
      holder, current := conflicting, currentUser;
      LinkKeepsIdentity(provider, meanwhile, holder, current, userId, providerId, avatarUrl);
      users := meanwhile;

      if conflicting.Some? && conflicting.value.id != userId {
        return AlreadyLinked, holder, current;
      }
      if currentUser.None? {
        return UserNotFound, holder, current;
      }
      if userId !in users {
        return Failed, holder, current;
      }
      var row := WithProviderId(users[userId], provider, providerId);
      row := row.(avatarUrl := Else(currentUser.value.avatarUrl, avatarUrl));
      var ok := Store(row);
      return if ok then LoggedIn(ToJwtPayload(row)) else Failed, holder, current;
    }
  }
}
