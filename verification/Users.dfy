/** The users table of src/database/schema.ts and the claims built from a row. */
module Users {
  import opened Options

  type UserId = nat

  datatype Provider = Google | Github

  datatype Role = Member | Admin

  datatype User = User(id: UserId, email: string, passwordHash: string,
                       name: Option<string>, displayName: Option<string>, avatarUrl: Option<string>,
                       githubId: Option<string>, googleId: Option<string>, isBanned: bool, role: Role)

  type Table = map<UserId, User>

  /** The primary key and the three unique columns; NULLs never collide. */
  predicate Consistent(t: Table) {
    && (forall id :: id in t ==> t[id].id == id)
    && (forall a, b :: a in t && b in t && t[a].email == t[b].email ==> a == b)
    && (forall a, b :: a in t && b in t && t[a].githubId.Some? && t[a].githubId == t[b].githubId ==> a == b)
    && (forall a, b :: a in t && b in t && t[a].googleId.Some? && t[a].googleId == t[b].googleId ==> a == b)
  }

  datatype JwtPayload = JwtPayload(sub: UserId, email: string, role: Role,
                                   name: Option<string>, avatarUrl: Option<string>)

  /** The claims are those of the row, each of the five; in particular the role is neither more nor less. */
  ghost predicate ClaimsOf(claims: JwtPayload, u: User) {
    && claims.sub == u.id && claims.email == u.email && claims.role == u.role
    && claims.name == u.name && claims.avatarUrl == u.avatarUrl
  }

  function ToJwtPayload(u: User): JwtPayload {
    JwtPayload(u.id, u.email, u.role, u.name, u.avatarUrl)
  }
}
