/** Authentication middleware (`requireAuth`): the bearer token is taken
    from the `Authorization` header, resolved to a signed-in user, and the
    user's profile row supplies role and hospital. */
module Auth {
  import opened Base
  import Http

  /** Index of the first `c` in `s`, or `|s|` when there is none. */
  function IndexOf(s: string, c: char): (i: nat)
    ensures i <= |s| && c !in s[..i]
    ensures i < |s| ==> s[i] == c
  {
    if s == [] then 0
    else if s[0] == c then 0
    else
      var i := 1 + IndexOf(s[1..], c);
      assert s[..i] == [s[0]] + s[1..][..i - 1];
      i
  }

  /** `s.split(c)` for a one-character separator. */
  function Split(s: string, c: char): (parts: seq<string>)
    ensures |parts| >= 1
    ensures parts[0] == s[..IndexOf(s, c)]
    decreases |s|
  {
    var i := IndexOf(s, c);
    if i == |s| then [s] else [s[..i]] + Split(s[i + 1..], c)
  }

  const Scheme := "Bearer"

  /** `const [scheme, token] = (authorization || '').split(' ')`; the token
      counts only when the scheme is exactly `Bearer` and the second piece
      is non-empty. */
  function ParseBearerToken(authorization: Option<string>): Option<string> {
    var header := authorization.GetOr("");
    var parts := Split(header, ' ');
    if parts[0] != Scheme || |parts| < 2 || parts[1] == "" then None
    else Some(parts[1])
  }

  /** The header is `Bearer`, one space, then the token `t`, which has no
      space in it and ends the header or is followed by a space. */
  predicate BearerShape(header: string, t: string) {
    && |t| > 0 && ' ' !in t
    && |header| >= 7 + |t|
    && header[..7] == Scheme + " "
    && header[7..7 + |t|] == t
    && (|header| == 7 + |t| || header[7 + |t|] == ' ')
  }

  lemma SplitSecond(s: string, c: char)
    requires IndexOf(s, c) < |s|
    ensures |Split(s, c)| >= 2
    ensures Split(s, c)[1] == s[IndexOf(s, c) + 1..][..IndexOf(s[IndexOf(s, c) + 1..], c)]
  {
  }

  /** `IndexOf` finds exactly the first occurrence. */
  lemma IndexOfIs(s: string, c: char, i: nat)
    requires i <= |s| && c !in s[..i] && (i < |s| ==> s[i] == c)
    ensures IndexOf(s, c) == i
  {
  }

  /** The parser accepts exactly the headers of the documented shape, and
      the token it returns is the one that shape names: `"Bearer "` is
      matched case-sensitively, an empty second piece (`"Bearer "`,
      `"Bearer  x"`) gives no token, and pieces after the second are
      ignored. */
  lemma ParseBearerTokenIff(header: string, t: string)
    ensures ParseBearerToken(Some(header)) == Some(t) <==> BearerShape(header, t)
  {
    var i := IndexOf(header, ' ');
    if BearerShape(header, t) {
      assert header[..6] == Scheme && header[6] == ' ';
      IndexOfIs(header, ' ', 6);
      var rest := header[7..];
      assert rest[..|t|] == t;
      IndexOfIs(rest, ' ', |t|);
      SplitSecond(header, ' ');
    }
    if ParseBearerToken(Some(header)) == Some(t) {
      var parts := Split(header, ' ');
      assert parts[0] == Scheme;
      assert i == 6;
      SplitSecond(header, ' ');
      var rest := header[7..];
      var j := IndexOf(rest, ' ');
      assert t == rest[..j];
      assert header[..7] == Scheme + " " by {
        assert header[..7] == header[..6] + [header[6]];
      }
      assert header[7..7 + |t|] == t;
    }
  }

  /** A signed-in user as the identity provider reports it. */
  datatype AuthUser = AuthUser(id: Id, email: Option<string>)

  /** The user's row in the `users` table. */
  datatype Profile = Profile(id: Id, role: Option<string>, hospitalId: Option<Id>, staffId: Option<string>)

  /** What `requireAuth` attaches to the request as `req.auth`. */
  datatype AuthContext = AuthContext(
    token: string,
    user: AuthUser,
    userId: Id,
    role: Option<string>,
    hospitalId: Option<Id>,
    staffId: Option<string>)

  datatype AuthOutcome = Authenticated(ctx: AuthContext) | Denied(status: int, message: string)

  /** `requireAuth`. `sessions` maps each currently valid access token to its
      user (the identity provider's `getUser`), `profiles` maps auth-user ids
      to their profile rows. */
  function RequireAuth(authorization: Option<string>, sessions: map<string, AuthUser>,
                       profiles: map<Id, Profile>): (r: AuthOutcome)
    ensures ParseBearerToken(authorization).None? ==> r == Denied(Http.Unauthorized, "Missing Bearer token")
    ensures var t := ParseBearerToken(authorization);
      t.Some? && t.value !in sessions ==> r == Denied(Http.Unauthorized, "Invalid or expired token")
    ensures var t := ParseBearerToken(authorization);
      t.Some? && t.value in sessions && sessions[t.value].id !in profiles
      ==> r == Denied(Http.Forbidden, "User profile not provisioned")
    ensures r.Authenticated? <==>
      var t := ParseBearerToken(authorization);
      t.Some? && t.value in sessions && sessions[t.value].id in profiles
    ensures r.Authenticated? ==>
      var t := ParseBearerToken(authorization).value;
      var p := profiles[sessions[t].id];
      && r.ctx.token == t && r.ctx.user == sessions[t]
      && r.ctx.userId == p.id && r.ctx.role == p.role
      && r.ctx.hospitalId == p.hospitalId && r.ctx.staffId == p.staffId
  {
    match ParseBearerToken(authorization)
    case None => Denied(Http.Unauthorized, "Missing Bearer token")
    case Some(token) =>
      if token !in sessions then Denied(Http.Unauthorized, "Invalid or expired token")
      else
        var user := sessions[token];
        if user.id !in profiles then Denied(Http.Forbidden, "User profile not provisioned")
        else
          var p := profiles[user.id];
          Authenticated(AuthContext(token, user, p.id, p.role, p.hospitalId, p.staffId))
  }
}

/** Role gate middleware (`requireRole`). */
module Roles {
  import opened Base
  import Http

  const Admin := "admin"
  const Doctor := "doctor"
  const Nurse := "nurse"

  datatype Gate = Pass | Refuse(status: int, message: string)

  /** `requireRole(allowedRoles)` applied to the role on the request: no role
      is 401, a role outside the list is 403, a listed role continues. */
  function RequireRole(allowedRoles: seq<string>, role: Option<string>): (g: Gate)
    ensures !Present(role) ==> g == Refuse(Http.Unauthorized, "Unauthenticated")
    ensures Present(role) && role.value !in allowedRoles ==> g == Refuse(Http.Forbidden, "Forbidden")
    ensures g == Pass <==> Present(role) && role.value in allowedRoles
  {
    if !Present(role) then Refuse(Http.Unauthorized, "Unauthenticated")
    else if role.value !in allowedRoles then Refuse(Http.Forbidden, "Forbidden")
    else Pass
  }

  /** The gate looks only at which roles are listed, not at their order or
      repetitions; an empty list refuses every authenticated role. */
  lemma RoleGateDependsOnlyOnMembership(a: seq<string>, b: seq<string>, role: Option<string>)
    requires forall r :: r in a <==> r in b
    ensures RequireRole(a, role) == RequireRole(b, role)
    ensures Present(role) ==> RequireRole([], role) == Refuse(Http.Forbidden, "Forbidden")
  {
  }
}
