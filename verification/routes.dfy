/** The referral router: for each referral action, the middleware chain in
    front of its handler (authentication, the role gate, and for creation
    and completion the body schema), and what a request meets on its way
    through it. */
module ReferralRoutes {
  import opened Base
  import opened Json
  import opened Http
  import opened Auth
  import opened Roles
  import opened Schema
  import opened Schemas
  import opened Middleware

  datatype Route = ListRoute | GetRoute | CreateRoute | AcceptRoute | RejectRoute | CompleteRoute | CancelRoute

  datatype Stage = Authenticate | RoleGate(roles: seq<string>) | ValidateBody(schema: Rule) | Handle

  const Everyone := [Admin, Doctor, Nurse]
  const Clinicians := [Admin, Doctor]

  /** The chain registered for each route. */
  function Pipeline(r: Route): seq<Stage> {
    match r
    case ListRoute => [Authenticate, RoleGate(Everyone), Handle]
    case GetRoute => [Authenticate, RoleGate(Everyone), Handle]
    case CreateRoute => [Authenticate, RoleGate(Clinicians), ValidateBody(CreateReferralSchema), Handle]
    case AcceptRoute => [Authenticate, RoleGate(Clinicians), Handle]
    case RejectRoute => [Authenticate, RoleGate(Clinicians), Handle]
    case CompleteRoute => [Authenticate, RoleGate(Everyone), ValidateBody(CompleteReferralSchema), Handle]
    case CancelRoute => [Authenticate, RoleGate(Clinicians), Handle]
  }

  /** The roles a route admits. */
  function AllowedRoles(r: Route): set<string> {
    if r == ListRoute || r == GetRoute || r == CompleteRoute then {Admin, Doctor, Nurse} else {Admin, Doctor}
  }

  /** The schema a route checks its body against, if any. */
  function BodySchema(r: Route): Option<Rule> {
    match r
    case CreateRoute => Some(CreateReferralSchema)
    case CompleteRoute => Some(CompleteReferralSchema)
    case _ => None
  }

  /** Where a request ends: answered by a middleware, or handed to the
      handler with `req.auth` and the (validated) request properties. */
  datatype Outcome =
    | Stopped(status: int, message: string, details: Option<Details>)
    | Reached(auth: Option<AuthContext>, req: map<string, Json>)

  /** The identity provider's view of the world and the profile table, as
      `requireAuth` consults them. */
  datatype Directory = Directory(sessions: map<string, AuthUser>, profiles: map<Id, Profile>)

  /** Runs the stages in order; each either answers or passes on. */
  function RunStages(f: Formats, stages: seq<Stage>, authorization: Option<string>, dir: Directory,
                     auth: Option<AuthContext>, req: map<string, Json>): Outcome
    decreases |stages|
  {
    if |stages| == 0 then Stopped(NotFound, NotFoundMessage, None)
    else
      match stages[0]
      case Authenticate =>
        (match RequireAuth(authorization, dir.sessions, dir.profiles)
         case Denied(s, m) => Stopped(s, m, None)
         case Authenticated(ctx) => RunStages(f, stages[1..], authorization, dir, Some(ctx), req))
      case RoleGate(roles) =>
        (match RequireRole(roles, if auth.Some? then auth.value.role else None)
         case Refuse(s, m) => Stopped(s, m, None)
         case Pass => RunStages(f, stages[1..], authorization, dir, auth, req))
      case ValidateBody(schema) =>
        var (req2, err) := Validate(f, schema, None, req);
        if err.Some? then
          var resp := ErrorHandler(err.value, None).1;
          Stopped(resp.status, resp.error, resp.details)
        else RunStages(f, stages[1..], authorization, dir, auth, req2)
      case Handle => Reached(auth, req)
  }

  /** A request to `route` with the given `Authorization` header and
      request properties. */
  function Dispatch(f: Formats, route: Route, authorization: Option<string>, dir: Directory,
                    req: map<string, Json>): (o: Outcome)
    // authentication comes first, whatever the route and body
    ensures RequireAuth(authorization, dir.sessions, dir.profiles).Denied? ==>
      var d := RequireAuth(authorization, dir.sessions, dir.profiles);
      o == Stopped(d.status, d.message, None)
    // then the role gate
    ensures RequireAuth(authorization, dir.sessions, dir.profiles).Authenticated? ==>
      var ctx := RequireAuth(authorization, dir.sessions, dir.profiles).ctx;
      && (!Present(ctx.role) ==> o == Stopped(Unauthorized, "Unauthenticated", None))
      && (Present(ctx.role) && ctx.role.value !in AllowedRoles(route) ==> o == Stopped(Forbidden, "Forbidden", None))
      // then, only on creation and completion, the body
      && (Present(ctx.role) && ctx.role.value in AllowedRoles(route) ==>
            (&& (BodySchema(route).None? ==> o == Reached(Some(ctx), req))
             && (BodySchema(route).Some? ==>
                   var p := Parse(f, BodySchema(route).value, Get(req, DefaultProperty));
                   && (p.Reject? ==> o == Stopped(BadRequest, ValidationError, Some(Flat(p.details))))
                   && (p.Accept? ==> o == Reached(Some(ctx), Validate(f, BodySchema(route).value, None, req).0)))))
  {
    match RequireAuth(authorization, dir.sessions, dir.profiles)
    case Denied(s, m) => Stopped(s, m, None)
    case Authenticated(ctx) =>
      match RequireRole(Pipeline(route)[1].roles, ctx.role)
      case Refuse(s, m) => Stopped(s, m, None)
      case Pass =>
        match BodySchema(route)
        case None => Reached(Some(ctx), req)
        case Some(schema) =>
          var (req2, err) := Validate(f, schema, None, req);
          if err.Some? then
            var resp := ErrorHandler(err.value, None).1;
            Stopped(resp.status, resp.error, resp.details)
          else Reached(Some(ctx), req2)
  }

  /** `Dispatch` is what running the route's registered chain stage by stage
      produces. */
  lemma DispatchRunsPipeline(f: Formats, route: Route, authorization: Option<string>, dir: Directory,
                             req: map<string, Json>)
    ensures Dispatch(f, route, authorization, dir, req) == RunStages(f, Pipeline(route), authorization, dir, None, req)
  {
    var p := Pipeline(route);
    var a := RequireAuth(authorization, dir.sessions, dir.profiles);
    if a.Authenticated? {
      var ctx := a.ctx;
      assert RunStages(f, p, authorization, dir, None, req) == RunStages(f, p[1..], authorization, dir, Some(ctx), req);
      if RequireRole(p[1].roles, ctx.role).Pass? {
        assert RunStages(f, p[1..], authorization, dir, Some(ctx), req) == RunStages(f, p[2..], authorization, dir, Some(ctx), req);
        if BodySchema(route).Some? {
          assert p[2] == ValidateBody(BodySchema(route).value);
          var (req2, err) := Validate(f, BodySchema(route).value, None, req);
          if err.None? {
            assert p[2..][0] == p[2] && p[2..][1..] == p[3..];
            assert RunStages(f, p[2..], authorization, dir, Some(ctx), req)
                == RunStages(f, p[3..], authorization, dir, Some(ctx), req2);
            assert p[3..] == [Handle];
          }
        } else {
          assert p[2..] == [Handle];
        }
      }
    }
  }

  /** Nurses may list, read and complete referrals, and nothing else: on
      creation, acceptance, rejection and cancellation they get 403 before
      the body is looked at. */
  lemma NurseRouteMatrix(f: Formats, route: Route, authorization: Option<string>, dir: Directory,
                         req: map<string, Json>)
    requires RequireAuth(authorization, dir.sessions, dir.profiles).Authenticated?
    requires RequireAuth(authorization, dir.sessions, dir.profiles).ctx.role == Some(Nurse)
    ensures route in {ListRoute, GetRoute} ==> Dispatch(f, route, authorization, dir, req).Reached?
    ensures route in {CreateRoute, AcceptRoute, RejectRoute, CancelRoute} ==>
      Dispatch(f, route, authorization, dir, req) == Stopped(Forbidden, "Forbidden", None)
    ensures Dispatch(f, route, authorization, dir, req).Reached? ==> route in {ListRoute, GetRoute, CompleteRoute}
  {
  }

  /** Admins and doctors pass the role gate of every referral route. */
  lemma CliniciansPassEveryGate(route: Route)
    ensures Admin in AllowedRoles(route) && Doctor in AllowedRoles(route)
    ensures Nurse in AllowedRoles(route) <==> route in {ListRoute, GetRoute, CompleteRoute}
  {
  }

  /** Every chain is authentication, then the role gate, then at most one
      validation, then the handler. */
  lemma MiddlewareOrder(route: Route)
    ensures var p := Pipeline(route);
      && 3 <= |p| <= 4
      && p[0] == Authenticate && p[1].RoleGate? && p[|p| - 1] == Handle
      && (|p| == 4 <==> BodySchema(route).Some?)
      && (|p| == 4 ==> p[2] == ValidateBody(BodySchema(route).value))
      && (forall r :: r in p[1].roles <==> r in AllowedRoles(route))
  {
  }
}
