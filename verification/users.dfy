/** Staff account administration: listing, reading, updating, deleting and
    creating users, each reserved to administrators. A user is a login at
    the identity provider plus a profile row in `users`. */
module Users {
  import opened Base
  import opened Http
  import opened Lists
  import opened Pagination
  import Schemas

  /** The roles a profile may have. */
  const AllowedRoles: set<string> := {"admin", "doctor", "nurse"}

  const ForbiddenMessage := "Forbidden"
  const UserNotFound := "User not found"
  const FetchFailed := "Failed to fetch users"
  const InvalidRole := "role must be one of admin, doctor, nurse"
  const CreateAccountFailed := "Failed to create user account"
  const ProvisionFailed := "Failed to provision user profile"
  const DeleteFailed := "Failed to delete user"

  /** A row of `users`; `createdAt` orders the listing. */
  datatype UserRow = UserRow(
    id: Id,
    authUserId: Id,
    staffId: Option<string>,
    role: Option<string>,
    hospitalId: Option<Id>,
    createdAt: int)

  /** A login at the identity provider. */
  datatype Account = Account(email: Option<string>, password: Option<string>,
                             firstName: Option<string>, lastName: Option<string>)

  /** Profiles by row id, logins by auth-user id. */
  datatype Store = Store(profiles: map<Id, UserRow>, accounts: map<Id, Account>)

  /** A profile with the login details looked up for it (`null` when the
      login is gone or has no value). */
  datatype UserView = UserView(row: UserRow, email: Option<string>, firstName: Option<string>, lastName: Option<string>)

  /** `actor?.role !== 'admin'`: a missing actor is not an administrator. */
  predicate IsAdmin(actorRole: Option<string>) {
    actorRole == Some("admin")
  }

  function NonEmpty(s: Option<string>): Option<string> {
    if Present(s) then s else None
  }

  function View(st: Store, row: UserRow): (v: UserView)
    ensures v.row == row
    ensures row.authUserId !in st.accounts ==> v.email.None? && v.firstName.None? && v.lastName.None?
  {
    if row.authUserId in st.accounts then
      var a := st.accounts[row.authUserId];
      UserView(row, NonEmpty(a.email), NonEmpty(a.firstName), NonEmpty(a.lastName))
    else UserView(row, None, None, None)
  }

  datatype UserPage = UserPage(data: seq<UserView>, page: int, limit: int, total: nat, totalPages: nat)

  function CreatedAt(r: UserRow): int {
    r.createdAt
  }

  /** The rows `listUsers` selects: the role and hospital filters, each
      applied only when given, newest first. */
  function Selected(rows: seq<UserRow>, role: Option<string>, hospitalId: Option<Id>): seq<UserRow> {
    SortDesc(Narrowed(rows, role, hospitalId), CreatedAt)
  }

  /** The rows that pass the role and hospital filters, in table order. */
  function Narrowed(rows: seq<UserRow>, role: Option<string>, hospitalId: Option<Id>): seq<UserRow> {
    var byRole := if Present(role) then Filter(rows, (r: UserRow) => r.role == role) else rows;
    if Present(hospitalId) then Filter(byRole, (r: UserRow) => SqlEq(r.hospitalId, hospitalId)) else byRole
  }

  predicate Wanted(u: UserRow, role: Option<string>, hospitalId: Option<Id>) {
    && (Present(role) ==> u.role == role)
    && (Present(hospitalId) ==> SqlEq(u.hospitalId, hospitalId))
  }

  lemma NarrowedMembers(rows: seq<UserRow>, role: Option<string>, hospitalId: Option<Id>)
    ensures forall u :: u in Narrowed(rows, role, hospitalId) ==> u in rows && Wanted(u, role, hospitalId)
    ensures forall u :: u in rows && Wanted(u, role, hospitalId) ==> u in Narrowed(rows, role, hospitalId)
  {
    var byRole := if Present(role) then Filter(rows, (r: UserRow) => r.role == role) else rows;
    if Present(role) {
      FilterMembers(rows, (r: UserRow) => r.role == role);
    }
    if Present(hospitalId) {
      FilterMembers(byRole, (r: UserRow) => SqlEq(r.hospitalId, hospitalId));
    }
  }

  /** One page of the selection `sel`, starting at `offset`. */
  function ListPage(st: Store, sel: seq<UserRow>, pg: int, lim: int, offset: nat): (p: UserPage)
    requires lim >= 1
    ensures |p.data| <= lim
    ensures forall i :: 0 <= i < |p.data| ==> offset + i < |sel| && p.data[i] == View(st, sel[offset + i])
    ensures p.total == |sel| && p.totalPages == CeilDiv(|sel|, lim) && p.page == pg && p.limit == lim
  {
    UserPage(Map(Window(sel, offset, lim), (u: UserRow) => View(st, u)), pg, lim, |sel|, CeilDiv(|sel|, lim))
  }

  /** `listUsers`; omitted `page` and `limit` are 1 and 20. */
  function ListUsers(actorRole: Option<string>, st: Store, rows: seq<UserRow>, page: Option<int>, limit: Option<int>,
                     role: Option<string>, hospitalId: Option<Id>): (r: Reply<UserPage>)
    ensures !IsAdmin(actorRole) ==> r == Fail(Forbidden, ForbiddenMessage)
    ensures IsAdmin(actorRole) ==>
      var pg := page.GetOr(1);
      var lim := limit.GetOr(20);
      var offset := (pg - 1) * lim;
      var sel := Selected(rows, role, hospitalId);
      && (offset < 0 || lim < 1 ==> r == Fail(InternalError, FetchFailed))
      && (offset >= 0 && lim >= 1 ==>
            (&& r.Ok?
             && |r.value.data| <= lim
             && (forall i :: 0 <= i < |r.value.data| ==> offset + i < |sel| && r.value.data[i] == View(st, sel[offset + i]))
             && r.value.total == |sel|
             && r.value.totalPages == CeilDiv(|sel|, lim)
             && r.value.page == pg && r.value.limit == lim))
  {
    if !IsAdmin(actorRole) then Fail(Forbidden, ForbiddenMessage)
    else
      var pg := page.GetOr(1);
      var lim := limit.GetOr(20);
      var offset := (pg - 1) * lim;
      if offset < 0 || lim < 1 then Fail(InternalError, FetchFailed)
      else Ok(OkStatus, ListPage(st, Selected(rows, role, hospitalId), pg, lim, offset))
  }

  /** A listed user matches both filters, and every matching user is on
      some page: the pages of the listing cover the selection exactly. */
  lemma ListedUsersMatch(rows: seq<UserRow>, role: Option<string>, hospitalId: Option<Id>)
    ensures forall u :: u in Selected(rows, role, hospitalId) <==>
      (&& u in rows
       && (Present(role) ==> u.role == role)
       && (Present(hospitalId) ==> SqlEq(u.hospitalId, hospitalId)))
    ensures SortedDesc(Selected(rows, role, hospitalId), CreatedAt)
  {
    var narrowed := Narrowed(rows, role, hospitalId);
    NarrowedMembers(rows, role, hospitalId);
    var sel := SortDesc(narrowed, CreatedAt);
    forall u ensures u in sel <==> u in narrowed {
      assert u in sel <==> u in multiset(sel);
    }
  }

  /** `getUserById`. */
  function GetUserById(actorRole: Option<string>, st: Store, userId: Id): (r: Reply<UserView>)
    ensures !IsAdmin(actorRole) ==> r == Fail(Forbidden, ForbiddenMessage)
    ensures IsAdmin(actorRole) && userId !in st.profiles ==> r == Fail(NotFound, UserNotFound)
    ensures r.Ok? <==> IsAdmin(actorRole) && userId in st.profiles
    ensures r.Ok? ==> r.value.row == st.profiles[userId]
  {
    if !IsAdmin(actorRole) then Fail(Forbidden, ForbiddenMessage)
    else if userId !in st.profiles then Fail(NotFound, UserNotFound)
    else Ok(OkStatus, View(st, st.profiles[userId]))
  }

  /** The fields of an update request; anything else in it is ignored. */
  datatype UserUpdates = UserUpdates(
    role: Option<string>,
    hospitalId: Option<Id>,
    staffId: Option<string>,
    email: Option<string>,
    password: Option<string>,
    firstName: Option<string>,
    lastName: Option<string>)

  /** The profile columns an update writes; `None` leaves a column alone. */
  datatype ProfilePatch = ProfilePatch(role: Option<string>, hospitalId: Option<Id>, staffId: Option<string>)

  /** The login changes an update sends; `names` is the new
      `user_metadata`, sent only when a first or last name is given. */
  datatype CredentialPatch = CredentialPatch(email: Option<string>, password: Option<string>,
                                             names: Option<(Option<string>, Option<string>)>)

  function BuildProfilePatch(u: UserUpdates): (p: ProfilePatch)
    ensures p.role.Some? <==> Present(u.role) && u.role.value in AllowedRoles
    ensures p.hospitalId.Some? <==> Present(u.hospitalId)
    ensures p.staffId.Some? <==> Present(u.staffId)
    ensures p.role.Some? ==> p.role == u.role
    ensures p.hospitalId.Some? ==> p.hospitalId == u.hospitalId
    ensures p.staffId.Some? ==> p.staffId == u.staffId
  {
    ProfilePatch(
      if Present(u.role) && u.role.value in AllowedRoles then u.role else None,
      NonEmpty(u.hospitalId),
      NonEmpty(u.staffId))
  }

  predicate IsEmptyPatch(p: ProfilePatch) {
    p.role.None? && p.hospitalId.None? && p.staffId.None?
  }

  /** `{ ...row, ...profileUpdates }`. */
  function ApplyPatch(row: UserRow, p: ProfilePatch): UserRow {
    row.(role := if p.role.Some? then p.role else row.role,
         hospitalId := if p.hospitalId.Some? then p.hospitalId else row.hospitalId,
         staffId := if p.staffId.Some? then p.staffId else row.staffId)
  }

  function BuildCredentialPatch(u: UserUpdates): (c: Option<CredentialPatch>)
    ensures c.Some? <==> Present(u.email) || Present(u.password) || Present(u.firstName) || Present(u.lastName)
    ensures c.Some? ==>
      && (c.value.email.Some? <==> Present(u.email))
      && (c.value.password.Some? <==> Present(u.password))
      && (c.value.names.Some? <==> Present(u.firstName) || Present(u.lastName))
      && (c.value.names.Some? ==> c.value.names.value == (u.firstName, u.lastName))
  {
    if Present(u.email) || Present(u.password) || Present(u.firstName) || Present(u.lastName) then
      Some(CredentialPatch(NonEmpty(u.email), NonEmpty(u.password),
        if Present(u.firstName) || Present(u.lastName) then Some((u.firstName, u.lastName)) else None))
    else None
  }

  /** What an accepted update does: the profile write (if any), the login
      update (if any), the audited before and after rows, and the store
      with the profile write applied. */
  datatype UpdateEffect = UpdateEffect(
    profileWrite: Option<ProfilePatch>,
    credentialWrite: Option<CredentialPatch>,
    oldRow: UserRow,
    newRow: UserRow,
    store: Store)

  /** `updateUser`. The login update goes to the identity provider and is
      reported, not applied. */
  function UpdateUser(actorRole: Option<string>, st: Store, userId: Id, u: UserUpdates): (r: Reply<UpdateEffect>)
    ensures !IsAdmin(actorRole) ==> r == Fail(Forbidden, ForbiddenMessage)
    ensures IsAdmin(actorRole) && userId !in st.profiles ==> r == Fail(NotFound, UserNotFound)
    ensures r.Ok? <==> IsAdmin(actorRole) && userId in st.profiles
    ensures r.Ok? ==>
      var e := r.value;
      var p := BuildProfilePatch(u);
      && (e.profileWrite.None? <==> IsEmptyPatch(p))
      && (e.profileWrite.Some? ==> e.profileWrite.value == p)
      && e.credentialWrite == BuildCredentialPatch(u)
      && e.oldRow == st.profiles[userId]
      && e.newRow == ApplyPatch(e.oldRow, p)
      && e.store == st.(profiles := st.profiles[userId := e.newRow])
  {
    if !IsAdmin(actorRole) then Fail(Forbidden, ForbiddenMessage)
    else if userId !in st.profiles then Fail(NotFound, UserNotFound)
    else
      var current := st.profiles[userId];
      var p := BuildProfilePatch(u);
      var updated := ApplyPatch(current, p);
      Ok(OkStatus, UpdateEffect(
        if IsEmptyPatch(p) then None else Some(p),
        BuildCredentialPatch(u),
        current,
        updated,
        st.(profiles := st.profiles[userId := updated])))
  }

  /** The audited new row is the old row overridden by exactly the profile
      updates: a disallowed role, an empty hospital or an empty staff id
      leaves the old value, and with nothing to write the row is
      unchanged. */
  lemma UpdateChangesOnlyPatchedColumns(actorRole: Option<string>, st: Store, userId: Id, u: UserUpdates)
    requires UpdateUser(actorRole, st, userId, u).Ok?
    ensures var e := UpdateUser(actorRole, st, userId, u).value;
      && e.newRow.id == e.oldRow.id && e.newRow.authUserId == e.oldRow.authUserId
      && e.newRow.createdAt == e.oldRow.createdAt
      && (e.newRow.role == if Present(u.role) && u.role.value in AllowedRoles then u.role else e.oldRow.role)
      && (e.newRow.hospitalId == if Present(u.hospitalId) then u.hospitalId else e.oldRow.hospitalId)
      && (e.newRow.staffId == if Present(u.staffId) then u.staffId else e.oldRow.staffId)
      && (e.profileWrite.None? ==> e.store == st)
  {
    var e := UpdateUser(actorRole, st, userId, u).value;
    if e.profileWrite.None? {
      assert e.newRow == e.oldRow;
      assert st.profiles[userId := e.oldRow] == st.profiles;
    }
  }

  /** Applying the same update twice is applying it once. */
  lemma UpdateIsIdempotent(actorRole: Option<string>, st: Store, userId: Id, u: UserUpdates)
    requires UpdateUser(actorRole, st, userId, u).Ok?
    ensures var st2 := UpdateUser(actorRole, st, userId, u).value.store;
      UpdateUser(actorRole, st2, userId, u).value.store == st2
  {
    var st2 := UpdateUser(actorRole, st, userId, u).value.store;
    var p := BuildProfilePatch(u);
    assert ApplyPatch(st2.profiles[userId], p) == st2.profiles[userId];
    assert st2.profiles[userId := st2.profiles[userId]] == st2.profiles;
  }

  /** `deleteUser`: the login goes first and then the profile. A login the
      identity provider does not have cannot be deleted, and the profile is
      then kept. */
  function DeleteUser(actorRole: Option<string>, st: Store, userId: Id): (r: Reply<Store>)
    ensures !IsAdmin(actorRole) ==> r == Fail(Forbidden, ForbiddenMessage)
    ensures IsAdmin(actorRole) && userId !in st.profiles ==> r == Fail(NotFound, UserNotFound)
    ensures IsAdmin(actorRole) && userId in st.profiles && st.profiles[userId].authUserId !in st.accounts
      ==> r == Fail(InternalError, DeleteFailed)
    ensures r.Ok? <==> IsAdmin(actorRole) && userId in st.profiles && st.profiles[userId].authUserId in st.accounts
    ensures r.Ok? ==>
      && r.value.profiles == st.profiles - {userId}
      && r.value.accounts == st.accounts - {st.profiles[userId].authUserId}
  {
    if !IsAdmin(actorRole) then Fail(Forbidden, ForbiddenMessage)
    else if userId !in st.profiles then Fail(NotFound, UserNotFound)
    else if st.profiles[userId].authUserId !in st.accounts then Fail(InternalError, DeleteFailed)
    else
      var authId := st.profiles[userId].authUserId;
      Ok(OkStatus, Store(st.profiles - {userId}, st.accounts - {authId}))
  }

  /** A new staff member's details. */
  datatype NewUser = NewUser(
    email: Option<string>,
    password: Option<string>,
    role: Option<string>,
    hospitalId: Option<Id>,
    staffId: Option<string>,
    firstName: Option<string>,
    lastName: Option<string>)

  /** What the outside world decides during a creation: whether the
      identity provider creates the login, whether the database accepts the
      profile row, whether the provider deletes the login again when asked
      to clean up, and the ids and timestamp they assign. */
  datatype Provisioning = Provisioning(loginCreated: bool, profileInserted: bool, cleanupDeleted: bool,
                                       authUserId: Id, rowId: Id, createdAt: int)

  /** The writes `createUserWithProfile` makes, in order. */
  datatype Step = CreateLogin(authUserId: Id, login: Account) | InsertProfile(row: UserRow) | DeleteLogin(authUserId: Id)

  datatype Provisioned = Provisioned(store: Store, profile: UserRow)

  /** `createUserWithProfile`, with the writes it makes. The cleanup
      delete's result is ignored: a delete the provider refuses writes
      nothing and the error is passed on all the same. */
  function CreateUserWithProfile(actorRole: Option<string>, st: Store, n: NewUser, w: Provisioning)
    : (r: (Reply<Provisioned>, seq<Step>))
    requires w.authUserId !in st.accounts && w.rowId !in st.profiles
    ensures !IsAdmin(actorRole) ==> r == (Fail(Forbidden, ForbiddenMessage), [])
    ensures IsAdmin(actorRole) && !(n.role.Some? && n.role.value in AllowedRoles) ==> r == (Fail(BadRequest, InvalidRole), [])
    ensures r.0.Ok? <==> IsAdmin(actorRole) && n.role.Some? && n.role.value in AllowedRoles && w.loginCreated && w.profileInserted
    ensures r.0.Ok? ==>
      && r.0.status == Created
      && r.0.value.store.profiles == st.profiles[w.rowId := r.0.value.profile]
      && w.authUserId in r.0.value.store.accounts
      && r.0.value.store.accounts - {w.authUserId} == st.accounts
      && r.0.value.profile == UserRow(w.rowId, w.authUserId, n.staffId, n.role, n.hospitalId, w.createdAt)
    ensures IsAdmin(actorRole) && n.role.Some? && n.role.value in AllowedRoles && !w.loginCreated
      ==> r == (Fail(InternalError, CreateAccountFailed), [])
    // a login whose profile cannot be stored is deleted again, if the provider agrees, before the error is passed on
    ensures IsAdmin(actorRole) && n.role.Some? && n.role.value in AllowedRoles && w.loginCreated && !w.profileInserted
      ==> && r.0 == Fail(InternalError, ProvisionFailed)
          && |r.1| >= 1 && r.1[..1] == [CreateLogin(w.authUserId, Account(n.email, n.password, n.firstName, n.lastName))]
          && r.1[1..] == (if w.cleanupDeleted then [DeleteLogin(w.authUserId)] else [])
  {
    if !IsAdmin(actorRole) then (Fail(Forbidden, ForbiddenMessage), [])
    else if !(n.role.Some? && n.role.value in AllowedRoles) then (Fail(BadRequest, InvalidRole), [])
    else if !w.loginCreated then (Fail(InternalError, CreateAccountFailed), [])
    else
      var login := Account(n.email, n.password, n.firstName, n.lastName);
      if !w.profileInserted then
        (Fail(InternalError, ProvisionFailed),
         [CreateLogin(w.authUserId, login)] + (if w.cleanupDeleted then [DeleteLogin(w.authUserId)] else []))
      else
        var row := UserRow(w.rowId, w.authUserId, n.staffId, n.role, n.hospitalId, w.createdAt);
        (Ok(Created, Provisioned(Store(st.profiles[w.rowId := row], st.accounts[w.authUserId := login]), row)),
         [CreateLogin(w.authUserId, login), InsertProfile(row)])
  }

  /** Performs writes on the store in order. */
  function Replay(st: Store, steps: seq<Step>): Store
    decreases |steps|
  {
    if steps == [] then st
    else
      var next := match steps[0]
        case CreateLogin(a, login) => st.(accounts := st.accounts[a := login])
        case InsertProfile(row) => st.(profiles := st.profiles[row.id := row])
        case DeleteLogin(a) => st.(accounts := st.accounts - {a});
      Replay(next, steps[1..])
  }

  /** Creation is all or nothing as long as the cleanup works: its writes
      lead to the new store on success and back to the old store on every
      failure, except that a login whose profile could not be stored and
      that the provider refused to delete stays behind without a profile. */
  lemma {:induction false} CreationIsAllOrNothingUnlessCleanupFails(actorRole: Option<string>, st: Store, n: NewUser,
                                                                    w: Provisioning)
    requires w.authUserId !in st.accounts && w.rowId !in st.profiles
    ensures var (reply, steps) := CreateUserWithProfile(actorRole, st, n, w);
      var orphaned := reply.Fail? && w.loginCreated && !w.profileInserted && !w.cleanupDeleted
                      && reply == Fail(InternalError, ProvisionFailed);
      && (reply.Ok? ==> Replay(st, steps) == reply.value.store)
      && (reply.Fail? && !orphaned ==> Replay(st, steps) == st)
      && (orphaned ==>
            && Replay(st, steps).profiles == st.profiles
            && Replay(st, steps).accounts == st.accounts[w.authUserId := Account(n.email, n.password, n.firstName, n.lastName)])
  {
    var (reply, steps) := CreateUserWithProfile(actorRole, st, n, w);
    if IsAdmin(actorRole) && n.role.Some? && n.role.value in AllowedRoles && w.loginCreated {
      var login := Account(n.email, n.password, n.firstName, n.lastName);
      var s1 := st.(accounts := st.accounts[w.authUserId := login]);
      assert Replay(st, steps) == Replay(s1, steps[1..]);
      if w.profileInserted {
        var row := UserRow(w.rowId, w.authUserId, n.staffId, n.role, n.hospitalId, w.createdAt);
        assert steps[1..] == [InsertProfile(row)];
        assert Replay(s1, steps[1..]) == Replay(s1.(profiles := st.profiles[w.rowId := row]), []);
      } else if w.cleanupDeleted {
        assert steps[1..] == [DeleteLogin(w.authUserId)];
        assert Replay(s1, steps[1..]) == Replay(s1.(accounts := s1.accounts - {w.authUserId}), []);
        assert s1.accounts - {w.authUserId} == st.accounts;
      } else {
        assert steps[1..] == [];
      }
    }
  }

  /** The service's roles are exactly the ones the request schema
      admits. */
  lemma RolesAgreeWithSchema()
    ensures forall r :: r in AllowedRoles <==> r in Schemas.UserRoles
  {
  }
}
