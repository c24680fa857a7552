/** The inter-hospital referral lifecycle (`referralController`,
    `referralService`). A hospital with no free bed refers a patient to
    another hospital; the receiving hospital accepts or rejects, and after
    accepting completes the referral by admitting the patient into one of
    its wards; the sending hospital may cancel until the referral is
    completed. */
module Referrals {
  import opened Base
  import opened Lists
  import opened Ledger
  import opened Http
  import opened Pagination

  datatype Status = Pending | Accepted | Rejected | Completed | Cancelled

  /** The status as stored in the `status` column. */
  function StatusName(s: Status): string {
    match s
    case Pending => "pending"
    case Accepted => "accepted"
    case Rejected => "rejected"
    case Completed => "completed"
    case Cancelled => "cancelled"
  }

  lemma StatusNamesDistinct(a: Status, b: Status)
    ensures StatusName(a) == StatusName(b) ==> a == b
  {
  }

  datatype Referral = Referral(
    id: Id,
    patientId: Id,
    fromHospitalId: Option<Id>,
    fromWardId: Id,
    toHospitalId: Id,
    reason: Option<string>,
    status: Status,
    createdBy: Id)

  /** The tables the referral handlers read and write. */
  datatype State = State(referrals: map<Id, Referral>, patients: map<Id, Patient>, ledger: Db)

  /** The fields of `req.auth` the referral handlers use. */
  datatype Actor = Actor(hospitalId: Option<Id>, role: Option<string>, authUserId: Id)

  /** A handler's answer. A success carries the new state, the referral as
      updated and, for completion, the admission; a refusal carries the
      message and, for a status conflict, `current_status`. */
  datatype Answer =
    | Updated(status: int, state: State, referral: Referral, admission: Option<Admission>)
    | Refused(status: int, message: string, currentStatus: Option<Status>)

  // ---------------------------------------------------------------------
  // The lifecycle as a table

  datatype Action = Accept | Reject | Complete | Cancel

  /** Which side of a referral may perform an action. */
  datatype Side = Sender | Receiver

  function ActingSide(a: Action): Side {
    if a == Cancel then Sender else Receiver
  }

  /** The status an action leads to, or `None` when the action is not
      allowed from `s`. */
  function Next(a: Action, s: Status): Option<Status> {
    match (a, s)
    case (Accept, Pending) => Some(Accepted)
    case (Reject, Pending) => Some(Rejected)
    case (Complete, Accepted) => Some(Completed)
    case (Cancel, Pending) => Some(Cancelled)
    case (Cancel, Accepted) => Some(Cancelled)
    case (Cancel, Rejected) => Some(Cancelled)
    case _ => None
  }

  /** Completed and cancelled are terminal; a rejected referral can only be
      cancelled; every status is reachable from pending. */
  lemma LifecycleShape(a: Action)
    ensures Next(a, Completed).None? && Next(a, Cancelled).None?
    ensures Next(a, Rejected).Some? <==> a == Cancel
    ensures Next(a, Rejected).Some? ==> Next(a, Rejected).value == Cancelled
    ensures Next(Complete, Next(Accept, Pending).value) == Some(Completed)
  {
  }

  /** The actor stands on side `side` of `r`. */
  predicate OnSide(r: Referral, actorHospitalId: Option<Id>, side: Side) {
    match side
    case Sender => r.fromHospitalId == actorHospitalId
    case Receiver => Some(r.toHospitalId) == actorHospitalId
  }

  // ---------------------------------------------------------------------
  // Status transitions

  function ConflictMessage(a: Action, s: Status): string {
    match a
    case Accept => "Cannot accept referral with status '" + StatusName(s) + "'"
    case Reject => "Cannot reject referral with status '" + StatusName(s) + "'"
    case Complete => "Cannot complete referral with status '" + StatusName(s) + "'. Must be 'accepted' first."
    case Cancel =>
      if s == Completed then "Cannot cancel a completed referral" else "Referral is already cancelled"
  }

  function WrongSideMessage(a: Action): string {
    match a
    case Accept => "Only the receiving hospital can accept this referral"
    case Reject => "Only the receiving hospital can reject this referral"
    case Complete => "Only the receiving hospital can complete this referral"
    case Cancel => "Only the sending hospital can cancel this referral"
  }

  const ReferralNotFound := "Referral not found"

  /** The guards every transition handler runs, in order: the referral must
      exist (404), the actor must be on the acting side (403), and the
      action must be allowed from the current status (409, with
      `current_status`). `None` means all guards passed. */
  function Guard(st: State, id: Id, actorHospitalId: Option<Id>, a: Action): (g: Option<Answer>)
    ensures id !in st.referrals ==> g == Some(Refused(NotFound, ReferralNotFound, None))
    ensures id in st.referrals && !OnSide(st.referrals[id], actorHospitalId, ActingSide(a))
      ==> g == Some(Refused(Forbidden, WrongSideMessage(a), None))
    ensures id in st.referrals && OnSide(st.referrals[id], actorHospitalId, ActingSide(a))
      && Next(a, st.referrals[id].status).None?
      ==> g.Some? && g.value.Refused? && g.value.status == Conflict
          && g.value.currentStatus == Some(st.referrals[id].status)
    ensures g.None? <==>
      id in st.referrals && OnSide(st.referrals[id], actorHospitalId, ActingSide(a))
      && Next(a, st.referrals[id].status).Some?
  {
    if id !in st.referrals then Some(Refused(NotFound, ReferralNotFound, None))
    else
      var r := st.referrals[id];
      if !OnSide(r, actorHospitalId, ActingSide(a)) then Some(Refused(Forbidden, WrongSideMessage(a), None))
      else if a == Cancel && r.status == Completed then
        Some(Refused(Conflict, ConflictMessage(a, r.status), Some(r.status)))
      else if a == Cancel && r.status == Cancelled then
        Some(Refused(Conflict, ConflictMessage(a, r.status), Some(r.status)))
      else if a != Cancel && r.status != (if a == Complete then Accepted else Pending) then
        Some(Refused(Conflict, ConflictMessage(a, r.status), Some(r.status)))
      else None
  }

  /** Sets the status of referral `id`, leaving its other fields and every
      other referral as they were. */
  function SetStatus(st: State, id: Id, s: Status): (st': State)
    requires id in st.referrals
    ensures st'.referrals == st.referrals[id := st.referrals[id].(status := s)]
    ensures st'.patients == st.patients && st'.ledger == st.ledger
  {
    st.(referrals := st.referrals[id := st.referrals[id].(status := s)])
  }

  /** `acceptReferral`, `rejectReferral` and `cancelReferral`: the guards,
      then the status update. */
  function Transition(st: State, id: Id, actorHospitalId: Option<Id>, a: Action): (r: Answer)
    requires a != Complete
  {
    match Guard(st, id, actorHospitalId, a)
    case Some(refusal) => refusal
    case None =>
      var s := Next(a, st.referrals[id].status).value;
      var st' := SetStatus(st, id, s);
      Updated(OkStatus, st', st'.referrals[id], None)
  }

  function AcceptReferral(st: State, id: Id, actorHospitalId: Option<Id>): (r: Answer)
    ensures r.Updated? ==> id in st.referrals && st.referrals[id].status == Pending && r.referral.status == Accepted
  {
    Transition(st, id, actorHospitalId, Accept)
  }

  function RejectReferral(st: State, id: Id, actorHospitalId: Option<Id>): (r: Answer)
    ensures r.Updated? ==> id in st.referrals && st.referrals[id].status == Pending && r.referral.status == Rejected
  {
    Transition(st, id, actorHospitalId, Reject)
  }

  function CancelReferral(st: State, id: Id, actorHospitalId: Option<Id>): (r: Answer)
    ensures r.Updated? ==>
      id in st.referrals && st.referrals[id].status in {Pending, Accepted, Rejected} && r.referral.status == Cancelled
  {
    Transition(st, id, actorHospitalId, Cancel)
  }

  /** The accept, reject and cancel handlers follow the table: they succeed
      exactly when the referral exists, the actor is on the acting side and
      the table allows the action; a success changes only that referral's
      status, to the one the table names, with status 200. */
  lemma {:induction false} TransitionFollowsTable(st: State, id: Id, actorHospitalId: Option<Id>, a: Action)
    requires a != Complete
    ensures var r := Transition(st, id, actorHospitalId, a);
      && (r.Updated? <==>
            id in st.referrals && OnSide(st.referrals[id], actorHospitalId, ActingSide(a))
            && Next(a, st.referrals[id].status).Some?)
      && (r.Updated? ==>
            var old_ := st.referrals[id];
            && r.status == OkStatus
            && r.referral == old_.(status := Next(a, old_.status).value)
            && r.state == st.(referrals := st.referrals[id := r.referral])
            && r.admission.None?)
      && ((r.Refused? && id in st.referrals && OnSide(st.referrals[id], actorHospitalId, ActingSide(a)))
          ==> r.status == Conflict && r.currentStatus == Some(st.referrals[id].status))
  {
  }

  /** No handler moves a referral out of completed or cancelled. */
  lemma {:induction false} TerminalStatesStay(st: State, id: Id, actorHospitalId: Option<Id>, a: Action)
    requires a != Complete
    requires id in st.referrals && st.referrals[id].status in {Completed, Cancelled}
    ensures Transition(st, id, actorHospitalId, a).Refused?
  {
    LifecycleShape(a);
    TransitionFollowsTable(st, id, actorHospitalId, a);
  }

  // ---------------------------------------------------------------------
  // Completion: admitting the referred patient

  const WardRequired := "ward_id is required to admit the patient"
  const NoBedsInWard := "No beds available in the selected ward"

  /** The part of `completeReferral` after `create_admission` has run,
      given what the procedure returned: a `NO_BEDS_AVAILABLE` error is a
      409 that leaves the referral accepted, any other error is a 500, and
      a success marks the referral completed. */
  function FinishCompletion(st: State, id: Id, outcome: Proc<Admission>): (r: Answer)
    requires id in st.referrals
    ensures outcome.Raised? && Contains(outcome.code, NoBedsAvailable) ==> r == Refused(Conflict, NoBedsInWard, None)
    ensures outcome.Raised? && !Contains(outcome.code, NoBedsAvailable)
      ==> r == Refused(InternalError, "Failed to create admission", None)
    ensures outcome.Done? ==>
      && r.Updated? && r.status == OkStatus
      && r.referral == st.referrals[id].(status := Completed)
      && r.state == State(st.referrals[id := r.referral], st.patients, outcome.db)
      && r.admission == Some(outcome.value)
  {
    match outcome
    case Raised(code) =>
      if Contains(code, NoBedsAvailable) then Refused(Conflict, NoBedsInWard, None)
      else Refused(InternalError, "Failed to create admission", None)
    case Done(db', admission) =>
      var st' := SetStatus(st, id, Completed).(ledger := db');
      Updated(OkStatus, st', st'.referrals[id], Some(admission))
  }

  /** `completeReferral`. `wardId` is the body's `ward_id`; `newId` is the
      id the database gives the admission. */
  function CompleteReferral(st: State, id: Id, actorHospitalId: Option<Id>, wardId: Option<Id>, newId: Id): (r: Answer)
    ensures !Present(wardId) ==> r == Refused(BadRequest, WardRequired, None)
    ensures Present(wardId) && Guard(st, id, actorHospitalId, Complete).Some?
      ==> r == Guard(st, id, actorHospitalId, Complete).value
    ensures Present(wardId) && Guard(st, id, actorHospitalId, Complete).None? ==>
      var i := WardIndex(st.ledger.wards, wardId.value);
      && (i.None? ==> r == Refused(NotFound, "Ward not found", None))
      && ((i.Some? && Some(st.ledger.wards[i.value].hospitalId) != actorHospitalId)
          ==> r == Refused(Forbidden, "Ward does not belong to your hospital", None))
      && ((i.Some? && Some(st.ledger.wards[i.value].hospitalId) == actorHospitalId
           && st.ledger.wards[i.value].availableBeds <= 0)
          ==> r == Refused(Conflict, NoBedsInWard, None))
      // a referral whose patient row is gone throws on reading the patient's fields
      && ((i.Some? && Some(st.ledger.wards[i.value].hospitalId) == actorHospitalId
           && st.ledger.wards[i.value].availableBeds > 0 && id in st.referrals
           && st.referrals[id].patientId !in st.patients)
          ==> r == Refused(InternalError, "Internal server error", None))
    ensures r.Updated? ==>
      && id in st.referrals && Present(wardId) && st.referrals[id].patientId in st.patients
      && r.state.referrals == st.referrals[id := st.referrals[id].(status := Completed)]
      && r.admission.Some?
      && CreateAdmissionProc(st.ledger, actorHospitalId, wardId.value, st.patients[st.referrals[id].patientId], newId)
         == Done(r.state.ledger, r.admission.value)
  {
    if !Present(wardId) then Refused(BadRequest, WardRequired, None)
    else match Guard(st, id, actorHospitalId, Complete)
      case Some(refusal) => refusal
      case None =>
        match WardIndex(st.ledger.wards, wardId.value)
        case None => Refused(NotFound, "Ward not found", None)
        case Some(i) =>
          var w := st.ledger.wards[i];
          if Some(w.hospitalId) != actorHospitalId then
            Refused(Forbidden, "Ward does not belong to your hospital", None)
          else if w.availableBeds <= 0 then Refused(Conflict, NoBedsInWard, None)
          else
            var referral := st.referrals[id];
            if referral.patientId !in st.patients then
              // `referral.patients` is null and reading its fields throws.
              Refused(InternalError, "Internal server error", None)
            else
              var patient := st.patients[referral.patientId];
              FinishCompletion(st, id, CreateAdmissionProc(st.ledger, actorHospitalId, wardId.value, patient, newId))
  }

  /** Completion follows the table: it can succeed only from accepted, for
      the receiving hospital, and it then yields completed. */
  lemma {:induction false} CompletionFollowsTable(
    st: State, id: Id, actorHospitalId: Option<Id>, wardId: Option<Id>, newId: Id)
    ensures var r := CompleteReferral(st, id, actorHospitalId, wardId, newId);
      r.Updated? ==>
        && OnSide(st.referrals[id], actorHospitalId, Receiver)
        && Next(Complete, st.referrals[id].status) == Some(r.referral.status)
        && r.referral == st.referrals[id].(status := Completed)
  {
  }

  /** A lack of beds that the admission procedure reports is answered with
      409 and no new state, so the referral stays accepted. */
  lemma {:induction false} NoBedsLeavesReferralAccepted(st: State, id: Id)
    requires id in st.referrals && st.referrals[id].status == Accepted
    ensures FinishCompletion(st, id, Raised(NoBedsAvailable)) == Refused(Conflict, NoBedsInWard, None)
  {
    ContainsItself(NoBedsAvailable);
  }

  /** In a consistent ledger the ward check before the procedure is
      exact: once it has passed, the procedure cannot run out of beds, and
      the completed referral's admission has taken one bed from that ward. */
  lemma {:induction false} CompletionAdmitsIntoCheckedWard(
    st: State, id: Id, actorHospitalId: Option<Id>, wardId: Id, newId: Id)
    requires Consistent(st.ledger)
    ensures var r := CompleteReferral(st, id, actorHospitalId, Some(wardId), newId);
      r.Updated? ==>
        var i := WardIndex(st.ledger.wards, wardId).value;
        && Consistent(r.state.ledger)
        && r.admission.value.wardId == wardId
        && r.state.ledger.wards[i].availableBeds == st.ledger.wards[i].availableBeds - 1
    ensures var r := CompleteReferral(st, id, actorHospitalId, Some(wardId), newId);
      r.Refused? && r.status == Conflict && r.currentStatus.None? ==>
        var i := WardIndex(st.ledger.wards, wardId);
        i.Some? && Occupied(st.ledger.admissions, wardId) == st.ledger.wards[i.value].totalBeds
  {
    var r := CompleteReferral(st, id, actorHospitalId, Some(wardId), newId);
    if r.Updated? {
      var p := st.patients[st.referrals[id].patientId];
      CreateAdmissionPreservesConsistency(st.ledger, actorHospitalId, wardId, p, newId);
    }
    var i := WardIndex(st.ledger.wards, wardId);
    if i.Some? {
      assert Balanced(st.ledger.wards[i.value], st.ledger.admissions);
    }
  }

  // ---------------------------------------------------------------------
  // Reading referrals

  /** `getReferral`: only the sending or the receiving hospital may see a
      referral. */
  function GetReferral(st: State, id: Id, actorHospitalId: Option<Id>): (r: Reply<Referral>)
    ensures id !in st.referrals ==> r == Fail(NotFound, ReferralNotFound)
    ensures r.Ok? <==>
      id in st.referrals
      && (OnSide(st.referrals[id], actorHospitalId, Sender) || OnSide(st.referrals[id], actorHospitalId, Receiver))
    ensures r.Ok? ==> r == Ok(OkStatus, st.referrals[id])
    ensures id in st.referrals && r.Fail? ==> r == Fail(Forbidden, "Access denied to this referral")
  {
    if id !in st.referrals then Fail(NotFound, ReferralNotFound)
    else
      var referral := st.referrals[id];
      if referral.fromHospitalId != actorHospitalId && Some(referral.toHospitalId) != actorHospitalId then
        Fail(Forbidden, "Access denied to this referral")
      else Ok(OkStatus, referral)
  }

  /** `listReferrals` lists outgoing referrals unless `direction` is exactly
      `incoming`. */
  function IsOutgoing(direction: Option<string>): (b: bool)
    ensures !b <==> direction == Some("incoming")
  {
    direction != Some("incoming")
  }

  /** The rows the count and the data query both select. */
  predicate Listed(r: Referral, actorHospitalId: Option<Id>, outgoing: bool, status: Option<string>) {
    && (if outgoing then SqlEq(r.fromHospitalId, actorHospitalId) else SqlEq(Some(r.toHospitalId), actorHospitalId))
    && (Present(status) ==> StatusName(r.status) == status.value)
  }

  datatype ReferralPage = ReferralPage(referrals: seq<Referral>, direction: string, pagination: PageMeta)

  /** `listReferrals` over the table's rows, newest first. */
  function ListReferrals(rows: seq<Referral>, actorHospitalId: Option<Id>, direction: Option<string>,
                         status: Option<string>, pageParam: Option<string>, limitParam: Option<string>)
    : (r: ReferralPage)
    ensures var req := ParsePagination(pageParam, limitParam);
      var selected := Filter(rows, (x: Referral) => Listed(x, actorHospitalId, IsOutgoing(direction), status));
      && r.referrals == Window(selected, req.offset, req.limit as nat)
      && r.pagination == BuildPaginationMeta(req.page, req.limit, |selected|)
    ensures r.direction == if IsOutgoing(direction) then "outgoing" else "incoming"
    ensures |r.referrals| <= r.pagination.limit
    ensures forall i :: 0 <= i < |r.referrals| ==> Listed(r.referrals[i], actorHospitalId, IsOutgoing(direction), status)
  {
    var req := ParsePagination(pageParam, limitParam);
    var outgoing := IsOutgoing(direction);
    var selected := Filter(rows, (x: Referral) => Listed(x, actorHospitalId, outgoing, status));
    ReferralPage(
      Window(selected, req.offset, req.limit as nat),
      if outgoing then "outgoing" else "incoming",
      BuildPaginationMeta(req.page, req.limit, |selected|))
  }

  /** A listed referral always involves the actor's hospital on the side
      the direction names, so a listing never shows a referral that
      `getReferral` would refuse. */
  lemma {:induction false} ListedReferralsAreVisible(
    st: State, rows: seq<Referral>, actorHospitalId: Option<Id>, direction: Option<string>,
    status: Option<string>, pageParam: Option<string>, limitParam: Option<string>, i: nat)
    requires forall k :: 0 <= k < |rows| ==> rows[k].id in st.referrals && st.referrals[rows[k].id] == rows[k]
    requires i < |ListReferrals(rows, actorHospitalId, direction, status, pageParam, limitParam).referrals|
    ensures var x := ListReferrals(rows, actorHospitalId, direction, status, pageParam, limitParam).referrals[i];
      GetReferral(st, x.id, actorHospitalId) == Ok(OkStatus, x)
  {
    var req := ParsePagination(pageParam, limitParam);
    var selected := Filter(rows, (x: Referral) => Listed(x, actorHospitalId, IsOutgoing(direction), status));
    var x := ListReferrals(rows, actorHospitalId, direction, status, pageParam, limitParam).referrals[i];
    assert x == selected[req.offset + i];
    FilterMembers(rows, (x: Referral) => Listed(x, actorHospitalId, IsOutgoing(direction), status));
    assert x in rows;
  }

  // ---------------------------------------------------------------------
  // Creating a referral

  /** The validated body of `POST /referrals`. */
  datatype ReferralBody = ReferralBody(patientId: Id, fromWardId: Id, toHospitalId: Id, reason: Option<string>)

  /** Free beds over all wards of a hospital, as the service adds them up. */
  function HospitalAvailableBeds(wards: seq<Ward>, hospitalId: Option<Id>): int {
    SumBy(Filter(wards, (w: Ward) => SqlEq(Some(w.hospitalId), hospitalId)), (w: Ward) => w.availableBeds)
  }

  const BedsStillAvailable := "Referral allowed only when hospital has no available beds"

  /** `createReferral` (service plus the controller's 201): refused with 409
      while the actor's hospital has any free bed, before the ward is even
      looked up; the ward must exist and belong to the actor's hospital
      unless the actor is an admin; the new referral is pending and sent
      from the actor's hospital. The answer also reports the hospital's free
      beds. `newId` is the fresh id the database assigns. */
  function CreateReferral(st: State, actor: Actor, body: ReferralBody, newId: Id): (r: Reply<(State, Referral, int)>)
    requires newId !in st.referrals
    ensures HospitalAvailableBeds(st.ledger.wards, actor.hospitalId) > 0 ==> r == Fail(Conflict, BedsStillAvailable)
    ensures HospitalAvailableBeds(st.ledger.wards, actor.hospitalId) <= 0 ==>
      var i := WardIndex(st.ledger.wards, body.fromWardId);
      && (i.None? ==> r == Fail(NotFound, "Ward not found"))
      && ((i.Some? && Some(st.ledger.wards[i.value].hospitalId) != actor.hospitalId && actor.role != Some("admin"))
          ==> r == Fail(Forbidden, "Ward does not belong to your hospital"))
    ensures r.Ok? ==>
      var referral := r.value.1;
      && r.status == Created
      && referral == Referral(newId, body.patientId, actor.hospitalId, body.fromWardId, body.toHospitalId,
                              OrElse(body.reason, None), Pending, actor.authUserId)
      && r.value.0 == st.(referrals := st.referrals[newId := referral])
      && r.value.2 == HospitalAvailableBeds(st.ledger.wards, actor.hospitalId) <= 0
  {
    var total := HospitalAvailableBeds(st.ledger.wards, actor.hospitalId);
    if total > 0 then Fail(Conflict, BedsStillAvailable)
    else match WardIndex(st.ledger.wards, body.fromWardId)
      case None => Fail(NotFound, "Ward not found")
      case Some(i) =>
        var w := st.ledger.wards[i];
        if Some(w.hospitalId) != actor.hospitalId && actor.role != Some("admin") then
          Fail(Forbidden, "Ward does not belong to your hospital")
        else
          var referral := Referral(newId, body.patientId, actor.hospitalId, body.fromWardId, body.toHospitalId,
                                   OrElse(body.reason, None), Pending, actor.authUserId);
          Ok(Created, (st.(referrals := st.referrals[newId := referral]), referral, total))
  }

  /** In a consistent ledger a referral is created only when every ward of
      the actor's hospital is full, so the reported free beds are 0; and
      creation leaves the bed ledger untouched. */
  lemma {:induction false} ReferralOnlyFromFullHospital(st: State, actor: Actor, body: ReferralBody, newId: Id)
    requires Consistent(st.ledger) && newId !in st.referrals
    ensures var r := CreateReferral(st, actor, body, newId);
      r.Ok? ==>
        && r.value.2 == 0
        && r.value.0.ledger == st.ledger
        && forall i :: 0 <= i < |st.ledger.wards| && SqlEq(Some(st.ledger.wards[i].hospitalId), actor.hospitalId)
             ==> st.ledger.wards[i].availableBeds == 0
  {
    var r := CreateReferral(st, actor, body, newId);
    if r.Ok? {
      var p := (w: Ward) => SqlEq(Some(w.hospitalId), actor.hospitalId);
      var f := (w: Ward) => w.availableBeds;
      var mine := Filter(st.ledger.wards, p);
      FilterMembers(st.ledger.wards, p);
      forall k | 0 <= k < |mine| ensures f(mine[k]) >= 0 {
        var j :| 0 <= j < |st.ledger.wards| && st.ledger.wards[j] == mine[k];
        assert Balanced(st.ledger.wards[j], st.ledger.admissions);
      }
      SumByNonNegative(mine, f);
      forall i | 0 <= i < |st.ledger.wards| && p(st.ledger.wards[i])
        ensures st.ledger.wards[i].availableBeds == 0
      {
        var w := st.ledger.wards[i];
        assert w in mine;
        var k :| 0 <= k < |mine| && mine[k] == w;
        assert f(mine[k]) == 0;
      }
    }
  }
}
