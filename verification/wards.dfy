/** Ward administration handlers (`createWard`, `updateWardCapacity`): the
    request checks, the initial availability of a new ward and the mapping
    of `update_ward_capacity`'s error codes to HTTP answers. */
module Wards {
  import opened Base
  import opened Json
  import opened Numbers
  import opened Ledger
  import opened Http

  /** The fields `createWard` reads from the body. `name`, `type` and
      `hospital_id` are strings whenever present (the route's schema runs
      first); `total_beds` is kept as the JSON value it arrived as. */
  datatype CreateWardBody = CreateWardBody(
    name: Option<string>,
    wardType: Option<string>,
    totalBeds: Option<Json>,
    hospitalId: Option<Id>)

  /** `Number(total_beds)` when it is a non-negative integer. */
  function BedCount(v: Json): (r: Option<nat>)
    ensures r.Some? <==> ToNumber(v).Some? && IsInteger(ToNumber(v).value) && ToNumber(v).value >= 0.0
    ensures r.Some? ==> r.value as real == ToNumber(v).value
  {
    match ToNumber(v)
    case None => None
    case Some(x) => if IsInteger(x) && x >= 0.0 then Some(x.Floor as nat) else None
  }

  const RequiredFields := "name, type, total_beds are required"
  const NotABedCount := "total_beds must be a non-negative integer"
  const HospitalRequired := "hospital_id is required"
  const OwnHospitalOnly := "You can only create wards for your own hospital"

  /** `createWard`. The ward's hospital is `hospital_id`, else the actor's;
      an actor with a hospital may not name another one. `newId` is the id
      the database assigns. */
  function CreateWard(db: Db, actorHospitalId: Option<Id>, body: CreateWardBody, newId: Id)
    : (r: Reply<(Db, Ward)>)
    ensures !Present(body.name) || !Present(body.wardType) || body.totalBeds.None?
      ==> r == Fail(BadRequest, RequiredFields)
    ensures (Present(body.name) && Present(body.wardType) && body.totalBeds.Some?
             && BedCount(body.totalBeds.value).None?) ==> r == Fail(BadRequest, NotABedCount)
    ensures r == Fail(Forbidden, OwnHospitalOnly) <==>
      && Present(body.name) && Present(body.wardType) && body.totalBeds.Some?
      && BedCount(body.totalBeds.value).Some?
      && Present(body.hospitalId) && Present(actorHospitalId) && body.hospitalId != actorHospitalId
    ensures (Present(body.name) && Present(body.wardType) && body.totalBeds.Some?
             && BedCount(body.totalBeds.value).Some? && !Present(OrElse(body.hospitalId, actorHospitalId)))
      ==> r == Fail(BadRequest, HospitalRequired)
    // a complete body is created exactly when its hospital resolves and is the actor's own (or the actor has none)
    ensures r.Ok? <==>
      && Present(body.name) && Present(body.wardType) && body.totalBeds.Some?
      && BedCount(body.totalBeds.value).Some?
      && Present(OrElse(body.hospitalId, actorHospitalId))
      && !(Present(body.hospitalId) && Present(actorHospitalId) && body.hospitalId != actorHospitalId)
    ensures r.Ok? ==>
      var w := r.value.1;
      && r.status == Created
      && w.id == newId && Some(w.name) == body.name && Some(w.wardType) == body.wardType
      && w.totalBeds as real == ToNumber(body.totalBeds.value).value
      && w.availableBeds == w.totalBeds >= 0
      && Some(w.hospitalId) == OrElse(body.hospitalId, actorHospitalId)
      && (Present(actorHospitalId) ==> Some(w.hospitalId) == actorHospitalId)
      && r.value.0 == InsertWard(db, w)
  {
    if !Present(body.name) || !Present(body.wardType) || body.totalBeds.None? then
      Fail(BadRequest, RequiredFields)
    else match BedCount(body.totalBeds.value)
      case None => Fail(BadRequest, NotABedCount)
      case Some(n) =>
        var hospitalId := OrElse(body.hospitalId, actorHospitalId);
        if !Present(hospitalId) then Fail(BadRequest, HospitalRequired)
        else if Present(actorHospitalId) && actorHospitalId != hospitalId then Fail(Forbidden, OwnHospitalOnly)
        else
          var w := Ward(newId, hospitalId.value, body.name.value, body.wardType.value, n, n);
          Ok(Created, (InsertWard(db, w), w))
  }

  /** A ward created under a fresh id keeps the ledger consistent. */
  lemma CreateWardPreservesConsistency(db: Db, actorHospitalId: Option<Id>, body: CreateWardBody, newId: Id)
    requires Consistent(db)
    requires WardIndex(db.wards, newId).None?
    ensures var r := CreateWard(db, actorHospitalId, body, newId);
      r.Ok? ==> Consistent(r.value.0)
  {
    var r := CreateWard(db, actorHospitalId, body, newId);
    if r.Ok? {
      InsertWardPreservesConsistency(db, r.value.1);
    }
  }

  /** The error answers of `updateWardCapacity`, first match wins. */
  function MapCapacityError(e: DbError): (m: HttpError)
    ensures var msg := e.message.GetOr("");
      && (Contains(msg, WardNotFound) ==> m == HttpError(NotFound, "Ward not found"))
      && ((!Contains(msg, WardNotFound) && Contains(msg, WardHospitalMismatch))
          ==> m == HttpError(Forbidden, "Ward does not belong to your hospital"))
      && ((!Contains(msg, WardNotFound) && !Contains(msg, WardHospitalMismatch) && Contains(msg, CapacityBelowOccupied))
          ==> m == HttpError(Conflict, "New total_beds cannot be less than occupied beds"))
      && ((!Contains(msg, WardNotFound) && !Contains(msg, WardHospitalMismatch) && !Contains(msg, CapacityBelowOccupied))
          ==> m == HttpError(InternalError, "Failed to update ward capacity"))
  {
    var msg := e.message.GetOr("");
    if Contains(msg, WardNotFound) then HttpError(NotFound, "Ward not found")
    else if Contains(msg, WardHospitalMismatch) then HttpError(Forbidden, "Ward does not belong to your hospital")
    else if Contains(msg, CapacityBelowOccupied) then HttpError(Conflict, "New total_beds cannot be less than occupied beds")
    else HttpError(InternalError, "Failed to update ward capacity")
  }

  /** No code of `update_ward_capacity` contains an earlier-matched one, so
      each reaches its own answer: 404, 403 and 409. */
  lemma CapacityCodesMapFaithfully()
    ensures MapCapacityError(RaisedError(WardNotFound)).status == NotFound
    ensures MapCapacityError(RaisedError(WardHospitalMismatch)).status == Forbidden
    ensures MapCapacityError(RaisedError(CapacityBelowOccupied)).status == Conflict
  {
    ContainsItself(WardNotFound);
    CapacityMismatchCode();
    CapacityBelowOccupiedCode();
  }

  lemma CapacityMismatchCode()
    ensures MapCapacityError(RaisedError(WardHospitalMismatch)).status == Forbidden
  {
    ContainsItself(WardHospitalMismatch);
    assert WardNotFound[9] == 'F';
    MissingCharNotContained(WardHospitalMismatch, WardNotFound, 9);
  }

  lemma CapacityBelowOccupiedCode()
    ensures MapCapacityError(RaisedError(CapacityBelowOccupied)).status == Conflict
  {
    ContainsItself(CapacityBelowOccupied);
    assert WardNotFound[9] == 'F';
    MissingCharNotContained(CapacityBelowOccupied, WardNotFound, 9);
    assert WardHospitalMismatch[5] == 'H';
    MissingCharNotContained(CapacityBelowOccupied, WardHospitalMismatch, 5);
  }

  /** `updateWardCapacity`. */
  function UpdateWardCapacity(db: Db, actorHospitalId: Option<Id>, wardId: Id, totalBeds: Option<Json>)
    : (r: Reply<(Db, Ward)>)
    ensures totalBeds.None? ==> r == Fail(BadRequest, "total_beds is required")
    ensures totalBeds.Some? && BedCount(totalBeds.value).None? ==> r == Fail(BadRequest, NotABedCount)
    ensures totalBeds.Some? && BedCount(totalBeds.value).Some? ==>
      match UpdateCapacityProc(db, actorHospitalId, wardId, BedCount(totalBeds.value).value)
      case Done(db', w) => r == Ok(OkStatus, (db', w))
      case Raised(code) => r == Fail(MapCapacityError(RaisedError(code)).status, MapCapacityError(RaisedError(code)).message)
  {
    if totalBeds.None? then Fail(BadRequest, "total_beds is required")
    else match BedCount(totalBeds.value)
      case None => Fail(BadRequest, NotABedCount)
      case Some(n) =>
        match UpdateCapacityProc(db, actorHospitalId, wardId, n)
        case Done(db', w) => Ok(OkStatus, (db', w))
        case Raised(code) =>
          var m := MapCapacityError(RaisedError(code));
          Fail(m.status, m.message)
  }

  /** In a consistent ledger a valid capacity update answers 409 exactly
      when the new total is below the ward's admitted patients, and 404 or
      403 exactly when the ward is missing or another hospital's. */
  lemma {:induction false} CapacityAnswers(db: Db, actorHospitalId: Option<Id>, wardId: Id, n: nat)
    requires Consistent(db)
    ensures var r := UpdateWardCapacity(db, actorHospitalId, wardId, Some(JNum(n as real)));
      var i := WardIndex(db.wards, wardId);
      && (r.Fail? && r.status == NotFound <==> i.None?)
      && (r.Fail? && r.status == Forbidden <==> i.Some? && actorHospitalId != Some(db.wards[i.value].hospitalId))
      && (r.Fail? && r.status == Conflict <==>
            i.Some? && actorHospitalId == Some(db.wards[i.value].hospitalId) && n < Occupied(db.admissions, wardId))
      && (r.Ok? ==> r.value.1.availableBeds == n - Occupied(db.admissions, wardId))
  {
    assert BedCount(JNum(n as real)) == Some(n);
    CapacityCodesMapFaithfully();
    CapacityRefusedIffBelowOccupied(db, actorHospitalId, wardId, n);
    var i := WardIndex(db.wards, wardId);
    if i.Some? {
      assert Balanced(db.wards[i.value], db.admissions);
    }
  }
}
