/** The admission service (`createAdmission`): the patient check, the call
    to `create_admission` and the mapping of its error codes. */
module Admissions {
  import opened Base
  import opened Ledger
  import opened Http

  /** The `patient` object of the request; every field may be missing. */
  datatype PatientBody = PatientBody(
    fullName: Option<string>,
    sex: Option<string>,
    dateOfBirth: Option<string>,
    phone: Option<string>,
    nationalId: Option<string>)

  /** `x || null`. */
  function OrNull(x: Option<string>): (r: Option<string>)
    ensures r.Some? <==> Present(x)
    ensures r.Some? ==> r == x
  {
    OrElse(x, None)
  }

  /** The text the mapper matches: `message`, else `details`, else empty. */
  function ErrorText(e: DbError): (msg: string)
    ensures Present(e.message) ==> msg == e.message.value
    ensures !Present(e.message) && Present(e.details) ==> msg == e.details.value
    ensures !Present(e.message) && !Present(e.details) ==> msg == ""
  {
    OrElse(e.message, OrElse(e.details, Some(""))).value
  }

  /** `mapRpcErrorToHttp` of the admission service, first match wins. */
  function MapAdmissionError(e: DbError): (m: HttpError)
    ensures Contains(ErrorText(e), NoBedsAvailable) ==> m == HttpError(Conflict, "No beds available in this ward")
    ensures (!Contains(ErrorText(e), NoBedsAvailable) && Contains(ErrorText(e), WardHospitalMismatch))
      ==> m == HttpError(Forbidden, "Ward does not belong to your hospital")
    ensures (!Contains(ErrorText(e), NoBedsAvailable) && !Contains(ErrorText(e), WardHospitalMismatch))
      ==> m == HttpError(InternalError, "Failed to create admission")
  {
    var msg := ErrorText(e);
    if Contains(msg, NoBedsAvailable) then HttpError(Conflict, "No beds available in this ward")
    else if Contains(msg, WardHospitalMismatch) then HttpError(Forbidden, "Ward does not belong to your hospital")
    else HttpError(InternalError, "Failed to create admission")
  }

  /** Each code `create_admission` raises gets its own answer: no beds 409,
      wrong hospital 403; a missing ward is not singled out and gives 500. */
  lemma AdmissionCodesMapFaithfully()
    ensures MapAdmissionError(RaisedError(NoBedsAvailable)).status == Conflict
    ensures MapAdmissionError(RaisedError(WardHospitalMismatch)).status == Forbidden
    ensures MapAdmissionError(RaisedError(WardNotFound)).status == InternalError
  {
    ContainsItself(NoBedsAvailable);
    AdmissionMismatchCode();
    AdmissionWardNotFoundCode();
  }

  lemma AdmissionMismatchCode()
    ensures MapAdmissionError(RaisedError(WardHospitalMismatch)).status == Forbidden
  {
    ContainsItself(WardHospitalMismatch);
    assert NoBedsAvailable[0] == 'N';
    MissingCharNotContained(WardHospitalMismatch, NoBedsAvailable, 0);
  }

  lemma AdmissionWardNotFoundCode()
    ensures MapAdmissionError(RaisedError(WardNotFound)).status == InternalError
  {
    assert NoBedsAvailable[3] == 'B';
    MissingCharNotContained(WardNotFound, NoBedsAvailable, 3);
    assert WardHospitalMismatch[5] == 'H';
    MissingCharNotContained(WardNotFound, WardHospitalMismatch, 5);
  }

  /** When the procedure's exception has no message, its details are
      matched instead. */
  lemma DetailsAreMatchedWithoutMessage()
    ensures MapAdmissionError(DbError(None, Some(NoBedsAvailable))).status == Conflict
    ensures MapAdmissionError(DbError(Some(""), Some(NoBedsAvailable))).status == Conflict
    ensures MapAdmissionError(DbError(None, None)).status == InternalError
  {
    ContainsItself(NoBedsAvailable);
    assert !Contains("", NoBedsAvailable);
  }

  const PatientRequired := "patient.full_name and patient.sex are required"

  /** `createAdmission` with the controller's 201. `patient` is `None` when
      the request has none (`patient || {}`); `newId` is the id the database
      assigns. */
  function CreateAdmission(db: Db, actorHospitalId: Option<Id>, wardId: Id, patient: Option<PatientBody>, newId: Id)
    : (r: Reply<(Db, Admission)>)
    ensures var p := patient.GetOr(PatientBody(None, None, None, None, None));
      !Present(p.fullName) || !Present(p.sex) ==> r == Fail(BadRequest, PatientRequired)
    ensures var p := patient.GetOr(PatientBody(None, None, None, None, None));
      Present(p.fullName) && Present(p.sex) ==>
      var stored := Patient(p.fullName.value, p.sex.value, OrNull(p.dateOfBirth), OrNull(p.phone), OrNull(p.nationalId));
      match CreateAdmissionProc(db, actorHospitalId, wardId, stored, newId)
      case Done(db', a) => r == Ok(Created, (db', a))
      case Raised(code) => r == Fail(MapAdmissionError(RaisedError(code)).status, MapAdmissionError(RaisedError(code)).message)
  {
    var p := patient.GetOr(PatientBody(None, None, None, None, None));
    if !Present(p.fullName) || !Present(p.sex) then Fail(BadRequest, PatientRequired)
    else
      var stored := Patient(p.fullName.value, p.sex.value, OrNull(p.dateOfBirth), OrNull(p.phone), OrNull(p.nationalId));
      match CreateAdmissionProc(db, actorHospitalId, wardId, stored, newId)
      case Done(db', a) => Ok(Created, (db', a))
      case Raised(code) =>
        var m := MapAdmissionError(RaisedError(code));
        Fail(m.status, m.message)
  }

  /** With a valid patient, the service answers 409 exactly when the ward
      exists, is the actor's, and every bed is taken; 403 exactly when the
      ward is another hospital's; and a success takes one bed. */
  lemma {:induction false} AdmissionAnswers(db: Db, actorHospitalId: Option<Id>, wardId: Id, p: PatientBody, newId: Id)
    requires Consistent(db)
    requires Present(p.fullName) && Present(p.sex)
    ensures var r := CreateAdmission(db, actorHospitalId, wardId, Some(p), newId);
      var i := WardIndex(db.wards, wardId);
      && (r.Fail? && r.status == Conflict <==>
            i.Some? && actorHospitalId == Some(db.wards[i.value].hospitalId)
            && Occupied(db.admissions, wardId) == db.wards[i.value].totalBeds)
      && (r.Fail? && r.status == Forbidden <==> i.Some? && actorHospitalId != Some(db.wards[i.value].hospitalId))
      && (r.Ok? ==> (Consistent(r.value.0)
                     && r.value.0.wards[i.value].availableBeds == db.wards[i.value].availableBeds - 1))
  {
    var stored := Patient(p.fullName.value, p.sex.value, OrNull(p.dateOfBirth), OrNull(p.phone), OrNull(p.nationalId));
    AdmissionCodesMapFaithfully();
    NoBedsIffWardFull(db, actorHospitalId, wardId, stored, newId);
    CreateAdmissionPreservesConsistency(db, actorHospitalId, wardId, stored, newId);
  }
}

/** The discharge service (`discharge`): the call to `discharge_patient`
    and the mapping of its error codes. */
module Discharges {
  import opened Base
  import opened Ledger
  import opened Http

  /** `mapRpcErrorToHttp` of the discharge service; only `message` is
      matched, first match wins. */
  function MapDischargeError(e: DbError): (m: HttpError)
    ensures var msg := e.message.GetOr("");
      && (Contains(msg, AdmissionNotFound) ==> m == HttpError(NotFound, "Admission not found"))
      && ((!Contains(msg, AdmissionNotFound) && Contains(msg, AlreadyDischarged))
          ==> m == HttpError(Conflict, "Admission already discharged"))
      && ((!Contains(msg, AdmissionNotFound) && !Contains(msg, AlreadyDischarged)
           && Contains(msg, AdmissionHospitalMismatch))
          ==> m == HttpError(Forbidden, "Admission does not belong to your hospital"))
      && ((!Contains(msg, AdmissionNotFound) && !Contains(msg, AlreadyDischarged)
           && !Contains(msg, AdmissionHospitalMismatch))
          ==> m == HttpError(InternalError, "Failed to discharge patient"))
  {
    var msg := e.message.GetOr("");
    if Contains(msg, AdmissionNotFound) then HttpError(NotFound, "Admission not found")
    else if Contains(msg, AlreadyDischarged) then HttpError(Conflict, "Admission already discharged")
    else if Contains(msg, AdmissionHospitalMismatch) then HttpError(Forbidden, "Admission does not belong to your hospital")
    else HttpError(InternalError, "Failed to discharge patient")
  }

  /** Each code `discharge_patient` raises gets its own answer, and `details`
      are never consulted. */
  lemma DischargeCodesMapFaithfully(details: Option<string>)
    ensures MapDischargeError(RaisedError(AdmissionNotFound)).status == NotFound
    ensures MapDischargeError(RaisedError(AlreadyDischarged)).status == Conflict
    ensures MapDischargeError(RaisedError(AdmissionHospitalMismatch)).status == Forbidden
    ensures MapDischargeError(DbError(None, details)).status == InternalError
  {
    ContainsItself(AdmissionNotFound);
    AlreadyDischargedCode();
    DischargeMismatchCode();
    var empty: string := "";
    assert !Contains(empty, AdmissionNotFound) && !Contains(empty, AlreadyDischarged)
      && !Contains(empty, AdmissionHospitalMismatch);
  }

  lemma AlreadyDischargedCode()
    ensures MapDischargeError(RaisedError(AlreadyDischarged)).status == Conflict
  {
    ContainsItself(AlreadyDischarged);
    assert AdmissionNotFound[2] == 'M';
    MissingCharNotContained(AlreadyDischarged, AdmissionNotFound, 2);
  }

  lemma DischargeMismatchCode()
    ensures MapDischargeError(RaisedError(AdmissionHospitalMismatch)).status == Forbidden
  {
    ContainsItself(AdmissionHospitalMismatch);
    assert AdmissionNotFound[14] == 'F';
    MissingCharNotContained(AdmissionHospitalMismatch, AdmissionNotFound, 14);
    assert AlreadyDischarged[6] == 'Y';
    MissingCharNotContained(AdmissionHospitalMismatch, AlreadyDischarged, 6);
  }

  /** `discharge` with the controller's 200: a raised code becomes the
      mapped answer, a success hands back the discharged admission. */
  function Discharge(db: Db, actorHospitalId: Option<Id>, admissionId: Id): (r: Reply<(Db, Admission)>)
    ensures match DischargeProc(db, actorHospitalId, admissionId)
      case Done(db', a) => r == Ok(OkStatus, (db', a))
      case Raised(code) => r == Fail(MapDischargeError(RaisedError(code)).status, MapDischargeError(RaisedError(code)).message)
  {
    match DischargeProc(db, actorHospitalId, admissionId)
    case Done(db', a) => Ok(OkStatus, (db', a))
    case Raised(code) =>
      var m := MapDischargeError(RaisedError(code));
      Fail(m.status, m.message)
  }

  /** What a discharge answers, in terms of the admission it names: 404 when
      there is none, 403 when it is another hospital's, 409 when it is
      already discharged, and otherwise success with a consistent ledger. */
  lemma {:induction false} DischargeAnswers(db: Db, actorHospitalId: Option<Id>, admissionId: Id)
    requires Consistent(db)
    ensures var r := Discharge(db, actorHospitalId, admissionId);
      var k := AdmissionIndex(db.admissions, admissionId);
      && (r.Fail? && r.status == NotFound <==> k.None?)
      && (r.Fail? && r.status == Forbidden <==>
            k.Some? && actorHospitalId != Some(db.admissions[k.value].hospitalId))
      && (r.Fail? && r.status == Conflict <==>
            k.Some? && actorHospitalId == Some(db.admissions[k.value].hospitalId)
            && db.admissions[k.value].status == Discharged)
      && (r.Ok? ==> Consistent(r.value.0) && r.value.1.status == Discharged)
  {
    DischargeCodesMapFaithfully(None);
    DischargePreservesConsistency(db, actorHospitalId, admissionId);
  }
}
