/** The bed ledger kept by the database: wards with their bed counts, the
    admissions that occupy them, and the three stored procedures that change
    them (`create_admission`, `discharge_patient`, `update_ward_capacity`).
    The procedures' bodies are not part of this model. Each one is given
    exactly the checks and effects its callers rely on, raising the error
    codes the callers match on, and checks in the order not found, wrong
    hospital, wrong state. */
module Ledger {
  import opened Base
  import opened Lists

  const WardNotFound := "WARD_NOT_FOUND"
  const WardHospitalMismatch := "WARD_HOSPITAL_MISMATCH"
  const NoBedsAvailable := "NO_BEDS_AVAILABLE"
  const CapacityBelowOccupied := "CAPACITY_BELOW_OCCUPIED"
  const AdmissionNotFound := "ADMISSION_NOT_FOUND"
  const AlreadyDischarged := "ALREADY_DISCHARGED"
  const AdmissionHospitalMismatch := "ADMISSION_HOSPITAL_MISMATCH"

  datatype Ward = Ward(
    id: Id,
    hospitalId: Id,
    name: string,
    wardType: string,
    totalBeds: int,
    availableBeds: int)

  datatype Patient = Patient(
    fullName: string,
    sex: string,
    dateOfBirth: Option<string>,
    phone: Option<string>,
    nationalId: Option<string>)

  datatype AdmissionStatus = Admitted | Discharged

  datatype Admission = Admission(id: Id, patient: Patient, wardId: Id, hospitalId: Id, status: AdmissionStatus)

  /** The `wards` and `admissions` tables. */
  datatype Db = Db(wards: seq<Ward>, admissions: seq<Admission>)

  /** What a procedure returns: the new tables and its result row, or the
      code of the exception it raised, in which case nothing changes. */
  datatype Proc<T> = Done(db: Db, value: T) | Raised(code: string)

  /** A database error as the client library reports it. An exception
      raised by a procedure carries its code as the message. */
  datatype DbError = DbError(message: Option<string>, details: Option<string>)

  function RaisedError(code: string): DbError {
    DbError(Some(code), None)
  }

  /** 1 for an admission currently holding a bed in ward `wardId`. */
  function Occupies(wardId: Id): Admission -> int {
    (a: Admission) => if a.wardId == wardId && a.status == Admitted then 1 else 0
  }

  /** Number of admitted patients in ward `wardId`. */
  function Occupied(admissions: seq<Admission>, wardId: Id): (n: int)
    ensures n >= 0
  {
    SumByNonNegative(admissions, Occupies(wardId));
    SumBy(admissions, Occupies(wardId))
  }

  function WardIndex(wards: seq<Ward>, id: Id): (r: Option<nat>)
    ensures r.Some? ==> r.value < |wards| && wards[r.value].id == id
    ensures r.None? <==> forall i :: 0 <= i < |wards| ==> wards[i].id != id
  {
    FirstIndex(wards, (w: Ward) => w.id == id)
  }

  function AdmissionIndex(admissions: seq<Admission>, id: Id): (r: Option<nat>)
    ensures r.Some? ==> r.value < |admissions| && admissions[r.value].id == id
    ensures r.None? <==> forall k :: 0 <= k < |admissions| ==> admissions[k].id != id
  {
    FirstIndex(admissions, (a: Admission) => a.id == id)
  }

  predicate UniqueWardIds(wards: seq<Ward>) {
    forall i, j :: 0 <= i < j < |wards| ==> wards[i].id != wards[j].id
  }

  /** A ward's counts agree with its admissions: the beds not available are
      exactly the beds held by admitted patients. */
  predicate Balanced(w: Ward, admissions: seq<Admission>) {
    && 0 <= w.availableBeds <= w.totalBeds
    && w.totalBeds - w.availableBeds == Occupied(admissions, w.id)
  }

  /** The ledger invariant. */
  predicate Consistent(db: Db) {
    && UniqueWardIds(db.wards)
    && (forall i :: 0 <= i < |db.wards| ==> Balanced(db.wards[i], db.admissions))
    && (forall k :: 0 <= k < |db.admissions| && db.admissions[k].status == Admitted
          ==> WardIndex(db.wards, db.admissions[k].wardId).Some?)
  }

  /** `create_admission`: the ward must exist, belong to the actor's
      hospital and have a free bed; one bed is taken and an admitted
      admission is recorded. */
  function CreateAdmissionProc(db: Db, actorHospitalId: Option<Id>, wardId: Id, patient: Patient, newId: Id)
    : (r: Proc<Admission>)
    ensures WardIndex(db.wards, wardId).None? <==> r == Raised(WardNotFound)
    ensures r.Done? ==>
      var i := WardIndex(db.wards, wardId).value;
      var w := db.wards[i];
      && actorHospitalId == Some(w.hospitalId) && w.availableBeds > 0
      && r.value == Admission(newId, patient, wardId, w.hospitalId, Admitted)
      && r.db.admissions == db.admissions + [r.value]
      && r.db.wards == db.wards[i := w.(availableBeds := w.availableBeds - 1)]
    ensures r.Raised? ==> r.code in {WardNotFound, WardHospitalMismatch, NoBedsAvailable}
  {
    match WardIndex(db.wards, wardId)
    case None => Raised(WardNotFound)
    case Some(i) =>
      var w := db.wards[i];
      if actorHospitalId != Some(w.hospitalId) then Raised(WardHospitalMismatch)
      else if w.availableBeds <= 0 then Raised(NoBedsAvailable)
      else
        var a := Admission(newId, patient, wardId, w.hospitalId, Admitted);
        Done(Db(db.wards[i := w.(availableBeds := w.availableBeds - 1)], db.admissions + [a]), a)
  }

  /** `discharge_patient`: the admission must exist, belong to the actor's
      hospital and still be admitted; it is marked discharged and its bed
      is given back to its ward. */
  function DischargeProc(db: Db, actorHospitalId: Option<Id>, admissionId: Id): (r: Proc<Admission>)
    ensures AdmissionIndex(db.admissions, admissionId).None? <==> r == Raised(AdmissionNotFound)
    ensures r.Done? ==>
      var k := AdmissionIndex(db.admissions, admissionId).value;
      var a := db.admissions[k];
      && actorHospitalId == Some(a.hospitalId) && a.status == Admitted
      && r.value == a.(status := Discharged)
      && r.db.admissions == db.admissions[k := r.value]
      && r.db.wards == match WardIndex(db.wards, a.wardId)
           case None => db.wards
           case Some(i) => db.wards[i := db.wards[i].(availableBeds := db.wards[i].availableBeds + 1)]
    ensures r.Raised? ==> r.code in {AdmissionNotFound, AdmissionHospitalMismatch, AlreadyDischarged}
  {
    match AdmissionIndex(db.admissions, admissionId)
    case None => Raised(AdmissionNotFound)
    case Some(k) =>
      var a := db.admissions[k];
      if actorHospitalId != Some(a.hospitalId) then Raised(AdmissionHospitalMismatch)
      else if a.status == Discharged then Raised(AlreadyDischarged)
      else
        var a' := a.(status := Discharged);
        var wards := match WardIndex(db.wards, a.wardId)
          case None => db.wards
          case Some(i) => db.wards[i := db.wards[i].(availableBeds := db.wards[i].availableBeds + 1)];
        Done(Db(wards, db.admissions[k := a']), a')
  }

  /** `update_ward_capacity`: the ward must exist and belong to the actor's
      hospital, and the new total may not be below the occupied beds; the
      occupied beds stay occupied and the rest become available. */
  function UpdateCapacityProc(db: Db, actorHospitalId: Option<Id>, wardId: Id, newTotal: int): (r: Proc<Ward>)
    ensures WardIndex(db.wards, wardId).None? <==> r == Raised(WardNotFound)
    ensures r.Done? ==>
      var i := WardIndex(db.wards, wardId).value;
      var w := db.wards[i];
      && actorHospitalId == Some(w.hospitalId)
      && r.value.totalBeds == newTotal
      && r.value.totalBeds - r.value.availableBeds == w.totalBeds - w.availableBeds
      && r.value == w.(totalBeds := r.value.totalBeds, availableBeds := r.value.availableBeds)
      && r.db == db.(wards := db.wards[i := r.value])
    ensures r.Raised? ==> r.code in {WardNotFound, WardHospitalMismatch, CapacityBelowOccupied}
  {
    match WardIndex(db.wards, wardId)
    case None => Raised(WardNotFound)
    case Some(i) =>
      var w := db.wards[i];
      var occupied := w.totalBeds - w.availableBeds;
      if actorHospitalId != Some(w.hospitalId) then Raised(WardHospitalMismatch)
      else if newTotal < occupied then Raised(CapacityBelowOccupied)
      else
        var w' := w.(totalBeds := newTotal, availableBeds := newTotal - occupied);
        Done(db.(wards := db.wards[i := w']), w')
  }

  lemma OccupiedAppend(admissions: seq<Admission>, a: Admission, wardId: Id)
    ensures Occupied(admissions + [a], wardId) == Occupied(admissions, wardId) + Occupies(wardId)(a)
  {
    SumByAppend(admissions, [a], Occupies(wardId));
    assert [a][1..] == [];
  }

  /** Recording an admission keeps the ledger consistent: the ward it
      enters loses one available bed and gains one occupant, every other
      ward is untouched. */
  lemma {:induction false} CreateAdmissionPreservesConsistency(
    db: Db, actorHospitalId: Option<Id>, wardId: Id, patient: Patient, newId: Id)
    requires Consistent(db)
    ensures var r := CreateAdmissionProc(db, actorHospitalId, wardId, patient, newId);
      r.Done? ==> Consistent(r.db)
  {
    var r := CreateAdmissionProc(db, actorHospitalId, wardId, patient, newId);
    if r.Done? {
      var i := WardIndex(db.wards, wardId).value;
      var a := r.value;
      forall j | 0 <= j < |r.db.wards|
        ensures Balanced(r.db.wards[j], r.db.admissions)
      {
        OccupiedAppend(db.admissions, a, db.wards[j].id);
        assert Balanced(db.wards[j], db.admissions);
      }
      forall k | 0 <= k < |r.db.admissions| && r.db.admissions[k].status == Admitted
        ensures WardIndex(r.db.wards, r.db.admissions[k].wardId).Some?
      {
        var id := r.db.admissions[k].wardId;
        var j := if k < |db.admissions| then WardIndex(db.wards, id).value else i;
        assert r.db.wards[j].id == id;
      }
    }
  }

  lemma OccupiedUpdate(admissions: seq<Admission>, k: nat, a: Admission, wardId: Id)
    requires k < |admissions|
    ensures Occupied(admissions[k := a], wardId)
         == Occupied(admissions, wardId) - Occupies(wardId)(admissions[k]) + Occupies(wardId)(a)
  {
    SumByUpdate(admissions, k, a, Occupies(wardId));
  }

  /** Discharging keeps the ledger consistent: the patient's ward gets its
      bed back. */
  lemma {:induction false} DischargePreservesConsistency(db: Db, actorHospitalId: Option<Id>, admissionId: Id)
    requires Consistent(db)
    ensures var r := DischargeProc(db, actorHospitalId, admissionId);
      r.Done? ==> Consistent(r.db)
  {
    var r := DischargeProc(db, actorHospitalId, admissionId);
    if r.Done? {
      var k := AdmissionIndex(db.admissions, admissionId).value;
      var a := db.admissions[k];
      var i := WardIndex(db.wards, a.wardId).value;
      forall j | 0 <= j < |r.db.wards|
        ensures Balanced(r.db.wards[j], r.db.admissions)
      {
        OccupiedUpdate(db.admissions, k, r.value, db.wards[j].id);
        assert Balanced(db.wards[j], db.admissions);
      }
      forall m | 0 <= m < |r.db.admissions| && r.db.admissions[m].status == Admitted
        ensures WardIndex(r.db.wards, r.db.admissions[m].wardId).Some?
      {
        var id := r.db.admissions[m].wardId;
        var j := WardIndex(db.wards, id).value;
        assert r.db.wards[j].id == id;
      }
    }
  }

  /** A capacity change keeps the ledger consistent. */
  lemma {:induction false} UpdateCapacityPreservesConsistency(
    db: Db, actorHospitalId: Option<Id>, wardId: Id, newTotal: int)
    requires Consistent(db)
    ensures var r := UpdateCapacityProc(db, actorHospitalId, wardId, newTotal);
      r.Done? ==> Consistent(r.db)
  {
    var r := UpdateCapacityProc(db, actorHospitalId, wardId, newTotal);
    if r.Done? {
      var i := WardIndex(db.wards, wardId).value;
      assert Balanced(db.wards[i], db.admissions);
      forall j | 0 <= j < |r.db.wards|
        ensures Balanced(r.db.wards[j], r.db.admissions)
      {
        assert Balanced(db.wards[j], db.admissions);
      }
      forall m | 0 <= m < |r.db.admissions| && r.db.admissions[m].status == Admitted
        ensures WardIndex(r.db.wards, r.db.admissions[m].wardId).Some?
      {
        var id := r.db.admissions[m].wardId;
        var j := WardIndex(db.wards, id).value;
        assert r.db.wards[j].id == id;
      }
    }
  }

  /** In a consistent ledger, admission is refused for lack of beds exactly
      when every bed of the (existing, own-hospital) ward is occupied. */
  lemma {:induction false} NoBedsIffWardFull(
    db: Db, actorHospitalId: Option<Id>, wardId: Id, patient: Patient, newId: Id)
    requires Consistent(db)
    ensures CreateAdmissionProc(db, actorHospitalId, wardId, patient, newId) == Raised(NoBedsAvailable)
        <==> var i := WardIndex(db.wards, wardId);
             && i.Some? && actorHospitalId == Some(db.wards[i.value].hospitalId)
             && Occupied(db.admissions, wardId) == db.wards[i.value].totalBeds
  {
    var i := WardIndex(db.wards, wardId);
    if i.Some? {
      assert Balanced(db.wards[i.value], db.admissions);
    }
  }

  /** In a consistent ledger, a capacity change is refused exactly when the
      new total is below the number of admitted patients in the ward. */
  lemma {:induction false} CapacityRefusedIffBelowOccupied(
    db: Db, actorHospitalId: Option<Id>, wardId: Id, newTotal: int)
    requires Consistent(db)
    ensures UpdateCapacityProc(db, actorHospitalId, wardId, newTotal) == Raised(CapacityBelowOccupied)
        <==> var i := WardIndex(db.wards, wardId);
             && i.Some? && actorHospitalId == Some(db.wards[i.value].hospitalId)
             && newTotal < Occupied(db.admissions, wardId)
  {
    var i := WardIndex(db.wards, wardId);
    if i.Some? {
      assert Balanced(db.wards[i.value], db.admissions);
    }
  }

  /** Admitting a patient under a fresh admission id and then discharging
      that admission gives every ward its original counts back. */
  lemma {:induction false} AdmitThenDischargeRestoresWards(
    db: Db, actorHospitalId: Option<Id>, wardId: Id, patient: Patient, newId: Id)
    requires AdmissionIndex(db.admissions, newId).None?
    requires CreateAdmissionProc(db, actorHospitalId, wardId, patient, newId).Done?
    ensures var db1 := CreateAdmissionProc(db, actorHospitalId, wardId, patient, newId).db;
      var r := DischargeProc(db1, actorHospitalId, newId);
      r.Done? && r.db.wards == db.wards
  {
    var r1 := CreateAdmissionProc(db, actorHospitalId, wardId, patient, newId);
    var db1 := r1.db;
    var k := |db.admissions|;
    assert db1.admissions[k].id == newId;
    assert AdmissionIndex(db1.admissions, newId) == Some(k) by {
      forall m | 0 <= m < k ensures db1.admissions[m].id != newId {
        assert db1.admissions[m] == db.admissions[m];
      }
    }
    var i := WardIndex(db.wards, wardId).value;
    assert WardIndex(db1.wards, wardId) == Some(i) by {
      FirstIndexSame(db.wards, db1.wards, (w: Ward) => w.id == wardId);
    }
    var r := DischargeProc(db1, actorHospitalId, newId);
    assert r.db.wards == db.wards;
  }

  /** A new ward enters with every bed available. */
  function InsertWard(db: Db, w: Ward): (r: Db)
    ensures r.wards == db.wards + [w] && r.admissions == db.admissions
  {
    db.(wards := db.wards + [w])
  }

  /** Inserting a ward with a fresh id and all of its beds available keeps
      the ledger consistent. */
  lemma {:induction false} InsertWardPreservesConsistency(db: Db, w: Ward)
    requires Consistent(db)
    requires WardIndex(db.wards, w.id).None?
    requires 0 <= w.availableBeds == w.totalBeds
    ensures Consistent(InsertWard(db, w))
  {
    var r := InsertWard(db, w);
    assert Occupied(db.admissions, w.id) == 0 by {
      forall k | 0 <= k < |db.admissions| ensures Occupies(w.id)(db.admissions[k]) == 0 {
        assert db.admissions[k].status == Admitted ==> WardIndex(db.wards, db.admissions[k].wardId).Some?;
      }
      SumByNonNegative(db.admissions, Occupies(w.id));
    }
    forall m | 0 <= m < |r.admissions| && r.admissions[m].status == Admitted
      ensures WardIndex(r.wards, r.admissions[m].wardId).Some?
    {
      var id := r.admissions[m].wardId;
      var j := WardIndex(db.wards, id).value;
      assert r.wards[j].id == id;
    }
  }
}
