/** Hospital records: creation with a required name and optional region and
    district, and the partial update an actor may make to their own
    hospital. */
module Hospitals {
  import opened Base
  import opened Json
  import opened Http

  const NameRequired := "name is required"
  const OwnHospitalOnly := "You can only update your own hospital"
  const NeedAField := "At least one of name, region, district is required"
  const HospitalNotFound := "Hospital not found"

  const NameKey := "name"
  const RegionKey := "region"
  const DistrictKey := "district"

  /** A row of `hospitals`; the columns hold whatever JSON the request
      supplied. */
  datatype HospitalRow = HospitalRow(id: Id, name: Json, region: Json, district: Json, createdAt: string)

  /** `req.body || {}` read as an object: a missing or non-object body has
      no fields. */
  function BodyFields(body: Option<Json>): map<string, Json> {
    if body.Some? && body.value.JObj? then body.value.fields else map[]
  }

  function Get(body: Option<Json>, key: string): Option<Json> {
    var fields := BodyFields(body);
    if key in fields then Some(fields[key]) else None
  }

  /** `v || null`. */
  function OrNull(v: Option<Json>): (j: Json)
    ensures TruthyField(v) ==> j == v.value
    ensures !TruthyField(v) ==> j == JNull
  {
    if TruthyField(v) then v.value else JNull
  }

  /** `createHospital`: `newId` and `createdAt` are what the database
      assigns. */
  function CreateHospital(body: Option<Json>, table: map<Id, HospitalRow>, newId: Id, createdAt: string)
    : (r: (Reply<HospitalRow>, map<Id, HospitalRow>))
    requires newId !in table
    ensures !TruthyField(Get(body, NameKey)) <==> r.0 == Fail(BadRequest, NameRequired)
    ensures r.0.Fail? ==> r.1 == table
    ensures r.0.Ok? ==>
      && r.0.status == Created
      && r.0.value.id == newId
      && r.0.value.name == Get(body, NameKey).value
      && r.0.value.region == OrNull(Get(body, RegionKey))
      && r.0.value.district == OrNull(Get(body, DistrictKey))
      && r.1 == table[newId := r.0.value]
  {
    var name := Get(body, NameKey);
    if !TruthyField(name) then (Fail(BadRequest, NameRequired), table)
    else
      var row := HospitalRow(newId, name.value, OrNull(Get(body, RegionKey)), OrNull(Get(body, DistrictKey)), createdAt);
      (Ok(Created, row), table[newId := row])
  }

  /** Creation adds exactly one hospital and leaves the others as they
      were; a falsy region or district is stored as `null`. */
  lemma CreationAddsOneHospital(body: Option<Json>, table: map<Id, HospitalRow>, newId: Id, createdAt: string)
    requires newId !in table
    ensures var (reply, after) := CreateHospital(body, table, newId, createdAt);
      && (reply.Ok? ==> |after| == |table| + 1 && after.Keys == table.Keys + {newId})
      && (forall id :: id in table ==> id in after && after[id] == table[id])
      && (reply.Ok? && Get(body, RegionKey) == Some(JStr("")) ==> after[newId].region == JNull)
  {
  }

  /** The fields of an update that are not `undefined`; a `null` or empty
      value is still sent. */
  function BuildPatch(body: Option<Json>): (patch: map<string, Json>)
    ensures forall k :: k in patch <==> k in {NameKey, RegionKey, DistrictKey} && Get(body, k).Some?
    ensures forall k :: k in patch ==> patch[k] == Get(body, k).value
  {
    var p0: map<string, Json> := map[];
    var p1 := if Get(body, NameKey).Some? then p0[NameKey := Get(body, NameKey).value] else p0;
    var p2 := if Get(body, RegionKey).Some? then p1[RegionKey := Get(body, RegionKey).value] else p1;
    if Get(body, DistrictKey).Some? then p2[DistrictKey := Get(body, DistrictKey).value] else p2
  }

  /** The row after `.update(patch)`. */
  function ApplyPatch(row: HospitalRow, patch: map<string, Json>): HospitalRow {
    HospitalRow(
      row.id,
      if NameKey in patch then patch[NameKey] else row.name,
      if RegionKey in patch then patch[RegionKey] else row.region,
      if DistrictKey in patch then patch[DistrictKey] else row.district,
      row.createdAt)
  }

  /** `updateHospital`. `actorHospital` is the caller's hospital, if any. */
  function UpdateHospital(actorHospital: Option<Id>, hospitalId: Id, body: Option<Json>, table: map<Id, HospitalRow>)
    : (r: (Reply<HospitalRow>, map<Id, HospitalRow>))
    ensures r.0.Fail? ==> r.1 == table
    // the ownership check comes first, whatever the body says
    ensures Present(actorHospital) && actorHospital.value != hospitalId ==> r.0 == Fail(Forbidden, OwnHospitalOnly)
    ensures !(Present(actorHospital) && actorHospital.value != hospitalId) ==>
      && ((!TruthyField(Get(body, NameKey)) && !TruthyField(Get(body, RegionKey)) && !TruthyField(Get(body, DistrictKey)))
            ==> r.0 == Fail(BadRequest, NeedAField))
      && (TruthyField(Get(body, NameKey)) || TruthyField(Get(body, RegionKey)) || TruthyField(Get(body, DistrictKey)) ==>
            && (hospitalId !in table ==> r.0 == Fail(NotFound, HospitalNotFound))
            && (hospitalId in table ==> r.0.Ok? && r.0.status == OkStatus))
    ensures r.0.Ok? ==>
      && hospitalId in table
      && r.1 == table[hospitalId := r.0.value]
      && r.0.value.id == table[hospitalId].id && r.0.value.createdAt == table[hospitalId].createdAt
      && r.0.value.name == (if Get(body, NameKey).Some? then Get(body, NameKey).value else table[hospitalId].name)
      && r.0.value.region == (if Get(body, RegionKey).Some? then Get(body, RegionKey).value else table[hospitalId].region)
      && r.0.value.district == (if Get(body, DistrictKey).Some? then Get(body, DistrictKey).value else table[hospitalId].district)
  {
    if Present(actorHospital) && actorHospital.value != hospitalId then (Fail(Forbidden, OwnHospitalOnly), table)
    else if !TruthyField(Get(body, NameKey)) && !TruthyField(Get(body, RegionKey)) && !TruthyField(Get(body, DistrictKey)) then
      (Fail(BadRequest, NeedAField), table)
    else
      var patch := BuildPatch(body);
      if hospitalId !in table then (Fail(NotFound, HospitalNotFound), table)
      else
        var row := ApplyPatch(table[hospitalId], patch);
        (Ok(OkStatus, row), table[hospitalId := row])
  }

  /** Every hospital is stored under its own id. */
  predicate Keyed(table: map<Id, HospitalRow>) {
    forall id :: id in table ==> table[id].id == id
  }

  /** Creation and update keep every hospital under its own id. */
  lemma WritesKeepHospitalsKeyed(body: Option<Json>, table: map<Id, HospitalRow>, newId: Id, createdAt: string,
                                 actorHospital: Option<Id>, hospitalId: Id)
    requires Keyed(table) && newId !in table
    ensures Keyed(CreateHospital(body, table, newId, createdAt).1)
    ensures Keyed(UpdateHospital(actorHospital, hospitalId, body, table).1)
    ensures var r := UpdateHospital(actorHospital, hospitalId, body, table).0;
      r.Ok? ==> r.value.id == hospitalId
  {
  }

  /** Sending the same update twice leaves the table as sending it once. */
  lemma UpdateIsIdempotent(actorHospital: Option<Id>, hospitalId: Id, body: Option<Json>, table: map<Id, HospitalRow>)
    ensures var once := UpdateHospital(actorHospital, hospitalId, body, table);
      var twice := UpdateHospital(actorHospital, hospitalId, body, once.1);
      twice.1 == once.1 && twice.0 == once.0
  {
  }

  /** An update touches only the hospital named in the path, and only the
      columns present in the body. */
  lemma UpdateChangesOnlyThatHospital(actorHospital: Option<Id>, hospitalId: Id, body: Option<Json>,
                                      table: map<Id, HospitalRow>, other: Id)
    requires other != hospitalId && other in table
    ensures var after := UpdateHospital(actorHospital, hospitalId, body, table).1;
      other in after && after[other] == table[other]
    ensures var after := UpdateHospital(actorHospital, hospitalId, body, table).1;
      hospitalId in table && Get(body, RegionKey).None? ==> after[hospitalId].region == table[hospitalId].region
  {
  }

  /** The handler on its own: an actor without a hospital of their own may
      update any hospital, and a `null` region clears it even though `null`
      alone would not count as a field. Through the route this body cannot
      arrive, because the update schema refuses a `null` region first. */
  lemma NullRegionClears(hospitalId: Id, name: string, table: map<Id, HospitalRow>)
    requires hospitalId in table && name != ""
    ensures var body := Some(JObj(map[NameKey := JStr(name), RegionKey := JNull]));
      var r := UpdateHospital(None, hospitalId, body, table);
      r.0.Ok? && r.0.value.region == JNull && r.0.value.name == JStr(name)
  {
    var body := Some(JObj(map[NameKey := JStr(name), RegionKey := JNull]));
    assert Get(body, NameKey) == Some(JStr(name));
    assert Get(body, RegionKey) == Some(JNull);
  }
}
