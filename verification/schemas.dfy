/** The request schemas of the validators, written in the rule language of
    `Schema`, with what each one accepts. */
module Schemas {
  import opened Base
  import opened Json
  import opened Numbers
  import opened Schema

  const Sexes := ["M", "F", "Other"]
  const UserRoles := ["admin", "doctor", "nurse"]

  const PatientSchema := Object([
    Field("full_name", Str([MinLen(2)])),
    Field("sex", OneOf(Sexes)),
    Field("date_of_birth", Optional(Str([]))),
    Field("phone", Optional(Str([]))),
    Field("national_id", Optional(Str([])))], false)

  const CreateAdmissionSchema := Object([
    Field("ward_id", Str([IsUuid])),
    Field("patient", PatientSchema)], false)

  const CreateUserSchema := Object([
    Field("email", Str([IsEmail])),
    Field("password", Str([MinLen(6)])),
    Field("role", OneOf(UserRoles)),
    Field("hospital_id", Str([IsUuid])),
    Field("staff_id", Str([MinLen(2)]))], false)

  /** `total_beds`: non-blank text is converted with `Number` first; the
      result must be a whole number of at least 0. */
  const TotalBedsSchema := NumberFromText(WholeNumber(0))

  const CreateWardSchema := Object([
    Field("name", Str([MinLen(2)])),
    Field("type", Str([MinLen(2)])),
    Field("total_beds", TotalBedsSchema),
    Field("hospital_id", Optional(Str([IsUuid])))], false)

  const UpdateWardCapacitySchema := Object([Field("total_beds", TotalBedsSchema)], false)

  const CreateHospitalSchema := Object([
    Field("name", Str([MinLen(2)])),
    Field("region", Optional(Str([MinLen(2)]))),
    Field("district", Optional(Str([MinLen(2)])))], false)

  const UpdateHospitalSchema := Object([
    Field("name", Optional(Str([MinLen(2)]))),
    Field("region", Optional(Str([MinLen(2)]))),
    Field("district", Optional(Str([MinLen(2)])))], true)

  const CreateReferralSchema := Object([
    Field("patient_id", Str([IsUuid])),
    Field("from_ward_id", Str([IsUuid])),
    Field("to_hospital_id", Str([IsUuid])),
    Field("reason", Optional(Str([MinLen(3)])))], false)

  const CompleteReferralSchema := Object([
    Field("ward_id", Str([IsUuid])),
    Field("bed_number", Optional(Str([MinLen(1)]))),
    Field("notes", Optional(Str([])))], false)

  const LoginSchema := Object([Field("email", Str([IsEmail])), Field("password", Str([MinLen(6)]))], false)
  const RefreshTokenSchema := Object([Field("refresh_token", Str([MinLen(1)]))], false)
  const ForgotPasswordSchema := Object([Field("email", Str([IsEmail]))], false)
  const ResetPasswordSchema := Object([Field("new_password", Str([MinLen(6)]))], false)

  /** An optional text field: absent, or a string. */
  predicate OptionalText(m: map<string, Json>, key: string) {
    key !in m || m[key].JStr?
  }

  lemma MinLenField(f: Formats, m: map<string, Json>, key: string, n: nat)
    ensures Parse(f, Str([MinLen(n)]), Get(m, key)).Accept? <==> key in m && m[key].JStr? && |m[key].s| >= n
  {
    if key in m && m[key].JStr? {
      MinLenOnly(f, n, m[key].s);
    }
  }

  lemma OptionalTextField(f: Formats, m: map<string, Json>, key: string)
    ensures Parse(f, Optional(Str([])), Get(m, key)).Accept? <==> OptionalText(m, key)
  {
  }

  /** The value of a one-rule object's only field, checked field by
      field. */
  lemma OneField(f: Formats, key: string, rule: Rule, m: map<string, Json>, nonEmpty: bool)
    ensures Parse(f, Object([Field(key, rule)], nonEmpty), Some(JObj(m))).Accept?
        ==> Parse(f, rule, Get(m, key)).Accept?
  {
    var owner := Object([Field(key, rule)], nonEmpty);
    assert owner.fields[0] == Field(key, rule);
  }

  /** `total_beds` is accepted exactly when it is a whole number of at
      least 0, or non-blank text that `Number` reads as one; blank text is
      not converted and so is rejected. */
  lemma TotalBedsAccepts(f: Formats, v: Json)
    ensures Parse(f, TotalBedsSchema, Some(v)).Accept? <==>
      || (v.JNum? && IsInteger(v.n) && v.n >= 0.0)
      || (v.JStr? && Trim(v.s) != "" && StringToNumber(v.s).Some?
          && IsInteger(StringToNumber(v.s).value) && StringToNumber(v.s).value >= 0.0)
    ensures v.JStr? && AllSpace(v.s) ==> Parse(f, TotalBedsSchema, Some(v)).Reject?
  {
    if v.JStr? {
      TrimEmptyIffBlank(v.s);
    }
  }

  /** Non-blank text goes through `Number` before the whole-number rule. */
  lemma TextBedCount(f: Formats, d: string, x: real)
    requires Trim(d) != "" && StringToNumber(d) == Some(x)
    ensures Parse(f, TotalBedsSchema, Some(JStr(d))) == Parse(f, WholeNumber(0), Some(JNum(x)))
  {
  }

  /** Decimal text such as `"12"` is accepted as `total_beds`, up to
      `MaxSafeInteger`. */
  lemma DecimalTextIsABedCount(f: Formats, n: nat)
    requires n <= MaxSafeInteger
    ensures Parse(f, TotalBedsSchema, Some(JStr(Decimal(n)))) == Accept(Some(JNum(n as real)))
  {
    var d := Decimal(n);
    StringToNumberOfDecimal(n);
    TrimOfDigits(d);
    TextBedCount(f, d, n as real);
    NaturalIsWhole(f, n);
  }

  lemma NaturalIsWhole(f: Formats, n: nat)
    ensures Parse(f, WholeNumber(0), Some(JNum(n as real))) == Accept(Some(JNum(n as real)))
  {
    assert (n as real).Floor == n;
  }

  /** A single minimum-length check is just the length test. */
  lemma MinLenOnly(f: Formats, n: nat, s: string)
    ensures AllChecksHold(f, [MinLen(n)], s) <==> |s| >= n
  {
    assert [MinLen(n)][0] == MinLen(n);
  }

  /** What the patient schema accepts: a name of at least two characters,
      one of the three sexes, and the optional text fields either absent or
      strings. */
  lemma {:induction false} PatientAccepts(f: Formats, m: map<string, Json>)
    ensures Parse(f, PatientSchema, Some(JObj(m))).Accept? <==>
      && "full_name" in m && m["full_name"].JStr? && |m["full_name"].s| >= 2
      && "sex" in m && m["sex"].JStr? && m["sex"].s in Sexes
      && OptionalText(m, "date_of_birth") && OptionalText(m, "phone") && OptionalText(m, "national_id")
  {
    var fs := PatientSchema.fields;
    MinLenField(f, m, fs[0].key, 2);
    OptionalTextField(f, m, fs[2].key);
    OptionalTextField(f, m, fs[3].key);
    OptionalTextField(f, m, fs[4].key);
    ParseFieldsHead(f, PatientSchema, 0, m);
    ParseFieldsHead(f, PatientSchema, 1, m);
    ParseFieldsHead(f, PatientSchema, 2, m);
    ParseFieldsHead(f, PatientSchema, 3, m);
    ParseFieldsHead(f, PatientSchema, 4, m);
  }

  /** The empty payload is not a valid admission request. */
  lemma EmptyAdmissionRejected(f: Formats)
    ensures Parse(f, CreateAdmissionSchema, Some(JObj(map[]))).Reject?
  {
    var fs := CreateAdmissionSchema.fields;
    assert !Parse(f, fs[0].rule, Get(map[], fs[0].key)).Accept?;
  }

  /** A UUID ward and a patient with a name and sex `F` make a valid
      admission request. */
  lemma ExampleAdmissionAccepted(f: Formats, wardId: string, name: string, sex: string)
    requires f.isUuid(wardId) && name == "Ama Mensah" && sex == "F"
    ensures Parse(f, CreateAdmissionSchema, Some(JObj(map[
      "ward_id" := JStr(wardId),
      "patient" := JObj(map["full_name" := JStr(name), "sex" := JStr(sex)])]))).Accept?
  {
    var patient := map["full_name" := JStr(name), "sex" := JStr(sex)];
    PatientAccepts(f, patient);
    assert sex in Sexes;
    var m := map["ward_id" := JStr(wardId), "patient" := JObj(patient)];
    var fs := CreateAdmissionSchema.fields;
    assert Parse(f, fs[0].rule, Get(m, fs[0].key)).Accept?;
    assert Parse(f, fs[1].rule, Get(m, fs[1].key)).Accept?;
  }

  /** A role outside admin, doctor and nurse is refused, whatever the other
      fields are. */
  lemma UnknownRoleRejected(f: Formats, m: map<string, Json>, role: string)
    requires "role" in m && m["role"] == JStr(role) && role !in UserRoles
    ensures Parse(f, CreateUserSchema, Some(JObj(m))).Reject?
  {
    var fs := CreateUserSchema.fields;
    assert !Parse(f, fs[2].rule, Get(m, fs[2].key)).Accept?;
  }

  lemma ClerkRejected(f: Formats, m: map<string, Json>, clerk: string)
    requires clerk == "clerk" && "role" in m && m["role"] == JStr(clerk)
    ensures Parse(f, CreateUserSchema, Some(JObj(m))).Reject?
  {
    UnknownRoleRejected(f, m, clerk);
  }

  /** A hospital update needs at least one known field: an object with none
      of name, region, district (other keys are stripped) is refused with
      the refinement's message. */
  lemma {:induction false} UpdateHospitalNeedsAField(f: Formats, m: map<string, Json>)
    requires "name" !in m && "region" !in m && "district" !in m
    ensures Parse(f, UpdateHospitalSchema, Some(JObj(m))) == Reject(Flattened([AtLeastOneField], []))
  {
    var fs := UpdateHospitalSchema.fields;
    assert forall j :: 0 <= j < |fs| ==> Get(m, fs[j].key).None?;
    var (out, bad) := ParseFields(f, UpdateHospitalSchema, 0, m);
    assert bad == [];
    assert |out| == 0;
  }

  /** `resetPassword`'s own check: a missing or empty password, or one
      shorter than 6 characters, is refused. */
  predicate ResetPasswordRefused(newPassword: Option<string>) {
    !Present(newPassword) || |newPassword.value| < 6
  }

  /** The reset-password schema and the handler's own check agree on every
      string password. */
  lemma ResetPasswordThresholdsAgree(f: Formats, p: string)
    ensures Parse(f, ResetPasswordSchema, Some(JObj(map["new_password" := JStr(p)]))).Accept?
        <==> !ResetPasswordRefused(Some(p))
  {
    var m := map["new_password" := JStr(p)];
    var fs := ResetPasswordSchema.fields;
    assert fs[0] == Field("new_password", Str([MinLen(6)]));
    assert Get(m, fs[0].key) == Some(JStr(p));
    MinLenOnly(f, 6, p);
    assert ParseFields(f, ResetPasswordSchema, 0, m).1 == [] <==> |p| >= 6;
  }

  /** A field with a single check: present, text, and passing it. */
  lemma CheckedField(f: Formats, m: map<string, Json>, key: string, c: Check)
    ensures Parse(f, Str([c]), Get(m, key)).Accept? <==> key in m && m[key].JStr? && CheckHolds(f, c, m[key].s)
  {
    assert [c][0] == c;
  }

  /** An optional field with a single check: absent, or text passing it. */
  lemma OptionalCheckedField(f: Formats, m: map<string, Json>, key: string, c: Check)
    ensures Parse(f, Optional(Str([c])), Get(m, key)).Accept? <==>
      key !in m || (m[key].JStr? && CheckHolds(f, c, m[key].s))
  {
    CheckedField(f, m, key, c);
  }

  /** What the user-creation schema accepts: an email, a password of at
      least six characters, one of the three roles, a UUID hospital and a
      staff id of at least two characters. */
  lemma CreateUserAccepts(f: Formats, m: map<string, Json>)
    ensures Parse(f, CreateUserSchema, Some(JObj(m))).Accept? <==>
      && "email" in m && m["email"].JStr? && f.isEmail(m["email"].s)
      && "password" in m && m["password"].JStr? && |m["password"].s| >= 6
      && "role" in m && m["role"].JStr? && m["role"].s in UserRoles
      && "hospital_id" in m && m["hospital_id"].JStr? && f.isUuid(m["hospital_id"].s)
      && "staff_id" in m && m["staff_id"].JStr? && |m["staff_id"].s| >= 2
  {
    CreateUserFields(f, m);
    CheckedField(f, m, "email", IsEmail);
    CheckedField(f, m, "password", MinLen(6));
    CheckedField(f, m, "hospital_id", IsUuid);
    CheckedField(f, m, "staff_id", MinLen(2));
  }

  /** The user-creation schema field by field. */
  lemma {:induction false} CreateUserFields(f: Formats, m: map<string, Json>)
    ensures Parse(f, CreateUserSchema, Some(JObj(m))).Accept? <==>
      && Parse(f, Str([IsEmail]), Get(m, "email")).Accept?
      && Parse(f, Str([MinLen(6)]), Get(m, "password")).Accept?
      && Parse(f, OneOf(UserRoles), Get(m, "role")).Accept?
      && Parse(f, Str([IsUuid]), Get(m, "hospital_id")).Accept?
      && Parse(f, Str([MinLen(2)]), Get(m, "staff_id")).Accept?
  {
    var fs := CreateUserSchema.fields;
    ParseFieldsHead(f, CreateUserSchema, 0, m);
    ParseFieldsHead(f, CreateUserSchema, 1, m);
    ParseFieldsHead(f, CreateUserSchema, 2, m);
    ParseFieldsHead(f, CreateUserSchema, 3, m);
    ParseFieldsHead(f, CreateUserSchema, 4, m);
  }

  /** A bed count as `total_beds` accepts it. */
  predicate BedCount(m: map<string, Json>) {
    "total_beds" in m && Parse(Formats((s: string) => true, (s: string) => true), TotalBedsSchema, Some(m["total_beds"])).Accept?
  }

  /** The `total_beds` rule does not consult the format tests. */
  lemma BedCountIgnoresFormats(f: Formats, v: Json)
    ensures Parse(f, TotalBedsSchema, Some(v)) == Parse(Formats((s: string) => true, (s: string) => true), TotalBedsSchema, Some(v))
  {
  }

  /** What the ward-creation schema accepts: name and type of at least two
      characters, a bed count, and an optional UUID hospital. */
  lemma {:induction false} CreateWardAccepts(f: Formats, m: map<string, Json>)
    ensures Parse(f, CreateWardSchema, Some(JObj(m))).Accept? <==>
      && "name" in m && m["name"].JStr? && |m["name"].s| >= 2
      && "type" in m && m["type"].JStr? && |m["type"].s| >= 2
      && BedCount(m)
      && ("hospital_id" !in m || (m["hospital_id"].JStr? && f.isUuid(m["hospital_id"].s)))
  {
    CreateWardFields(f, m);
    CheckedField(f, m, "name", MinLen(2));
    CheckedField(f, m, "type", MinLen(2));
    OptionalCheckedField(f, m, "hospital_id", IsUuid);
    if "total_beds" in m {
      BedCountIgnoresFormats(f, m["total_beds"]);
    }
  }

  /** The ward-creation schema field by field. */
  lemma {:induction false} CreateWardFields(f: Formats, m: map<string, Json>)
    ensures Parse(f, CreateWardSchema, Some(JObj(m))).Accept? <==>
      && Parse(f, Str([MinLen(2)]), Get(m, "name")).Accept?
      && Parse(f, Str([MinLen(2)]), Get(m, "type")).Accept?
      && Parse(f, TotalBedsSchema, Get(m, "total_beds")).Accept?
      && Parse(f, Optional(Str([IsUuid])), Get(m, "hospital_id")).Accept?
  {
    ParseFieldsHead(f, CreateWardSchema, 0, m);
    ParseFieldsHead(f, CreateWardSchema, 1, m);
    ParseFieldsHead(f, CreateWardSchema, 2, m);
    ParseFieldsHead(f, CreateWardSchema, 3, m);
  }

  /** A capacity update is checked on `total_beds` alone, by the same rule
      as at creation. */
  lemma {:induction false} UpdateWardCapacityAccepts(f: Formats, m: map<string, Json>)
    ensures Parse(f, UpdateWardCapacitySchema, Some(JObj(m))).Accept? <==> BedCount(m)
  {
    var fs := UpdateWardCapacitySchema.fields;
    if "total_beds" in m {
      BedCountIgnoresFormats(f, m["total_beds"]);
    }
    ParseFieldsHead(f, UpdateWardCapacitySchema, 0, m);
  }

  /** Absent, or text of at least `n` characters. */
  predicate OptionalMinLen(m: map<string, Json>, key: string, n: nat) {
    key !in m || (m[key].JStr? && |m[key].s| >= n)
  }

  /** What the hospital-creation schema accepts: a name of at least two
      characters; region and district absent or of at least two. */
  lemma {:induction false} CreateHospitalAccepts(f: Formats, m: map<string, Json>)
    ensures Parse(f, CreateHospitalSchema, Some(JObj(m))).Accept? <==>
      && "name" in m && m["name"].JStr? && |m["name"].s| >= 2
      && OptionalMinLen(m, "region", 2) && OptionalMinLen(m, "district", 2)
  {
    var fs := CreateHospitalSchema.fields;
    CheckedField(f, m, fs[0].key, MinLen(2));
    OptionalCheckedField(f, m, fs[1].key, MinLen(2));
    OptionalCheckedField(f, m, fs[2].key, MinLen(2));
    ParseFieldsHead(f, CreateHospitalSchema, 0, m);
    ParseFieldsHead(f, CreateHospitalSchema, 1, m);
    ParseFieldsHead(f, CreateHospitalSchema, 2, m);
  }

  /** What the hospital-update schema accepts: every field absent or of at
      least two characters, and at least one of them present. */
  lemma {:induction false} UpdateHospitalAccepts(f: Formats, m: map<string, Json>)
    ensures Parse(f, UpdateHospitalSchema, Some(JObj(m))).Accept? <==>
      && OptionalMinLen(m, "name", 2) && OptionalMinLen(m, "region", 2) && OptionalMinLen(m, "district", 2)
      && ("name" in m || "region" in m || "district" in m)
  {
    OptionalCheckedField(f, m, "name", MinLen(2));
    OptionalCheckedField(f, m, "region", MinLen(2));
    OptionalCheckedField(f, m, "district", MinLen(2));
    UpdateHospitalFields(f, m);
    if "name" in m || "region" in m || "district" in m {
      UpdateHospitalKeepsAField(f, m);
    } else {
      UpdateHospitalNeedsAField(f, m);
    }
  }

  /** A valid update naming a known field keeps that field in its output. */
  lemma {:induction false} UpdateHospitalKeepsAField(f: Formats, m: map<string, Json>)
    requires "name" in m || "region" in m || "district" in m
    ensures var (out, bad) := ParseFields(f, UpdateHospitalSchema, 0, m);
      bad == [] ==> |out| > 0
  {
    var fs := UpdateHospitalSchema.fields;
    var (out, bad) := ParseFields(f, UpdateHospitalSchema, 0, m);
    if bad == [] {
      var j := if "name" in m then 0 else if "region" in m then 1 else 2;
      ParseFieldsOutput(f, UpdateHospitalSchema, 0, m, j);
      assert fs[j].key in out;
    }
  }

  /** The hospital-update fields, each checked on its own. */
  lemma {:induction false} UpdateHospitalFields(f: Formats, m: map<string, Json>)
    ensures ParseFields(f, UpdateHospitalSchema, 0, m).1 == [] <==>
      && Parse(f, Optional(Str([MinLen(2)])), Get(m, "name")).Accept?
      && Parse(f, Optional(Str([MinLen(2)])), Get(m, "region")).Accept?
      && Parse(f, Optional(Str([MinLen(2)])), Get(m, "district")).Accept?
  {
    ParseFieldsHead(f, UpdateHospitalSchema, 0, m);
    ParseFieldsHead(f, UpdateHospitalSchema, 1, m);
    ParseFieldsHead(f, UpdateHospitalSchema, 2, m);
  }

  /** What the referral-creation schema accepts: three UUIDs, and a reason
      that is absent or of at least three characters. */
  lemma {:induction false} CreateReferralAccepts(f: Formats, m: map<string, Json>)
    ensures Parse(f, CreateReferralSchema, Some(JObj(m))).Accept? <==>
      && "patient_id" in m && m["patient_id"].JStr? && f.isUuid(m["patient_id"].s)
      && "from_ward_id" in m && m["from_ward_id"].JStr? && f.isUuid(m["from_ward_id"].s)
      && "to_hospital_id" in m && m["to_hospital_id"].JStr? && f.isUuid(m["to_hospital_id"].s)
      && OptionalMinLen(m, "reason", 3)
  {
    CreateReferralFields(f, m);
    CheckedField(f, m, "patient_id", IsUuid);
    CheckedField(f, m, "from_ward_id", IsUuid);
    CheckedField(f, m, "to_hospital_id", IsUuid);
    OptionalCheckedField(f, m, "reason", MinLen(3));
  }

  /** The referral-creation schema field by field. */
  lemma {:induction false} CreateReferralFields(f: Formats, m: map<string, Json>)
    ensures Parse(f, CreateReferralSchema, Some(JObj(m))).Accept? <==>
      && Parse(f, Str([IsUuid]), Get(m, "patient_id")).Accept?
      && Parse(f, Str([IsUuid]), Get(m, "from_ward_id")).Accept?
      && Parse(f, Str([IsUuid]), Get(m, "to_hospital_id")).Accept?
      && Parse(f, Optional(Str([MinLen(3)])), Get(m, "reason")).Accept?
  {
    ParseFieldsHead(f, CreateReferralSchema, 0, m);
    ParseFieldsHead(f, CreateReferralSchema, 1, m);
    ParseFieldsHead(f, CreateReferralSchema, 2, m);
    ParseFieldsHead(f, CreateReferralSchema, 3, m);
  }

  /** What the completion schema accepts: a UUID ward, a bed number that is
      absent or non-empty, and notes that are absent or text. */
  lemma {:induction false} CompleteReferralAccepts(f: Formats, m: map<string, Json>)
    ensures Parse(f, CompleteReferralSchema, Some(JObj(m))).Accept? <==>
      && "ward_id" in m && m["ward_id"].JStr? && f.isUuid(m["ward_id"].s)
      && OptionalMinLen(m, "bed_number", 1)
      && OptionalText(m, "notes")
  {
    var fs := CompleteReferralSchema.fields;
    CheckedField(f, m, fs[0].key, IsUuid);
    OptionalCheckedField(f, m, fs[1].key, MinLen(1));
    OptionalTextField(f, m, fs[2].key);
    ParseFieldsHead(f, CompleteReferralSchema, 0, m);
    ParseFieldsHead(f, CompleteReferralSchema, 1, m);
    ParseFieldsHead(f, CompleteReferralSchema, 2, m);
  }

  /** What the authentication schemas accept: login needs an email and a
      password of at least six characters; a refresh needs a non-empty
      token; a reset request needs an email; a new password needs at
      least six characters. */
  lemma {:induction false} AuthSchemasAccept(f: Formats, m: map<string, Json>)
    ensures Parse(f, LoginSchema, Some(JObj(m))).Accept? <==>
      && "email" in m && m["email"].JStr? && f.isEmail(m["email"].s)
      && "password" in m && m["password"].JStr? && |m["password"].s| >= 6
    ensures Parse(f, RefreshTokenSchema, Some(JObj(m))).Accept? <==>
      "refresh_token" in m && m["refresh_token"].JStr? && |m["refresh_token"].s| >= 1
    ensures Parse(f, ForgotPasswordSchema, Some(JObj(m))).Accept? <==>
      "email" in m && m["email"].JStr? && f.isEmail(m["email"].s)
    ensures Parse(f, ResetPasswordSchema, Some(JObj(m))).Accept? <==>
      "new_password" in m && m["new_password"].JStr? && |m["new_password"].s| >= 6
  {
    var ls := LoginSchema.fields;
    CheckedField(f, m, ls[0].key, IsEmail);
    CheckedField(f, m, ls[1].key, MinLen(6));
    ParseFieldsHead(f, LoginSchema, 0, m);
    ParseFieldsHead(f, LoginSchema, 1, m);
    var rs := RefreshTokenSchema.fields;
    CheckedField(f, m, rs[0].key, MinLen(1));
    assert ParseFields(f, RefreshTokenSchema, 0, m).1 == [] <==> Parse(f, rs[0].rule, Get(m, rs[0].key)).Accept?;
    var ps := ForgotPasswordSchema.fields;
    assert ParseFields(f, ForgotPasswordSchema, 0, m).1 == [] <==> Parse(f, ps[0].rule, Get(m, ps[0].key)).Accept?;
    var ns := ResetPasswordSchema.fields;
    CheckedField(f, m, ns[0].key, MinLen(6));
    assert ParseFields(f, ResetPasswordSchema, 0, m).1 == [] <==> Parse(f, ns[0].rule, Get(m, ns[0].key)).Accept?;
  }

  /** Every request schema declares each key once, so validating a
      request again with it changes nothing. */
  lemma SchemasAreWellFormed()
    ensures WellFormed(PatientSchema) && WellFormed(CreateAdmissionSchema) && WellFormed(CreateUserSchema)
    ensures WellFormed(CreateWardSchema) && WellFormed(UpdateWardCapacitySchema)
    ensures WellFormed(CreateHospitalSchema) && WellFormed(UpdateHospitalSchema)
    ensures WellFormed(CreateReferralSchema) && WellFormed(CompleteReferralSchema)
    ensures WellFormed(LoginSchema) && WellFormed(RefreshTokenSchema)
    ensures WellFormed(ForgotPasswordSchema) && WellFormed(ResetPasswordSchema)
  {
    PatientWellFormed();
    UserWellFormed();
    WardWellFormed();
    HospitalWellFormed();
    ReferralWellFormed();
  }

  lemma PatientWellFormed()
    ensures WellFormed(PatientSchema) && WellFormed(CreateAdmissionSchema)
  {
    assert UniqueKeys(PatientSchema.fields);
  }

  lemma UserWellFormed()
    ensures WellFormed(CreateUserSchema)
  {
    assert UniqueKeys(CreateUserSchema.fields);
  }

  lemma WardWellFormed()
    ensures WellFormed(CreateWardSchema) && WellFormed(UpdateWardCapacitySchema)
  {
    assert UniqueKeys(CreateWardSchema.fields);
  }

  lemma HospitalWellFormed()
    ensures WellFormed(CreateHospitalSchema) && WellFormed(UpdateHospitalSchema)
  {
    assert UniqueKeys(CreateHospitalSchema.fields);
    assert UniqueKeys(UpdateHospitalSchema.fields);
  }

  lemma ReferralWellFormed()
    ensures WellFormed(CreateReferralSchema) && WellFormed(CompleteReferralSchema)
  {
    assert UniqueKeys(CreateReferralSchema.fields);
    assert UniqueKeys(CompleteReferralSchema.fields);
  }
}
