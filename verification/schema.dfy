/** The part of zod the request schemas use, as an interpreter over JSON
    values: strings with length and format checks, enums, whole numbers
    with a minimum, the text-to-number preprocessing of `total_beds`,
    optional fields, and objects (unknown keys stripped, optional absent
    keys omitted, an optional non-emptiness refinement). */
module Schema {
  import opened Base
  import opened Json
  import opened Numbers

  /** zod's UUID and e-mail format tests, which this model does not open
      up. */
  datatype Formats = Formats(isUuid: string -> bool, isEmail: string -> bool)

  datatype Check = MinLen(n: nat) | IsUuid | IsEmail

  datatype Rule =
    | Str(checks: seq<Check>)
    | OneOf(options: seq<string>)
    | WholeNumber(min: int)
    | NumberFromText(inner: Rule)
    | Optional(inner: Rule)
    | Object(fields: seq<Field>, nonEmpty: bool)

  datatype Field = Field(key: string, rule: Rule)

  /** `error.flatten()`: messages about the value as a whole, and the keys
      of the fields that failed. */
  datatype Flattened = Flattened(formErrors: seq<string>, fieldErrors: seq<string>)

  /** A parse accepts, with the output value (`None` when an optional value
      is absent and is left out of the output), or rejects. */
  datatype Outcome = Accept(value: Option<Json>) | Reject(details: Flattened)

  const NotAnObject := "Expected object"
  const AtLeastOneField := "At least one field is required"

  predicate CheckHolds(f: Formats, c: Check, s: string) {
    match c
    case MinLen(n) => |s| >= n
    case IsUuid => f.isUuid(s)
    case IsEmail => f.isEmail(s)
  }

  predicate AllChecksHold(f: Formats, checks: seq<Check>, s: string) {
    forall i :: 0 <= i < |checks| ==> CheckHolds(f, checks[i], s)
  }

  /** The value stored under `key`; `None` is `undefined`. */
  function Get(m: map<string, Json>, key: string): Option<Json> {
    if key in m then Some(m[key]) else None
  }

  /** `schema.safeParse(v)` for a possibly missing value. */
  function Parse(f: Formats, rule: Rule, v: Option<Json>): (o: Outcome)
    ensures o.Accept? ==> (o.value.Some? <==> v.Some?)
    ensures o.Accept? && o.value.Some? && o.value.value.JStr? ==> o.value == v
    decreases rule, 1
  {
    match rule
    case Optional(inner) => if v.None? then Accept(None) else Parse(f, inner, v)
    case Str(checks) =>
      if v.Some? && v.value.JStr? && AllChecksHold(f, checks, v.value.s) then Accept(v)
      else Reject(Flattened([], []))
    case OneOf(options) =>
      if v.Some? && v.value.JStr? && v.value.s in options then Accept(v)
      else Reject(Flattened([], []))
    case WholeNumber(min) =>
      if v.Some? && v.value.JNum? && IsInteger(v.value.n) && v.value.n >= min as real then Accept(v)
      else Reject(Flattened([], []))
    case NumberFromText(inner) =>
      if v.Some? && v.value.JStr? && Trim(v.value.s) != "" then
        match StringToNumber(v.value.s)
        case None => Reject(Flattened([], []))
        case Some(x) => Parse(f, inner, Some(JNum(x)))
      else Parse(f, inner, v)
    case Object(fields, nonEmpty) =>
      if v.Some? && v.value.JObj? then
        var (out, bad) := ParseFields(f, rule, 0, v.value.fields);
        if bad != [] then Reject(Flattened([], bad))
        else if nonEmpty && |out| == 0 then Reject(Flattened([AtLeastOneField], []))
        else Accept(Some(JObj(out)))
      else Reject(Flattened([NotAnObject], []))
  }

  /** The fields of object rule `owner` from index `i` on: the output map of
      those that are present and valid, and the keys of those that fail. */
  function ParseFields(f: Formats, owner: Rule, i: nat, input: map<string, Json>)
    : (r: (map<string, Json>, seq<string>))
    requires owner.Object? && i <= |owner.fields|
    ensures r.1 == [] <==>
      forall j :: i <= j < |owner.fields| ==> Parse(f, owner.fields[j].rule, Get(input, owner.fields[j].key)).Accept?
    decreases owner, 0, |owner.fields| - i
  {
    if i == |owner.fields| then (map[], [])
    else
      var fld := owner.fields[i];
      assert fld in owner.fields;
      var (out, bad) := ParseFields(f, owner, i + 1, input);
      match Parse(f, fld.rule, Get(input, fld.key))
      case Reject(_) => (out, [fld.key] + bad)
      case Accept(None) => (out, bad)
      case Accept(Some(x)) => (out[fld.key := x], bad)
  }

  /** The fields from `i` on pass exactly when field `i` does and the rest
      do. */
  lemma ParseFieldsHead(f: Formats, owner: Rule, i: nat, input: map<string, Json>)
    requires owner.Object? && i < |owner.fields|
    ensures ParseFields(f, owner, i, input).1 == [] <==>
      Parse(f, owner.fields[i].rule, Get(input, owner.fields[i].key)).Accept? && ParseFields(f, owner, i + 1, input).1 == []
  {
  }

  /** The output only holds keys the rule declares from `i` on. */
  lemma {:induction false} ParseFieldsKeys(f: Formats, owner: Rule, i: nat, input: map<string, Json>)
    requires owner.Object? && i <= |owner.fields|
    ensures forall k :: k in ParseFields(f, owner, i, input).0 ==>
      exists j :: i <= j < |owner.fields| && owner.fields[j].key == k
    decreases |owner.fields| - i
  {
    if i < |owner.fields| {
      ParseFieldsKeys(f, owner, i + 1, input);
    }
  }

  predicate UniqueKeys(fields: seq<Field>) {
    forall j, k :: 0 <= j < k < |fields| ==> fields[j].key != fields[k].key
  }

  /** A valid object parse keeps exactly the declared fields that are
      present, each with its own parsed value: unknown keys are stripped and
      absent optional fields stay absent. */
  lemma {:induction false} ParseFieldsOutput(f: Formats, owner: Rule, i: nat, input: map<string, Json>, j: nat)
    requires owner.Object? && i <= j < |owner.fields| && UniqueKeys(owner.fields)
    requires ParseFields(f, owner, i, input).1 == []
    ensures var out := ParseFields(f, owner, i, input).0;
      var fld := owner.fields[j];
      && (fld.key in out <==> Get(input, fld.key).Some?)
      && (fld.key in out ==> Parse(f, fld.rule, Get(input, fld.key)) == Accept(Some(out[fld.key])))
    decreases |owner.fields| - i
  {
    var fld := owner.fields[i];
    var out := ParseFields(f, owner, i + 1, input).0;
    if j > i {
      ParseFieldsOutput(f, owner, i + 1, input, j);
      assert owner.fields[j].key != fld.key;
    } else {
      ParseFieldsKeys(f, owner, i + 1, input);
      assert forall m :: i + 1 <= m < |owner.fields| ==> owner.fields[m].key != fld.key;
    }
  }

  /** Every object rule, at any depth, declares each key once. */
  predicate WellFormed(rule: Rule) {
    match rule
    case NumberFromText(inner) => WellFormed(inner)
    case Optional(inner) => WellFormed(inner)
    case Object(fields, _) => UniqueKeys(fields) && forall fld <- fields :: WellFormed(fld.rule)
    case _ => true
  }

  /** Fields that see equivalent inputs parse alike. */
  lemma {:induction false} ParseFieldsAgree(f: Formats, owner: Rule, i: nat, a: map<string, Json>, b: map<string, Json>)
    requires owner.Object? && i <= |owner.fields|
    requires forall j :: i <= j < |owner.fields| ==>
      Parse(f, owner.fields[j].rule, Get(a, owner.fields[j].key)) == Parse(f, owner.fields[j].rule, Get(b, owner.fields[j].key))
    ensures ParseFields(f, owner, i, a) == ParseFields(f, owner, i, b)
    decreases |owner.fields| - i
  {
    if i < |owner.fields| {
      ParseFieldsAgree(f, owner, i + 1, a, b);
    }
  }

  /** Parsing is idempotent: what a schema accepts, it accepts again
      unchanged. So a request that passed validation passes it again with
      the same data. */
  lemma {:induction false} ParseIdempotent(f: Formats, rule: Rule, v: Option<Json>)
    requires WellFormed(rule)
    ensures var o := Parse(f, rule, v);
      o.Accept? ==> Parse(f, rule, o.value) == o
    decreases rule
  {
    var o := Parse(f, rule, v);
    if o.Accept? {
      match rule
      case Optional(inner) =>
        if v.Some? {
          ParseIdempotent(f, inner, v);
        }
      case NumberFromText(inner) =>
        if v.Some? && v.value.JStr? && Trim(v.value.s) != "" {
          var x := StringToNumber(v.value.s).value;
          ParseIdempotent(f, inner, Some(JNum(x)));
        } else {
          ParseIdempotent(f, inner, v);
        }
      case Object(fields, nonEmpty) =>
        var input := v.value.fields;
        var out := ParseFields(f, rule, 0, input).0;
        assert o.value == Some(JObj(out));
        forall j | 0 <= j < |fields|
          ensures Parse(f, fields[j].rule, Get(out, fields[j].key)) == Parse(f, fields[j].rule, Get(input, fields[j].key))
        {
          var fld := fields[j];
          assert fld in fields;
          ParseFieldsOutput(f, rule, 0, input, j);
          ParseIdempotent(f, fld.rule, Get(input, fld.key));
        }
        ParseFieldsAgree(f, rule, 0, out, input);
      case _ =>
    }
  }
}
