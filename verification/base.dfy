/** Shared building blocks: optional values and the JavaScript string
    operations the handlers rely on (truthiness, `trim`, `toLowerCase`,
    `includes`). */
module Base {

  /** A value that may be absent (JavaScript `undefined` or `null`). */
  datatype Option<+T> = None | Some(value: T) {
    function GetOr(default: T): T {
      match this
      case Some(v) => v
      case None => default
    }
  }

  /** Row identifiers (UUIDs in the database) are opaque strings. */
  type Id = string

  /** The query filter `.eq(column, value)`, that is `column = value` in
      SQL: a null on either side matches nothing. */
  predicate SqlEq(column: Option<Id>, value: Option<Id>) {
    column.Some? && value.Some? && column.value == value.value
  }

  /** A string field that JavaScript treats as truthy: present and non-empty. */
  predicate Present(s: Option<string>) {
    s.Some? && s.value != ""
  }

  /** `x || fallback` for an optional string: the empty string is falsy too. */
  function OrElse(s: Option<string>, fallback: Option<string>): (r: Option<string>)
    ensures Present(s) ==> r == s
    ensures !Present(s) ==> r == fallback
  {
    if Present(s) then s else fallback
  }

  /** The characters JavaScript's `String.prototype.trim` removes, which are
      also the characters the regular-expression class `\s` matches. */
  predicate IsSpace(c: char) {
    || c == ' ' || c == '\t' || c == '\n' || c == '\U{0B}' || c == '\U{0C}' || c == '\r'
    || c == '\U{A0}' || c == '\U{1680}' || ('\U{2000}' <= c <= '\U{200A}')
    || c == '\U{2028}' || c == '\U{2029}' || c == '\U{202F}' || c == '\U{205F}'
    || c == '\U{3000}' || c == '\U{FEFF}'
  }

  predicate AllSpace(s: string) {
    forall i :: 0 <= i < |s| ==> IsSpace(s[i])
  }

  /** Dropping one more leading space keeps the trimmed text a suffix
      preceded only by spaces. */
  lemma TrimStartStep(s: string, r: string)
    requires |s| > 0 && IsSpace(s[0])
    requires |r| <= |s| - 1 && r == s[1..][|s| - 1 - |r|..]
    requires AllSpace(s[1..][..|s| - 1 - |r|])
    ensures |r| <= |s| && r == s[|s| - |r|..]
    ensures AllSpace(s[..|s| - |r|])
  {
    assert s[1..][|s| - 1 - |r|..] == s[|s| - |r|..];
    var k := |s| - |r|;
    forall i | 1 <= i < k ensures IsSpace(s[..k][i]) {
      assert s[..k][i] == s[1..][..k - 1][i - 1];
    }
  }

  /** Drops leading white space. */
  function TrimStart(s: string): (r: string)
    ensures |r| <= |s| && r == s[|s| - |r|..]
    ensures r == [] || !IsSpace(r[0])
  {
    if |s| > 0 && IsSpace(s[0]) then
      var r := TrimStart(s[1..]);
      assert s[1..][|s| - 1 - |r|..] == s[|s| - |r|..];
      r
    else s
  }

  /** What `TrimStart` drops is white space. */
  lemma {:induction false} TrimStartDropsSpace(s: string)
    ensures AllSpace(s[..|s| - |TrimStart(s)|])
  {
    if |s| > 0 && IsSpace(s[0]) {
      TrimStartDropsSpace(s[1..]);
      TrimStartStep(s, TrimStart(s[1..]));
    }
  }

  /** Drops trailing white space. */
  function TrimEnd(s: string): (r: string)
    ensures |r| <= |s| && r == s[..|r|]
    ensures r == [] || !IsSpace(r[|r| - 1])
  {
    if |s| > 0 && IsSpace(s[|s| - 1]) then TrimEnd(s[..|s| - 1]) else s
  }

  /** What `TrimEnd` drops is white space. */
  lemma {:induction false} TrimEndDropsSpace(s: string)
    ensures AllSpace(s[|TrimEnd(s)|..])
  {
    if |s| > 0 && IsSpace(s[|s| - 1]) {
      var r := TrimEnd(s[..|s| - 1]);
      TrimEndDropsSpace(s[..|s| - 1]);
      assert s[..|s| - 1][|r|..] == s[|r|..|s| - 1];
    }
  }

  /** JavaScript's `s.trim()`. */
  function Trim(s: string): string {
    TrimEnd(TrimStart(s))
  }

  /** `s.trim()` is empty exactly when every character of `s` is white space,
      so `s.trim() !== ''` is the test for a non-blank string. */
  lemma TrimEmptyIffBlank(s: string)
    ensures Trim(s) == "" <==> AllSpace(s)
  {
    var t := TrimStart(s);
    TrimStartDropsSpace(s);
    TrimEndDropsSpace(t);
    if t == [] {
      assert s[..|s|] == s;
    } else {
      assert !IsSpace(s[|s| - |t|]) by {
        assert t[0] == s[|s| - |t|];
      }
      assert TrimEnd(t) != "" by {
        assert !IsSpace(t[0]);
        assert AllSpace(t[|TrimEnd(t)|..]);
      }
    }
  }

  /** ASCII case folding; JavaScript's `toLowerCase` on the ASCII range. */
  function LowerChar(c: char): char {
    if 'A' <= c <= 'Z' then (c as int + 32) as char else c
  }

  function Lower(s: string): (r: string)
    ensures |r| == |s|
  {
    if s == [] then [] else [LowerChar(s[0])] + Lower(s[1..])
  }

  /** Folding works character by character. */
  lemma {:induction false} LowerAt(s: string)
    ensures forall i :: 0 <= i < |s| ==> Lower(s)[i] == LowerChar(s[i])
  {
    if s != [] {
      LowerAt(s[1..]);
    }
  }

  /** Folding twice is folding once. */
  lemma LowerIsIdempotent(s: string)
    ensures Lower(Lower(s)) == Lower(s)
  {
    var l := Lower(s);
    LowerAt(s);
    LowerAt(l);
    assert forall i :: 0 <= i < |l| ==> Lower(l)[i] == l[i];
  }

  /** Case-insensitive equality, `a.toLowerCase() === b.toLowerCase()`. */
  predicate SameIgnoringCase(a: string, b: string) {
    Lower(a) == Lower(b)
  }

  /** Case-insensitive equality is an equivalence relation, so filtering
      with it does not depend on which side is the query. */
  lemma SameIgnoringCaseIsEquivalence(a: string, b: string, c: string)
    ensures SameIgnoringCase(a, a)
    ensures SameIgnoringCase(a, b) ==> SameIgnoringCase(b, a)
    ensures SameIgnoringCase(a, b) && SameIgnoringCase(b, c) ==> SameIgnoringCase(a, c)
  {
  }

  /** `sub` occurs in `s` starting at index `i`. */
  predicate OccursAt(s: string, sub: string, i: int) {
    0 <= i <= |s| - |sub| && s[i..i + |sub|] == sub
  }

  /** JavaScript's `s.includes(sub)`. */
  predicate Contains(s: string, sub: string) {
    exists i :: 0 <= i <= |s| - |sub| && OccursAt(s, sub, i)
  }

  lemma ContainsItself(s: string)
    ensures Contains(s, s)
  {
    assert s[0..|s|] == s;
    assert OccursAt(s, s, 0);
  }

  /** A string cannot contain a text one of whose characters it lacks; used to
      show that the error codes of one stored procedure never contain each
      other. */
  lemma MissingCharNotContained(s: string, sub: string, j: nat)
    requires j < |sub| && sub[j] !in s
    ensures !Contains(s, sub)
  {
    forall i | 0 <= i <= |s| - |sub|
      ensures !OccursAt(s, sub, i)
    {
      assert s[i..i + |sub|][j] == s[i + j];
    }
  }
}

/** The HTTP status codes the handlers answer with. */
module Http {
  const OkStatus := 200
  const Created := 201
  const BadRequest := 400
  const Unauthorized := 401
  const Forbidden := 403
  const NotFound := 404
  const Conflict := 409
  const InternalError := 500

  /** The status and public message an error is answered with. */
  datatype HttpError = HttpError(status: int, message: string)

  /** A handler's answer: a success status with its payload, or an error
      status with the message the client sees in `{ error }`. */
  datatype Reply<T> = Ok(status: int, value: T) | Fail(status: int, message: string)
}
