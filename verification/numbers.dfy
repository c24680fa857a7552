/** The two JavaScript string-to-number conversions the handlers use:
    `parseInt(s, 10)` (query parameters) and `Number(s)` (request bodies),
    restricted to plain decimal notation. `None` stands for `NaN`. */
module Numbers {
  import opened Base

  predicate IsDigit(c: char) {
    '0' <= c <= '9'
  }

  predicate AllDigits(s: string) {
    forall i :: 0 <= i < |s| ==> IsDigit(s[i])
  }

  /** The value of a digit character; other characters count as 0, which
      never matters because only runs of digits are read. */
  function DigitValue(c: char): nat {
    if IsDigit(c) then c as int - '0' as int else 0
  }

  function DigitChar(d: nat): (c: char)
    requires d < 10
    ensures IsDigit(c) && DigitValue(c) == d
  {
    ('0' as int + d) as char
  }

  /** The value of a run of decimal digits, most significant first. */
  function DigitsValue(ds: string): nat {
    if ds == [] then 0 else DigitsValue(ds[..|ds| - 1]) * 10 + DigitValue(ds[|ds| - 1])
  }

  /** Length of the longest prefix of `s` made of digits. */
  function DigitRun(s: string): (n: nat)
    ensures n <= |s|
    ensures n == |s| || !IsDigit(s[n])
  {
    if |s| > 0 && IsDigit(s[0]) then 1 + DigitRun(s[1..]) else 0
  }

  /** The run `DigitRun` measures is made of digits only. */
  lemma {:induction false} DigitRunIsDigits(s: string)
    ensures AllDigits(s[..DigitRun(s)])
  {
    if |s| > 0 && IsDigit(s[0]) {
      DigitRunIsDigits(s[1..]);
      var n := DigitRun(s);
      assert s[..n] == [s[0]] + s[1..][..n - 1];
    }
  }

  /** The canonical decimal spelling of a natural number. */
  function Decimal(n: nat): (s: string)
    ensures |s| > 0 && AllDigits(s)
  {
    if n < 10 then [DigitChar(n)] else Decimal(n / 10) + [DigitChar(n % 10)]
  }

  /** The value of the digits after a decimal point: `0.d1d2...`. */
  function FractionValue(ds: string): (v: real)
    ensures 0.0 <= v <= 1.0
  {
    if ds == [] then 0.0 else (DigitValue(ds[0]) as real + FractionValue(ds[1..])) / 10.0
  }

  /** A leading `+` or `-`: the sign and the rest of the text. */
  function SplitSign(t: string): (int, string) {
    if |t| > 0 && (t[0] == '-' || t[0] == '+') then
      (if t[0] == '-' then -1 else 1, t[1..])
    else (1, t)
  }

  /** `parseInt(s, 10)`: leading white space and one sign are skipped, then
      the longest run of digits is read and anything after it is ignored;
      no digit at all gives `NaN`. */
  function ParseInt(s: string): (r: Option<int>) {
    if |s| > 0 && IsSpace(s[0]) then ParseInt(s[1..]) else ParseSigned(s)
  }

  /** `parseInt` once the white space is gone: an optional sign, then the
      longest run of digits. */
  function ParseSigned(t: string): Option<int> {
    var (sign, body) := SplitSign(t);
    var n := DigitRun(body);
    if n == 0 then None else Some(sign * DigitsValue(body[..n]))
  }

  /** Skipping white space one character at a time is reading the text
      `trimStart` leaves. */
  lemma {:induction false} ParseIntReadsTrimmed(s: string)
    ensures ParseInt(s) == ParseSigned(TrimStart(s))
  {
    if |s| > 0 && IsSpace(s[0]) {
      ParseIntReadsTrimmed(s[1..]);
    }
  }

  /** `parseInt` gives `NaN` exactly when no digit follows the white space
      and the sign. */
  lemma ParseIntNaN(s: string)
    ensures ParseInt(s).None? <==> DigitRun(SplitSign(TrimStart(s)).1) == 0
    ensures ParseInt(s).Some? ==> AllDigits(SplitSign(TrimStart(s)).1[..DigitRun(SplitSign(TrimStart(s)).1)])
  {
    ParseIntReadsTrimmed(s);
    DigitRunIsDigits(SplitSign(TrimStart(s)).1);
  }

  /** A query parameter that may be absent; `parseInt(undefined, 10)` is
      `NaN`. */
  function ParseIntParam(p: Option<string>): Option<int> {
    match p
    case None => None
    case Some(s) => ParseInt(s)
  }

  /** An unsigned decimal literal: digits, optionally followed by a point and
      more digits, with at least one digit in all and nothing after. */
  function UnsignedDecimal(t: string): Option<real> {
    var n := DigitRun(t);
    var rest := t[n..];
    if rest == [] then
      if n == 0 then None else Some(DigitsValue(t[..n]) as real)
    else if rest[0] != '.' then None
    else
      var f := DigitRun(rest[1..]);
      if f != |rest| - 1 || (n == 0 && f == 0) then None
      else
        Some(DigitsValue(t[..n]) as real + FractionValue(rest[1..]))
  }

  /** `Number(s)` for a string: surrounding white space is ignored, the empty
      (or blank) string is 0, and otherwise the whole text must be a signed
      decimal literal. */
  function StringToNumber(s: string): Option<real> {
    var t := Trim(s);
    if t == "" then Some(0.0)
    else
      var (sign, body) := SplitSign(t);
      match UnsignedDecimal(body)
      case None => None
      case Some(v) => Some(sign as real * v)
  }

  /** Blank text, the empty string included, converts to 0. */
  lemma BlankIsZero(s: string)
    requires AllSpace(s)
    ensures StringToNumber(s) == Some(0.0)
  {
    TrimEmptyIffBlank(s);
  }

  /** `Number.isInteger`. */
  predicate IsInteger(r: real) {
    r == r.Floor as real
  }

  /** Reading back the canonical spelling gives the number. */
  lemma {:induction false} DigitsValueOfDecimal(n: nat)
    ensures DigitsValue(Decimal(n)) == n
  {
    if n >= 10 {
      var s := Decimal(n);
      assert s[..|s| - 1] == Decimal(n / 10);
      DigitsValueOfDecimal(n / 10);
    }
  }

  lemma DigitRunOfDigits(s: string, rest: string)
    requires AllDigits(s)
    requires rest == [] || !IsDigit(rest[0])
    ensures DigitRun(s + rest) == |s|
  {
    if |s| > 0 {
      assert (s + rest)[1..] == s[1..] + rest;
      DigitRunOfDigits(s[1..], rest);
    }
  }

  /** `Number.MAX_SAFE_INTEGER`, 2^53 - 1. Every integer up to it is a
      double, so JavaScript reads its decimal text back without rounding. */
  const MaxSafeInteger: nat := 0x1F_FFFF_FFFF_FFFF

  /** `parseInt` inverts `Decimal` up to `MaxSafeInteger`, also with a sign
      and with trailing text that does not start with a digit
      (`parseInt("12abc", 10) === 12`). */
  lemma ParseIntOfDecimal(n: nat, rest: string)
    requires n <= MaxSafeInteger
    requires rest == [] || !IsDigit(rest[0])
    ensures ParseInt(Decimal(n) + rest) == Some(n)
    ensures ParseInt("-" + Decimal(n) + rest) == Some(-(n as int))
  {
    ParseIntReadsDigits(n, rest);
  }

  /** The model's `ParseInt` reads the digits exactly for every `n`; past
      `MaxSafeInteger` JavaScript would round the value to a double. */
  lemma ParseIntReadsDigits(n: nat, rest: string)
    requires rest == [] || !IsDigit(rest[0])
    ensures ParseInt(Decimal(n) + rest) == Some(n)
    ensures ParseInt("-" + Decimal(n) + rest) == Some(-(n as int))
  {
    var d := Decimal(n);
    DigitsValueOfDecimal(n);
    DigitRunOfDigits(d, rest);
    assert !IsSpace(d[0]);
    assert (d + rest)[0] == d[0];
    assert (d + rest)[..|d|] == d;
    var m := "-" + d + rest;
    assert m[0] == '-';
    assert SplitSign(m).1 == d + rest;
  }

  lemma UnsignedDecimalOfDigits(d: string)
    requires |d| > 0 && AllDigits(d)
    ensures UnsignedDecimal(d) == Some(DigitsValue(d) as real)
  {
    DigitRunOfDigits(d, []);
    assert d + [] == d;
    assert d[..|d|] == d;
  }

  lemma TrimOfDigits(d: string)
    requires |d| > 0 && AllDigits(d)
    ensures Trim(d) == d
  {
    assert TrimStart(d) == d by {
      assert !IsSpace(d[0]);
    }
    assert !IsSpace(d[|d| - 1]);
  }

  /** `Number` inverts `Decimal` as well, up to `MaxSafeInteger`. */
  lemma StringToNumberOfDecimal(n: nat)
    requires n <= MaxSafeInteger
    ensures StringToNumber(Decimal(n)) == Some(n as real)
  {
    DecimalIsTrimmed(n);
    DecimalIsUnsigned(n);
    UnsignedDecimalOfDecimal(n);
    UnsignedLiteral(Decimal(n), n as real);
  }

  /** The canonical spelling has no surrounding white space ... */
  lemma DecimalIsTrimmed(n: nat)
    ensures Trim(Decimal(n)) == Decimal(n)
  {
    TrimOfDigits(Decimal(n));
  }

  /** ... and no sign. */
  lemma DecimalIsUnsigned(n: nat)
    ensures Decimal(n)[0] != '-' && Decimal(n)[0] != '+'
  {
    assert IsDigit(Decimal(n)[0]);
  }

  lemma UnsignedDecimalOfDecimal(n: nat)
    ensures UnsignedDecimal(Decimal(n)) == Some(n as real)
  {
    DigitsValueOfDecimal(n);
    UnsignedDecimalOfDigits(Decimal(n));
  }

  /** Unsigned text that is already trimmed reads as its literal. */
  lemma UnsignedLiteral(t: string, v: real)
    requires t != "" && Trim(t) == t && t[0] != '-' && t[0] != '+'
    requires UnsignedDecimal(t) == Some(v)
    ensures StringToNumber(t) == Some(v)
  {
    assert SplitSign(t) == (1, t);
  }
}
