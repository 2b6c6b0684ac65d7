/**
 * The values that travel through the codec. Python is dynamically typed,
 * so a cell may hold any object; `Value` lists the kinds the codec deals
 * with, and `Error` the exceptions it raises or lets through.
 */
module Values {
  import opened Wrappers
  import opened Text

  /** A `datetime.date`. */
  datatype Date = Date(year: int, month: int, day: int)

  predicate IsLeapYear(y: int) {
    y % 4 == 0 && (y % 100 != 0 || y % 400 == 0)
  }

  function DaysInMonth(y: int, m: int): (n: int)
    requires 1 <= m <= 12
    ensures 28 <= n <= 31
    ensures n == 29 <==> m == 2 && IsLeapYear(y)
  {
    if m == 2 then (if IsLeapYear(y) then 29 else 28)
    else if m == 4 || m == 6 || m == 9 || m == 11 then 30
    else 31
  }

  /** What `datetime.date(year, month, day)` accepts (MINYEAR 1, MAXYEAR 9999). */
  predicate IsValidDate(d: Date) {
    1 <= d.year <= 9999 && 1 <= d.month <= 12 && 1 <= d.day <= DaysInMonth(d.year, d.month)
  }

  /**
   * A Python object held by a record attribute or handed to a field.
   * `Dec(coef, exp)` is the `decimal.Decimal` whose value is
   * coef * 10^exp (the sign is folded into the coefficient).
   */
  datatype Value =
    | Null
    | Str(s: string)
    | Int(i: int)
    | DateVal(date: Date)
    | DateTimeVal(date: Date, hour: int, minute: int, second: int)
    | Dec(coef: int, exp: int)

  /** Exceptions other than ValidationError that escape the field code. */
  datatype RuntimeError = TypeError | ValueError | AttributeError | NameError | OverflowError

  /** The exceptions the codec raises, by kind. */
  datatype Error =
    | MissingSize                                 // 'Size cannot be null.'
    | InvalidFormat(raw: Value)                   // a field's 'invalid' message
    | InvalidChoice(value: Value)                 // 'invalid_choice'
    | InvalidValidators(messages: seq<string>)    // run_validators' aggregate
    | ReservedName(name: string)                  // a field called 'line'
    | WrongLineSize(needed: int, passed: int)     // 'String with wrong size ...'
    | InvalidRecord(errors: seq<(string, Error)>) // clean_fields' aggregate
    | Runtime(kind: RuntimeError)

  /** `date.isoformat()`, also used by `str(date)`. */
  function IsoDate(d: Date): string {
    FormatInt(4, d.year) + "-" + FormatInt(2, d.month) + "-" + FormatInt(2, d.day)
  }

  /** c * 10^k, one factor of ten at a time. */
  function ScaleUp(c: int, k: nat): (r: int)
    ensures (r >= 0) == (c >= 0)
  {
    if k == 0 then c else ScaleUp(c, k - 1) * 10
  }

  /** c // 10^k for a natural c: k decimal digits dropped from the right. */
  function ScaleDown(c: nat, k: nat): (r: nat)
    ensures r <= c
  {
    if k == 0 then c else ScaleDown(c, k - 1) / 10
  }

  /** `int(d)` for a Decimal: the value truncated towards zero. */
  function DecimalToInt(coef: int, exp: int): int {
    if exp >= 0 then ScaleUp(coef, exp)
    else if coef >= 0 then ScaleDown(coef, -exp)
    else -(ScaleDown(-coef, -exp) as int)
  }

  /**
   * `==` between Decimals compares the numbers, not the representations:
   * coef1 * 10^exp1 == coef2 * 10^exp2.
   */
  predicate SameNumber(c1: int, e1: int, c2: int, e2: int) {
    if e1 <= e2 then c1 == ScaleUp(c2, e2 - e1) else c2 == ScaleUp(c1, e1 - e2)
  }

  /**
   * Python's `==` between two values: ints and Decimals, in any mix, compare
   * as numbers; any other pair is equal only when it is the same value.
   */
  predicate PyEquals(a: Value, b: Value) {
    match (a, b)
    case (Int(i), Int(j)) => i == j
    case (Int(i), Dec(c, e)) => SameNumber(i, 0, c, e)
    case (Dec(c, e), Int(j)) => SameNumber(c, e, j, 0)
    case (Dec(c1, e1), Dec(c2, e2)) => SameNumber(c1, e1, c2, e2)
    case _ => a == b
  }

  /** `v in choices`: some choice is `==` to `v`. */
  predicate InChoices(v: Value, choices: seq<Value>) {
    exists i :: 0 <= i < |choices| && PyEquals(v, choices[i])
  }

  /**
   * `str(d)` for a finite Decimal (its to-scientific-string conversion):
   * plain notation when the exponent is at most 0 and the value is not
   * too small, otherwise one digit before the point and an `E` exponent.
   */
  function DecimalToString(coef: int, exp: int): (r: string)
    ensures |r| > 0 && (r[0] == '-' <==> coef < 0)
    ensures exp == 0 ==> r == IntToString(coef)
  {
    var digits := NatToString(if coef < 0 then -coef else coef);
    var n := |digits|;
    var left := exp + n;
    var dot := if exp <= 0 && left > -6 then left else 1;
    var intPart :=
      if dot <= 0 then "0"
      else if dot >= n then digits + Repeat('0', dot - n)
      else digits[..dot];
    var fracPart :=
      if dot <= 0 then "." + Repeat('0', -dot) + digits
      else if dot >= n then ""
      else "." + digits[dot..];
    var expPart :=
      if left == dot then ""
      else "E" + (if left - dot >= 0 then "+" else "-") + NatToString(if left - dot >= 0 then left - dot else dot - left);
    (if coef < 0 then "-" else "") + intPart + fracPart + expPart
  }

  /** `str(v)`. */
  function Show(v: Value): string {
    match v
    case Null => "None"
    case Str(s) => s
    case Int(i) => IntToString(i)
    case DateVal(d) => IsoDate(d)
    case DateTimeVal(d, h, mi, sec) =>
      IsoDate(d) + " " + FormatInt(2, h) + ":" + FormatInt(2, mi) + ":" + FormatInt(2, sec)
    case Dec(c, e) => DecimalToString(c, e)
  }

  /** The end of the run of digits that starts at index `i` of `s`. */
  function DigitRun(s: string, i: nat): (j: nat)
    requires i <= |s|
    ensures i <= j <= |s| && AllDigits(s[i..j])
    ensures j == |s| || !IsDigit(s[j])
    decreases |s| - i
  {
    if i < |s| && IsDigit(s[i]) then
      var j := DigitRun(s, i + 1);
      assert s[i..j] == [s[i]] + s[i + 1..j];
      j
    else i
  }

  /** The exponent suffix of a Decimal literal: empty, or `E`/`e`, a sign, digits. */
  function ParseExponent(s: string): Option<int> {
    if |s| == 0 then Some(0)
    else if s[0] == 'e' || s[0] == 'E' then SignedDigits(s[1..])
    else None
  }

  /**
   * A Decimal literal split into its integer digits, its fraction digits
   * and what follows them: at least one digit in all, then an exponent.
   * The result is (coefficient, exponent).
   */
  function DecimalLiteral(whole: string, frac: string, tail: string): Option<(nat, int)>
    requires AllDigits(whole) && AllDigits(frac)
  {
    if |whole| + |frac| == 0 then None
    else
      match ParseExponent(tail)
      case None => None
      case Some(x) => Some((DigitsValue(whole + frac), x - |frac|))
  }

  /**
   * The unsigned part of a Decimal literal: digits with at most one point
   * (at least one digit in all), then an optional exponent.
   */
  function ParseUnsignedDecimal(body: string): (r: Option<(nat, int)>)
    ensures |body| > 0 && AllDigits(body) ==> r == Some((DigitsValue(body), 0))
  {
    var n := DigitRun(body, 0);
    assert body[..n] == body[0..n];
    assert AllDigits(body) ==> n == |body|;
    assert n == |body| ==> body[..n] + [] == body;
    if n < |body| && body[n] == '.' then
      var m := DigitRun(body, n + 1);
      DecimalLiteral(body[..n], body[n + 1..m], body[m..])
    else DecimalLiteral(body[..n], [], body[n..])
  }

  /**
   * `Decimal(t)` for a string denoting a finite number: surrounding
   * whitespace and an optional sign around an unsigned literal. The result
   * is the pair (coefficient, exponent); `None` is InvalidOperation.
   */
  function ParseDecimal(t: string): (r: Option<(int, int)>)
    ensures r.Some? ==> |Strip(t)| > 0
    ensures r.Some? && r.value.0 < 0 ==> Strip(t)[0] == '-'
    ensures |Strip(t)| > 0 && AllDigits(Strip(t)) ==> r == Some((DigitsValue(Strip(t)) as int, 0))
  {
    var u := Strip(t);
    var signed := |u| > 0 && (u[0] == '-' || u[0] == '+');
    match ParseUnsignedDecimal(if signed then u[1..] else u)
    case None => None
    case Some((c, x)) => Some((if signed && u[0] == '-' then 0 - c else c as int, x))
  }
}
