/**
 * What the field types promise: each parses back what it renders, renders
 * back the slices it accepts, and `clean` keeps the values it produces.
 */
module FieldProperties {
  import opened Wrappers
  import opened Text
  import opened Values
  import opened Fields
  import opened TextProperties

  // ------------------------------------------------------------ StringField

  /**
   * A value without surrounding whitespace that fits the field comes back
   * from its padded rendering unchanged.
   */
  lemma StringRoundTrip(size: nat, v: string)
    requires Unpadded(v) && |v| <= size
    ensures StringToPython(Str(PadOrTruncate(size, v))) == Success(Str(v))
  {
    StripPadded(v, size - |v|);
  }

  /** A slice made of an unpadded value and trailing blanks is rendered back exactly. */
  lemma StringReRender(v: string, k: nat)
    requires Unpadded(v)
    ensures StringToPython(Str(v + Repeat(' ', k))) == Success(Str(v))
    ensures PadOrTruncate(|v| + k, v) == v + Repeat(' ', k)
  {
    StripPadded(v, k);
  }

  // ----------------------------------------------------------- IntegerField

  /** `int()` reads back every integer rendered at any width. */
  lemma IntegerRoundTrip(size: nat, n: int)
    ensures IntegerToPython(Str(FormatInt(size, n))) == Success(Int(n))
  {
    ParseFormatInt(size, n);
  }

  /** A slice of digits is read as its value and rendered back exactly. */
  lemma IntegerCanonical(s: string)
    requires AllDigits(s) && |s| >= 1
    ensures IntegerToPython(Str(s)) == Success(Int(DigitsValue(s)))
    ensures FormatInt(|s|, DigitsValue(s)) == s
  {
    ParseDigits(s);
    FormatIntCanonical(s);
  }

  // -------------------------------------------------------------- DateField

  lemma {:induction false} DateParts(d: Date)
    requires IsValidDate(d)
    ensures |FormatInt(4, d.year)| == 4 && |FormatInt(2, d.month)| == 2 && |FormatInt(2, d.day)| == 2
  {
    FormatIntWidth(4, d.year);
    FormatIntWidth(2, d.month);
    FormatIntWidth(2, d.day);
  }

  /** `DateFromText` reads the three parts of `s` at positions 0, 4 and 6. */
  lemma DateFromParts(y: string, m: string, d: string, year: int, month: int, day: int)
    requires |y| == 4 && |m| == 2
    requires ParseInt(y) == Some(year) && ParseInt(m) == Some(month) && ParseInt(d) == Some(day)
    ensures DateFromText(y + m + d) ==
              if IsValidDate(Date(year, month, day)) then Some(Date(year, month, day)) else None
  {
    var s := y + m + d;
    assert PySlice(s, 0, 4) == y && PySlice(s, 4, 6) == m && PySlice(s, 6, |s|) == d;
  }

  /** A valid date is read back from its `YYYYMMDD` rendering. */
  lemma DateRoundTrip(d: Date)
    requires IsValidDate(d)
    ensures |CompactDate(d)| == 8
    ensures DateToPython(Str(CompactDate(d))) == Success(DateVal(d))
  {
    DateParts(d);
    CompactDateRead(d);
    DateTextRead(CompactDate(d), d);
  }

  /** Text that reads as a date has a day that fits a C int, so `to_python` gives that date. */
  lemma DateTextRead(s: string, d: Date)
    requires DateFromText(s) == Some(d)
    ensures !DayOverflows(s)
    ensures DateToPython(Str(s)) == Success(DateVal(d))
  {
    assert IsValidDate(d) && d.day == ParseInt(PySlice(s, 6, |s|)).value;
  }

  lemma CompactDateRead(d: Date)
    requires IsValidDate(d)
    ensures DateFromText(CompactDate(d)) == Some(d)
  {
    DateParts(d);
    ParseFormatInt(4, d.year);
    ParseFormatInt(2, d.month);
    ParseFormatInt(2, d.day);
    DateFromParts(FormatInt(4, d.year), FormatInt(2, d.month), FormatInt(2, d.day), d.year, d.month, d.day);
  }

  lemma DateCanonicalParts(y: string, m: string, d: string)
    requires |y| == 4 && |m| == 2 && |d| == 2
    requires AllDigits(y) && AllDigits(m) && AllDigits(d)
    ensures DateFromText(y + m + d).Some? ==> CompactDate(DateFromText(y + m + d).value) == y + m + d
  {
    ParseDigits(y);
    ParseDigits(m);
    ParseDigits(d);
    DateFromParts(y, m, d, DigitsValue(y), DigitsValue(m), DigitsValue(d));
    FormatIntCanonical(y);
    FormatIntCanonical(m);
    FormatIntCanonical(d);
  }

  /** Eight digits that form a valid date are rendered back exactly. */
  lemma DateCanonical(s: string)
    requires |s| == 8 && AllDigits(s)
    ensures DateFromText(s).Some? ==> CompactDate(DateFromText(s).value) == s
  {
    var y, m, d := s[..4], s[4..6], s[6..];
    assert s == y + m + d;
    assert AllDigits(y) && AllDigits(m) && AllDigits(d);
    DateCanonicalParts(y, m, d);
  }

  // ----------------------------------------------------------- DecimalField

  /** A run of digits from `i` that ends at `j` is what `DigitRun` finds. */
  lemma {:induction false} DigitRunOver(s: string, i: nat, j: nat)
    requires i <= j <= |s|
    requires forall k :: i <= k < j ==> IsDigit(s[k])
    requires j == |s| || !IsDigit(s[j])
    ensures DigitRun(s, i) == j
    decreases j - i
  {
    if i < j {
      DigitRunOver(s, i + 1, j);
    }
  }

  /** The unsigned literal `a.b` denotes the digits of `ab` with |b| of them after the point. */
  lemma {:induction false} ParseUnsignedPointed(a: string, b: string, e: int)
    requires AllDigits(a) && AllDigits(b) && |a| + |b| >= 1 && e == -|b|
    ensures AllDigits(a + b)
    ensures ParseUnsignedDecimal(a + "." + b) == Some((DigitsValue(a + b), e))
  {
    var t := a + "." + b;
    PointedRuns(a, b);
    assert ParseUnsignedDecimal(t) == DecimalLiteral(a, b, []);
    LiteralValue(a, b, e);
  }

  /** How `a.b` splits into its runs of digits around the point. */
  lemma PointedRuns(a: string, b: string)
    requires AllDigits(a) && AllDigits(b)
    ensures var t := a + "." + b;
            DigitRun(t, 0) == |a| && t[|a|] == '.' && DigitRun(t, |a| + 1) == |t|
            && t[..|a|] == a && t[|a| + 1..|t|] == b && t[|t|..] == []
  {
    RunBeforePoint(a, b);
    RunAfterPoint(a, b);
    PointedSlices(a, b);
  }

  lemma PointedSlices(a: string, b: string)
    ensures var t := a + "." + b;
            t[|a|] == '.' && t[..|a|] == a && t[|a| + 1..|t|] == b && t[|t|..] == []
  {
    var t := a + "." + b;
    assert t[..|a|] == a && t[|a| + 1..|t|] == b;
  }

  lemma RunBeforePoint(a: string, b: string)
    requires AllDigits(a)
    ensures DigitRun(a + "." + b, 0) == |a|
  {
    var t := a + "." + b;
    assert forall k :: 0 <= k < |a| ==> t[k] == a[k];
    DigitRunOver(t, 0, |a|);
  }

  lemma RunAfterPoint(a: string, b: string)
    requires AllDigits(b)
    ensures DigitRun(a + "." + b, |a| + 1) == |a + "." + b|
  {
    var t := a + "." + b;
    assert forall k :: |a| + 1 <= k < |t| ==> t[k] == b[k - |a| - 1];
    DigitRunOver(t, |a| + 1, |t|);
  }

  lemma LiteralValue(a: string, b: string, e: int)
    requires AllDigits(a) && AllDigits(b) && |a| + |b| >= 1 && e == -|b|
    ensures AllDigits(a + b)
    ensures DecimalLiteral(a, b, []) == Some((DigitsValue(a + b), e))
  {
    assert ParseExponent([]) == Some(0);
  }

  /** `Decimal(t)` of a literal without surrounding whitespace or sign. */
  lemma UnsignedParse(t: string, c: nat, e: int)
    requires Unpadded(t) && |t| > 0 && t[0] != '-' && t[0] != '+'
    requires ParseUnsignedDecimal(t) == Some((c, e))
    ensures ParseDecimal(t) == Some((c as int, e))
  {
    StripUnpadded(t);
  }

  /** `Decimal(t)` of a literal with a minus sign and no surrounding whitespace. */
  lemma NegativeParse(t: string, c: nat, e: int, n: int)
    requires Unpadded(t) && |t| > 0 && t[0] == '-'
    requires ParseUnsignedDecimal(t[1..]) == Some((c, e)) && n == -(c as int)
    ensures ParseDecimal(t) == Some((n, e))
  {
    StripUnpadded(t);
  }

  /** `Decimal(a + "." + b)` for digit strings `a` and `b`, not both empty. */
  lemma {:induction false} ParsePointed(a: string, b: string, c: int, e: int)
    requires AllDigits(a) && AllDigits(b) && |a| + |b| >= 1
    requires AllDigits(a + b) && c == DigitsValue(a + b) && e == -|b|
    ensures ParseDecimal(a + "." + b) == Some((c, e))
  {
    var t := a + "." + b;
    assert Unpadded(t) by {
      assert t[0] == '.' || IsDigit(t[0]);
      assert t[|t| - 1] == '.' || IsDigit(t[|t| - 1]);
    }
    ParseUnsignedPointed(a, b, e);
    UnsignedParse(t, DigitsValue(a + b), e);
  }

  /** `Decimal("-" + a + "." + b)` for digit strings `a` and `b`, not both empty. */
  lemma {:induction false} ParsePointedNegative(a: string, b: string, c: int, e: int)
    requires AllDigits(a) && AllDigits(b) && |a| + |b| >= 1
    requires AllDigits(a + b) && c == -(DigitsValue(a + b) as int) && e == -|b|
    ensures ParseDecimal("-" + a + "." + b) == Some((c, e))
  {
    var t := "-" + a + "." + b;
    assert Unpadded(t) by {
      assert t[|t| - 1] == '.' || IsDigit(t[|t| - 1]);
    }
    assert t[1..] == a + "." + b;
    ParseUnsignedPointed(a, b, e);
    NegativeParse(t, DigitsValue(a + b), e, c);
  }

  /** The two sides of the point that `to_python` inserts into a slice of digits. */
  lemma PointSplit(s: string, places: nat) returns (a: string, b: string)
    requires AllDigits(s)
    ensures AllDigits(a) && AllDigits(b) && a + b == s && |b| == Min(places, |s|)
    ensures PointInserted(s, places) == a + "." + b
  {
    if places <= |s| {
      a, b := s[..|s| - places], s[|s| - places..];
      assert a + b == s;
    } else {
      a, b := [], s;
      assert a + b == s && a + "." + b == "." + s;
    }
  }

  /**
   * A slice of at least `places` digits with value `c` is read as the
   * Decimal c * 10^e with e == -places: the point goes `places` digits
   * from the right.
   */
  lemma {:induction false} DecimalParse(places: nat, s: string, c: int, e: int)
    requires AllDigits(s) && |s| >= 1 && |s| >= places && c == DigitsValue(s)
    requires e == -(places as int)
    ensures DecimalToPython(Some(places), Str(s)) == Success(Dec(c, e))
  {
    var a, b := PointSplit(s, places);
    ParsePointed(a, b, c, e);
    FromPointed(places, s, c, e);
  }

  /**
   * A slice shorter than `places` is read with the point in front of all
   * its digits: the exponent is minus its length, not -places.
   */
  lemma {:induction false} DecimalParseShort(places: nat, s: string, c: int, e: int)
    requires AllDigits(s) && |s| >= 1 && |s| < places && c == DigitsValue(s)
    requires e == -|s|
    ensures DecimalToPython(Some(places), Str(s)) == Success(Dec(c, e))
  {
    var a, b := PointSplit(s, places);
    ParsePointed(a, b, c, e);
    FromPointed(places, s, c, e);
  }

  /** `to_python` of a slice is the Decimal read from the slice with its point inserted. */
  lemma FromPointed(places: nat, s: string, c: int, e: int)
    requires ParseDecimal(PointInserted(s, places)) == Some((c, e))
    ensures DecimalToPython(Some(places), Str(s)) == Success(Dec(c, e))
  {
  }

  /** A minus sign and at least `places` digits of value `-n` are read back as n * 10^e, e == -places. */
  lemma {:induction false} NegativeDecimalParse(places: nat, z: string, n: int, e: int)
    requires AllDigits(z) && |z| >= 1 && |z| >= places && DigitsValue(z) == -n
    requires e == -(places as int)
    ensures DecimalToPython(Some(places), Str("-" + z)) == Success(Dec(n, e))
  {
    var a, b := NegativePointSplit(z, places);
    ParsePointedNegative(a, b, n, e);
    FromPointed(places, "-" + z, n, e);
  }

  /** The two sides of the point inserted into a minus sign and at least `places` digits. */
  lemma NegativePointSplit(z: string, places: nat) returns (a: string, b: string)
    requires AllDigits(z) && |z| >= places
    ensures AllDigits(a) && AllDigits(b) && a + b == z && |b| == places
    ensures PointInserted("-" + z, places) == "-" + a + "." + b
  {
    a, b := z[..|z| - places], z[|z| - places..];
    assert a + b == z;
  }

  lemma {:induction false} RenderParseNonNegative(places: nat, size: nat, n: int, e: int)
    requires n >= 0 && size >= places && e == -(places as int)
    ensures DecimalToPython(Some(places), Str(FormatInt(size, n))) == Success(Dec(n, e))
  {
    FormatIntDigits(size, n);
    DecimalParse(places, FormatInt(size, n), n, e);
  }

  lemma {:induction false} RenderParseNegative(places: nat, size: nat, n: int, e: int)
    requires n < 0 && size > places && e == -(places as int)
    ensures DecimalToPython(Some(places), Str(FormatInt(size, n))) == Success(Dec(n, e))
  {
    var z := FormatIntNegative(size, n);
    NegativeDecimalParse(places, z, n, e);
  }

  /**
   * The corrected rendering of `n` units of 10^-places is read back as
   * exactly `n` such units, whenever the width leaves room for the places
   * (and for the sign of a negative `n`).
   */
  lemma {:induction false} DecimalRenderParse(places: nat, size: nat, n: int, e: int)
    requires size > places || (n >= 0 && size >= places)
    requires e == -(places as int)
    ensures DecimalToPython(Some(places), Str(FormatInt(size, n))) == Success(Dec(n, e))
  {
    if n >= 0 {
      RenderParseNonNegative(places, size, n, e);
    } else {
      RenderParseNegative(places, size, n, e);
    }
  }

  /**
   * With `decimal_places` set, a Decimal c * 10^e written by
   * `value_to_string` and read back by `to_python` is n * 10^x: the number
   * n of 10^-places units it holds, cut towards zero, with x == -places.
   */
  lemma {:induction false} DecimalRoundTrip(places: nat, size: nat, c: int, e: int) returns (n: int, x: int)
    requires size > places || (c >= 0 && size >= places)
    ensures n == DecimalToInt(c, e + places) && x == -(places as int)
    ensures DecimalToPython(Some(places), Str(DecimalText(places, size, c, e))) == Success(Dec(n, x))
  {
    n, x := DecimalToInt(c, e + places), -(places as int);
    assert DecimalText(places, size, c, e) == FormatInt(size, n);
    DecimalRenderParse(places, size, n, x);
  }

  /**
   * A Decimal with no more than `places` fraction digits loses nothing on
   * the way: the value read back equals it.
   */
  lemma {:induction false} DecimalRoundTripExact(places: nat, c: int, e: int)
    requires e >= -(places as int)
    ensures SameNumber(DecimalToInt(c, e + places), -(places as int), c, e)
  {
  }

  /**
   * A slice of at least `places` digits is read as its value in 10^-places
   * units, and the corrected rendering of that value gives the slice back.
   */
  lemma {:induction false} DecimalCanonical(places: nat, s: string, c: int, e: int)
    requires AllDigits(s) && |s| >= 1 && |s| >= places && c == DigitsValue(s)
    requires e == -(places as int)
    ensures DecimalToPython(Some(places), Str(s)) == Success(Dec(c, e))
    ensures DecimalText(places, |s|, c, e) == s
  {
    DecimalParse(places, s, c, e);
    DecimalTextCanonical(places, s, c, e);
  }

  lemma {:induction false} DecimalTextCanonical(places: nat, s: string, c: int, e: int)
    requires AllDigits(s) && |s| >= 1 && c == DigitsValue(s) && e == -(places as int)
    ensures DecimalText(places, |s|, c, e) == s
  {
    DecimalTextUnscaled(places, |s|, c, e);
    FormatIntCanonical(s);
  }

  /** A coefficient already in 10^-places units is rendered unchanged. */
  lemma DecimalTextUnscaled(places: nat, size: nat, c: int, e: int)
    requires e == -(places as int)
    ensures DecimalText(places, size, c, e) == FormatInt(size, c)
  {
    assert e + places == 0;
  }

  // ---------------------------------------------------------- any field

  /**
   * `v` is a value field `f` renders in exactly `f.size` characters and
   * reads back unchanged: a string without surrounding blanks that fits,
   * an integer whose digits (and sign) fit, a date in an 8-wide field, or
   * a Decimal already in 10^-places units whose digits (and sign) fit
   * beside the places.
   */
  predicate Exact(f: Field, v: Value) {
    match f.kind
    case StringKind => v.Str? && Unpadded(v.s) && |v.s| <= f.size
    case IntegerKind => v.Int? && f.size >= 1 && -(Pow10(f.size - 1) as int) < v.i < Pow10(f.size)
    case DateKind => v.DateVal? && IsValidDate(v.date) && f.size == 8
    case DecimalKind(places) =>
      && places.Some? && v.Dec? && v.exp == -(places.value as int) && places.value < f.size
      && -(Pow10(f.size - 1) as int) < v.coef < Pow10(f.size)
  }

  /**
   * What a field renders for an exact value takes exactly `size`
   * characters, and `to_python` reads it back as the same value.
   */
  lemma FieldRoundTrip(f: Field, v: Value)
    requires Exact(f, v)
    ensures RenderValue(f, v).Success?
    ensures |RenderValue(f, v).value| == f.size
    ensures ToPython(f.kind, Str(RenderValue(f, v).value)) == Success(v)
  {
    match f.kind
    case StringKind => StringFieldRoundTrip(f, v);
    case IntegerKind => IntegerFieldRoundTrip(f, v);
    case DateKind => DateFieldRoundTrip(f, v);
    case DecimalKind(_) => DecimalFieldRoundTrip(f, v);
  }

  lemma StringFieldRoundTrip(f: Field, v: Value)
    requires f.kind.StringKind? && Exact(f, v)
    ensures RenderValue(f, v).Success?
    ensures |RenderValue(f, v).value| == f.size
    ensures ToPython(f.kind, Str(RenderValue(f, v).value)) == Success(v)
  {
    StringRoundTrip(f.size, v.s);
  }

  lemma IntegerFieldRoundTrip(f: Field, v: Value)
    requires f.kind.IntegerKind? && Exact(f, v)
    ensures RenderValue(f, v).Success?
    ensures |RenderValue(f, v).value| == f.size
    ensures ToPython(f.kind, Str(RenderValue(f, v).value)) == Success(v)
  {
    FormatIntFits(f.size, v.i);
    IntegerRoundTrip(f.size, v.i);
  }

  lemma DateFieldRoundTrip(f: Field, v: Value)
    requires f.kind.DateKind? && Exact(f, v)
    ensures RenderValue(f, v).Success?
    ensures |RenderValue(f, v).value| == f.size
    ensures ToPython(f.kind, Str(RenderValue(f, v).value)) == Success(v)
  {
    DateRendered(f, v.date);
    DateRoundTrip(v.date);
  }

  lemma DateRendered(f: Field, d: Date)
    requires f.kind.DateKind?
    ensures RenderValue(f, DateVal(d)) == Success(CompactDate(d))
  {
  }

  lemma DecimalFieldRoundTrip(f: Field, v: Value)
    requires f.kind.DecimalKind? && Exact(f, v)
    ensures RenderValue(f, v).Success?
    ensures |RenderValue(f, v).value| == f.size
    ensures ToPython(f.kind, Str(RenderValue(f, v).value)) == Success(v)
  {
    var places, t := f.kind.places.value, FormatInt(f.size, v.coef);
    assert v == Dec(v.coef, v.exp);
    FormatIntFits(f.size, v.coef);
    DecimalFieldParts(f, places, v.coef, v.exp);
    assert RenderValue(f, v) == Success(t) && |t| == f.size;
  }

  /** A Decimal in 10^-places units is rendered as its coefficient, zero-padded to `size`, and read back unchanged. */
  lemma DecimalFieldParts(f: Field, places: nat, c: int, e: int)
    requires f.kind == DecimalKind(Some(places)) && places < f.size && e == -(places as int)
    ensures RenderValue(f, Dec(c, e)) == Success(FormatInt(f.size, c))
    ensures DecimalToPython(Some(places), Str(FormatInt(f.size, c))) == Success(Dec(c, e))
  {
    DecimalRendered(f, places, c, e);
    DecimalUnitsRoundTrip(places, f.size, c, e);
  }

  /** With `decimal_places` set, a Decimal field renders a Decimal by the corrected rule. */
  lemma DecimalRendered(f: Field, places: nat, c: int, e: int)
    requires f.kind == DecimalKind(Some(places))
    ensures RenderValue(f, Dec(c, e)) == Success(DecimalText(places, f.size, c, e))
  {
  }

  /** A coefficient in 10^-places units is rendered as itself and read back unchanged. */
  lemma DecimalUnitsRoundTrip(places: nat, size: nat, c: int, e: int)
    requires places < size && e == -(places as int)
    ensures DecimalText(places, size, c, e) == FormatInt(size, c)
    ensures DecimalToPython(Some(places), Str(FormatInt(size, c))) == Success(Dec(c, e))
  {
    DecimalTextUnscaled(places, size, c, e);
    DecimalRenderParse(places, size, c, e);
  }
}
