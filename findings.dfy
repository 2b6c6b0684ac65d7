/**
 * Places where `DecimalField` (fixedwidthtext/fields.py) as written does
 * not do what its design evidently means: each is stated on the code as
 * written, next to the corrected definition the rest of the model uses.
 */
module Findings {
  import opened Wrappers
  import opened Text
  import opened Values
  import opened Fields
  import opened TextProperties
  import opened FieldProperties

  // ------------------------------------------------------ decimal_places = 0

  /**
   * As written, a field with no decimal places puts the point in front of
   * the digits (`value[:-0]` is empty): `s` is read as s * 10^-|s|.
   */
  lemma NoPlacesAsWritten(s: string, c: int, e: int)
    requires AllDigits(s) && |s| >= 1 && c == DigitsValue(s) && e == -|s|
    ensures DecimalToPythonAsWritten(Some(0), Str(s)) == Success(Dec(c, e))
  {
    FractionOnly(s, c, e);
    AsWrittenFromPointed(s, "." + s, c, e);
  }

  /** `Decimal('.' + digits)` is their value times 10^-len(digits). */
  lemma FractionOnly(s: string, c: int, e: int)
    requires AllDigits(s) && |s| >= 1 && c == DigitsValue(s) && e == -|s|
    ensures ParseDecimal("." + s) == Some((c, e))
  {
    var a: string := [];
    assert a + s == s && a + "." + s == "." + s;
    ParsePointed(a, s, c, e);
  }

  lemma AsWrittenFromPointed(s: string, t: string, c: int, e: int)
    requires t == "." + s && ParseDecimal(t) == Some((c, e))
    ensures DecimalToPythonAsWritten(Some(0), Str(s)) == Success(Dec(c, e))
  {
    assert PointInsertedAsWritten(s, 0) == t;
  }

  /** `5` in a field without places is read as 0.5 as written, and as 5 as intended. */
  lemma NoPlacesFive(s: string)
    requires s == "5"
    ensures DecimalToPythonAsWritten(Some(0), Str(s)) == Success(Dec(5, -1))
    ensures DecimalToPython(Some(0), Str(s)) == Success(Dec(5, 0))
    ensures !SameNumber(5, -1, 5, 0)
  {
    assert AllDigits(s) && DigitsValue(s) == 5;
    NoPlacesAsWritten(s, 5, -1);
    DecimalParse(0, s, 5, 0);
  }

  // ------------------------------------------------- a Decimal to to_python

  /**
   * As written, `to_python` slices whatever it is given, so a Decimal
   * raises TypeError; as intended it is kept, like a date by `DateField`.
   */
  lemma DecimalPassThroughAsWritten(places: Option<nat>, c: int, e: int)
    ensures DecimalToPythonAsWritten(places, Dec(c, e)) == Failure(Runtime(TypeError))
    ensures DecimalToPython(places, Dec(c, e)) == Success(Dec(c, e))
  {
  }

  /**
   * Hence, as written, what `to_python` returns cannot be given to it
   * again: `clean` of a value `clean` produced fails.
   */
  lemma RepeatedCleanAsWritten(places: nat, s: string)
    requires DecimalToPythonAsWritten(Some(places), Str(s)).Success?
    requires DecimalToPythonAsWritten(Some(places), Str(s)).value != Null
    ensures DecimalToPythonAsWritten(Some(places), DecimalToPythonAsWritten(Some(places), Str(s)).value)
              == Failure(Runtime(TypeError))
  {
  }

  // -------------------------------------------- value_to_string and places

  /** `str()` of a whole Decimal with exponent 0 is its digits. */
  lemma WholeDecimalShown(c: nat)
    ensures Show(Dec(c, 0)) == NatToString(c)
  {
    var digits := NatToString(c);
    assert Repeat('0', 0) == [];
    assert digits + [] == digits;
    assert "" + digits + "" + "" == digits;
  }

  /** Digits hold no `.` and no `,`. */
  lemma DigitsHaveNoSeparator(s: string)
    requires AllDigits(s)
    ensures '.' !in s && ',' !in s
  {
    forall k | 0 <= k < |s| ensures s[k] != '.' && s[k] != ',' {
      assert IsDigit(s[k]);
    }
  }

  /** As written, a whole Decimal n is written as the integer n, whatever the places. */
  lemma WholeDecimalTextAsWritten(size: nat, c: nat)
    ensures DecimalTextAsWritten(size, Dec(c, 0)) == Success(FormatInt(size, c))
  {
    var digits := NatToString(c);
    WholeDecimalShown(c);
    DigitsHaveNoSeparator(digits);
    RemoveCharAbsent(digits, '.');
    RemoveCharAbsent(digits, ',');
    ParseDigits(digits);
  }

  /** Adding a zero to a positive number makes it larger. */
  lemma {:induction false} ScaleUpGrows(c: nat, k: nat)
    requires c > 0 && k > 0
    ensures ScaleUp(c, k) > c
  {
    if k > 1 {
      ScaleUpGrows(c, k - 1);
    }
  }

  /**
   * As written, a whole Decimal c > 0 in a field with places > 0 is
   * written as c and read back as c * 10^-places: not the same number.
   */
  lemma DecimalPlacesIgnoredAsWritten(places: nat, size: nat, c: nat, e: int)
    requires 0 < places < size && c > 0 && e == -(places as int)
    ensures DecimalTextAsWritten(size, Dec(c, 0)) == Success(FormatInt(size, c))
    ensures DecimalToPython(Some(places), Str(FormatInt(size, c))) == Success(Dec(c, e))
    ensures !SameNumber(c, e, c, 0)
  {
    WholeDecimalTextAsWritten(size, c);
    DecimalUnitsRoundTrip(places, size, c, e);
    ScaleUpGrows(c, places);
  }

  /**
   * As intended, a Decimal with no more fraction digits than the field's
   * places is written in 10^-places units and read back as the same number.
   */
  lemma DecimalTextKeepsNumber(places: nat, size: nat, c: int, e: int) returns (n: int, x: int)
    requires e >= -(places as int) && (size > places || (c >= 0 && size >= places))
    ensures DecimalToPython(Some(places), Str(DecimalText(places, size, c, e))) == Success(Dec(n, x))
    ensures SameNumber(n, x, c, e)
  {
    n, x := DecimalRoundTrip(places, size, c, e);
    ReadBackSame(places, c, e, n, x);
  }

  lemma ReadBackSame(places: nat, c: int, e: int, n: int, x: int)
    requires e >= -(places as int) && n == DecimalToInt(c, e + places) && x == -(places as int)
    ensures SameNumber(n, x, c, e)
  {
    DecimalRoundTripExact(places, c, e);
  }
}
