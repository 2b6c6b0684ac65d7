/**
 * Worked instances of the field codecs, the ones the library's own test
 * cases use: each pins one rendering or one reading to concrete text.
 */
module FieldExamples {
  import opened Wrappers
  import opened Text
  import opened Values
  import opened Fields
  import opened TextProperties
  import opened FieldProperties

  /** A field with nothing but a kind, a name and a width. */
  function Plain(kind: Kind, name: string, size: nat, counter: nat): (f: Field)
    ensures f.kind == kind && f.name == Some(name) && f.size == size && f.counter == counter
    ensures |f.choices| == 0 && |f.validators| == 0 && !HasDefault(f)
  {
    Field(kind, Some(name), None, size, [], Literal(Null), [], counter)
  }

  /** Appending a digit shifts the value one place and adds the digit. */
  lemma DigitsAppend(s: string, c: char)
    requires AllDigits(s) && IsDigit(c)
    ensures AllDigits(s + [c]) && DigitsValue(s + [c]) == DigitsValue(s) * 10 + DigitValue(c)
  {
    assert (s + [c])[..|s|] == s;
  }

  lemma Digits12345(s: string)
    requires s == "0000012345"
    ensures AllDigits(s) && DigitsValue(s) == 12345
  {
    ZerosValue(5);
    var s0 := Repeat('0', 5);
    var s1 := s0 + ['1'];
    var s2 := s1 + ['2'];
    var s3 := s2 + ['3'];
    var s4 := s3 + ['4'];
    DigitsAppend(s0, '1');
    DigitsAppend(s1, '2');
    DigitsAppend(s2, '3');
    DigitsAppend(s3, '4');
    DigitsAppend(s4, '5');
    assert s4 + ['5'] == s;
  }

  lemma Digits40(s: string)
    requires s == "0000000040"
    ensures AllDigits(s) && DigitsValue(s) == 40
  {
    ZerosValue(8);
    var s0 := Repeat('0', 8);
    var s1 := s0 + ['4'];
    DigitsAppend(s0, '4');
    DigitsAppend(s1, '0');
    assert s1 + ['0'] == s;
  }

  lemma Digits2016(s: string)
    requires s == "2016"
    ensures AllDigits(s) && DigitsValue(s) == 2016
  {
    var s1 := ['2'];
    var s2 := s1 + ['0'];
    var s3 := s2 + ['1'];
    DigitsAppend([], '2');
    DigitsAppend(s1, '0');
    DigitsAppend(s2, '1');
    DigitsAppend(s3, '6');
    assert s3 + ['6'] == s;
  }

  /** Two digits: a leading zero, then `c`. */
  lemma DigitsPadded(c: char)
    requires IsDigit(c)
    ensures AllDigits(['0', c]) && DigitsValue(['0', c]) == DigitValue(c)
  {
    DigitsAppend(['0'], c);
  }

  /** An integer field ten wide writes 40 as `0000000040`. */
  lemma IntegerWritten(f: Field, obj: Subject, text: string)
    requires f == Plain(IntegerKind, "value", 10, 0) && obj == Instance(map["value" := Int(40)])
    requires text == "0000000040"
    ensures ValueToString(f, obj) == Success(text)
  {
    Digits40(text);
    IntegerCanonical(text);
  }

  /** `int()` reads `0000012345` as 12345. */
  lemma IntegerRead(text: string)
    requires text == "0000012345"
    ensures ToPython(IntegerKind, Str(text)) == Success(Int(12345))
  {
    Digits12345(text);
    IntegerCanonical(text);
  }

  /** Text that is not a number is the field's invalid error, for integers and dates alike. */
  lemma InvalidText(text: string)
    requires text == "avc"
    ensures ToPython(IntegerKind, Str(text)) == Failure(InvalidFormat(Str(text)))
    ensures ToPython(DateKind, Str(text)) == Failure(InvalidFormat(Str(text)))
  {
    StripUnpadded(text);
    assert !IsDigit(text[0]);
  }

  /** A Decimal field reports the dotted text it could not read. */
  lemma DecimalInvalid(text: string)
    requires text == "avc"
    ensures ToPython(DecimalKind(Some(2)), Str(text)) == Failure(InvalidFormat(Str("a.vc")))
  {
    var dotted := PointInserted(text, 2);
    assert dotted == "a.vc";
    StripUnpadded(dotted);
    assert DigitRun(dotted, 0) == 0;
  }

  /** A date field writes 4 June 2016 as `20160604`. */
  lemma DateWritten(f: Field, obj: Subject, text: string)
    requires f == Plain(DateKind, "value", 10, 0) && obj == Instance(map["value" := DateVal(Date(2016, 6, 4))])
    requires text == "20160604"
    ensures ValueToString(f, obj) == Success(text)
  {
    CompactDateExample(Date(2016, 6, 4), text);
  }

  /** A date field reads `20160604` as 4 June 2016. */
  lemma DateRead(text: string)
    requires text == "20160604"
    ensures ToPython(DateKind, Str(text)) == Success(DateVal(Date(2016, 6, 4)))
  {
    var d := Date(2016, 6, 4);
    CompactDateExample(d, text);
    DateRoundTrip(d);
  }

  lemma CompactDateExample(d: Date, text: string)
    requires d == Date(2016, 6, 4) && text == "20160604"
    ensures CompactDate(d) == text
  {
    var y, m, dd := text[..4], text[4..6], text[6..];
    Digits2016(y);
    DigitsPadded('6');
    DigitsPadded('4');
    assert m == ['0', '6'] && dd == ['0', '4'];
    assert y + m + dd == text;
    CompactDateDigits(d, y, m, dd);
  }

  /** Digits as wide as each part of the date, read back, are what the date writes. */
  lemma CompactDateDigits(d: Date, y: string, m: string, dd: string)
    requires |y| == 4 && |m| == 2 && |dd| == 2 && AllDigits(y) && AllDigits(m) && AllDigits(dd)
    requires DigitsValue(y) == d.year && DigitsValue(m) == d.month && DigitsValue(dd) == d.day
    ensures CompactDate(d) == y + m + dd
  {
    DigitsWritten(4, d.year, y);
    DigitsWritten(2, d.month, m);
    DigitsWritten(2, d.day, dd);
  }

  /** Digits as wide as the field are what `'%0Nd'` writes for their value. */
  lemma DigitsWritten(width: nat, n: int, s: string)
    requires AllDigits(s) && |s| == width >= 1 && DigitsValue(s) == n
    ensures FormatInt(width, n) == s
  {
    FormatIntCanonical(s);
  }

  /** A Decimal field ten wide with two places writes 123.45 as `0000012345`, and reads it back. */
  lemma DecimalExample(f: Field, obj: Subject, text: string)
    requires f == Plain(DecimalKind(Some(2)), "value", 10, 0) && obj == Instance(map["value" := Dec(12345, -2)])
    requires text == "0000012345"
    ensures ValueToString(f, obj) == Success(text)
    ensures ToPython(f.kind, Str(text)) == Success(Dec(12345, -2))
  {
    Digits12345(text);
    IntegerCanonical(text);
    DecimalFieldParts(f, 2, 12345, -2);
  }

  /**
   * A string field fifty wide writes `Nome Sobrenome` followed by blanks
   * and reads it back stripped; a date is not a string it accepts.
   */
  lemma StringExample(f: Field, obj: Subject, v: string)
    requires f == Plain(StringKind, "value", 50, 0) && obj == Instance(map["value" := Str(v)]) && v == "Nome Sobrenome"
    ensures ValueToString(f, obj) == Success(v + Repeat(' ', 36))
    ensures ToPython(f.kind, Str(v + Repeat(' ', 36))) == Success(Str(v))
    ensures ToPython(f.kind, DateVal(Date(2016, 6, 4))) == Failure(InvalidFormat(DateVal(Date(2016, 6, 4))))
  {
    assert Unpadded(v) && |v| == 14;
    StringReRender(v, 36);
  }
}
