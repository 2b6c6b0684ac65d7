/** Facts about the string built-ins of module Text that the field proofs use. */
module TextProperties {
  import opened Wrappers
  import opened Text

  /**
   * `strip` keeps the part of `s` between a whitespace prefix and a
   * whitespace suffix; `i` is where that part starts.
   */
  lemma {:induction false} StripIsInfix(s: string) returns (i: nat)
    ensures i + |Strip(s)| <= |s|
    ensures Strip(s) == s[i..i + |Strip(s)|]
    ensures AllSpaces(s[..i]) && AllSpaces(s[i + |Strip(s)|..])
  {
    if |s| > 0 && IsSpace(s[0]) {
      var k := StripIsInfix(s[1..]);
      InfixAfterSpace(s, Strip(s), k);
      i := k + 1;
    } else if |s| > 0 && IsSpace(s[|s| - 1]) {
      i := StripIsInfix(s[..|s| - 1]);
      InfixBeforeSpace(s, Strip(s), i);
    } else {
      i := 0;
      assert s[0..|s|] == s;
    }
  }

  /** An infix of `s[1..]` between whitespace is one of `s` when `s[0]` is whitespace. */
  lemma InfixAfterSpace(s: string, r: string, k: nat)
    requires |s| > 0 && IsSpace(s[0])
    requires k + |r| <= |s| - 1 && r == s[1..][k..k + |r|]
    requires AllSpaces(s[1..][..k]) && AllSpaces(s[1..][k + |r|..])
    ensures r == s[k + 1..k + 1 + |r|]
    ensures AllSpaces(s[..k + 1]) && AllSpaces(s[k + 1 + |r|..])
  {
    assert s[..k + 1] == [s[0]] + s[1..][..k];
    assert s[k + 1 + |r|..] == s[1..][k + |r|..];
  }

  /** An infix of `s[..|s| - 1]` between whitespace is one of `s` when its last character is whitespace. */
  lemma InfixBeforeSpace(s: string, r: string, i: nat)
    requires |s| > 0 && IsSpace(s[|s| - 1])
    requires i + |r| <= |s| - 1 && r == s[..|s| - 1][i..i + |r|]
    requires AllSpaces(s[..|s| - 1][..i]) && AllSpaces(s[..|s| - 1][i + |r|..])
    ensures r == s[i..i + |r|]
    ensures AllSpaces(s[..i]) && AllSpaces(s[i + |r|..])
  {
    assert s[..i] == s[..|s| - 1][..i];
    assert s[i + |r|..] == s[..|s| - 1][i + |r|..] + [s[|s| - 1]];
  }

  /** A string that neither starts nor ends with whitespace is its own strip. */
  lemma StripUnpadded(s: string)
    requires Unpadded(s)
    ensures Strip(s) == s
  {
  }

  /** `strip` is idempotent. */
  lemma StripIdempotent(s: string)
    ensures Strip(Strip(s)) == Strip(s)
  {
    StripUnpadded(Strip(s));
  }

  /** Stripping an unpadded value followed by spaces gives the value back. */
  lemma {:induction false} StripPadded(v: string, k: nat)
    requires Unpadded(v)
    ensures Strip(v + Repeat(' ', k)) == v
  {
    var s := v + Repeat(' ', k);
    if k == 0 {
      assert s == v;
    } else if |v| == 0 {
      assert s[1..] == [] + Repeat(' ', k - 1);
      StripPadded(v, k - 1);
    } else {
      assert s[..|s| - 1] == v + Repeat(' ', k - 1);
      StripPadded(v, k - 1);
    }
  }

  lemma {:induction false} Pow10Monotone(a: nat, b: nat)
    requires a <= b
    ensures Pow10(a) <= Pow10(b)
  {
    if a < b {
      Pow10Monotone(a, b - 1);
    }
  }

  /** The value of a concatenation of digit strings. */
  lemma {:induction false} DigitsValueConcat(a: string, b: string)
    requires AllDigits(a) && AllDigits(b)
    ensures AllDigits(a + b)
    ensures DigitsValue(a + b) == DigitsValue(a) * Pow10(|b|) + DigitsValue(b)
  {
    assert AllDigits(a + b) by {
      forall i | 0 <= i < |a + b| ensures IsDigit((a + b)[i]) {
        if i >= |a| { assert (a + b)[i] == b[i - |a|]; }
      }
    }
    if b == [] {
      assert a + b == a;
    } else {
      var b' := b[..|b| - 1];
      assert (a + b)[..|a + b| - 1] == a + b';
      assert (a + b)[|a + b| - 1] == b[|b| - 1];
      DigitsValueConcat(a, b');
      ShiftDigit(DigitsValue(a), Pow10(|b'|), DigitsValue(b'), DigitValue(b[|b| - 1]));
    }
  }

  lemma ShiftDigit(x: int, p: int, y: int, d: int)
    ensures (x * p + y) * 10 + d == x * (p * 10) + (y * 10 + d)
  {
  }

  /** Leading zeros do not change the value of a digit string. */
  lemma LeadingZeros(k: nat, s: string)
    requires AllDigits(s)
    ensures AllDigits(Repeat('0', k) + s)
    ensures DigitsValue(Repeat('0', k) + s) == DigitsValue(s)
  {
    ZerosValue(k);
    DigitsValueConcat(Repeat('0', k), s);
  }

  lemma {:induction false} ZerosValue(k: nat)
    ensures AllDigits(Repeat('0', k)) && DigitsValue(Repeat('0', k)) == 0
  {
    if k > 0 {
      assert Repeat('0', k)[..k - 1] == Repeat('0', k - 1);
      ZerosValue(k - 1);
    }
  }

  lemma {:induction false} DigitsValuePositive(s: string)
    requires AllDigits(s) && |s| > 0 && s[0] != '0'
    ensures DigitsValue(s) >= 1
  {
    if |s| > 1 {
      var p := s[..|s| - 1];
      assert p[0] == s[0];
      DigitsValuePositive(p);
    }
  }

  /** A digit string without leading zeros is `str` of its value. */
  lemma {:induction false} NatToStringCanonical(s: string)
    requires AllDigits(s) && |s| >= 1 && (|s| == 1 || s[0] != '0')
    ensures NatToString(DigitsValue(s)) == s
  {
    if |s| > 1 {
      var p := s[..|s| - 1];
      assert p[0] == s[0];
      DigitsValuePositive(p);
      NatToStringCanonical(p);
      var n := DigitsValue(s);
      assert n / 10 == DigitsValue(p) && n % 10 == DigitValue(s[|s| - 1]);
      assert DigitChar(n % 10) == s[|s| - 1];
      assert s == p + [s[|s| - 1]];
    } else {
      assert DigitChar(DigitValue(s[0])) == s[0];
    }
  }

  /** A digit string is `str` of its value zero-padded to its own length. */
  lemma {:induction false} ZeroPadCanonical(s: string)
    requires AllDigits(s) && |s| >= 1
    ensures ZeroPad(|s|, NatToString(DigitsValue(s))) == s
  {
    if |s| == 1 || s[0] != '0' {
      NatToStringCanonical(s);
      assert Repeat('0', 0) + s == s;
    } else {
      ZeroPadCanonical(s[1..]);
      LeadingZeroValue(s);
      ZeroPadOneMore(s, NatToString(DigitsValue(s[1..])));
      assert ['0'] + s[1..] == s;
    }
  }

  lemma LeadingZeroValue(s: string)
    requires AllDigits(s) && |s| >= 1 && s[0] == '0'
    ensures DigitsValue(s) == DigitsValue(s[1..])
  {
    assert s == Repeat('0', 1) + s[1..];
    LeadingZeros(1, s[1..]);
  }

  /** Padding to one more character than `s[1..]` holds puts one more zero in front. */
  lemma ZeroPadOneMore(s: string, n: string)
    requires |s| >= 1 && |n| <= |s[1..]|
    ensures ZeroPad(|s|, n) == ['0'] + ZeroPad(|s[1..]|, n)
  {
    assert Repeat('0', |s| - |n|) == ['0'] + Repeat('0', |s[1..]| - |n|);
  }

  /** `str(n)` fits in `width` digits exactly when n < 10^width. */
  lemma {:induction false} NatToStringFits(n: nat, width: nat)
    requires width >= 1
    ensures |NatToString(n)| <= width <==> n < Pow10(width)
  {
    if |NatToString(n)| <= width {
      Pow10Monotone(|NatToString(n)|, width);
    }
    if n < Pow10(width) && n >= 10 {
      assert width >= 2;
      NatToStringFits(n / 10, width - 1);
    }
  }

  lemma DigitsUnpadded(s: string)
    requires AllDigits(s) && |s| > 0
    ensures Unpadded(s) && Unpadded("-" + s)
  {
    assert ("-" + s)[|"-" + s| - 1] == s[|s| - 1];
  }

  /** `int()` reads a digit string as its value. */
  lemma ParseDigits(s: string)
    requires AllDigits(s) && |s| > 0
    ensures ParseInt(s) == Some(DigitsValue(s) as int)
  {
    assert Strip(s) == s by {
      DigitsUnpadded(s);
      StripUnpadded(s);
    }
    SignedDigitsOf(s);
  }

  lemma SignedDigitsOf(s: string)
    requires AllDigits(s) && |s| > 0
    ensures SignedDigits(s) == Some(DigitsValue(s) as int)
  {
  }

  /** `int()` reads a minus sign and a digit string as the negated value. */
  lemma ParseNegativeDigits(s: string)
    requires AllDigits(s) && |s| > 0
    ensures ParseInt("-" + s) == Some(-(DigitsValue(s) as int))
  {
    StripNegativeDigits(s);
    SignedNegativeDigitsOf(s);
  }

  lemma StripNegativeDigits(s: string)
    requires AllDigits(s) && |s| > 0
    ensures Strip("-" + s) == "-" + s
  {
    DigitsUnpadded(s);
    StripUnpadded("-" + s);
  }

  lemma SignedNegativeDigitsOf(s: string)
    requires AllDigits(s) && |s| > 0
    ensures SignedDigits("-" + s) == Some(-(DigitsValue(s) as int))
  {
    var t := "-" + s;
    assert t[0] == '-' && t[1..] == s;
  }

  /** Zero padding keeps a digit string's value. */
  lemma ZeroPadDigits(width: int, n: string)
    requires AllDigits(n)
    ensures AllDigits(ZeroPad(width, n)) && DigitsValue(ZeroPad(width, n)) == DigitsValue(n)
  {
    LeadingZeros(if |n| < width then width - |n| else 0, n);
  }

  /** Zero padding does not change the number `int()` reads. */
  lemma ParseZeroPad(width: int, n: string)
    requires AllDigits(n) && |n| > 0
    ensures ParseInt(ZeroPad(width, n)) == Some(DigitsValue(n) as int)
  {
    ZeroPadDigits(width, n);
    ParseDigits(ZeroPad(width, n));
  }

  /**
   * The rendering of `i` has exactly `width` characters when -10^(width-1) < i < 10^width;
   * outside that range it is longer (it is never cut).
   */
  lemma {:induction false} FormatIntWidth(width: nat, i: int)
    requires width >= 1
    ensures |FormatInt(width, i)| >= width
    ensures |FormatInt(width, i)| == width <==> -(Pow10(width - 1) as int) < i < Pow10(width)
  {
    if i >= 0 {
      FormatIntWidthNonNegative(width, i);
    } else {
      FormatIntWidthNegative(width, i);
    }
  }

  /** A value within the bounds is rendered in exactly `width` characters. */
  lemma FormatIntFits(width: nat, i: int)
    requires width >= 1 && -(Pow10(width - 1) as int) < i < Pow10(width)
    ensures |FormatInt(width, i)| == width
  {
    FormatIntWidth(width, i);
  }

  lemma {:induction false} FormatIntWidthNonNegative(width: nat, i: int)
    requires width >= 1 && i >= 0
    ensures |FormatInt(width, i)| >= width
    ensures |FormatInt(width, i)| == width <==> i < Pow10(width)
  {
    NatToStringFits(i, width);
  }

  lemma {:induction false} FormatIntWidthNegative(width: nat, i: int)
    requires width >= 1 && i < 0
    ensures |FormatInt(width, i)| >= width
    ensures |FormatInt(width, i)| == width <==> -(Pow10(width - 1) as int) < i
  {
    var m := FormatIntNegativeLength(width, i);
    ZeroPadFits(width, m);
  }

  /** A negative number is rendered as a minus sign and its zero-padded magnitude. */
  lemma FormatIntNegativeLength(width: nat, i: int) returns (m: nat)
    requires width >= 1 && i < 0
    ensures m >= 1 && i == -(m as int)
    ensures |FormatInt(width, i)| == 1 + |ZeroPad(width - 1, NatToString(m))|
  {
    m := -i;
    assert FormatInt(width, i) == "-" + ZeroPad(width - 1, NatToString(m));
  }

  lemma ZeroPadFits(width: nat, m: nat)
    requires width >= 1 && m >= 1
    ensures |ZeroPad(width - 1, NatToString(m))| >= width - 1
    ensures |ZeroPad(width - 1, NatToString(m))| == width - 1 <==> m < Pow10(width - 1)
  {
    if width >= 2 {
      NatToStringFits(m, width - 1);
    }
  }

  /** `int('%0<width>d' % i) == i` for every integer and width. */
  lemma ParseFormatInt(width: nat, i: int)
    ensures ParseInt(FormatInt(width, i)) == Some(i)
  {
    if i < 0 {
      var n := NatToString(-i);
      var z := ZeroPad(width - 1, n);
      ZeroPadDigits(width - 1, n);
      ParseNegativeDigits(z);
    } else {
      ParseZeroPad(width, NatToString(i));
    }
  }

  /** A non-negative number is rendered as digits only, at least `width` of them. */
  lemma FormatIntDigits(width: nat, n: int)
    requires n >= 0
    ensures var s := FormatInt(width, n);
            AllDigits(s) && |s| >= 1 && |s| >= width && DigitsValue(s) == n
  {
    ZeroPadDigits(width, NatToString(n));
  }

  /** A negative number is rendered as a minus sign and at least `width - 1` digits. */
  lemma FormatIntNegative(width: nat, n: int) returns (z: string)
    requires n < 0
    ensures FormatInt(width, n) == "-" + z
    ensures AllDigits(z) && |z| >= 1 && |z| + 1 >= width && DigitsValue(z) == -n
  {
    z := ZeroPad(width - 1, NatToString(-n));
    ZeroPadDigits(width - 1, NatToString(-n));
  }

  /** The rendering of a digit string's value at its own width is the string. */
  lemma FormatIntCanonical(s: string)
    requires AllDigits(s) && |s| >= 1
    ensures FormatInt(|s|, DigitsValue(s)) == s
  {
    ZeroPadCanonical(s);
  }

  /** `s.replace(c, '')` of a string without `c` is the string itself. */
  lemma {:induction false} RemoveCharAbsent(s: string, c: char)
    requires c !in s
    ensures RemoveChar(s, c) == s
  {
    if |s| > 0 {
      var init := s[..|s| - 1];
      assert c !in init by {
        forall k | 0 <= k < |init| ensures init[k] != c {
          assert init[k] == s[k];
        }
      }
      var last := s[|s| - 1];
      assert last != c;
      RemoveCharAbsent(init, c);
      assert RemoveChar(s, c) == RemoveChar(init, c) + [last];
      assert init + [last] == s;
    }
  }

  /** `c.replace(c, '')` is empty, and any other single character is kept. */
  lemma RemoveCharOne(x: char, c: char)
    ensures RemoveChar([x], c) == if x == c then [] else [x]
  {
    assert [x][..0] == [];
  }

  /** `s.replace(c, '')` is that of all but the last character, followed by that of the last. */
  lemma RemoveCharLast(s: string, c: char)
    requires |s| > 0
    ensures RemoveChar(s, c) == RemoveChar(s[..|s| - 1], c) + RemoveChar([s[|s| - 1]], c)
  {
    RemoveCharOne(s[|s| - 1], c);
  }

  /** Removing a character from a concatenation removes it from each part. */
  lemma {:induction false} RemoveCharConcat(a: string, b: string, c: char)
    ensures RemoveChar(a + b, c) == RemoveChar(a, c) + RemoveChar(b, c)
  {
    if |b| == 0 {
      assert a + b == a;
    } else {
      var ab, init, last := a + b, b[..|b| - 1], [b[|b| - 1]];
      assert ab[..|ab| - 1] == a + init && [ab[|ab| - 1]] == last;
      RemoveCharLast(ab, c);
      RemoveCharLast(b, c);
      RemoveCharConcat(a, init, c);
      var x, y, z := RemoveChar(a, c), RemoveChar(init, c), RemoveChar(last, c);
      assert x + y + z == x + (y + z);
    }
  }
}
