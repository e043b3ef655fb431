/** Numbers printed at a fixed width between separators, and read back. */
module Fields {
  import opened CText
  import opened Numbers

  /** The last `w` decimal digits of a number, leading zeros included. */
  function Fixed(n: nat, w: nat): (s: string)
    requires n < Pow10(w)
    ensures |s| == w && AllDigits(s) && ValueOf(s) == n
  {
    if w == 0 then ""
    else
      var front := Fixed(n / 10, w - 1);
      var s := front + [DigitChar(n % 10)];
      assert s[..w - 1] == front;
      s
  }

  /** sprintf with `%0wd`. */
  function Padded(n: nat, w: nat): (s: string)
    requires w >= 1
    ensures |s| >= w && AllDigits(s) && ValueOf(s) == n
    ensures n < Pow10(w) ==> |s| == w
  {
    if n < Pow10(w) then Fixed(n, w)
    else
      WideEnough(n, w);
      Digits(n)
  }

  lemma {:induction false} WideEnough(n: nat, w: nat)
    requires w >= 1 && n >= Pow10(w)
    ensures |Digits(n)| >= w
  {
    assert Pow10(1) == 10 * Pow10(0) == 10;
    if w > 1 {
      assert n >= 10 && n / 10 >= Pow10(w - 1);
      WideEnough(n / 10, w - 1);
    }
  }

  /** A text that starts with a run of digits, ended by something else. */
  ghost predicate Led(s: string, digits: string) {
    && digits != "" && AllDigits(digits) && digits <= s
    && (|digits| < |s| ==> !IsDigit(s[|digits|]))
  }

  lemma {:induction false} DigitRunIs(s: string, from: nat, to: nat)
    requires from <= to <= |s| && AllDigits(s[from..to]) && (to < |s| ==> !IsDigit(s[to]))
    ensures DigitRun(s, from) == to
    decreases |s| - from
  {
    if from < to {
      assert s[from] == s[from..to][0];
      assert s[from + 1..to] == s[from..to][1..];
      DigitRunIs(s, from + 1, to);
    }
  }

  lemma AtoiOfDigits(s: string, digits: string)
    requires Led(s, digits)
    ensures Atoi(s) == ValueOf(digits)
  {
    assert s[..|digits|] == s[0..|digits|] == digits;
    assert IsDigit(s[0]) by { assert s[0] == digits[0]; }
    DigitRunIs(s, 0, |digits|);
  }

  lemma AtofOfDigits(s: string, digits: string)
    requires Led(s, digits)
    requires |digits| < |s| ==> s[|digits|] != '.' && s[|digits|] != 'e' && s[|digits|] != 'E'
    ensures Atof(s) == ValueOf(digits) as real
  {
    assert s[..|digits|] == s[0..|digits|] == digits;
    assert IsDigit(s[0]) by { assert s[0] == digits[0]; }
    DigitRunIs(s, 0, |digits|);
    assert TenTo(0) == 1.0;
  }

  lemma RunIs(s: string, from: nat, digits: string)
    requires from + |digits| <= |s| && s[from..from + |digits|] == digits && AllDigits(digits)
    requires from + |digits| < |s| ==> !IsDigit(s[from + |digits|])
    ensures DigitRun(s, from) == from + |digits| && RunValue(s, from) == ValueOf(digits)
  {
    DigitRunIs(s, from, from + |digits|);
  }

  lemma MagnitudeOfDecimal(s: string, whole: string, fraction: string)
    requires AllDigits(whole) && AllDigits(fraction) && |s| == |whole| + 1 + |fraction|
    requires s[0..|whole|] == whole && s[|whole|] == '.' && s[|whole| + 1..|whole| + 1 + |fraction|] == fraction
    ensures Magnitude(s, 0) == ValueOf(whole) as real + ValueOf(fraction) as real / Pow10(|fraction|) as real
  {
    RunIs(s, 0, whole);
    RunIs(s, |whole| + 1, fraction);
    hide DigitRun, ValueOf, Pow10, RunValue, TenTo, AllDigits, Scaled;
    assert ExponentAt(s, |s|) == 0;
    assert FractionAt(s, |whole|) == ValueOf(fraction) as real / Pow10(|fraction|) as real;
    hide FractionAt, ExponentAt;
    assert MantissaEnd(s, 0) == |s|;
    assert Mantissa(s, 0) == ValueOf(whole) as real + ValueOf(fraction) as real / Pow10(|fraction|) as real;
    ScaledZero(Mantissa(s, 0));
    hide Mantissa, MantissaEnd, Scaled;
  }

  lemma ScaledZero(x: real)
    ensures Scaled(x, 0) == x
  {
    assert TenTo(0) == 1.0;
  }

  lemma AtofUnsigned(s: string)
    requires s != "" && IsDigit(s[0])
    ensures Atof(s) == Magnitude(s, 0)
  {
    hide Magnitude;
    assert SkipSpace(s, 0) == 0;
  }

  lemma Joined(whole: string, fraction: string)
    ensures var s := whole + "." + fraction;
      && |s| == |whole| + 1 + |fraction|
      && s[0..|whole|] == whole && s[|whole|] == '.' && s[|whole| + 1..|whole| + 1 + |fraction|] == fraction
      && (whole != "" ==> s[0] == whole[0])
  {
  }

  lemma AtofOfDecimal(whole: string, fraction: string)
    requires whole != "" && AllDigits(whole) && AllDigits(fraction)
    ensures Atof(whole + "." + fraction) == ValueOf(whole) as real + ValueOf(fraction) as real / Pow10(|fraction|) as real
  {
    var s := whole + "." + fraction;
    Joined(whole, fraction);
    assert IsDigit(s[0]);
    hide Magnitude, ValueOf, Pow10, Atof, AllDigits;
    MagnitudeOfDecimal(s, whole, fraction);
    AtofUnsigned(s);
  }

  /** The first separator behind a run of digits. */
  lemma SeparatorAfter(digits: string, c: char, rest: string)
    requires AllDigits(digits) && !IsDigit(c)
    ensures var s := digits + [c] + rest;
      IndexOf(s, c, 0) == Some(|digits|) && s[..|digits|] == digits && s[|digits| + 1..] == rest
  {
    var s := digits + [c] + rest;
    assert forall i | 0 <= i < |digits| :: s[i] == digits[i];
    IndexOfIs(s, c, 0, |digits|);
  }

  lemma NoSeparator(digits: string, c: char)
    requires AllDigits(digits) && !IsDigit(c)
    ensures IndexOf(digits, c, 0) == None
  {
    IndexOfNone(digits, c, 0);
  }
}
