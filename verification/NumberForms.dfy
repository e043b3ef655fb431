/** What the readers make of each written form of a number: with a sign, a fraction, an exponent,
    another base, or separators. */
module NumberForms {
  import opened CText
  import opened NumberKinds
  import opened Numbers
  import opened Fields
  import opened Sexagesimal

  /** Digits, and a decimal point with further digits if there are any. */
  ghost function Num(whole: string, fraction: string): string {
    if fraction == "" then whole else whole + "." + fraction
  }

  ghost predicate IsNumber(whole: string, fraction: string) {
    whole != "" && AllDigits(whole) && AllDigits(fraction)
  }

  ghost function NumValue(whole: string, fraction: string): real
    requires IsNumber(whole, fraction)
  {
    ValueOf(whole) as real + ValueOf(fraction) as real / Pow10(|fraction|) as real
  }

  ghost function Signed(negative: bool, x: real): real { if negative then -x else x }

  // ------------------------------------------------------------------ atof

  /** What stands behind a number does not go on with it. */
  ghost predicate EndsAt(s: string, at: nat) {
    at <= |s| && (at < |s| ==> !IsDigit(s[at]) && s[at] != '.')
  }

  lemma NumParts(s: string, whole: string, fraction: string)
    requires IsNumber(whole, fraction) && fraction != "" && Num(whole, fraction) <= s
    ensures |whole| + 1 + |fraction| <= |s|
    ensures s[0..|whole|] == whole && s[|whole|] == '.'
    ensures s[|whole| + 1..|whole| + 1 + |fraction|] == fraction
  {
    var n := whole + "." + fraction;
    assert s[..|n|] == n;
    assert forall i | 0 <= i < |n| :: s[i] == n[i];
  }

  lemma MantissaIs(s: string, whole: string, fraction: string)
    requires IsNumber(whole, fraction) && Num(whole, fraction) <= s && EndsAt(s, |Num(whole, fraction)|)
    ensures Mantissa(s, 0) == NumValue(whole, fraction) && MantissaEnd(s, 0) == |Num(whole, fraction)|
  {
    if fraction == "" {
      assert s[0..|whole|] == whole;
      RunIs(s, 0, whole);
      hide DigitRun, RunValue, AllDigits;
      assert ValueOf(fraction) == 0;
    } else {
      NumParts(s, whole, fraction);
      RunIs(s, 0, whole);
      RunIs(s, |whole| + 1, fraction);
      hide DigitRun, ValueOf, Pow10, RunValue, AllDigits;
      assert FractionAt(s, |whole|) == ValueOf(fraction) as real / Pow10(|fraction|) as real;
    }
  }

  lemma MagnitudeIs(s: string, whole: string, fraction: string)
    requires IsNumber(whole, fraction) && Num(whole, fraction) <= s && EndsAt(s, |Num(whole, fraction)|)
    ensures Magnitude(s, 0) == Scaled(NumValue(whole, fraction), ExponentAt(s, |Num(whole, fraction)|))
  {
    MantissaIs(s, whole, fraction);
    hide Mantissa, MantissaEnd, NumValue, Num, Scaled, ExponentAt;
  }

  lemma StartsDigit(s: string, whole: string, fraction: string)
    requires IsNumber(whole, fraction) && Num(whole, fraction) <= s
    ensures s != "" && IsDigit(s[0])
  {
    assert Num(whole, fraction)[0] == whole[0] == s[0];
  }

  /** A decimal number. */
  lemma AtofOfNum(whole: string, fraction: string)
    requires IsNumber(whole, fraction)
    ensures Atof(Num(whole, fraction)) == NumValue(whole, fraction)
  {
    var s := Num(whole, fraction);
    StartsDigit(s, whole, fraction);
    AtofUnsigned(s);
    MagnitudeIs(s, whole, fraction);
    assert ExponentAt(s, |s|) == 0;
    ScaledZero(NumValue(whole, fraction));
    hide Magnitude, NumValue, Num, Scaled, ExponentAt;
  }

  /** A decimal number with an exponent. */
  lemma AtofOfExponent(whole: string, fraction: string, mark: char, negative: bool, x: string)
    requires IsNumber(whole, fraction) && x != "" && AllDigits(x) && (mark == 'e' || mark == 'E')
    ensures Atof(Num(whole, fraction) + Mark(mark, negative) + x) ==
      Scaled(NumValue(whole, fraction), if negative then -(ValueOf(x) as int) else ValueOf(x))
  {
    var n := Num(whole, fraction);
    var s := n + Mark(mark, negative) + x;
    ExponentParts(n, mark, negative, x);
    StartsDigit(s, whole, fraction);
    AtofUnsigned(s);
    assert EndsAt(s, |n|);
    MagnitudeIs(s, whole, fraction);
    ExponentIs(s, |n|, negative, x);
    hide *;
  }

  ghost function Mark(mark: char, negative: bool): string { if negative then [mark, '-'] else [mark] }

  lemma ExponentParts(n: string, mark: char, negative: bool, x: string)
    ensures var s := n + Mark(mark, negative) + x;
      && |s| == |n| + (if negative then 2 else 1) + |x| && n <= s && s[|n|] == mark
      && (negative ==> s[|n| + 1] == '-') && s[|s| - |x|..|s|] == x
  {
  }

  lemma ExponentIs(s: string, at: nat, negative: bool, x: string)
    requires x != "" && AllDigits(x) && |s| == at + (if negative then 2 else 1) + |x|
    requires (s[at] == 'e' || s[at] == 'E') && (negative ==> s[at + 1] == '-') && s[|s| - |x|..|s|] == x
    ensures ExponentAt(s, at) == if negative then -(ValueOf(x) as int) else ValueOf(x)
  {
    var from := |s| - |x|;
    assert IsDigit(s[from]) by { assert s[from] == s[from..|s|][0]; }
    RunIs(s, from, x);
    hide DigitRun, RunValue, AllDigits, ValueOf;
  }

  lemma {:induction false} RunShifts(c: char, s: string, from: nat)
    requires from <= |s|
    ensures DigitRun([c] + s, from + 1) == DigitRun(s, from) + 1
    ensures RunValue([c] + s, from + 1) == RunValue(s, from)
    decreases |s| - from
  {
    var t := [c] + s;
    if from < |s| && IsDigit(s[from]) {
      RunShifts(c, s, from + 1);
      assert t[from + 1] == s[from];
    }
    var r := DigitRun(s, from);
    assert t[from + 1..r + 1] == s[from..r];
  }

  lemma ExponentShifts(c: char, s: string, at: nat)
    requires at <= |s| && !IsExponentMark(c)
    ensures ExponentAt([c] + s, at + 1) == ExponentAt(s, at)
  {
    hide DigitRun, RunValue;
    var t := [c] + s;
    if at < |s| && (s[at] == 'e' || s[at] == 'E') {
      assert t[at + 1] == s[at];
      assert at + 1 < |s| ==> t[at + 2] == s[at + 1];
      var b := if IsSignAt(s, at + 1) then at + 2 else at + 1;
      assert t[b] == s[b - 1];
      RunShifts(c, s, b);
    }
  }

  lemma MantissaShifts(c: char, s: string)
    ensures Mantissa([c] + s, 1) == Mantissa(s, 0) && MantissaEnd([c] + s, 1) == MantissaEnd(s, 0) + 1
  {
    var t := [c] + s;
    RunShifts(c, s, 0);
    var e := DigitRun(s, 0);
    assert e < |s| ==> t[e + 1] == s[e];
    hide DigitRun, RunValue;
    if e < |s| && s[e] == '.' {
      RunShifts(c, s, e + 1);
      assert FractionAt(t, e + 1) == FractionAt(s, e);
    }
    hide FractionAt;
  }

  lemma MagnitudeShifts(c: char, s: string)
    requires !IsExponentMark(c)
    ensures Magnitude([c] + s, 1) == Magnitude(s, 0)
  {
    MantissaShifts(c, s);
    ExponentShifts(c, s, MantissaEnd(s, 0));
    hide Mantissa, MantissaEnd, Scaled, ExponentAt, IsExponentMark;
  }

  /** A sign in front of a number. */
  lemma SignInFront(sign: char, s: string)
    requires IsSign(sign) && s != "" && IsDigit(s[0])
    ensures Atof([sign] + s) == Signed(sign == '-', Atof(s))
    ensures Atoi([sign] + s) == if sign == '-' then -Atoi(s) else Atoi(s)
  {
    var t := [sign] + s;
    assert SkipSpace(t, 0) == 0 && SkipSpace(s, 0) == 0;
    RunShifts(sign, s, 0);
    MagnitudeShifts(sign, s);
    hide Magnitude, RunValue, SkipSpace;
  }

  // ------------------------------------------------------------------ isnum and the exponent marks

  ghost predicate NumberChar(c: char) { IsDigit(c) || c == '.' || IsExponentMark(c) }

  lemma NoTail(s: string)
    requires s != "" && s[|s| - 1] != BLANK && '\n' !in s
    ensures NumberEnd(s) == |s|
  {
    assert BlankTail(s) == |s|;
    assert s[..|s|] == s;
    NumberEndIs(s, |s|);
  }

  /** A text of digits, points and exponent marks that starts with a digit, with or without a sign
      in front: decimal when it has a point or a small exponent mark, else an integer. */
  lemma KindOfNumber(s: string)
    requires s != "" && (IsDigit(s[0]) || (IsSign(s[0]) && |s| > 1 && IsDigit(s[1])))
    requires forall i | 1 <= i < |s| :: NumberChar(s[i])
    ensures NumberKind(s) == if '.' in s || 'd' in s || 'e' in s then 2 else 1
  {
    NoTail(s);
    assert s[..|s|] == s;
    assert HasDigit(s) by {
      assert IsDigit(s[if IsDigit(s[0]) then 0 else 1]);
    }
    assert forall i: nat | i < |s| :: !Spoils(s, i);
    hide Spoils, HasDigit;
  }

  /** With a colon somewhere it is sexagesimal. */
  lemma KindOfSexagesimal(s: string)
    requires s != "" && IsDigit(s[0]) && ':' in s
    requires forall i | 1 <= i < |s| :: NumberChar(s[i]) || s[i] == ':'
    ensures NumberKind(s) == 3
  {
    NoTail(s);
    assert s[..|s|] == s;
    assert HasDigit(s) by {
      assert IsDigit(s[0]);
    }
    assert forall i: nat | i < |s| :: !Spoils(s, i);
    hide Spoils, HasDigit;
  }

  /** A letter other than the four marks, a comma or a slash makes it no number. */
  lemma KindOfOther(s: string, i: nat)
    requires i < |s| && s[|s| - 1] != BLANK && '\n' !in s
    requires s[i] == ',' || s[i] == '/' || IsUpper(s[i]) || IsLower(s[i])
    requires s[i] != 'D' && s[i] != 'd' && s[i] != 'E' && s[i] != 'e'
    ensures NumberKind(s) == 0
  {
    NoTail(s);
    assert s[..|s|] == s;
    assert Spoils(s, i);
    hide Spoils, HasDigit;
  }

  /** The first `c` of a text that has exactly one made an `e`. */
  lemma WithEIs(n: string, mark: char, x: string, c: char)
    requires c !in n && c !in x
    ensures WithE(n + [mark] + x, c) == n + [if mark == c then 'e' else mark] + x
  {
    var s := n + [mark] + x;
    assert s[|n|] == mark;
    if mark == c {
      assert forall i | 0 <= i < |n| :: s[i] == n[i];
      IndexOfIs(s, c, 0, |n|);
      assert s[|n| := 'e'] == n + ['e'] + x;
    } else {
      assert c !in s;
      IndexOfNone(s, c, 0);
    }
  }

  lemma NoMarks(s: string)
    requires 'D' !in s && 'd' !in s && 'E' !in s
    ensures Marked(s) == s
  {
    IndexOfNone(s, 'D', 0);
    IndexOfNone(s, 'd', 0);
    IndexOfNone(s, 'E', 0);
  }

  /** With one exponent mark: rewritten to `e` when isnum takes the text for decimal. */
  lemma MarkedIs(n: string, mark: char, x: string)
    requires forall i | 0 <= i < |n| :: !IsExponentMark(n[i])
    requires forall i | 0 <= i < |x| :: !IsExponentMark(x[i])
    requires IsExponentMark(mark)
    ensures Marked(n + [mark] + x) == if NumberKind(n + [mark] + x) == 2 then n + ['e'] + x else n + [mark] + x
  {
    hide NumberKind;
    WithEIs(n, mark, x, 'D');
    var m := if mark == 'D' then 'e' else mark;
    WithEIs(n, m, x, 'd');
    WithEIs(n, if m == 'd' then 'e' else m, x, 'E');
    hide WithE;
  }

  lemma NumChars(whole: string, fraction: string)
    requires IsNumber(whole, fraction)
    ensures var n := Num(whole, fraction);
      && n != "" && IsDigit(n[0]) && (forall i | 0 <= i < |n| :: IsDigit(n[i]) || n[i] == '.')
      && ('.' in n <==> fraction != "")
  {
    var n := Num(whole, fraction);
    if fraction == "" {
      assert forall i | 0 <= i < |n| :: IsDigit(n[i]);
    } else {
      assert n[|whole|] == '.';
      assert n[0] == whole[0];
    }
  }

  /** isnum on a number with an exponent: a capital mark alone does not make it decimal. */
  lemma KindOfExponent(whole: string, fraction: string, mark: char, x: string)
    requires IsNumber(whole, fraction) && x != "" && AllDigits(x) && IsExponentMark(mark)
    ensures NumberKind(Num(whole, fraction) + [mark] + x) ==
      if fraction != "" || mark == 'd' || mark == 'e' then 2 else 1
  {
    var n := Num(whole, fraction);
    NumChars(whole, fraction);
    hide Num, NumberKind;
    var s := n + [mark] + x;
    assert s[0] == n[0] && s[|n|] == mark;
    assert forall i | 1 <= i < |s| :: NumberChar(s[i]);
    KindOfNumber(s);
  }

  // ------------------------------------------------------------------ angles

  lemma KindOfNum(whole: string, fraction: string)
    requires IsNumber(whole, fraction)
    ensures NumberKind(Num(whole, fraction)) == (if fraction == "" then 1 else 2)
    ensures Marked(Num(whole, fraction)) == Num(whole, fraction)
  {
    NumChars(whole, fraction);
    var n := Num(whole, fraction);
    hide Num, NumberKind;
    KindOfNumber(n);
    NoMarks(n);
  }

  lemma PlainNum(whole: string, fraction: string)
    requires IsNumber(whole, fraction)
    ensures PlainNumber(Num(whole, fraction)) == NumValue(whole, fraction)
  {
    KindOfNum(whole, fraction);
    AtofOfNum(whole, fraction);
    if fraction == "" {
      AtoiOfDigits(whole, whole);
      WholeValue(whole);
    }
    hide NumberKind, Marked, Atof, Atoi, NumValue;
  }

  lemma NoSeparators(s: string)
    requires ':' !in s && BLANK !in s
    ensures ReadUnsigned(s) == Angle(PlainNumber(s), false)
  {
    IndexOfNone(s, ':', 0);
    IndexOfNone(s[..BlankTail(s)], BLANK, 0);
    hide PlainNumber;
  }

  /** A number without separators is in degrees, for a declination and for a right ascension. */
  lemma AngleOfNum(whole: string, fraction: string)
    requires IsNumber(whole, fraction)
    ensures ReadAngle(Num(whole, fraction)) == Angle(NumValue(whole, fraction), false)
    ensures ReadRa(Num(whole, fraction)) == NumValue(whole, fraction)
  {
    NumChars(whole, fraction);
    PlainNum(whole, fraction);
    var n := Num(whole, fraction);
    hide Num, NumValue, PlainNumber, ReadUnsigned;
    NoSeparators(n);
    assert n[0..] == n;
    assert SkipBlank(n, 0) == 0;
  }

  /** So is one with a sign. */
  lemma AngleOfSignedNum(sign: char, whole: string, fraction: string)
    requires IsNumber(whole, fraction) && IsSign(sign)
    ensures ReadAngle([sign] + Num(whole, fraction)) == Angle(Signed(sign == '-', NumValue(whole, fraction)), false)
    ensures ReadRa([sign] + Num(whole, fraction)) == Signed(sign == '-', NumValue(whole, fraction))
  {
    NumChars(whole, fraction);
    PlainNum(whole, fraction);
    var n := Num(whole, fraction);
    hide Num, NumValue, PlainNumber, ReadUnsigned;
    NoSeparators(n);
    var t := [sign] + n;
    assert SkipBlank(t, 0) == 0 && t[1..] == n;
  }

  /** And one with an exponent, unless a capital mark stands behind an integer: then it and what
      follows are not read. */
  lemma AngleOfExponent(whole: string, fraction: string, mark: char, x: string)
    requires IsNumber(whole, fraction) && x != "" && AllDigits(x) && IsExponentMark(mark)
    ensures ReadAngle(Num(whole, fraction) + [mark] + x) ==
      Angle(if fraction == "" && (mark == 'D' || mark == 'E') then NumValue(whole, "")
            else Scaled(NumValue(whole, fraction), ValueOf(x)), false)
  {
    ExponentChars(Num(whole, fraction), whole, fraction, mark, x);
    PlainExponent(whole, fraction, mark, x);
    hide *;
    NoSeparators(Num(whole, fraction) + [mark] + x);
    AngleUnsigned(Num(whole, fraction) + [mark] + x);
  }

  lemma ExponentChars(n: string, whole: string, fraction: string, mark: char, x: string)
    requires IsNumber(whole, fraction) && n == Num(whole, fraction) && AllDigits(x) && IsExponentMark(mark)
    ensures var s := n + [mark] + x; s != "" && IsDigit(s[0]) && ':' !in s && BLANK !in s
  {
    NumChars(whole, fraction);
    hide Num;
    assert (n + [mark] + x)[0] == n[0];
  }

  lemma PlainExponent(whole: string, fraction: string, mark: char, x: string)
    requires IsNumber(whole, fraction) && x != "" && AllDigits(x) && IsExponentMark(mark)
    ensures PlainNumber(Num(whole, fraction) + [mark] + x) ==
      if fraction == "" && (mark == 'D' || mark == 'E') then NumValue(whole, "")
      else Scaled(NumValue(whole, fraction), ValueOf(x))
  {
    KindOfExponent(whole, fraction, mark, x);
    if fraction == "" && (mark == 'D' || mark == 'E') {
      CapitalCut(whole, mark, x);
    } else {
      NumChars(whole, fraction);
      MarkedIs(Num(whole, fraction), mark, x);
      AtofOfExponent(whole, fraction, 'e', false, x);
      assert Mark('e', false) == ['e'];
    }
    hide Num, NumValue, NumberKind, Marked, Atof, Atoi, Scaled, ValueOf;
  }

  lemma WholeValue(whole: string)
    requires whole != "" && AllDigits(whole)
    ensures NumValue(whole, "") == ValueOf(whole) as real
  {
    assert ValueOf("") == 0;
  }

  lemma CapitalCut(whole: string, mark: char, x: string)
    requires whole != "" && AllDigits(whole) && IsExponentMark(mark)
    ensures Atoi(Num(whole, "") + [mark] + x) as real == NumValue(whole, "")
  {
    var s := whole + [mark] + x;
    assert s[..|whole|] == whole && s[|whole|] == mark;
    AtoiOfDigits(s, whole);
    WholeValue(whole);
    hide Atoi, ValueOf, NumValue;
  }

  lemma AngleUnsigned(s: string)
    requires s != "" && IsDigit(s[0])
    ensures ReadAngle(s) == ReadUnsigned(s)
  {
    hide ReadUnsigned;
    assert SkipBlank(s, 0) == 0 && s[0..] == s;
  }

  /** Two fields: the second is minutes, and a fraction of a minute is not read. */
  lemma AngleOfTwo(whole: string, separator: char, minutes: string, fraction: string)
    requires whole != "" && AllDigits(whole) && IsNumber(minutes, fraction) && (separator == ':' || separator == BLANK)
    ensures ReadAngle(whole + [separator] + Num(minutes, fraction)) ==
      Angle(ValueOf(whole) as real + ValueOf(minutes) as real / 60.0, true)
  {
    var m := Num(minutes, fraction);
    NumChars(minutes, fraction);
    LastDigit(minutes, fraction);
    MinutesCut(minutes, fraction);
    hide Num, Atoi, ValueOf;
    SecondIsNone(m);
    assert ReadParts(m) == ValueOf(minutes) as real / 60.0;
    hide ReadParts;
    OuterField(whole, separator, m);
  }

  lemma MinutesCut(minutes: string, fraction: string)
    requires IsNumber(minutes, fraction)
    ensures Atoi(Num(minutes, fraction)) == ValueOf(minutes)
  {
    var m := Num(minutes, fraction);
    assert m[..|minutes|] == minutes;
    AtoiOfDigits(m, minutes);
  }

  lemma FirstIs(whole: string, separator: char, rest: string)
    requires AllDigits(whole) && rest != "" && IsDigit(rest[|rest| - 1])
    requires separator == ':' || (separator == BLANK && ':' !in rest)
    ensures var s := whole + [separator] + rest;
      FirstSeparator(s) == Some(|whole|) && s[..|whole|] == whole && s[|whole| + 1..] == rest
  {
    var s := whole + [separator] + rest;
    SeparatorAfter(whole, separator, rest);
    assert s[|s| - 1] == rest[|rest| - 1];
    assert s[..BlankTail(s)] == s;
    if separator == BLANK {
      assert ':' !in s;
      IndexOfNone(s, ':', 0);
    }
  }

  lemma SecondIsNone(rest: string)
    requires ':' !in rest && BLANK !in rest
    ensures SecondSeparator(rest) == None
  {
    IndexOfNone(rest, ':', 0);
    IndexOfNone(rest, BLANK, 0);
  }

  /** Three fields, with colons or with blanks between them. */
  lemma AngleOfThree(whole: string, separator: char, minutes: string, seconds: string, fraction: string)
    requires whole != "" && AllDigits(whole) && minutes != "" && AllDigits(minutes) && IsNumber(seconds, fraction)
    requires separator == ':' || separator == BLANK
    ensures ReadAngle(whole + [separator] + (minutes + [separator] + Num(seconds, fraction))) ==
      Angle(ValueOf(whole) as real + (ValueOf(minutes) as real / 60.0 + NumValue(seconds, fraction) / 3600.0), true)
  {
    ThreeEnds(minutes, separator, seconds, fraction);
    PartsOfThree(minutes, separator, seconds, fraction);
    hide ReadParts, NumValue, Num, ReadAngle, ValueOf, AllDigits;
    OuterField(whole, separator, minutes + [separator] + Num(seconds, fraction));
  }

  lemma ThreeEnds(minutes: string, separator: char, seconds: string, fraction: string)
    requires AllDigits(minutes) && IsNumber(seconds, fraction)
    ensures var rest := minutes + [separator] + Num(seconds, fraction);
      rest != "" && IsDigit(rest[|rest| - 1]) && (separator == BLANK ==> ':' !in rest)
  {
    var t := Num(seconds, fraction);
    NumChars(seconds, fraction);
    LastDigit(seconds, fraction);
    hide Num;
    var rest := minutes + [separator] + t;
    assert rest[|rest| - 1] == t[|t| - 1];
  }

  lemma OuterField(whole: string, separator: char, rest: string)
    requires whole != "" && AllDigits(whole) && rest != "" && IsDigit(rest[|rest| - 1])
    requires separator == ':' || (separator == BLANK && ':' !in rest)
    ensures ReadAngle(whole + [separator] + rest) == Angle(ValueOf(whole) as real + ReadParts(rest), true)
  {
    var s := whole + [separator] + rest;
    assert s[0] == whole[0];
    AtoiOfDigits(whole, whole);
    hide Atoi, ValueOf, ReadParts;
    FirstIs(whole, separator, rest);
    hide FirstSeparator;
    AngleUnsigned(s);
  }

  lemma PartsOfThree(minutes: string, separator: char, seconds: string, fraction: string)
    requires minutes != "" && AllDigits(minutes) && IsNumber(seconds, fraction)
    requires separator == ':' || separator == BLANK
    ensures ReadParts(minutes + [separator] + Num(seconds, fraction)) ==
      ValueOf(minutes) as real / 60.0 + NumValue(seconds, fraction) / 3600.0
  {
    NumChars(seconds, fraction);
    AtofOfNum(seconds, fraction);
    AtoiOfDigits(minutes, minutes);
    hide Num, NumValue, Atoi, Atof, ValueOf;
    SecondIs(minutes, separator, Num(seconds, fraction));
  }

  lemma LastDigit(whole: string, fraction: string)
    requires IsNumber(whole, fraction)
    ensures var n := Num(whole, fraction); n != "" && IsDigit(n[|n| - 1])
  {
    var n := Num(whole, fraction);
    assert n[|n| - 1] == if fraction == "" then whole[|whole| - 1] else fraction[|fraction| - 1];
  }

  lemma SecondIs(minutes: string, separator: char, rest: string)
    requires AllDigits(minutes) && (separator == ':' || (separator == BLANK && ':' !in rest))
    ensures var s := minutes + [separator] + rest;
      SecondSeparator(s) == Some(|minutes|) && s[..|minutes|] == minutes && s[|minutes| + 1..] == rest
  {
    var s := minutes + [separator] + rest;
    SeparatorAfter(minutes, separator, rest);
    if separator == BLANK {
      assert ':' !in s;
      IndexOfNone(s, ':', 0);
    }
  }

  // ------------------------------------------------------------------ the integer getters

  /** The number the shorter getters see: fractions, signs and exponents are read. */
  lemma SeenNum(whole: string, fraction: string)
    requires IsNumber(whole, fraction)
    ensures Seen(Num(whole, fraction)) == NumValue(whole, fraction)
  {
    NumChars(whole, fraction);
    KindOfNum(whole, fraction);
    AtofOfNum(whole, fraction);
    hide Num, NumValue, NumberKind, Marked, Atof;
  }

  lemma SeenSigned(sign: char, whole: string, fraction: string)
    requires IsNumber(whole, fraction) && IsSign(sign)
    ensures Seen([sign] + Num(whole, fraction)) == Signed(sign == '-', NumValue(whole, fraction))
  {
    var n := Num(whole, fraction);
    NumChars(whole, fraction);
    AtofOfNum(whole, fraction);
    hide Num, NumValue;
    SignInFront(sign, n);
    hide Atof, NumberKind, Atoi;
    NoMarks([sign] + n);
  }

  /** A capital D behind an integer is not read; every other exponent is. */
  lemma SeenExponent(whole: string, fraction: string, mark: char, x: string)
    requires IsNumber(whole, fraction) && x != "" && AllDigits(x) && IsExponentMark(mark)
    ensures Seen(Num(whole, fraction) + [mark] + x) ==
      if fraction == "" && mark == 'D' then NumValue(whole, "") else Scaled(NumValue(whole, fraction), ValueOf(x))
  {
    ExponentChars(Num(whole, fraction), whole, fraction, mark, x);
    KindOfExponent(whole, fraction, mark, x);
    NumChars(whole, fraction);
    MarkedIs(Num(whole, fraction), mark, x);
    assert Unhash(Num(whole, fraction) + [mark] + x) == Num(whole, fraction) + [mark] + x;
    if fraction == "" && mark == 'D' {
      DCut(whole, x);
    } else {
      AtofOfExponent(whole, fraction, 'e', false, x);
      assert Mark('e', false) == ['e'];
      if fraction == "" && mark == 'E' {
        AtofOfExponent(whole, fraction, 'E', false, x);
        assert Mark('E', false) == ['E'];
      }
    }
    hide Num, NumValue, NumberKind, Marked, Atof, Scaled, ValueOf, Unhash;
  }

  lemma DCut(whole: string, x: string)
    requires whole != "" && AllDigits(whole)
    ensures Atof(Num(whole, "") + ['D'] + x) == NumValue(whole, "")
  {
    var s := whole + ['D'] + x;
    assert s[..|whole|] == whole && s[|whole|] == 'D';
    AtofOfDigits(s, whole);
    WholeValue(whole);
    hide Atof, ValueOf, NumValue;
  }

  /** Saturation: the nearest integer towards zero, a thousandth being added first, inside the
      range; the end of the range outside. */
  lemma SaturationIs(d: real, low: int, high: int)
    requires low <= 0 < high
    ensures d + 0.001 > high as real ==> Saturation(d, low, high) == high
    ensures d < 0.0 && d - 0.001 < low as real ==> Saturation(d, low, high) == low
    ensures 0.0 <= d && d + 0.001 <= high as real ==>
      Saturation(d, low, high) as real <= d + 0.001 < Saturation(d, low, high) as real + 1.0
    ensures d < 0.0 && d - 0.001 >= low as real ==>
      Saturation(d, low, high) as real - 1.0 < d - 0.001 <= Saturation(d, low, high) as real
  {
  }

  /** A leading hash sign is skipped by every integer getter. */
  lemma HashSkipped(value: string)
    requires value == "" || value[0] != '#'
    ensures Seen("#" + value) == Seen(value) && ReadI8("#" + value) == ReadI8(value) && ReadU8("#" + value) == ReadU8(value)
  {
    assert ("#" + value)[1..] == value;
    assert Unhash("#" + value) == value == Unhash(value);
    hide Marked, Atof, ScanInt, Strtoll, Strtoull, Unhash, Truncate;
  }

  /** Any printed integer: saturated by strtoll, and by strtoull after the wrap of a sign. */
  lemma LongSaturates(n: int)
    ensures ReadI8(IntText(n)) == Clamp(n, -LLONG_MAX - 1, LLONG_MAX)
    ensures ReadU8(IntText(n)) ==
      if n > ULLONG_MAX || n < -ULLONG_MAX then ULLONG_MAX else if n < 0 then n + ULLONG_MAX + 1 else n
  {
    ScanOfIntText(n);
    assert Unhash(IntText(n)) == IntText(n) by {
      assert n < 0 || IsDigit(IntText(n)[0]);
    }
    hide ScanInt, IntText;
  }

  lemma {:induction false} FractionBelowOne(fraction: string)
    requires AllDigits(fraction)
    ensures ValueOf(fraction) < Pow10(|fraction|)
  {
    if fraction != "" {
      FractionBelowOne(fraction[..|fraction| - 1]);
    }
  }

  lemma {:induction false} RunStops(s: string, from: nat, base: nat, acc: nat, at: nat)
    requires from <= at < |s| && 2 <= base <= 16 && AnyDigit(s[at]) >= base
    ensures ReadRun(s, from, base, acc).1 <= at
    decreases at - from
  {
    if from < at && AnyDigit(s[from]) < base {
      RunStops(s, from + 1, base, base * acc + AnyDigit(s[from]), at);
    }
  }

  lemma WholePart(whole: string, fraction: string)
    requires IsNumber(whole, fraction)
    ensures ValueOf(whole) as real <= NumValue(whole, fraction) < ValueOf(whole) as real + 1.0
  {
    FractionBelowOne(fraction);
    hide ValueOf, Pow10;
    Ratio(ValueOf(fraction) as real, Pow10(|fraction|) as real);
  }

  lemma Ratio(v: real, p: real)
    requires 0.0 <= v < p
    ensures 0.0 <= v / p < 1.0
  {
  }

  /** hgeti8 and hgetu8 on a number with a fraction: its whole part, towards zero. */
  lemma LongOfDecimal(whole: string, fraction: string)
    requires IsNumber(whole, fraction) && fraction != ""
    ensures ReadI8(Num(whole, fraction)) == ValueOf(whole) && ReadU8(Num(whole, fraction)) == ValueOf(whole)
    ensures ReadI8("-" + Num(whole, fraction)) == -(ValueOf(whole) as int)
  {
    NumChars(whole, fraction);
    assert Num(whole, fraction)[|whole|] == '.';
    AtofOfNum(whole, fraction);
    WholePart(whole, fraction);
    hide Num, NumValue, ValueOf;
    var n := Num(whole, fraction);
    AtofInstead(n, |whole|);
    assert ("-" + n)[|whole| + 1] == '.';
    AtofInstead("-" + n, |whole| + 1);
    hide Atof, Atoi, ReadI8, ReadU8;
    SignInFront('-', n);
  }

  /** Where strtoll stops at a point, atof is asked. */
  lemma AtofInstead(s: string, at: nat)
    requires at < |s| && s[at] == '.' && forall i | 0 <= i < at :: s[i] != 'x' && s[i] != 'X' && s[i] != '.'
    requires s != "" && (IsDigit(s[0]) || (s[0] == '-' && |s| > 1 && IsDigit(s[1])))
    ensures ReadI8(s) == Truncate(Atof(s)) && ReadU8(s) == Truncate(Atof(s))
  {
    ScanStops(s, at);
    hide ScanInt, Atof, Strtoll, Strtoull;
  }

  lemma ScanStops(s: string, at: nat)
    requires at < |s| && s[at] == '.' && forall i | 0 <= i < at :: s[i] != 'x' && s[i] != 'X' && s[i] != '.'
    requires s != "" && (IsDigit(s[0]) || (s[0] == '-' && |s| > 1 && IsDigit(s[1])))
    ensures ScanInt(s).end < |s|
  {
    assert SkipSpace(s, 0) == 0;
    var b := if s[0] == '-' then 1 else 0;
    assert b < at;
    RunStops(s, b, 8, 0, at);
    RunStops(s, b, 10, 0, at);
    if b + 1 < |s| {
      assert Upper(s[b + 1]) == 'X' ==> b + 1 > at;
    }
  }

  // ------------------------------------------------------------------ other bases

  /** The number that digits stand for in a base. */
  ghost function ValueIn(s: string, base: nat): nat {
    if s == "" then 0 else base * ValueIn(s[..|s| - 1], base) + AnyDigit(s[|s| - 1])
  }

  ghost predicate DigitsIn(s: string, base: nat) { forall i | 0 <= i < |s| :: AnyDigit(s[i]) < base }

  lemma {:induction false} RunIn(s: string, from: nat, k: nat, base: nat)
    requires from <= k <= |s| && 2 <= base <= 16 && DigitsIn(s[from..], base)
    ensures ReadRun(s, from, base, 0) == ReadRun(s, k, base, ValueIn(s[from..k], base))
    decreases k
  {
    if k > from {
      RunIn(s, from, k - 1, base);
      assert AnyDigit(s[k - 1]) < base by {
        assert s[k - 1] == s[from..][k - 1 - from];
      }
      var v := s[from..k];
      assert v[..|v| - 1] == s[from..k - 1] && v[|v| - 1] == s[k - 1];
      hide AnyDigit, DigitsIn;
      assert ValueIn(v, base) == base * ValueIn(v[..|v| - 1], base) + AnyDigit(v[|v| - 1]);
      hide ValueIn;
    }
  }

  /** hgeti8 reads a text that starts with 0x as hexadecimal, and one that starts with 0 and goes on
      with octal digits as octal. */
  lemma LongInOtherBases(digits: string)
    requires digits != ""
    ensures DigitsIn(digits, 16) && ValueIn(digits, 16) <= LLONG_MAX ==> ReadI8("0x" + digits) == ValueIn(digits, 16)
    ensures DigitsIn(digits, 8) && ValueIn(digits, 8) <= LLONG_MAX ==> ReadI8("0" + digits) == ValueIn(digits, 8)
  {
    if DigitsIn(digits, 16) {
      ScanHex(digits);
    }
    if DigitsIn(digits, 8) {
      ScanOctal(digits);
    }
    hide ScanInt, ValueIn;
  }

  lemma ScanHex(digits: string)
    requires digits != "" && DigitsIn(digits, 16)
    ensures ScanInt("0x" + digits) == Scan(false, ValueIn(digits, 16), |digits| + 2)
  {
    var s := "0x" + digits;
    assert s[2..] == digits && s[2..|s|] == digits && s[2] == digits[0];
    assert SkipSpace(s, 0) == 0;
    RunIn(s, 2, |s|, 16);
  }

  lemma ScanOctal(digits: string)
    requires digits != "" && DigitsIn(digits, 8)
    ensures ScanInt("0" + digits) == Scan(false, ValueIn(digits, 8), |digits| + 1)
  {
    var s := "0" + digits;
    assert s[1] == digits[0];
    assert SkipSpace(s, 0) == 0;
    assert Upper(s[1]) != 'X';
    OctalRun(digits);
    hide ReadRun, ValueIn, DigitsIn;
  }

  lemma OctalRun(digits: string)
    requires DigitsIn(digits, 8)
    ensures ReadRun("0" + digits, 0, 8, 0) == (ValueIn(digits, 8), |digits| + 1)
  {
    var s := "0" + digits;
    assert DigitsIn(s, 8);
    assert s[0..] == s && s[0..|s|] == s;
    ZeroInFront(digits, 8);
    RunIn(s, 0, |s|, 8);
    hide ValueIn, DigitsIn;
  }

  lemma {:induction false} ZeroInFront(digits: string, base: nat)
    ensures ValueIn("0" + digits, base) == ValueIn(digits, base)
  {
    var s := "0" + digits;
    if digits == "" {
      assert s[..0] == "";
    } else {
      assert s[..|s| - 1] == "0" + digits[..|digits| - 1];
      ZeroInFront(digits[..|digits| - 1], base);
    }
  }
}
