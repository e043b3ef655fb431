/** Integers as text: what the put routines print with sprintf, what the get routines read
    back with strtoll, strtoull and atof. */
module Numbers {
  import opened CText
  import opened NumberKinds

  const INT_MAX: int := 2147483647
  const UINT_MAX: int := 4294967295
  const SHRT_MAX: int := 32767
  const LLONG_MAX: int := 9223372036854775807
  const ULLONG_MAX: int := 18446744073709551615

  // ------------------------------------------------------------------ digits

  function DigitChar(d: nat): (c: char)
    requires d < 10
    ensures IsDigit(c) && DigitValue(c) == d
  {
    ('0' as int + d) as char
  }

  function DigitValue(c: char): (d: nat)
    requires IsDigit(c)
    ensures d < 10
  {
    c as int - '0' as int
  }

  ghost predicate AllDigits(s: string) { forall i | 0 <= i < |s| :: IsDigit(s[i]) }

  /** The number a run of decimal digits stands for. */
  function ValueOf(s: string): nat
    requires AllDigits(s)
  {
    if s == [] then 0 else 10 * ValueOf(s[..|s| - 1]) + DigitValue(s[|s| - 1])
  }

  /** Decimal digits without leading zeros. */
  function Digits(n: nat): (s: string)
    ensures AllDigits(s) && s != []
    ensures ValueOf(s) == n
    ensures s[0] == '0' <==> n == 0
  {
    if n < 10 then [DigitChar(n)]
    else
      var front := Digits(n / 10);
      var s := front + [DigitChar(n % 10)];
      assert s[..|s| - 1] == front;
      s
  }

  function Pow10(k: nat): (p: nat)
    ensures p > 0
  {
    if k == 0 then 1 else 10 * Pow10(k - 1)
  }

  lemma {:induction false} DigitsWidth(n: nat, k: nat)
    requires k >= 1 && n < Pow10(k)
    ensures |Digits(n)| <= k
  {
    if n >= 10 {
      assert n / 10 < Pow10(k - 1);
      assert Pow10(1) == 10 * Pow10(0) == 10;
      DigitsWidth(n / 10, k - 1);
    }
  }

  /** sprintf with `%d`, `%ld`, `%u` or `%lu`. */
  function IntText(n: int): (s: string)
    ensures s != []
  {
    if n < 0 then "-" + Digits(-n) else Digits(n)
  }

  lemma IntTextWidth(n: int)
    requires -LLONG_MAX - 1 <= n <= ULLONG_MAX
    ensures |IntText(n)| <= 20
  {
    assert Pow10(10) == 10000000000;
    assert Pow10(19) == 1000000000 * Pow10(10);
    assert Pow10(20) == 10000000000 * Pow10(10);
    if n < 0 { DigitsWidth(-n, 19); } else { DigitsWidth(n, 20); }
  }

  // ------------------------------------------------------------------ strtoll and strtoull with base 0

  function SkipSpace(s: string, from: nat): (r: nat)
    requires from <= |s|
    ensures from <= r <= |s|
    decreases |s| - from
  {
    if from < |s| && (s[from] == BLANK || '\t' <= s[from] <= '\r') then SkipSpace(s, from + 1) else from
  }

  /** The value of a digit in any base up to 16; 16 for a character that is no digit. */
  function AnyDigit(c: char): (d: nat)
    ensures d <= 16
  {
    if IsDigit(c) then DigitValue(c)
    else if 'a' <= c <= 'f' then c as int - 'a' as int + 10
    else if 'A' <= c <= 'F' then c as int - 'A' as int + 10
    else 16
  }

  /** The longest run of base-`base` digits from `from` on, and its value on top of `acc`. */
  function ReadRun(s: string, from: nat, base: nat, acc: nat): (r: (nat, nat))
    requires from <= |s| && 2 <= base <= 16
    ensures from <= r.1 <= |s|
    decreases |s| - from
  {
    if from < |s| && AnyDigit(s[from]) < base then ReadRun(s, from + 1, base, base * acc + AnyDigit(s[from]))
    else (acc, from)
  }

  datatype Scan = Scan(negative: bool, magnitude: nat, end: nat)

  /** Sign, prefix and digits as strtoll(…, 0) sees them; `end` is where endptr points. */
  function ScanInt(s: string): (r: Scan)
    ensures r.end <= |s|
  {
    var a := SkipSpace(s, 0);
    var negative := a < |s| && s[a] == '-';
    var b := if a < |s| && (s[a] == '-' || s[a] == '+') then a + 1 else a;
    if b + 2 < |s| && s[b] == '0' && Upper(s[b + 1]) == 'X' && AnyDigit(s[b + 2]) < 16 then
      var r := ReadRun(s, b + 2, 16, 0);
      Scan(negative, r.0, r.1)
    else
      var r := ReadRun(s, b, if b < |s| && s[b] == '0' then 8 else 10, 0);
      Scan(negative, r.0, if r.1 == b then 0 else r.1)
  }

  function Strtoll(s: string): int {
    var r := ScanInt(s);
    var m: int := r.magnitude;
    if r.negative then (if m > LLONG_MAX + 1 then -LLONG_MAX - 1 else -m)
    else if m > LLONG_MAX then LLONG_MAX else m
  }

  function Strtoull(s: string): int {
    var r := ScanInt(s);
    if r.magnitude > ULLONG_MAX then ULLONG_MAX
    else if r.negative && r.magnitude > 0 then ULLONG_MAX + 1 - r.magnitude else r.magnitude
  }

  // ------------------------------------------------------------------ atoi, and atof on decimal numbers

  function DigitRun(s: string, from: nat): (r: nat)
    requires from <= |s|
    ensures from <= r <= |s|
    ensures AllDigits(s[from..r])
    ensures r < |s| ==> !IsDigit(s[r])
    decreases |s| - from
  {
    if from < |s| && IsDigit(s[from]) then
      var r := DigitRun(s, from + 1);
      assert s[from..r] == [s[from]] + s[from + 1..r];
      r
    else from
  }

  function IsSignAt(s: string, i: nat): bool { i < |s| && (s[i] == '-' || s[i] == '+') }

  /** The number in the run of digits from `from` on. */
  function RunValue(s: string, from: nat): (n: int)
    requires from <= |s|
    ensures n >= 0
  {
    ValueOf(s[from..DigitRun(s, from)])
  }

  function Atoi(s: string): int {
    var a := SkipSpace(s, 0);
    var b := if IsSignAt(s, a) then a + 1 else a;
    if a < |s| && s[a] == '-' then -RunValue(s, b) else RunValue(s, b)
  }

  function TenTo(e: int): real {
    if e >= 0 then Pow10(e) as real else 1.0 / Pow10(-e) as real
  }

  function Scaled(x: real, e: int): real { x * TenTo(e) }

  /** The exponent part that starts at `at`, if there is one with at least one digit. */
  function ExponentAt(s: string, at: nat): int {
    if at < |s| && (s[at] == 'e' || s[at] == 'E') then
      var b := if IsSignAt(s, at + 1) then at + 2 else at + 1;
      if s[b - 1] == '-' then -RunValue(s, b) else RunValue(s, b)
    else 0
  }

  /** The digits behind a decimal point at `point`. */
  function FractionAt(s: string, point: nat): real
    requires point < |s|
  {
    RunValue(s, point + 1) as real / Pow10(DigitRun(s, point + 1) - point - 1) as real
  }

  /** Where the digits of a decimal number end, and its value without the exponent. */
  function MantissaEnd(s: string, b: nat): (r: nat)
    requires b <= |s|
    ensures r <= |s|
  {
    var c := DigitRun(s, b);
    if c < |s| && s[c] == '.' then DigitRun(s, c + 1) else c
  }

  function Mantissa(s: string, b: nat): real
    requires b <= |s|
  {
    var c := DigitRun(s, b);
    RunValue(s, b) as real + if c < |s| && s[c] == '.' then FractionAt(s, c) else 0.0
  }

  /** An unsigned decimal number with an optional fraction and exponent. */
  function Magnitude(s: string, b: nat): real
    requires b <= |s|
  {
    Scaled(Mantissa(s, b), ExponentAt(s, MantissaEnd(s, b)))
  }

  function Atof(s: string): real {
    var a := SkipSpace(s, 0);
    var b := if IsSignAt(s, a) then a + 1 else a;
    if a < |s| && s[a] == '-' then -Magnitude(s, b) else Magnitude(s, b)
  }

  // ------------------------------------------------------------------ the getters' arithmetic

  /** A C conversion from double to integer: the fraction is dropped. */
  function Truncate(r: real): int { if r >= 0.0 then r.Floor else -(-r).Floor }

  function Unhash(value: string): string {
    if value != [] && value[0] == '#' then value[1..] else value
  }

  /** The number hgeti4, hgetu4 and hgeti2 see in a value. */
  ghost function Seen(value: string): real { Atof(Marked(Unhash(value))) }

  /** A number cut to an integer, saturated to a range. */
  function Saturation(d: real, low: int, high: int): int {
    if d + 0.001 > high as real then high
    else if d >= 0.0 then Truncate(d + 0.001)
    else if d - 0.001 < low as real then low
    else Truncate(d - 0.001)
  }

  ghost function Saturated(value: string, low: int, high: int): int { Saturation(Seen(value), low, high) }

  ghost function ReadI4(value: string): int { Saturated(value, -INT_MAX - 1, INT_MAX) }

  ghost function ReadU4(value: string): int { Saturated(value, 0, UINT_MAX) }

  ghost function ReadI2(value: string): int { Saturated(value, -SHRT_MAX - 1, SHRT_MAX) }

  /** What hgeti4, hgetu4 and hgeti2 do with a value; `front` is what stands in front of its copy. */
  method SaturatedValue(value: string, front: string, low: int, high: int) returns (n: int)
    ensures n == Saturated(value, low, high)
  {
    hide NumberKind, Marked, Atof, Saturation;
    var val := Unhash(value);
    var kind := IsNum(val, front);
    val := MarkExponent(val, kind);
    n := Saturation(Atof(val), low, high);
  }

  function ReadI8(value: string): int {
    var v := Unhash(value);
    if ScanInt(v).end == |v| then Strtoll(v) else Truncate(Atof(v))
  }

  function ReadU8(value: string): int {
    var v := Unhash(value);
    if ScanInt(v).end == |v| then Strtoull(v) else Truncate(Atof(v))
  }

  // ------------------------------------------------------------------ round trips

  function Clamp(n: int, low: int, high: int): int {
    if n < low then low else if n > high then high else n
  }

  lemma {:induction false} ReadRunOfDigits(s: string, from: nat, k: nat)
    requires from <= k <= |s| && AllDigits(s[from..])
    ensures AllDigits(s[from..k])
    ensures ReadRun(s, from, 10, 0) == ReadRun(s, k, 10, ValueOf(s[from..k]))
  {
    if k > from {
      ReadRunOfDigits(s, from, k - 1);
      assert s[from..k][..k - 1 - from] == s[from..k - 1];
      assert s[k - 1] == s[from..][k - 1 - from] == s[from..k][k - 1 - from];
    }
  }

  /** strtoll and strtoull read a printed integer whole. */
  lemma ScanOfIntText(n: int)
    ensures ScanInt(IntText(n)) == Scan(n < 0, if n < 0 then -n else n, |IntText(n)|)
  {
    var s := IntText(n);
    var b := if n < 0 then 1 else 0;
    var d := Digits(if n < 0 then -n else n);
    assert s[b..] == d;
    assert s[b] == d[0];
    assert SkipSpace(s, 0) == 0;
    if d[0] == '0' {
      assert n == 0 && s == d == "0";
      assert ReadRun(s, 0, 8, 0) == ReadRun(s, 1, 8, 0) == (0, 1);
    } else {
      ReadRunOfDigits(s, b, |s|);
      assert s[b..|s|] == d;
    }
  }

  lemma DigitRunOfDigits(s: string, from: nat)
    requires from <= |s| && AllDigits(s[from..])
    ensures DigitRun(s, from) == |s|
  {
    forall i | from <= i < |s|
      ensures IsDigit(s[i])
    {
      assert s[i] == s[from..][i - from];
    }
  }

  lemma AtofOfIntText(n: int)
    ensures Atof(IntText(n)) == n as real
  {
    var s := IntText(n);
    var b := if n < 0 then 1 else 0;
    var d := Digits(if n < 0 then -n else n);
    assert s[b..] == d;
    assert s[b] == d[0];
    assert SkipSpace(s, 0) == 0;
    DigitRunOfDigits(s, b);
    assert s[b..|s|] == d;
    assert RunValue(s, b) == ValueOf(d) && ExponentAt(s, |s|) == 0 && TenTo(0) == 1.0;
    hide SkipSpace, DigitRun, RunValue, ValueOf, TenTo, ExponentAt;
  }

  /** 64-bit integers survive the text form. */
  lemma LongRoundTrip(n: int)
    ensures -LLONG_MAX - 1 <= n <= LLONG_MAX ==> ReadI8(IntText(n)) == n
    ensures 0 <= n <= ULLONG_MAX ==> ReadU8(IntText(n)) == n
  {
    ScanOfIntText(n);
    assert Unhash(IntText(n)) == IntText(n) by {
      assert n < 0 || IsDigit(IntText(n)[0]);
    }
  }

  lemma SaturatedOfIntText(n: int, low: int, high: int)
    requires low <= 0 < high
    ensures Saturated(IntText(n), low, high) == Clamp(n, low, high)
  {
    AtofOfIntText(n);
    var d := n as real;
    NotDecimal(IntText(n));
    assert Unhash(IntText(n)) == IntText(n) by {
      assert n < 0 || IsDigit(IntText(n)[0]);
    }
    assert (d + 0.001).Floor == n;
    assert (-d + 0.001).Floor == -n;
  }

  /** 32-bit integers survive the text form, and the narrower getters saturate. */
  lemma ShorterRoundTrip(n: int)
    ensures ReadI4(IntText(n)) == Clamp(n, -INT_MAX - 1, INT_MAX)
    ensures ReadU4(IntText(n)) == Clamp(n, 0, UINT_MAX)
    ensures ReadI2(IntText(n)) == Clamp(n, -SHRT_MAX - 1, SHRT_MAX)
  {
    SaturatedOfIntText(n, -INT_MAX - 1, INT_MAX);
    SaturatedOfIntText(n, 0, UINT_MAX);
    SaturatedOfIntText(n, -SHRT_MAX - 1, SHRT_MAX);
  }
}
