/** Angles in degrees, printed as hours or degrees, minutes and seconds, and read back. C doubles
    are modelled as reals. */
module Sexagesimal {
  import opened CText
  import opened NumberKinds
  import opened Numbers
  import opened Fields
  import opened Arith

  // ------------------------------------------------------------------ angles

  ghost function Turned(a: real, k: int): real { a + 360.0 * k as real }

  /** `x` is less than `eps` away from `y` on the circle. */
  ghost predicate NearOnCircle(x: real, y: real, eps: real) {
    exists k: int :: Turned(y, k) - eps < x < Turned(y, k) + eps
  }

  /** fmod by 360 of a non-negative angle. */
  function Fmod360(a: real): (r: real)
    requires a >= 0.0
    ensures 0.0 <= r < 360.0
  {
    var k := (a / 360.0).Floor;
    assert k as real <= a / 360.0 < k as real + 1.0;
    a - 360.0 * k as real
  }

  /** The angle with its sign, less whole turns towards zero. */
  function Remainder(a: real): (r: real)
    ensures -360.0 < r < 360.0
    ensures r < 0.0 ==> a < 0.0
  {
    if a < 0.0 then -Fmod360(-a) else Fmod360(a)
  }

  /** A right ascension between 0 and 360 degrees. */
  function Circle(ra: real): (r: real)
    ensures 0.0 <= r < 360.0
  {
    if Remainder(ra) < 0.0 then Remainder(ra) + 360.0 else Remainder(ra)
  }

  /** A declination above -180 and below 360 degrees. */
  function Declination(dec: real): (r: real)
    ensures -180.0 < r < 360.0
  {
    if Remainder(dec) <= -180.0 then Remainder(dec) + 360.0 else Remainder(dec)
  }

  lemma RemainderTurns(a: real)
    ensures exists k: int :: Remainder(a) == Turned(a, k)
  {
    var k := if a < 0.0 then (-a / 360.0).Floor else -(a / 360.0).Floor;
    assert Remainder(a) == Turned(a, k);
  }

  lemma CircleTurns(ra: real)
    ensures exists k: int :: Circle(ra) == Turned(ra, k)
  {
    RemainderTurns(ra);
    var k: int :| Remainder(ra) == Turned(ra, k);
    assert Turned(ra, k) + 360.0 == Turned(ra, k + 1);
  }

  lemma DeclinationTurns(dec: real)
    ensures exists k: int :: Declination(dec) == Turned(dec, k)
  {
    RemainderTurns(dec);
    var k: int :| Remainder(dec) == Turned(dec, k);
    assert Turned(dec, k) + 360.0 == Turned(dec, k + 1);
  }

  /** Which turn is taken off: a right ascension comes to lie in 0 to 360; a declination that is
      not negative does too, and a negative one comes to lie above -180 and up to 180. Inside those
      ranges the angle stays as it is. */
  lemma NormalRange(a: real)
    ensures 0.0 <= a < 360.0 ==> Circle(a) == a
    ensures a >= 0.0 ==> 0.0 <= Declination(a) < 360.0
    ensures a < 0.0 ==> -180.0 < Declination(a) <= 180.0
    ensures -180.0 < a < 360.0 ==> Declination(a) == a
  {
    assert 0.0 <= a < 360.0 ==> (a / 360.0).Floor == 0;
    assert -360.0 < a < 0.0 ==> (-a / 360.0).Floor == 0;
  }

  // ------------------------------------------------------------------ ticks

  /** Decimal places: 0 to 6 are told apart. */
  function Places(ndec: int): (d: nat)
    ensures d <= 6 && (0 <= ndec <= 6 ==> d == ndec) && (ndec > 6 ==> d == 6) && (ndec < 0 ==> d == 0)
  {
    if ndec > 5 then 6 else if ndec > 0 then ndec else 0
  }

  /** Ticks to a second at `d` decimal places. */
  function Unit(d: nat): (u: int)
    requires d <= 6
    ensures u >= 1 && u == Pow10(d)
  {
    assert Pow10(0) == 1 && Pow10(1) == 10 && Pow10(2) == 100 && Pow10(3) == 1000;
    assert Pow10(4) == 10000 && Pow10(5) == 100000 && Pow10(6) == 1000000;
    match d
    case 0 => 1
    case 1 => 10
    case 2 => 100
    case 3 => 1000
    case 4 => 10000
    case 5 => 100000
    case _ => 1000000
  }

  /** Seconds above this limit are carried into the minutes. */
  function Limit(d: nat): real
    requires 1 <= d <= 6
  {
    match d
    case 1 => 59.9
    case 2 => 59.99
    case 3 => 59.999
    case 4 => 59.9999
    case 5 => 59.99999
    case _ => 59.999999
  }

  /** The nearest integer, and of two equally near ones the even one. */
  function Nearest(x: real): (n: int)
    ensures -0.5 <= n as real - x <= 0.5
  {
    var n := (x + 0.5).Floor;
    if n as real == x + 0.5 && n % 2 == 1 then n - 1 else n
  }

  /** What sprintf prints for the seconds, in ticks: at no places a sum of a half is cut. */
  function SecondTicks(sec: real, d: nat): int
    requires d <= 6
  {
    if d == 0 then (sec + 0.5).Floor else Nearest(sec * Unit(d) as real)
  }

  function MinuteTicks(m: int, d: nat): int
    requires d <= 6
  {
    m * (60 * Unit(d))
  }

  /** A number of seconds of time or arc in ticks, a minute being completed when its seconds are
      above the limit. */
  function Ticks(total: real, d: nat): int
    requires d <= 6
  {
    var m := (total / 60.0).Floor;
    var sec := total - 60.0 * m as real;
    if d > 0 && sec > Limit(d) then MinuteTicks(m + 1, d) else MinuteTicks(m, d) + SecondTicks(sec, d)
  }

  lemma Scale(a: real, b: real, u: real)
    requires a <= b && u >= 0.0
    ensures a * u <= b * u
  {
  }

  lemma LimitScaled(d: nat)
    requires 1 <= d <= 6
    ensures Limit(d) * Unit(d) as real == 60.0 * Unit(d) as real - 1.0
  {
  }

  /** Seconds that are not carried print as less than sixty; those that are lack less than a tick. */
  lemma SecondTicksBound(sec: real, d: nat)
    requires 0.0 <= sec < 60.0 && d <= 6
    ensures d == 0 ==> 0 <= SecondTicks(sec, d) <= 60
    ensures d > 0 && sec <= Limit(d) ==> 0 <= SecondTicks(sec, d) < 60 * Unit(d)
    ensures -0.5 <= SecondTicks(sec, d) as real - sec * Unit(d) as real <= 0.5
    ensures d > 0 && sec > Limit(d) ==> 0.0 < 60.0 * Unit(d) as real - sec * Unit(d) as real <= 1.0
  {
    var u := Unit(d) as real;
    Scale(0.0, sec, u);
    if d > 0 {
      LimitScaled(d);
      if sec <= Limit(d) {
        Scale(sec, Limit(d), u);
      } else {
        Scale(Limit(d), sec, u);
      }
    }
    assert 60.0 * u - sec * u == (60.0 - sec) * u;
  }

  /** The seconds behind the last whole minute. */
  ghost function InMinute(total: real): real { total - 60.0 * (total / 60.0).Floor as real }

  /** Less than a tick is lost, and at most half a tick unless the last tick of a minute has begun
      at one decimal place or more. */
  lemma TicksNear(total: real, d: nat)
    requires total >= 0.0 && d <= 6
    ensures -1.0 < Ticks(total, d) as real - total * Unit(d) as real < 1.0
    ensures Ticks(total, d) >= 0
    ensures d == 0 || InMinute(total) * Unit(d) as real <= 60.0 * Unit(d) as real - 1.0 ==>
      -0.5 <= Ticks(total, d) as real - total * Unit(d) as real <= 0.5
  {
    var m := (total / 60.0).Floor;
    var sec := total - 60.0 * m as real;
    SecondTicksBound(sec, d);
    MinutesScaled(total, m, sec, d);
    LimitDecides(sec, d);
    hide SecondTicks, Limit, MinuteTicks, Unit;
  }

  lemma LimitDecides(sec: real, d: nat)
    requires d <= 6
    ensures d > 0 && sec * Unit(d) as real <= 60.0 * Unit(d) as real - 1.0 ==> sec <= Limit(d)
  {
    if d > 0 {
      LimitScaled(d);
    }
  }

  lemma MinutesScaled(total: real, m: int, sec: real, d: nat)
    requires d <= 6 && m >= 0 && total == 60.0 * m as real + sec
    ensures total * Unit(d) as real == MinuteTicks(m, d) as real + sec * Unit(d) as real
    ensures MinuteTicks(m, d) >= 0 && MinuteTicks(m + 1, d) == MinuteTicks(m, d) + 60 * Unit(d)
  {
    hide Unit;
    var v := Unit(d) as real;
    assert (m * (60 * Unit(d))) as real == 60.0 * m as real * v;
  }

  // ------------------------------------------------------------------ printing

  function SecondsText(n: nat, d: nat): string
    requires d <= 6
  {
    if d == 0 then Padded(n, 2) else Padded(n / Unit(d), 2) + "." + Fixed(n % Unit(d), d)
  }

  /** Hours or degrees, minutes, and seconds in ticks. */
  function Clock(whole: nat, minutes: nat, n: nat, d: nat): string
    requires d <= 6
  {
    Padded(whole, 2) + ":" + Padded(minutes, 2) + ":" + SecondsText(n, d)
  }

  /** So many ticks, as fields below sixty. */
  function Hms(ticks: nat, d: nat): string
    requires d <= 6
  {
    var u := Unit(d);
    Clock(ticks / (3600 * u), ticks / (60 * u) % 60, ticks % (60 * u), d)
  }

  lemma SplitTicks(whole: nat, minutes: nat, n: nat, u: int)
    requires u >= 1 && minutes < 60 && n < 60 * u
    ensures var t := (60 * whole + minutes) * (60 * u) + n;
      t / (3600 * u) == whole && t / (60 * u) % 60 == minutes && t % (60 * u) == n
  {
    var t := (60 * whole + minutes) * (60 * u) + n;
    QuotientIs(t, 60 * whole + minutes, n, 60 * u);
    QuotientIs(60 * whole + minutes, whole, minutes, 60);
    Product(60 - minutes, 60 * u);
    assert t == whole * (3600 * u) + (minutes * (60 * u) + n);
    QuotientIs(t, whole, minutes * (60 * u) + n, 3600 * u);
  }

  /** Fields below sixty are found again. */
  lemma ClockIsHms(whole: nat, minutes: nat, n: nat, d: nat)
    requires d <= 6 && minutes < 60 && n < 60 * Unit(d)
    ensures Hms((60 * whole + minutes) * (60 * Unit(d)) + n, d) == Clock(whole, minutes, n, d)
  {
    hide Clock, Unit;
    SplitTicks(whole, minutes, n, Unit(d));
  }

  /** ra2str and dec2str split a non-negative angle, in hours or degrees, in the same way. */
  method SplitAngle(a: real, d: nat) returns (whole: nat, minutes: nat, n: nat)
    requires a >= 0.0 && d <= 6
    ensures minutes < 60 && n < 60 * Unit(d)
    ensures (60 * whole + minutes) * (60 * Unit(d)) + n == Ticks(3600.0 * a, d)
  {
    whole := a.Floor;
    var b := (a - whole as real) * 60.0;
    minutes := b.Floor;
    var seconds := (b - minutes as real) * 60.0;
    ghost var m := 60 * whole + minutes;
    assert (3600.0 * a / 60.0).Floor == m;
    assert 3600.0 * a - 60.0 * m as real == seconds;
    SecondTicksBound(seconds, d);
    var isec := 0;
    if d > 0 {
      if seconds > Limit(d) {
        seconds := 0.0;
        minutes := minutes + 1;
      } else {
        isec := SecondTicks(seconds, d);
      }
    } else {
      isec := (seconds + 0.5).Floor;
      if isec > 59 {
        isec := 0;
        minutes := minutes + 1;
      }
    }
    assert (60 * whole + minutes) * (60 * Unit(d)) + isec == Ticks(3600.0 * a, d);
    if minutes > 59 {
      minutes := 0;
      whole := whole + 1;
    }
    n := isec;
  }

  /** The right ascension in ticks of time, less than a day's worth of them. */
  function RaTicks(ra: real, d: nat): (t: nat)
    requires d <= 6
    ensures t < 86400 * Unit(d)
  {
    Ticks(240.0 * Circle(ra), d) % (86400 * Unit(d))
  }

  function RaText(ra: real, d: nat): string
    requires d <= 6
  {
    Hms(RaTicks(ra, d), d)
  }

  lemma DayOver(whole: nat, minutes: nat, n: nat, u: int)
    requires u >= 1 && minutes < 60 && n < 60 * u
    ensures ((60 * whole + minutes) * (60 * u) + n) % (86400 * u) == (60 * (whole % 24) + minutes) * (60 * u) + n
  {
    var t := (60 * whole + minutes) * (60 * u) + n;
    var r := (60 * (whole % 24) + minutes) * (60 * u) + n;
    var m := 60 * (whole % 24) + minutes;
    Product(1440 - m, 60 * u);
    assert m * (60 * u) + (1440 - m) * (60 * u) == 86400 * u;
    assert whole == 24 * (whole / 24) + whole % 24;
    assert t == (whole / 24) * (86400 * u) + r;
    QuotientIs(t, whole / 24, r, 86400 * u);
  }

  lemma RaTextIs(ra: real, d: nat, hours: nat, minutes: nat, n: nat)
    requires d <= 6 && minutes < 60 && n < 60 * Unit(d)
    requires (60 * hours + minutes) * (60 * Unit(d)) + n == Ticks(240.0 * Circle(ra), d)
    ensures RaText(ra, d) == Clock(hours % 24, minutes, n, d)
  {
    hide Ticks, Circle, Clock, Hms, Unit;
    DayOver(hours, minutes, n, Unit(d));
    ClockIsHms(hours % 24, minutes, n, d);
  }

  /** The last step of ra2str and dec2str: what an `lstr`-character buffer takes of a text. */
  function Taken(text: string, lstr: nat): (r: string)
    requires lstr >= 1
    ensures r <= text && |r| == if |text| < lstr then |text| else lstr - 1
  {
    if |text| < lstr - 1 then text else StrnCopied(text, lstr - 1)
  }

  /** strncpy of `n` characters, up to the first NUL. */
  function StrnCopied(text: string, n: nat): string {
    if |text| < n then text else text[..n]
  }

  method Ra2Str(ra: real, lstr: nat, ndec: int) returns (text: string)
    requires lstr >= 1
    ensures text == Taken(RaText(ra, Places(ndec)), lstr)
  {
    var d := Places(ndec);
    var r := if ra < 0.0 then -ra else ra;
    r := Fmod360(r);
    if ra < 0.0 {
      r := -r;
    }
    if r < 0.0 {
      r := r + 360.0;
    }
    assert r == Circle(ra);
    var a := r / 15.0;
    assert 3600.0 * a == 240.0 * r;
    hide Circle, Fmod360, Ticks, Clock, RaText, Unit, Places, Taken;
    var hours, minutes, n := SplitAngle(a, d);
    RaTextIs(ra, d, hours, minutes, n);
    hours := hours % 24;
    text := Taken(Clock(hours, minutes, n, d), lstr);
  }

  function Size(a: real): (r: real)
    ensures r >= 0.0
  {
    if a < 0.0 then -a else a
  }

  /** The declination in ticks of arc, without its sign. */
  function DecTicks(dec: real, d: nat): (t: int)
    requires d <= 6
    ensures t >= 0
  {
    TicksNear(3600.0 * Size(Declination(dec)), d);
    Ticks(3600.0 * Size(Declination(dec)), d)
  }

  function DecText(dec: real, d: nat): string
    requires d <= 6
  {
    [if Declination(dec) < 0.0 then '-' else '+'] + Hms(DecTicks(dec, d), d)
  }

  method Dec2Str(dec: real, lstr: nat, ndec: int) returns (text: string)
    requires lstr >= 1
    ensures text == Taken(DecText(dec, Places(ndec)), lstr)
  {
    hide Ticks, Clock, Hms, Unit, Places, Taken, Fmod360;
    var d := Places(ndec);
    var a := if dec < 0.0 then -dec else dec;
    a := Fmod360(a);
    if dec < 0.0 {
      a := -a;
    }
    assert a == Remainder(dec);
    if a <= -180.0 {
      a := a + 360.0;
    }
    assert a == Declination(dec);
    hide Declination, Remainder;
    var sign := if a < 0.0 then '-' else '+';
    if a < 0.0 {
      a := -a;
    }
    assert a == Size(Declination(dec));
    hide Size;
    var degrees, minutes, n := SplitAngle(a, d);
    ClockIsHms(degrees, minutes, n, d);
    text := Taken([sign] + Clock(degrees, minutes, n, d), lstr);
  }

  // ------------------------------------------------------------------ a sign in front of zero

  predicate IsSignificant(c: char) { '0' < c <= '9' }

  predicate EndsNumber(c: char) { c == 'd' || c == 'e' || c == ' ' }

  /** No digit but 0 from `i` on up to the end of the number. */
  function OnlyZeros(s: string, i: nat): bool
    requires i <= |s|
    decreases |s| - i
  {
    i == |s| || EndsNumber(s[i]) || (!IsSignificant(s[i]) && OnlyZeros(s, i + 1))
  }

  function WithoutNegZero(s: string): string {
    if s != "" && s[0] == '-' && OnlyZeros(s, 1) then s[1..] else s
  }

  /** A zero up to `k`: no digit but 0, and the end of the number there. */
  ghost predicate ZeroUpTo(s: string, k: nat) {
    && 1 <= k <= |s| && (k == |s| || s[k] == 'd' || s[k] == 'e' || s[k] == ' ')
    && forall i | 1 <= i < k :: !('1' <= s[i] <= '9')
  }

  ghost predicate ZerosTo(s: string, from: nat, k: nat) {
    from <= k <= |s| && (k == |s| || EndsNumber(s[k])) && forall i | from <= i < k :: !IsSignificant(s[i])
  }

  lemma {:induction false} OnlyZerosIs(s: string, from: nat)
    requires from <= |s|
    ensures OnlyZeros(s, from) <==> exists k: nat :: ZerosTo(s, from, k)
    decreases |s| - from
  {
    if from == |s| || EndsNumber(s[from]) {
      assert ZerosTo(s, from, from);
    } else {
      OnlyZerosIs(s, from + 1);
      if OnlyZeros(s, from) {
        var k: nat :| ZerosTo(s, from + 1, k);
        assert ZerosTo(s, from, k);
      }
      forall k: nat | ZerosTo(s, from, k)
        ensures OnlyZeros(s, from)
      {
        assert ZerosTo(s, from + 1, k);
      }
    }
  }

  /** A sign is dropped exactly in front of a zero. */
  lemma WithoutNegZeroMeans(s: string)
    ensures WithoutNegZero(s) == if s != "" && s[0] == '-' && (exists k: nat :: ZeroUpTo(s, k)) then s[1..] else s
  {
    if s != "" {
      OnlyZerosIs(s, 1);
      assert forall c: char :: IsSignificant(c) <==> '1' <= c <= '9';
      assert forall k: nat :: ZeroUpTo(s, k) <==> ZerosTo(s, 1, k);
    }
  }

  ghost predicate IsCString(a: seq<char>, s: string) {
    |s| < |a| && a[..|s|] == s && a[|s|] == NUL && NUL !in s
  }

  lemma CStringAt(a: seq<char>, s: string)
    requires IsCString(a, s)
    ensures a[|s|] == NUL && forall i | 0 <= i < |s| :: a[i] == s[i] && a[i] != NUL
  {
    forall i | 0 <= i < |s|
      ensures a[i] == s[i] && a[i] != NUL
    {
      assert a[i] == a[..|s|][i] && s[i] in s;
    }
  }

  /** fixnegzero on a buffer that holds the text `s`. */
  method FixNegZero(a: array<char>, ghost s: string)
    requires IsCString(a[..], s)
    modifies a
    ensures IsCString(a[..], WithoutNegZero(s))
  {
    CStringAt(a[..], s);
    if a[0] != '-' {
      return;
    }
    var lstr := 0;
    while a[lstr] != NUL
      invariant lstr <= |s|
      decreases |s| - lstr
    {
      lstr := lstr + 1;
    }
    var i := 1;
    while i < lstr
      invariant 1 <= i <= lstr && a[..] == old(a[..])
      invariant OnlyZeros(s, 1) == OnlyZeros(s, i)
    {
      assert a[i] == s[i];
      if a[i] > '0' && a[i] <= '9' {
        return;
      }
      if a[i] == 'd' || a[i] == 'e' || a[i] == ' ' {
        break;
      }
      i := i + 1;
    }
    assert OnlyZeros(s, 1);
    i := 1;
    while i < lstr
      invariant 1 <= i <= lstr
      invariant forall j | 0 <= j < i - 1 :: a[j] == s[j + 1]
      invariant forall j | i - 1 <= j < lstr :: a[j] == s[j]
    {
      a[i - 1] := a[i];
      i := i + 1;
    }
    a[lstr - 1] := NUL;
    assert a[..|s| - 1] == s[1..];
  }

  // ------------------------------------------------------------------ reading

  function SkipBlank(s: string, from: nat): (r: nat)
    requires from <= |s|
    ensures from <= r <= |s| && (r < |s| ==> s[r] != BLANK)
    decreases |s| - from
  {
    if from < |s| && s[from] == BLANK then SkipBlank(s, from + 1) else from
  }

  /** A value read, and whether the text had separators. */
  datatype Angle = Angle(value: real, split: bool)

  /** A number without separators. */
  ghost function PlainNumber(s: string): real {
    if NumberKind(s) == 2 then Atof(Marked(s)) else Atoi(s) as real
  }

  /** The first separator: a colon, or else a blank with something behind it. */
  ghost function FirstSeparator(s: string): (r: Option<nat>)
    ensures r.Some? ==> r.value < |s|
  {
    if Search1(s, ':').Some? then Search1(s, ':') else Search1(s[..BlankTail(s)], BLANK)
  }

  ghost function SecondSeparator(s: string): (r: Option<nat>)
    ensures r.Some? ==> r.value < |s|
  {
    if Search1(s, ':').Some? then Search1(s, ':') else Search1(s, BLANK)
  }

  /** Minutes and seconds, as parts of a whole; a fraction of a minute is not read. */
  ghost function ReadParts(s: string): real {
    match SecondSeparator(s)
    case Some(i) => Atoi(s[..i]) as real / 60.0 + Atof(s[i + 1..]) / 3600.0
    case None => if s == "" then 0.0 else Atoi(s) as real / 60.0
  }

  ghost function ReadUnsigned(s: string): Angle {
    match FirstSeparator(s)
    case Some(i) => Angle(Atoi(s[..i]) as real + ReadParts(s[i + 1..]), true)
    case None => Angle(PlainNumber(s), false)
  }

  /** The text behind leading blanks and one sign. */
  ghost function Body(s: string): string {
    var a := SkipBlank(s, 0);
    if a < |s| && IsSign(s[a]) then s[a + 1..] else s[a..]
  }

  ghost predicate Negative(s: string) {
    var a := SkipBlank(s, 0);
    a < |s| && s[a] == '-'
  }

  ghost function ReadAngle(s: string): Angle {
    if s == "" then Angle(0.0, false)
    else
      var r := ReadUnsigned(Body(s));
      if Negative(s) then Angle(-r.value, r.split) else r
  }

  /** A text with separators is in hours, one without in degrees. */
  ghost function ReadRa(s: string): real {
    var r := ReadAngle(s);
    if r.split then r.value * 15.0 else r.value
  }

  /** str2dec behind the first separator. */
  method ReadRest(rest: string) returns (parts: real, after: string)
    ensures parts == ReadParts(rest) && |after| == |rest|
  {
    hide Atoi, Atof;
    after := rest;
    var min, sec := 0.0, 0.0;
    var c2 := Search1(rest, ':');
    if c2 == None {
      c2 := Search1(rest, BLANK);
    }
    if c2.Some? {
      min := Atoi(rest[..c2.value]) as real;
      after := after[c2.value := ':'];
      sec := Atof(rest[c2.value + 1..]);
    } else {
      if Search1(rest, '.').Some? {
        min := Atof(rest);
      }
      if |rest| > 0 {
        min := Atoi(rest) as real;
      }
    }
    parts := (min / 60.0) + (sec / 3600.0);
  }

  /** str2dec without separators. */
  method ReadPlain(value: string, front: string) returns (dec: real, after: string)
    requires ':' !in value
    ensures dec == PlainNumber(value) && |after| == |value| && ':' !in after
  {
    hide Atoi, Atof, NumberKind, Marked;
    after := value;
    var kind := IsNum(value, front);
    if kind == 2 {
      after := MarkExponent(value, kind);
      dec := Atof(after);
    } else {
      dec := Atoi(value) as real;
    }
  }

  /** str2dec on the text behind the sign; `after` is what it leaves of that text. */
  method ReadBody(value: string, front: string) returns (dec: real, after: string)
    ensures dec == ReadUnsigned(value).value
    ensures |after| == |value| && (':' in after <==> ReadUnsigned(value).split)
  {
    hide Atoi, PlainNumber, ReadParts;
    var c1 := Search1(value, ':');
    if c1 == None {
      var lval := TrailingCut(value, front);
      c1 := if lval > 0 then Search1(value[..lval], BLANK) else None;
    }
    if c1.Some? {
      var deg := Atoi(value[..c1.value]) as real;
      var parts, left := ReadRest(value[c1.value + 1..]);
      after := value[..c1.value] + ":" + left;
      assert after[c1.value] == ':';
      dec := deg + parts;
    } else {
      dec, after := ReadPlain(value, front);
    }
  }

  /** str2dec; `front` is what stands in front of the text in memory, and does not matter. */
  method Str2Dec(text: string, front: string) returns (dec: real, after: string)
    ensures dec == ReadAngle(text).value
    ensures |after| == |text| && (':' in after <==> ReadAngle(text).split)
  {
    if text == "" {
      return 0.0, text;
    }
    hide ReadUnsigned;
    var at := LeadingBlanks(text);
    var sign := 1.0;
    if at < |text| && text[at] == '-' {
      sign := -1.0;
      at := at + 1;
    } else if at < |text| && text[at] == '+' {
      at := at + 1;
    }
    assert text[at..] == Body(text);
    assert Negative(text) <==> sign == -1.0;
    assert forall j | 0 <= j < at :: text[j] != ':';
    hide Body, Negative, SkipBlank;
    var body, left := ReadBody(text[at..], front + text[..at]);
    dec := sign * body;
    after := text[..at] + left;
    assert ':' !in text[..at];
  }

  method LeadingBlanks(text: string) returns (at: nat)
    ensures at == SkipBlank(text, 0)
    ensures forall j | 0 <= j < at :: text[j] == BLANK
  {
    at := 0;
    while at < |text| && text[at] == BLANK
      invariant 0 <= at <= |text| && SkipBlank(text, at) == SkipBlank(text, 0)
      invariant forall j | 0 <= j < at :: text[j] == BLANK
    {
      at := at + 1;
    }
  }

  method Str2Ra(text: string, front: string) returns (ra: real)
    ensures ra == ReadRa(text)
  {
    var dec, after := Str2Dec(text, front);
    ra := dec;
    if Search1(after, ':').Some? {
      ra := ra * 15.0;
    }
  }

  // ------------------------------------------------------------------ what is printed is read back

  lemma SecondsRead(n: nat, d: nat)
    requires d <= 6
    ensures Atof(SecondsText(n, d)) == n as real / Unit(d) as real
  {
    if d == 0 {
      assert Unit(0) == 1;
      AtofOfDigits(Padded(n, 2), Padded(n, 2));
      hide Padded, Atof, ValueOf, Unit;
    } else {
      hide Padded, Fixed, Atof, ValueOf, Pow10, Unit;
      DecimalRead(n / Unit(d), n % Unit(d), d);
      Parts(n, Unit(d));
    }
  }

  lemma DecimalRead(q: nat, r: nat, d: nat)
    requires 1 <= d <= 6 && r < Pow10(d)
    ensures Atof(Padded(q, 2) + "." + Fixed(r, d)) == q as real + r as real / Unit(d) as real
  {
    hide Padded, Fixed, Atof, ValueOf, Pow10, Unit;
    AtofOfDecimal(Padded(q, 2), Fixed(r, d));
  }

  lemma Parts(n: nat, u: int)
    requires u >= 1
    ensures (n / u) as real + (n % u) as real / u as real == n as real / u as real
  {
    var q := (n / u) as real;
    var r := (n % u) as real;
    var v := u as real;
    assert n == n / u * u + n % u;
    assert n as real == q * v + r;
    assert (q * v + r) / v == q + r / v;
  }

  /** Minutes and seconds are read back. */
  lemma PartsRead(minutes: nat, n: nat, d: nat)
    requires d <= 6
    ensures ReadParts(Padded(minutes, 2) + ":" + SecondsText(n, d)) ==
      minutes as real / 60.0 + (n as real / Unit(d) as real) / 3600.0
  {
    var m, t := Padded(minutes, 2), SecondsText(n, d);
    hide Padded, SecondsText, Atof, Atoi, ValueOf, Unit;
    SeparatorAfter(m, ':', t);
    SecondsRead(n, d);
    AtoiOfDigits(m, m);
  }

  lemma ClockRead(whole: nat, minutes: nat, n: nat, d: nat)
    requires d <= 6
    ensures var s := Clock(whole, minutes, n, d);
      && StartsWithDigit(s)
      && ReadUnsigned(s) == Angle(whole as real + (minutes as real / 60.0 + (n as real / Unit(d) as real) / 3600.0), true)
  {
    var w, t := Padded(whole, 2), Padded(minutes, 2) + ":" + SecondsText(n, d);
    assert Clock(whole, minutes, n, d) == w + ":" + t;
    PartsRead(minutes, n, d);
    hide Clock, Padded, SecondsText, Atoi, ValueOf, Unit, ReadParts;
    SeparatorAfter(w, ':', t);
    AtoiOfDigits(w, w);
    assert (w + ":" + t)[0] == w[0];
  }

  /** Ticks in hours or degrees. */
  ghost function InWholes(t: nat, d: nat): real
    requires d <= 6
  {
    t as real / (3600 * Unit(d)) as real
  }

  ghost predicate StartsWithDigit(s: string) { s != "" && IsDigit(s[0]) }

  ghost predicate Splits(t: nat, w: nat, m: nat, n: nat, u: int) { t == (60 * w + m) * (60 * u) + n }

  lemma HmsFields(t: nat, d: nat) returns (w: nat, m: nat, n: nat)
    requires d <= 6
    ensures Hms(t, d) == Clock(w, m, n, d) && Splits(t, w, m, n, Unit(d))
    ensures m < 60 && n < 60 * Unit(d)
  {
    hide Unit, Clock, Splits;
    var u := Unit(d);
    HoursInMinutes(t, u);
    w, m, n := t / (3600 * u), t / (60 * u) % 60, t % (60 * u);
  }

  /** Any number of ticks is read back exactly. */
  lemma HmsRead(t: nat, d: nat)
    requires d <= 6
    ensures ReadUnsigned(Hms(t, d)) == Angle(InWholes(t, d), true) && StartsWithDigit(Hms(t, d))
  {
    hide Unit, Clock, ReadUnsigned, Hms, Splits, StartsWithDigit;
    var w, m, n := HmsFields(t, d);
    FieldSum(w, m, n, t, Unit(d));
    ClockRead(w, m, n, d);
  }

  lemma HoursInMinutes(t: nat, u: int)
    requires u >= 1
    ensures Splits(t, t / (3600 * u), t / (60 * u) % 60, t % (60 * u), u)
    ensures t / (3600 * u) >= 0 && 0 <= t % (60 * u) < 60 * u
  {
    var v := 60 * u;
    DivMod(t, v);
    var k, n := t / v, t % v;
    var w, m := k / 60, k % 60;
    assert t == (60 * w + m) * v + n;
    SplitTicks(w, m, n, u);
  }

  lemma DivMod(t: nat, v: int)
    requires v >= 1
    ensures t == t / v * v + t % v && 0 <= t % v < v && t / v >= 0
  {
  }

  lemma FieldSum(w: nat, m: nat, n: nat, t: nat, u: int)
    requires u >= 1 && Splits(t, w, m, n, u)
    ensures w as real + (m as real / 60.0 + (n as real / u as real) / 3600.0) == t as real / (3600 * u) as real
  {
    var v := u as real;
    var x := n as real / v;
    assert t == 3600 * w * u + 60 * m * u + n;
    assert t as real == (3600.0 * w as real + 60.0 * m as real + x) * v;
    assert (3600 * u) as real == 3600.0 * v;
  }
}
