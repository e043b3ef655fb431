/** Angles in the status store: hputra, hputdec, hgetra and hgetdec, and how close to the stored
    angle a reader gets. */
module AngleStore {
  import opened CText
  import opened NumberKinds
  import opened Numbers
  import opened Fields
  import opened NumberForms
  import opened Arith
  import opened Sexagesimal
  import opened Search
  import opened Cards
  import opened Store
  import opened StatusBuffer
  import opened StoreLaws

  // ------------------------------------------------------------------ printed angles, read back

  /** One tick of time, in degrees. */
  ghost function RaTick(d: nat): real
    requires d <= 6
  {
    15.0 * InWholes(1, d)
  }

  lemma InWholesSum(a: nat, b: nat, d: nat)
    requires d <= 6
    ensures InWholes(a + b, d) == InWholes(a, d) + InWholes(b, d)
  {
  }

  lemma InWholesOf(n: nat, d: nat)
    requires d <= 6
    ensures InWholes(n * (3600 * Unit(d)), d) == n as real
  {
    var u := 3600 * Unit(d);
    assert (n * u) as real == n as real * u as real;
  }

  /** Less than a tick is lost in the division too. */
  lemma TicksToWholes(total: real, d: nat)
    requires total >= 0.0 && d <= 6
    ensures Ticks(total, d) >= 0
    ensures -InWholes(1, d) < InWholes(Ticks(total, d), d) - total / 3600.0 < InWholes(1, d)
  {
    TicksNear(total, d);
    hide Ticks, Unit;
    var u := Unit(d) as real;
    var x := Ticks(total, d) as real - total * u;
    assert (3600 * Unit(d)) as real == 3600.0 * u;
    Divided(Ticks(total, d) as real, total, u);
    Divided2(x, 3600.0 * u);
  }

  lemma Divided(t: real, total: real, u: real)
    requires u > 0.0
    ensures t / (3600.0 * u) - total / 3600.0 == (t - total * u) / (3600.0 * u)
  {
    assert total / 3600.0 == (total * u) / (3600.0 * u);
  }

  lemma Divided2(x: real, v: real)
    requires v > 0.0 && -1.0 < x < 1.0
    ensures -(1.0 / v) < x / v < 1.0 / v
  {
  }

  lemma SignlessRead(s: string)
    requires StartsWithDigit(s)
    ensures ReadAngle(s) == ReadUnsigned(s)
  {
    hide ReadUnsigned;
    assert SkipBlank(s, 0) == 0;
    assert s[0..] == s;
  }

  lemma SignedRead(sign: char, s: string)
    requires IsSign(sign)
    ensures ReadAngle([sign] + s).split == ReadUnsigned(s).split
    ensures ReadAngle([sign] + s).value == if sign == '-' then -ReadUnsigned(s).value else ReadUnsigned(s).value
  {
    hide ReadUnsigned;
    var t := [sign] + s;
    assert SkipBlank(t, 0) == 0;
    assert t[1..] == s;
  }

  lemma RaOf(ra: real, d: nat)
    requires d <= 6
    ensures ReadRa(RaText(ra, d)) == 15.0 * InWholes(RaTicks(ra, d), d)
  {
    hide ReadUnsigned, ReadAngle, InWholes, Hms, RaTicks;
    HmsRead(RaTicks(ra, d), d);
    SignlessRead(Hms(RaTicks(ra, d), d));
  }

  /** The ticks of a whole day wrap around to none. */
  lemma RaWraps(ra: real, d: nat)
    requires d <= 6
    ensures var t := Ticks(240.0 * Circle(ra), d);
      t == RaTicks(ra, d) || t == RaTicks(ra, d) + 86400 * Unit(d)
  {
    var total := 240.0 * Circle(ra);
    TicksNear(total, d);
    var t, u := Ticks(total, d), Unit(d);
    hide Ticks, Unit, Circle;
    Scale(total, 86400.0, u as real);
    assert t <= 86400 * u;
    if t < 86400 * u {
      QuotientIs(t, 0, t, 86400 * u);
    } else {
      QuotientIs(t, 1, 0, 86400 * u);
    }
  }

  /** Close to the angle on its turn, or one turn below. */
  lemma NearByTurn(x: real, c: real, y: real, k: int, eps: real)
    requires c == Turned(y, k)
    requires c - eps < x < c + eps || c - eps < x + 360.0 < c + eps
    ensures NearOnCircle(x, y, eps)
  {
    assert Turned(y, k - 1) == Turned(y, k) - 360.0;
  }

  lemma RaTicksNear(ra: real, d: nat)
    requires d <= 6
    ensures var x := 15.0 * InWholes(RaTicks(ra, d), d);
      var c := Circle(ra);
      c - RaTick(d) < x < c + RaTick(d) || c - RaTick(d) < x + 360.0 < c + RaTick(d)
  {
    var total := 240.0 * Circle(ra);
    TicksToWholes(total, d);
    RaWraps(ra, d);
    hide Ticks, Circle, InWholes, Unit;
    var t := RaTicks(ra, d);
    hide RaTicks;
    if Ticks(total, d) != t {
      InWholesSum(t, 86400 * Unit(d), d);
      InWholesOf(24, d);
    }
  }

  /** At any number of places, the printed right ascension reads back within one tick of the
      angle, measured around the circle, and inside one turn. */
  lemma RaReadsBack(ra: real, d: nat)
    requires d <= 6
    ensures NearOnCircle(ReadRa(RaText(ra, d)), ra, RaTick(d))
    ensures 0.0 <= ReadRa(RaText(ra, d)) < 360.0
  {
    RaOf(ra, d);
    CircleTurns(ra);
    RaTicksNear(ra, d);
    InWholesBelow(RaTicks(ra, d), d);
    hide Circle, RaText, ReadRa, InWholes, Unit, RaTick, RaTicks, Turned, NearOnCircle;
    var k: int :| Circle(ra) == Turned(ra, k);
    NearByTurn(15.0 * InWholes(RaTicks(ra, d), d), Circle(ra), ra, k, RaTick(d));
  }

  lemma InWholesBelow(t: nat, d: nat)
    requires d <= 6 && t < 86400 * Unit(d)
    ensures 0.0 <= InWholes(t, d) < 24.0
  {
    var v := (3600 * Unit(d)) as real;
    assert t as real < 24.0 * v;
  }

  // ------------------------------------------------------------------ signs

  ghost predicate NoSignificant(s: string) { forall i | 0 <= i < |s| :: !IsSignificant(s[i]) }

  ghost predicate NoEnds(s: string) { forall i | 0 <= i < |s| :: !EndsNumber(s[i]) }

  ghost predicate ClockText(s: string) { forall i | 0 <= i < |s| :: IsDigit(s[i]) || s[i] == ':' || s[i] == '.' }

  lemma {:induction false} ZeroDigits(s: string)
    requires AllDigits(s) && NoSignificant(s)
    ensures ValueOf(s) == 0
  {
    if s != "" {
      ZeroDigits(s[..|s| - 1]);
    }
  }

  lemma ClockTextJoined(a: string, c: char, b: string)
    requires AllDigits(a) && ClockText(b) && (c == ':' || c == '.')
    ensures ClockText(a + [c] + b)
    ensures NoSignificant(a + [c] + b) ==> NoSignificant(a) && NoSignificant(b)
  {
    var s := a + [c] + b;
    assert forall i | 0 <= i < |a| :: s[i] == a[i];
    assert forall i | 0 <= i < |b| :: s[|a| + 1 + i] == b[i];
  }

  lemma SecondsTextZero(n: nat, d: nat)
    requires d <= 6
    ensures ClockText(SecondsText(n, d))
    ensures NoSignificant(SecondsText(n, d)) ==> n == 0
  {
    if d == 0 {
      assert NoSignificant(Padded(n, 2)) ==> n == 0 by {
        if NoSignificant(Padded(n, 2)) { ZeroDigits(Padded(n, 2)); }
      }
    } else {
      var a, b := Padded(n / Unit(d), 2), Fixed(n % Unit(d), d);
      ClockTextJoined(a, '.', b);
      assert NoSignificant(SecondsText(n, d)) ==> n == 0 by {
        if NoSignificant(SecondsText(n, d)) {
          ZeroDigits(a);
          ZeroDigits(b);
        }
      }
    }
  }

  /** Printed fields without a digit but 0 are no ticks. */
  lemma ClockZero(whole: nat, minutes: nat, n: nat, d: nat)
    requires d <= 6
    ensures ClockText(Clock(whole, minutes, n, d))
    ensures NoSignificant(Clock(whole, minutes, n, d)) ==> whole == 0 && minutes == 0 && n == 0
  {
    var w, m, t := Padded(whole, 2), Padded(minutes, 2), SecondsText(n, d);
    assert Clock(whole, minutes, n, d) == w + ":" + (m + ":" + t);
    hide Clock, ClockText, NoSignificant, Padded, SecondsText;
    SecondsTextZero(n, d);
    ClockTextJoined(m, ':', t);
    ClockTextJoined(w, ':', m + ":" + t);
    DigitsZero(whole);
    DigitsZero(minutes);
  }

  lemma DigitsZero(n: nat)
    ensures NoSignificant(Padded(n, 2)) ==> n == 0
  {
    if NoSignificant(Padded(n, 2)) {
      ZeroDigits(Padded(n, 2));
    }
  }

  lemma HmsZero(t: nat, d: nat)
    requires d <= 6
    ensures ClockText(Hms(t, d))
    ensures NoSignificant(Hms(t, d)) ==> t == 0
  {
    hide Hms, Clock, Unit, NoSignificant, ClockText;
    var w, m, n := HmsFields(t, d);
    ClockZero(w, m, n, d);
  }

  lemma {:induction false} OnlyZerosMeans(s: string, i: nat)
    requires i <= |s| && NoEnds(s[i..]) && OnlyZeros(s, i)
    ensures NoSignificant(s[i..])
    decreases |s| - i
  {
    if i < |s| {
      assert s[i..][0] == s[i];
      assert s[i..][1..] == s[i + 1..];
      OnlyZerosMeans(s, i + 1);
      assert s[i..] == [s[i]] + s[i + 1..];
    }
  }

  lemma WithoutNegZeroIs(sign: char, s: string)
    requires IsSign(sign) && NoEnds(s)
    ensures var r := WithoutNegZero([sign] + s);
      r == [sign] + s || (r == s && sign == '-' && NoSignificant(s))
  {
    var t := [sign] + s;
    assert t[1..] == s;
    if OnlyZeros(t, 1) {
      OnlyZerosMeans(t, 1);
    }
  }

  lemma ClockTextNoEnds(s: string)
    requires ClockText(s)
    ensures NoEnds(s)
  {
  }

  /** Dropping the sign of a zero does not change what is read. */
  lemma SignDropped(t: nat, d: nat, sign: char)
    requires d <= 6 && IsSign(sign)
    ensures ReadAngle(WithoutNegZero([sign] + Hms(t, d))).value == if sign == '-' then -InWholes(t, d) else InWholes(t, d)
  {
    hide *;
    NoTicks(d);
    HmsZero(t, d);
    HmsRead(t, d);
    var s := Hms(t, d);
    ClockTextNoEnds(s);
    WithoutNegZeroIs(sign, s);
    SignedRead(sign, s);
    SignlessRead(s);
  }

  // ------------------------------------------------------------------ declinations

  /** What hputdec stores. */
  ghost function DecStored(dec: real): (s: string)
    ensures |s| <= 63
  {
    DecStoredAsIs(dec);
    WithoutNegZero(DecText(dec, 2))
  }

  /** What hputra stores. */
  ghost function RaStored(ra: real): (s: string)
    ensures |s| <= 63
  {
    RaStoredAsIs(ra);
    WithoutNegZero(RaText(ra, 3))
  }

  /** hputs of a text that fits over any comment. */
  ghost function PutShort(cards: seq<string>, key: string, text: string): (r: seq<string>)
    requires AllLines(cards) && |text| <= 63
    ensures AllLines(r)
  {
    TextFitsOverComment(text, CommentFor(cards, key));
    Put(cards, key, Quoted(text))
  }

  lemma NoTicks(d: nat)
    requires d <= 6
    ensures Ticks(0.0, d) == 0 && InWholes(0, d) == 0.0
  {
  }

  lemma DecValue(dec: real, d: nat)
    requires d <= 6
    ensures ReadAngle(WithoutNegZero(DecText(dec, d))).value ==
      if Declination(dec) < 0.0 then -InWholes(DecTicks(dec, d), d) else InWholes(DecTicks(dec, d), d)
  {
    hide ReadAngle, InWholes, Hms, WithoutNegZero, DecTicks, Declination;
    SignDropped(DecTicks(dec, d), d, if Declination(dec) < 0.0 then '-' else '+');
  }

  lemma DecTicksNear(dec: real, d: nat)
    requires d <= 6
    ensures var w := InWholes(DecTicks(dec, d), d);
      && -InWholes(1, d) < w - Size(Declination(dec)) < InWholes(1, d) && w >= 0.0
      && (Declination(dec) == 0.0 ==> w == 0.0)
  {
    hide Ticks, InWholes, Declination;
    TicksToWholes(3600.0 * Size(Declination(dec)), d);
    NoTicks(d);
    NonNegative(DecTicks(dec, d), d);
  }

  lemma NonNegative(t: nat, d: nat)
    requires d <= 6
    ensures InWholes(t, d) >= 0.0
  {
  }

  /** The declination printed at any number of places reads back within one tick of arc, with
      its sign unless it reads as zero. */
  lemma DecReadsBack(dec: real, d: nat)
    requires d <= 6
    ensures var x := ReadAngle(WithoutNegZero(DecText(dec, d))).value;
      && -InWholes(1, d) < x - Declination(dec) < InWholes(1, d)
      && (x < 0.0 ==> Declination(dec) < 0.0) && (x > 0.0 ==> Declination(dec) > 0.0)
  {
    DecValue(dec, d);
    DecTicksNear(dec, d);
    hide ReadAngle, InWholes, DecText, WithoutNegZero, DecTicks, Declination;
  }

  // ------------------------------------------------------------------ in the store

  lemma QuotientBelow(n: nat, u: int, m: int)
    requires u >= 1 && n < m * u
    ensures n / u < m
  {
    assert n == n / u * u + n % u;
    Product(if n / u >= m then n / u - m + 1 else 1, u);
  }

  lemma FactorBelow(w: int, v: int, m: int)
    requires v >= 1 && w * v < m * v
    ensures w < m
  {
    var x := w - m;
    assert w * v == m * v + x * v;
    Product(if x >= 1 then x else 1, v);
  }

  lemma SecondsTextShort(n: nat, d: nat)
    requires d <= 6 && n < 60 * Unit(d)
    ensures |SecondsText(n, d)| == if d == 0 then 2 else 3 + d
  {
    assert Pow10(2) == 100 && Unit(0) == 1;
    if d > 0 {
      var u := Unit(d);
      hide Unit;
      QuotientBelow(n, u, 60);
    }
  }

  lemma PaddedShort(n: nat)
    requires n < 1000
    ensures |Padded(n, 2)| <= 3 && (n < 100 ==> |Padded(n, 2)| == 2)
  {
    assert Pow10(2) == 100 && Pow10(3) == 1000;
    DigitsWidth(n, 3);
  }

  /** Printed hours or degrees stay below a bound on the ticks. */
  lemma HmsBelow(t: nat, d: nat, bound: nat) returns (w: nat, m: nat, n: nat)
    requires d <= 6 && t < bound * (3600 * Unit(d))
    ensures Hms(t, d) == Clock(w, m, n, d)
    ensures w < bound && m < 60 && n < 60 * Unit(d)
  {
    hide Unit, Clock, Hms;
    w, m, n := HmsFields(t, d);
    var u := Unit(d);
    TimesNonNegative(m, 60 * u);
    assert t == w * (3600 * u) + m * (60 * u) + n;
    FactorBelow(w, 3600 * u, bound);
  }

  lemma HmsShort(t: nat, d: nat)
    requires d <= 6 && t < 1000 * (3600 * Unit(d))
    ensures 8 <= |Hms(t, d)| <= 16
  {
    hide Unit, Clock, Hms, Padded, SecondsText;
    var w, m, n := HmsBelow(t, d, 1000);
    PaddedShort(w);
    PaddedShort(m);
    SecondsTextShort(n, d);
    ClockLength(w, m, n, d);
  }

  /** The printed right ascension at any number of places: hours below 24, minutes and seconds
      below 60, two digits each, and `d` decimals. */
  lemma RaFields(ra: real, d: nat) returns (hours: nat, minutes: nat, n: nat)
    requires d <= 6
    ensures RaText(ra, d) == Clock(hours, minutes, n, d)
    ensures hours < 24 && minutes < 60 && n < 60 * Unit(d)
    ensures |RaText(ra, d)| == if d == 0 then 8 else 9 + d
  {
    hide Unit, Clock, Hms, Padded, SecondsText, RaTicks;
    hours, minutes, n := HmsBelow(RaTicks(ra, d), d, 24);
    PaddedShort(hours);
    PaddedShort(minutes);
    SecondsTextShort(n, d);
    ClockLength(hours, minutes, n, d);
  }

  lemma TimesNonNegative(a: nat, b: nat)
    ensures a * b >= 0
  {
  }

  lemma ClockLength(w: nat, m: nat, n: nat, d: nat)
    requires d <= 6
    ensures |Clock(w, m, n, d)| == |Padded(w, 2)| + 1 + |Padded(m, 2)| + 1 + |SecondsText(n, d)|
  {
  }

  /** A printed angle is stored as it is. */
  lemma StoredAsIs(s: string)
    requires 8 <= |s| <= 17 && ClockText(s[1..]) && (IsSign(s[0]) || ClockText(s))
    ensures PlainText(s) && Clean(s) == s && |s| <= 63
  {
    assert forall i | 1 <= i < |s| :: s[i] == s[1..][i - 1];
    assert s[|s| - 1] == s[1..][|s| - 2];
    assert Cut(s, TEXT_WIDTH) == s;
    TrimIsIdentity(s);
  }

  lemma RaStoredAsIs(ra: real)
    ensures var s := RaText(ra, 3);
      PlainText(s) && Clean(s) == s && |s| <= 63 && |s| < 30 && WithoutNegZero(s) == s
  {
    var t := RaTicks(ra, 3);
    hide RaTicks, Hms, Unit, PlainText, Clean;
    HmsShort(t, 3);
    HmsZero(t, 3);
    Unsigned(Hms(t, 3));
    StoredAsIs(Hms(t, 3));
  }

  lemma Unsigned(s: string)
    requires ClockText(s) && s != ""
    ensures WithoutNegZero(s) == s && ClockText(s[1..])
  {
    hide OnlyZeros;
  }

  lemma DecTicksBound(dec: real, d: nat)
    requires d <= 6
    ensures DecTicks(dec, d) < 1000 * (3600 * Unit(d))
  {
    var total := 3600.0 * Size(Declination(dec));
    TicksNear(total, d);
    var u := Unit(d) as real;
    hide Ticks, Declination, Unit;
    Scale(total, 1296000.0, u);
  }

  lemma DecStoredAsIs(dec: real)
    ensures var s := WithoutNegZero(DecText(dec, 2));
      PlainText(s) && Clean(s) == s && |s| <= 63 && |DecText(dec, 2)| < 30
  {
    var t := DecTicks(dec, 2);
    DecTicksBound(dec, 2);
    HmsShort(t, 2);
    HmsZero(t, 2);
    hide DecTicks, Hms, Declination, Unit;
    var h := Hms(t, 2);
    var sign := if Declination(dec) < 0.0 then '-' else '+';
    assert DecText(dec, 2) == [sign] + h;
    ClockTextNoEnds(h);
    WithoutNegZeroIs(sign, h);
    hide WithoutNegZero;
    assert ([sign] + h)[1..] == h;
    StoredAsIs(h);
    StoredAsIs([sign] + h);
  }

  /** A text in a fresh 30-character buffer, as fixnegzero gets it. */
  method FixedText(text: string) returns (fixed: string)
    requires |text| < 30 && NUL !in text
    ensures fixed == WithoutNegZero(text)
  {
    var value := new char[30](_ => NUL);
    forall i | 0 <= i < |text| {
      value[i] := text[i];
    }
    assert value[..|text|] == text;
    FixNegZero(value, text);
    var n := 0;
    ghost var r := WithoutNegZero(text);
    CStringAt(value[..], r);
    while value[n] != NUL
      invariant n <= |r|
      decreases |r| - n
    {
      n := n + 1;
    }
    fixed := value[..n];
  }

  lemma PlainHasNoNul(s: string)
    requires PlainText(s)
    ensures NUL !in s
  {
  }

  /** What the put of a short text needs, and does. */
  lemma ShortTextLegal(cards: seq<string>, keyword: string, text: string)
    requires AllLines(cards) && LegalKey(Key8(keyword)) && HasRoom(cards, keyword)
    requires PlainText(text) && |text| <= 63
    ensures Legal(cards, PutText(keyword, text))
    ensures Put(cards, keyword, Quoted(text)) == PutShort(cards, keyword, text)
  {
    TextFitsOverComment(text, CommentFor(cards, keyword));
    hide Fits, Quoted, PlainText, CommentFor, Put;
  }

  lemma RaPrints(ra: real)
    ensures var s := RaText(ra, 3);
      |s| < 30 && NUL !in s && Taken(s, 30) == s && RaStored(ra) == WithoutNegZero(s) && Places(3) == 3
  {
    RaStoredAsIs(ra);
    PlainHasNoNul(RaText(ra, 3));
    hide RaText, WithoutNegZero, Clean;
  }

  lemma DecPrints(dec: real)
    ensures var s := DecText(dec, 2);
      |s| < 30 && NUL !in s && Taken(s, 30) == s && DecStored(dec) == WithoutNegZero(s) && Places(2) == 2
  {
    DecStoredAsIs(dec);
    DecTextHasNoNul(dec);
    hide DecText, WithoutNegZero, Clean;
  }

  method HPutRa(st: Status, keyword: string, ra: real) returns (rc: int)
    requires st.Valid() && LegalKey(Key8(keyword)) && HasRoom(st.cards, keyword)
    modifies st, st.buf
    ensures st.Valid() && rc == 0
    ensures st.cards == PutShort(old(st.cards), keyword, RaStored(ra))
  {
    assert AllLines(st.cards);
    hide *;
    RaPrints(ra);
    RaStoredText(ra);
    ShortTextLegal(st.cards, keyword, RaStored(ra));
    var value := Ra2Str(ra, 30, 3);
    value := FixedText(value);
    rc := st.HPutS(keyword, value);
  }

  method HPutDec(st: Status, keyword: string, dec: real) returns (rc: int)
    requires st.Valid() && LegalKey(Key8(keyword)) && HasRoom(st.cards, keyword)
    modifies st, st.buf
    ensures st.Valid() && rc == 0
    ensures st.cards == PutShort(old(st.cards), keyword, DecStored(dec))
  {
    assert AllLines(st.cards);
    hide *;
    DecPrints(dec);
    DecStoredText(dec);
    ShortTextLegal(st.cards, keyword, DecStored(dec));
    var value := Dec2Str(dec, 30, 2);
    value := FixedText(value);
    rc := st.HPutS(keyword, value);
  }

  lemma DecTextHasNoNul(dec: real)
    ensures NUL !in DecText(dec, 2)
  {
    hide DecTicks, Hms, Declination;
    HmsZero(DecTicks(dec, 2), 2);
    ClockTextHasNoNul(Hms(DecTicks(dec, 2), 2));
  }

  lemma ClockTextHasNoNul(s: string)
    requires ClockText(s)
    ensures NUL !in s
  {
  }

  method HGetRa(st: Status, keyword: string) returns (rc: int, dval: real)
    requires st.Valid() && LegalKey(Key8(keyword)) && '[' !in keyword && ',' !in keyword
    ensures rc == if Get(st.cards, keyword).Some? then 1 else 0
    ensures rc == 1 ==> dval == ReadRa(Get(st.cards, keyword).value)
  {
    hide Get, LegalKey;
    dval := 0.0;
    var value := st.HGetC(keyword);
    if value.Some? {
      var front: string := *;
      dval := Str2Ra(value.value, front);
      rc := 1;
    } else {
      rc := 0;
    }
  }

  method HGetDec(st: Status, keyword: string) returns (rc: int, dval: real)
    requires st.Valid() && LegalKey(Key8(keyword)) && '[' !in keyword && ',' !in keyword
    ensures rc == if Get(st.cards, keyword).Some? then 1 else 0
    ensures rc == 1 ==> dval == ReadAngle(Get(st.cards, keyword).value).value
  {
    hide Get, LegalKey;
    dval := 0.0;
    var value := st.HGetC(keyword);
    if value.Some? {
      var left;
      var front: string := *;
      dval, left := Str2Dec(value.value, front);
      rc := 1;
    } else {
      rc := 0;
    }
  }

  /** The value of a card with its `=` is empty or starts with something else than a blank. */
  lemma TextStartsNonBlank(line: string)
    requires Card(line) && line[8] == '='
    ensures |line| == LINE && (GetText(line) != "" ==> GetText(line)[0] != BLANK)
  {
    if NumberCard(line) {
      hide NumberCard, Card, GetText, Trim;
      NumberTextOf(line);
      TrimStartsNonBlank(line[9..VALUE_END]);
    } else {
      var close: nat :| StringCard(line, close);
      hide NumberCard, Card, GetText, Trim, StringCard;
      StringTextOf(line, close);
      TrimStartsNonBlank(line[11..close]);
    }
  }

  lemma TrimStartsNonBlank(t: string)
    ensures Trim(t) != "" ==> Trim(t)[0] != BLANK
  {
    hide TrimLead, TrimTail;
  }

  /** In a store, hgetra and hgetdec read a value that is empty or starts with something else
      than a blank, so they never look in front of it. */
  lemma ValueStartsNonBlank(cards: seq<string>, key: string)
    requires Good(cards)
    ensures Get(cards, key).Some? && Get(cards, key).value != "" ==> Get(cards, key).value[0] != BLANK
  {
    var at := Find(cards, key);
    if at.Some? {
      assert Card(cards[at.value]) && cards[at.value][8] == '=';
      hide Card, GetText;
      TextStartsNonBlank(cards[at.value]);
    }
  }

  /** hgetra after hputra: within a thousandth of a second of time of the stored angle,
      measured around the circle. */
  lemma RaRoundTrip(cards: seq<string>, key: string, ra: real)
    requires Good(cards) && LegalKey(Key8(key)) && HasRoom(cards, key)
    ensures var after := PutShort(cards, key, RaStored(ra));
      && Good(after) && Get(after, key).Some?
      && NearOnCircle(ReadRa(Get(after, key).value), ra, 15.0 * 0.001 / 3600.0)
      && 0.0 <= ReadRa(Get(after, key).value) < 360.0
  {
    hide *;
    RaStoredText(ra);
    RaReadsBack(ra, 3);
    TickSizes();
    StoredRead(cards, key, RaStored(ra));
  }

  lemma TickSizes()
    ensures RaTick(3) == 15.0 * 0.001 / 3600.0 && InWholes(1, 2) == 0.01 / 3600.0
  {
  }

  lemma RaStoredText(ra: real)
    ensures RaStored(ra) == RaText(ra, 3) && PlainText(RaStored(ra)) && Clean(RaStored(ra)) == RaStored(ra)
  {
    RaStoredAsIs(ra);
    hide RaText, WithoutNegZero, PlainText, Clean;
  }

  lemma DecStoredText(dec: real)
    ensures DecStored(dec) == WithoutNegZero(DecText(dec, 2))
    ensures PlainText(DecStored(dec)) && Clean(DecStored(dec)) == DecStored(dec)
  {
    DecStoredAsIs(dec);
    hide DecText, WithoutNegZero, PlainText, Clean;
  }

  lemma StoredRead(cards: seq<string>, key: string, text: string)
    requires Good(cards) && LegalKey(Key8(key)) && HasRoom(cards, key)
    requires PlainText(text) && |text| <= 63
    ensures var after := PutShort(cards, key, text);
      Good(after) && Get(after, key) == Some(Clean(text))
  {
    TextFitsOverComment(text, CommentFor(cards, key));
    hide Good, Get, Put, Quoted, LegalKey, Clean, PlainText, Fits;
    TextRoundTrip(cards, key, text, key);
  }

  /** hgetdec after hputdec: within a hundredth of a second of arc of the normalised angle, with
      its sign unless it reads as zero. */
  lemma DecRoundTrip(cards: seq<string>, key: string, dec: real)
    requires Good(cards) && LegalKey(Key8(key)) && HasRoom(cards, key)
    ensures var after := PutShort(cards, key, DecStored(dec));
      && Good(after) && Get(after, key).Some?
      && var x := ReadAngle(Get(after, key).value).value;
         && -0.01 / 3600.0 < x - Declination(dec) < 0.01 / 3600.0
         && (x < 0.0 ==> Declination(dec) < 0.0) && (x > 0.0 ==> Declination(dec) > 0.0)
  {
    hide *;
    DecStoredText(dec);
    DecReadsBack(dec, 2);
    TickSizes();
    StoredRead(cards, key, DecStored(dec));
  }

  /** The printed declination: its sign, degrees up to 360, minutes and seconds below 60. */
  lemma DecFields(dec: real, d: nat) returns (degrees: nat, minutes: nat, n: nat)
    requires d <= 6
    ensures DecText(dec, d) == (if Declination(dec) < 0.0 then "-" else "+") + Clock(degrees, minutes, n, d)
    ensures degrees <= 360 && minutes < 60 && n < 60 * Unit(d)
  {
    DecTicksTight(dec, d);
    hide DecTicks, Hms, Clock, Unit, Declination;
    degrees, minutes, n := HmsBelow(DecTicks(dec, d), d, 361);
  }

  lemma DecTicksTight(dec: real, d: nat)
    requires d <= 6
    ensures DecTicks(dec, d) < 361 * (3600 * Unit(d))
  {
    var total := 3600.0 * Size(Declination(dec));
    TicksNear(total, d);
    var u := Unit(d) as real;
    hide Ticks, Declination, Unit;
    Scale(total, 1296000.0, u);
  }

  // ------------------------------------------------------------------ decimal degrees in the store

  /** A number of degrees put as a text reads back as it is, for hgetra and for hgetdec: without
      separators nothing is multiplied. */
  lemma DegreesRoundTrip(cards: seq<string>, key: string, whole: string, fraction: string)
    requires Good(cards) && LegalKey(Key8(key)) && HasRoom(cards, key)
    requires IsNumber(whole, fraction) && |Num(whole, fraction)| <= 62
    ensures var after := PutShort(cards, key, Num(whole, fraction));
      && Good(after) && Get(after, key).Some?
      && ReadRa(Get(after, key).value) == NumValue(whole, fraction)
      && ReadAngle(Get(after, key).value).value == NumValue(whole, fraction)
    ensures var after := PutShort(cards, key, "-" + Num(whole, fraction));
      && Good(after) && Get(after, key).Some?
      && (Num(whole, fraction) != "0" ==>
            ReadRa(Get(after, key).value) == -NumValue(whole, fraction)
            && ReadAngle(Get(after, key).value).value == -NumValue(whole, fraction))
  {
    var n := Num(whole, fraction);
    NumStored(whole, fraction);
    hide *;
    StoredRead(cards, key, n);
    StoredRead(cards, key, "-" + n);
    AngleOfNum(whole, fraction);
    NegativeNum(whole, fraction);
  }

  lemma NegativeNum(whole: string, fraction: string)
    requires IsNumber(whole, fraction)
    ensures ReadAngle("-" + Num(whole, fraction)).value == -NumValue(whole, fraction)
    ensures ReadRa("-" + Num(whole, fraction)) == -NumValue(whole, fraction)
  {
    assert "-" == ['-'];
    AngleOfSignedNum('-', whole, fraction);
    hide ReadAngle, NumValue, Num, ReadRa;
  }

  lemma NumStored(whole: string, fraction: string)
    requires IsNumber(whole, fraction) && |Num(whole, fraction)| <= 62
    ensures var n := Num(whole, fraction);
      && PlainText(n) && Clean(n) == n && PlainText("-" + n)
      && (n != "0" ==> Clean("-" + n) == "-" + n)
  {
    var n := Num(whole, fraction);
    NumChars(whole, fraction);
    LastDigit(whole, fraction);
    hide Num;
    assert Cut(n, TEXT_WIDTH) == n && Cut("-" + n, TEXT_WIDTH) == "-" + n;
    TrimIsIdentity(n);
    assert ("-" + n)[|n|] == n[|n| - 1];
    TrimIsIdentity("-" + n);
    assert "-" + n == "-0" ==> n == ("-" + n)[1..] == "0";
  }

  /** hputra stores hours, minutes and seconds at three decimal places, in twelve characters. */
  lemma RaStoredFields(ra: real) returns (hours: nat, minutes: nat, n: nat)
    ensures RaStored(ra) == Clock(hours, minutes, n, 3) && |RaStored(ra)| == 12
    ensures hours < 24 && minutes < 60 && n < 60000
  {
    RaStoredText(ra);
    assert Unit(3) == 1000;
    hide RaText, Clock, Unit, RaStored;
    hours, minutes, n := RaFields(ra, 3);
  }

  /** hputdec stores sign, degrees, minutes and seconds at two decimal places; a minus sign in
      front of nothing but zeros is dropped. */
  lemma DecStoredFields(dec: real) returns (degrees: nat, minutes: nat, n: nat)
    ensures var clock := Clock(degrees, minutes, n, 2);
      DecStored(dec) ==
        if Declination(dec) >= 0.0 then "+" + clock
        else if degrees == 0 && minutes == 0 && n == 0 then clock else "-" + clock
    ensures degrees <= 360 && minutes < 60 && n < 6000
  {
    assert Unit(2) == 100;
    degrees, minutes, n := DecFields(dec, 2);
    DecStoredText(dec);
    ClockZero(degrees, minutes, n, 2);
    var clock := Clock(degrees, minutes, n, 2);
    if degrees == 0 && minutes == 0 && n == 0 {
      ZeroClock();
    }
    hide Clock, DecText, DecStored, Declination, Unit;
    ClockTextNoEnds(clock);
    SignOfClock('-', clock);
    SignOfClock('+', clock);
  }

  lemma ZeroClock()
    ensures NoSignificant(Clock(0, 0, 0, 2))
  {
    assert Unit(2) == 100;
    ZeroPadded();
    hide Padded, Fixed, Unit;
    assert SecondsText(0, 2) == "00" + "." + "00";
    assert Clock(0, 0, 0, 2) == "00:00:00.00";
    hide Clock, SecondsText;
  }

  lemma ZeroPadded()
    ensures Padded(0, 2) == "00" && Fixed(0, 2) == "00"
  {
    assert Pow10(2) == 100 && Pow10(1) == 10 && Pow10(0) == 1;
    assert Fixed(0, 1) == Fixed(0, 0) + ['0'] == "0";
    assert Fixed(0, 2) == Fixed(0, 1) + ['0'];
  }

  /** The sign in front of printed fields is dropped exactly when it is a minus and all are zero. */
  lemma SignOfClock(sign: char, s: string)
    requires IsSign(sign) && NoEnds(s)
    ensures WithoutNegZero([sign] + s) == if sign == '-' && NoSignificant(s) then s else [sign] + s
  {
    var t := [sign] + s;
    assert t[1..] == s;
    if sign == '-' && NoSignificant(s) {
      AllZerosOnly(t, 1);
    }
    WithoutNegZeroIs(sign, s);
  }

  lemma {:induction false} AllZerosOnly(s: string, i: nat)
    requires i <= |s| && NoSignificant(s[i..])
    ensures OnlyZeros(s, i)
    decreases |s| - i
  {
    if i < |s| {
      assert s[i] == s[i..][0];
      assert s[i + 1..] == s[i..][1..];
      AllZerosOnly(s, i + 1);
    }
  }
}
