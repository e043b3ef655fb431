/** hgetdate: dates as years with a fraction. C doubles are modelled as reals. */
module Dates {
  import opened CText
  import opened Numbers
  import opened Fields
  import opened Search
  import opened Cards
  import opened Store
  import opened StatusBuffer

  // ------------------------------------------------------------------ the calendar

  predicate Leap(year: int) { year % 4 == 0 && (year % 100 == 0 ==> year % 400 == 0) }

  function MonthDays(year: int, month: int): (n: int)
    requires 1 <= month <= 12
    ensures 28 <= n <= 31
  {
    if month == 2 then (if Leap(year) then 29 else 28)
    else if month == 4 || month == 6 || month == 9 || month == 11 then 30 else 31
  }

  /** Days in the months before this one. */
  ghost function DaysBefore(year: int, month: int): nat
    requires 1 <= month <= 13
    decreases month
  {
    if month == 1 then 0 else DaysBefore(year, month - 1) + MonthDays(year, month - 1)
  }

  function YearDays(year: int): int { if Leap(year) then 366 else 365 }

  lemma YearIsItsMonths(year: int)
    ensures DaysBefore(year, 13) == YearDays(year)
  {
    assert DaysBefore(year, 5) == DaysBefore(year, 2) + MonthDays(year, 2) + 61;
    assert DaysBefore(year, 9) == DaysBefore(year, 5) + 123;
    assert DaysBefore(year, 13) == DaysBefore(year, 9) + 122;
  }

  lemma {:induction false} DaysBeforeGrows(year: int, m: int, k: int)
    requires 1 <= m < k <= 13
    ensures DaysBefore(year, m) + MonthDays(year, m) <= DaysBefore(year, k)
    decreases k
  {
    if m < k - 1 {
      DaysBeforeGrows(year, m, k - 1);
    }
  }

  /** The day of the month, brought into the month. */
  function ClampedDay(year: int, month: int, day: int): (d: int)
    requires 1 <= month <= 12
    ensures 1 <= d <= MonthDays(year, month)
    ensures 1 <= day <= MonthDays(year, month) ==> d == day
  {
    if day > MonthDays(year, month) then MonthDays(year, month) else if day < 1 then 1 else day
  }

  /** The day as a fraction of its year, `fday` being the time as a part of a day. */
  ghost function YearValue(year: int, month: int, day: int, fday: real): real
    requires 1 <= month <= 12
  {
    year as real + ((DaysBefore(year, month) + ClampedDay(year, month, day) - 1) as real + fday) / YearDays(year) as real
  }

  // ------------------------------------------------------------------ reading

  /** The integer part of the number a text starts with. */
  function Whole(s: string): int { Truncate(Atof(s)) }

  /** What the text says; day and month are as written. */
  datatype Written = NoDate | Date(year: int, month: int, day: int, fday: real)

  /** Two-digit years. */
  ghost function Century(year: int): int {
    if 0 <= year <= 49 then year + 2000 else if year < 100 then year + 1900 else year
  }

  /** dd/mm/yy and its variants, from the text before and behind the first slash. */
  ghost function ReadOld(front: string, back: string): Written {
    var sep := if IndexOf(back, '/', 0).Some? then IndexOf(back, '/', 0) else IndexOf(back, '-', 0);
    if sep == None then NoDate
    else
      var first, month, last := Whole(front), Whole(back[..sep.value]), Whole(back[sep.value + 1..]);
      var day := if first > 31 then last else first;
      var year := if first > 31 then first else last;
      Date(Century(year), month, day, 0.0)
  }

  /** hh:mm:ss.sss as a part of a day. */
  ghost function ReadTime(s: string): real {
    match IndexOf(s, ':', 0)
    case None => 0.0
    case Some(i) =>
      var rest := s[i + 1..];
      var seconds := match IndexOf(rest, ':', 0)
        case None => 60.0 * Whole(rest) as real
        case Some(j) => 60.0 * Whole(rest[..j]) as real + Atof(rest[j + 1..]);
      (3600.0 * Whole(s[..i]) as real + seconds) / 86400.0
  }

  /** The day and the time behind it. */
  ghost function ReadDay(s: string): (int, real) {
    match IndexOf(s, 'T', 0)
    case None => (Whole(s), 0.0)
    case Some(i) => (Whole(s[..i]), ReadTime(s[i + 1..]))
  }

  /** yyyy-mm-ddThh:mm:ss and its variants, from the text before and behind the first dash. */
  ghost function ReadIso(front: string, back: string): Written {
    var sep := IndexOf(back, '-', 0);
    var month := if sep.Some? then Whole(back[..sep.value]) else 1;
    var (day, fday) := if sep.Some? then ReadDay(back[sep.value + 1..]) else (1, 0.0);
    var first := Whole(front);
    if first < 32 then Date(day + 1900, month, first, fday) else Date(first, month, day, fday)
  }

  ghost function ReadDate(s: string): Written {
    var slash := IndexOf(s, '/', 0);
    var dash := IndexOf(s, '-', 0);
    if slash.Some? && slash.value > 0 then ReadOld(s[..slash.value], s[slash.value + 1..])
    else if dash.Some? && dash.value > 0 then ReadIso(s[..dash.value], s[dash.value + 1..])
    else NoDate
  }

  /** A text without a date, or with a month there is; for another month hgetdate reads outside
      its table. */
  ghost predicate MonthExists(s: string) {
    ReadDate(s).NoDate? || 1 <= ReadDate(s).month <= 12
  }

  ghost function DateOf(s: string): Option<real>
    requires MonthExists(s)
  {
    match ReadDate(s)
    case NoDate => None
    case Date(year, month, day, fday) => Some(YearValue(year, month, day, fday))
  }

  // ------------------------------------------------------------------ hgetdate

  /** The table of month lengths, and the day's place in the year. */
  method YearDay(year: int, month: int, day: int) returns (yday: int, yeardays: int)
    requires 1 <= month <= 12
    ensures yday == DaysBefore(year, month) + ClampedDay(year, month, day) - 1
    ensures yeardays == YearDays(year)
  {
    var mday := new int[12] [31, 28, 31, 30, 31, 30, 31, 31, 30, 31, 30, 31];
    if year % 4 == 0 {
      mday[1] := 29;
    } else {
      mday[1] := 28;
    }
    if year % 100 == 0 && year % 400 != 0 {
      mday[1] := 28;
    }
    assert forall i | 0 <= i < 12 :: mday[i] == MonthDays(year, i + 1);
    var d := day;
    if d > mday[month - 1] {
      d := mday[month - 1];
    } else if d < 1 {
      d := 1;
    }
    yeardays := if mday[1] == 28 then 365 else 366;
    yday := d - 1;
    var i := 0;
    while i < month - 1
      invariant 0 <= i <= month - 1
      invariant yday == DaysBefore(year, i + 1) + d - 1
    {
      yday := yday + mday[i];
      i := i + 1;
    }
  }

  method TimeOfDay(s: string) returns (fday: real)
    ensures fday == ReadTime(s)
  {
    hide Whole, Atof;
    var hours, minutes, seconds := 0, 0, 0.0;
    var cstr := IndexOf(s, ':', 0);
    if cstr.Some? {
      hours := Whole(s[..cstr.value]);
      var nval := s[cstr.value + 1..];
      cstr := IndexOf(nval, ':', 0);
      if cstr.Some? {
        minutes := Whole(nval[..cstr.value]);
        seconds := Atof(nval[cstr.value + 1..]);
      } else {
        minutes := Whole(nval);
      }
    }
    fday := ((3600.0 * hours as real) + (60.0 * minutes as real) + seconds) / 86400.0;
  }

  /** The branch for dates with slashes, up to the calendar. */
  method ParseOld(front: string, back: string) returns (w: Written)
    ensures w == ReadOld(front, back)
  {
    hide Whole;
    var day := Whole(front);
    var sep := IndexOf(back, '/', 0);
    if sep == None {
      sep := IndexOf(back, '-', 0);
    }
    if sep == None {
      return NoDate;
    }
    var month := Whole(back[..sep.value]);
    var year := Whole(back[sep.value + 1..]);
    if day > 31 {
      year, day := day, year;
    }
    if year >= 0 && year <= 49 {
      year := year + 2000;
    } else if year < 100 {
      year := year + 1900;
    }
    w := Date(year, month, day, 0.0);
  }

  /** The branch for dates with dashes, up to the calendar. */
  method ParseIso(front: string, back: string) returns (w: Written)
    ensures w == ReadIso(front, back)
  {
    hide Whole, ReadTime;
    var year := Whole(front);
    var dstr := IndexOf(back, '-', 0);
    var month, day, fday := 1, 1, 0.0;
    if dstr.Some? {
      month := Whole(back[..dstr.value]);
      var nval := back[dstr.value + 1..];
      var tstr := IndexOf(nval, 'T', 0);
      day := Whole(if tstr.Some? then nval[..tstr.value] else nval);
      if tstr.Some? {
        fday := TimeOfDay(nval[tstr.value + 1..]);
      }
    }
    if year < 32 {
      year, day := day + 1900, year;
    }
    w := Date(year, month, day, fday);
  }

  method YearFraction(year: int, month: int, day: int, fday: real) returns (dval: real)
    requires 1 <= month <= 12
    ensures dval == YearValue(year, month, day, fday)
  {
    hide DaysBefore, MonthDays, Leap;
    var yday, yeardays := YearDay(year, month, day);
    var n := yeardays as real;
    dval := year as real + (yday as real / n);
    dval := dval + (fday / n);
    SumDivided(yday as real, fday, n);
  }

  lemma SumDivided(x: real, y: real, n: real)
    requires n > 0.0
    ensures x / n + y / n == (x + y) / n
  {
  }

  /** The date in a value; `found` is false where hgetdate returns 0. */
  method ParseDate(value: string) returns (found: bool, dval: real)
    requires MonthExists(value)
    ensures found == DateOf(value).Some?
    ensures found ==> DateOf(value) == Some(dval)
  {
    hide ReadOld, ReadIso, YearValue;
    dval := 0.0;
    var sstr, dstr := IndexOf(value, '/', 0), IndexOf(value, '-', 0);
    var w := NoDate;
    if sstr.Some? && sstr.value > 0 {
      w := ParseOld(value[..sstr.value], value[sstr.value + 1..]);
    } else if dstr.Some? && dstr.value > 0 {
      w := ParseIso(value[..dstr.value], value[dstr.value + 1..]);
    }
    found := w.Date?;
    if found {
      dval := YearFraction(w.year, w.month, w.day, w.fday);
    }
  }

  method HGetDate(st: Status, keyword: string) returns (rc: int, dval: real)
    requires st.Valid() && LegalKey(Key8(keyword)) && '[' !in keyword && ',' !in keyword
    requires Get(st.cards, keyword).Some? ==> MonthExists(Get(st.cards, keyword).value)
    ensures rc == if Get(st.cards, keyword).Some? && DateOf(Get(st.cards, keyword).value).Some? then 1 else 0
    ensures rc == 1 ==> DateOf(Get(st.cards, keyword).value) == Some(dval)
  {
    hide Get, LegalKey, ReadDate, YearValue;
    dval := 0.0;
    rc := 0;
    var value := st.HGetC(keyword);
    if value.Some? {
      var found;
      found, dval := ParseDate(value.value);
      if found {
        rc := 1;
      }
    }
  }

  // ------------------------------------------------------------------ order

  /** A calendar date and time. */
  datatype Instant = Instant(year: int, month: int, day: int, hour: int, minute: int, second: real)

  ghost predicate IsInstant(t: Instant) {
    && 1 <= t.month <= 12 && 1 <= t.day <= MonthDays(t.year, t.month)
    && 0 <= t.hour < 24 && 0 <= t.minute < 60 && 0.0 <= t.second < 60.0
  }

  /** Calendar order: the first field that differs decides. */
  ghost predicate Before(a: Instant, b: Instant) {
    || a.year < b.year
    || (a.year == b.year
        && (|| a.month < b.month
            || (a.month == b.month
                && (|| a.day < b.day
                    || (a.day == b.day
                        && (|| a.hour < b.hour
                            || (a.hour == b.hour
                                && (|| a.minute < b.minute
                                    || (a.minute == b.minute && a.second < b.second)))))))))
  }

  ghost function DayPart(t: Instant): real {
    (3600.0 * t.hour as real + (60.0 * t.minute as real + t.second)) / 86400.0
  }

  /** Days since the start of the year. */
  ghost function DaysIn(t: Instant): real
    requires IsInstant(t)
  {
    (DaysBefore(t.year, t.month) + t.day - 1) as real + DayPart(t)
  }

  ghost function Value(t: Instant): real
    requires IsInstant(t)
  {
    YearValue(t.year, t.month, t.day, DayPart(t))
  }

  lemma DayPartBounds(t: Instant)
    requires IsInstant(t)
    ensures 0.0 <= DayPart(t) < 1.0
  {
  }

  lemma ValueIs(t: Instant)
    requires IsInstant(t)
    ensures Value(t) == t.year as real + DaysIn(t) / YearDays(t.year) as real
  {
    hide DaysBefore, DayPart;
  }

  lemma DaysInBounds(t: Instant)
    requires IsInstant(t)
    ensures 0.0 <= DaysIn(t) < YearDays(t.year) as real
  {
    DaysBeforeGrows(t.year, t.month, 13);
    YearIsItsMonths(t.year);
    DayPartBounds(t);
    hide DayPart, YearDays, DaysBefore;
  }

  /** A date's value lies in its year. */
  lemma ValueInYear(t: Instant)
    requires IsInstant(t)
    ensures t.year as real <= Value(t) < t.year as real + 1.0
  {
    ValueIs(t);
    DaysInBounds(t);
    hide Value, DaysIn;
    var n := YearDays(t.year) as real;
    assert DaysIn(t) / n < 1.0 && DaysIn(t) / n >= 0.0;
  }

  lemma DaysInGrow(a: Instant, b: Instant)
    requires IsInstant(a) && IsInstant(b) && a.year == b.year && Before(a, b)
    ensures DaysIn(a) < DaysIn(b)
  {
    DayPartBounds(a);
    DayPartBounds(b);
    if a.month < b.month {
      DaysBeforeGrows(a.year, a.month, b.month);
    }
    hide DaysBefore;
    if a.month == b.month && a.day == b.day {
      assert DayPart(a) < DayPart(b);
    }
  }

  lemma BeforeGrows(a: Instant, b: Instant)
    requires IsInstant(a) && IsInstant(b) && Before(a, b)
    ensures Value(a) < Value(b)
  {
    ValueInYear(a);
    ValueInYear(b);
    if a.year == b.year {
      ValueIs(a);
      ValueIs(b);
      DaysInGrow(a, b);
      hide Value, DaysIn;
      Divide(DaysIn(a), DaysIn(b), YearDays(a.year) as real);
    }
  }

  lemma Divide(x: real, y: real, n: real)
    requires x < y && n > 0.0
    ensures x / n < y / n
  {
  }

  /** Dates compare as their values do. */
  lemma OrderIsKept(a: Instant, b: Instant)
    requires IsInstant(a) && IsInstant(b)
    ensures Before(a, b) <==> Value(a) < Value(b)
    ensures a == b <==> Value(a) == Value(b)
  {
    assert a == b || Before(a, b) || Before(b, a);
    hide Value;
    if Before(a, b) {
      BeforeGrows(a, b);
    } else if Before(b, a) {
      BeforeGrows(b, a);
    }
  }

  // ------------------------------------------------------------------ written dates

  lemma WholeOfDigits(s: string)
    requires s != "" && AllDigits(s)
    ensures Whole(s) == ValueOf(s)
  {
    AtofOfDigits(s, s);
    hide Atof, ValueOf;
    assert (ValueOf(s) as real).Floor == ValueOf(s);
  }

  ghost function IsoDate(year: nat, month: nat, day: nat): string {
    Padded(year, 4) + "-" + Padded(month, 2) + "-" + Padded(day, 2)
  }

  /** `second` is the text of the seconds, with or without a fraction. */
  ghost function IsoText(year: nat, month: nat, day: nat, hour: nat, minute: nat, second: string): string {
    IsoDate(year, month, day) + "T" + Padded(hour, 2) + ":" + Padded(minute, 2) + ":" + second
  }

  ghost function SlashText(day: nat, month: nat, year: nat): string {
    Padded(day, 2) + "/" + Padded(month, 2) + "/" + Padded(year, 2)
  }

  lemma SplitAt(digits: string, c: char, rest: string, s: string)
    requires AllDigits(digits) && !IsDigit(c) && s == digits + [c] + rest
    ensures IndexOf(s, c, 0) == Some(|digits|) && s[..|digits|] == digits && s[|digits| + 1..] == rest
  {
    SeparatorAfter(digits, c, rest);
  }

  ghost function PartOfDay(hour: nat, minute: nat, second: real): real {
    (3600.0 * hour as real + (60.0 * minute as real + second)) / 86400.0
  }

  lemma TimeRead(hour: nat, minute: nat, second: string)
    ensures ReadTime(Padded(hour, 2) + ":" + Padded(minute, 2) + ":" + second) ==
      PartOfDay(hour, minute, Atof(second))
  {
    var h, m := Padded(hour, 2), Padded(minute, 2);
    hide Padded, Atof, Whole, ValueOf;
    var rest := m + ":" + second;
    var s := h + ":" + m + ":" + second;
    SplitAt(h, ':', rest, s);
    SplitAt(m, ':', second, rest);
    WholeOfDigits(h);
    WholeOfDigits(m);
  }

  lemma NoSlash(year: string, rest: string)
    requires AllDigits(year) && year != "" && '/' !in rest
    ensures var s := year + "-" + rest; ReadDate(s) == ReadIso(year, rest)
  {
    var s := year + "-" + rest;
    hide ReadIso;
    SplitAt(year, '-', rest, s);
    assert forall i | 0 <= i < |s| :: s[i] != '/';
    IndexOfNone(s, '/', 0);
  }

  lemma DayRead(month: nat, rest: string)
    ensures var back := Padded(month, 2) + "-" + rest;
      && IndexOf(back, '-', 0).Some? && var i := IndexOf(back, '-', 0).value;
      && back[i + 1..] == rest && Whole(back[..i]) == month
  {
    var m := Padded(month, 2);
    hide Padded, Whole, ValueOf;
    SplitAt(m, '-', rest, m + "-" + rest);
    WholeOfDigits(m);
  }

  /** An ISO date with its time, from the year 32 on. */
  lemma IsoTextRead(year: nat, month: nat, day: nat, hour: nat, minute: nat, second: string)
    requires year >= 32 && '/' !in second
    ensures ReadDate(IsoText(year, month, day, hour, minute, second)) ==
      Date(year, month, day, PartOfDay(hour, minute, Atof(second)))
  {
    hide Padded, Atof, Whole, ReadDate, ReadDay, ReadTime, ReadIso, ValueOf;
    var y, m, d := Padded(year, 4), Padded(month, 2), Padded(day, 2);
    var time := Padded(hour, 2) + ":" + Padded(minute, 2) + ":" + second;
    var back := d + "T" + time;
    var s := IsoText(year, month, day, hour, minute, second);
    assert s == y + "-" + (m + "-" + back);
    assert '/' !in m + "-" + back;
    hide *;
    TimeRead(hour, minute, second);
    DayTimeRead(day, time);
    WholeOfDigits(y);
    NoSlash(y, m + "-" + back);
    IsoBack(y, month, back);
  }

  lemma DayTimeRead(day: nat, time: string)
    ensures ReadDay(Padded(day, 2) + "T" + time) == (day, ReadTime(time))
  {
    var d := Padded(day, 2);
    hide Padded, Whole, ValueOf, ReadTime;
    SplitAt(d, 'T', time, d + "T" + time);
    WholeOfDigits(d);
  }

  lemma IsoBack(year: string, month: nat, back: string)
    requires Whole(year) >= 32
    ensures ReadIso(year, Padded(month, 2) + "-" + back) ==
      Date(Whole(year), month, ReadDay(back).0, ReadDay(back).1)
  {
    DayRead(month, back);
    hide Whole, ReadDay, Padded;
  }

  lemma IsoDateRead(year: nat, month: nat, day: nat)
    requires year >= 32
    ensures ReadDate(IsoDate(year, month, day)) == Date(year, month, day, 0.0)
  {
    var y, m, d := Padded(year, 4), Padded(month, 2), Padded(day, 2);
    assert IsoDate(year, month, day) == y + "-" + (m + "-" + d);
    DayRead(month, d);
    hide IsoDate, Whole, ValueOf;
    NoSlash(y, m + "-" + d);
    NoSeparator(d, 'T');
    WholeOfDigits(y);
    WholeOfDigits(d);
  }

  /** Three numbers with slashes: the year last, or first when the first number is above 31. */
  lemma SlashFields(first: nat, month: nat, last: nat)
    ensures ReadDate(SlashText(first, month, last)) ==
      Date(Century(if first > 31 then first else last), month, if first > 31 then last else first, 0.0)
  {
    hide Padded, Whole, ValueOf, Century;
    var d, m, y := Padded(first, 2), Padded(month, 2), Padded(last, 2);
    var s, back := SlashText(first, month, last), m + "/" + y;
    assert s == d + "/" + back;
    hide SlashText;
    SplitAt(d, '/', back, s);
    SplitAt(m, '/', y, back);
    WholeOfDigits(d);
    WholeOfDigits(m);
    WholeOfDigits(y);
    hide AllDigits;
  }

  lemma SlashTextRead(day: nat, month: nat, year: nat)
    requires day <= 31
    ensures ReadDate(SlashText(day, month, year)) ==
      Date(Century(year), month, day, 0.0)
  {
    hide *;
    SlashFields(day, month, year);
  }

  // ------------------------------------------------------------------ what hgetdate promises

  lemma DateFrom(s: string, year: int, month: int, day: int, fday: real)
    requires ReadDate(s) == Date(year, month, day, fday) && 1 <= month <= 12
    ensures MonthExists(s) && DateOf(s) == Some(YearValue(year, month, day, fday))
  {
    hide ReadDate, YearValue;
  }

  /** A date as written, `second` being the text of its seconds. */
  ghost predicate Writes(t: Instant, second: string) {
    && IsInstant(t) && t.year >= 32
    && '/' !in second && Atof(second) == t.second
  }

  ghost function InstantText(t: Instant, second: string): string
    requires Writes(t, second)
  {
    IsoText(t.year, t.month, t.day, t.hour, t.minute, second)
  }

  lemma InstantRead(t: Instant, second: string)
    requires Writes(t, second)
    ensures MonthExists(InstantText(t, second)) && DateOf(InstantText(t, second)) == Some(Value(t))
  {
    hide ReadDate, IsoText, Atof, DaysBefore;
    IsoTextRead(t.year, t.month, t.day, t.hour, t.minute, second);
  }

  /** On ISO dates with times hgetdate is strictly increasing in calendar order, and stays in
      the date's year. */
  lemma IsoDatesInOrder(a: Instant, x: string, b: Instant, y: string)
    requires Writes(a, x) && Writes(b, y)
    ensures MonthExists(InstantText(a, x)) && MonthExists(InstantText(b, y))
    ensures var v, w := DateOf(InstantText(a, x)), DateOf(InstantText(b, y));
      && v.Some? && w.Some?
      && (Before(a, b) <==> v.value < w.value)
      && a.year as real <= v.value < a.year as real + 1.0
  {
    InstantRead(a, x);
    InstantRead(b, y);
    OrderIsKept(a, b);
    ValueInYear(a);
    hide DateOf, Value, InstantText, Before, Writes, MonthExists;
  }

  /** A day with slashes reads as the same day in ISO form: with two digits of the year from
      1950 to 2049, else with the whole year from 100 on. */
  lemma SlashIsIso(year: nat, month: nat, day: nat)
    requires 1 <= month <= 12 && 1 <= day <= 31 && year >= 100
    ensures var s := IsoDate(year, month, day); MonthExists(s)
    ensures var t := SlashText(day, month, year);
      MonthExists(t) && DateOf(t) == DateOf(IsoDate(year, month, day))
    ensures 1950 <= year <= 2049 ==>
      var t := SlashText(day, month, year % 100); MonthExists(t) && DateOf(t) == DateOf(IsoDate(year, month, day))
  {
    hide *;
    var s := IsoDate(year, month, day);
    IsoDateRead(year, month, day);
    SlashTextRead(day, month, year);
    SlashTextRead(day, month, year % 100);
    CenturyOf(year);
    DateFrom(s, year, month, day, 0.0);
    DateFrom(SlashText(day, month, year), year, month, day, 0.0);
    if 1950 <= year <= 2049 {
      DateFrom(SlashText(day, month, year % 100), year, month, day, 0.0);
    }
  }

  lemma CenturyOf(year: nat)
    requires year >= 100
    ensures Century(year) == year && (1950 <= year <= 2049 ==> Century(year % 100) == year)
  {
  }

  /** A day past the end of its month reads as the month's last day, and day 0 as the first. */
  lemma DayIsBroughtIn(year: nat, month: nat, day: nat)
    requires year >= 32 && 1 <= month <= 12
    ensures var s := IsoDate(year, month, day); MonthExists(s)
    ensures var first, last := IsoDate(year, month, 1), IsoDate(year, month, MonthDays(year, month));
      && MonthExists(first) && MonthExists(last)
      && (day == 0 ==> DateOf(IsoDate(year, month, day)) == DateOf(first))
      && (day > MonthDays(year, month) ==> DateOf(IsoDate(year, month, day)) == DateOf(last))
  {
    var last := MonthDays(year, month);
    assert ClampedDay(year, month, 0) == 1;
    assert day > last ==> ClampedDay(year, month, day) == last;
    hide *;
    ClampedValue(year, month, day);
    IsoDateRead(year, month, day);
    IsoDateRead(year, month, 1);
    IsoDateRead(year, month, last);
    DateFrom(IsoDate(year, month, day), year, month, day, 0.0);
    DateFrom(IsoDate(year, month, 1), year, month, 1, 0.0);
    DateFrom(IsoDate(year, month, last), year, month, last, 0.0);
  }

  lemma ClampedValue(year: int, month: int, day: int)
    requires 1 <= month <= 12
    ensures YearValue(year, month, day, 0.0) == YearValue(year, month, ClampedDay(year, month, day), 0.0)
  {
    hide DaysBefore, YearDays, MonthDays;
    var k := ClampedDay(year, month, day);
    assert ClampedDay(year, month, k) == k;
  }

  // ------------------------------------------------------------------ the calendar in numbers

  /** One day more in a leap year. */
  ghost function LeapDay(year: int): int {
    if year % 4 == 0 && (year % 100 != 0 || year % 400 == 0) then 1 else 0
  }

  /** Days before each month of a common year. */
  const COMMON: seq<int> := [0, 31, 59, 90, 120, 151, 181, 212, 243, 273, 304, 334, 365]

  /** Days before each month: the table for a common year, one more behind February of a leap
      year. Month 13 is the end of the year. */
  lemma {:induction false} DaysBeforeIs(year: int, month: int)
    requires 1 <= month <= 13
    ensures DaysBefore(year, month) == COMMON[month - 1] + if month >= 3 then LeapDay(year) else 0
    ensures YearDays(year) == 365 + LeapDay(year)
    decreases month
  {
    if month > 1 {
      DaysBeforeIs(year, month - 1);
    }
  }

  lemma MonthDaysIs(year: int, month: int)
    requires 1 <= month <= 12
    ensures MonthDays(year, month) == COMMON[month] - COMMON[month - 1] + if month == 2 then LeapDay(year) else 0
  {
  }

  /** The number of the day in its year, counted from 0. */
  ghost function DayNumber(year: int, month: int, day: int): int
    requires 1 <= month <= 12
  {
    COMMON[month - 1] + (if month >= 3 then LeapDay(year) else 0) + day - 1
  }

  ghost predicate IsDay(year: int, month: int, day: int) {
    1 <= month <= 12
    && 1 <= day <= COMMON[month] - COMMON[month - 1] + if month == 2 then LeapDay(year) else 0
  }

  /** The day, and the part `fday` of it, as a fraction of its year. */
  ghost function InNumbers(year: int, month: int, day: int, fday: real): real
    requires 1 <= month <= 12
  {
    year as real + (DayNumber(year, month, day) as real + fday) / (365 + LeapDay(year)) as real
  }

  lemma YearValueIs(year: int, month: int, day: int, fday: real)
    requires IsDay(year, month, day)
    ensures YearValue(year, month, day, fday) == InNumbers(year, month, day, fday)
  {
    DaysBeforeIs(year, month);
    MonthDaysIs(year, month);
    hide DaysBefore, MonthDays, YearDays, LeapDay;
  }

  /** The value of an ISO date, in numbers. */
  lemma IsoDateValue(year: nat, month: nat, day: nat)
    requires year >= 32 && IsDay(year, month, day)
    ensures var s := IsoDate(year, month, day);
      MonthExists(s) && DateOf(s) == Some(InNumbers(year, month, day, 0.0))
  {
    assert 1 <= month <= 12;
    hide *;
    IsoDateRead(year, month, day);
    YearValueIs(year, month, day, 0.0);
    DateFrom(IsoDate(year, month, day), year, month, day, 0.0);
  }

  /** The value of an ISO date with a time, in numbers. */
  lemma IsoTextValue(year: nat, month: nat, day: nat, hour: nat, minute: nat, second: string)
    requires year >= 32 && IsDay(year, month, day) && '/' !in second
    ensures var s := IsoText(year, month, day, hour, minute, second);
      var fday := PartOfDay(hour, minute, Atof(second));
      MonthExists(s) && DateOf(s) == Some(InNumbers(year, month, day, fday))
  {
    assert 1 <= month <= 12;
    hide *;
    var fday := PartOfDay(hour, minute, Atof(second));
    IsoTextRead(year, month, day, hour, minute, second);
    YearValueIs(year, month, day, fday);
    DateFrom(IsoText(year, month, day, hour, minute, second), year, month, day, fday);
  }

  /** The fifteenth of May 2024 is day 135 of a year of 366 days, day 0 being the first. */
  lemma MayInALeapYear()
    ensures MonthExists(IsoDate(2024, 5, 15)) && DateOf(IsoDate(2024, 5, 15)) == Some(2024.0 + 135.0 / 366.0)
  {
    assert IsDay(2024, 5, 15) && InNumbers(2024, 5, 15, 0.0) == 2024.0 + 135.0 / 366.0;
    hide *;
    IsoDateValue(2024, 5, 15);
  }

  // ------------------------------------------------------------------ other written forms

  ghost function DashText(first: nat, month: nat, last: nat): string {
    Padded(first, 2) + "-" + Padded(month, 2) + "-" + Padded(last, 2)
  }

  /** With dashes and a first number below 32, the day comes first and the year counts from
      1900. */
  lemma DashDayFirst(day: nat, month: nat, year: nat)
    requires day < 32
    ensures ReadDate(DashText(day, month, year)) == Date(year + 1900, month, day, 0.0)
  {
    hide Padded, ReadDate, Whole, ValueOf;
    var d, m, y := Padded(day, 2), Padded(month, 2), Padded(year, 2);
    var back := m + "-" + y;
    assert DashText(day, month, year) == d + "-" + back;
    assert '/' !in back;
    NoSlash(d, back);
    DayRead(month, y);
    NoSeparator(y, 'T');
    WholeOfDigits(d);
    WholeOfDigits(y);
  }

  /** With slashes and a first number above 31, the year comes first. */
  lemma SlashYearFirst(year: nat, month: nat, day: nat)
    requires year > 31
    ensures ReadDate(SlashText(year, month, day)) ==
      Date(if year <= 49 then year + 2000 else if year < 100 then year + 1900 else year, month, day, 0.0)
  {
    hide ReadDate, SlashText;
    SlashFields(year, month, day);
  }

  /** A number alone, and two with a slash between them, are no date; two with a dash between
      them are the first day of the year. */
  lemma ShortForms(first: nat, second: nat)
    ensures ReadDate(Padded(first, 2)) == NoDate
    ensures ReadDate(Padded(first, 2) + "/" + Padded(second, 2)) == NoDate
    ensures first >= 32 ==> ReadDate(Padded(first, 2) + "-" + Padded(second, 2)) == Date(first, 1, 1, 0.0)
  {
    var a, b := Padded(first, 2), Padded(second, 2);
    hide Padded, Whole, ValueOf;
    NoSeparator(a, '/');
    NoSeparator(a, '-');
    NoSeparator(b, '/');
    NoSeparator(b, '-');
    SplitAt(a, '/', b, a + "/" + b);
    WholeOfDigits(a);
    hide ReadDate;
    NoSlash(a, b);
    TwoWithSlash(a, b);
    OneAlone(a);
  }

  lemma TwoWithSlash(a: string, b: string)
    requires a != "" && AllDigits(a) && AllDigits(b)
    ensures ReadDate(a + "/" + b) == NoDate
  {
    SplitAt(a, '/', b, a + "/" + b);
    NoSeparator(b, '/');
    NoSeparator(b, '-');
    hide Whole;
  }

  lemma OneAlone(a: string)
    requires AllDigits(a)
    ensures ReadDate(a) == NoDate
  {
    NoSeparator(a, '/');
    NoSeparator(a, '-');
    hide ReadIso, ReadOld;
  }

  /** Hours and minutes without seconds, and hours alone, which are not read. */
  lemma ShortTimes(hour: nat, minute: nat)
    ensures ReadTime(Padded(hour, 2) + ":" + Padded(minute, 2)) == (3600.0 * hour as real + 60.0 * minute as real) / 86400.0
    ensures ReadTime(Padded(hour, 2)) == 0.0
  {
    var h, m := Padded(hour, 2), Padded(minute, 2);
    hide Padded, Atof, Whole, ValueOf;
    SplitAt(h, ':', m, h + ":" + m);
    NoSeparator(h, ':');
    NoSeparator(m, ':');
    WholeOfDigits(h);
    WholeOfDigits(m);
  }
}
