/** Conversion of a time in seconds to a calendar date by integer arithmetic alone, checked against the
    rules of the Gregorian calendar. */
module LocalTime {

  /** The C type int. An operation whose result does not fit would not verify. */
  newtype int32 = x: int | -0x8000_0000 <= x < 0x8000_0000

  /** C division truncates towards zero. */
  function Div(x: int32, k: int32): (q: int32)
    requires Divisor(k as int) && x > -0x8000_0000
    ensures q as int == if x >= 0 then x as int / k as int else -(-(x as int) / k as int)
  {
    DivBounds(if x >= 0 then x as int else -(x as int), k as int);
    if x >= 0 then x / k else -((-x) / k)
  }

  /** The divisors of the conversion. */
  predicate Divisor(k: int) {
    k == 4 || k == 5 || k == 10 || k == 24 || k == 60 || k == 153 || k == 1461 || k == 146097
  }

  lemma DivBounds(x: int, k: int)
    requires x >= 0 && Divisor(k)
    ensures 0 <= x / k <= x
  {
  }

  /** The fields of struct tm that are set: mon counts from 0, year from 1900. */
  datatype Tm = Tm(sec: int, min: int, hour: int, mday: int, mon: int, year: int)

  // ---------------------------------------------------------------- the calendar

  predicate Leap(y: int) {
    y % 4 == 0 && (y % 100 != 0 || y % 400 == 0)
  }

  function DaysInMonth(y: int, m: int): int {
    if m == 2 then (if Leap(y) then 29 else 28)
    else if m == 4 || m == 6 || m == 9 || m == 11 then 30
    else 31
  }

  function DaysBeforeYear(y: int): int
    requires y >= 1970
    decreases y
  {
    if y == 1970 then 0 else DaysBeforeYear(y - 1) + if Leap(y - 1) then 366 else 365
  }

  function DaysBeforeMonth(y: int, m: int): int
    requires 1 <= m <= 12
    decreases m
  {
    if m == 1 then 0 else DaysBeforeMonth(y, m - 1) + DaysInMonth(y, m - 1)
  }

  predicate ValidTm(t: Tm) {
    && 0 <= t.sec < 60 && 0 <= t.min < 60 && 0 <= t.hour < 24
    && t.year >= 70 && 0 <= t.mon < 12 && 1 <= t.mday <= DaysInMonth(t.year + 1900, t.mon + 1)
  }

  /** Seconds since the beginning of 1970, counted out on the calendar. */
  function Seconds(t: Tm): int
    requires ValidTm(t)
  {
    var days := DaysBeforeYear(t.year + 1900) + DaysBeforeMonth(t.year + 1900, t.mon + 1) + t.mday - 1;
    ((days * 24 + t.hour) * 60 + t.min) * 60 + t.sec
  }

  // ---------------------------------------------------------------- the conversion

  const KDAYS_FROM_UNIXTIME: int32 := 2472632
  const KDAYS_FROM_YEAR: int32 := 153
  const KMAGIC_FIRST: int32 := 146097
  const KMAGIC_SEC: int32 := 1461

  /** The date of a day, as the code computes it. */
  method Date(day: int32) returns (mday: int32, mon: int32, year: int32)
    requires 0 <= day < 2_000_000
    ensures (mday as int, mon as int, year as int) == Civil(day as int)
  {
    hide FromMarch;
    var b, c := Century(day + KDAYS_FROM_UNIXTIME);
    var d, e := YearOfCentury(c);
    var m;
    m, mday := MonthOfYear(e);
    mon, year := ToJanuary(b * 100 + d, m);
    MarchDay(b as int * 100 + d as int, m as int, mday as int);
  }

  lemma MarchDay(y: int, m: int, mday: int)
    ensures FromMarch(y, m, mday) == (mday, FromMarch(y, m, 1).1, FromMarch(y, m, 1).2)
  {
  }

  /** From a year that begins in March to one that begins in January. */
  method ToJanuary(y: int32, m: int32) returns (mon: int32, year: int32)
    requires 0 <= y < 20_100 && 0 <= m < 12
    ensures (mon as int, year as int) == (FromMarch(y as int, m as int, 1).1, FromMarch(y as int, m as int, 1).2)
  {
    mon := Div(-m, 10) * 12 + m + 2;
    year := y - 6700 + Div(m, 10);
  }

  /** Centuries, and the days in the current one. */
  method Century(a: int32) returns (b: int32, c: int32)
    requires 2_472_632 <= a < 4_472_632
    ensures b as int == (a as int * 4 + 3) / 146097 && c as int == a as int - b as int * 146097 / 4
    ensures 0 <= b < 200 && 0 <= c < 36525
  {
    b := Div(a * 4 + 3, KMAGIC_FIRST);
    c := Div(-b * KMAGIC_FIRST, 4) + a;
  }

  /** Years of the century, and the days in the current one, from March on. */
  method YearOfCentury(c: int32) returns (d: int32, e: int32)
    requires 0 <= c < 36525
    ensures d as int == (c as int * 4 + 3) / 1461 && e as int == c as int - d as int * 1461 / 4
    ensures 0 <= d < 100 && 0 <= e < 366
  {
    d := Div(c * 4 + 3, KMAGIC_SEC);
    e := -d * KMAGIC_SEC;
    e := Div(e, 4) + c;
  }

  /** Months since March, and the day of the month. */
  method MonthOfYear(e: int32) returns (m: int32, mday: int32)
    requires 0 <= e < 366
    ensures m as int == (5 * e as int + 2) / 153 && mday as int == e as int - (153 * m as int + 2) / 5 + 1
    ensures 0 <= m < 12
  {
    m := Div(5 * e + 2, KDAYS_FROM_YEAR);
    mday := Div(-(KDAYS_FROM_YEAR * m + 2), 5) + e + 1;
  }

  /** The same over unbounded numbers, none of them negative before it is divided. */
  function Civil(day: int): (int, int, int) {
    var a := day + 2472632;
    var b := (a * 4 + 3) / 146097;
    var c := a - b * 146097 / 4;
    var d := (c * 4 + 3) / 1461;
    var e := c - d * 1461 / 4;
    var m := (5 * e + 2) / 153;
    FromMarch(b * 100 + d, m, e - (153 * m + 2) / 5 + 1)
  }

  /** Day, month and year in the fields of struct tm, from a year that begins in March of 4801 B.C. */
  function FromMarch(y: int, m: int, mday: int): (int, int, int) {
    (mday, m + 2 - m / 10 * 12, y - 6700 + m / 10)
  }

  // ---------------------------------------------------------------- the calendar agrees

  /** Leap days up to and including year y of the proleptic calendar. */
  function Leaps(y: int): int {
    y / 4 - y / 100 + y / 400
  }

  lemma LeapStep(y: int)
    ensures Leaps(y) == Leaps(y - 1) + if Leap(y) then 1 else 0
  {
    DivStep(y, 4);
    DivStep(y, 100);
    DivStep(y, 400);
    Multiples(y);
  }

  lemma Multiples(y: int)
    ensures (y % 400 == 0 ==> y % 100 == 0) && (y % 100 == 0 ==> y % 4 == 0)
  {
    if y % 400 == 0 {
      HundredsIn(y, y / 400);
    }
    if y % 100 == 0 {
      FoursIn(y, y / 100);
    }
  }

  lemma HundredsIn(y: int, k: int)
    requires y == 400 * k
    ensures y % 100 == 0
  {
  }

  lemma FoursIn(y: int, k: int)
    requires y == 100 * k
    ensures y % 4 == 0
  {
  }

  lemma DivStep(y: int, k: int)
    requires k == 4 || k == 100 || k == 400
    ensures y / k == (y - 1) / k + if y % k == 0 then 1 else 0
  {
  }

  lemma {:induction false} YearsCounted(y: int)
    requires y >= 1970
    ensures DaysBeforeYear(y) == 365 * (y - 1970) + Leaps(y - 1) - 477
    decreases y
  {
    if y > 1970 {
      YearsCounted(y - 1);
      LeapStep(y - 1);
    }
  }

  lemma MonthsCounted(y: int)
    ensures DaysBeforeMonth(y, 1) == 0 && DaysBeforeMonth(y, 2) == 31
    ensures var f := 59 + if Leap(y) then 1 else 0;
      && DaysBeforeMonth(y, 3) == f && DaysBeforeMonth(y, 4) == f + 31 && DaysBeforeMonth(y, 5) == f + 61
      && DaysBeforeMonth(y, 6) == f + 92 && DaysBeforeMonth(y, 7) == f + 122 && DaysBeforeMonth(y, 8) == f + 153
      && DaysBeforeMonth(y, 9) == f + 184 && DaysBeforeMonth(y, 10) == f + 214 && DaysBeforeMonth(y, 11) == f + 245
      && DaysBeforeMonth(y, 12) == f + 275
  {
    assert DaysBeforeMonth(y, 3) == DaysBeforeMonth(y, 2) + DaysInMonth(y, 2);
    assert DaysBeforeMonth(y, 6) == DaysBeforeMonth(y, 5) + DaysInMonth(y, 5);
    assert DaysBeforeMonth(y, 9) == DaysBeforeMonth(y, 8) + DaysInMonth(y, 8);
    assert DaysBeforeMonth(y, 12) == DaysBeforeMonth(y, 11) + DaysInMonth(y, 11);
  }

  /** Day number a split into centuries, years of a century and days of a year that starts in March. */
  lemma Split(a: int, b: int, c: int, d: int, e: int)
    requires a >= 0 && b == (a * 4 + 3) / 146097 && c == a - b * 146097 / 4
    requires d == (c * 4 + 3) / 1461 && e == c - d * 1461 / 4
    ensures b >= 0 && 0 <= d < 100 && 0 <= e < 366
    ensures a == 36524 * b + b / 4 + 365 * d + d / 4 + e
    ensures e == 365 ==> d % 4 == 3 && (d == 99 ==> b % 4 == 3)
  {
    assert b * 146097 / 4 == 36524 * b + b / 4;
    assert d * 1461 / 4 == 365 * d + d / 4;
  }

  /** The leap days of a March year. */
  lemma MarchLeaps(b: int, d: int)
    requires b >= 0 && 0 <= d < 100
    ensures Leaps(100 * b + d) == 24 * b + b / 4 + d / 4
    ensures Leaps(100 * b + d - 4800) == Leaps(100 * b + d) - 1164
    ensures Leap(100 * b + d + 1 - 4800) <==> (d % 4 == 3 && (d == 99 ==> b % 4 == 3))
  {
    var y := 100 * b + d;
    assert y / 4 == 25 * b + d / 4;
    assert y / 100 == b;
    assert y / 400 == b / 4;
    LeapShift(y + 1);
    LeapNext(b, d);
  }

  lemma LeapShift(y: int)
    ensures Leap(y - 4800) <==> Leap(y)
    ensures Leaps(y - 1 - 4800) == Leaps(y - 1) - 1164
  {
    ShiftFour(y);
    ShiftHundred(y);
    ShiftFourHundred(y);
    ShiftFour(y - 1);
    ShiftHundred(y - 1);
    ShiftFourHundred(y - 1);
  }

  lemma ShiftFour(y: int)
    ensures (y - 4800) / 4 == y / 4 - 1200 && (y - 4800) % 4 == y % 4
  {
  }

  lemma ShiftHundred(y: int)
    ensures (y - 4800) / 100 == y / 100 - 48 && (y - 4800) % 100 == y % 100
  {
  }

  lemma ShiftFourHundred(y: int)
    ensures (y - 4800) / 400 == y / 400 - 12 && (y - 4800) % 400 == y % 400
  {
  }

  lemma LeapNext(b: int, d: int)
    requires b >= 0 && 0 <= d < 100
    ensures Leap(100 * b + d + 1) <==> (d % 4 == 3 && (d == 99 ==> b % 4 == 3))
  {
    FourthYear(b, d);
    if d == 99 {
      FourthCentury(b);
    } else {
      WithinCentury(b, d + 1);
    }
  }

  lemma WithinCentury(b: int, d: int)
    requires b >= 0 && 0 <= d < 100
    ensures (100 * b + d) % 100 == d
  {
  }

  lemma FourthYear(b: int, d: int)
    requires b >= 0 && 0 <= d < 100
    ensures (100 * b + d + 1) % 4 == 0 <==> d % 4 == 3
  {
  }

  lemma FourthCentury(b: int)
    requires b >= 0
    ensures (100 * b + 100) % 100 == 0 && ((100 * b + 100) % 400 == 0 <==> b % 4 == 3)
  {
    var q, r := b / 4, b % 4;
    assert b == 4 * q + r;
    Mod100(100 * b + 100, b + 1);
    if r == 3 {
      Mod400(100 * b + 100, q + 1, 0);
    } else {
      Mod400(100 * b + 100, q, 100 * r + 100);
    }
  }

  lemma Mod100(x: int, q: int)
    requires x == 100 * q
    ensures x % 100 == 0
  {
  }

  lemma Mod400(x: int, q: int, r: int)
    requires x == 400 * q + r && 0 <= r < 400
    ensures x % 400 == r
  {
  }

  /** The months of a March year begin where the formula says. */
  lemma MarchMonths(e: int, m: int)
    requires 0 <= e < 366 && m == (5 * e + 2) / 153
    ensures 0 <= m < 12 && (153 * m + 2) / 5 <= e
    ensures var mday := e - (153 * m + 2) / 5 + 1;
      1 <= mday <= (if m == 11 then 29 else if m == 1 || m == 3 || m == 6 || m == 8 then 30 else 31)
    ensures m == 11 && e - (153 * m + 2) / 5 + 1 == 29 ==> e == 365
  {
  }

  // ---------------------------------------------------------------- the result

  predicate IsDate(mday: int, mon: int, year: int) {
    year >= 70 && 0 <= mon < 12 && 1 <= mday <= DaysInMonth(year + 1900, mon + 1)
  }

  function DayNumber(mday: int, mon: int, year: int): int
    requires IsDate(mday, mon, year)
  {
    DaysBeforeYear(year + 1900) + DaysBeforeMonth(year + 1900, mon + 1) + mday - 1
  }

  /** The fields mday, mon and year of a day. */
  predicate DateOfDay(date: (int, int, int), day: int) {
    IsDate(date.0, date.1, date.2) && DayNumber(date.0, date.1, date.2) == day
  }

  /** The date computed for a day exists, and counting on the calendar leads back to the day. */
  lemma CivilIsRight(day: int)
    requires 0 <= day
    ensures DateOfDay(Civil(day), day)
  {
    var b, d, e, m := CivilParts(day);
    MarchYear(day, b, d, e, m);
  }

  /** The parts that a day is split into: century, year in it, day in that year, month. */
  ghost predicate Parts(day: int, b: int, d: int, e: int, m: int) {
    && b >= 0 && 0 <= d < 100 && 0 <= e < 366 && m == (5 * e + 2) / 153 && 0 <= m < 12
    && day + 2472632 == 36524 * b + b / 4 + 365 * d + d / 4 + e
    && (e == 365 ==> d % 4 == 3 && (d == 99 ==> b % 4 == 3))
  }

  lemma CivilParts(day: int) returns (b: int, d: int, e: int, m: int)
    requires 0 <= day
    ensures Parts(day, b, d, e, m) && Civil(day) == FromMarch(b * 100 + d, m, e - (153 * m + 2) / 5 + 1)
  {
    hide FromMarch;
    var a := day + 2472632;
    b := (a * 4 + 3) / 146097;
    var c := a - b * 146097 / 4;
    d := (c * 4 + 3) / 1461;
    e := c - d * 1461 / 4;
    m := (5 * e + 2) / 153;
    Split(a, b, c, d, e);
    MarchMonths(e, m);
  }

  /** The date put together from its parts. */
  lemma MarchYear(day: int, b: int, d: int, e: int, m: int)
    requires 0 <= day && Parts(day, b, d, e, m)
    ensures DateOfDay(FromMarch(b * 100 + d, m, e - (153 * m + 2) / 5 + 1), day)
  {
    NotBefore1970(day, b, d, e, m);
    MarchMonths(e, m);
    if m >= 10 {
      EarlyMonths(day, b, d, e, m);
    } else {
      LateMonths(day, b, d, e, m);
    }
  }

  lemma NotBefore1970(day: int, b: int, d: int, e: int, m: int)
    requires 0 <= day && b >= 0 && 0 <= d < 100 && 0 <= e < 366 && m == (5 * e + 2) / 153
    requires day + 2472632 == 36524 * b + b / 4 + 365 * d + d / 4 + e
    ensures 100 * b + d >= 6769 + if m >= 10 then 0 else 1
  {
    assert d / 4 <= 24 && (b <= 67 ==> b / 4 <= 16);
    MonthNine(e, m);
  }

  lemma MonthNine(e: int, m: int)
    requires 0 <= e < 366 && m == (5 * e + 2) / 153
    ensures m < 10 ==> e <= 305
  {
  }

  /** March to December belong to the year in which the March year begins. */
  lemma LateMonths(day: int, b: int, d: int, e: int, m: int)
    requires b >= 0 && 0 <= d < 100 && 0 <= m < 10 && 100 * b + d >= 6770
    requires day + 2472632 == 36524 * b + b / 4 + 365 * d + d / 4 + e
    requires var mday := e - (153 * m + 2) / 5 + 1;
      1 <= mday <= if m == 1 || m == 3 || m == 6 || m == 8 then 30 else 31
    ensures DateOfDay(FromMarch(b * 100 + d, m, e - (153 * m + 2) / 5 + 1), day)
  {
    hide Leap, Leaps, DaysBeforeYear, DaysBeforeMonth;
    var y := 100 * b + d - 4800;
    YearsCounted(y);
    LeapStep(y);
    MarchLeaps(b, d);
    MonthsCounted(y);
  }

  /** January and February belong to the next. */
  lemma EarlyMonths(day: int, b: int, d: int, e: int, m: int)
    requires b >= 0 && 0 <= d < 100 && 10 <= m < 12 && 100 * b + d >= 6769
    requires day + 2472632 == 36524 * b + b / 4 + 365 * d + d / 4 + e
    requires var mday := e - (153 * m + 2) / 5 + 1;
      1 <= mday <= (if m == 11 then 29 else 31) && (m == 11 && mday == 29 ==> e == 365)
    requires e == 365 ==> d % 4 == 3 && (d == 99 ==> b % 4 == 3)
    ensures DateOfDay(FromMarch(b * 100 + d, m, e - (153 * m + 2) / 5 + 1), day)
  {
    var y := 100 * b + d + 1 - 4800;
    YearsCounted(y);
    MarchLeaps(b, d);
    MonthsCounted(y);
  }

  // ---------------------------------------------------------------- the whole conversion

  /** The remainder of C division, which has the sign of x. */
  function Rem(x: int32, k: int32): (r: int32)
    requires Divisor(k as int) && x > -0x8000_0000
    ensures r as int == if x >= 0 then x as int % k as int else -(-(x as int) % k as int)
  {
    if x >= 0 then x % k else -((-x) % k)
  }

  /** The time of day and the number of the day. Before 1970 the hour is negative. */
  method TimeOfDay(t: int, zone: int32) returns (sec: int, min: int32, hour: int32, day: int32)
    requires 0 <= t < 60 * 0x8000_0000 && -24 < zone < 24
    ensures 0 <= sec < 60 && 0 <= min < 60 && 0 <= day < 2_000_000
    ensures if t / 3600 + zone as int < 0 then hour < 0
      else 0 <= hour < 24 && ((day as int * 24 + hour as int) * 60 + min as int) * 60 + sec == t + zone as int * 3600
  {
    HourBounds(t);
    sec := t % 60;
    var i := (t / 60) as int32;
    min := i % 60;
    i := i / 60;
    hour := Rem(i + zone, 24);
    day := Div(i + zone, 24);
    if i + zone >= 0 {
      Recombine(t, zone as int);
    }
  }

  /** The time t, at least 0 and small enough for the minutes to fit in 32 bits, on the clock of a zone:
      a valid date and time that lies the zone's offset after t, exactly if the zone's clock does not
      stand before 1970. No intermediate leaves 32 bits. */
  method LocalTimeR(t: int, zone: int32) returns (tm: Tm)
    requires 0 <= t < 60 * 0x8000_0000 && -24 < zone < 24
    ensures ValidTm(tm) && Seconds(tm) == t + zone as int * 3600 <==> t / 3600 + zone as int >= 0
  {
    var sec, min, hour, day := TimeOfDay(t, zone);
    var mday, mon, year := Date(day);
    CivilIsRight(day as int);
    tm := Tm(sec, min as int, hour as int, mday as int, mon as int, year as int);
  }

  lemma HourBounds(t: int)
    requires 0 <= t < 60 * 0x8000_0000
    ensures 0 <= t / 60 < 0x8000_0000 && 0 <= t / 60 / 60 < 35_791_395 && t / 3600 == t / 60 / 60
  {
  }

  lemma Recombine(t: int, zone: int)
    requires 0 <= t && 0 <= t / 60 / 60 + zone
    ensures var h := t / 60 / 60 + zone;
      (((h / 24) * 24 + h % 24) * 60 + t / 60 % 60) * 60 + t % 60 == t + zone * 3600
  {
  }

  // ---------------------------------------------------------------- the date is determined

  lemma {:induction false} YearsGrow(y: int, z: int)
    requires 1970 <= y < z
    ensures DaysBeforeYear(y) + (if Leap(y) then 366 else 365) <= DaysBeforeYear(z)
    decreases z
  {
    if y < z - 1 {
      YearsGrow(y, z - 1);
    }
  }

  lemma {:induction false} MonthsGrow(y: int, m: int, n: int)
    requires 1 <= m < n <= 12
    ensures DaysBeforeMonth(y, m) + DaysInMonth(y, m) <= DaysBeforeMonth(y, n)
    decreases n
  {
    if m < n - 1 {
      MonthsGrow(y, m, n - 1);
    }
  }

  /** A day lies within its year. */
  lemma InYear(y: int, m: int, mday: int)
    requires 1 <= m <= 12 && 1 <= mday <= DaysInMonth(y, m)
    ensures 0 <= DaysBeforeMonth(y, m) + mday - 1 < if Leap(y) then 366 else 365
  {
    MonthsCounted(y);
    if m > 1 {
      MonthsGrow(y, 1, m);
    }
    if m < 12 {
      MonthsGrow(y, m, 12);
    }
  }

  lemma LaterYear(d: int, m: int, y: int, d': int, m': int, y': int)
    requires IsDate(d, m, y) && IsDate(d', m', y') && y < y'
    ensures DayNumber(d, m, y) < DayNumber(d', m', y')
  {
    InYear(y + 1900, m + 1, d);
    InYear(y' + 1900, m' + 1, d');
    YearsGrow(y + 1900, y' + 1900);
  }

  lemma LaterMonth(d: int, m: int, d': int, m': int, y: int)
    requires IsDate(d, m, y) && IsDate(d', m', y) && m < m'
    ensures DayNumber(d, m, y) < DayNumber(d', m', y)
  {
    MonthsGrow(y + 1900, m + 1, m' + 1);
  }

  lemma DaysDetermine(d: int, m: int, y: int, d': int, m': int, y': int)
    requires IsDate(d, m, y) && IsDate(d', m', y') && DayNumber(d, m, y) == DayNumber(d', m', y')
    ensures d == d' && m == m' && y == y'
  {
    if y < y' {
      LaterYear(d, m, y, d', m', y');
    } else if y' < y {
      LaterYear(d', m', y', d, m, y);
    } else if m < m' {
      LaterMonth(d, m, d', m', y);
    } else if m' < m {
      LaterMonth(d', m', d, m, y);
    }
  }

  lemma ClockDetermines(days: int, h: int, m: int, s: int, days': int, h': int, m': int, s': int)
    requires 0 <= h < 24 && 0 <= m < 60 && 0 <= s < 60 && 0 <= h' < 24 && 0 <= m' < 60 && 0 <= s' < 60
    requires ((days * 24 + h) * 60 + m) * 60 + s == ((days' * 24 + h') * 60 + m') * 60 + s'
    ensures days == days' && h == h' && m == m' && s == s'
  {
  }

  /** Different dates and times are different numbers of seconds: the result of the conversion is the
      only valid one. */
  lemma SecondsDetermine(a: Tm, b: Tm)
    requires ValidTm(a) && ValidTm(b) && Seconds(a) == Seconds(b)
    ensures a == b
  {
    ClockDetermines(DayNumber(a.mday, a.mon, a.year), a.hour, a.min, a.sec,
                    DayNumber(b.mday, b.mon, b.year), b.hour, b.min, b.sec);
    DaysDetermine(a.mday, a.mon, a.year, b.mday, b.mon, b.year);
  }
}
