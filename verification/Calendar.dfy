/** Civil time and seconds since 1970 (kernel/lib/calendar.c). Years are unbounded. */
module Calendar {
  import opened Arith

  const DAY: nat := 86400

  datatype Time = Time(year: int, month: int, day: int, hour: int, min: int, sec: int, wday: int, yday: int)

  predicate IsLeap(y: int) {
    (y % 4 == 0 && y % 100 != 0) || y % 400 == 0
  }

  function YearDays(y: int): nat {
    if IsLeap(y) then 366 else 365
  }

  /** Days in month `m`, January being zero. */
  function MonthDays(y: int, m: nat): nat
    requires m < 12
  {
    if m == 1 && IsLeap(y) then 29 else [31, 28, 31, 30, 31, 30, 31, 31, 30, 31, 30, 31][m]
  }

  /** Days from 1970-01-01 to the first of January of a year, negative before. */
  function YearStart(y: int): int
    decreases if y < 1970 then 1970 - y else y - 1970
  {
    if y == 1970 then 0
    else if y > 1970 then YearStart(y - 1) + YearDays(y - 1)
    else YearStart(y + 1) - YearDays(y)
  }

  lemma YearStep(y: int)
    ensures YearStart(y + 1) == YearStart(y) + YearDays(y)
  {
  }

  /** Days from the first of January to the first of month `m`. */
  function MonthStart(y: int, m: nat): nat
    requires m <= 12
  {
    if m == 0 then 0 else MonthStart(y, m - 1) + MonthDays(y, m - 1)
  }

  // ---- the civil calendar in closed form

  /** Leap days of the Gregorian calendar before a year: every fourth year, but not the hundredth, but the four
      hundredth. */
  function LeapsBefore(y: int): int {
    (y - 1) / 4 - (y - 1) / 100 + (y - 1) / 400
  }

  /** The number of a day, 1970-01-01 being zero, without a loop over years or months. */
  function Civil(year: int, month: int, day: int): int {
    365 * (year - 1970) + LeapsBefore(year) - 477 + day - 1
    + if month <= 2 then 31 * (month - 1)
      else (153 * (month - 3) + 2) / 5 + 59 + LeapsBefore(year + 1) - LeapsBefore(year)
  }

  lemma LeapStep(y: int)
    ensures LeapsBefore(y + 1) - LeapsBefore(y) == if IsLeap(y) then 1 else 0
  {
    Carry(y, 4);
    Carry(y, 100);
    Carry(y, 400);
    assert y % 100 == 0 ==> y % 4 == 0;
    assert y % 400 == 0 ==> y % 100 == 0;
  }

  lemma Carry(y: int, m: nat)
    requires m > 1
    ensures y / m - (y - 1) / m == if y % m == 0 then 1 else 0
  {
    var q, r := y / m, y % m;
    if r == 0 {
      Quotient(y - 1, q - 1, m - 1, m);
    } else {
      Quotient(y - 1, q, r - 1, m);
    }
  }

  lemma {:induction false} YearsClosed(y: int)
    ensures YearStart(y) == 365 * (y - 1970) + LeapsBefore(y) - 477
    decreases if y < 1970 then 1970 - y else y - 1970
  {
    hide IsLeap;
    if y > 1970 {
      YearsClosed(y - 1);
      LeapStep(y - 1);
    } else if y < 1970 {
      YearsClosed(y + 1);
      LeapStep(y);
    }
  }

  lemma MonthsClosed(y: int, m: nat)
    requires m <= 12
    ensures MonthStart(y, m) == if m < 2 then 31 * m
                                else (153 * (m - 2) + 2) / 5 + 59 + (if IsLeap(y) then 1 else 0)
  {
    TwelveMonths(y);
  }

  /** The day number counted through years and months is that of the calendar. */
  lemma DayNumberClosed(t: Time)
    requires 1 <= t.month <= 12
    ensures DayNumber(t) == Civil(t.year, t.month, t.day)
  {
    YearsClosed(t.year);
    MonthsClosed(t.year, t.month - 1);
    LeapStep(t.year);
    hide YearStart, MonthStart, IsLeap;
  }

  lemma TwelveMonths(y: int)
    ensures MonthStart(y, 12) == YearDays(y)
    ensures var leap := if IsLeap(y) then 1 else 0;
            && MonthStart(y, 1) == 31 && MonthStart(y, 2) == 59 + leap && MonthStart(y, 3) == 90 + leap
            && MonthStart(y, 4) == 120 + leap && MonthStart(y, 5) == 151 + leap && MonthStart(y, 6) == 181 + leap
            && MonthStart(y, 7) == 212 + leap && MonthStart(y, 8) == 243 + leap && MonthStart(y, 9) == 273 + leap
            && MonthStart(y, 10) == 304 + leap && MonthStart(y, 11) == 334 + leap
  {
    var leap := if IsLeap(y) then 1 else 0;
    assert MonthStart(y, 1) == 31;
    assert MonthStart(y, 2) == 59 + leap;
    assert MonthStart(y, 3) == 90 + leap;
    assert MonthStart(y, 4) == 120 + leap;
    assert MonthStart(y, 5) == 151 + leap;
    assert MonthStart(y, 6) == 181 + leap;
    assert MonthStart(y, 7) == 212 + leap;
    assert MonthStart(y, 8) == 243 + leap;
    assert MonthStart(y, 9) == 273 + leap;
    assert MonthStart(y, 10) == 304 + leap;
    assert MonthStart(y, 11) == 334 + leap;
  }

  lemma {:induction false} MonthGrows(y: int, m: nat, n: nat)
    requires m <= n <= 12
    ensures MonthStart(y, m) + 28 * (n - m) <= MonthStart(y, n)
  {
    if m < n {
      MonthGrows(y, m, n - 1);
    }
  }

  lemma {:induction false} YearGrows(y: int, z: int)
    requires y <= z
    ensures YearStart(y) + 365 * (z - y) <= YearStart(z)
    decreases z - y
  {
    if y < z {
      YearGrows(y, z - 1);
      YearStep(z - 1);
    }
  }

  function DayNumber(t: Time): int
    requires 1 <= t.month <= 12
  {
    YearStart(t.year) + MonthStart(t.year, t.month - 1) + t.day - 1
  }

  /** A date that exists, at a time of day that exists. */
  predicate Valid(t: Time) {
    && 1 <= t.month <= 12 && 1 <= t.day <= MonthDays(t.year, t.month - 1)
    && 0 <= t.hour < 24 && 0 <= t.min < 60 && 0 <= t.sec < 60
  }

  function Seconds(t: Time): int
    requires 1 <= t.month <= 12
  {
    DayNumber(t) * DAY + t.hour * 3600 + t.min * 60 + t.sec
  }

  /** The day of the week, Sunday zero, and of the year, agree with the date. */
  predicate DaysAgree(t: Time)
    requires 1 <= t.month <= 12
  {
    t.wday == (DayNumber(t) + 4) % 7 && t.yday == MonthStart(t.year, t.month - 1) + t.day - 1
  }

  /** The remainder of division toward zero. */
  function Rem(a: int, b: nat): int
    requires b > 0
  {
    a - Truncated(a, b) * b
  }

  method GmTime(t: int) returns (r: Time)
    ensures Valid(r) && Seconds(r) == t && DaysAgree(r)
    ensures t == Civil(r.year, r.month, r.day) * 86400 + r.hour * 3600 + r.min * 60 + r.sec
    ensures r.wday == (Civil(r.year, r.month, r.day) + 4) % 7
    ensures r.yday == Civil(r.year, r.month, r.day) - Civil(r.year, 1, 1)
  {
    hide YearStart, MonthStart, MonthDays, YearDays;
    var days, rem := Truncated(t, DAY), Rem(t, DAY);
    if rem < 0 {
      rem := rem + DAY;
      days := days - 1;
    }
    FloorDay(t);
    hide Truncated, Rem;
    var wday := Rem(days + 4, 7);
    if wday < 0 {
      wday := wday + 7;
    }
    WeekDay(days + 4);
    var year, left := FindYear(days);
    var month, day := FindMonth(year, left);
    r := Time(year, month + 1, day + 1, rem / 3600, rem % 3600 / 60, rem % 60, wday, left);
    TimeOfDay(rem);
    DayNumberClosed(r);
    YearBegins(year);
    hide Civil;
  }

  lemma YearBegins(y: int)
    ensures Civil(y, 1, 1) == YearStart(y)
  {
    YearsClosed(y);
  }

  lemma FloorDay(t: int)
    ensures 0 - DAY < Rem(t, DAY) < DAY
    ensures t == Truncated(t, DAY) * DAY + Rem(t, DAY)
  {
  }

  lemma WeekDay(n: int)
    ensures (if Rem(n, 7) < 0 then Rem(n, 7) + 7 else Rem(n, 7)) == n % 7
  {
  }

  lemma TimeOfDay(s: int)
    requires 0 <= s < DAY
    ensures 0 <= s / 3600 < 24 && 0 <= s % 3600 / 60 < 60 && 0 <= s % 60 < 60
    ensures s / 3600 * 3600 + s % 3600 / 60 * 60 + s % 60 == s
  {
  }

  /** The year a day is in and how far into it: forward a year at a time, or back. */
  method FindYear(number: int) returns (year: int, days: nat)
    ensures YearStart(year) + days == number && days < YearDays(year)
  {
    year := 1970;
    var left := number;
    while left >= YearDays(year)
      invariant YearStart(year) + left == number && (year > 1970 ==> left >= 0) && (left < 0 ==> year == 1970)
      decreases left
    {
      YearStep(year);
      left := left - YearDays(year);
      year := year + 1;
    }
    while left < 0
      invariant YearStart(year) + left == number && left < YearDays(year)
      decreases -left
    {
      year := year - 1;
      YearStep(year);
      left := left + YearDays(year);
    }
    days := left;
  }

  method FindMonth(year: int, number: nat) returns (month: nat, day: nat)
    requires number < YearDays(year)
    ensures month < 12 && MonthStart(year, month) + day == number && day < MonthDays(year, month)
  {
    TwelveMonths(year);
    month, day := 0, number;
    while day >= MonthDays(year, month)
      invariant month < 12 && MonthStart(year, month) + day == number
      decreases day
    {
      day := day - MonthDays(year, month);
      month := month + 1;
    }
  }

  /** Months past December count as December's end. */
  function Clamped(month: int): nat {
    if month < 1 then 0 else if month > 13 then 12 else month - 1
  }

  method MkTime(t: Time) returns (r: int)
    ensures r == ((YearStart(t.year) + MonthStart(t.year, Clamped(t.month)) + t.day - 1) * DAY
                  + t.hour * 3600 + t.min * 60 + t.sec)
    ensures Valid(t) ==> r == Seconds(t)
    ensures 1 <= t.month <= 12 ==>
              r == Civil(t.year, t.month, t.day) * 86400 + t.hour * 3600 + t.min * 60 + t.sec
  {
    var days := 0;
    var y := 1970;
    while y < t.year
      invariant y >= 1970 && days == YearStart(y) && (y <= t.year || y == 1970)
    {
      YearStep(y);
      days := days + YearDays(y);
      y := y + 1;
    }
    y := t.year;
    ghost var target := YearStart(t.year);
    while y < 1970
      invariant if t.year < 1970 then y <= 1970 && days == target - YearStart(y) else y == t.year && days == target
    {
      YearStep(y);
      days := days - YearDays(y);
      y := y + 1;
    }
    var m := 0;
    while m < t.month - 1 && m < 12
      invariant 0 <= m <= 12 && m <= (if t.month < 1 then 0 else t.month - 1) && days == target + MonthStart(t.year, m)
    {
      days := days + MonthDays(t.year, m);
      m := m + 1;
    }
    days := days + t.day - 1;
    if 1 <= t.month <= 12 {
      DayNumberClosed(t);
    }
    hide Civil, MonthStart, YearStart, MonthDays, IsLeap;
    r := days * DAY + t.hour * 3600 + t.min * 60 + t.sec;
  }

  /** A second has one date. */
  lemma SameDate(a: Time, b: Time)
    requires Valid(a) && Valid(b) && Seconds(a) == Seconds(b)
    ensures a.year == b.year && a.month == b.month && a.day == b.day && a.hour == b.hour && a.min == b.min
    ensures a.sec == b.sec
  {
    hide YearStart, MonthStart, MonthDays;
    DaySeconds(a, b);
    WithinYear(a);
    WithinYear(b);
    OneYear(a.year, a.day - 1 + MonthStart(a.year, a.month - 1), b.year, b.day - 1 + MonthStart(b.year, b.month - 1));
    OneMonth(a.year, a.month - 1, a.day - 1, b.month - 1, b.day - 1);
  }

  lemma DaySeconds(a: Time, b: Time)
    requires Valid(a) && Valid(b) && Seconds(a) == Seconds(b)
    ensures DayNumber(a) == DayNumber(b) && a.hour == b.hour && a.min == b.min && a.sec == b.sec
  {
    hide DayNumber;
  }

  lemma WithinYear(t: Time)
    requires Valid(t)
    ensures 0 <= MonthStart(t.year, t.month - 1) + t.day - 1 < YearDays(t.year)
  {
    MonthGrows(t.year, t.month, 12);
    TwelveMonths(t.year);
  }

  lemma OneYear(y: int, d: nat, z: int, e: nat)
    requires YearStart(y) + d == YearStart(z) + e && d < YearDays(y) && e < YearDays(z)
    ensures y == z && d == e
  {
    hide YearStart;
    YearStep(y);
    YearStep(z);
    if y < z {
      YearGrows(y + 1, z);
    } else if z < y {
      YearGrows(z + 1, y);
    }
  }

  lemma OneMonth(y: int, m: nat, d: nat, n: nat, e: nat)
    requires m < 12 && n < 12 && MonthStart(y, m) + d == MonthStart(y, n) + e && d < MonthDays(y, m)
    requires e < MonthDays(y, n)
    ensures m == n && d == e
  {
    assert MonthStart(y, m + 1) == MonthStart(y, m) + MonthDays(y, m);
    assert MonthStart(y, n + 1) == MonthStart(y, n) + MonthDays(y, n);
    hide MonthStart, MonthDays;
    if m < n {
      MonthGrows(y, m + 1, n);
    } else if n < m {
      MonthGrows(y, n + 1, m);
    }
  }

  /** There and back, from seconds and from a date. */
  method SecondsRoundTrip(t: int) returns (back: int)
    ensures back == t
  {
    var r := GmTime(t);
    back := MkTime(r);
  }

  method DateRoundTrip(d: Time) returns (back: Time)
    requires Valid(d) && DaysAgree(d)
    ensures back == d
  {
    var s := MkTime(d);
    back := GmTime(s);
    SameDate(back, d);
  }
}
