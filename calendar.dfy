/**
 * Proleptic Gregorian calendar arithmetic on whole local days, as the planner
 * obtains it from JavaScript's `Date` in local time. Day number 0 is
 * 1970-01-01; `DayNumber` normalises month and day overflow exactly as
 * `new Date(y, m - 1, d)` does, and `FromDayNumber` reads the calendar date back.
 */
module Calendar {

  import opened Wrappers
  import opened Text

  datatype Ymd = Ymd(year: int, month: int, day: int)

  predicate IsLeap(y: int) {
    y % 4 == 0 && (y % 100 != 0 || y % 400 == 0)
  }

  function DaysInYear(y: int): int {
    if IsLeap(y) then 366 else 365
  }

  function DaysInMonth(y: int, m: int): int
    requires 1 <= m <= 12
  {
    if m == 2 then (if IsLeap(y) then 29 else 28)
    else if m == 4 || m == 6 || m == 9 || m == 11 then 30
    else 31
  }

  predicate ValidYmd(d: Ymd) {
    1 <= d.month <= 12 && 1 <= d.day <= DaysInMonth(d.year, d.month)
  }

  /** Leap years among 1..x (extended to all integers by floor division). */
  function LeapsThrough(x: int): int {
    x / 4 - x / 100 + x / 400
  }

  /** Days from 1970-01-01 to January 1 of year `y`. */
  function DaysBeforeYear(y: int): int {
    365 * (y - 1970) + LeapsThrough(y - 1) - LeapsThrough(1969)
  }

  /** Days from January 1 to the first of month `m` in year `y`. */
  function DaysBeforeMonth(y: int, m: int): (r: int)
    requires 1 <= m <= 12
  {
    var leap := if IsLeap(y) && m > 2 then 1 else 0;
    var before :=
      if m <= 6 then
        (if m == 1 then 0 else if m == 2 then 31 else if m == 3 then 59
         else if m == 4 then 90 else if m == 5 then 120 else 151)
      else
        (if m == 7 then 181 else if m == 8 then 212 else if m == 9 then 243
         else if m == 10 then 273 else if m == 11 then 304 else 334);
    before + leap
  }

  /** The local day number of `new Date(y, m - 1, d)`: the month index wraps into the year, the day is an offset from the first. */
  function DayNumber(d: Ymd): int {
    var y := d.year + (d.month - 1) / 12;
    var m := (d.month - 1) % 12 + 1;
    DaysBeforeYear(y) + DaysBeforeMonth(y, m) + d.day - 1
  }

  /** Floor division by a positive constant steps by one exactly at multiples. */
  lemma DivStep(y: int, k: int)
    requires k == 4 || k == 100 || k == 400
    ensures y / k - (y - 1) / k == if y % k == 0 then 1 else 0
  {
    var q, r := y / k, y % k;
    assert y == k * q + r && 0 <= r < k;
    if r == 0 {
      assert y - 1 == k * (q - 1) + (k - 1);
    } else {
      assert y - 1 == k * q + (r - 1);
    }
  }

  lemma YearStep(y: int)
    ensures DaysBeforeYear(y + 1) == DaysBeforeYear(y) + DaysInYear(y)
  {
    DivStep(y, 4);
    DivStep(y, 100);
    DivStep(y, 400);
  }

  lemma {:induction false} YearsGrow(a: int, b: int)
    requires a <= b
    ensures DaysBeforeYear(a) + 365 * (b - a) <= DaysBeforeYear(b)
    decreases b - a
  {
    if a < b {
      YearStep(b - 1);
      YearsGrow(a, b - 1);
    }
  }

  /** The year holding day `n`, searching upward from a year that starts no later than `n`. */
  function YearUp(n: int, y: int): (r: int)
    requires DaysBeforeYear(y) <= n
    ensures DaysBeforeYear(r) <= n < DaysBeforeYear(r + 1)
    decreases n - DaysBeforeYear(y)
  {
    YearStep(y);
    if n < DaysBeforeYear(y + 1) then y else YearUp(n, y + 1)
  }

  /** The year holding day `n`, searching downward from a year that ends after `n`. */
  function YearDown(n: int, y: int): (r: int)
    requires n < DaysBeforeYear(y + 1)
    ensures DaysBeforeYear(r) <= n < DaysBeforeYear(r + 1)
    decreases DaysBeforeYear(y + 1) - n
  {
    YearStep(y);
    if DaysBeforeYear(y) <= n then y else YearDown(n, y - 1)
  }

  function YearOf(n: int): (r: int)
    ensures DaysBeforeYear(r) <= n < DaysBeforeYear(r + 1)
  {
    if n >= 0 then YearUp(n, 1970) else YearDown(n, 1969)
  }

  /** The month holding day `dayOfYear` (0-based) of year `y`, searching upward from month `m`. */
  function MonthFrom(y: int, dayOfYear: int, m: int): (r: int)
    requires 1 <= m <= 12 && DaysBeforeMonth(y, m) <= dayOfYear < DaysInYear(y)
    ensures m <= r <= 12
    ensures DaysBeforeMonth(y, r) <= dayOfYear < DaysBeforeMonth(y, r) + DaysInMonth(y, r)
    decreases 12 - m
  {
    if m == 12 || dayOfYear < DaysBeforeMonth(y, m + 1) then m else MonthFrom(y, dayOfYear, m + 1)
  }

  /** The calendar date of local day number `n`. */
  function FromDayNumber(n: int): (d: Ymd)
    ensures ValidYmd(d) && DayNumber(d) == n
  {
    var y := YearOf(n);
    YearStep(y);
    var m := MonthFrom(y, n - DaysBeforeYear(y), 1);
    var k := n - DaysBeforeYear(y) - DaysBeforeMonth(y, m) + 1;
    InMonthDayNumber(y, m, k);
    Ymd(y, m, k)
  }

  /** With the month in range, the day number adds up the year, the month and the day. */
  lemma InMonthDayNumber(y: int, m: int, k: int)
    requires 1 <= m <= 12
    ensures DayNumber(Ymd(y, m, k)) == DaysBeforeYear(y) + DaysBeforeMonth(y, m) + k - 1
  {
    assert (m - 1) / 12 == 0 && (m - 1) % 12 + 1 == m;
  }

  /** For a valid date no normalisation happens: the day number is the year's start plus the day of the year. */
  lemma ValidDayNumber(d: Ymd)
    requires ValidYmd(d)
    ensures DayNumber(d) == DaysBeforeYear(d.year) + DaysBeforeMonth(d.year, d.month) + d.day - 1
    ensures DaysBeforeYear(d.year) <= DayNumber(d) < DaysBeforeYear(d.year + 1)
  {
    assert d == Ymd(d.year, d.month, d.day);
    InMonthDayNumber(d.year, d.month, d.day);
    MonthInYear(d.year, d.month);
    YearStep(d.year);
  }

  lemma MonthInYear(y: int, m: int)
    requires 1 <= m <= 12
    ensures DaysBeforeMonth(y, m) + DaysInMonth(y, m) <= DaysInYear(y)
  {
  }

  lemma MonthsGrow(y: int, a: int, b: int)
    requires 1 <= a < b <= 12
    ensures DaysBeforeMonth(y, a) + DaysInMonth(y, a) <= DaysBeforeMonth(y, b)
  {
  }

  /** Each day lies in exactly one year. */
  lemma {:induction false} OneYear(n: int, y1: int, y2: int)
    requires DaysBeforeYear(y1) <= n < DaysBeforeYear(y1 + 1)
    requires DaysBeforeYear(y2) <= n < DaysBeforeYear(y2 + 1)
    ensures y1 == y2
  {
    if y1 < y2 {
      YearsGrow(y1 + 1, y2);
    } else if y2 < y1 {
      YearsGrow(y2 + 1, y1);
    }
  }

  /** Two valid dates with the same day number are the same date. */
  lemma SameDayNumber(a: Ymd, b: Ymd)
    requires ValidYmd(a) && ValidYmd(b) && DayNumber(a) == DayNumber(b)
    ensures a == b
  {
    ValidDayNumber(a);
    ValidDayNumber(b);
    OneYear(DayNumber(a), a.year, b.year);
    if a.month < b.month {
      MonthsGrow(a.year, a.month, b.month);
    } else if b.month < a.month {
      MonthsGrow(a.year, b.month, a.month);
    }
  }

  /** Day numbers from 0001-01-01... on fall in years that are not negative. */
  lemma NonNegativeYear(n: int)
    requires n >= DaysBeforeYear(0)
    ensures FromDayNumber(n).year >= 0
  {
    var d := FromDayNumber(n);
    ValidDayNumber(d);
    if d.year < 0 {
      YearsGrow(d.year + 1, 0);
    }
  }

  /** Reading a valid date's day number back gives the date. */
  lemma FromDayNumberOf(d: Ymd)
    requires ValidYmd(d)
    ensures FromDayNumber(DayNumber(d)) == d
  {
    SameDayNumber(FromDayNumber(DayNumber(d)), d);
  }

  /** The date that follows a valid date on the calendar. */
  function Following(d: Ymd): (r: Ymd)
    requires ValidYmd(d)
    ensures ValidYmd(r)
  {
    if d.day < DaysInMonth(d.year, d.month) then Ymd(d.year, d.month, d.day + 1)
    else if d.month < 12 then Ymd(d.year, d.month + 1, 1)
    else Ymd(d.year + 1, 1, 1)
  }

  /** Within a year, the next month starts right after the last day of this one. */
  lemma MonthStep(y: int, m: int)
    requires 1 <= m < 12
    ensures DaysBeforeMonth(y, m + 1) == DaysBeforeMonth(y, m) + DaysInMonth(y, m)
  {
  }

  /** Inside a month, the next day of the month is the next day number. */
  lemma DayStep(y: int, m: int, k: int)
    requires 1 <= m <= 12
    ensures DayNumber(Ymd(y, m, k + 1)) == DayNumber(Ymd(y, m, k)) + 1
  {
    InMonthDayNumber(y, m, k);
    InMonthDayNumber(y, m, k + 1);
  }

  /** The first of the next month follows the last day of this one. */
  lemma MonthRollStep(y: int, m: int)
    requires 1 <= m < 12
    ensures DayNumber(Ymd(y, m + 1, 1)) == DayNumber(Ymd(y, m, DaysInMonth(y, m))) + 1
  {
    InMonthDayNumber(y, m, DaysInMonth(y, m));
    InMonthDayNumber(y, m + 1, 1);
    MonthStep(y, m);
  }

  /** January 1 follows December 31. */
  lemma YearRollStep(y: int)
    ensures DayNumber(Ymd(y + 1, 1, 1)) == DayNumber(Ymd(y, 12, 31)) + 1
  {
    InMonthDayNumber(y, 12, 31);
    InMonthDayNumber(y + 1, 1, 1);
    assert DaysBeforeMonth(y, 12) + 31 == DaysInYear(y);
    YearStep(y);
  }

  lemma NextInMonth(d: Ymd)
    requires ValidYmd(d) && d.day < DaysInMonth(d.year, d.month)
    ensures DayNumber(Following(d)) == DayNumber(d) + 1
  {
    assert d == Ymd(d.year, d.month, d.day);
    assert Following(d) == Ymd(d.year, d.month, d.day + 1);
    DayStep(d.year, d.month, d.day);
  }

  lemma NextMonth(d: Ymd)
    requires ValidYmd(d) && d.day == DaysInMonth(d.year, d.month) && d.month < 12
    ensures DayNumber(Following(d)) == DayNumber(d) + 1
  {
    assert d == Ymd(d.year, d.month, DaysInMonth(d.year, d.month));
    assert Following(d) == Ymd(d.year, d.month + 1, 1);
    MonthRollStep(d.year, d.month);
  }

  lemma NextYear(d: Ymd)
    requires ValidYmd(d) && d.day == DaysInMonth(d.year, d.month) && d.month == 12
    ensures DayNumber(Following(d)) == DayNumber(d) + 1
  {
    assert d == Ymd(d.year, 12, 31);
    assert Following(d) == Ymd(d.year + 1, 1, 1);
    YearRollStep(d.year);
  }

  lemma FollowingIsNextNumber(d: Ymd)
    requires ValidYmd(d)
    ensures DayNumber(Following(d)) == DayNumber(d) + 1
  {
    if d.day < DaysInMonth(d.year, d.month) {
      NextInMonth(d);
    } else if d.month < 12 {
      NextMonth(d);
    } else {
      NextYear(d);
    }
  }

  /** The day after a date, with month and year rollover. */
  lemma NextDay(d: Ymd)
    requires ValidYmd(d)
    ensures FromDayNumber(DayNumber(d) + 1) ==
      if d.day < DaysInMonth(d.year, d.month) then Ymd(d.year, d.month, d.day + 1)
      else if d.month < 12 then Ymd(d.year, d.month + 1, 1)
      else Ymd(d.year + 1, 1, 1)
  {
    FollowingIsNextNumber(d);
    SameDayNumber(FromDayNumber(DayNumber(d) + 1), Following(d));
  }

  // ---------------------------------------------------------------- weekday and text forms

  /** `getDay()`: 0 is Sunday; 1970-01-01 was a Thursday. */
  function Weekday(n: int): (w: int)
    ensures 0 <= w < 7
  {
    (n + 4) % 7
  }

  /** Consecutive day numbers fall on consecutive weekdays, Saturday wrapping to Sunday. */
  lemma WeekdayNext(n: int)
    ensures Weekday(n + 1) == (Weekday(n) + 1) % 7
  {
    var q := (n + 4) / 7;
    assert n + 4 == 7 * q + Weekday(n);
    if Weekday(n) == 6 {
      assert n + 5 == 7 * (q + 1);
    } else {
      assert n + 5 == 7 * q + (Weekday(n) + 1);
    }
  }

  /** The weekday advances by one from each calendar day to the next. */
  lemma WeekdayOfFollowing(d: Ymd)
    requires ValidYmd(d)
    ensures Weekday(DayNumber(Following(d))) == (Weekday(DayNumber(d)) + 1) % 7
  {
    var n := DayNumber(d);
    FollowingIsNextNumber(d);
    WeekdayNext(n);
  }

  /** 1970-01-01, day number 0, was a Thursday. */
  lemma EpochIsThursday()
    ensures Weekday(DayNumber(Ymd(1970, 1, 1))) == 4
  {
    InMonthDayNumber(1970, 1, 1);
  }

  /** The weekday names the planner shows, Sunday first. */
  const WeekdayNames: seq<string> := ["日", "一", "二", "三", "四", "五", "六"]

  /** `${year}-${String(month).padStart(2, '0')}-${String(day).padStart(2, '0')}`. */
  function FormatYmd(d: Ymd): string
    requires d.month >= 0 && d.day >= 0
  {
    IntToString(d.year) + "-" + Pad2(d.month) + "-" + Pad2(d.day)
  }

  /** The ISO form the planner writes for a day number. */
  function FormatIso(n: int): string {
    FormatYmd(FromDayNumber(n))
  }

  /** `s.split('-').map(Number)` taken as [year, month, day]: `None` where JavaScript would read `NaN`. */
  function ParseIso(s: string): (r: Option<Ymd>)
  {
    var parts := SplitOn(s, "-");
    if |parts| >= 3 && AllDigits(parts[0]) && AllDigits(parts[1]) && AllDigits(parts[2])
    then Some(Ymd(ParseNat(parts[0]), ParseNat(parts[1]), ParseNat(parts[2])))
    else None
  }

  /** The local day number a date string denotes, as `new Date(y, m - 1, d)` reads it. */
  function DayNumberOf(s: string): Option<int> {
    match ParseIso(s)
    case Some(d) => Some(DayNumber(d))
    case None => None
  }

  /** Reading back the text of a date with a non-negative year gives the same fields. */
  lemma ParseFormatYmd(d: Ymd)
    requires d.year >= 0 && d.month >= 0 && d.day >= 0
    ensures ParseIso(FormatYmd(d)) == Some(d)
  {
    var ys, ms, ds := NatToString(d.year), Pad2(d.month), Pad2(d.day);
    assert FormatYmd(d) == ys + "-" + (ms + "-" + ds);
    DigitsHaveNo(ys, "-");
    DigitsHaveNo(ms, "-");
    DigitsHaveNo(ds, "-");
    SplitAfterPiece(ys, "-", ms + "-" + ds);
    SplitAfterPiece(ms, "-", ds);
    SplitSingle(ds, "-");
    ParseNatToString(d.year);
    ParsePad2(d.month);
    ParsePad2(d.day);
  }

  /** Writing a day number in ISO form and reading it back gives the same day (years 0 and later). */
  lemma ParseFormatIso(n: int)
    requires FromDayNumber(n).year >= 0
    ensures ParseIso(FormatIso(n)) == Some(FromDayNumber(n))
    ensures DayNumberOf(FormatIso(n)) == Some(n)
  {
    ParseFormatYmd(FromDayNumber(n));
  }

  /** `M/D (W)`: the planner's display form of a day number. */
  function FormatDisplay(n: int): string {
    var d := FromDayNumber(n);
    NatToString(d.month) + "/" + NatToString(d.day) + " (" + WeekdayNames[Weekday(n)] + ")"
  }
}
