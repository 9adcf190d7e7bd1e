/**
 * Abstract timestamps for the JavaScript `Date` values the stores use.
 *
 * A calendar date is a proleptic Gregorian (year, month, day); an instant is a
 * date plus the milliseconds elapsed since midnight, read in UTC. `DayNumber`
 * counts days from 1970-01-01, so `EpochMs` is `Date.prototype.getTime()`.
 * `MakeDate` is the normalisation ECMAScript applies when `setDate`, `setMonth`
 * or `setFullYear` is given an out-of-range value (its MakeDay operation):
 * the month is reduced modulo 12 into the year, and the day counts forward or
 * backward from the first of that month.
 */
module CivilTime {
  import opened Wrappers
  import Text

  const MsPerDay: int := 86400000

  predicate IsLeapYear(y: int) {
    y % 4 == 0 && (y % 100 != 0 || y % 400 == 0)
  }

  function DaysInMonth(y: int, m: int): (n: int)
    requires 1 <= m <= 12
    ensures 28 <= n <= 31
  {
    if m == 2 then (if IsLeapYear(y) then 29 else 28)
    else if m == 4 || m == 6 || m == 9 || m == 11 then 30
    else 31
  }

  function DaysInYear(y: int): int {
    if IsLeapYear(y) then 366 else 365
  }

  datatype Date = Date(year: int, month: int, day: int)

  /** A date that exists on the calendar. */
  type CivilDate = d: Date | 1 <= d.month <= 12 && 1 <= d.day <= DaysInMonth(d.year, d.month)
    witness Date(1970, 1, 1)

  /** Milliseconds since midnight. */
  type TimeOfDay = ms: int | 0 <= ms < 86400000

  /** A `Date` value: a calendar date and a time of day. */
  datatype Instant = Instant(date: CivilDate, ms: TimeOfDay)

  /** The calendar day after `d`. */
  function NextDay(d: CivilDate): CivilDate {
    if d.day < DaysInMonth(d.year, d.month) then Date(d.year, d.month, d.day + 1)
    else if d.month < 12 then Date(d.year, d.month + 1, 1)
    else Date(d.year + 1, 1, 1)
  }

  /** The calendar day before `d`. */
  function PrevDay(d: CivilDate): CivilDate {
    if d.day > 1 then Date(d.year, d.month, d.day - 1)
    else if d.month > 1 then Date(d.year, d.month - 1, DaysInMonth(d.year, d.month - 1))
    else Date(d.year - 1, 12, 31)
  }

  /** The date `n` days after `d` (before it when `n` is negative). */
  function AddDays(d: CivilDate, n: int): CivilDate
    decreases if n < 0 then -n else n
  {
    if n == 0 then d
    else if n > 0 then AddDays(NextDay(d), n - 1)
    else AddDays(PrevDay(d), n + 1)
  }

  /**
   * ECMAScript's MakeDay with a 1-based month: the date `day - 1` days after the
   * first of month `m` of year `y`, where `m` may lie outside 1..12 and `day`
   * outside the month.
   */
  function MakeDate(y: int, m: int, day: int): CivilDate {
    AddDays(Date(y + (m - 1) / 12, (m - 1) % 12 + 1, 1), day - 1)
  }

  /** `date.setDate(x)`. */
  function SetDate(d: CivilDate, x: int): CivilDate {
    MakeDate(d.year, d.month, x)
  }

  /** `date.setMonth(x)`, with `x` a 1-based month. */
  function SetMonth(d: CivilDate, x: int): CivilDate {
    MakeDate(d.year, x, d.day)
  }

  /** `date.setFullYear(x)`. */
  function SetFullYear(d: CivilDate, x: int): CivilDate {
    MakeDate(x, d.month, d.day)
  }

  /** Days in the months of year `y` before month `m`. */
  function DaysBeforeMonth(y: int, m: int): int
    requires 1 <= m <= 12
  {
    [0, 31, 59, 90, 120, 151, 181, 212, 243, 273, 304, 334][m - 1]
    + (if m > 2 && IsLeapYear(y) then 1 else 0)
  }

  /** Leap years among 1..x (with floor division, so also right for x < 1 as a difference). */
  function LeapYearsThrough(x: int): int {
    x / 4 - x / 100 + x / 400
  }

  /** Days from 1970-01-01 to the first of January of `y`. */
  function DaysBeforeYear(y: int): int {
    365 * (y - 1970) + LeapYearsThrough(y - 1) - LeapYearsThrough(1969)
  }

  /** Days from 1970-01-01 to `d`. */
  function DayNumber(d: CivilDate): int {
    DaysBeforeYear(d.year) + DaysBeforeMonth(d.year, d.month) + d.day - 1
  }

  /** `date.getTime()`: milliseconds since the epoch. */
  function EpochMs(t: Instant): int {
    DayNumber(t.date) * 86400000 + t.ms
  }

  /** Lexicographic order on (year, month, day). */
  predicate Before(a: CivilDate, b: CivilDate) {
    a.year < b.year
    || (a.year == b.year && (a.month < b.month || (a.month == b.month && a.day < b.day)))
  }

  lemma {:induction false} DivStep4(a: int)
    ensures a / 4 - (a - 1) / 4 == if a % 4 == 0 then 1 else 0
  {
  }

  lemma {:induction false} DivStep100(a: int)
    ensures a / 100 - (a - 1) / 100 == if a % 100 == 0 then 1 else 0
  {
  }

  lemma {:induction false} DivStep400(a: int)
    ensures a / 400 - (a - 1) / 400 == if a % 400 == 0 then 1 else 0
  {
  }

  /** Multiples of 100 are multiples of 4. */
  lemma {:induction false} Multiple100(y: int)
    requires y % 100 == 0
    ensures y % 4 == 0
  {
    var k := y / 100;
    assert y == 100 * k;
    assert y == 4 * (25 * k) + 0;
  }

  /** Multiples of 400 are multiples of 100. */
  lemma {:induction false} Multiple400(y: int)
    requires y % 400 == 0
    ensures y % 100 == 0
  {
    var k := y / 400;
    assert y == 400 * k;
    assert y == 100 * (4 * k) + 0;
  }

  /** A year is exactly as long as the leap-year rule says. */
  lemma {:induction false} YearStep(y: int)
    ensures DaysBeforeYear(y + 1) == DaysBeforeYear(y) + DaysInYear(y)
  {
    var d4, d100, d400 := y / 4 - (y - 1) / 4, y / 100 - (y - 1) / 100, y / 400 - (y - 1) / 400;
    DivStep4(y);
    DivStep100(y);
    DivStep400(y);
    if y % 100 == 0 {
      Multiple100(y);
    }
    if y % 400 == 0 {
      Multiple400(y);
    }
    assert LeapYearsThrough(y) - LeapYearsThrough(y - 1) == d4 - d100 + d400;
    assert d4 - d100 + d400 == if IsLeapYear(y) then 1 else 0;
    assert DaysBeforeYear(y + 1) - DaysBeforeYear(y) == 365 + LeapYearsThrough(y) - LeapYearsThrough(y - 1);
  }

  lemma {:induction false} DaysBeforeYearMonotone(a: int, b: int)
    requires a < b
    ensures DaysBeforeYear(a) + DaysInYear(a) <= DaysBeforeYear(b)
    decreases b - a
  {
    YearStep(a);
    if a + 1 < b {
      DaysBeforeYearMonotone(a + 1, b);
    }
  }

  lemma {:induction false} MonthStep(y: int, m: int)
    requires 1 <= m < 12
    ensures DaysBeforeMonth(y, m + 1) == DaysBeforeMonth(y, m) + DaysInMonth(y, m)
  {
  }

  lemma {:induction false} DaysBeforeMonthMonotone(y: int, a: int, b: int)
    requires 1 <= a < b <= 12
    ensures DaysBeforeMonth(y, a) + DaysInMonth(y, a) <= DaysBeforeMonth(y, b)
  {
  }

  /** A date's day number lies within its year. */
  lemma {:induction false} DayNumberInYear(d: CivilDate)
    ensures DaysBeforeYear(d.year) <= DayNumber(d) < DaysBeforeYear(d.year) + DaysInYear(d.year)
  {
    if d.month < 12 {
      DaysBeforeMonthMonotone(d.year, d.month, 12);
    }
  }

  /** The day after has the next day number. */
  lemma {:induction false} DayNumberNext(d: CivilDate)
    ensures DayNumber(NextDay(d)) == DayNumber(d) + 1
  {
    if d.day == DaysInMonth(d.year, d.month) {
      if d.month < 12 {
        MonthStep(d.year, d.month);
      } else {
        YearStep(d.year);
      }
    }
  }

  lemma {:induction false} NextPrev(d: CivilDate)
    ensures NextDay(PrevDay(d)) == d
    ensures PrevDay(NextDay(d)) == d
  {
  }

  /** `AddDays` moves the day number by exactly `n`. */
  lemma {:induction false} DayNumberAddDays(d: CivilDate, n: int)
    ensures DayNumber(AddDays(d, n)) == DayNumber(d) + n
  {
    if n >= 0 {
      DayNumberForward(d, n);
    } else {
      DayNumberBackward(d, -n);
    }
  }

  lemma {:induction false} DayNumberForward(d: CivilDate, n: nat)
    ensures DayNumber(AddDays(d, n)) == DayNumber(d) + n
    decreases n
  {
    if n > 0 {
      assert AddDays(d, n) == AddDays(NextDay(d), n - 1);
      DayNumberNext(d);
      DayNumberForward(NextDay(d), n - 1);
    }
  }

  lemma {:induction false} DayNumberBackward(d: CivilDate, n: nat)
    ensures DayNumber(AddDays(d, -(n as int))) == DayNumber(d) - n
    decreases n
  {
    if n > 0 {
      assert AddDays(d, -(n as int)) == AddDays(PrevDay(d), -(n as int) + 1);
      NextPrev(d);
      DayNumberNext(PrevDay(d));
      DayNumberBackward(PrevDay(d), n - 1);
    }
  }

  /** Calendar order and day-number order agree. */
  lemma {:induction false} DayNumberOrder(a: CivilDate, b: CivilDate)
    requires Before(a, b)
    ensures DayNumber(a) < DayNumber(b)
  {
    if a.year < b.year {
      DayNumberInYear(a);
      DayNumberInYear(b);
      DaysBeforeYearMonotone(a.year, b.year);
    } else if a.month < b.month {
      DaysBeforeMonthMonotone(a.year, a.month, b.month);
    }
  }

  /** Distinct dates have distinct day numbers. */
  lemma {:induction false} DayNumberInjective(a: CivilDate, b: CivilDate)
    requires DayNumber(a) == DayNumber(b)
    ensures a == b
  {
    if Before(a, b) {
      DayNumberOrder(a, b);
    } else if Before(b, a) {
      DayNumberOrder(b, a);
    }
  }

  /** Moving by `a` days and then by `b` days is moving by `a + b` days. */
  lemma {:induction false} AddDaysAdd(d: CivilDate, a: int, b: int)
    ensures AddDays(AddDays(d, a), b) == AddDays(d, a + b)
  {
    var x, y := AddDays(AddDays(d, a), b), AddDays(d, a + b);
    DayNumberAddDays(d, a);
    DayNumberAddDays(AddDays(d, a), b);
    DayNumberAddDays(d, a + b);
    assert DayNumber(x) == DayNumber(y);
    DayNumberInjective(x, y);
  }

  /** Inside one month, moving by `k` days just changes the day of the month. */
  lemma {:induction false} AddDaysWithinMonth(d: CivilDate, k: nat)
    requires d.day + k <= DaysInMonth(d.year, d.month)
    ensures AddDays(d, k) == Date(d.year, d.month, d.day + k)
    decreases k
  {
    if k > 0 {
      AddDaysWithinMonth(NextDay(d), k - 1);
    }
  }

  /** On a date that exists, `MakeDate` is the identity: no normalisation happens. */
  lemma {:induction false} MakeDateExact(d: CivilDate)
    ensures MakeDate(d.year, d.month, d.day) == d
  {
    AddDaysWithinMonth(Date(d.year, d.month, 1), d.day - 1);
  }

  /** `setDate(getDate() + k)` moves the date by exactly `k` days, across month and year ends. */
  lemma {:induction false} SetDateShift(d: CivilDate, k: int)
    ensures SetDate(d, d.day + k) == AddDays(d, k)
  {
    var first: CivilDate := Date(d.year, d.month, 1);
    assert (d.month - 1) / 12 == 0 && (d.month - 1) % 12 + 1 == d.month;
    assert SetDate(d, d.day + k) == AddDays(first, d.day - 1 + k);
    AddDaysWithinMonth(first, d.day - 1);
    AddDaysAdd(first, d.day - 1, k);
  }

  /** `setDate(getDate() + k)` on an instant moves its time by exactly `k` days of milliseconds. */
  lemma {:induction false} SetDateShiftMs(t: Instant, x: int, k: int)
    requires x == t.date.day + k
    ensures Instant(SetDate(t.date, x), t.ms) == Instant(AddDays(t.date, k), t.ms)
    ensures EpochMs(Instant(SetDate(t.date, x), t.ms)) == EpochMs(t) + k * MsPerDay
  {
    SetDateShift(t.date, k);
    var d := AddDays(t.date, k);
    DayNumberAddDays(t.date, k);
    assert DayNumber(d) == DayNumber(t.date) + k;
    assert EpochMs(Instant(d, t.ms)) == (DayNumber(t.date) + k) * MsPerDay + t.ms;
  }

  /** The month after month `m` of year `y`, as (year, month). */
  function MonthAfter(y: int, m: int): (int, int)
    requires 1 <= m <= 12
  {
    if m == 12 then (y + 1, 1) else (y, m + 1)
  }

  /**
   * `setMonth(getMonth() + 1)`: the same day of the next month when that month
   * has it; otherwise the overflow spills into the month after, so that
   * January 31 becomes March 3 (March 2 in a leap year).
   */
  lemma {:induction false} NextMonth(d: CivilDate)
    ensures var (y1, m1) := MonthAfter(d.year, d.month);
      && (d.day <= DaysInMonth(y1, m1) ==> SetMonth(d, d.month + 1) == Date(y1, m1, d.day))
      && (d.day > DaysInMonth(y1, m1) ==>
            var (y2, m2) := MonthAfter(y1, m1);
            SetMonth(d, d.month + 1) == Date(y2, m2, d.day - DaysInMonth(y1, m1)))
  {
    var (y1, m1) := MonthAfter(d.year, d.month);
    SetMonthNext(d);
    var first: CivilDate := Date(y1, m1, 1);
    var dim := DaysInMonth(y1, m1);
    if d.day <= dim {
      AddDaysWithinMonth(first, d.day - 1);
    } else {
      SpillIntoNext(y1, m1, d.day - dim);
    }
  }

  /** `setMonth(getMonth() + 1)` counts the day from the first of the next month. */
  lemma {:induction false} SetMonthNext(d: CivilDate)
    ensures var (y1, m1) := MonthAfter(d.year, d.month);
      SetMonth(d, d.month + 1) == AddDays(Date(y1, m1, 1), d.day - 1)
  {
    assert (d.month + 1 - 1) / 12 == if d.month == 12 then 1 else 0;
  }

  /** Counting `k` days past the last day of a month lands on day `k` of the month after it. */
  lemma {:induction false} SpillIntoNext(y: int, m: int, k: int)
    requires 1 <= m <= 12 && 1 <= k <= DaysInMonth(MonthAfter(y, m).0, MonthAfter(y, m).1)
    ensures var (y2, m2) := MonthAfter(y, m);
      AddDays(Date(y, m, 1), DaysInMonth(y, m) - 1 + k) == Date(y2, m2, k)
  {
    var (y2, m2) := MonthAfter(y, m);
    var first: CivilDate := Date(y, m, 1);
    var dim := DaysInMonth(y, m);
    AddDaysWithinMonth(first, dim - 1);
    AddDaysAdd(first, dim - 1, k);
    var last: CivilDate := Date(y, m, dim);
    assert NextDay(last) == Date(y2, m2, 1);
    assert AddDays(last, k) == AddDays(Date(y2, m2, 1), k - 1);
    AddDaysWithinMonth(Date(y2, m2, 1), k - 1);
  }

  /** The month before month `m` of year `y`, as (year, month). */
  function MonthBefore(y: int, m: int): (int, int)
    requires 1 <= m <= 12
  {
    if m == 1 then (y - 1, 12) else (y, m - 1)
  }

  /**
   * `setMonth(getMonth() - 1)`: the same day of the previous month when that
   * month has it; otherwise the overflow spills back into the current month,
   * so that March 31 becomes March 3 (March 2 in a leap year).
   */
  lemma {:induction false} PrevMonth(d: CivilDate)
    ensures var (y0, m0) := MonthBefore(d.year, d.month);
      && (d.day <= DaysInMonth(y0, m0) ==> SetMonth(d, d.month - 1) == Date(y0, m0, d.day))
      && (d.day > DaysInMonth(y0, m0) ==> SetMonth(d, d.month - 1) == Date(d.year, d.month, d.day - DaysInMonth(y0, m0)))
  {
    var (y0, m0) := MonthBefore(d.year, d.month);
    assert (d.month - 1 - 1) / 12 == if d.month == 1 then -1 else 0;
    var first: CivilDate := Date(y0, m0, 1);
    assert SetMonth(d, d.month - 1) == AddDays(first, d.day - 1);
    var dim := DaysInMonth(y0, m0);
    if d.day <= dim {
      AddDaysWithinMonth(first, d.day - 1);
    } else {
      AddDaysWithinMonth(first, dim - 1);
      AddDaysAdd(first, dim - 1, d.day - dim);
      var last: CivilDate := Date(y0, m0, dim);
      assert NextDay(last) == Date(d.year, d.month, 1);
      assert AddDays(last, d.day - dim) == AddDays(Date(d.year, d.month, 1), d.day - dim - 1);
      AddDaysWithinMonth(Date(d.year, d.month, 1), d.day - dim - 1);
    }
  }

  /**
   * `setFullYear(getFullYear() - 1)`: the same month and day a year earlier,
   * except that February 29 becomes March 1.
   */
  lemma {:induction false} PrevYear(d: CivilDate)
    ensures d.day <= DaysInMonth(d.year - 1, d.month) ==> SetFullYear(d, d.year - 1) == Date(d.year - 1, d.month, d.day)
    ensures d.day > DaysInMonth(d.year - 1, d.month) ==>
      d.month == 2 && d.day == 29 && SetFullYear(d, d.year - 1) == Date(d.year - 1, 3, 1)
  {
    var first: CivilDate := Date(d.year - 1, d.month, 1);
    assert (d.month - 1) / 12 == 0;
    assert SetFullYear(d, d.year - 1) == AddDays(first, d.day - 1);
    if d.day <= DaysInMonth(d.year - 1, d.month) {
      AddDaysWithinMonth(first, d.day - 1);
    } else {
      AddDaysWithinMonth(first, 27);
      assert AddDays(first, 27) == Date(d.year - 1, 2, 28);
      assert NextDay(Date(d.year - 1, 2, 28)) == Date(d.year - 1, 3, 1);
      AddDaysAdd(first, 27, 1);
    }
  }

  /** The `YYYY` part of `toISOString`; years outside 0..9999 get a sign and six digits. */
  function YearText(y: int): string {
    if 0 <= y <= 9999 then Text.Pad(y, 4)
    else (if y < 0 then "-" else "+") + Text.Pad(if y < 0 then -y else y, 6)
  }

  /** `YYYY-MM-DD`, the date part of `toISOString`. */
  function IsoDate(d: CivilDate): string {
    YearText(d.year) + "-" + Text.Pad(d.month, 2) + "-" + Text.Pad(d.day, 2)
  }

  function Hours(t: Instant): nat { t.ms / 3600000 }
  function Minutes(t: Instant): nat { t.ms / 60000 % 60 }
  function Seconds(t: Instant): nat { t.ms / 1000 % 60 }

  /** `toISOString()`: `YYYY-MM-DDTHH:mm:ss.sssZ`. */
  function IsoString(t: Instant): string {
    IsoDate(t.date) + "T" + Text.Pad(Hours(t), 2) + ":" + Text.Pad(Minutes(t), 2)
    + ":" + Text.Pad(Seconds(t), 2) + "." + Text.Pad(t.ms % 1000, 3) + "Z"
  }

  /** `toISOString().split('T')[0]`: the key under which a day's records are stored. */
  function DayKey(t: Instant): string {
    Text.Split(IsoString(t), 'T')[0]
  }

  /** An ISO date is made of digits, signs and dashes only. */
  lemma {:induction false} IsoDateChars(d: CivilDate)
    ensures forall i :: 0 <= i < |IsoDate(d)| ==> Text.IsDigit(IsoDate(d)[i]) || IsoDate(d)[i] in "+-"
  {
    var y := YearText(d.year);
    assert forall i :: 0 <= i < |y| ==> Text.IsDigit(y[i]) || y[i] in "+-";
  }

  /** The day key is exactly the ISO date of the instant's calendar day. */
  lemma {:induction false} DayKeyIsIsoDate(t: Instant)
    ensures DayKey(t) == IsoDate(t.date)
  {
    var date := IsoDate(t.date);
    var rest := Text.Pad(Hours(t), 2) + ":" + Text.Pad(Minutes(t), 2)
      + ":" + Text.Pad(Seconds(t), 2) + "." + Text.Pad(t.ms % 1000, 3) + "Z";
    assert IsoString(t) == date + ['T'] + rest;
    IsoDateChars(t.date);
    assert 'T' !in date;
    Text.SplitAppend(date, 'T', rest);
    Text.SplitNoSep(date, 'T');
  }

  /** Two zero-padded fields compare as strings as their numbers do; equal strings mean equal numbers. */
  lemma {:induction false} PadCompare(n: nat, m: nat, width: nat)
    requires n < Text.Pow10(width) && m < Text.Pow10(width)
    ensures Text.Pad(n, width) == Text.Pad(m, width) <==> n == m
    ensures Text.Less(Text.Pad(n, width), Text.Pad(m, width)) <==> n < m
  {
    Text.PadRoundTrip(n, width);
    Text.PadRoundTrip(m, width);
    Text.LessPad(n, m, width);
  }

  /** For four-digit years, comparing ISO dates as strings (JavaScript's `<`) is comparing them on the calendar. */
  lemma {:induction false} IsoDateLess(a: CivilDate, b: CivilDate)
    requires 0 <= a.year <= 9999 && 0 <= b.year <= 9999
    ensures Text.Less(IsoDate(a), IsoDate(b)) <==> Before(a, b)
  {
    IsoDateParts(a);
    IsoDateParts(b);
    IsoPartsLess(a.year, a.month, a.day, b.year, b.month, b.day);
  }

  /** A four-digit year's ISO date, as the year's digits and then the rest. */
  lemma {:induction false} IsoDateParts(d: CivilDate)
    requires 0 <= d.year <= 9999
    ensures IsoDate(d) == Text.Pad(d.year, 4) + ("-" + (Text.Pad(d.month, 2) + ("-" + Text.Pad(d.day, 2))))
  {
  }

  /** Comparing `YYYY-MM-DD` texts of numbers that fit their widths is comparing year, month and day in turn. */
  lemma {:induction false} IsoPartsLess(y1: nat, m1: nat, d1: nat, y2: nat, m2: nat, d2: nat)
    requires y1 < 10000 && y2 < 10000 && m1 < 100 && m2 < 100 && d1 < 100 && d2 < 100
    ensures Text.Less(Text.Pad(y1, 4) + ("-" + (Text.Pad(m1, 2) + ("-" + Text.Pad(d1, 2)))),
                      Text.Pad(y2, 4) + ("-" + (Text.Pad(m2, 2) + ("-" + Text.Pad(d2, 2)))))
      <==> y1 < y2 || (y1 == y2 && (m1 < m2 || (m1 == m2 && d1 < d2)))
  {
    assert Text.Pow10(4) == 10000;
    var ma, mb := Text.Pad(m1, 2) + ("-" + Text.Pad(d1, 2)), Text.Pad(m2, 2) + ("-" + Text.Pad(d2, 2));
    PadCompare(y1, y2, 4);
    Text.LessAppend(Text.Pad(y1, 4), "-" + ma, Text.Pad(y2, 4), "-" + mb);
    Text.LessAppend("-", ma, "-", mb);
    IsoMonthDayLess(m1, d1, m2, d2);
  }

  lemma {:induction false} IsoMonthDayLess(m1: nat, d1: nat, m2: nat, d2: nat)
    requires m1 < 100 && m2 < 100 && d1 < 100 && d2 < 100
    ensures Text.Less(Text.Pad(m1, 2) + ("-" + Text.Pad(d1, 2)), Text.Pad(m2, 2) + ("-" + Text.Pad(d2, 2)))
      <==> m1 < m2 || (m1 == m2 && d1 < d2)
  {
    assert Text.Pow10(2) == 100;
    PadCompare(m1, m2, 2);
    PadCompare(d1, d2, 2);
    Text.LessAppend(Text.Pad(m1, 2), "-" + Text.Pad(d1, 2), Text.Pad(m2, 2), "-" + Text.Pad(d2, 2));
    Text.LessAppend("-", Text.Pad(d1, 2), "-", Text.Pad(d2, 2));
  }

  /** For four-digit years, `<=` on ISO date strings is `<=` on day numbers. */
  lemma {:induction false} IsoDateAtMost(a: CivilDate, b: CivilDate)
    requires 0 <= a.year <= 9999 && 0 <= b.year <= 9999
    ensures Text.AtMost(IsoDate(a), IsoDate(b)) <==> DayNumber(a) <= DayNumber(b)
  {
    IsoDateLess(b, a);
    if Before(b, a) {
      DayNumberOrder(b, a);
    } else if Before(a, b) {
      DayNumberOrder(a, b);
    } else {
      assert a == b;
    }
  }

  /** `new Date(s)` for a date-only ISO string `YYYY-MM-DD`; `None` stands for an Invalid Date. */
  function ParseIsoDate(s: string): Option<CivilDate> {
    if |s| == 10 && s[4] == '-' && s[7] == '-'
       && Text.AllDigits(s[..4]) && Text.AllDigits(s[5..7]) && Text.AllDigits(s[8..])
    then
      var y, m, d := Text.DigitsValue(s[..4]), Text.DigitsValue(s[5..7]), Text.DigitsValue(s[8..]);
      if 1 <= m <= 12 && 1 <= d <= DaysInMonth(y, m) then Some(Date(y, m, d)) else None
    else None
  }

  /** The fields of a four-digit-year ISO date sit at fixed positions. */
  lemma {:induction false} IsoDateLayout(d: CivilDate)
    requires 0 <= d.year <= 9999
    ensures var s := IsoDate(d);
      && |s| == 10 && s[4] == '-' && s[7] == '-'
      && s[..4] == Text.Pad(d.year, 4) && s[5..7] == Text.Pad(d.month, 2) && s[8..] == Text.Pad(d.day, 2)
  {
    var y, m, dd := Text.Pad(d.year, 4), Text.Pad(d.month, 2), Text.Pad(d.day, 2);
    var s := IsoDate(d);
    assert s == y + "-" + m + "-" + dd;
    assert s[..4] == y;
    assert s[5..7] == m;
    assert s[8..] == dd;
  }

  /** Parsing the ISO date of a four-digit year gives the date back. */
  lemma {:induction false} ParseIsoDateRoundTrip(d: CivilDate)
    requires 0 <= d.year <= 9999
    ensures ParseIsoDate(IsoDate(d)) == Some(d)
  {
    var s := IsoDate(d);
    IsoDateLayout(d);
    assert Text.Pow10(4) == 10000 && Text.Pow10(2) == 100;
    Text.PadRoundTrip(d.year, 4);
    Text.PadRoundTrip(d.month, 2);
    Text.PadRoundTrip(d.day, 2);
    assert Text.AllDigits(s[..4]) && Text.AllDigits(s[5..7]) && Text.AllDigits(s[8..]);
    assert Text.DigitsValue(s[..4]) == d.year;
    assert Text.DigitsValue(s[5..7]) == d.month;
    assert Text.DigitsValue(s[8..]) == d.day;
  }

  /** Midnight (UTC) of a date: what `new Date('YYYY-MM-DD')` denotes. */
  function Midnight(d: CivilDate): Instant {
    Instant(d, 0)
  }
}
