/** Calendar arithmetic as JavaScript's `Date` performs it on local dates
    (proleptic Gregorian calendar, time of day left at midnight). */
module Calendar {
  import opened Wrappers

  /** A calendar date; `month` runs from 1 to 12. */
  datatype Date = Date(year: int, month: int, day: int)

  predicate IsLeapYear(y: int) {
    (y % 4 == 0 && y % 100 != 0) || y % 400 == 0
  }

  function DaysInMonth(y: int, m: int): (n: int)
    requires 1 <= m <= 12
    ensures 28 <= n <= 31
    ensures m == 2 ==> (n == 29 <==> IsLeapYear(y))
  {
    if m == 2 then (if IsLeapYear(y) then 29 else 28)
    else if m == 4 || m == 6 || m == 9 || m == 11 then 30
    else 31
  }

  /** A date that exists in the calendar. */
  predicate Valid(d: Date) {
    1 <= d.month <= 12 && 1 <= d.day <= DaysInMonth(d.year, d.month)
  }

  /** Months counted from January of year 0: `k / 12` is the year and
      `k % 12 + 1` the month (Dafny's `/` and `%` floor, as `Date` does). */
  function MonthIndex(d: Date): int {
    12 * d.year + d.month - 1
  }

  function LengthOfMonth(k: int): int {
    DaysInMonth(k / 12, k % 12 + 1)
  }

  /** Days from January 1 of year 0 to January 1 of year `y`, for any `y`:
      365 per year plus one per leap year in between. */
  function DaysBeforeYear(y: int): int {
    365 * y + (y + 3) / 4 - (y + 99) / 100 + (y + 399) / 400
  }

  /** Days from January 1 to the first day of month `m` of year `y`. */
  function DaysBeforeMonth(y: int, m: int): int
    requires 1 <= m <= 12
  {
    var common :=
      if m <= 6 then (if m <= 3 then (if m == 1 then 0 else if m == 2 then 31 else 59)
                      else (if m == 4 then 90 else if m == 5 then 120 else 151))
      else (if m <= 9 then (if m == 7 then 181 else if m == 8 then 212 else 243)
            else (if m == 10 then 273 else if m == 11 then 304 else 334));
    common + (if m > 2 && IsLeapYear(y) then 1 else 0)
  }

  /** Days from January 1, 1970 (the epoch of `Date`) to `d`. */
  function DayNumber(d: Date): int
    requires 1 <= d.month <= 12
  {
    DaysBeforeYear(d.year) + DaysBeforeMonth(d.year, d.month) + d.day - 1 - 719528
  }

  /** The day number of the first day of month `k`. */
  function FirstOfMonth(k: int): int {
    DayNumber(Date(k / 12, k % 12 + 1, 1))
  }

  /** `(y + d) / d` exceeds `(y + d - 1) / d` exactly when `d` divides `y`. */
  lemma FloorSteps(y: int)
    ensures (y + 4) / 4 == (y + 3) / 4 + (if y % 4 == 0 then 1 else 0)
    ensures (y + 100) / 100 == (y + 99) / 100 + (if y % 100 == 0 then 1 else 0)
    ensures (y + 400) / 400 == (y + 399) / 400 + (if y % 400 == 0 then 1 else 0)
  {
    var q, r := y / 4, y % 4;
    assert y + 4 == 4 * (q + 1) + r;
    assert y + 3 == if r == 0 then 4 * q + 3 else 4 * (q + 1) + (r - 1);
    q, r := y / 100, y % 100;
    assert y + 100 == 100 * (q + 1) + r;
    assert y + 99 == if r == 0 then 100 * q + 99 else 100 * (q + 1) + (r - 1);
    q, r := y / 400, y % 400;
    assert y + 400 == 400 * (q + 1) + r;
    assert y + 399 == if r == 0 then 400 * q + 399 else 400 * (q + 1) + (r - 1);
  }

  /** Multiples of 400 are multiples of 100, which are multiples of 4. */
  lemma MultiplesNest(q: int)
    ensures (400 * q) % 100 == 0 && (100 * q) % 4 == 0
  {
    assert 400 * q == 100 * (4 * q) + 0;
    assert 100 * q == 4 * (25 * q) + 0;
  }

  /** The leap-year rule as a count: multiples of 4, less multiples of
      100, plus multiples of 400. */
  lemma LeapCount(y: int)
    ensures (if IsLeapYear(y) then 1 else 0)
         == (if y % 4 == 0 then 1 else 0) - (if y % 100 == 0 then 1 else 0) + (if y % 400 == 0 then 1 else 0)
  {
    MultiplesNest(y / 400);
    MultiplesNest(y / 100);
    if y % 400 == 0 {
      assert y == 400 * (y / 400);
    }
    if y % 100 == 0 {
      assert y == 100 * (y / 100);
    }
  }

  lemma DaysBeforeNextYear(y: int)
    ensures DaysBeforeYear(y + 1) == DaysBeforeYear(y) + (if IsLeapYear(y) then 366 else 365)
  {
    FloorSteps(y);
    LeapCount(y);
  }

  /** Month `k + 1` starts `LengthOfMonth(k)` days after month `k`. */
  lemma FirstOfNextMonth(k: int)
    ensures FirstOfMonth(k + 1) == FirstOfMonth(k) + LengthOfMonth(k)
  {
    if k % 12 == 11 {
      assert (k + 1) / 12 == k / 12 + 1 && (k + 1) % 12 == 0;
      DaysBeforeNextYear(k / 12);
    } else {
      assert (k + 1) / 12 == k / 12 && (k + 1) % 12 == k % 12 + 1;
    }
  }

  /** The date that lies `day - 1` days after the first day of month `k`:
      a day beyond the end of the month rolls into the following months, a
      day below 1 into the preceding ones. */
  function NormalizeDay(k: int, day: int): (r: Date)
    ensures Valid(r)
    decreases (if day < 1 then 1 - day else 0), (if day < 1 then 0 else day)
  {
    if day < 1 then NormalizeDay(k - 1, day + LengthOfMonth(k - 1))
    else if day > LengthOfMonth(k) then NormalizeDay(k + 1, day - LengthOfMonth(k))
    else Date(k / 12, k % 12 + 1, day)
  }

  /** Normalising moves no day: the date reached lies exactly `day - 1`
      days after the first of month `k`, whichever way the day overflows. */
  lemma {:induction false} NormalizeDayNumber(k: int, day: int)
    ensures DayNumber(NormalizeDay(k, day)) == FirstOfMonth(k) + day - 1
    decreases (if day < 1 then 1 - day else 0), (if day < 1 then 0 else day)
  {
    if day < 1 {
      FirstOfNextMonth(k - 1);
      NormalizeDayNumber(k - 1, day + LengthOfMonth(k - 1));
    } else if day > LengthOfMonth(k) {
      FirstOfNextMonth(k);
      NormalizeDayNumber(k + 1, day - LengthOfMonth(k));
    }
  }

  /** The year `Date` reads from its first argument: 0 to 99 mean 1900 to
      1999. */
  function FullYear(year: int): int {
    if 0 <= year <= 99 then 1900 + year else year
  }

  /** The calendar date `new Date(year, monthIndex, day)` names: the month
      index counts from 0 and may lie outside 0..11, and both the month and
      the day overflow into the neighbouring units. */
  function CalendarDate(year: int, monthIndex: int, day: int): (r: Date)
    ensures Valid(r)
  {
    NormalizeDay(12 * FullYear(year) + monthIndex, day)
  }

  /** The first and the last day a `Date` can hold: its time value lies
      within 8.64e15 milliseconds, which is 100,000,000 days, of the
      epoch. */
  const FirstDay := Date(-271821, 4, 20)
  const LastDay := Date(275760, 9, 13)

  /** Beyond the time range a `Date` is an Invalid Date. */
  predicate InTimeRange(d: Date) {
    !Before(d, FirstDay) && !Before(LastDay, d)
  }

  /** `new Date(year, monthIndex, day)`: the calendar date it names, or
      `None` for an Invalid Date when that date lies outside the time
      range. */
  function MakeDate(year: int, monthIndex: int, day: int): (r: Option<Date>)
    ensures r.Some? <==> InTimeRange(CalendarDate(year, monthIndex, day))
    ensures r.Some? ==> r.value == CalendarDate(year, monthIndex, day) && Valid(r.value)
  {
    var d := CalendarDate(year, monthIndex, day);
    if InTimeRange(d) then Some(d) else None
  }

  /** The same day of the month in the month `i` months later, rolling
      over when that month is too short. */
  function AddMonths(d: Date, i: int): (r: Date)
    ensures Valid(r)
  {
    NormalizeDay(MonthIndex(d) + i, d.day)
  }

  /** `d.setMonth(d.getMonth() + i)` on a copy of `d`: an Invalid Date stays
      invalid, and a valid one advanced out of the time range becomes
      invalid. */
  function SetMonth(d: Option<Date>, i: int): (r: Option<Date>)
    requires d.Some? ==> Valid(d.value)
    ensures d.None? ==> r.None?
    ensures d.Some? ==> (r.Some? <==> InTimeRange(AddMonths(d.value, i)))
    ensures r.Some? ==> r.value == AddMonths(d.value, i)
  {
    match d
    case None => None
    case Some(x) =>
      var r := AddMonths(x, i);
      if InTimeRange(r) then Some(r) else None
  }

  /** Strict chronological order on dates. */
  predicate Before(a: Date, b: Date) {
    a.year < b.year
    || (a.year == b.year && a.month < b.month)
    || (a.year == b.year && a.month == b.month && a.day < b.day)
  }

  lemma BeforeTransitive(a: Date, b: Date, c: Date)
    requires Before(a, b) && Before(b, c)
    ensures Before(a, c)
  {
  }

  lemma BeforeIrreflexive(a: Date)
    ensures !Before(a, a)
  {
  }

  /** Chronological order is the order of month indices, then of days. */
  lemma BeforeByMonthIndex(a: Date, b: Date)
    requires 1 <= a.month <= 12 && 1 <= b.month <= 12
    ensures Before(a, b) <==>
      MonthIndex(a) < MonthIndex(b) || (MonthIndex(a) == MonthIndex(b) && a.day < b.day)
  {
  }

  /** Normalising a date that already exists returns it unchanged. */
  lemma NormalizeValid(d: Date)
    requires Valid(d)
    ensures NormalizeDay(MonthIndex(d), d.day) == d
  {
    var k := MonthIndex(d);
    assert k / 12 == d.year && k % 12 + 1 == d.month;
  }

  lemma AddMonthsZero(d: Date)
    requires Valid(d)
    ensures AddMonths(d, 0) == d
  {
    NormalizeValid(d);
  }

  /** Advancing a valid date by `i` months lands in the target month with
      the day kept when that month is long enough; otherwise it lands in the
      month after, on the day that is the overflow past the target's end. */
  lemma AddMonthsShape(d: Date, i: int)
    requires Valid(d)
    ensures var k := MonthIndex(d) + i;
      var r := AddMonths(d, i);
      if d.day <= LengthOfMonth(k) then
        r == Date(k / 12, k % 12 + 1, d.day) && MonthIndex(r) == k
      else
        r == Date((k + 1) / 12, (k + 1) % 12 + 1, d.day - LengthOfMonth(k))
        && MonthIndex(r) == k + 1 && 1 <= r.day <= 3
  {
    var k := MonthIndex(d) + i;
    if d.day > LengthOfMonth(k) {
      var over := d.day - LengthOfMonth(k);
      assert NormalizeDay(k, d.day) == NormalizeDay(k + 1, over);
      assert over <= LengthOfMonth(k + 1);
      assert NormalizeDay(k + 1, over) == Date((k + 1) / 12, (k + 1) % 12 + 1, over);
    }
  }

  /** Each installment falls strictly after the previous one. */
  lemma AddMonthsStep(d: Date, i: int)
    requires Valid(d)
    ensures Before(AddMonths(d, i), AddMonths(d, i + 1))
  {
    AddMonthsShape(d, i);
    AddMonthsShape(d, i + 1);
    BeforeByMonthIndex(AddMonths(d, i), AddMonths(d, i + 1));
  }

  /** Due dates advanced by more months fall strictly later. */
  lemma {:induction false} AddMonthsIncreasing(d: Date, i: int, j: int)
    requires Valid(d) && i < j
    ensures Before(AddMonths(d, i), AddMonths(d, j))
    decreases j - i
  {
    AddMonthsStep(d, j - 1);
    if i < j - 1 {
      AddMonthsIncreasing(d, i, j - 1);
      BeforeTransitive(AddMonths(d, i), AddMonths(d, j - 1), AddMonths(d, j));
    }
  }

  /** January 31 plus one month overflows February into March 3 in a
      common year. */
  lemma EndOfJanuaryCommonYear()
    ensures AddMonths(Date(2023, 1, 31), 1) == Date(2023, 3, 3)
  {
    assert 24277 / 12 == 2023 && 24277 % 12 == 1 && !IsLeapYear(2023);
    assert NormalizeDay(24277, 31) == NormalizeDay(24278, 3);
    assert 24278 / 12 == 2023 && 24278 % 12 == 2;
  }

  /** In a leap year January 31 plus one month is March 2, and plus two
      months is March 31: each month is counted from the base date, not
      from the previous installment. */
  lemma EndOfJanuaryLeapYear()
    ensures AddMonths(Date(2024, 1, 31), 1) == Date(2024, 3, 2)
    ensures AddMonths(Date(2024, 1, 31), 2) == Date(2024, 3, 31)
  {
    assert 24289 / 12 == 2024 && 24289 % 12 == 1 && IsLeapYear(2024);
    assert NormalizeDay(24289, 31) == NormalizeDay(24290, 2);
    assert 24290 / 12 == 2024 && 24290 % 12 == 2;
    assert NormalizeDay(24290, 31) == Date(2024, 3, 31);
  }

  /** Two-digit years, month overflow and day 0 in the `Date` constructor. */
  lemma MakeDateExamples()
    ensures MakeDate(99, 0, 1) == Some(Date(1999, 1, 1))
    ensures MakeDate(2024, 12, 1) == Some(Date(2025, 1, 1))
    ensures MakeDate(2024, 2, 0) == Some(Date(2024, 2, 29))
  {
    CalendarDateOfValid(99, 1, 1);
    assert 24300 / 12 == 2025 && 24300 % 12 == 0;
    assert CalendarDate(2024, 12, 1) == Date(2025, 1, 1);
    assert 24289 / 12 == 2024 && 24289 % 12 == 1;
    assert NormalizeDay(24290, 0) == NormalizeDay(24289, 29);
    assert CalendarDate(2024, 2, 0) == Date(2024, 2, 29);
  }

  /** A year, a month from 1 to 12 and a day that name an existing date
      give exactly that date, the year read as `Date` reads it. */
  lemma CalendarDateOfValid(year: int, month: int, day: int)
    requires Valid(Date(FullYear(year), month, day))
    ensures CalendarDate(year, month - 1, day) == Date(FullYear(year), month, day)
  {
    var d := Date(FullYear(year), month, day);
    NormalizeValid(d);
    assert CalendarDate(year, month - 1, day) == NormalizeDay(MonthIndex(d), day);
  }

  /** `new Date(year, month - 1, day)` on an existing date gives that date,
      the year read as `Date` reads it, unless it lies outside the time
      range. */
  lemma MakeDateOfValid(year: int, month: int, day: int)
    requires Valid(Date(FullYear(year), month, day))
    ensures var d := Date(FullYear(year), month, day);
      MakeDate(year, month - 1, day) == if InTimeRange(d) then Some(d) else None
  {
    CalendarDateOfValid(year, month, day);
  }

  /** Whatever the overflow, the date `new Date(year, monthIndex, day)`
      names lies `day - 1` days after the first of month `monthIndex` of
      the year. */
  lemma CalendarDateDays(year: int, monthIndex: int, day: int)
    ensures DayNumber(CalendarDate(year, monthIndex, day))
         == FirstOfMonth(12 * FullYear(year) + monthIndex) + day - 1
  {
    NormalizeDayNumber(12 * FullYear(year) + monthIndex, day);
  }

  /** The epoch is day 0, and the ends of the time range lie 100,000,000
      days either side of it. */
  lemma TimeRangeEnds()
    ensures DayNumber(Date(1970, 1, 1)) == 0
    ensures DayNumber(FirstDay) == -100000000 && DayNumber(LastDay) == 100000000
  {
  }

  /** The time range is the range of day numbers within 100,000,000 days of
      the epoch. */
  lemma TimeRangeByDayNumber(d: Date)
    requires Valid(d)
    ensures InTimeRange(d) <==> -100000000 <= DayNumber(d) <= 100000000
  {
    TimeRangeEnds();
    DayNumberOrder(d, FirstDay);
    DayNumberOrder(LastDay, d);
  }

  /** A day far beyond the time range makes an Invalid Date. */
  lemma MakeDateOutOfRange()
    ensures MakeDate(2024, 0, 200000000) == None
  {
    assert 24288 / 12 == 2024 && 24288 % 12 == 0;
    assert FirstOfMonth(24288) == 19723;
    NormalizeDayNumber(24288, 200000000);
    TimeRangeByDayNumber(CalendarDate(2024, 0, 200000000));
  }

  /** The first days of months grow by whole months. */
  lemma {:induction false} FirstOfMonthIncreasing(k: int, j: int)
    requires k < j
    ensures FirstOfMonth(k) + LengthOfMonth(k) <= FirstOfMonth(j)
    decreases j - k
  {
    FirstOfNextMonth(k);
    if k + 1 < j {
      FirstOfMonthIncreasing(k + 1, j);
    }
  }

  /** Day numbers follow chronological order on existing dates. */
  lemma DayNumberOrder(a: Date, b: Date)
    requires Valid(a) && Valid(b)
    ensures Before(a, b) <==> DayNumber(a) < DayNumber(b)
  {
    DayInMonth(a);
    DayInMonth(b);
    BeforeByMonthIndex(a, b);
    var ka, kb := MonthIndex(a), MonthIndex(b);
    if ka < kb {
      FirstOfMonthIncreasing(ka, kb);
    } else if kb < ka {
      FirstOfMonthIncreasing(kb, ka);
    }
  }

  /** An existing date is day `d.day` of its month, counted from the first. */
  lemma DayInMonth(d: Date)
    requires Valid(d)
    ensures var k := MonthIndex(d);
      && 1 <= d.day <= LengthOfMonth(k)
      && DayNumber(d) == FirstOfMonth(k) + d.day - 1
  {
    var k := MonthIndex(d);
    assert k / 12 == d.year && k % 12 + 1 == d.month;
  }

}
