/** Proleptic Gregorian calendar dates as Python's `datetime.date` handles them:
    day ordinals (0001-01-01 is day 1), the leap-year rule, month lengths, and
    the one-day steps that `timedelta(days = 1)` arithmetic performs. */
module Calendar {

  datatype Date = Date(year: int, month: int, day: int)

  const MinYear := 1
  const MaxYear := 9999
  /** Ordinal of 9999-12-31, the last date Python's `date` can hold. */
  const LastOrdinal := 3652059

  /** Gregorian leap year: divisible by 4, except centuries not divisible by 400. */
  predicate IsLeapYear(y: int) {
    y % 4 == 0 && (y % 100 != 0 || y % 400 == 0)
  }

  function DaysInYear(y: int): int {
    if IsLeapYear(y) then 366 else 365
  }

  /** Gregorian month length: February has 29 days exactly in leap years. */
  function DaysInMonth(y: int, m: int): (n: int)
    requires 1 <= m <= 12
    ensures 28 <= n <= 31
    ensures m == 2 ==> (n == 29 <==> IsLeapYear(y))
  {
    if m == 2 then (if IsLeapYear(y) then 29 else 28)
    else if m == 4 || m == 6 || m == 9 || m == 11 then 30
    else 31
  }

  predicate IsValid(d: Date) {
    && MinYear <= d.year <= MaxYear
    && 1 <= d.month <= 12
    && 1 <= d.day <= DaysInMonth(d.year, d.month)
  }

  /** Days in the years before `y`, in the closed form Python's datetime uses. */
  function DaysBeforeYear(y: int): int
    requires y >= 1
  {
    var p := y - 1;
    p * 365 + p / 4 - p / 100 + p / 400
  }

  /** Days in the year before the first of month `m`: a cumulative table plus
      the leap day once February is over. */
  function DaysBeforeMonth(y: int, m: int): int
    requires 1 <= m <= 12
  {
    var table := [0, 31, 59, 90, 120, 151, 181, 212, 243, 273, 304, 334];
    table[m - 1] + (if m > 2 && IsLeapYear(y) then 1 else 0)
  }

  /** Python's `date.toordinal()`. */
  function Ordinal(d: Date): int
    requires IsValid(d)
  {
    DaysBeforeYear(d.year) + DaysBeforeMonth(d.year, d.month) + d.day
  }

  /** Python's tuple comparison of dates: `a < b`. */
  predicate Before(a: Date, b: Date) {
    || a.year < b.year
    || (a.year == b.year && (a.month < b.month || (a.month == b.month && a.day < b.day)))
  }

  lemma DaysBeforeNextYear(y: int)
    requires y >= 1
    ensures DaysBeforeYear(y + 1) == DaysBeforeYear(y) + DaysInYear(y)
  {
    var p := y - 1;
    assert y / 4 == p / 4 + (if y % 4 == 0 then 1 else 0);
    assert y / 100 == p / 100 + (if y % 100 == 0 then 1 else 0);
    assert y / 400 == p / 400 + (if y % 400 == 0 then 1 else 0);
  }

  /** The month table agrees with the month lengths: each month starts where
      the previous one ends, and December ends with the year. */
  lemma MonthFollows(y: int, m: int)
    requires 1 <= m <= 12
    ensures m < 12 ==> DaysBeforeMonth(y, m + 1) == DaysBeforeMonth(y, m) + DaysInMonth(y, m)
    ensures m == 12 ==> DaysBeforeMonth(y, m) + DaysInMonth(y, m) == DaysInYear(y)
  {
  }

  /** The day after `d`, as `d + timedelta(days = 1)` computes it. */
  function NextDay(d: Date): (r: Date)
    requires IsValid(d) && Ordinal(d) < LastOrdinal
    ensures IsValid(r) && Ordinal(r) == Ordinal(d) + 1
  {
    MonthFollows(d.year, d.month);
    if d.day < DaysInMonth(d.year, d.month) then Date(d.year, d.month, d.day + 1)
    else if d.month < 12 then Date(d.year, d.month + 1, 1)
    else
      DaysBeforeNextYear(d.year);
      assert d.year < MaxYear;
      Date(d.year + 1, 1, 1)
  }

  /** The day before `d`, as `d - timedelta(days = 1)` computes it. */
  function DayBefore(d: Date): (r: Date)
    requires IsValid(d) && Ordinal(d) > 1
    ensures IsValid(r) && Ordinal(r) + 1 == Ordinal(d)
  {
    if d.day > 1 then Date(d.year, d.month, d.day - 1)
    else if d.month > 1 then
      MonthFollows(d.year, d.month - 1);
      Date(d.year, d.month - 1, DaysInMonth(d.year, d.month - 1))
    else
      assert d.year > MinYear;
      MonthFollows(d.year - 1, 12);
      DaysBeforeNextYear(d.year - 1);
      Date(d.year - 1, 12, 31)
  }

  /** `d + timedelta(days = k)`. */
  function PlusDays(d: Date, k: nat): (r: Date)
    requires IsValid(d) && Ordinal(d) + k <= LastOrdinal
    ensures IsValid(r) && Ordinal(r) == Ordinal(d) + k
    decreases k
  {
    if k == 0 then d else NextDay(PlusDays(d, k - 1))
  }

  /** Days before a later year cover at least the whole earlier year. */
  lemma {:induction false} DaysBeforeYearGrows(a: int, b: int)
    requires 1 <= a < b
    ensures DaysBeforeYear(a) + DaysInYear(a) <= DaysBeforeYear(b)
    decreases b - a
  {
    DaysBeforeNextYear(a);
    if a + 1 < b {
      DaysBeforeYearGrows(a + 1, b);
    }
  }

  lemma DaysBeforeMonthGrows(y: int, a: int, b: int)
    requires 1 <= a < b <= 12
    ensures DaysBeforeMonth(y, a) + DaysInMonth(y, a) <= DaysBeforeMonth(y, b)
  {
  }

  lemma DaysBeforeMonthWithinYear(y: int, m: int)
    requires 1 <= m <= 12
    ensures DaysBeforeMonth(y, m) + DaysInMonth(y, m) <= DaysInYear(y)
  {
  }

  /** Ordinals follow the calendar order of dates, in both directions: so two
      valid dates with the same ordinal are the same date. */
  lemma {:induction false} OrdinalOrder(a: Date, b: Date)
    requires IsValid(a) && IsValid(b)
    ensures Before(a, b) <==> Ordinal(a) < Ordinal(b)
    ensures a == b <==> Ordinal(a) == Ordinal(b)
  {
    if a.year != b.year {
      var (lo, hi) := if a.year < b.year then (a, b) else (b, a);
      DaysBeforeYearGrows(lo.year, hi.year);
      DaysBeforeMonthWithinYear(lo.year, lo.month);
    } else if a.month != b.month {
      var (lo, hi) := if a.month < b.month then (a, b) else (b, a);
      DaysBeforeMonthGrows(a.year, lo.month, hi.month);
    }
  }

  /** The first of the month `k` months after January of `startYear`. */
  function MonthStart(startYear: int, k: nat): (d: Date)
    ensures d.day == 1 && 1 <= d.month <= 12
  {
    Date(startYear + k / 12, k % 12 + 1, 1)
  }

  /** The first day of the month after `d`'s, as `current_date.replace(...)`
      builds it: the next month of the same year, or January of the next year
      after December. */
  function NextMonthFirst(d: Date): (r: Date)
    ensures r.day == 1 && 1 <= r.month <= 12
  {
    if d.month < 12 then Date(d.year, d.month % 12 + 1, 1) else Date(d.year + 1, 1, 1)
  }

  /** The first of the next month comes right after the last day of `d`'s month. */
  lemma NextMonthFollowsLastDay(d: Date)
    requires IsValid(d) && IsValid(NextMonthFirst(d))
    ensures IsValid(Date(d.year, d.month, DaysInMonth(d.year, d.month)))
    ensures Ordinal(NextMonthFirst(d)) == Ordinal(Date(d.year, d.month, DaysInMonth(d.year, d.month))) + 1
  {
    var n := DaysInMonth(d.year, d.month);
    MonthFollows(d.year, d.month);
    if d.month < 12 {
      assert NextMonthFirst(d) == Date(d.year, d.month + 1, 1);
      assert Ordinal(Date(d.year, d.month + 1, 1)) == DaysBeforeYear(d.year) + DaysBeforeMonth(d.year, d.month + 1) + 1;
    } else {
      DaysBeforeNextYear(d.year);
      assert NextMonthFirst(d) == Date(d.year + 1, 1, 1);
      assert Ordinal(Date(d.year + 1, 1, 1)) == DaysBeforeYear(d.year + 1) + 1;
    }
    assert Ordinal(Date(d.year, d.month, n)) == DaysBeforeYear(d.year) + DaysBeforeMonth(d.year, d.month) + n;
  }

  /** The first of the month after the `k`-th month start is the next
      month start. */
  lemma MonthStartNext(startYear: int, k: nat)
    ensures NextMonthFirst(MonthStart(startYear, k)) == MonthStart(startYear, k + 1)
  {
    if k % 12 < 11 {
      assert (k + 1) % 12 == k % 12 + 1 && (k + 1) / 12 == k / 12;
    } else {
      assert (k + 1) % 12 == 0 && (k + 1) / 12 == k / 12 + 1;
    }
  }

  /** `k` steps of `NextMonthFirst` from `d`: the walk the generator's month
      loop performs. */
  function MonthsLater(d: Date, k: nat): (r: Date)
    requires d.day == 1 && 1 <= d.month <= 12
    ensures r.day == 1 && 1 <= r.month <= 12
  {
    if k == 0 then d else NextMonthFirst(MonthsLater(d, k - 1))
  }

  /** Walking month by month from 1 January lands on the closed-form month start. */
  lemma {:induction false} MonthsLaterClosedForm(startYear: int, k: nat)
    ensures MonthsLater(Date(startYear, 1, 1), k) == MonthStart(startYear, k)
  {
    if k > 0 {
      MonthsLaterClosedForm(startYear, k - 1);
      MonthStartNext(startYear, k - 1);
    }
  }

  /** Month starts within the supported years are valid dates. */
  lemma MonthsLaterValid(startYear: int, k: nat)
    requires MinYear <= startYear && startYear + k / 12 <= MaxYear
    ensures IsValid(MonthsLater(Date(startYear, 1, 1), k))
  {
    MonthsLaterClosedForm(startYear, k);
  }

  /** Every valid date lies on or before 9999-12-31. */
  lemma OrdinalAtMostLast(d: Date)
    requires IsValid(d)
    ensures Ordinal(d) <= LastOrdinal
  {
    var last := Date(MaxYear, 12, 31);
    assert Ordinal(last) == LastOrdinal;
    OrdinalOrder(d, last);
  }

  /** Within one month, ordinals go up with the day. */
  lemma SameMonthOrdinal(d: Date, k: int)
    requires IsValid(d) && IsValid(Date(d.year, d.month, k))
    ensures Ordinal(Date(d.year, d.month, k)) == Ordinal(d) - d.day + k
  {
  }

  /** Adding a month's length to its first day gives the first of the next
      month (the `current_date` update at the end of each month). */
  lemma PlusMonthLength(d: Date)
    requires IsValid(d) && d.day == 1 && IsValid(NextMonthFirst(d))
    ensures Ordinal(NextMonthFirst(d)) == Ordinal(d) + DaysInMonth(d.year, d.month) <= LastOrdinal
    ensures PlusDays(d, DaysInMonth(d.year, d.month)) == NextMonthFirst(d)
  {
    var n := DaysInMonth(d.year, d.month);
    var next := NextMonthFirst(d);
    NextMonthFollowsLastDay(d);
    SameMonthOrdinal(d, n);
    OrdinalAtMostLast(next);
    var moved := PlusDays(d, n);
    OrdinalOrder(moved, next);
  }

  /** Number of days in the first `k` months from January of `startYear`:
      the sum of their Gregorian lengths. */
  function WindowLength(startYear: int, k: nat): (n: nat)
    ensures 28 * k <= n <= 31 * k
  {
    if k == 0 then 0
    else
      var d := MonthsLater(Date(startYear, 1, 1), k - 1);
      WindowLength(startYear, k - 1) + DaysInMonth(d.year, d.month)
  }

  /** Weekday number as `strftime('%w')` gives it: 0 is Sunday, 6 Saturday.
      Day 1 (0001-01-01) was a Monday. */
  function Weekday(d: Date): (w: int)
    requires IsValid(d)
    ensures 0 <= w < 7
  {
    Ordinal(d) % 7
  }

  /** Fixed points of the week: 2024-01-01, the generator's default start,
      was a Monday, and 2024-02-29 a Thursday. */
  lemma NewYear2024Weekday()
    ensures Weekday(Date(2024, 1, 1)) == 1
  {
    assert 2023 / 4 == 505 && 2023 / 100 == 20 && 2023 / 400 == 5;
    assert Ordinal(Date(2024, 1, 1)) == 738886;
  }

  lemma LeapDay2024Weekday()
    ensures Weekday(Date(2024, 2, 29)) == 4
  {
    assert 2023 / 4 == 505 && 2023 / 100 == 20 && 2023 / 400 == 5;
    assert Ordinal(Date(2024, 2, 29)) == 738945;
  }

  /** The weekday advances by one, modulo 7, from each day to the next. */
  lemma NextDayWeekday(d: Date)
    requires IsValid(d) && Ordinal(d) < LastOrdinal
    ensures Weekday(NextDay(d)) == (Weekday(d) + 1) % 7
  {
    var o, o' := Ordinal(d), Ordinal(NextDay(d));
    assert o' == o + 1;
    SuccessorMod7(o);
  }

  lemma SuccessorMod7(o: int)
    ensures (o + 1) % 7 == (o % 7 + 1) % 7
  {
    var q := o / 7;
    assert o == q * 7 + o % 7;
    if o % 7 < 6 {
      assert o + 1 == q * 7 + (o % 7 + 1);
    } else {
      assert o + 1 == (q + 1) * 7;
    }
  }
}
