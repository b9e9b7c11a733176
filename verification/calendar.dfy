/** Proleptic Gregorian calendar dates, their day numbers, and the day
    arithmetic the cleaners perform with `timedelta(days=...)`. */
module Calendar {

  /** A calendar date as (year, month, day); time of day is not modelled. */
  datatype Date = Date(year: int, month: int, day: int)

  predicate IsLeapYear(y: int)
  {
    y % 4 == 0 && (y % 100 != 0 || y % 400 == 0)
  }

  function DaysInMonth(y: int, m: int): (n: int)
    requires 1 <= m <= 12
    ensures 28 <= n <= 31
    ensures n == 29 <==> m == 2 && IsLeapYear(y)
  {
    if m == 2 then (if IsLeapYear(y) then 29 else 28)
    else if m == 4 || m == 6 || m == 9 || m == 11 then 30
    else 31
  }

  predicate IsValid(d: Date)
  {
    1 <= d.month <= 12 && 1 <= d.day <= DaysInMonth(d.year, d.month)
  }

  /** Days from 1 March to the first of month `m`, in a year that starts in
      March: `(153 * mp + 2) / 5` with `mp` the month counted from March. */
  function MonthOffset(m: int): int
  {
    (153 * ((m + 9) % 12) + 2) / 5
  }

  /** Days from the start of a 400-year era to 1 March of its year `k`. */
  function EraYearDays(k: int): int
  {
    k * 365 + k / 4 - k / 100
  }

  /** Days since 1970-01-01: the civil-to-days algorithm on a year that starts
      in March, so that the leap day is the last day of its year. `/` and `%`
      by positive constants are floor division, as in Python. */
  function DayNumber(d: Date): int
  {
    var y := if d.month <= 2 then d.year - 1 else d.year;
    (y / 400) * 146097 + EraYearDays(y % 400) + MonthOffset(d.month) + d.day - 1 - 719468
  }

  /** The surrogate date 1900-01-01 written into unparseable date cells. */
  const SurrogateDate := Date(1900, 1, 1)

  /** Day number of the surrogate date. */
  const SurrogateDay: int := -25567

  lemma SurrogateDayIsDayNumber()
    ensures DayNumber(SurrogateDate) == SurrogateDay
    ensures DayNumber(Date(1970, 1, 1)) == 0
  {
  }

  /** `d + timedelta(days=1)`. */
  function NextDay(d: Date): (r: Date)
    requires IsValid(d)
    ensures IsValid(r)
  {
    if d.day < DaysInMonth(d.year, d.month) then d.(day := d.day + 1)
    else if d.month < 12 then Date(d.year, d.month + 1, 1)
    else Date(d.year + 1, 1, 1)
  }

  /** `d - timedelta(days=1)`. */
  function PrevDay(d: Date): (r: Date)
    requires IsValid(d)
    ensures IsValid(r)
  {
    if d.day > 1 then d.(day := d.day - 1)
    else if d.month > 1 then Date(d.year, d.month - 1, DaysInMonth(d.year, d.month - 1))
    else Date(d.year - 1, 12, 31)
  }

  function AddDays(d: Date, k: nat): (r: Date)
    requires IsValid(d)
    ensures IsValid(r)
    decreases k
  {
    if k == 0 then d else AddDays(NextDay(d), k - 1)
  }

  function SubDays(d: Date, k: nat): (r: Date)
    requires IsValid(d)
    ensures IsValid(r)
    decreases k
  {
    if k == 0 then d else SubDays(PrevDay(d), k - 1)
  }

  /** Going one day forward and one back is the identity. */
  lemma PrevNextDay(d: Date)
    requires IsValid(d)
    ensures PrevDay(NextDay(d)) == d
  {
  }

  /** Day numbers count days: the next calendar day has the next day number. */
  lemma DayNumberNextDay(d: Date)
    requires IsValid(d)
    ensures DayNumber(NextDay(d)) == DayNumber(d) + 1
  {
    if d.day < DaysInMonth(d.year, d.month) {
    } else if d.month == 2 {
      MarchFirstFollowsFebruary(d.year);
    } else if d.month < 12 {
      MonthOffsetStep(d.year, d.month);
    } else {
      assert MonthOffset(12) == 275 && MonthOffset(1) == 306;
    }
  }

  /** Within the year that starts in March, the next month starts as many
      days later as the current month has. */
  lemma MonthOffsetStep(y: int, m: int)
    requires 1 <= m < 12 && m != 2
    ensures MonthOffset(m + 1) == MonthOffset(m) + DaysInMonth(y, m)
  {
    if m == 1 {
      assert MonthOffset(2) == MonthOffset(1) + 31;
    } else {
      assert (m + 9) % 12 == m - 3 && (m + 10) % 12 == m - 2;
    }
  }

  /** Moving to the next era year adds 365 days, plus one when the new year
      is a leap year within the era. */
  lemma EraYearStep(k: int)
    requires 0 <= k < 399
    ensures EraYearDays(k + 1) == EraYearDays(k) + 365
              + (if (k + 1) % 4 == 0 then 1 else 0) - (if (k + 1) % 100 == 0 then 1 else 0)
  {
  }

  /** The leap-year rule reads the same on the year's place within its era. */
  lemma LeapWithinEra(y: int)
    ensures IsLeapYear(y) <==> (y % 400) % 4 == 0 && ((y % 400) % 100 != 0 || y % 400 == 0)
  {
    var q, r := y / 400, y % 400;
    assert y == 400 * q + r;
    assert y / 4 == 100 * q + r / 4;
    assert y % 4 == r % 4;
    assert y / 100 == 4 * q + r / 100;
    assert y % 100 == r % 100;
  }

  /** The end of February and the following 1 March are consecutive day numbers. */
  lemma MarchFirstFollowsFebruary(y: int)
    ensures DayNumber(Date(y, 3, 1)) == DayNumber(Date(y, 2, DaysInMonth(y, 2))) + 1
  {
    var p := y - 1;
    var n := DaysInMonth(y, 2);
    assert MonthOffset(2) == 337 && MonthOffset(3) == 0;
    assert DayNumber(Date(y, 2, n)) == (p / 400) * 146097 + EraYearDays(p % 400) + 336 + n - 719468;
    assert DayNumber(Date(y, 3, 1)) == (y / 400) * 146097 + EraYearDays(y % 400) - 719468;
    LeapWithinEra(y);
    if p % 400 == 399 {
      assert y / 400 == p / 400 + 1 && y % 400 == 0;
      assert EraYearDays(399) == 145731;
      assert EraYearDays(0) == 0;
    } else {
      assert y / 400 == p / 400 && y % 400 == p % 400 + 1;
      EraYearStep(p % 400);
    }
  }

  /** First day of the month `today` is in (`today.replace(day=1)`). */
  function FirstDayOfMonth(today: Date): Date
  {
    today.(day := 1)
  }

  /** The last day of the month as the cleaner computes it:
      `next = today.replace(day=28) + timedelta(days=4)`, then
      `next - timedelta(days=next.day)`. */
  function LastDayOfMonth(today: Date): (r: Date)
    requires IsValid(today)
    ensures r == Date(today.year, today.month, DaysInMonth(today.year, today.month))
  {
    var probe := AddDays(today.(day := 28), 4);
    LastDayOfMonthProbe(today);
    SubDays(probe, probe.day)
  }

  /** Four days after the 28th is day `32 - n` of the next month, where `n` is
      the length of the current month; that many days back is its last day. */
  lemma LastDayOfMonthProbe(today: Date)
    requires IsValid(today)
    ensures var probe := AddDays(today.(day := 28), 4);
            SubDays(probe, probe.day) == Date(today.year, today.month, DaysInMonth(today.year, today.month))
  {
    var y, m := today.year, today.month;
    var n := DaysInMonth(y, m);
    var d28 := today.(day := 28);
    var d1 := NextDay(d28);
    var d2 := NextDay(d1);
    var d3 := NextDay(d2);
    var d4 := NextDay(d3);
    assert AddDays(d28, 4) == d4 by {
      assert AddDays(d3, 1) == d4;
      assert AddDays(d2, 2) == d4;
      assert AddDays(d1, 3) == d4;
    }
    var last := Date(y, m, n);
    var first := if m < 12 then Date(y, m + 1, 1) else Date(y + 1, 1, 1);
    assert PrevDay(first) == last;
    if n == 28 {
      assert d1 == first;
      assert d4 == first.(day := 4);
      assert SubDays(d4, 4) == last by {
        assert SubDays(first, 1) == last;
        assert SubDays(first.(day := 2), 2) == last;
        assert SubDays(first.(day := 3), 3) == last;
      }
    } else if n == 29 {
      assert d2 == first;
      assert d4 == first.(day := 3);
      assert SubDays(d4, 3) == last by {
        assert SubDays(first, 1) == last;
        assert SubDays(first.(day := 2), 2) == last;
      }
    } else if n == 30 {
      assert d3 == first;
      assert d4 == first.(day := 2);
      assert SubDays(d4, 2) == last by {
        assert SubDays(first, 1) == last;
      }
    } else {
      assert d4 == first;
      assert SubDays(d4, 1) == last;
    }
  }
}
