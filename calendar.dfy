/**
 * Instants and the proleptic Gregorian calendar of .NET's DateTime, as far as the
 * core needs them: the year and month of an instant (for "yyyyMM" buckets) and
 * stepping a month bucket back (DateTimeOffset.AddMonths with a negative count).
 */
module Calendar {
  import opened Wrappers

  /** DateTimeOffset.MaxValue.UtcTicks: 9999-12-31 23:59:59.9999999. */
  const MaxTicks: int := 3155378975999999999
  const TicksPerDay: int := 864000000000
  const DaysPer400Years: int := 146097
  const DaysPer100Years: int := 36524
  const DaysPer4Years: int := 1461
  const DaysPerYear: int := 365

  /**
   * A DateTimeOffset, as its UTC ticks (100 ns units since 0001-01-01T00:00Z).
   * The offset is taken to be zero: every value the core handles comes from
   * DateTimeOffset.UtcNow or from the table service, which returns UTC.
   */
  type Instant = t: int | 0 <= t <= MaxTicks

  /** `default(DateTimeOffset)`: 0001-01-01T00:00:00Z. */
  const DefaultInstant: Instant := 0

  datatype YearMonth = YearMonth(year: int, month: int)

  predicate ValidYearMonth(ym: YearMonth) {
    1 <= ym.year <= 9999 && 1 <= ym.month <= 12
  }

  /** Days from January 1 to the first day of month `m + 1` (DaysToMonth365/366). */
  function DaysToMonth(leap: bool, m: int): (d: int)
    requires 0 <= m <= 12
    ensures 0 <= d <= (if leap then 366 else 365)
  {
    var common := [0, 31, 59, 90, 120, 151, 181, 212, 243, 273, 304, 334, 365];
    if leap && m >= 2 then common[m] + 1 else common[m]
  }

  /** The month (1-12) holding zero-based day `day` of the year: the first `m` with `day < DaysToMonth(m)`. */
  function MonthOfDay(day: int, leap: bool, m: int): (r: int)
    requires 1 <= m <= 12 && DaysToMonth(leap, m - 1) <= day < DaysToMonth(leap, 12)
    ensures m <= r <= 12
    ensures DaysToMonth(leap, r - 1) <= day < DaysToMonth(leap, r)
    decreases 12 - m
  {
    if day < DaysToMonth(leap, m) then m else MonthOfDay(day, leap, m + 1)
  }

  /** Whole 400-year cycles and the day within the cycle. */
  function Split400(n: int): (c: (int, int))
    requires 0 <= n <= 3652058
    ensures 0 <= c.0 <= 24 && 0 <= c.1 < DaysPer400Years && n == c.0 * DaysPer400Years + c.1
    ensures c.0 == 24 ==> c.1 <= 145730
  {
    (n / DaysPer400Years, n % DaysPer400Years)
  }

  /** Whole centuries within a 400-year cycle; the cycle's last day stays in the fourth century. */
  function Split100(n: int): (c: (int, int))
    requires 0 <= n < DaysPer400Years
    ensures 0 <= c.0 <= 3 && 0 <= c.1 <= DaysPer100Years && n == c.0 * DaysPer100Years + c.1
    ensures c.1 == DaysPer100Years ==> c.0 == 3
    ensures n <= 145730 ==> c.0 < 3 || c.1 <= 36158
  {
    var q := if n / DaysPer100Years == 4 then 3 else n / DaysPer100Years;
    (q, n - q * DaysPer100Years)
  }

  /** Whole 4-year cycles within a century. */
  function Split4(n: int): (c: (int, int))
    requires 0 <= n <= DaysPer100Years
    ensures 0 <= c.0 <= 24 && 0 <= c.1 < DaysPer4Years && n == c.0 * DaysPer4Years + c.1
    ensures n <= 36158 ==> c.0 < 24 || c.1 <= 1094
    ensures c.0 == 24 ==> c.1 <= 1460
  {
    (n / DaysPer4Years, n % DaysPer4Years)
  }

  /** Whole years within a 4-year cycle and the zero-based day of the year. */
  function Split1(n: int): (c: (int, int))
    requires 0 <= n < DaysPer4Years
    ensures 0 <= c.0 <= 3 && 0 <= c.1 <= DaysPerYear && n == c.0 * DaysPerYear + c.1
    ensures c.1 == DaysPerYear ==> c.0 == 3 && n == 1460
    ensures n <= 1094 ==> c.0 <= 2
  {
    var q := if n / DaysPerYear == 4 then 3 else n / DaysPerYear;
    (q, n - q * DaysPerYear)
  }

  /**
   * Year and month of an instant, by the 400/100/4/1-year cycle decomposition
   * that DateTime.GetDatePart uses.
   */
  function YearMonthOf(t: Instant): (ym: YearMonth)
    ensures ValidYearMonth(ym)
  {
    var n := t / TicksPerDay;
    var (y400, n1) := Split400(n);
    var (y100, n2) := Split100(n1);
    var (y4, n3) := Split4(n2);
    var (y1, day) := Split1(n3);
    var leap := y1 == 3 && (y4 != 24 || y100 == 3);
    YearMonth(y400 * 400 + y100 * 100 + y4 * 4 + y1 + 1, MonthOfDay(day, leap, 1))
  }

  /** The calendar month just before `ym`. */
  function PreviousMonth(ym: YearMonth): YearMonth {
    if ym.month == 1 then YearMonth(ym.year - 1, 12) else YearMonth(ym.year, ym.month - 1)
  }

  /**
   * The month `i` months before `ym`, stepping back one month at a time; `None` once a step
   * would leave year 1, where `DateTimeOffset.AddMonths(-i)` throws ArgumentOutOfRangeException.
   */
  function MonthsBefore(ym: YearMonth, i: nat): (r: Option<YearMonth>)
    requires ValidYearMonth(ym)
    ensures r.Some? ==> ValidYearMonth(r.value)
    decreases i
  {
    if i == 0 then Some(ym)
    else match MonthsBefore(ym, i - 1)
      case None => None
      case Some(m) => if m.year == 1 && m.month == 1 then None else Some(PreviousMonth(m))
  }

  /** Month `index` counted from January of year 0, as AddMonths computes it. */
  function FromMonthIndex(index: int): (ym: YearMonth)
    requires 12 <= index < 120000
    ensures ValidYearMonth(ym)
  {
    YearMonth(index / 12, index % 12 + 1)
  }

  /**
   * Stepping back `i` months is AddMonths' arithmetic: subtract `i` from the month index,
   * and fail exactly when the result falls before January of year 1.
   */
  lemma {:induction false} MonthsBeforeIsAddMonths(ym: YearMonth, i: nat)
    requires ValidYearMonth(ym)
    ensures var index := ym.year * 12 + (ym.month - 1) - i;
      MonthsBefore(ym, i) == if index < 12 then None else Some(FromMonthIndex(index))
    decreases i
  {
    if i > 0 {
      MonthsBeforeIsAddMonths(ym, i - 1);
      var index := ym.year * 12 + (ym.month - 1) - (i - 1);
      if index >= 12 {
        var m := FromMonthIndex(index);
        assert m.year == 1 && m.month == 1 <==> index == 12;
        if index > 12 {
          assert PreviousMonth(m) == FromMonthIndex(index - 1);
        }
      }
    }
  }

  /** Reference dates: the first and last instants. */
  lemma CalendarEnds()
    ensures YearMonthOf(DefaultInstant) == YearMonth(1, 1)
    ensures YearMonthOf(MaxTicks) == YearMonth(9999, 12)
  {
  }

  /** Reference date: 2024-02-29T00:00Z, a leap day. */
  lemma LeapDay2024()
    ensures YearMonthOf(638447616000000000) == YearMonth(2024, 2)
  {
  }

  /** Reference date: 2023-12-31T23:59:59.9999999Z, the last tick of a year. */
  lemma LastTickOf2023()
    ensures YearMonthOf(638396639999999999) == YearMonth(2023, 12)
  {
  }

  /** Reference date: the last tick of February 1900, a century year that is not a leap year. */
  lemma EndOfFebruary1900()
    ensures YearMonthOf(599317055999999999) == YearMonth(1900, 2)
  {
  }

  /** Reference date: 2025-10-01T00:00Z. */
  lemma October2025()
    ensures YearMonthOf(638948736000000000) == YearMonth(2025, 10)
  {
  }
}
