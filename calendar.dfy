/**
 * The proleptic Gregorian calendar of Python's `datetime.date`: validity,
 * the day ordinal of `date.toordinal()` (0001-01-01 is day 1), `weekday()`,
 * and moving by whole days as `date + timedelta(days=n)` does.
 */
module Calendar {

  datatype Date = Date(year: int, month: int, day: int)

  predicate IsLeap(y: int) {
    y % 4 == 0 && (y % 100 != 0 || y % 400 == 0)
  }

  function DaysInMonth(y: int, m: int): (n: int)
    requires 1 <= m <= 12
    ensures 28 <= n <= 31
  {
    if m == 2 then (if IsLeap(y) then 29 else 28)
    else if m == 4 || m == 6 || m == 9 || m == 11 then 30
    else 31
  }

  /** `datetime.MAXYEAR`. */
  const MAX_YEAR := 9999

  /** A date `datetime.date` accepts: years 1 to 9999. */
  predicate Valid(d: Date) {
    1 <= d.year <= MAX_YEAR && 1 <= d.month <= 12 && 1 <= d.day <= DaysInMonth(d.year, d.month)
  }

  /** The ordinal of `date.max`, 9999-12-31. */
  const MAX_ORDINAL := 3652059

  function DaysInYear(y: int): int {
    if IsLeap(y) then 366 else 365
  }

  /** Days in the years before `y`: 0001-01-01 is preceded by none. */
  function DaysBeforeYear(y: int): int
    requires 1 <= y
    decreases y
  {
    if y == 1 then 0 else DaysBeforeYear(y - 1) + DaysInYear(y - 1)
  }

  /** The closed form CPython's `_days_before_year` computes. */
  lemma {:induction false} DaysBeforeYearFormula(y: int)
    requires 1 <= y
    ensures var p := y - 1; DaysBeforeYear(y) == 365 * p + p / 4 - p / 100 + p / 400
    decreases y
  {
    if y > 1 {
      DaysBeforeYearFormula(y - 1);
      var p := y - 1;
      DivSteps(p);
      LeapCount(p);
    }
  }

  /** Going from `p - 1` to `p`, the quotients by 4, 100 and 400 grow by one exactly at their multiples. */
  lemma DivSteps(p: int)
    requires 1 <= p
    ensures p / 4 == (p - 1) / 4 + (if p % 4 == 0 then 1 else 0)
    ensures p / 100 == (p - 1) / 100 + (if p % 100 == 0 then 1 else 0)
    ensures p / 400 == (p - 1) / 400 + (if p % 400 == 0 then 1 else 0)
  {
  }

  /** The length of year `p` as the 4-, 100- and 400-year rules add and take away its leap day. */
  lemma LeapCount(p: int)
    ensures DaysInYear(p) == 365 + (if p % 4 == 0 then 1 else 0) - (if p % 100 == 0 then 1 else 0) + (if p % 400 == 0 then 1 else 0)
  {
    if p % 400 == 0 {
      MultipleOf(p, 400, 100);
    }
    if p % 100 == 0 {
      MultipleOf(p, 100, 4);
    }
  }

  lemma MultipleOf(p: int, k: int, j: int)
    requires (k == 400 && j == 100) || (k == 100 && j == 4)
    requires p % k == 0
    ensures p % j == 0
  {
    var n := p / k;
    assert p == k * n;
    if k == 400 {
      assert p == 100 * (4 * n);
    } else {
      assert p == 4 * (25 * n);
    }
  }

  /** Days in the months of year `y` before month `m`, as CPython's `_days_before_month`. */
  function DaysBeforeMonth(y: int, m: int): (n: int)
    requires 1 <= m <= 12
    ensures 0 <= n <= 31 * (m - 1)
  {
    [0, 31, 59, 90, 120, 151, 181, 212, 243, 273, 304, 334][m - 1] + (if m > 2 && IsLeap(y) then 1 else 0)
  }

  lemma MonthLength(y: int, m: int)
    requires 1 <= m < 12
    ensures DaysBeforeMonth(y, m + 1) == DaysBeforeMonth(y, m) + DaysInMonth(y, m)
  {
  }

  /** `date.toordinal()`. */
  function Ordinal(d: Date): int
    requires Valid(d)
  {
    DaysBeforeYear(d.year) + DaysBeforeMonth(d.year, d.month) + d.day
  }

  /** `date.weekday()`: 0 is Monday and 6 is Sunday. */
  function Weekday(d: Date): (w: nat)
    requires Valid(d)
    ensures w < 7
  {
    (Ordinal(d) + 6) % 7
  }

  lemma DecemberEndsYear(y: int)
    ensures DaysBeforeMonth(y, 12) + 31 == DaysInYear(y)
  {
  }

  lemma {:induction false} YearsMonotone(y: int, z: int)
    requires 1 <= y <= z
    ensures DaysBeforeYear(y) + 365 * (z - y) <= DaysBeforeYear(z)
    decreases z - y
  {
    if y < z {
      YearsMonotone(y + 1, z);
    }
  }

  /** Every valid date lies between `date.min` (day 1) and `date.max`. */
  lemma OrdinalRange(d: Date)
    requires Valid(d)
    ensures 1 <= Ordinal(d) <= MAX_ORDINAL
    ensures Ordinal(d) == 1 <==> d == Date(1, 1, 1)
    ensures Ordinal(d) == MAX_ORDINAL <==> d == Date(MAX_YEAR, 12, 31)
  {
    OrdinalLow(d);
    OrdinalHigh(d);
  }

  lemma OrdinalLow(d: Date)
    requires Valid(d)
    ensures 1 <= Ordinal(d)
    ensures Ordinal(d) == 1 <==> d == Date(1, 1, 1)
  {
    YearsMonotone(1, d.year);
    DayOfYearRange(d);
  }

  lemma OrdinalHigh(d: Date)
    requires Valid(d)
    ensures Ordinal(d) <= MAX_ORDINAL
    ensures Ordinal(d) == MAX_ORDINAL <==> d == Date(MAX_YEAR, 12, 31)
  {
    YearEnds(d.year);
    DayOfYearRange(d);
  }

  /** Every year up to 9999 ends on or before `date.max`, and only 9999 ends on it. */
  lemma YearEnds(y: int)
    requires 1 <= y <= MAX_YEAR
    ensures DaysBeforeYear(y) + DaysInYear(y) <= MAX_ORDINAL
    ensures DaysBeforeYear(y) + DaysInYear(y) == MAX_ORDINAL <==> y == MAX_YEAR
  {
    var last := MAX_YEAR;
    LastYearStart(last);
    if y < last {
      YearsMonotone(y + 1, last);
    }
  }

  /** 9999 starts 365 days before `date.max`. */
  lemma LastYearStart(y: int)
    requires y == MAX_YEAR
    ensures DaysBeforeYear(y) == MAX_ORDINAL - 365
  {
    DaysBeforeYearFormula(y);
  }

  /** The day of the year runs from 1 (January 1st) to the year's length (December 31st). */
  lemma DayOfYearRange(d: Date)
    requires Valid(d)
    ensures 1 <= DaysBeforeMonth(d.year, d.month) + d.day <= DaysInYear(d.year)
    ensures DaysBeforeMonth(d.year, d.month) + d.day == 1 <==> d.month == 1 && d.day == 1
    ensures DaysBeforeMonth(d.year, d.month) + d.day == DaysInYear(d.year) <==> d.month == 12 && d.day == 31
  {
  }

  /** The day after `d`; 9999-12-31 has none. */
  function NextDay(d: Date): (n: Date)
    requires Valid(d) && Ordinal(d) < MAX_ORDINAL
    ensures Valid(n) && Ordinal(n) == Ordinal(d) + 1
  {
    if d.day < DaysInMonth(d.year, d.month) then Date(d.year, d.month, d.day + 1)
    else if d.month < 12 then
      MonthLength(d.year, d.month);
      Date(d.year, d.month + 1, 1)
    else
      OrdinalRange(d);
      DecemberEndsYear(d.year);
      Date(d.year + 1, 1, 1)
  }

  /** The day before `d`; 0001-01-01 has none. */
  function PrevDay(d: Date): (p: Date)
    requires Valid(d) && Ordinal(d) > 1
    ensures Valid(p) && Ordinal(p) == Ordinal(d) - 1
  {
    OrdinalRange(d);
    if d.day > 1 then Date(d.year, d.month, d.day - 1)
    else if d.month > 1 then
      MonthLength(d.year, d.month - 1);
      Date(d.year, d.month - 1, DaysInMonth(d.year, d.month - 1))
    else
      DecemberEndsYear(d.year - 1);
      Date(d.year - 1, 12, 31)
  }

  /** `d + timedelta(days=n)`, for an `n` that stays on or before 9999-12-31. */
  function AddDays(d: Date, n: nat): (r: Date)
    requires Valid(d) && Ordinal(d) + n <= MAX_ORDINAL
    ensures Valid(r) && Ordinal(r) == Ordinal(d) + n
    decreases n
  {
    if n == 0 then d else AddDays(NextDay(d), n - 1)
  }

  /** `d - timedelta(days=n)`, for an `n` that stays on or after 0001-01-01. */
  function SubDays(d: Date, n: nat): (r: Date)
    requires Valid(d) && n < Ordinal(d)
    ensures Valid(r) && Ordinal(r) == Ordinal(d) - n
    decreases n
  {
    if n == 0 then d else SubDays(PrevDay(d), n - 1)
  }

  /** Moving `n` days forward moves the weekday `n` places round the week. */
  lemma WeekdayAfter(d: Date, n: nat)
    requires Valid(d) && Ordinal(d) + n <= MAX_ORDINAL
    ensures Weekday(AddDays(d, n)) == (Weekday(d) + n) % 7
  {
    var e := AddDays(d, n);
    WeekShift(Ordinal(d), Ordinal(e), Weekday(d), Weekday(e), n);
  }

  /** Moving `n` days back moves the weekday `n` places back round the week. */
  lemma WeekdayBefore(d: Date, n: nat)
    requires Valid(d) && n < Ordinal(d)
    ensures Weekday(SubDays(d, n)) == (Weekday(d) - n) % 7
  {
    var e := SubDays(d, n);
    WeekShift(Ordinal(d), Ordinal(e), Weekday(d), Weekday(e), -(n as int));
  }

  lemma WeekShift(a: int, b: int, wa: int, wb: int, n: int)
    requires b == a + n && wa == (a + 6) % 7 && wb == (b + 6) % 7
    ensures wb == (wa + n) % 7
  {
  }
}
