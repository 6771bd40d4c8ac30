/** The proleptic Gregorian calendar, counted from 1970-01-01 as `std::chrono::sys_days` counts it. */
module Calendar {
  datatype Date = Date(year: int, month: int, day: int)

  predicate IsLeap(y: int) {
    y % 4 == 0 && (y % 100 != 0 || y % 400 == 0)
  }

  function MonthLength(y: int, m: int): int {
    if m == 2 then (if IsLeap(y) then 29 else 28)
    else if m == 4 || m == 6 || m == 9 || m == 11 then 30
    else 31
  }

  predicate IsDate(d: Date) {
    1 <= d.month <= 12 && 1 <= d.day <= MonthLength(d.year, d.month)
  }

  function Tomorrow(d: Date): (r: Date)
    requires IsDate(d)
    ensures IsDate(r)
  {
    if d.day < MonthLength(d.year, d.month) then d.(day := d.day + 1)
    else if d.month < 12 then Date(d.year, d.month + 1, 1)
    else Date(d.year + 1, 1, 1)
  }

  function Yesterday(d: Date): (r: Date)
    requires IsDate(d)
    ensures IsDate(r) && Tomorrow(r) == d
  {
    if d.day > 1 then d.(day := d.day - 1)
    else if d.month > 1 then Date(d.year, d.month - 1, MonthLength(d.year, d.month - 1))
    else Date(d.year - 1, 12, 31)
  }

  /** The date `n` days after 1970-01-01 (before it, for a negative `n`). */
  function DateOf(n: int): (d: Date)
    ensures IsDate(d)
    decreases if n < 0 then -n else n
  {
    if n == 0 then Date(1970, 1, 1)
    else if n > 0 then Tomorrow(DateOf(n - 1))
    else Yesterday(DateOf(n + 1))
  }

  // ----- counting by whole years and months, which gives order and bounds

  function YearLength(y: int): int {
    if IsLeap(y) then 366 else 365
  }

  /** Days from 1970-01-01 to the first day of year `y`. */
  function DaysBeforeYear(y: int): int
    decreases if y < 1970 then 1970 - y else y - 1970
  {
    if y == 1970 then 0
    else if y > 1970 then DaysBeforeYear(y - 1) + YearLength(y - 1)
    else DaysBeforeYear(y + 1) - YearLength(y)
  }

  function DaysBeforeMonth(y: int, m: int): int
    decreases m
  {
    if m <= 1 then 0 else DaysBeforeMonth(y, m - 1) + MonthLength(y, m - 1)
  }

  function DayNumber(d: Date): int {
    DaysBeforeYear(d.year) + DaysBeforeMonth(d.year, d.month) + d.day - 1
  }

  lemma MonthsFillYear(y: int)
    ensures DaysBeforeMonth(y, 13) == YearLength(y)
  {
    assert DaysBeforeMonth(y, 4) == MonthLength(y, 1) + MonthLength(y, 2) + MonthLength(y, 3);
    assert DaysBeforeMonth(y, 7) == DaysBeforeMonth(y, 4) + 91;
    assert DaysBeforeMonth(y, 10) == DaysBeforeMonth(y, 7) + 92;
  }

  lemma TomorrowCounts(d: Date)
    requires IsDate(d)
    ensures DayNumber(Tomorrow(d)) == DayNumber(d) + 1
  {
    MonthsFillYear(d.year);
  }

  lemma YesterdayCounts(d: Date)
    requires IsDate(d)
    ensures DayNumber(Yesterday(d)) == DayNumber(d) - 1
  {
    TomorrowCounts(Yesterday(d));
  }

  /** Counting day by day and counting by years and months agree. */
  lemma {:induction false} DayNumberOfDate(n: int)
    ensures DayNumber(DateOf(n)) == n
    decreases if n < 0 then -n else n
  {
    if n > 0 {
      DayNumberOfDate(n - 1);
      TomorrowCounts(DateOf(n - 1));
    } else if n < 0 {
      DayNumberOfDate(n + 1);
      YesterdayCounts(DateOf(n + 1));
    }
  }

  lemma {:induction false} YearsApart(y: int, z: int)
    requires y <= z
    ensures DaysBeforeYear(z) - DaysBeforeYear(y) >= 365 * (z - y)
    decreases z - y
  {
    if y < z {
      YearsApart(y, z - 1);
    }
  }

  lemma {:induction false} MonthsApart(y: int, m: int, k: int)
    requires 1 <= m < k <= 13
    ensures DaysBeforeMonth(y, m) + MonthLength(y, m) <= DaysBeforeMonth(y, k)
    decreases k
  {
    if m + 1 < k {
      MonthsApart(y, m, k - 1);
    }
  }

  predicate Earlier(a: Date, b: Date) {
    a.year < b.year
    || (a.year == b.year && (a.month < b.month || (a.month == b.month && a.day < b.day)))
  }

  lemma WithinYear(d: Date)
    requires IsDate(d)
    ensures 0 <= DaysBeforeMonth(d.year, d.month) + d.day - 1
    ensures DayNumber(d) < DaysBeforeYear(d.year + 1)
  {
    MonthsFillYear(d.year);
    MonthsApart(d.year, d.month, 13);
    if d.month > 1 {
      MonthsApart(d.year, 1, d.month);
    }
  }

  lemma EarlierCounts(a: Date, b: Date)
    requires IsDate(a) && IsDate(b) && Earlier(a, b)
    ensures DayNumber(a) < DayNumber(b)
  {
    WithinYear(a);
    WithinYear(b);
    if a.year < b.year {
      YearsApart(a.year + 1, b.year);
    } else if a.month < b.month {
      MonthsApart(a.year, a.month, b.month);
    }
  }

  /** Dates are ordered as the days they name. */
  lemma DatesInOrder(n: int, m: int)
    ensures Earlier(DateOf(n), DateOf(m)) <==> n < m
  {
    DayNumberOfDate(n);
    DayNumberOfDate(m);
    if Earlier(DateOf(n), DateOf(m)) {
      EarlierCounts(DateOf(n), DateOf(m));
    } else if DateOf(n) != DateOf(m) {
      EarlierCounts(DateOf(m), DateOf(n));
    }
  }

  // ----- the day number in closed form

  /** Leap years before year `y`, from year 1 on (less than none before it). */
  function LeapYearsBefore(y: int): int {
    (y - 1) / 4 - (y - 1) / 100 + (y - 1) / 400
  }

  /** The day number as `std::chrono` computes it, without counting: years begin in March, so that the leap day
      comes last and the months before it have a fixed rhythm of five. */
  function CivilNumber(d: Date): int {
    var y := if d.month <= 2 then d.year - 1 else d.year;
    var m := if d.month <= 2 then d.month + 9 else d.month - 3;
    365 * y + y / 4 - y / 100 + y / 400 + (153 * m + 2) / 5 + d.day - 1 - 719468
  }

  lemma OneMoreYear(y: int)
    ensures LeapYearsBefore(y + 1) - LeapYearsBefore(y) == YearLength(y) - 365
  {
    Multiples(y, 4);
    Multiples(y, 100);
    Multiples(y, 400);
    CenturiesAreFours(y);
  }

  lemma CenturiesAreFours(y: int)
    ensures y % 400 == 0 ==> y % 100 == 0
    ensures y % 100 == 0 ==> y % 4 == 0
  {
    FourHundreds(y, y / 400);
    Hundreds(y, y / 100);
  }

  lemma FourHundreds(y: int, q: int)
    ensures y == 400 * q ==> y % 100 == 0
  {
  }

  lemma Hundreds(y: int, q: int)
    ensures y == 100 * q ==> y % 4 == 0
  {
  }

  lemma Multiples(y: int, k: int)
    requires k == 4 || k == 100 || k == 400
    ensures y / k - (y - 1) / k == if y % k == 0 then 1 else 0
  {
  }

  lemma {:induction false} YearsInClosedForm(y: int)
    ensures DaysBeforeYear(y) == 365 * (y - 1970) + LeapYearsBefore(y) - 477
    decreases if y < 1970 then 1970 - y else y - 1970
  {
    if y == 1970 {
      assert LeapYearsBefore(1970) == 477;
    } else if y > 1970 {
      YearsInClosedForm(y - 1);
      OneMoreYear(y - 1);
    } else {
      YearsInClosedForm(y + 1);
      OneMoreYear(y);
    }
  }

  /** Days from the first of January to the first of the month. */
  lemma MonthsInClosedForm(y: int, m: int)
    requires 1 <= m <= 12
    ensures DaysBeforeMonth(y, m) == if m <= 2 then 31 * (m - 1)
                                     else (153 * (m - 3) + 2) / 5 + 59 + (if IsLeap(y) then 1 else 0)
  {
    var leap := if IsLeap(y) then 1 else 0;
    assert DaysBeforeMonth(y, 3) == 59 + leap;
    assert DaysBeforeMonth(y, 5) == 120 + leap;
    assert DaysBeforeMonth(y, 7) == 181 + leap;
    assert DaysBeforeMonth(y, 9) == 243 + leap;
    assert DaysBeforeMonth(y, 11) == 304 + leap;
  }

  /** Counting days and the closed form agree on every date, and so the closed form finds every day. */
  lemma CountingIsClosedForm(d: Date)
    requires IsDate(d)
    ensures DayNumber(d) == CivilNumber(d)
  {
    YearsInClosedForm(d.year);
    MonthsInClosedForm(d.year, d.month);
    if d.month > 2 {
      OneMoreYear(d.year);
    }
  }

  lemma DateOfInClosedForm(n: int)
    ensures CivilNumber(DateOf(n)) == n
  {
    CountingIsClosedForm(DateOf(n));
    DayNumberOfDate(n);
  }

  /** Every day that holds an int64 nanosecond count lies in a four-digit year. */
  lemma YearBounds(n: int)
    requires -106752 <= n <= 106751
    ensures 1677 <= DateOf(n).year <= 2262
  {
    var d := DateOf(n);
    DayNumberOfDate(n);
    WithinYear(d);
    if d.year > 2262 {
      YearsApart(1970, d.year);
    } else if d.year < 1677 {
      YearsApart(d.year + 1, 1970);
    }
  }
}
