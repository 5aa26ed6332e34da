/** The proleptic Gregorian calendar as Go's `time` package computes it in UTC. */
module Calendar {

  datatype Date = Date(year: int, month: int, day: int)

  predicate Leap(year: int) { year % 4 == 0 && (year % 100 != 0 || year % 400 == 0) }

  function MonthDays(year: int, month: int): (n: int)
    ensures 28 <= n <= 31
  {
    if month == 2 then (if Leap(year) then 29 else 28)
    else if month == 4 || month == 6 || month == 9 || month == 11 then 30
    else 31
  }

  predicate Valid(d: Date) { 1 <= d.month <= 12 && 1 <= d.day <= MonthDays(d.year, d.month) }

  /** The next day, by the rules of the calendar: month ends, year ends, leap days. */
  function Tomorrow(d: Date): Date {
    if d.day < MonthDays(d.year, d.month) then Date(d.year, d.month, d.day + 1)
    else if d.month < 12 then Date(d.year, d.month + 1, 1)
    else Date(d.year + 1, 1, 1)
  }

  // ----- from a date to its day number -----

  /** Days from 1 January of year 1 to 1 January of `year`. */
  function YearStart(year: int): int {
    var z := year - 1;
    365 * z + z / 4 - z / 100 + z / 400
  }

  function YearDays(year: int): int { if Leap(year) then 366 else 365 }

  /** Days of `year` before its month `month`. */
  function BeforeMonth(year: int, month: int): (n: nat)
    requires 1 <= month <= 13
    decreases month
  {
    if month == 1 then 0 else BeforeMonth(year, month - 1) + MonthDays(year, month - 1)
  }

  /** Days from 1 January 1 to 1 January 1970. */
  const EPOCH := 719162

  /** Day number since 1970, linear in the day: a day past the month's end runs on into the next month. */
  function DayNumber(d: Date): int
    requires 1 <= d.month <= 12
  {
    YearStart(d.year) + BeforeMonth(d.year, d.month) + d.day - 1 - EPOCH
  }

  // ----- from a day number to its date -----

  /** A year and the days past its first, by cycles of 400, 100, 4 and 1 years. */
  function YearAndDay(n: int): (int, int) {
    var q, r := n / 146097, n % 146097;
    var c := if r / 36524 == 4 then 3 else r / 36524;
    var r1 := r - 36524 * c;
    var k, r2 := r1 / 1461, r1 % 1461;
    var a := if r2 / 365 == 4 then 3 else r2 / 365;
    (400 * q + 100 * c + 4 * k + a + 1, r2 - 365 * a)
  }

  /** The month, from `month` on, in which day `rest` past that month's first falls. */
  function MonthAndDay(year: int, month: int, rest: nat): (int, int)
    requires 1 <= month <= 12
    decreases 12 - month
  {
    if rest < MonthDays(year, month) || month == 12 then (month, rest + 1)
    else MonthAndDay(year, month + 1, rest - MonthDays(year, month))
  }

  function Civil(n: int): Date {
    var (year, yday) := YearAndDay(n + EPOCH);
    var (month, day) := MonthAndDay(year, 1, if yday < 0 then 0 else yday);
    Date(year, month, day)
  }

  // ----- the two agree -----

  lemma YearStartStep(year: int)
    ensures YearStart(year + 1) == YearStart(year) + YearDays(year)
  {
    var z := year - 1;
    DivStep(z, 4);
    DivStep(z, 100);
    DivStep(z, 400);
    LeapByDivisors(year);
  }

  lemma LeapByDivisors(year: int)
    ensures (if year % 4 == 0 then 1 else 0) - (if year % 100 == 0 then 1 else 0) + (if year % 400 == 0 then 1 else 0)
            == if Leap(year) then 1 else 0
  {
    if year % 400 == 0 {
      Centuries(year);
    }
    if year % 100 == 0 {
      Fours(year);
    }
  }

  lemma Centuries(year: int)
    requires year % 400 == 0
    ensures year % 100 == 0
  {
    assert year == 100 * (4 * (year / 400));
  }

  lemma Fours(year: int)
    requires year % 100 == 0
    ensures year % 4 == 0
  {
    assert year == 4 * (25 * (year / 100));
  }

  lemma DivStep(z: int, m: int)
    requires m == 4 || m == 100 || m == 400
    ensures (z + 1) / m == z / m + (if (z + 1) % m == 0 then 1 else 0)
  {
  }

  lemma {:induction false} YearStartMonotone(a: int, b: int)
    requires a <= b
    ensures YearStart(a) + 365 * (b - a) <= YearStart(b)
    decreases b - a
  {
    if a < b {
      YearStartMonotone(a, b - 1);
      YearStartStep(b - 1);
    }
  }

  /** The cycle decomposition of a year number gives its first day. */
  lemma CycleStart(q: int, c: int, k: int, a: int)
    requires 0 <= c <= 3 && 0 <= k <= 24 && 0 <= a <= 3
    ensures YearStart(400 * q + 100 * c + 4 * k + a + 1) == 146097 * q + 36524 * c + 1461 * k + 365 * a
  {
    var z := 400 * q + 100 * c + 4 * k + a;
    assert z / 4 == 100 * q + 25 * c + k;
    assert z / 100 == 4 * q + c;
    assert z / 400 == q;
  }

  /** The year found is the one the day lies in. */
  lemma YearAndDayCorrect(n: int)
    ensures var (year, yday) := YearAndDay(n);
            YearStart(year) + yday == n && 0 <= yday < YearDays(year)
  {
    var q, r := n / 146097, n % 146097;
    var c := if r / 36524 == 4 then 3 else r / 36524;
    var r1 := r - 36524 * c;
    var k, r2 := r1 / 1461, r1 % 1461;
    var a := if r2 / 365 == 4 then 3 else r2 / 365;
    assert 0 <= c <= 3 && 0 <= r1 <= 36524 && (r1 == 36524 ==> c == 3);
    assert 0 <= k <= 24 && (k == 24 && r2 == 1460 ==> r1 == 36524);
    assert 0 <= a <= 3 && 0 <= r2 - 365 * a <= 365 && (r2 - 365 * a == 365 ==> a == 3 && r2 == 1460);
    CycleStart(q, c, k, a);
    if r2 - 365 * a == 365 {
      CycleEndIsLeap(q, c, k);
    }
  }

  lemma CycleEndIsLeap(q: int, c: int, k: int)
    requires 0 <= c <= 3 && 0 <= k <= 24 && (k == 24 ==> c == 3)
    ensures Leap(400 * q + 100 * c + 4 * k + 3 + 1)
  {
    var year := 400 * q + 100 * c + 4 * k + 4;
    assert year % 4 == 0;
    if k == 24 {
      assert year % 400 == 0;
    } else {
      assert year % 100 == 4 * k + 4;
    }
  }

  /** Days of `year` from its month `month` on. */
  function FromMonth(year: int, month: int): (n: nat)
    requires 1 <= month <= 12
    decreases 12 - month
  {
    MonthDays(year, month) + if month == 12 then 0 else FromMonth(year, month + 1)
  }

  lemma NextMonth(year: int, month: int)
    requires 1 <= month <= 12
    ensures BeforeMonth(year, month + 1) == BeforeMonth(year, month) + MonthDays(year, month)
  {
  }

  lemma {:induction false} MonthAndDayCorrect(year: int, month: int, rest: nat)
    requires 1 <= month <= 12 && rest < FromMonth(year, month)
    ensures var (m, d) := MonthAndDay(year, month, rest);
            month <= m <= 12 && 1 <= d <= MonthDays(year, m)
            && BeforeMonth(year, m) + d - 1 == BeforeMonth(year, month) + rest
    decreases 12 - month
  {
    if rest >= MonthDays(year, month) && month < 12 {
      NextMonth(year, month);
      MonthAndDayCorrect(year, month + 1, rest - MonthDays(year, month));
    }
  }

  lemma YearLength(year: int)
    ensures BeforeMonth(year, 13) == YearDays(year)
  {
    var f := MonthDays(year, 2);
    assert BeforeMonth(year, 3) == 31 + f;
    assert BeforeMonth(year, 5) == BeforeMonth(year, 3) + 61;
    assert BeforeMonth(year, 7) == BeforeMonth(year, 5) + 61;
    assert BeforeMonth(year, 9) == BeforeMonth(year, 7) + 62;
    assert BeforeMonth(year, 11) == BeforeMonth(year, 9) + 61;
    assert BeforeMonth(year, 13) == BeforeMonth(year, 11) + 61;
  }

  lemma WholeYear(year: int)
    ensures FromMonth(year, 1) == YearDays(year)
  {
    assert FromMonth(year, 11) == 61;
    assert FromMonth(year, 9) == 61 + 61;
    assert FromMonth(year, 7) == 62 + 122;
    assert FromMonth(year, 5) == 61 + 184;
    assert FromMonth(year, 3) == 61 + 245;
  }

  /** Every day number has a valid date, and that date has this number. */
  lemma CivilCorrect(n: int)
    ensures Valid(Civil(n)) && DayNumber(Civil(n)) == n
  {
    YearAndDayCorrect(n + EPOCH);
    var (year, yday) := YearAndDay(n + EPOCH);
    WholeYear(year);
    MonthAndDayCorrect(year, 1, yday);
  }

  lemma {:induction false} BeforeMonthMonotone(year: int, a: int, b: int)
    requires 1 <= a < b <= 13
    ensures BeforeMonth(year, a) + MonthDays(year, a) <= BeforeMonth(year, b)
    decreases b - a
  {
    if a + 1 < b {
      BeforeMonthMonotone(year, a, b - 1);
    }
  }

  lemma LiesInYear(d: Date)
    requires Valid(d)
    ensures YearStart(d.year) <= DayNumber(d) + EPOCH < YearStart(d.year + 1)
  {
    YearLength(d.year);
    YearStartStep(d.year);
    BeforeMonthMonotone(d.year, d.month, 13);
  }

  lemma LaterYearIsLater(a: Date, b: Date)
    requires Valid(a) && Valid(b) && a.year < b.year
    ensures DayNumber(a) < DayNumber(b)
  {
    LiesInYear(a);
    LiesInYear(b);
    YearStartMonotone(a.year + 1, b.year);
  }

  lemma LaterMonthIsLater(a: Date, b: Date)
    requires Valid(a) && Valid(b) && a.year == b.year && a.month < b.month
    ensures DayNumber(a) < DayNumber(b)
  {
    BeforeMonthMonotone(a.year, a.month, b.month);
  }

  /** Different dates have different numbers. */
  lemma DayNumberInjective(a: Date, b: Date)
    requires Valid(a) && Valid(b) && DayNumber(a) == DayNumber(b)
    ensures a == b
  {
    if a.year < b.year { LaterYearIsLater(a, b); }
    else if b.year < a.year { LaterYearIsLater(b, a); }
    else if a.month < b.month { LaterMonthIsLater(a, b); }
    else if b.month < a.month { LaterMonthIsLater(b, a); }
  }

  /** And the date of a date's number is that date. */
  lemma CivilOfDayNumber(d: Date)
    requires Valid(d)
    ensures Civil(DayNumber(d)) == d
  {
    CivilCorrect(DayNumber(d));
    DayNumberInjective(Civil(DayNumber(d)), d);
  }

  lemma TomorrowIsOneLater(d: Date)
    requires Valid(d)
    ensures Valid(Tomorrow(d)) && DayNumber(Tomorrow(d)) == DayNumber(d) + 1
  {
    if d.day == MonthDays(d.year, d.month) {
      if d.month < 12 {
        assert BeforeMonth(d.year, d.month + 1) == BeforeMonth(d.year, d.month) + MonthDays(d.year, d.month);
      } else {
        YearLength(d.year);
        YearStartStep(d.year);
        assert BeforeMonth(d.year, 13) == BeforeMonth(d.year, 12) + MonthDays(d.year, 12);
      }
    }
  }

  lemma CivilOf(d: Date, n: int)
    requires Valid(d) && DayNumber(d) == n
    ensures Civil(n) == d
  {
    CivilOfDayNumber(d);
  }

  lemma CivilOfTomorrow(d: Date, n: int)
    requires Valid(d) && DayNumber(d) == n
    ensures Civil(n + 1) == Tomorrow(d)
  {
    TomorrowIsOneLater(d);
    CivilOf(Tomorrow(d), n + 1);
  }

  /** One day later by number is tomorrow by the calendar. */
  lemma NextDayIsTomorrow(n: int)
    ensures Civil(n + 1) == Tomorrow(Civil(n))
  {
    CivilCorrect(n);
    CivilOfTomorrow(Civil(n), n);
  }

  /** The count starts on 1 January 1970, and the months have their usual lengths. */
  lemma UsualCalendar(year: int, month: int)
    requires 1 <= month <= 12
    ensures Civil(0) == Date(1970, 1, 1)
    ensures MonthDays(year, month) ==
            [31, if year % 4 == 0 && (year % 100 != 0 || year % 400 == 0) then 29 else 28,
             31, 30, 31, 30, 31, 31, 30, 31, 30, 31][month - 1]
  {
    CivilOf(Date(1970, 1, 1), 0);
  }
}
