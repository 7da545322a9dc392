/** The civil calendar: days as whole numbers, counted so that day 1 is the first of January of
    year 1, a Monday. */
module Civil {

  predicate Leap(year: int) {
    year % 4 == 0 && (year % 100 != 0 || year % 400 == 0)
  }

  function DaysIn(year: int, month: int): nat {
    if month == 2 then (if Leap(year) then 29 else 28)
    else if month == 4 || month == 6 || month == 9 || month == 11 then 30
    else 31
  }

  predicate ValidDate(year: int, month: int, day: int) {
    1 <= month <= 12 && 1 <= day <= DaysIn(year, month)
  }

  /** Months are numbered on from January of year 0. */
  function YearOf(month: int): int { month / 12 }

  function MonthOfYear(month: int): int { month % 12 + 1 }

  function Length(month: int): nat { DaysIn(YearOf(month), MonthOfYear(month)) }

  /** January of year 1, whose first is day 1. */
  const EPOCH := 12

  /** The first day of a month: months follow one another with no day between or shared. */
  function First(month: int): int
    decreases if month < EPOCH then EPOCH - month else month - EPOCH
  {
    if month == EPOCH then 1
    else if month > EPOCH then First(month - 1) + Length(month - 1)
    else First(month + 1) - Length(month)
  }

  lemma MonthsAbut(month: int)
    ensures First(month + 1) == First(month) + Length(month)
    ensures 28 <= Length(month) <= 31
  {}

  /** Days before the first of January. */
  function DaysBefore(year: int): int {
    365 * (year - 1) + (year - 1) / 4 - (year - 1) / 100 + (year - 1) / 400
  }

  function DaysBeforeMonth(year: int, month: int): int {
    var common := match month
      case 1 => 0
      case 2 => 31
      case 3 => 59
      case 4 => 90
      case 5 => 120
      case 6 => 151
      case 7 => 181
      case 8 => 212
      case 9 => 243
      case 10 => 273
      case 11 => 304
      case _ => 334;
    if month > 2 && Leap(year) then common + 1 else common
  }

  lemma YearIsLeapLong(year: int)
    ensures DaysBefore(year + 1) - DaysBefore(year) == if Leap(year) then 366 else 365
  {
    assert year / 4 - (year - 1) / 4 == if year % 4 == 0 then 1 else 0;
    assert year / 100 - (year - 1) / 100 == if year % 100 == 0 then 1 else 0;
    assert year / 400 - (year - 1) / 400 == if year % 400 == 0 then 1 else 0;
  }

  function Closed(month: int): int {
    DaysBefore(YearOf(month)) + DaysBeforeMonth(YearOf(month), MonthOfYear(month)) + 1
  }

  lemma ClosedSteps(month: int)
    ensures Closed(month + 1) == Closed(month) + Length(month)
  {
    if month % 12 == 11 {
      assert (month + 1) / 12 == month / 12 + 1 && (month + 1) % 12 == 0;
      YearIsLeapLong(YearOf(month));
    } else {
      assert (month + 1) / 12 == month / 12 && (month + 1) % 12 == month % 12 + 1;
    }
  }

  /** The Gregorian rule, added up, is where each month begins. */
  lemma {:induction false} FirstIsClosed(month: int)
    ensures First(month) == Closed(month)
    decreases if month < EPOCH then EPOCH - month else month - EPOCH
  {
    if month > EPOCH {
      FirstIsClosed(month - 1);
      ClosedSteps(month - 1);
    } else if month < EPOCH {
      FirstIsClosed(month + 1);
      ClosedSteps(month);
    }
  }

  /** The month a day falls in. */
  predicate InMonth(day: int, month: int) {
    First(month) <= day < First(month + 1)
  }

  lemma {:induction false} MonthsInOrder(m: int, n: int)
    requires m <= n
    ensures First(m) + 28 * (n - m) <= First(n) <= First(m) + 31 * (n - m)
    decreases n - m
  {
    if m < n {
      MonthsInOrder(m, n - 1);
      MonthsAbut(n - 1);
    }
  }

  lemma OneMonthEach(day: int, m: int, n: int)
    requires InMonth(day, m) && InMonth(day, n)
    ensures m == n
  {
    if m < n { MonthsInOrder(m + 1, n); }
    if n < m { MonthsInOrder(n + 1, m); }
  }

  /** Walks from a guess to the month holding a day. */
  function MonthFrom(guess: int, day: int): int
    decreases if First(guess) <= day then 0 else 1,
              if First(guess) <= day then day - First(guess) else First(guess) - day
  {
    MonthsAbut(guess);
    MonthsAbut(guess - 1);
    if day < First(guess) then MonthFrom(guess - 1, day)
    else if First(guess + 1) <= day then MonthFrom(guess + 1, day)
    else guess
  }

  function MonthOf(day: int): int { MonthFrom(EPOCH, day) }

  lemma {:induction false} MonthFromHolds(guess: int, day: int)
    ensures InMonth(day, MonthFrom(guess, day))
    decreases if First(guess) <= day then 0 else 1,
              if First(guess) <= day then day - First(guess) else First(guess) - day
  {
    MonthsAbut(guess);
    MonthsAbut(guess - 1);
    if day < First(guess) {
      MonthFromHolds(guess - 1, day);
    } else if First(guess + 1) <= day {
      MonthFromHolds(guess + 1, day);
    }
  }

  /** Every day falls in exactly one month. */
  lemma MonthOfHolds(day: int, month: int)
    ensures InMonth(day, month) <==> MonthOf(day) == month
  {
    MonthFromHolds(EPOCH, day);
    if InMonth(day, month) { OneMonthEach(day, MonthOf(day), month); }
  }

  /** The day of the week, with Sunday as 0. */
  function Weekday(day: int): int { day % 7 }
}
