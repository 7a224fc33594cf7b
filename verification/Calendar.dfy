// The proleptic Gregorian calendar both languages of the repository lean on: Python's `datetime` in
// the backup path and JavaScript's `Date` in the end-to-end suite. Days are numbered from 1970-01-01.
module Calendar {

  datatype Date = Date(year: int, month: int, day: int)

  predicate IsLeap(year: int) {
    year % 4 == 0 && (year % 100 != 0 || year % 400 == 0)
  }

  function YearLength(year: int): int {
    if IsLeap(year) then 366 else 365
  }

  /** The number of the first of January of `year`. */
  function FirstDayOf(year: int): int {
    365 * (year - 1970) + (year - 1969) / 4 - (year - 1901) / 100 + (year - 1601) / 400
  }

  lemma {:induction false} YearsAreAdjacent(year: int)
    ensures FirstDayOf(year + 1) == FirstDayOf(year) + YearLength(year)
  {
    LeapCount(year, 4, 1969);
    LeapCount(year, 100, 1901);
    LeapCount(year, 400, 1601);
    LeapRule(year);
  }

  lemma {:induction false} LeapRule(year: int)
    ensures year % 400 == 0 ==> year % 100 == 0
    ensures year % 100 == 0 ==> year % 4 == 0
  {
  }

  /** Moving on one year crosses a multiple of `every` exactly when `year` is one. */
  lemma {:induction false} LeapCount(year: int, every: int, origin: int)
    requires (every, origin) in {(4, 1969), (100, 1901), (400, 1601)}
    ensures (year + 1 - origin) / every == (year - origin) / every + (if year % every == 0 then 1 else 0)
  {
  }

  /** The year a day falls in: a guess at the mean year length, corrected by at most one. */
  function YearOf(day: int): int {
    var guess := 1970 + 400 * day / 146097;
    if day < FirstDayOf(guess) then guess - 1
    else if FirstDayOf(guess + 1) <= day then guess + 1
    else guess
  }

  lemma {:induction false} YearOfIsTheYear(day: int)
    ensures FirstDayOf(YearOf(day)) <= day < FirstDayOf(YearOf(day) + 1)
  {
    var guess := 1970 + 400 * day / 146097;
    MeanYear(guess - 1);
    MeanYear(guess);
    MeanYear(guess + 1);
    MeanYear(guess + 2);
  }

  /** 400 years are 146097 days, and no year starts more than two days away from its share of them. */
  lemma {:induction false} MeanYear(year: int)
    ensures 146097 * (year - 1970) - 800 < 400 * FirstDayOf(year) < 146097 * (year - 1970) + 800
  {
    var a, b, c := (year - 1969) / 4, (year - 1901) / 100, (year - 1601) / 400;
    assert 4 * a <= year - 1969 < 4 * a + 4;
    assert 100 * b <= year - 1901 < 100 * b + 100;
    assert 400 * c <= year - 1601 < 400 * c + 400;
  }

  lemma {:induction false} YearsIncrease(earlier: int, later: int)
    requires earlier < later
    ensures FirstDayOf(earlier + 1) <= FirstDayOf(later)
    decreases later - earlier
  {
    if earlier + 1 < later {
      YearsIncrease(earlier, later - 1);
      YearsAreAdjacent(later - 1);
    }
  }

  lemma {:induction false} YearOfIsUnique(day: int, year: int)
    requires FirstDayOf(year) <= day < FirstDayOf(year + 1)
    ensures YearOf(day) == year
  {
    YearOfIsTheYear(day);
    if YearOf(day) < year {
      YearsIncrease(YearOf(day), year);
    } else if year < YearOf(day) {
      YearsIncrease(year, YearOf(day));
    }
  }

  function DaysBeforeMonth(year: int, month: int): int
    requires 1 <= month <= 13
  {
    var leap := if IsLeap(year) then 1 else 0;
    match month
    case 1 => 0
    case 2 => 31
    case 3 => 59 + leap
    case 4 => 90 + leap
    case 5 => 120 + leap
    case 6 => 151 + leap
    case 7 => 181 + leap
    case 8 => 212 + leap
    case 9 => 243 + leap
    case 10 => 273 + leap
    case 11 => 304 + leap
    case 12 => 334 + leap
    case _ => 365 + leap
  }

  function DaysInMonth(year: int, month: int): int
    requires 1 <= month <= 12
  {
    DaysBeforeMonth(year, month + 1) - DaysBeforeMonth(year, month)
  }

  predicate IsDate(date: Date) {
    1 <= date.month <= 12 && 1 <= date.day <= DaysInMonth(date.year, date.month)
  }

  function DayNumber(date: Date): int
    requires IsDate(date)
  {
    FirstDayOf(date.year) + DaysBeforeMonth(date.year, date.month) + date.day - 1
  }

  /** The month holding the `offset`th day of a year, counting from zero. */
  function MonthAt(year: int, offset: int): (month: int)
    requires 0 <= offset < YearLength(year)
    ensures 1 <= month <= 12
    ensures DaysBeforeMonth(year, month) <= offset < DaysBeforeMonth(year, month + 1)
  {
    if offset < DaysBeforeMonth(year, 2) then 1
    else if offset < DaysBeforeMonth(year, 3) then 2
    else if offset < DaysBeforeMonth(year, 4) then 3
    else if offset < DaysBeforeMonth(year, 5) then 4
    else if offset < DaysBeforeMonth(year, 6) then 5
    else if offset < DaysBeforeMonth(year, 7) then 6
    else if offset < DaysBeforeMonth(year, 8) then 7
    else if offset < DaysBeforeMonth(year, 9) then 8
    else if offset < DaysBeforeMonth(year, 10) then 9
    else if offset < DaysBeforeMonth(year, 11) then 10
    else if offset < DaysBeforeMonth(year, 12) then 11
    else 12
  }

  function DateOf(day: int): (date: Date)
    ensures IsDate(date) && DayNumber(date) == day
  {
    YearOfIsTheYear(day);
    var year := YearOf(day);
    YearsAreAdjacent(year);
    var offset := day - FirstDayOf(year);
    var month := MonthAt(year, offset);
    Date(year, month, offset - DaysBeforeMonth(year, month) + 1)
  }

  predicate DateLess(a: Date, b: Date) {
    a.year < b.year
    || (a.year == b.year && (a.month < b.month || (a.month == b.month && a.day < b.day)))
  }

  lemma {:induction false} DayNumberWithinYear(date: Date)
    requires IsDate(date)
    ensures FirstDayOf(date.year) <= DayNumber(date) < FirstDayOf(date.year + 1)
  {
    YearsAreAdjacent(date.year);
  }

  /** The calendar order of dates is the order of their day numbers. */
  lemma {:induction false} DayNumberIncreases(a: Date, b: Date)
    requires IsDate(a) && IsDate(b) && DateLess(a, b)
    ensures DayNumber(a) < DayNumber(b)
  {
    hide FirstDayOf;
    DayNumberWithinYear(a);
    DayNumberWithinYear(b);
    if a.year < b.year {
      YearsIncrease(a.year, b.year);
    }
  }

  lemma {:induction false} DateOfDayNumber(date: Date)
    requires IsDate(date)
    ensures DateOf(DayNumber(date)) == date
  {
    var back := DateOf(DayNumber(date));
    if DateLess(back, date) {
      DayNumberIncreases(back, date);
    } else if DateLess(date, back) {
      DayNumberIncreases(date, back);
    }
  }

  /** Monday is 0 and Sunday is 6. 1970-01-01 was a Thursday. */
  function Weekday(day: int): int {
    (day + 3) % 7
  }
}
