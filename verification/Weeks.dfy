// e2e/src/api/weeks.ts: ISO weeks and civil dates, as section 4.1.4 of ISO 8601:2004 numbers them.
module Weeks {
  import opened Wrappers
  import opened Calendar
  import opened Text

  /** A civil date, as the day it reads back as. */
  type CivilDate = int

  type IsoWeekId = string

  datatype Error = NotAWeek | OutOfRange

  const MONDAY := 1
  const SUNDAY := 7

  /** The days a JavaScript `Date` can hold, either side of 1970-01-01. */
  const LAST_DAY := 100_000_000

  predicate IsTime(day: int) {
    -LAST_DAY <= day <= LAST_DAY
  }

  /** Does the year of a day print as four digits and no sign? */
  predicate HasPlainYear(day: int) {
    0 <= YearOf(day) <= 9999
  }

  function MonthStart(day: int): int {
    day - DateOf(day).day + 1
  }

  /** A day cut to ten characters. A longer year pushes the day of the month off the end, so what is left names the
      month and reads back as its first day. */
  function AsCivilDate(day: int): Result<CivilDate, Error> {
    if !IsTime(day) then Failure(OutOfRange)
    else Success(if HasPlainYear(day) then day else MonthStart(day))
  }

  /** Days count from 1 for Monday, so that Sunday comes last. */
  function IsoWeekday(day: int): int {
    var sundayIsZero := (day + 4) % 7;
    if sundayIsZero == 0 then SUNDAY else sundayIsZero
  }

  /** `Date.UTC` reads a year of one or two digits as one of the nineteen hundreds. */
  function UtcYear(year: int): int {
    if 0 <= year <= 99 then 1900 + year else year
  }

  function RenderInt(number: int): string {
    if number < 0 then "-" + Render(-number) else Render(number)
  }

  function Pad2(number: int): string {
    if 0 <= number < 10 then "0" + Render(number) else RenderInt(number)
  }

  function WeekName(year: int, week: int): IsoWeekId {
    RenderInt(year) + "-W" + Pad2(week)
  }

  function Thursday(day: int): int {
    day + 4 - IsoWeekday(day)
  }

  /** The week a date falls in, as the suite names it. */
  function WeekOf(date: CivilDate): IsoWeekId {
    if !IsTime(date) then "NaN-WNaN"
    else
      var year := YearOf(Thursday(date));
      var january1 := FirstDayOf(UtcYear(year));
      if !IsTime(january1) then RenderInt(year) + "-WNaN"
      else WeekName(year, (Thursday(date) - january1 + 7) / 7)
  }

  method IsoWeekOf(date: CivilDate) returns (id: IsoWeekId)
    ensures id == WeekOf(date)
  {
    if !IsTime(date) {
      return "NaN-WNaN";
    }
    var thursday := date;
    thursday := thursday + 4 - IsoWeekday(thursday);
    var year := YearOf(thursday);
    var january1 := FirstDayOf(UtcYear(year));
    if !IsTime(january1) {
      return RenderInt(year) + "-WNaN";
    }
    var days := thursday - january1 + 1;
    var week := (days + 6) / 7;
    id := WeekName(year, week);
  }

  predicate IsWeekName(id: IsoWeekId) {
    |id| == 8 && AllDigits(id[..4]) && id[4] == '-' && id[5] == 'W' && AllDigits(id[6..])
  }

  function MondayBefore(day: int): int {
    day - (IsoWeekday(day) - 1)
  }

  /** The Monday of the week January 4 is in. */
  function FirstMonday(year: int): int {
    MondayBefore(FirstDayOf(year) + 3)
  }

  function MondayOf(id: IsoWeekId): Result<CivilDate, Error> {
    if !IsWeekName(id) then Failure(NotAWeek)
    else AsCivilDate(FirstMonday(UtcYear(Value(id[..4]))) + (Value(id[6..]) - 1) * 7)
  }

  function DateIn(id: IsoWeekId, weekday: int): Result<CivilDate, Error> {
    match MondayOf(id)
    case Failure(error) => Failure(error)
    case Success(monday) => AsCivilDate(monday + (weekday - MONDAY))
  }

  /** The week of a day, once it has been a civil date. */
  function WeekAt(day: int): Result<IsoWeekId, Error> {
    match AsCivilDate(day)
    case Failure(error) => Failure(error)
    case Success(date) => Success(WeekOf(date))
  }

  function IsoWeekShift(id: IsoWeekId, weeks: int): Result<IsoWeekId, Error> {
    match MondayOf(id)
    case Failure(error) => Failure(error)
    case Success(monday) => WeekAt(monday + weeks * 7)
  }

  // ---- The calendar of weeks, told without any of the above ----

  /** A year has a week for each of its Thursdays: a 53rd when it starts on one, or on the day before in a leap year. */
  function WeeksIn(year: int): int {
    WeeksFrom(Weekday(FirstDayOf(year)), IsLeap(year))
  }

  function WeeksFrom(firstWeekday: int, leap: bool): int {
    if firstWeekday == 3 || (firstWeekday == 2 && leap) then 53 else 52
  }

  predicate WeekExists(year: int, week: int) {
    1 <= week <= WeeksIn(year)
  }

  /** A day lies in a week of a year: the week exists, runs from a Monday to a Sunday, and is as many weeks after the
      one that holds the year's first Thursday. */
  predicate LiesIn(day: int, year: int, week: int) {
    WeekExists(year, week) && FirstMonday(year) + 7 * (week - 1) <= day < FirstMonday(year) + 7 * week
  }

  /** The week of a year's fourth day holds the year's first Thursday. */
  lemma {:induction false} WeekOfTheFourth(first: int)
    ensures Weekday(MondayBefore(first + 3)) == 0 && first <= MondayBefore(first + 3) + 3 < first + 7
  {
  }

  lemma {:induction false} CountThursdays(first: int, leap: bool, week: int)
    ensures 1 <= week <= WeeksFrom(Weekday(first), leap) <==>
            first <= MondayBefore(first + 3) + 7 * (week - 1) + 3 < first + if leap then 366 else 365
  {
  }

  /** A week exists exactly when its Thursday falls in the year. */
  lemma {:induction false} WeeksAreThursdays(year: int, week: int)
    ensures WeekExists(year, week) <==> YearOf(FirstMonday(year) + 7 * (week - 1) + 3) == year
  {
    var first, thursday := FirstDayOf(year), FirstMonday(year) + 7 * (week - 1) + 3;
    CountThursdays(first, IsLeap(year), week);
    YearsAreAdjacent(year);
    FallsInYear(thursday, year);
  }

  lemma {:induction false} FallsInYear(day: int, year: int)
    ensures YearOf(day) == year <==> FirstDayOf(year) <= day < FirstDayOf(year + 1)
  {
    YearOfIsTheYear(day);
    if FirstDayOf(year) <= day < FirstDayOf(year + 1) {
      YearOfIsUnique(day, year);
    }
  }

  lemma {:induction false} ThursdayOfWeek(day: int, monday: int)
    requires Weekday(monday) == 0 && monday <= day < monday + 7
    ensures Thursday(day) == monday + 3 && IsoWeekday(day) == day - monday + 1
  {
  }

  lemma {:induction false} ThursdayIsNear(day: int)
    ensures Weekday(Thursday(day)) == 3 && -3 <= Thursday(day) - day <= 3
  {
  }

  /** Counting weeks from the first Thursday. */
  lemma {:induction false} CountWeeks(day: int, first: int, week: int)
    requires first <= Thursday(day)
    ensures MondayBefore(first + 3) + 7 * (week - 1) <= day < MondayBefore(first + 3) + 7 * week <==>
            week == (Thursday(day) - first) / 7 + 1
  {
    hide Thursday, MondayBefore;
    WeekOfTheFourth(first);
    ThursdayIsNear(day);
    CountSevens(first, MondayBefore(first + 3), day, Thursday(day), week);
  }

  lemma {:induction false} CountSevens(first: int, monday: int, day: int, thursday: int, week: int)
    requires Weekday(monday) == 0 && first <= monday + 3 < first + 7
    requires Weekday(thursday) == 3 && -3 <= thursday - day <= 3 && first <= thursday
    ensures monday + 7 * (week - 1) <= day < monday + 7 * week <==> week == (thursday - first) / 7 + 1
  {
    var weeks := (thursday - monday) / 7;
    assert thursday == monday + 3 + 7 * weeks;
    assert (thursday - first) / 7 == weeks;
  }

  /** Every day lies in exactly one week of exactly one year: that of its Thursday. */
  lemma {:induction false} EveryDayLiesInOneWeek(day: int, year: int, week: int)
    ensures LiesIn(day, year, week) <==>
            year == YearOf(Thursday(day)) && week == (Thursday(day) - FirstDayOf(year)) / 7 + 1
  {
    hide FirstDayOf, YearOf;
    var first, monday := FirstDayOf(year), FirstMonday(year) + 7 * (week - 1);
    WeeksAreThursdays(year, week);
    WeekOfTheFourth(first);
    FallsInYear(Thursday(day), year);
    if monday <= day < monday + 7 {
      MondaysAreWeeksApart(MondayBefore(first + 3), week);
      ThursdayOfWeek(day, monday);
    }
    if first <= Thursday(day) {
      CountWeeks(day, first, week);
    }
  }

  lemma {:induction false} MondaysAreWeeksApart(monday: int, week: int)
    requires Weekday(monday) == 0
    ensures Weekday(monday + 7 * (week - 1)) == 0
  {
  }

  // ---- Names ----

  /** A number prints in as many digits as it takes to reach it. */
  lemma {:induction false} DigitsPrinted(number: nat, digits: nat)
    requires digits > 0
    ensures |Render(number)| <= digits <==> number < Power10(digits)
  {
    PowersArePositive(digits - 1);
    if number >= 10 && digits > 1 {
      DigitsPrinted(number / 10, digits - 1);
    }
  }

  lemma {:induction false} PowersArePositive(exponent: nat)
    ensures Power10(exponent) >= 1
  {
    if exponent > 0 {
      PowersArePositive(exponent - 1);
    }
  }

  lemma {:induction false} FourDigitsPrinted(number: nat)
    ensures |Render(number)| == 4 <==> 1000 <= number <= 9999
  {
    DigitsPrinted(number, 3);
    DigitsPrinted(number, 4);
    assert Power10(4) == 10 * Power10(3) && Power10(3) == 10 * Power10(2) && Power10(2) == 10 * Power10(1);
  }

  /** The week's half of a name is two digits, and stands for the week. */
  lemma {:induction false} PadIsTwoDigits(week: int)
    ensures |Pad2(week)| == 2 && AllDigits(Pad2(week)) <==> 0 <= week <= 99
    ensures 0 <= week <= 99 ==> Value(Pad2(week)) == week
  {
    if week < 0 {
      assert RenderInt(week)[0] == '-';
    } else if week < 10 {
      assert Pad2(week)[..1] == "0" && Value("") == 0;
    } else {
      ValueOfRender(week);
      assert Render(week) == Render(week / 10) + [Digit(week % 10)];
      assert week >= 100 ==> Render(week / 10) == Render(week / 100) + [Digit(week / 10 % 10)];
    }
  }

  /** A week's name can be read back exactly when its year prints as four digits and its number as two. */
  lemma {:induction false} NameIsReadBack(year: int, week: int)
    ensures IsWeekName(WeekName(year, week)) <==> 1000 <= year <= 9999 && 0 <= week <= 99
    ensures IsWeekName(WeekName(year, week)) ==>
              Value(WeekName(year, week)[..4]) == year && Value(WeekName(year, week)[6..]) == week
  {
    var name := WeekName(year, week);
    PadIsTwoDigits(week);
    if year < 0 {
      assert name[0] == '-';
    } else {
      var digits := Render(year);
      FourDigitsPrinted(year);
      ValueOfRender(year);
      assert name[|digits|] == '-' && forall i :: 0 <= i < |digits| ==> name[i] == digits[i];
      if |digits| == 4 {
        assert name[..4] == digits && name[6..] == Pad2(week) && name[5] == 'W';
      } else if |digits| < 4 {
        assert IsWeekName(name) ==> IsDigit(name[..4][|digits|]);
      } else {
        assert IsDigit(name[4]);
      }
    }
  }
}
