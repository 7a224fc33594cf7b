// What the week arithmetic of the end-to-end suite promises, and for which years it keeps the promise.
module WeekLaws {
  import opened Wrappers
  import opened Calendar
  import opened Text
  import opened Weeks

  predicate PrintsPlainly(year: int) {
    1000 <= year <= 9999
  }

  /** No calendar year in reach of a JavaScript `Date` is near these, so four-digit years are far inside it. */
  lemma {:induction false} PlainYearsAreTimes(day: int)
    requires FirstDayOf(-1) <= day < FirstDayOf(10001)
    ensures IsTime(day)
  {
  }

  lemma {:induction false} YearsInOrder(earlier: int, later: int)
    requires earlier <= later
    ensures FirstDayOf(earlier) <= FirstDayOf(later)
  {
    YearsAreAdjacent(earlier);
    if earlier < later {
      YearsIncrease(earlier, later);
    }
  }

  /** A day between the first days of two years has its year between them. */
  lemma {:induction false} YearIsBetween(day: int, from: int, past: int)
    ensures FirstDayOf(from) <= day < FirstDayOf(past) <==> from <= YearOf(day) < past
  {
    YearOfIsTheYear(day);
    if from <= YearOf(day) {
      YearsInOrder(from, YearOf(day));
    } else {
      YearsInOrder(YearOf(day) + 1, from);
    }
    if YearOf(day) < past {
      YearsInOrder(YearOf(day) + 1, past);
    } else {
      YearsInOrder(past, YearOf(day));
    }
  }

  /** The suite names the week a day lies in, whenever the year of that week prints as four digits. */
  lemma {:induction false} WeekOfIsTheWeek(day: int, year: int, week: int)
    requires LiesIn(day, year, week) && PrintsPlainly(year)
    ensures IsTime(day) && WeekOf(day) == WeekName(year, week)
  {
    EveryDayLiesInOneWeek(day, year, week);
    ThursdayIsNear(day);
    YearIsBetween(Thursday(day), year, year + 1);
    YearsInOrder(1000, year);
    YearsInOrder(year + 1, 10000);
    PlainYearsAreTimes(day);
    PlainYearsAreTimes(FirstDayOf(year));
    assert (Thursday(day) - FirstDayOf(year) + 7) / 7 == (Thursday(day) - FirstDayOf(year)) / 7 + 1;
  }

  /** A name the suite can read back is the name of a day in a four-digit week year. */
  lemma {:induction false} ReadableNamesAreWeeks(day: int)
    requires IsWeekName(WeekOf(day))
    ensures exists year, week :: PrintsPlainly(year) && LiesIn(day, year, week) && WeekOf(day) == WeekName(year, week)
  {
    hide FirstDayOf, YearOf;
    var year := YearOf(Thursday(day));
    var january1 := FirstDayOf(UtcYear(year));
    assert IsTime(day) by {
      assert "NaN-WNaN"[..4][0] == 'N';
    }
    if !IsTime(january1) {
      NaNIsNoWeek(year);
    }
    NameIsReadBack(year, (Thursday(day) - january1 + 7) / 7);
    EveryDayLiesInOneWeek(day, year, (Thursday(day) - FirstDayOf(year)) / 7 + 1);
    assert LiesIn(day, year, (Thursday(day) - january1 + 7) / 7);
  }

  lemma {:induction false} NaNIsNoWeek(year: int)
    ensures !IsWeekName(RenderInt(year) + "-WNaN")
  {
    var name := RenderInt(year) + "-WNaN";
    assert name[|name| - 1] == 'N';
    assert |name| == 8 ==> name[6..][1] == 'N';
  }

  /** The Monday of an existing week of a four-digit year is its Monday. */
  lemma {:induction false} MondayOfName(year: int, week: int)
    requires PrintsPlainly(year) && WeekExists(year, week)
    ensures MondayOf(WeekName(year, week)) == Success(FirstMonday(year) + 7 * (week - 1))
    ensures HasPlainYear(FirstMonday(year) + 7 * (week - 1))
  {
    hide DateOf;
    var monday := FirstMonday(year) + 7 * (week - 1);
    NameIsReadBack(year, week);
    WeeksAreThursdays(year, week);
    YearIsBetween(monday + 3, year, year + 1);
    YearsInOrder(1000, year);
    YearsInOrder(year + 1, 10000);
    PlainYearsAreTimes(monday);
    YearIsBetween(monday, 0, 10000);
  }

  // ---- Week, Monday, week ----

  /** The week of a week's Monday is that week: for every name of the right shape, exactly when its year has four
      digits that are not padding and its week exists in that year. */
  lemma {:induction false} WeekOfItsMonday(id: IsoWeekId)
    requires IsWeekName(id)
    ensures MondayOf(id).Success?
    ensures WeekOf(MondayOf(id).value) == id <==>
            PrintsPlainly(Value(id[..4])) && WeekExists(Value(id[..4]), Value(id[6..]))
  {
    MondaysAreInReach(id);
    var monday := MondayOf(id).value;
    var year, week := Value(id[..4]), Value(id[6..]);
    if WeekOf(monday) == id {
      ReadableNamesAreWeeks(monday);
      var y, w :| PrintsPlainly(y) && LiesIn(monday, y, w) && WeekOf(monday) == WeekName(y, w);
      NameIsReadBack(y, w);
    } else if PrintsPlainly(year) && WeekExists(year, week) {
      NamesAreSpelledOneWay(id);
      MondayOfName(year, week);
      WeekOfIsTheWeek(monday, year, week);
    }
  }

  /** Four digits, with no padding, and two are the name of what they stand for. */
  lemma {:induction false} NamesAreSpelledOneWay(id: IsoWeekId)
    requires IsWeekName(id) && PrintsPlainly(Value(id[..4]))
    ensures id == WeekName(Value(id[..4]), Value(id[6..]))
  {
    var year, week := Value(id[..4]), Value(id[6..]);
    FixedOfValue(id[..4]);
    FixedOfValue(id[6..]);
    FixedIsRender(year, 4);
    FixedIsPad(week);
    assert id == id[..4] + "-W" + id[6..];
  }

  lemma {:induction false} FixedIsRender(number: nat, width: nat)
    requires |Render(number)| == width || (PrintsPlainly(number) && width == 4)
    ensures Fixed(number, width) == Render(number)
  {
    FourDigitsPrinted(number);
    if number >= 10 {
      FixedIsRender(number / 10, width - 1);
    } else {
      assert Fixed(number, 1) == Fixed(number / 10, 0) + [Digit(number % 10)];
    }
  }

  lemma {:induction false} FixedIsPad(week: nat)
    requires week <= 99
    ensures Fixed(week, 2) == Pad2(week)
  {
    assert Fixed(week, 2) == Fixed(week / 10, 1) + [Digit(week % 10)];
    assert Fixed(week / 10, 1) == Fixed(week / 10 / 10, 0) + [Digit(week / 10 % 10)];
    assert week >= 10 ==> Render(week) == Render(week / 10) + [Digit(week % 10)];
  }

  lemma {:induction false} MondaysAreInReach(id: IsoWeekId)
    requires IsWeekName(id)
    ensures MondayOf(id).Success?
  {
    var year, week := UtcYear(Value(id[..4])), Value(id[6..]);
    FixedOfValue(id[..4]);
    FixedOfValue(id[6..]);
    assert Power10(4) == 10 * Power10(3) && Power10(3) == 10 * Power10(2) && Power10(2) == 10 * Power10(1);
    YearsInOrder(0, year);
    YearsInOrder(year, 9999);
    WeekOfTheFourth(FirstDayOf(year));
    assert IsTime(FirstMonday(year) + 7 * week - 7);
  }

  // ---- Date, week and weekday, date ----

  /** Every date is the one its own week and weekday name, exactly when the year of its week has four unpadded digits.
      */
  lemma {:induction false} DateInItsOwnWeek(date: CivilDate)
    requires HasPlainYear(date)
    ensures DateIn(WeekOf(date), IsoWeekday(date)) == Success(date) <==> PrintsPlainly(YearOf(Thursday(date)))
  {
    hide FirstDayOf, YearOf, WeekOf, DateOf;
    var year := YearOf(Thursday(date));
    var week := (Thursday(date) - FirstDayOf(year)) / 7 + 1;
    EveryDayLiesInOneWeek(date, year, week);
    if PrintsPlainly(year) {
      WeekOfIsTheWeek(date, year, week);
      MondayOfName(year, week);
      WeekOfTheFourth(FirstDayOf(year));
      MondaysAreWeeksApart(FirstMonday(year), week);
      ThursdayOfWeek(date, FirstMonday(year) + 7 * (week - 1));
    } else if IsWeekName(WeekOf(date)) {
      ReadableNamesAreWeeks(date);
      var y, w :| PrintsPlainly(y) && LiesIn(date, y, w);
      EveryDayLiesInOneWeek(date, y, w);
    }
  }

  /** A weekday of an existing week lies in that week and is that weekday, as long as the date itself has a four-digit
      year. */
  lemma {:induction false} DateInLiesInTheWeek(year: int, week: int, weekday: int)
    requires PrintsPlainly(year) && WeekExists(year, week) && MONDAY <= weekday <= SUNDAY
    requires HasPlainYear(FirstMonday(year) + 7 * (week - 1) + weekday - 1)
    ensures var date := DateIn(WeekName(year, week), weekday);
            date.Success? && LiesIn(date.value, year, week) && IsoWeekday(date.value) == weekday &&
            WeekOf(date.value) == WeekName(year, week)
  {
    hide FirstDayOf, YearOf, DateOf;
    var monday := FirstMonday(year) + 7 * (week - 1);
    MondayOfName(year, week);
    WeekOfIsTheWeek(monday + weekday - 1, year, week);
    WeekOfTheFourth(FirstDayOf(year));
    MondaysAreWeeksApart(FirstMonday(year), week);
    ThursdayOfWeek(monday + weekday - 1, monday);
  }

  // ---- Shifting ----

  /** A day of a four-digit year, in a week of one, shows as that week. */
  lemma {:induction false} ShownPlainly(day: int, year: int, week: int)
    requires LiesIn(day, year, week) && PrintsPlainly(year) && HasPlainYear(day)
    ensures WeekAt(day) == Success(WeekName(year, week))
  {
    WeekOfIsTheWeek(day, year, week);
  }

  /** A date with a four-digit year that the shape of a name gives is a Monday. */
  lemma {:induction false} MondayOfIsAMonday(id: IsoWeekId, monday: CivilDate)
    requires MondayOf(id) == Success(monday) && HasPlainYear(monday)
    ensures Weekday(monday) == 0
  {
    hide FirstDayOf, YearOf, DateOf;
    var year, week: int := UtcYear(Value(id[..4])), Value(id[6..]);
    var uncut := FirstMonday(year) + 7 * (week - 1);
    WeekOfTheFourth(FirstDayOf(year));
    MondaysAreWeeksApart(FirstMonday(year), week);
    if !HasPlainYear(uncut) {
      CutStaysOut(uncut);
    }
  }

  /** Cutting a date to the start of its month leaves its year alone. */
  lemma {:induction false} CutStaysOut(day: int)
    ensures YearOf(MonthStart(day)) == YearOf(day) && MonthStart(day) <= day < MonthStart(day) + 31
  {
    var date := DateOf(day);
    var start := Date(date.year, date.month, 1);
    assert DayNumber(start) == MonthStart(day);
    DateOfDayNumber(start);
    YearIsDateYear(day);
    YearIsDateYear(MonthStart(day));
  }

  lemma {:induction false} YearIsDateYear(day: int)
    ensures DateOf(day).year == YearOf(day)
  {
  }

  /** The first day whose year takes five digits: a Saturday, so its week is the last of 9999. */
  const NEW_YEAR_10000 := 2_932_897

  lemma {:induction false} LastPlainWeek(day: int)
    requires NEW_YEAR_10000 - 12 <= day <= NEW_YEAR_10000
    ensures FirstDayOf(10000) == NEW_YEAR_10000 && FirstMonday(9999) + 357 == NEW_YEAR_10000 - 5
    ensures LiesIn(day, 9999, if day < NEW_YEAR_10000 - 5 then 51 else 52)
    ensures WeekOf(day) == WeekName(9999, if day < NEW_YEAR_10000 - 5 then 51 else 52)
  {
    hide YearOf, DateOf;
    assert FirstDayOf(9999) == NEW_YEAR_10000 - 365;
    assert WeeksIn(9999) == 52;
    WeekOfIsTheWeek(day, 9999, if day < NEW_YEAR_10000 - 5 then 51 else 52);
  }

  /** Every day of January 10000 is cut to the first of them. */
  lemma {:induction false} JanuaryIsCut(day: int)
    requires NEW_YEAR_10000 <= day < NEW_YEAR_10000 + 31
    ensures YearOf(day) == 10000 && MonthStart(day) == NEW_YEAR_10000
  {
    assert FirstDayOf(10000) == NEW_YEAR_10000;
    YearsAreAdjacent(10000);
    YearOfIsUnique(day, 10000);
  }

  /** Cut to the start of its month, a day outside the four-digit years lands in a readable week from January 10000
      alone. */
  lemma {:induction false} CutIntoLastWeek(day: int)
    requires !HasPlainYear(day) && PrintsPlainly(YearOf(Thursday(MonthStart(day))))
    ensures NEW_YEAR_10000 <= day < NEW_YEAR_10000 + 31
  {
    hide DateOf, MonthStart, FirstDayOf, YearOf, Thursday;
    var start := MonthStart(day);
    YearStarts();
    CutStaysOut(day);
    ThursdayIsNear(start);
    YearIsBetween(Thursday(start), 1000, 10000);
    YearIsBetween(start, 0, 10000);
    YearIsBetween(start, 10000, 10001);
    StartOfMonth(day);
  }

  lemma {:induction false} YearStarts()
    ensures FirstDayOf(0) + 3 < FirstDayOf(1000) && FirstDayOf(10000) == NEW_YEAR_10000
    ensures FirstDayOf(10001) == NEW_YEAR_10000 + 366
  {
  }

  /** A month starts on the first of January or at least 28 days into its year. */
  lemma {:induction false} StartOfMonth(day: int)
    ensures MonthStart(day) == FirstDayOf(YearOf(day)) || MonthStart(day) >= FirstDayOf(YearOf(day)) + 28
  {
    var date := DateOf(day);
    assert DayNumber(Date(date.year, date.month, 1)) == MonthStart(day);
    YearIsDateYear(day);
  }

  /** Every Monday of January 10000 shows as the last week of 9999. */
  lemma {:induction false} JanuaryShows(day: int)
    requires NEW_YEAR_10000 <= day < NEW_YEAR_10000 + 31
    ensures WeekAt(day) == Success(WeekName(9999, 52))
  {
    JanuaryIsCut(day);
    LastPlainWeek(NEW_YEAR_10000);
  }

  /** A day whose week shows under a name that can be read back lies in a week of a four-digit year, or in January
      10000. */
  lemma {:induction false} ReadableDays(day: int, name: IsoWeekId)
    requires WeekAt(day) == Success(name) && IsWeekName(name)
    ensures PrintsPlainly(YearOf(Thursday(day))) || NEW_YEAR_10000 <= day < NEW_YEAR_10000 + 31
  {
    var shown := if HasPlainYear(day) then day else MonthStart(day);
    ReadableNamesAreWeeks(shown);
    var year, week :| PrintsPlainly(year) && LiesIn(shown, year, week) && name == WeekName(year, week);
    EveryDayLiesInOneWeek(shown, year, week);
    if !HasPlainYear(day) {
      CutIntoLastWeek(day);
    }
  }

  /** The week a Monday shows as has that Monday, when the year of the week has four digits. */
  lemma {:induction false} MondayShown(monday: int)
    requires Weekday(monday) == 0 && PrintsPlainly(YearOf(monday + 3))
    ensures WeekAt(monday).Success? && MondayOf(WeekAt(monday).value) == Success(monday)
  {
    hide FirstDayOf, YearOf, DateOf;
    var year := YearOf(monday + 3);
    var week := (monday + 3 - FirstDayOf(year)) / 7 + 1;
    ThursdayOfWeek(monday, monday);
    EveryDayLiesInOneWeek(monday, year, week);
    WeekOfTheFourth(FirstDayOf(year));
    MondaysAreWeeksApart(FirstMonday(year), week);
    MondayOfName(year, week);
    MondayIsTheFirst(monday, FirstMonday(year) + 7 * (week - 1));
    ShownPlainly(monday, year, week);
  }

  lemma {:induction false} MondayIsTheFirst(day: int, monday: int)
    requires Weekday(day) == 0 && monday <= day < monday + 7 && Weekday(monday) == 0
    ensures day == monday
  {
  }

  /** A shift names the week so many weeks on, across the ends of years of 52 weeks and of 53, while both have
      four-digit years. */
  lemma {:induction false} ShiftIsSoManyWeeks(year: int, week: int, weeks: int, next: int, number: int)
    requires PrintsPlainly(year) && WeekExists(year, week)
    requires PrintsPlainly(next) && LiesIn(FirstMonday(year) + 7 * (week - 1) + 7 * weeks, next, number)
    requires HasPlainYear(FirstMonday(year) + 7 * (week - 1) + 7 * weeks)
    ensures IsoWeekShift(WeekName(year, week), weeks) == Success(WeekName(next, number))
  {
    hide FirstDayOf, YearOf, WeekOf, AsCivilDate;
    MondayOfName(year, week);
    ShownPlainly(FirstMonday(year) + 7 * (week - 1) + 7 * weeks, next, number);
    assert FirstMonday(year) + 7 * (week - 1) + weeks * 7 == FirstMonday(year) + 7 * (week - 1) + 7 * weeks;
  }

  /** Two shifts are one, for every second shift, exactly when the name shifted has a real Monday and the week between
      has a four-digit, unpadded year. */
  lemma {:induction false} ShiftsAddUp(id: IsoWeekId, monday: CivilDate, few: int, between: IsoWeekId)
    requires MondayOf(id) == Success(monday) && IsoWeekShift(id, few) == Success(between)
    ensures (forall more: int :: IsoWeekShift(between, more) == IsoWeekShift(id, few + more)) <==>
            Weekday(monday) == 0 && PrintsPlainly(YearOf(Thursday(monday + few * 7)))
  {
    hide FirstDayOf, YearOf, DateOf, MonthStart, WeekOf, WeekAt, MondayOf, Thursday, IsWeekName;
    if Weekday(monday) == 0 && PrintsPlainly(YearOf(Thursday(monday + few * 7))) {
      MiddleIsAMonday(monday, few);
      forall more: int ensures IsoWeekShift(between, more) == IsoWeekShift(id, few + more) {
        assert monday + (few + more) * 7 == monday + few * 7 + more * 7;
      }
    } else {
      var more := ShiftsThatDiffer(id, monday, few, between);
      assert IsoWeekShift(between, more) != IsoWeekShift(id, few + more);
    }
  }

  lemma {:induction false} MiddleIsAMonday(monday: CivilDate, few: int)
    requires Weekday(monday) == 0 && PrintsPlainly(YearOf(Thursday(monday + few * 7)))
    ensures var middle := WeekAt(monday + few * 7);
            middle.Success? && MondayOf(middle.value) == Success(monday + few * 7)
  {
    hide FirstDayOf, YearOf, DateOf;
    MondaysAreWeeksApart(monday, few + 1);
    ThursdayOfWeek(monday + few * 7, monday + few * 7);
    MondayShown(monday + few * 7);
  }

  /** Otherwise some second shift comes out elsewhere: none at all when the week between cannot be read back, five weeks
      when it is the last of 9999 shown for a day of January 10000, and the way back when the first name's Monday is
      the cut-down first of a month that is no Monday. */
  lemma {:induction false} ShiftsThatDiffer(id: IsoWeekId, monday: CivilDate, few: int, between: IsoWeekId)
    returns (more: int)
    requires MondayOf(id) == Success(monday) && IsoWeekShift(id, few) == Success(between)
    requires Weekday(monday) != 0 || !PrintsPlainly(YearOf(Thursday(monday + few * 7)))
    ensures IsoWeekShift(between, more) != IsoWeekShift(id, few + more)
  {
    hide FirstDayOf, YearOf, DateOf, MonthStart, WeekOf, WeekAt, MondayOf, Thursday, IsWeekName;
    var middle := monday + few * 7;
    more := 0;
    if !IsWeekName(between) {
      UnreadableIsRefused(between);
    } else {
      ReadableDays(middle, between);
      if NEW_YEAR_10000 <= middle < NEW_YEAR_10000 + 31 {
        more := 5;
        FiveWeeksOn(middle);
        assert monday + (few + 5) * 7 == middle + 35;
      } else {
        CutMondays(id, monday);
        MondayOfMiddle(monday, few, between);
        more := if monday == NEW_YEAR_10000 then 5 - few else -few;
        BackFromACutMonday(monday);
        assert monday + (few + more) * 7 == monday + if monday == NEW_YEAR_10000 then 35 else 0;
        assert middle - Weekday(monday) + more * 7
            == monday - Weekday(monday) + if monday == NEW_YEAR_10000 then 35 else 0;
      }
    }
  }

  lemma {:induction false} UnreadableIsRefused(name: IsoWeekId)
    requires !IsWeekName(name)
    ensures MondayOf(name).Failure?
  {
  }

  /** From any day of January 10000, five weeks on is past it, while five weeks on from the week the day shows as is
      still the last day of it, and shows as that week again. */
  lemma {:induction false} FiveWeeksOn(middle: int)
    requires NEW_YEAR_10000 <= middle < NEW_YEAR_10000 + 31
    ensures WeekAt(middle) == Success(WeekName(9999, 52))
    ensures IsoWeekShift(WeekName(9999, 52), 5) == Success(WeekName(9999, 52))
    ensures WeekAt(middle + 35) != Success(WeekName(9999, 52))
  {
    hide FirstDayOf, YearOf, DateOf, Render, WeekOf, MonthStart;
    JanuaryShows(middle);
    LastPlainWeek(NEW_YEAR_10000);
    MondayOfName(9999, 52);
    JanuaryShows(NEW_YEAR_10000 - 5 + 35);
    NameIsReadBack(9999, 52);
    if WeekAt(middle + 35) == Success(WeekName(9999, 52)) {
      ReadableDays(middle + 35, WeekName(9999, 52));
      ThursdayIsNear(middle + 35);
      YearIsBetween(Thursday(middle + 35), 0, 10000);
    }
  }

  /** A name's Monday is one, unless its year is 10000 and it was cut to the first of a month. */
  lemma {:induction false} CutMondays(id: IsoWeekId, monday: CivilDate)
    requires MondayOf(id) == Success(monday) && Weekday(monday) != 0
    ensures YearOf(monday) == 10000 && DateOf(monday).day == 1
  {
    hide FirstDayOf, YearOf, DateOf;
    if HasPlainYear(monday) {
      MondayOfIsAMonday(id, monday);
      assert false;
    }
    var year, week: int := UtcYear(Value(id[..4])), Value(id[6..]);
    var uncut := FirstMonday(year) + 7 * (week - 1);
    CutStaysOut(uncut);
    CutIsAFirst(uncut);
    UncutIsNear(id);
  }

  lemma {:induction false} CutIsAFirst(day: int)
    ensures DateOf(MonthStart(day)).day == 1
  {
    var date := DateOf(day);
    var start := Date(date.year, date.month, 1);
    assert DayNumber(start) == MonthStart(day);
    DateOfDayNumber(start);
  }

  /** The shape of a name reaches from year 99 to year 10000. */
  lemma {:induction false} UncutIsNear(id: IsoWeekId)
    requires IsWeekName(id)
    ensures 0 <= YearOf(FirstMonday(UtcYear(Value(id[..4]))) + 7 * (Value(id[6..]) - 1)) <= 10000
  {
    hide YearOf;
    var year, week: int := UtcYear(Value(id[..4])), Value(id[6..]);
    FixedOfValue(id[..4]);
    FixedOfValue(id[6..]);
    assert Power10(4) == 10 * Power10(3) && Power10(3) == 10 * Power10(2) && Power10(2) == 10 * Power10(1);
    YearsInOrder(100, year);
    YearsInOrder(year, 9999);
    WeekOfTheFourth(FirstDayOf(year));
    assert FirstDayOf(0) + 10 < FirstDayOf(100) && FirstDayOf(9999) + 7 * 99 < FirstDayOf(10001);
    YearIsBetween(FirstMonday(year) + 7 * (week - 1), 0, 10001);
  }

  /** A day in a readable week of a four-digit year shows as the week whose Monday is so many days back. */
  lemma {:induction false} MondayOfMiddle(monday: CivilDate, few: int, between: IsoWeekId)
    requires WeekAt(monday + few * 7) == Success(between) && IsWeekName(between)
    requires !(NEW_YEAR_10000 <= monday + few * 7 < NEW_YEAR_10000 + 31)
    ensures MondayOf(between) == Success(monday + few * 7 - Weekday(monday))
  {
    hide FirstDayOf, YearOf, DateOf, MonthStart, WeekOf, WeekAt, MondayOf, Thursday, IsWeekName, WeekName,
      Weekday, MondayBefore;
    var middle := monday + few * 7;
    var year := YearOf(Thursday(middle));
    var week := (Thursday(middle) - FirstDayOf(year)) / 7 + 1;
    ReadableDays(middle, between);
    PlainMiddle(middle, between);
    EveryDayLiesInOneWeek(middle, year, week);
    ShownPlainly(middle, year, week);
    MondayOfName(year, week);
    WeekOfTheFourth(FirstDayOf(year));
    MondaysAreWeeksApart(FirstMonday(year), week);
    WeekdayStays(monday, few);
    DaysSinceMonday(middle, FirstMonday(year) + 7 * (week - 1));
  }

  lemma {:induction false} WeekdayStays(day: int, weeks: int)
    ensures Weekday(day + weeks * 7) == Weekday(day)
  {
    assert day + weeks * 7 + 3 == (day + 3) + 7 * weeks;
  }

  lemma {:induction false} DaysSinceMonday(day: int, monday: int)
    requires Weekday(monday) == 0 && monday <= day < monday + 7
    ensures monday == day - Weekday(day)
  {
  }

  lemma {:induction false} PlainMiddle(middle: int, between: IsoWeekId)
    requires WeekAt(middle) == Success(between) && IsWeekName(between)
    requires !(NEW_YEAR_10000 <= middle < NEW_YEAR_10000 + 31)
    ensures HasPlainYear(middle)
  {
    hide FirstDayOf, YearOf, DateOf, MonthStart;
    if !HasPlainYear(middle) {
      ReadableNamesAreWeeks(MonthStart(middle));
      var year, week :| PrintsPlainly(year) && LiesIn(MonthStart(middle), year, week);
      EveryDayLiesInOneWeek(MonthStart(middle), year, week);
      CutIntoLastWeek(middle);
    }
  }

  /** The first of a month of 10000 that is no Monday shows as another week than the Monday before it, which is cut to
      the first of the month before; and so it is five weeks on from the first of January. */
  lemma {:induction false} BackFromACutMonday(monday: int)
    requires YearOf(monday) == 10000 && DateOf(monday).day == 1 && Weekday(monday) != 0
    ensures monday != NEW_YEAR_10000 ==> WeekAt(monday - Weekday(monday)) != WeekAt(monday)
    ensures monday == NEW_YEAR_10000 ==> WeekAt(monday - Weekday(monday) + 35) != WeekAt(monday + 35)
  {
    hide FirstDayOf, YearOf, DateOf, MonthStart, WeekOf;
    assert FirstDayOf(10000) == NEW_YEAR_10000 by { LastPlainWeek(NEW_YEAR_10000); }
    var month := DateOf(monday).month;
    YearIsDateYear(monday);
    if month == 1 {
      assert monday == NEW_YEAR_10000;
      FiveWeeksOn(monday);
      JanuaryShows(monday + 30);
      assert Weekday(NEW_YEAR_10000) == 5;
    } else {
      var before := monday - Weekday(monday);
      MonthBefore(monday, before, month);
      NamesOf10000(month);
    }
  }

  const MONTHS := [0, 0, 31, 60, 91, 121, 152, 182, 213, 244, 274, 305, 335]

  lemma {:induction false} MonthBefore(first: int, before: int, month: int)
    requires 2 <= month <= 12 && DateOf(first) == Date(10000, month, 1) && first - 6 <= before < first
    ensures first == NEW_YEAR_10000 + MONTHS[month] && YearOf(before) == 10000 && YearOf(first) == 10000
    ensures MonthStart(before) == NEW_YEAR_10000 + MONTHS[month - 1] && MonthStart(first) == first
  {
    hide YearOf, DateOf;
    assert FirstDayOf(10000) == NEW_YEAR_10000 && IsLeap(10000);
    var date := Date(10000, month - 1, DaysInMonth(10000, month - 1) - (first - before) + 1);
    assert DayNumber(date) == before;
    DateOfDayNumber(date);
    YearIsDateYear(before);
    YearIsDateYear(first);
  }

  /** The firsts of two months running, in 10000, show as different weeks. */
  lemma {:induction false} NamesOf10000(month: int)
    requires 2 <= month <= 12
    ensures WeekOf(NEW_YEAR_10000 + MONTHS[month]) != WeekOf(NEW_YEAR_10000 + MONTHS[month - 1])
  {
    hide YearOf, FirstDayOf, WeekOf, WeekName, IsWeekName, Thursday;
    WeekIn10000(MONTHS[month]);
    ThursdayIsNear(NEW_YEAR_10000 + MONTHS[month]);
    ThursdayIsNear(NEW_YEAR_10000 + MONTHS[month - 1]);
    NameIsReadBack(10000, (Thursday(NEW_YEAR_10000 + MONTHS[month]) - NEW_YEAR_10000 + 7) / 7);
    if month == 2 {
      LastPlainWeek(NEW_YEAR_10000);
      NameIsReadBack(9999, 52);
    } else {
      WeekIn10000(MONTHS[month - 1]);
      var one := (Thursday(NEW_YEAR_10000 + MONTHS[month]) - NEW_YEAR_10000 + 7) / 7;
      var other := (Thursday(NEW_YEAR_10000 + MONTHS[month - 1]) - NEW_YEAR_10000 + 7) / 7;
      assert one != other;
      if WeekName(10000, one) == WeekName(10000, other) {
        SameNameSameWeek(10000, one, other);
      }
    }
  }

  lemma {:induction false} WeekIn10000(offset: int)
    requires 31 <= offset <= 335
    ensures WeekOf(NEW_YEAR_10000 + offset) ==
            WeekName(10000, (Thursday(NEW_YEAR_10000 + offset) - NEW_YEAR_10000 + 7) / 7)
    ensures 0 <= (Thursday(NEW_YEAR_10000 + offset) - NEW_YEAR_10000 + 7) / 7 <= 99
  {
    hide YearOf, FirstDayOf, Thursday, WeekName;
    YearStarts();
    ThursdayIsNear(NEW_YEAR_10000 + offset);
    YearIsBetween(Thursday(NEW_YEAR_10000 + offset), 10000, 10001);
  }

  lemma {:induction false} SameNameSameWeek(year: int, one: int, other: int)
    requires 0 <= one <= 99 && 0 <= other <= 99 && WeekName(year, one) == WeekName(year, other)
    ensures one == other
  {
    PadIsTwoDigits(one);
    PadIsTwoDigits(other);
    var lead := RenderInt(year) + "-W";
    assert Pad2(one) == WeekName(year, one)[|lead|..] && Pad2(other) == WeekName(year, other)[|lead|..];
  }

  /** A day is shown unless it lies more than 8.64e15 milliseconds from 1 January 1970, and then as itself where its
      year has four digits. */
  lemma {:induction false} DaysInReach(day: int)
    ensures AsCivilDate(day).Success? <==> -8_640_000_000_000_000 <= day * 86_400_000 <= 8_640_000_000_000_000
    ensures AsCivilDate(day).Success? && FirstDayOf(0) <= day < FirstDayOf(10_000) ==> AsCivilDate(day).value == day
    ensures AsCivilDate(day).Failure? ==> AsCivilDate(day).error == OutOfRange
  {
    YearOfIsTheYear(day);
    if FirstDayOf(0) <= day < FirstDayOf(10_000) {
      if YearOf(day) < 0 {
        if YearOf(day) + 1 < 0 {
          YearsIncrease(YearOf(day) + 1, 0);
        }
      } else if YearOf(day) > 9_999 {
        if 10_000 < YearOf(day) {
          YearsIncrease(10_000, YearOf(day));
        }
      }
    }
    hide FirstDayOf, YearOf, DateOf;
  }

  /** A name is four digits, `-W` and two digits; its Monday is the one so many weeks on from the week of 4 January of
      the year, which below 100 counts from 1900. */
  lemma {:induction false} MondayIsExactly(id: IsoWeekId) returns (monday: int)
    ensures MondayOf(id) == Failure(NotAWeek) <==>
            !(|id| == 8 && id[4..6] == "-W" && forall i :: i in {0, 1, 2, 3, 6, 7} ==> '0' <= id[i] <= '9')
    ensures IsWeekName(id) ==>
              && MondayOf(id) == AsCivilDate(monday) && Weekday(monday) == 0
              && var written := Value(id[..4]);
                 var january4 := FirstDayOf(if written < 100 then written + 1900 else written) + 3;
                 monday <= january4 + 7 * (Value(id[6..]) - 1) < monday + 7
  {
    monday := 0;
    IsNameExactly(id);
    OnlyOtherShapesAreNone(id);
    if IsWeekName(id) {
      monday := MondayWritten(Value(id[..4]), Value(id[6..]) - 1);
    }
    hide FirstDayOf, AllDigits, Value, AsCivilDate, IsWeekName, FirstMonday;
  }

  lemma {:induction false} OnlyOtherShapesAreNone(id: IsoWeekId)
    ensures MondayOf(id) == Failure(NotAWeek) <==> !IsWeekName(id)
  {
    hide FirstMonday, Value, IsTime, HasPlainYear, MonthStart;
  }

  lemma {:induction false} MondayWritten(written: nat, weeks: int) returns (monday: int)
    ensures monday == FirstMonday(UtcYear(written)) + weeks * 7 && Weekday(monday) == 0
    ensures var january4 := FirstDayOf(if written < 100 then written + 1900 else written) + 3;
            monday <= january4 + 7 * weeks < monday + 7
  {
    hide FirstDayOf;
    var first := FirstDayOf(UtcYear(written));
    WeekOfTheFourth(first);
    monday := MondayBefore(first + 3) + weeks * 7;
    SameWeekday(MondayBefore(first + 3), weeks);
  }

  lemma {:induction false} SameWeekday(day: int, weeks: int)
    ensures Weekday(day + weeks * 7) == Weekday(day)
  {
  }

  lemma {:induction false} IsNameExactly(id: IsoWeekId)
    ensures IsWeekName(id) <==>
            |id| == 8 && id[4..6] == "-W" && forall i :: i in {0, 1, 2, 3, 6, 7} ==> '0' <= id[i] <= '9'
  {
    if |id| == 8 {
      assert AllDigits(id[..4]) <==> forall i :: i in {0, 1, 2, 3} ==> IsDigit(id[i]);
      assert AllDigits(id[6..]) <==> IsDigit(id[6]) && IsDigit(id[7]) by {
        assert id[6..][0] == id[6] && id[6..][1] == id[7];
      }
    }
  }
}
