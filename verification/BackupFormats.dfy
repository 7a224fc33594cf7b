// The names, the calendar and the orders the backup path relies on, each told by itself.
module BackupFormats {
  import opened Wrappers
  import opened Text
  import opened Naming
  import opened Retention
  import opened RetentionLaws
  import Calendar
  import Archive

  // ---- The calendar ----

  /** Every fourth year is leap, but of the hundredth only every fourth. */
  predicate HasALeapDay(year: int) {
    if year % 100 == 0 then (year / 100) % 4 == 0 else year % 4 == 0
  }

  /** Days are counted from Thursday, 1 January 1970; a year is 365 days, or 366 with a leap day, which is the 29th of
      February; and the week goes round. */
  lemma {:induction false} CalendarIs(year: int, month: int, day: int)
    requires 1 <= month <= 12
    ensures Calendar.FirstDayOf(1970) == 0 && Calendar.Weekday(0) == 3
    ensures Calendar.FirstDayOf(year + 1) - Calendar.FirstDayOf(year) == if HasALeapDay(year) then 366 else 365
    ensures Calendar.DaysInMonth(year, month) ==
            if month == 2 then (if HasALeapDay(year) then 29 else 28)
            else if month in {4, 6, 9, 11} then 30 else 31
    ensures 0 <= Calendar.Weekday(day) < 7
    ensures Calendar.Weekday(day + 1) == if Calendar.Weekday(day) == 6 then 0 else Calendar.Weekday(day) + 1
  {
    Calendar.YearsAreAdjacent(year);
    Calendar.LeapRule(year);
    LeapDays(year);
    hide Calendar.FirstDayOf;
    assert Calendar.FirstDayOf(1970) == 0 by { FirstDayOf1970(); }
  }

  lemma {:induction false} FirstDayOf1970()
    ensures Calendar.FirstDayOf(1970) == 0
  {
  }

  lemma {:induction false} LeapDays(year: int)
    ensures HasALeapDay(year) <==> Calendar.IsLeap(year)
  {
    Calendar.LeapRule(year);
    assert year % 100 == 0 ==> year == 100 * (year / 100);
  }

  /** A date's own day is so many days into its month. */
  lemma {:induction false} DaysCountOn(date: Calendar.Date)
    requires Calendar.IsDate(date)
    ensures date.day > 1 ==>
              Calendar.DayNumber(date) == Calendar.DayNumber(Calendar.Date(date.year, date.month, 1)) + date.day - 1
    ensures date.month > 1 && date.day == 1 ==>
              Calendar.DayNumber(date) ==
              Calendar.DayNumber(Calendar.Date(date.year, date.month - 1, 1))
              + Calendar.DaysInMonth(date.year, date.month - 1)
    ensures date.month == 1 && date.day == 1 ==> Calendar.DayNumber(date) == Calendar.FirstDayOf(date.year)
  {
    hide Calendar.FirstDayOf;
  }

  // ---- Stamps ----

  /** A run of decimal digits counts each digit ten times the next. */
  lemma {:induction false} DigitsCount(digits: string, last: char)
    requires AllDigits(digits + [last])
    ensures AllDigits(digits) && AllDigits([last]) && Value("") == 0
    ensures Value(digits + [last]) == 10 * Value(digits) + Value([last])
    ensures "0123456789"[Value([last])] == last
  {
    var whole := digits + [last];
    assert whole[..|digits|] == digits && whole[|digits|] == last;
    assert forall i :: 0 <= i < |digits| ==> digits[i] == whole[i];
    assert [last][..0] == "";
    assert Value([last]) == DigitValue(last);
  }

  /** A name with a stamp is dated exactly when its fields make a real date and time, and then as this many seconds from
      1970. */
  lemma {:induction false} StampIsReadExactly(name: string)
    requires HasStamp(name)
    ensures AreNumbers(name)
    ensures var date := Calendar.Date(Value(name[6..10]), Value(name[10..12]), Value(name[12..14]));
            var hour, minute, second := Value(name[15..17]), Value(name[17..19]), Value(name[19..21]);
            if date.year >= 1 && Calendar.IsDate(date) && hour <= 23 && minute <= 59 && second <= 59 then
              TakenAt(name) == Some(((Calendar.DayNumber(date) * 24 + hour) * 60 + minute) * 60 + second)
            else TakenAt(name) == None
  {
    FieldsStand(name);
    hide Calendar.DayNumber, Calendar.IsDate, Value, AllDigits;
  }

  predicate AreNumbers(name: string)
    requires |name| >= 22
  {
    && AllDigits(name[6..10]) && AllDigits(name[10..12]) && AllDigits(name[12..14])
    && AllDigits(name[15..17]) && AllDigits(name[17..19]) && AllDigits(name[19..21])
  }

  lemma {:induction false} FieldsStand(name: string)
    requires HasStamp(name)
    ensures var f := FieldsOf(name);
            && AreNumbers(name) && f.year == name[6..10] && f.month == name[10..12] && f.day == name[12..14]
            && f.hour == name[15..17] && f.minute == name[17..19] && f.second == name[19..21]
  {
    PartOfAPart(name, 6, 14, 0, 4);
    PartOfAPart(name, 6, 14, 4, 6);
    PartOfAPart(name, 6, 14, 6, 8);
    PartOfAPart(name, 15, 21, 0, 2);
    PartOfAPart(name, 15, 21, 2, 4);
    PartOfAPart(name, 15, 21, 4, 6);
    var date, time := name[6..14], name[15..21];
    assert date[..4] == date[0..4] && date[6..] == date[6..8];
    assert time[..2] == time[0..2] && time[4..] == time[4..6];
  }

  lemma {:induction false} PartOfAPart(name: string, from: nat, upTo: nat, start: nat, stop: nat)
    requires from <= upTo <= |name| && start <= stop <= upTo - from
    ensures name[from..upTo][start..stop] == name[from + start..from + stop]
  {
    var part, same := name[from..upTo][start..stop], name[from + start..from + stop];
    assert |part| == |same| && forall i :: 0 <= i < |part| ==> part[i] == same[i];
  }

  /** The years a stamp prints with four digits run from the first of 1000 to the last of 9999. */
  lemma {:induction false} FourDigitYearsAre(when: int)
    ensures HasFourDigitYear(when) <==>
            Calendar.FirstDayOf(1000) * 86_400_000_000 <= when < Calendar.FirstDayOf(10_000) * 86_400_000_000
  {
    var day := when / MICROSECONDS / SECONDS_A_DAY;
    var date := Calendar.DateOf(day);
    Calendar.DayNumberWithinYear(date);
    DayOfMicroseconds(when, Calendar.FirstDayOf(1000));
    DayOfMicroseconds(when, Calendar.FirstDayOf(10_000));
    hide Calendar.FirstDayOf, Calendar.DateOf, Calendar.DayNumber;
    if date.year < 1000 {
      YearsInTurn(date.year + 1, 1000);
    } else {
      YearsInTurn(1000, date.year);
    }
    if date.year < 10_000 {
      YearsInTurn(date.year + 1, 10_000);
    } else {
      YearsInTurn(10_000, date.year);
    }
  }

  lemma {:induction false} YearsInTurn(early: int, late: int)
    requires early <= late
    ensures Calendar.FirstDayOf(early) <= Calendar.FirstDayOf(late)
  {
    hide Calendar.FirstDayOf;
    if early < late {
      Calendar.YearsIncrease(early, late);
      Calendar.YearsAreAdjacent(early);
    }
  }

  lemma {:induction false} DayOfMicroseconds(when: int, day: int)
    ensures when / MICROSECONDS / SECONDS_A_DAY >= day <==> when >= day * 86_400_000_000
  {
  }

  /** The pattern: the prefix, eight digits, a `T`, six digits and a `Z`, with anything after them. */
  lemma {:induction false} StampsAre(name: string)
    ensures HasStamp(name) <==>
            && |name| >= 22 && name[..6] == "syncr-" && name[14] == 'T' && name[21] == 'Z'
            && forall i :: 6 <= i < 21 && i != 14 ==> '0' <= name[i] <= '9'
    ensures HasStamp(name) ==> BackupName(name) == name[..22]
  {
    if |name| >= 22 {
      assert AllDigits(name[6..14]) <==> forall i :: 6 <= i < 14 ==> IsDigit(name[i]) by {
        DigitsStand(name, 6, 14);
      }
      assert AllDigits(name[15..21]) <==> forall i :: 15 <= i < 21 ==> IsDigit(name[i]) by {
        DigitsStand(name, 15, 21);
      }
    }
  }

  lemma {:induction false} DigitsStand(name: string, from: nat, upTo: nat)
    requires from <= upTo <= |name|
    ensures AllDigits(name[from..upTo]) <==> forall i :: from <= i < upTo ==> IsDigit(name[i])
  {
    var part := name[from..upTo];
    assert forall i :: from <= i < upTo ==> name[i] == part[i - from];
  }

  lemma {:induction false} ObjectNamesAre(name: string)
    ensures DumpObject(name) == name + ".dump.gpg" && ManifestObject(name) == name + ".manifest.json.gpg"
    ensures ObjectsFor(name) == [name + ".dump.gpg", name + ".manifest.json.gpg"]
    ensures SegmentObject(name) == name + ".gz.gpg"
  {
    assert name + DUMP_SUFFIX + ENCRYPTED_SUFFIX == name + (DUMP_SUFFIX + ENCRYPTED_SUFFIX);
    assert name + MANIFEST_SUFFIX + ENCRYPTED_SUFFIX == name + (MANIFEST_SUFFIX + ENCRYPTED_SUFFIX);
    assert name + COMPRESSED_SUFFIX + ENCRYPTED_SUFFIX == name + (COMPRESSED_SUFFIX + ENCRYPTED_SUFFIX);
    assert ".dump" + ".gpg" == ".dump.gpg" && ".manifest.json" + ".gpg" == ".manifest.json.gpg";
    assert ".gz" + ".gpg" == ".gz.gpg";
  }

  // ---- What is shipped ----

  lemma {:induction false} EndsAre(name: string, suffix: string)
    ensures EndsWith(name, suffix) <==> exists stem :: name == stem + suffix
  {
    if EndsWith(name, suffix) {
      assert name == name[..|name| - |suffix|] + suffix;
    }
    if stem :| name == stem + suffix {
      assert name[|name| - |suffix|..] == suffix;
    }
  }

  /** The files left where they are: a compressed or encrypted copy, one half written, and a segment given up; and no
      others, so that a timeline's history is shipped like a segment. */
  lemma {:induction false} LeftBehindExactly(name: string)
    ensures !Archive.IsShippable(name) <==>
            exists stem :: name in {stem + ".gz", stem + ".gpg", stem + ".tmp", stem + ".partial"}
    ensures Archive.IsShippable(name + ".history")
  {
    EndsAre(name, ".gz");
    EndsAre(name, ".gpg");
    EndsAre(name, ".tmp");
    EndsAre(name, ".partial");
    HistoryIsShipped(name);
    hide EndsWith;
  }

  lemma {:induction false} HistoryIsShipped(name: string)
    ensures Archive.IsShippable(name + ".history")
  {
    var history := name + ".history";
    assert history[|history| - 1] == 'y';
    LastOfSuffix(history, ".gz");
    LastOfSuffix(history, ".gpg");
    LastOfSuffix(history, ".tmp");
    LastOfSuffix(history, ".partial");
    hide EndsWith;
  }

  /** A gauge holds the whole second nearest its reading, and of two as near the even one. */
  lemma {:induction false} GaugeIsTheNearestSecond(microseconds: int)
    ensures var second := Archive.Rounded(microseconds);
            && -500_000 <= microseconds - second * 1_000_000 <= 500_000
            && (microseconds - second * 1_000_000 in {-500_000, 500_000} ==> second % 2 == 0)
  {
  }

  // ---- In which order ----

  /** The newest segment is the one sent last, and of several sent at once the first listed. */
  lemma {:induction false} NewestIsTheFirstOfTheLast(segments: seq<(string, int)>) returns (at: nat)
    requires segments != []
    ensures at < |segments| && NewestSegment(segments) == segments[at]
    ensures forall i :: 0 <= i < |segments| ==> segments[i].1 <= segments[at].1
    ensures forall i :: 0 <= i < at ==> segments[i].1 < segments[at].1
  {
    at := 0;
    if |segments| > 1 {
      var later := NewestIsTheFirstOfTheLast(segments[1..]);
      assert forall i :: 0 < i < |segments| ==> segments[i] == segments[1..][i - 1];
      at := if segments[0].1 >= segments[later + 1].1 then 0 else later + 1;
    }
  }

  lemma {:induction false} FilteredInOrder(names: seq<string>, keep: string -> bool)
    requires IsDescending(names)
    ensures IsDescending(Filter(names, keep))
  {
    if names != [] {
      FilteredInOrder(names[1..], keep);
      var rest := Filter(names[1..], keep);
      forall j | 0 <= j < |rest| ensures Less(rest[j], names[0]) {
        FilterKeeps(names[1..], keep, rest[j]);
        assert rest[j] in rest;
        var k :| 0 <= k < |names[1..]| && names[1..][k] == rest[j];
        assert names[k + 1] == rest[j];
      }
    }
  }

  /** A plan lists what it keeps and what it deletes newest first; what it could not read, the objects it deletes and
      the segments that go, in order of name. */
  lemma {:induction false} PlansAreInOrder(objects: seq<string>, justUploaded: string, present: seq<string>,
                                           segments: seq<(string, int)>, oldestKept: int)
    ensures var plan := PlanFor(objects, justUploaded);
            plan.Success? ==>
              IsDescending(plan.value.keep) && IsDescending(plan.value.delete) && IsAscending(plan.value.unclassified)
    ensures forall deleting :: IsAscending(ObjectsToDelete(present, deleting))
    ensures IsAscending(WalToDelete(segments, oldestKept))
  {
    hide IsDescending, IsAscending, Filter, Ascending, BackupsIn, Kept, Less;
    var backups := BackupsIn(objects);
    BackupsAreTheSet(objects);
    var keep := Kept(backups);
    FilteredInOrder(backups, name => name in keep);
    FilteredInOrder(backups, name => name !in keep);
    AscendingSorts(Filter(objects, name => TakenAt(name).None?));
    forall deleting ensures IsAscending(ObjectsToDelete(present, deleting)) {
      AscendingSorts(HeldObjects(Elements(present), deleting));
    }
    NothingAscends();
    if segments != [] {
      var newest := NewestSegment(segments).0;
      var cut := (oldestKept - WAL_RETENTION_MARGIN_SECONDS) * MICROSECONDS;
      AscendingSorts(NamesOf(Filter(segments, (entry: (string, int)) => entry.1 < cut && entry.0 != newest)));
    }
  }

  lemma {:induction false} NothingAscends()
    ensures IsAscending([])
  {
  }
}
