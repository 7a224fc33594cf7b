// deployments/ops/naming.py: the names of backups, of their objects and of segments' objects, and the instants in them.
module Naming {
  import opened Wrappers
  import opened Text
  import Calendar

  const PREFIX := "syncr-"
  const DUMP_SUFFIX := ".dump"
  const MANIFEST_SUFFIX := ".manifest.json"
  const COMPRESSED_SUFFIX := ".gz"
  const ENCRYPTED_SUFFIX := ".gpg"

  /** `syncr-` and sixteen characters of stamp. */
  const NAME_LENGTH := 22

  const SECONDS_A_DAY := 86_400
  const MICROSECONDS := 1_000_000

  /** The eight fields a name is made of, all of fixed width, in the order they are written. */
  datatype Fields = Fields(year: string, month: string, day: string, hour: string, minute: string, second: string)

  predicate FieldsFit(f: Fields) {
    && |f.year| == 4 && |f.month| == 2 && |f.day| == 2 && |f.hour| == 2 && |f.minute| == 2 && |f.second| == 2
    && AllDigits(f.year) && AllDigits(f.month) && AllDigits(f.day)
    && AllDigits(f.hour) && AllDigits(f.minute) && AllDigits(f.second)
  }

  function Written(f: Fields): string {
    PREFIX + (f.year + (f.month + (f.day + ("T" + (f.hour + (f.minute + (f.second + "Z")))))))
  }

  /** What the anchored pattern matches: the prefix, eight digits, `T`, six digits, `Z`. */
  predicate HasStamp(name: string) {
    && |name| >= NAME_LENGTH
    && name[..6] == PREFIX
    && AllDigits(name[6..14])
    && name[14] == 'T'
    && AllDigits(name[15..21])
    && name[21] == 'Z'
  }

  function FieldsOf(name: string): (f: Fields)
    requires HasStamp(name)
    ensures FieldsFit(f)
  {
    var date, time := name[6..14], name[15..21];
    assert forall i :: 0 <= i < 8 ==> IsDigit(date[i]);
    assert forall i :: 0 <= i < 6 ==> IsDigit(time[i]);
    Fields(date[..4], date[4..6], date[6..], time[..2], time[2..4], time[4..])
  }

  /** The part of an object name its backup goes by. */
  function BackupName(name: string): string
    requires HasStamp(name)
  {
    name[..NAME_LENGTH]
  }

  /** A backup's own name: the stamp and nothing after it. */
  predicate IsBackupName(name: string) {
    HasStamp(name) && |name| == NAME_LENGTH
  }

  lemma {:induction false} NameIsItsFields(name: string)
    requires HasStamp(name)
    ensures BackupName(name) == Written(FieldsOf(name))
  {
    var f := FieldsOf(name);
    var short := BackupName(name);
    var built := Written(f);
    assert |built| == NAME_LENGTH;
    assert name[6..14] == f.year + (f.month + f.day);
    assert name[15..21] == f.hour + (f.minute + f.second);
    forall i | 0 <= i < NAME_LENGTH ensures short[i] == built[i] {
      if i < 6 {
        assert short[i] == name[..6][i];
      } else if i < 14 {
        assert short[i] == name[6..14][i - 6];
      } else if 15 <= i < 21 {
        assert short[i] == name[15..21][i - 15];
      }
    }
  }

  lemma {:induction false} FieldsOfWritten(f: Fields)
    requires FieldsFit(f)
    ensures HasStamp(Written(f)) && |Written(f)| == NAME_LENGTH
    ensures FieldsOf(Written(f)) == f
  {
    var name := Written(f);
    assert |name| == NAME_LENGTH;
    assert name[..6] == PREFIX;
    assert name[6..14] == f.year + f.month + f.day;
    assert name[15..21] == f.hour + f.minute + f.second;
  }

  /** What `strptime` accepts and `datetime` can hold: a real date from year 1, a real time, no leap second. */
  predicate IsInstant(f: Fields)
    requires FieldsFit(f)
  {
    && Value(f.year) >= 1
    && Calendar.IsDate(DateIn(f))
    && Value(f.hour) < 24
    && Value(f.minute) < 60
    && Value(f.second) < 60
  }

  function DateIn(f: Fields): Calendar.Date
    requires FieldsFit(f)
  {
    Calendar.Date(Value(f.year), Value(f.month), Value(f.day))
  }

  function SecondOfDay(f: Fields): int
    requires FieldsFit(f)
  {
    3600 * Value(f.hour) + 60 * Value(f.minute) + Value(f.second)
  }

  function SecondsOf(f: Fields): int
    requires FieldsFit(f) && IsInstant(f)
  {
    SECONDS_A_DAY * Calendar.DayNumber(DateIn(f)) + SecondOfDay(f)
  }

  /** The instant a stamp spells, in seconds since 1970; `None` with no stamp, or with one that spells no real
      instant. */
  function TakenAt(name: string): Option<int> {
    if !HasStamp(name) then None
    else
      var f := FieldsOf(name);
      if IsInstant(f) then Some(SecondsOf(f)) else None
  }

  function DumpObject(name: string): string {
    name + DUMP_SUFFIX + ENCRYPTED_SUFFIX
  }

  function ManifestObject(name: string): string {
    name + MANIFEST_SUFFIX + ENCRYPTED_SUFFIX
  }

  function SegmentObject(segment: string): string {
    segment + COMPRESSED_SUFFIX + ENCRYPTED_SUFFIX
  }

  function ObjectsFor(name: string): seq<string> {
    [DumpObject(name), ManifestObject(name)]
  }

  /** The name fragment for an instant given in microseconds; `strftime` drops what is below a second. */
  function Stamp(when: int): string {
    var seconds := when / MICROSECONDS;
    var date := Calendar.DateOf(seconds / SECONDS_A_DAY);
    var time := seconds % SECONDS_A_DAY;
    Written(StampFields(date, time))
  }

  function StampFields(date: Calendar.Date, time: int): (f: Fields)
    requires Calendar.IsDate(date) && 0 <= time < SECONDS_A_DAY
    ensures FieldsFit(f)
  {
    Fields(
      Fixed(if date.year < 0 then 0 else date.year, 4), Fixed(date.month, 2), Fixed(date.day, 2),
      Fixed(time / 3600, 2), Fixed(time / 60 % 60, 2), Fixed(time % 60, 2))
  }

  /** The years a four-digit `%Y` writes and `strptime` reads back. */
  predicate HasFourDigitYear(when: int) {
    1000 <= Calendar.DateOf(when / MICROSECONDS / SECONDS_A_DAY).year <= 9999
  }

  lemma {:induction false} TimeOfDay(time: int)
    requires 0 <= time < SECONDS_A_DAY
    ensures time / 3600 < 24
    ensures 3600 * (time / 3600) + 60 * (time / 60 % 60) + time % 60 == time
  {
    var minutes := time / 60;
    assert time / 3600 == minutes / 60;
  }

  lemma {:induction false} StampFieldsRoundTrip(date: Calendar.Date, time: int)
    requires Calendar.IsDate(date) && 1000 <= date.year <= 9999 && 0 <= time < SECONDS_A_DAY
    ensures var f := StampFields(date, time); IsInstant(f) && DateIn(f) == date && SecondOfDay(f) == time
  {
    TimeOfDay(time);
    var f := StampFields(date, time);
    FourDigits(date.year);
    TwoDigits(date.month);
    TwoDigits(date.day);
    assert DateIn(f) == date;
    TwoDigits(time / 3600);
    TwoDigits(time / 60 % 60);
    TwoDigits(time % 60);
  }

  lemma {:induction false} TwoDigits(number: nat)
    requires number < 100
    ensures Value(Fixed(number, 2)) == number
  {
    assert Power10(2) == 100;
    ValueOfFixed(number, 2);
  }

  lemma {:induction false} FourDigits(number: nat)
    requires number < 10000
    ensures Value(Fixed(number, 4)) == number
  {
    assert Power10(4) == 10 * Power10(3) == 100 * Power10(2) == 10000;
    ValueOfFixed(number, 4);
  }

  /** The instant read back out of a name is the instant it was stamped with, to the second. */
  lemma {:induction false} StampRoundTrip(when: int)
    requires HasFourDigitYear(when)
    ensures TakenAt(Stamp(when)) == Some(when / MICROSECONDS)
    ensures IsBackupName(Stamp(when))
  {
    var seconds := when / MICROSECONDS;
    var date := Calendar.DateOf(seconds / SECONDS_A_DAY);
    var time := seconds % SECONDS_A_DAY;
    var f := StampFields(date, time);
    StampFieldsRoundTrip(date, time);
    FieldsOfWritten(f);
    assert SecondsOf(f) == seconds;
  }

  /** Field by field, which is what comparing two names of one layout amounts to. */
  predicate FieldsLess(f: Fields, g: Fields) {
    || Less(f.year, g.year)
    || (f.year == g.year && Less(f.month, g.month))
    || (f.year == g.year && f.month == g.month && Less(f.day, g.day))
    || (f.year == g.year && f.month == g.month && f.day == g.day && TimeLess(f, g))
  }

  predicate TimeLess(f: Fields, g: Fields) {
    || Less(f.hour, g.hour)
    || (f.hour == g.hour && Less(f.minute, g.minute))
    || (f.hour == g.hour && f.minute == g.minute && Less(f.second, g.second))
  }

  lemma {:induction false} TimeTextOrder(f: Fields, g: Fields)
    requires FieldsFit(f) && FieldsFit(g)
    ensures Less("T" + (f.hour + (f.minute + (f.second + "Z"))), "T" + (g.hour + (g.minute + (g.second + "Z"))))
            <==> TimeLess(f, g)
  {
    LessByField("T", "T", f.hour + (f.minute + (f.second + "Z")), g.hour + (g.minute + (g.second + "Z")));
    LessByField(f.hour, g.hour, f.minute + (f.second + "Z"), g.minute + (g.second + "Z"));
    LessByField(f.minute, g.minute, f.second + "Z", g.second + "Z");
    LessByField(f.second, g.second, "Z", "Z");
    LessIsIrreflexive("T");
    LessIsIrreflexive("Z");
  }

  lemma {:induction false} WrittenOrder(f: Fields, g: Fields)
    requires FieldsFit(f) && FieldsFit(g)
    ensures Less(Written(f), Written(g)) <==> FieldsLess(f, g)
  {
    var timeF, timeG := "T" + (f.hour + (f.minute + (f.second + "Z"))), "T" + (g.hour + (g.minute + (g.second + "Z")));
    LessByField(PREFIX, PREFIX, f.year + (f.month + (f.day + timeF)), g.year + (g.month + (g.day + timeG)));
    LessByField(f.year, g.year, f.month + (f.day + timeF), g.month + (g.day + timeG));
    LessByField(f.month, g.month, f.day + timeF, g.day + timeG);
    LessByField(f.day, g.day, timeF, timeG);
    LessIsIrreflexive(PREFIX);
    TimeTextOrder(f, g);
  }

  lemma {:induction false} SecondsOrder(f: Fields, g: Fields)
    requires FieldsFit(f) && FieldsFit(g) && IsInstant(f) && IsInstant(g) && FieldsLess(f, g)
    ensures SecondsOf(f) < SecondsOf(g)
  {
    DigitsInOrder(f.year, g.year);
    DigitsInOrder(f.month, g.month);
    DigitsInOrder(f.day, g.day);
    DigitsInOrder(f.hour, g.hour);
    DigitsInOrder(f.minute, g.minute);
    DigitsInOrder(f.second, g.second);
    if Calendar.DateLess(DateIn(f), DateIn(g)) {
      Calendar.DayNumberIncreases(DateIn(f), DateIn(g));
    } else {
      assert DateIn(f) == DateIn(g) && SecondOfDay(f) < SecondOfDay(g);
    }
  }

  /** On names carrying real instants, text order is time order. */
  lemma {:induction false} NamesSortByTime(a: string, b: string)
    requires IsBackupName(a) && IsBackupName(b)
    requires TakenAt(a).Some? && TakenAt(b).Some?
    ensures Less(a, b) <==> TakenAt(a).value < TakenAt(b).value
    ensures a == b <==> TakenAt(a) == TakenAt(b)
  {
    NameIsItsFields(a);
    NameIsItsFields(b);
    var f, g := FieldsOf(a), FieldsOf(b);
    assert BackupName(a) == a && BackupName(b) == b;
    WrittenOrder(f, g);
    WrittenOrder(g, f);
    LessIsTotal(a, b);
    if Less(a, b) {
      LessIsAsymmetric(a, b);
      SecondsOrder(f, g);
    } else if Less(b, a) {
      SecondsOrder(g, f);
    }
  }

  /** An object's instant is its backup's. */
  lemma {:induction false} TakenAtOfBackupName(name: string)
    requires HasStamp(name)
    ensures IsBackupName(BackupName(name)) && TakenAt(BackupName(name)) == TakenAt(name)
  {
    var short := BackupName(name);
    assert short[..6] == name[..6] && short[6..14] == name[6..14] && short[15..21] == name[15..21];
  }

  lemma {:induction false} ObjectsNameTheirBackup(name: string, held: string)
    requires IsBackupName(name) && held in ObjectsFor(name)
    ensures HasStamp(held) && BackupName(held) == name
  {
    assert held[..NAME_LENGTH] == name;
    assert held[..6] == name[..6] && held[6..14] == name[6..14] && held[15..21] == name[15..21];
  }

  lemma {:induction false} SegmentObjectIsInjective(a: string, b: string)
    requires SegmentObject(a) == SegmentObject(b)
    ensures a == b
  {
    assert a == SegmentObject(a)[..|SegmentObject(a)| - 7];
    assert b == SegmentObject(b)[..|SegmentObject(b)| - 7];
  }
}
