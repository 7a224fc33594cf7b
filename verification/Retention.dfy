// deployments/ops/retention.py: one night's plan of deletions, from one listing of the bucket.
module Retention {
  import opened Wrappers
  import opened Text
  import opened Naming
  import Calendar

  const WAL_RETENTION_MARGIN_SECONDS := 24 * 60 * 60

  function Elements<T>(s: seq<T>): set<T> {
    set x | x in s
  }

  function Filter<T>(s: seq<T>, keep: T -> bool): seq<T> {
    if s == [] then []
    else (if keep(s[0]) then [s[0]] else []) + Filter(s[1..], keep)
  }

  function First<T>(s: seq<T>, count: nat): seq<T> {
    if |s| <= count then s else s[..count]
  }

  lemma {:induction false} FilterKeeps<T>(s: seq<T>, keep: T -> bool, x: T)
    ensures x in Filter(s, keep) <==> x in s && keep(x)
  {
    if s != [] {
      FilterKeeps(s[1..], keep, x);
      assert s == [s[0]] + s[1..];
    }
  }

  // ---- Python's `sorted`, over a set newest first and over a sequence oldest first ----

  function Insert(name: string, newestFirst: seq<string>): seq<string> {
    if newestFirst == [] then [name]
    else if name == newestFirst[0] then newestFirst
    else if Less(newestFirst[0], name) then [name] + newestFirst
    else [newestFirst[0]] + Insert(name, newestFirst[1..])
  }

  /** `sorted(set(names), reverse=True)`. */
  function Descending(names: seq<string>): seq<string> {
    if names == [] then [] else Insert(names[0], Descending(names[1..]))
  }

  ghost predicate IsDescending(s: seq<string>) {
    forall i, j :: 0 <= i < j < |s| ==> Less(s[j], s[i])
  }

  lemma {:induction false} InsertSorts(name: string, s: seq<string>)
    requires IsDescending(s)
    ensures IsDescending(Insert(name, s))
    ensures Elements(Insert(name, s)) == Elements(s) + {name}
  {
    if s == [] {
    } else if name == s[0] {
    } else if Less(s[0], name) {
      forall j | 0 <= j < |s| ensures Less(s[j], name) {
        if j > 0 { LessIsTransitive(s[j], s[0], name); }
      }
      assert Elements([name] + s) == Elements(s) + {name};
    } else {
      InsertSorts(name, s[1..]);
      var rest := Insert(name, s[1..]);
      assert Elements(s) == {s[0]} + Elements(s[1..]);
      LessIsTotal(name, s[0]);
      forall j | 0 <= j < |rest| ensures Less(rest[j], s[0]) {
        assert rest[j] in Elements(rest);
      }
      assert Elements([s[0]] + rest) == {s[0]} + Elements(rest);
    }
  }

  lemma {:induction false} DescendingSorts(names: seq<string>)
    ensures IsDescending(Descending(names))
    ensures Elements(Descending(names)) == Elements(names)
  {
    if names != [] {
      DescendingSorts(names[1..]);
      InsertSorts(names[0], Descending(names[1..]));
      assert Elements(names) == Elements(names[1..]) + {names[0]};
    }
  }

  lemma {:induction false} OnlyEmptyHasNone<T>(s: seq<T>)
    ensures s == [] <==> Elements(s) == {}
  {
    if s != [] { assert s[0] in Elements(s); }
  }

  /** Sorting leaves no choice: there is one newest-first order of a set of names. */
  lemma {:induction false} DescendingIsUnique(s: seq<string>, t: seq<string>)
    requires IsDescending(s) && IsDescending(t) && Elements(s) == Elements(t)
    ensures s == t
  {
    OnlyEmptyHasNone(s);
    OnlyEmptyHasNone(t);
    if s != [] {
      assert s[0] in Elements(t) && t[0] in Elements(s);
      if s[0] != t[0] {
        LessIsAsymmetric(s[0], t[0]);
      }
      forall x ensures x in Elements(s[1..]) <==> x in Elements(t[1..]) {
        LessIsIrreflexive(s[0]);
        assert x in s[1..] <==> x in Elements(s) && x != s[0];
        assert x in t[1..] <==> x in Elements(t) && x != t[0];
      }
      DescendingIsUnique(s[1..], t[1..]);
      assert s == [s[0]] + s[1..] && t == [t[0]] + t[1..];
    }
  }

  function InsertAscending(name: string, oldestFirst: seq<string>): seq<string> {
    if oldestFirst == [] || !Less(oldestFirst[0], name) then [name] + oldestFirst
    else [oldestFirst[0]] + InsertAscending(name, oldestFirst[1..])
  }

  /** `sorted(names)`, which keeps repeats. */
  function Ascending(names: seq<string>): seq<string> {
    if names == [] then [] else InsertAscending(names[0], Ascending(names[1..]))
  }

  ghost predicate IsAscending(s: seq<string>) {
    forall i, j :: 0 <= i < j < |s| ==> !Less(s[j], s[i])
  }

  lemma {:induction false} SmallestGoesFirst(name: string, s: seq<string>)
    requires IsAscending(s) && s != [] && !Less(s[0], name)
    ensures IsAscending([name] + s)
  {
    forall j | 0 <= j < |s| ensures !Less(s[j], name) {
      if Less(s[j], name) {
        LessIsTotal(s[0], s[j]);
        if Less(s[0], s[j]) { LessIsTransitive(s[0], s[j], name); }
      }
    }
  }

  lemma {:induction false} InsertAscendingSorts(name: string, s: seq<string>)
    requires IsAscending(s)
    ensures IsAscending(InsertAscending(name, s))
    ensures multiset(InsertAscending(name, s)) == multiset(s) + multiset{name}
  {
    hide Less;
    if s == [] {
    } else if !Less(s[0], name) {
      SmallestGoesFirst(name, s);
      assert multiset([name] + s) == multiset(s) + multiset{name};
    } else {
      InsertAscendingSorts(name, s[1..]);
      var rest := InsertAscending(name, s[1..]);
      assert s == [s[0]] + s[1..];
      LessIsAsymmetric(s[0], name);
      forall x | x in rest ensures !Less(x, s[0]) {
        assert x in multiset(rest);
        LessIsIrreflexive(s[0]);
      }
      assert multiset([s[0]] + rest) == multiset{s[0]} + multiset(rest);
    }
  }

  lemma {:induction false} AscendingSorts(names: seq<string>)
    ensures IsAscending(Ascending(names))
    ensures multiset(Ascending(names)) == multiset(names)
  {
    if names != [] {
      AscendingSorts(names[1..]);
      InsertAscendingSorts(names[0], Ascending(names[1..]));
      assert names == [names[0]] + names[1..];
    }
  }

  lemma {:induction false} AscendingKeeps(names: seq<string>, x: string)
    ensures x in Ascending(names) <==> x in names
  {
    AscendingSorts(names);
    assert x in Ascending(names) <==> x in multiset(Ascending(names));
    assert x in names <==> x in multiset(names);
  }

  // ---- naming.backups_in ----

  function StampedNames(objects: seq<string>): seq<string> {
    if objects == [] then []
    else (if HasStamp(objects[0]) then [BackupName(objects[0])] else []) + StampedNames(objects[1..])
  }

  /** The names of backups that a listing's objects carry, each once and the latest first. */
  function BackupsIn(objects: seq<string>): seq<string> {
    Descending(StampedNames(objects))
  }

  /** The same names as a set. */
  function BackupSet(objects: set<string>): set<string> {
    set o | o in objects && HasStamp(o) :: BackupName(o)
  }

  lemma {:induction false} StampedNamesAreTheSet(objects: seq<string>)
    ensures Elements(StampedNames(objects)) == BackupSet(Elements(objects))
  {
    if objects != [] {
      StampedNamesAreTheSet(objects[1..]);
      assert Elements(objects) == {objects[0]} + Elements(objects[1..]);
      assert forall o :: o in Elements(objects) <==> o == objects[0] || o in Elements(objects[1..]);
      forall x ensures x in Elements(StampedNames(objects)) <==> x in BackupSet(Elements(objects)) {
        assert x in StampedNames(objects)
          <==> (HasStamp(objects[0]) && x == BackupName(objects[0])) || x in StampedNames(objects[1..]);
        assert x in StampedNames(objects[1..]) <==> x in BackupSet(Elements(objects[1..]));
      }
    }
  }

  lemma {:induction false} BackupsAreTheSet(objects: seq<string>)
    ensures IsDescending(BackupsIn(objects))
    ensures Elements(BackupsIn(objects)) == BackupSet(Elements(objects))
    ensures forall name :: name in BackupsIn(objects) ==> IsBackupName(name)
  {
    StampedNamesAreTheSet(objects);
    DescendingSorts(StampedNames(objects));
    forall name | name in BackupsIn(objects) ensures IsBackupName(name) {
      assert name in BackupSet(Elements(objects));
      var o :| o in objects && HasStamp(o) && BackupName(o) == name;
      TakenAtOfBackupName(o);
    }
  }

  // ---- The three classes ----

  datatype Class = Daily | Weekly | Monthly

  function Copies(class_: Class): nat {
    match class_
    case Daily => 7
    case Weekly => 4
    case Monthly => 6
  }

  function DayTaken(name: string): int
    requires TakenAt(name).Some?
  {
    TakenAt(name).value / SECONDS_A_DAY
  }

  /** Whether a class counts this copy: every dated one, the Mondays, the firsts of a month. */
  predicate Wants(class_: Class, name: string) {
    && TakenAt(name).Some?
    && match class_
       case Daily => true
       case Weekly => Calendar.Weekday(DayTaken(name)) == 0
       case Monthly => Calendar.DateOf(DayTaken(name)).day == 1
  }

  function NewestOf(class_: Class, backups: seq<string>): seq<string> {
    First(Filter(backups, name => Wants(class_, name)), Copies(class_))
  }

  /** What at least one class counts among its newest. */
  function Kept(backups: seq<string>): set<string> {
    Elements(NewestOf(Daily, backups)) + Elements(NewestOf(Weekly, backups)) + Elements(NewestOf(Monthly, backups))
  }

  datatype Plan = Plan(keep: seq<string>, delete: seq<string>, unclassified: seq<string>)

  datatype Refusal = NotThisListing | NewestWouldGo

  /** The plan over a listing: refused unless this run's upload shows in it, and neither that nor the newest would go.
      */
  function PlanFor(objects: seq<string>, justUploaded: string): Result<Plan, Refusal> {
    var backups := BackupsIn(objects);
    if justUploaded !in backups then Failure(NotThisListing)
    else
      var keep := Kept(backups);
      var delete := Filter(backups, name => name !in keep);
      if backups[0] in delete || justUploaded in delete then Failure(NewestWouldGo)
      else Success(Plan(
        Filter(backups, name => name in keep),
        delete,
        Ascending(Filter(objects, name => TakenAt(name).None?))))
  }

  /** The last of the kept, which decides how much WAL is kept. */
  function OldestKept(plan: Plan): string
    requires plan.keep != []
  {
    plan.keep[|plan.keep| - 1]
  }

  function HeldObjects(held: set<string>, deleting: seq<string>): seq<string> {
    if deleting == [] then []
    else Filter(ObjectsFor(deleting[0]), name => name in held) + HeldObjects(held, deleting[1..])
  }

  /** Of the two objects of each backup in `deleting`, those the listing has, in order of name. */
  function ObjectsToDelete(present: seq<string>, deleting: seq<string>): seq<string> {
    Ascending(HeldObjects(Elements(present), deleting))
  }

  // ---- Which WAL goes ----

  /** `max(segments, key=modified_at)[0]`: the first of the latest. */
  function NewestSegment(segments: seq<(string, int)>): (string, int)
    requires segments != []
  {
    if |segments| == 1 then segments[0]
    else
      var rest := NewestSegment(segments[1..]);
      if segments[0].1 >= rest.1 then segments[0] else rest
  }

  function NamesOf(segments: seq<(string, int)>): seq<string> {
    if segments == [] then [] else [segments[0].0] + NamesOf(segments[1..])
  }

  /** The segments, by name, that went up more than the margin before the oldest kept dump, but for the newest of all.
      Upload times are in microseconds, a dump's in seconds. */
  function WalToDelete(segments: seq<(string, int)>, oldestKept: int): seq<string> {
    if segments == [] then []
    else
      var newest := NewestSegment(segments).0;
      var cut := (oldestKept - WAL_RETENTION_MARGIN_SECONDS) * MICROSECONDS;
      Ascending(NamesOf(Filter(segments, (entry: (string, int)) => entry.1 < cut && entry.0 != newest)))
  }

  // ---- A copy is kept when fewer than its class's count of newer copies want the slot ----

  function Above(names: set<string>, class_: Class, name: string): set<string> {
    set other | other in names && Wants(class_, other) && Less(name, other)
  }

  predicate InTop(names: set<string>, class_: Class, name: string) {
    name in names && Wants(class_, name) && |Above(names, class_, name)| < Copies(class_)
  }

  ghost predicate IsKept(names: set<string>, name: string) {
    exists class_ :: InTop(names, class_, name)
  }

  ghost function KeptOf(names: set<string>): set<string> {
    set name | name in names && IsKept(names, name)
  }

  lemma {:induction false} FilterStaysDescending(s: seq<string>, keep: string -> bool)
    requires IsDescending(s)
    ensures IsDescending(Filter(s, keep))
  {
    if s != [] {
      FilterStaysDescending(s[1..], keep);
      var rest := Filter(s[1..], keep);
      forall j | 0 <= j < |rest| ensures Less(rest[j], s[0]) {
        FilterKeeps(s[1..], keep, rest[j]);
      }
    }
  }

  lemma {:induction false} DescendingPrefixSize(s: seq<string>, count: nat)
    requires IsDescending(s) && count <= |s|
    ensures |Elements(s[..count])| == count
  {
    hide Less;
    if count > 0 {
      DescendingPrefixSize(s, count - 1);
      assert s[..count] == s[..count - 1] + [s[count - 1]];
      assert Elements(s[..count]) == Elements(s[..count - 1]) + {s[count - 1]};
      forall i | 0 <= i < count - 1 ensures s[i] != s[count - 1] {
        LessIsAsymmetric(s[count - 1], s[i]);
      }
    }
  }

  lemma {:induction false} AboveIsPrefix(backups: seq<string>, class_: Class, at: nat)
    requires IsDescending(backups)
    requires at < |Filter(backups, name => Wants(class_, name))|
    ensures var wanted := Filter(backups, name => Wants(class_, name));
            |Above(Elements(backups), class_, wanted[at])| == at
  {
    var wants := name => Wants(class_, name);
    var wanted := Filter(backups, wants);
    FilterStaysDescending(backups, wants);
    forall x ensures x in Above(Elements(backups), class_, wanted[at]) <==> x in Elements(wanted[..at]) {
      FilterKeeps(backups, wants, x);
      if x in wanted {
        var i :| 0 <= i < |wanted| && wanted[i] == x;
        if i == at { LessIsIrreflexive(x); }
        if at < i { LessIsAsymmetric(wanted[i], wanted[at]); }
      }
    }
    assert Above(Elements(backups), class_, wanted[at]) == Elements(wanted[..at]);
    DescendingPrefixSize(wanted, at);
  }

  /** The slices of the sorted listing are the ranks in the set, whatever the listing's order was. */
  lemma {:induction false} NewestOfIsTop(backups: seq<string>, class_: Class, name: string)
    requires IsDescending(backups)
    ensures name in NewestOf(class_, backups) <==> InTop(Elements(backups), class_, name)
  {
    hide IsDescending, Filter, Above, Copies;
    var wanted := Filter(backups, name => Wants(class_, name));
    FilterKeeps(backups, name => Wants(class_, name), name);
    if name in wanted {
      var at :| 0 <= at < |wanted| && wanted[at] == name;
      AboveIsPrefix(backups, class_, at);
      if at < Copies(class_) {
        assert NewestOf(class_, backups)[at] == name;
      }
      if name in NewestOf(class_, backups) {
        var other :| 0 <= other < |NewestOf(class_, backups)| && NewestOf(class_, backups)[other] == name;
        AboveIsPrefix(backups, class_, other);
      }
    }
  }

  lemma {:induction false} KeptIsKeptOf(backups: seq<string>)
    requires IsDescending(backups)
    ensures Kept(backups) == KeptOf(Elements(backups))
  {
    forall name ensures name in Kept(backups) <==> name in KeptOf(Elements(backups)) {
      NewestOfIsTop(backups, Daily, name);
      NewestOfIsTop(backups, Weekly, name);
      NewestOfIsTop(backups, Monthly, name);
      assert IsKept(Elements(backups), name) <==>
        InTop(Elements(backups), Daily, name) || InTop(Elements(backups), Weekly, name)
        || InTop(Elements(backups), Monthly, name) by {
        forall class_ | InTop(Elements(backups), class_, name)
          ensures class_ == Daily || class_ == Weekly || class_ == Monthly
        {
        }
      }
    }
  }

  // ---- Pruning incrementally agrees with pruning the whole history ----

  lemma {:induction false} NewestMember(names: set<string>) returns (newest: string)
    requires names != {}
    ensures newest in names && forall other :: other in names ==> other == newest || Less(other, newest)
    decreases |names|
  {
    var some :| some in names;
    if names == {some} {
      return some;
    }
    var rest := NewestMember(names - {some});
    LessIsTotal(some, rest);
    if Less(some, rest) {
      return rest;
    }
    forall other | other in names ensures other == some || Less(other, some) {
      if other != some && other != rest { LessIsTransitive(other, rest, some); }
    }
    return some;
  }

  lemma {:induction false} SubsetSize<T>(small: set<T>, large: set<T>)
    requires small <= large
    ensures |small| <= |large|
  {
    assert large == small + (large - small);
  }

  /** Losing copies no class wanted does not promote anything: a lost copy left its betters behind. */
  lemma {:induction false} LossPromotesNothing(all: set<string>, left: set<string>, added: set<string>,
                                               class_: Class, name: string)
    requires left <= all
    requires forall x :: InTop(all, class_, x) ==> x in left
    requires |Above(all + added, class_, name)| >= Copies(class_)
    ensures |Above(left + added, class_, name)| >= Copies(class_)
  {
    var lost := Above(all + added, class_, name) - (left + added);
    if lost == {} {
      forall x | x in Above(all + added, class_, name) ensures x in left + added {
        assert x !in lost;
      }
      SubsetSize(Above(all + added, class_, name), Above(left + added, class_, name));
    } else {
      var best := NewestMember(lost);
      assert !InTop(all, class_, best);
      forall x | x in Above(all, class_, best) ensures x in Above(left + added, class_, name) {
        LessIsTransitive(name, best, x);
        if x in lost { LessIsAsymmetric(best, x); }
      }
      SubsetSize(Above(all, class_, best), Above(left + added, class_, name));
    }
  }

  lemma {:induction false} TopIsStable(all: set<string>, left: set<string>, added: set<string>, class_: Class,
                                       name: string)
    requires left <= all
    requires forall x :: InTop(all, class_, x) ==> x in left
    ensures InTop(left + added, class_, name) <==> InTop(all + added, class_, name)
  {
    SubsetSize(Above(left + added, class_, name), Above(all + added, class_, name));
    SubsetSize(Above(all, class_, name), Above(all + added, class_, name));
    if !InTop(all + added, class_, name) && name in left + added && Wants(class_, name) {
      LossPromotesNothing(all, left, added, class_, name);
    }
  }

  /** What is kept of a pruned history is what would be kept of the whole of it, whatever arrived since. */
  lemma {:induction false} PruningIsIncremental(all: set<string>, left: set<string>, added: set<string>)
    requires KeptOf(all) <= left <= all
    ensures KeptOf(left + added) == KeptOf(all + added)
  {
    forall name ensures name in KeptOf(left + added) <==> name in KeptOf(all + added) {
      forall class_ ensures InTop(left + added, class_, name) <==> InTop(all + added, class_, name) {
        forall x | InTop(all, class_, x) ensures x in left {
          assert x in KeptOf(all);
        }
        TopIsStable(all, left, added, class_, name);
      }
    }
  }

  /** Growing a history can only demote: nothing is kept that was neither kept before nor just added. */
  lemma {:induction false} KeptShrinksOver(all: set<string>, added: set<string>)
    ensures KeptOf(all + added) <= KeptOf(all) + added
  {
    forall name | name in KeptOf(all + added) && name !in added ensures name in KeptOf(all) {
      var class_ :| InTop(all + added, class_, name);
      SubsetSize(Above(all, class_, name), Above(all + added, class_, name));
      assert InTop(all, class_, name);
    }
  }

  lemma {:induction false} DatedNewestIsKept(names: set<string>, newest: string)
    requires newest in names && TakenAt(newest).Some?
    requires forall other :: other in names ==> !Less(newest, other)
    ensures newest in KeptOf(names)
  {
    assert Above(names, Daily, newest) == {};
    assert InTop(names, Daily, newest);
  }
}
