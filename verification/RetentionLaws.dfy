// What deployments/ops/retention.py promises about the copies it destroys, over one night and over any run of nights.
module RetentionLaws {
  import opened Wrappers
  import opened Text
  import opened Naming
  import opened Retention
  import Calendar

  /** The names a listing stands for: the only thing about it a plan depends on. */
  ghost function Names(objects: seq<string>): set<string> {
    BackupSet(Elements(objects))
  }

  lemma {:induction false} PlanIsKeptOf(objects: seq<string>, justUploaded: string)
    ensures var kept := KeptOf(Names(objects));
            match PlanFor(objects, justUploaded)
            case Failure(NotThisListing) => justUploaded !in Names(objects)
            case Failure(NewestWouldGo) => justUploaded in Names(objects)
            case Success(plan) =>
              && Elements(plan.keep) == kept && IsDescending(plan.keep)
              && Elements(plan.delete) == Names(objects) - kept && IsDescending(plan.delete)
              && justUploaded in kept
  {
    var backups := BackupsIn(objects);
    BackupsAreTheSet(objects);
    KeptIsKeptOf(backups);
    var kept := Kept(backups);
    forall name ensures name in Filter(backups, x => x in kept) <==> name in kept {
      FilterKeeps(backups, x => x in kept, name);
      assert name in backups <==> name in Names(objects);
    }
    forall name ensures name in Filter(backups, x => x !in kept) <==> name in Names(objects) && name !in kept {
      FilterKeeps(backups, x => x !in kept, name);
      assert name in backups <==> name in Names(objects);
    }
    FilterStaysDescending(backups, x => x in kept);
    FilterStaysDescending(backups, x => x !in kept);
  }

  ghost predicate IsNewest(names: set<string>, newest: string) {
    newest in names && forall other :: other in names ==> other == newest || Less(other, newest)
  }

  /** Retention deletes something exactly when the listing shows this run's upload, still wanted, under a newest copy
      whose name is a real instant. Every other listing is refused and loses nothing. */
  lemma {:induction false} PlanRefusesExactly(objects: seq<string>, justUploaded: string, newest: string)
    requires IsNewest(Names(objects), newest)
    ensures PlanFor(objects, justUploaded).Success? <==>
            justUploaded in KeptOf(Names(objects)) && TakenAt(newest).Some?
  {
    var backups := BackupsIn(objects);
    BackupsAreTheSet(objects);
    PlanIsKeptOf(objects, justUploaded);
    KeptIsKeptOf(backups);
    assert newest in backups;
    assert backups[0] in Names(objects);
    if backups[0] != newest {
      var at :| 0 < at < |backups| && backups[at] == newest;
      LessIsAsymmetric(backups[at], backups[0]);
    }
    var kept := Kept(backups);
    FilterKeeps(backups, x => x !in kept, newest);
    FilterKeeps(backups, x => x !in kept, justUploaded);
    if TakenAt(newest).Some? {
      forall other | other in Names(objects) ensures !Less(newest, other) {
        LessIsIrreflexive(newest);
        if other != newest { LessIsAsymmetric(other, newest); }
      }
      DatedNewestIsKept(Names(objects), newest);
    }
  }

  /** A plan that is not refused keeps the newest copy in the listing. */
  lemma {:induction false} NewestSurvives(objects: seq<string>, justUploaded: string, newest: string)
    requires IsNewest(Names(objects), newest) && PlanFor(objects, justUploaded).Success?
    ensures newest in PlanFor(objects, justUploaded).value.keep
    ensures newest !in PlanFor(objects, justUploaded).value.delete
  {
    PlanRefusesExactly(objects, justUploaded, newest);
    PlanIsKeptOf(objects, justUploaded);
    forall other | other in Names(objects) ensures !Less(newest, other) {
      LessIsIrreflexive(newest);
      if other != newest { LessIsAsymmetric(other, newest); }
    }
    DatedNewestIsKept(Names(objects), newest);
    var plan := PlanFor(objects, justUploaded).value;
    assert newest in Elements(plan.keep);
    assert newest in plan.delete ==> newest in Elements(plan.delete);
  }

  // ---- "Kept, and reported": which objects a plan can remove ----

  lemma {:induction false} HeldObjectsAre(held: set<string>, deleting: seq<string>, name: string)
    ensures name in HeldObjects(held, deleting) <==>
            name in held && exists backup :: backup in deleting && name in ObjectsFor(backup)
  {
    if deleting != [] {
      HeldObjectsAre(held, deleting[1..], name);
      FilterKeeps(ObjectsFor(deleting[0]), x => x in held, name);
      assert deleting == [deleting[0]] + deleting[1..];
    }
  }

  /** Only what the listing held, and only the two objects of a backup the plan deletes. */
  lemma {:induction false} DeletedObjectsAre(present: seq<string>, deleting: seq<string>, name: string)
    ensures name in ObjectsToDelete(present, deleting) <==>
            name in present && exists backup :: backup in deleting && name in ObjectsFor(backup)
  {
    AscendingKeeps(HeldObjects(Elements(present), deleting), name);
    HeldObjectsAre(Elements(present), deleting, name);
  }

  lemma {:induction false} UnclassifiedAre(objects: seq<string>, justUploaded: string, name: string)
    requires PlanFor(objects, justUploaded).Success?
    ensures name in PlanFor(objects, justUploaded).value.unclassified <==> name in objects && TakenAt(name).None?
  {
    AscendingKeeps(Filter(objects, x => TakenAt(x).None?), name);
    FilterKeeps(objects, x => TakenAt(x).None?, name);
  }

  /** An object carrying the layout of a stamp that spells no instant, under a backup's own two suffixes. */
  predicate IsPhantom(name: string) {
    HasStamp(name) && TakenAt(name).None? && name in ObjectsFor(BackupName(name))
  }

  /** An object reported as unrecognised and kept is really kept exactly when it is no phantom: the pattern matches a
      phantom, so it is a backup to delete, while its missing instant files it as unclassified as well. */
  lemma {:induction false} UnclassifiedIsKeptExactly(objects: seq<string>, justUploaded: string, name: string)
    requires PlanFor(objects, justUploaded).Success?
    requires name in PlanFor(objects, justUploaded).value.unclassified
    ensures name !in ObjectsToDelete(objects, PlanFor(objects, justUploaded).value.delete) <==> !IsPhantom(name)
  {
    var plan := PlanFor(objects, justUploaded).value;
    PlanIsKeptOf(objects, justUploaded);
    BackupsAreTheSet(objects);
    UnclassifiedAre(objects, justUploaded, name);
    DeletedObjectsAre(objects, plan.delete, name);
    if IsPhantom(name) {
      var backup := BackupName(name);
      TakenAtOfBackupName(name);
      assert name in Elements(objects);
      assert backup in Names(objects);
      assert backup !in KeptOf(Names(objects));
      assert backup in Elements(plan.delete);
    } else if name in ObjectsToDelete(objects, plan.delete) {
      var backup :| backup in plan.delete && name in ObjectsFor(backup);
      assert backup in Elements(plan.delete);
      assert backup in BackupsIn(objects);
      ObjectsNameTheirBackup(backup, name);
    }
  }

  /** Once the newest copy is a dated one, a night that uploaded it reports every phantom in its listing as unrecognised
      and deletes it. While a phantom's name is the newest, every night is refused and nothing goes. */
  lemma {:induction false} PhantomIsDeleted(objects: seq<string>, newest: string, name: string)
    requires IsNewest(Names(objects), newest) && name in objects && IsPhantom(name)
    ensures TakenAt(newest).Some? ==>
              && PlanFor(objects, newest).Success?
              && name in PlanFor(objects, newest).value.unclassified
              && name in ObjectsToDelete(objects, PlanFor(objects, newest).value.delete)
    ensures TakenAt(newest).None? ==> forall justUploaded :: PlanFor(objects, justUploaded).Failure?
  {
    hide PlanFor, TakenAt, ObjectsToDelete, IsPhantom, HasStamp;
    forall justUploaded
      ensures PlanFor(objects, justUploaded).Success? <==>
              justUploaded in KeptOf(Names(objects)) && TakenAt(newest).Some?
    {
      PlanRefusesExactly(objects, justUploaded, newest);
    }
    if TakenAt(newest).Some? {
      forall other | other in Names(objects) ensures !Less(newest, other) {
        LessIsIrreflexive(newest);
        if other != newest { LessIsAsymmetric(other, newest); }
      }
      DatedNewestIsKept(Names(objects), newest);
      assert TakenAt(name).None? by { PhantomHasNoInstant(name); }
      UnclassifiedAre(objects, newest, name);
      UnclassifiedIsKeptExactly(objects, newest, name);
    }
  }

  lemma {:induction false} PhantomHasNoInstant(name: string)
    requires IsPhantom(name)
    ensures TakenAt(name).None?
  {
  }

  const PHANTOM := Fields("2026", "13", "99", "00", "00", "00")
  const DATED := Fields("2027", "01", "01", "03", "00", "00")

  /** The thirteenth month's ninety-ninth day, which the pattern matches, and the first backup of the year after. */
  lemma {:induction false} PhantomsExist()
    ensures var phantom, dated := "syncr-20261399T000000Z.dump.gpg", "syncr-20270101T030000Z";
            && IsPhantom(phantom)
            && PlanFor([phantom, DumpObject(dated)], dated).Success?
            && var plan := PlanFor([phantom, DumpObject(dated)], dated).value;
               && phantom in plan.unclassified
               && phantom in ObjectsToDelete([phantom, DumpObject(dated)], plan.delete)
    ensures forall justUploaded :: PlanFor(["syncr-20261399T000000Z.dump.gpg"], justUploaded).Failure?
  {
    hide PlanFor, IsPhantom, HasStamp, TakenAt, ObjectsToDelete, Names, BackupName;
    var phantom, dated := DumpObject(Written(PHANTOM)), Written(DATED);
    PhantomIsSpelled();
    PhantomIsOne();
    PhantomHasNoInstant(phantom);
    DatedIsDated();
    TwoNames();
    PhantomIsDeleted([phantom, DumpObject(dated)], dated, phantom);
    PhantomIsDeleted([phantom], Written(PHANTOM), phantom);
  }

  lemma {:induction false} PhantomIsSpelled()
    ensures DumpObject(Written(PHANTOM)) == "syncr-20261399T000000Z.dump.gpg"
    ensures Written(DATED) == "syncr-20270101T030000Z"
  {
  }

  lemma {:induction false} PhantomIsOne()
    ensures IsPhantom(DumpObject(Written(PHANTOM)))
    ensures TakenAt(Written(PHANTOM)).None?
  {
    hide Written, HasStamp, Value;
    var backup := Written(PHANTOM);
    FieldsOfWritten(PHANTOM);
    ThirteenIsNoMonth();
    ObjectsNameTheirBackup(backup, DumpObject(backup));
    TakenAtOfBackupName(DumpObject(backup));
  }

  lemma {:induction false} DatedIsDated()
    ensures TakenAt(Written(DATED)).Some?
  {
    hide Written, HasStamp, Value;
    FieldsOfWritten(DATED);
    DigitsOfDated();
  }

  lemma {:induction false} DigitsOfDated()
    ensures Value("2027") == 2027 && Value("01") == 1 && Value("03") == 3 && Value("00") == 0
  {
    assert "2027"[..3] == "202" && "202"[..2] == "20" && "20"[..1] == "2" && "2"[..0] == "";
    assert "01"[..1] == "0" && "03"[..1] == "0" && "00"[..1] == "0" && "0"[..0] == "";
    assert Value("2") == 10 * Value("") + 2 && Value("20") == 10 * Value("2") && Value("202") == 10 * Value("20") + 2;
    assert Value("0") == 10 * Value("");
  }

  lemma {:induction false} TwoNames()
    ensures var phantom := DumpObject(Written(PHANTOM));
            && IsNewest(Names([phantom, DumpObject(Written(DATED))]), Written(DATED))
            && IsNewest(Names([phantom]), Written(PHANTOM))
  {
    hide Written, HasStamp, FieldsOf;
    FieldsOfWritten(PHANTOM);
    FieldsOfWritten(DATED);
    ObjectsNameTheirBackup(Written(PHANTOM), DumpObject(Written(PHANTOM)));
    ObjectsNameTheirBackup(Written(DATED), DumpObject(Written(DATED)));
    WrittenOrder(PHANTOM, DATED);
    assert Less("2026", "2027");
  }

  lemma {:induction false} ThirteenIsNoMonth()
    ensures Value("13") == 13
  {
    assert "13"[..1] == "1" && "1"[..0] == "";
    assert Value("1") == 10 * Value("") + 1;
  }

  /** The three lists of a plan split the listing exactly when every stamp in it spells a real instant. */
  lemma {:induction false} PlanPartitionsExactly(objects: seq<string>, justUploaded: string)
    requires PlanFor(objects, justUploaded).Success?
    ensures var plan := PlanFor(objects, justUploaded).value;
            (forall name :: name in objects ==>
              (name in plan.unclassified <==> !(HasStamp(name) && BackupName(name) in plan.keep + plan.delete)))
            <==> (forall name :: name in objects && HasStamp(name) ==> TakenAt(name).Some?)
  {
    var plan := PlanFor(objects, justUploaded).value;
    PlanIsKeptOf(objects, justUploaded);
    forall name | name in objects
      ensures name in plan.unclassified <==> TakenAt(name).None?
      ensures HasStamp(name) ==> BackupName(name) in plan.keep + plan.delete
    {
      UnclassifiedAre(objects, justUploaded, name);
      if HasStamp(name) {
        assert name in Elements(objects);
        assert BackupName(name) in Names(objects);
        assert BackupName(name) in Elements(plan.keep) + Elements(plan.delete);
      }
    }
  }

  // ---- A crash between two deletions ----

  /** However many of a plan's deletions happened, every copy retention wants is still there and no copy is new. */
  lemma {:induction false} CrashLeavesTheKept(objects: seq<string>, justUploaded: string, removed: set<string>)
    requires PlanFor(objects, justUploaded).Success?
    requires removed <= Elements(ObjectsToDelete(objects, PlanFor(objects, justUploaded).value.delete))
    ensures KeptOf(Names(objects)) <= BackupSet(Elements(objects) - removed) <= Names(objects)
  {
    var plan := PlanFor(objects, justUploaded).value;
    PlanIsKeptOf(objects, justUploaded);
    BackupsAreTheSet(objects);
    forall name | name in KeptOf(Names(objects)) ensures name in BackupSet(Elements(objects) - removed) {
      var o :| o in Elements(objects) && HasStamp(o) && BackupName(o) == name;
      if o in removed {
        DeletedObjectsAre(objects, plan.delete, o);
        var backup :| backup in plan.delete && o in ObjectsFor(backup);
        assert backup in Elements(plan.delete);
        assert backup in BackupsIn(objects);
        ObjectsNameTheirBackup(backup, o);
      }
    }
  }

  // ---- Any run of nights ----

  /** One night: the objects it managed to upload, what its listing showed, and the deletions it got through. A night
      that refused, was skipped or crashed removed few or none. */
  datatype Night = Night(name: string, uploaded: set<string>, listing: seq<string>, removed: set<string>)

  ghost predicate IsNight(bucket: set<string>, night: Night) {
    && Elements(night.listing) == bucket + night.uploaded
    && match PlanFor(night.listing, night.name)
       case Failure(_) => night.removed == {}
       case Success(plan) => night.removed <= Elements(ObjectsToDelete(night.listing, plan.delete))
  }

  ghost function After(bucket: set<string>, nights: seq<Night>): set<string> {
    if nights == [] then bucket
    else
      var last := nights[|nights| - 1];
      After(bucket, nights[..|nights| - 1]) + last.uploaded - last.removed
  }

  ghost function EverUploaded(bucket: set<string>, nights: seq<Night>): set<string> {
    if nights == [] then bucket
    else EverUploaded(bucket, nights[..|nights| - 1]) + nights[|nights| - 1].uploaded
  }

  ghost predicate AreNights(bucket: set<string>, nights: seq<Night>) {
    nights == []
    || (AreNights(bucket, nights[..|nights| - 1])
        && IsNight(After(bucket, nights[..|nights| - 1]), nights[|nights| - 1]))
  }

  lemma {:induction false} BackupSetOfUnion(a: set<string>, b: set<string>)
    ensures BackupSet(a + b) == BackupSet(a) + BackupSet(b)
  {
  }

  lemma {:induction false} NightKeepsTheKept(bucket: set<string>, all: set<string>, night: Night)
    requires IsNight(bucket, night)
    requires KeptOf(BackupSet(all)) <= BackupSet(bucket) <= BackupSet(all)
    ensures KeptOf(BackupSet(all + night.uploaded)) <= BackupSet(bucket + night.uploaded - night.removed)
            <= BackupSet(all + night.uploaded)
  {
    BackupSetOfUnion(bucket, night.uploaded);
    BackupSetOfUnion(all, night.uploaded);
    PruningIsIncremental(BackupSet(all), BackupSet(bucket), BackupSet(night.uploaded));
    if PlanFor(night.listing, night.name).Success? {
      CrashLeavesTheKept(night.listing, night.name, night.removed);
    } else {
      assert bucket + night.uploaded - night.removed == bucket + night.uploaded;
    }
  }

  /** After any run of nights, complete or not, what retention keeps of the bucket is what it would keep of every copy
      ever uploaded; so the retained history never depends on which nights ran or how far they got. */
  lemma {:induction false} NightsAgreeWithHistory(bucket: set<string>, nights: seq<Night>)
    requires AreNights(bucket, nights)
    ensures var all := BackupSet(EverUploaded(bucket, nights));
            KeptOf(all) <= BackupSet(After(bucket, nights)) <= all
            && KeptOf(BackupSet(After(bucket, nights))) == KeptOf(all)
  {
    var all, left := BackupSet(EverUploaded(bucket, nights)), BackupSet(After(bucket, nights));
    if nights != [] {
      var earlier := nights[..|nights| - 1];
      NightsAgreeWithHistory(bucket, earlier);
      NightKeepsTheKept(After(bucket, earlier), EverUploaded(bucket, earlier), nights[|nights| - 1]);
    }
    PruningIsIncremental(all, left, {});
    assert all + {} == all && left + {} == left;
  }

  // ---- The oldest kept dump, which decides how much WAL is kept ----

  lemma {:induction false} LastIsOldest(keep: seq<string>, name: string)
    requires IsDescending(keep) && name in keep
    requires forall other :: other in keep ==> IsBackupName(other) && TakenAt(other).Some?
    ensures TakenAt(keep[|keep| - 1]).value <= TakenAt(name).value
  {
    NamesSortByTime(keep[|keep| - 1], name);
  }

  lemma {:induction false} KeptAreDated(objects: seq<string>, name: string)
    requires name in KeptOf(Names(objects))
    ensures IsBackupName(name) && TakenAt(name).Some?
  {
    BackupsAreTheSet(objects);
    assert name in Elements(BackupsIn(objects));
  }

  /** Every kept copy is dated, and none was taken before the last of the kept list. */
  lemma {:induction false} OldestKeptIsOldest(objects: seq<string>, justUploaded: string, plan: Plan)
    requires PlanFor(objects, justUploaded) == Success(plan)
    ensures plan.keep != [] && OldestKept(plan) in KeptOf(Names(objects))
    ensures TakenAt(OldestKept(plan)).Some?
    ensures forall name :: name in KeptOf(Names(objects)) ==>
              TakenAt(name).Some? && TakenAt(OldestKept(plan)).value <= TakenAt(name).value
  {
    hide PlanFor, TakenAt;
    PlanIsKeptOf(objects, justUploaded);
    KeepOrder(objects, justUploaded, plan.keep);
  }

  lemma {:induction false} KeepOrder(objects: seq<string>, justUploaded: string, keep: seq<string>)
    requires IsDescending(keep) && Elements(keep) == KeptOf(Names(objects)) && justUploaded in Elements(keep)
    ensures keep != [] && keep[|keep| - 1] in KeptOf(Names(objects))
    ensures forall name :: name in KeptOf(Names(objects)) ==>
              TakenAt(name).Some? && TakenAt(keep[|keep| - 1]).Some?
              && TakenAt(keep[|keep| - 1]).value <= TakenAt(name).value
  {
    forall name | name in keep ensures IsBackupName(name) && TakenAt(name).Some? {
      assert name in Elements(keep);
      KeptAreDated(objects, name);
    }
    assert keep[|keep| - 1] in Elements(keep);
    forall name | name in KeptOf(Names(objects))
      ensures TakenAt(keep[|keep| - 1]).value <= TakenAt(name).value
    {
      assert name in Elements(keep);
      LastIsOldest(keep, name);
    }
  }

  lemma {:induction false} EarlierNights(bucket: set<string>, nights: seq<Night>, count: nat)
    requires AreNights(bucket, nights) && count <= |nights|
    ensures AreNights(bucket, nights[..count])
  {
    if count == |nights| {
      assert nights[..count] == nights;
    } else {
      EarlierNights(bucket, nights[..|nights| - 1], count);
      assert nights[..|nights| - 1][..count] == nights[..count];
    }
  }

  /** What a night's listing makes it keep is what the whole history up to that night's upload would. */
  lemma {:induction false} NightKeepsOfHistory(bucket: set<string>, nights: seq<Night>, at: nat)
    requires AreNights(bucket, nights) && at < |nights|
    ensures KeptOf(Names(nights[at].listing)) == KeptOf(BackupSet(EverUploaded(bucket, nights[..at + 1])))
  {
    hide KeptOf, BackupSet;
    var before, night := nights[..at], nights[at];
    EarlierNights(bucket, nights, at + 1);
    assert nights[..at + 1][..at] == before && nights[..at + 1][at] == night;
    NightsAgreeWithHistory(bucket, before);
    PruningIsIncremental(BackupSet(EverUploaded(bucket, before)), BackupSet(After(bucket, before)),
                         BackupSet(night.uploaded));
    BackupSetOfUnion(EverUploaded(bucket, before), night.uploaded);
    BackupSetOfUnion(After(bucket, before), night.uploaded);
  }

  ghost function UploadedSince(nights: seq<Night>, at: nat): set<string>
    requires at <= |nights|
    decreases |nights|
  {
    if at == |nights| then {}
    else UploadedSince(nights[..|nights| - 1], at) + nights[|nights| - 1].uploaded
  }

  lemma {:induction false} HistoryGrows(bucket: set<string>, nights: seq<Night>, at: nat)
    requires at <= |nights|
    ensures EverUploaded(bucket, nights) == EverUploaded(bucket, nights[..at]) + UploadedSince(nights, at)
    decreases |nights|
  {
    if at == |nights| {
      assert nights[..at] == nights;
    } else {
      HistoryGrows(bucket, nights[..|nights| - 1], at);
      assert nights[..|nights| - 1][..at] == nights[..at];
    }
  }

  /** Over any run of nights: if nothing uploaded between two of them is older than the oldest copy the earlier plan
      kept, the later plan's oldest is no older, whatever the nights between did or left undone. */
  lemma {:induction false} OldestKeptNeverMovesBack(bucket: set<string>, nights: seq<Night>, early: nat, late: nat,
                                                    plan: Plan, next: Plan)
    requires AreNights(bucket, nights) && early < late < |nights|
    requires PlanFor(nights[early].listing, nights[early].name) == Success(plan)
    requires PlanFor(nights[late].listing, nights[late].name) == Success(next)
    requires plan.keep != [] && TakenAt(OldestKept(plan)).Some?
    requires forall name :: name in BackupSet(UploadedSince(nights[..late + 1], early + 1)) && TakenAt(name).Some? ==>
               TakenAt(OldestKept(plan)).value <= TakenAt(name).value
    ensures next.keep != [] && TakenAt(OldestKept(next)).Some?
    ensures TakenAt(OldestKept(plan)).value <= TakenAt(OldestKept(next)).value
  {
    hide KeptOf, BackupSet, PlanFor, TakenAt, OldestKept, AreNights, EverUploaded, UploadedSince, Names;
    OldestKeptIsOldest(nights[early].listing, nights[early].name, plan);
    OldestKeptIsOldest(nights[late].listing, nights[late].name, next);
    NightKeepsOfHistory(bucket, nights, early);
    NightKeepsOfHistory(bucket, nights, late);
    var since := UploadedSince(nights[..late + 1], early + 1);
    HistoryGrows(bucket, nights[..late + 1], early + 1);
    assert nights[..late + 1][..early + 1] == nights[..early + 1];
    BackupSetOfUnion(EverUploaded(bucket, nights[..early + 1]), since);
    KeptShrinksOver(BackupSet(EverUploaded(bucket, nights[..early + 1])), BackupSet(since));
  }

  // ---- Which WAL goes ----

  lemma {:induction false} NewestSegmentIsNewest(segments: seq<(string, int)>)
    requires segments != []
    ensures NewestSegment(segments) in segments
    ensures forall entry :: entry in segments ==> entry.1 <= NewestSegment(segments).1
  {
    if |segments| > 1 {
      NewestSegmentIsNewest(segments[1..]);
      assert segments == [segments[0]] + segments[1..];
    }
  }

  lemma {:induction false} NamesOfAre(segments: seq<(string, int)>, name: string)
    ensures name in NamesOf(segments) <==> exists when :: (name, when) in segments
  {
    if segments != [] {
      NamesOfAre(segments[1..], name);
      assert segments == [segments[0]] + segments[1..];
      if segments[0].0 == name {
        assert (name, segments[0].1) in segments;
      }
      assert name in NamesOf(segments) <==> name == segments[0].0 || name in NamesOf(segments[1..]);
      if exists when :: (name, when) in segments {
        var when :| (name, when) in segments;
        assert (name, when) == segments[0] || (name, when) in segments[1..];
      }
    }
  }

  /** Exactly the segments that went up more than a day before the oldest kept dump, and never the newest. */
  lemma {:induction false} WalDeletedIs(segments: seq<(string, int)>, oldestKept: int, name: string)
    ensures name in WalToDelete(segments, oldestKept) <==>
            exists when :: (name, when) in segments
              && when < (oldestKept - 86_400) * 1_000_000
              && name != NewestSegment(segments).0
  {
    if segments != [] {
      var newest := NewestSegment(segments).0;
      var cut := (oldestKept - WAL_RETENTION_MARGIN_SECONDS) * MICROSECONDS;
      var stale := (entry: (string, int)) => entry.1 < cut && entry.0 != newest;
      AscendingKeeps(NamesOf(Filter(segments, stale)), name);
      NamesOfAre(Filter(segments, stale), name);
      forall when: int
        ensures (name, when) in Filter(segments, stale) <==> (name, when) in segments && stale((name, when))
      {
        FilterKeeps(segments, stale, (name, when));
      }
    }
  }

  // ---- How many copies are kept ----

  lemma {:induction false} OldestMember(names: set<string>) returns (oldest: string)
    requires names != {}
    ensures oldest in names && forall other :: other in names ==> other == oldest || Less(oldest, other)
    decreases |names|
  {
    var some :| some in names;
    if names == {some} {
      return some;
    }
    var rest := OldestMember(names - {some});
    LessIsTotal(some, rest);
    if Less(rest, some) {
      return rest;
    }
    forall other | other in names ensures other == some || Less(some, other) {
      if other != some && other != rest {
        LessIsTransitive(some, rest, other);
      }
    }
    return some;
  }

  /** A class keeps no more than its count: the oldest it keeps has all the others above it. */
  lemma {:induction false} ClassKeepsItsCount(names: set<string>, class_: Class)
    ensures |TopOf(names, class_)| <= Copies(class_)
  {
    var top := TopOf(names, class_);
    if top != {} {
      var oldest := OldestMember(top);
      SubsetSize(top - {oldest}, Above(names, class_, oldest));
    }
  }

  function TopOf(names: set<string>, class_: Class): set<string> {
    set name | name in names && InTop(names, class_, name)
  }

  lemma {:induction false} KeptAreTheTops(names: set<string>)
    ensures KeptOf(names) == TopOf(names, Daily) + TopOf(names, Weekly) + TopOf(names, Monthly)
  {
    hide InTop;
    forall name ensures IsKept(names, name) <==>
                        InTop(names, Daily, name) || InTop(names, Weekly, name) || InTop(names, Monthly, name)
    {
      AnyClass(names, name);
    }
  }

  lemma {:induction false} AnyClass(names: set<string>, name: string)
    ensures IsKept(names, name) ==>
              InTop(names, Daily, name) || InTop(names, Weekly, name) || InTop(names, Monthly, name)
  {
    hide InTop;
    if class_ :| InTop(names, class_, name) {
      match class_
      case Daily =>
      case Weekly =>
      case Monthly =>
    }
  }

  /** Taken on a Monday: a whole number of weeks from Monday 1970-01-05. */
  predicate IsOfAMonday(name: string) {
    TakenAt(name).Some? && (TakenAt(name).value / 86_400 - 4) % 7 == 0
  }

  /** The first day of some month, as the stamp has it. */
  predicate IsOfAFirst(name: string) {
    TakenAt(name).Some? && name[12..14] == "01"
  }

  lemma {:induction false} ClassesAre(name: string)
    ensures Wants(Daily, name) <==> TakenAt(name).Some?
    ensures Wants(Weekly, name) <==> IsOfAMonday(name)
    ensures Wants(Monthly, name) <==> IsOfAFirst(name)
  {
    hide TakenAt;
    if TakenAt(name).Some? {
      DayTakenIs(name);
      DayFieldIs(name);
    }
  }

  lemma {:induction false} DayTakenIs(name: string)
    requires TakenAt(name).Some?
    ensures HasStamp(name) && Calendar.DateOf(DayTaken(name)) == DateIn(FieldsOf(name))
  {
    var f := FieldsOf(name);
    assert SecondOfDay(f) / 86_400 == 0;
    assert DayTaken(name) == Calendar.DayNumber(DateIn(f));
    Calendar.DateOfDayNumber(DateIn(f));
  }

  lemma {:induction false} DayFieldIs(name: string)
    requires HasStamp(name)
    ensures DateIn(FieldsOf(name)).day == 1 <==> name[12..14] == "01"
  {
    var day := FieldsOf(name).day;
    assert day == name[12..14];
    FixedOfValue(day);
    FixedOfValue("01");
    assert Value("01") == 1 by {
      assert "01"[..1] == "0" && "0"[..0] == "";
    }
  }

  /** The copies above this one that a condition picks. */
  ghost function Newer(names: set<string>, picks: string -> bool, name: string): set<string> {
    set other | other in names && picks(other) && Less(name, other)
  }

  /** However many copies there are, at most seventeen are kept, and exactly these: the seven newest of the dated, the
      four newest of a Monday, and the six newest of a month's first day. */
  lemma {:induction false} KeptAreFew(names: set<string>)
    ensures |KeptOf(names)| <= 17
    ensures forall name :: name in KeptOf(names) <==>
              && name in names && TakenAt(name).Some?
              && (|Newer(names, other => TakenAt(other).Some?, name)| < 7
                  || (IsOfAMonday(name) && |Newer(names, other => IsOfAMonday(other), name)| < 4)
                  || (IsOfAFirst(name) && |Newer(names, other => IsOfAFirst(other), name)| < 6))
  {
    KeptAreAtMost(names);
    forall name
      ensures name in KeptOf(names) <==>
              && name in names && TakenAt(name).Some?
              && (|Newer(names, other => TakenAt(other).Some?, name)| < 7
                  || (IsOfAMonday(name) && |Newer(names, other => IsOfAMonday(other), name)| < 4)
                  || (IsOfAFirst(name) && |Newer(names, other => IsOfAFirst(other), name)| < 6))
    {
      KeptIs(names, name);
    }
  }

  lemma {:induction false} KeptIs(names: set<string>, name: string)
    ensures name in KeptOf(names) <==>
            && name in names && TakenAt(name).Some?
            && (|Newer(names, other => TakenAt(other).Some?, name)| < 7
                || (IsOfAMonday(name) && |Newer(names, other => IsOfAMonday(other), name)| < 4)
                || (IsOfAFirst(name) && |Newer(names, other => IsOfAFirst(other), name)| < 6))
  {
    hide KeptOf, TakenAt, Wants, IsOfAMonday, IsOfAFirst;
    KeptAreTheTops(names);
    forall other
      ensures Wants(Daily, other) <==> TakenAt(other).Some?
      ensures Wants(Weekly, other) <==> IsOfAMonday(other)
      ensures Wants(Monthly, other) <==> IsOfAFirst(other)
    {
      ClassesAre(other);
    }
    MondaysAreDated(name);
    assert Above(names, Daily, name) == Newer(names, other => TakenAt(other).Some?, name);
    assert Above(names, Weekly, name) == Newer(names, other => IsOfAMonday(other), name);
    assert Above(names, Monthly, name) == Newer(names, other => IsOfAFirst(other), name);
  }

  lemma {:induction false} MondaysAreDated(name: string)
    ensures IsOfAMonday(name) || IsOfAFirst(name) ==> TakenAt(name).Some?
  {
  }

  lemma {:induction false} KeptAreAtMost(names: set<string>)
    ensures |KeptOf(names)| <= 17
  {
    hide KeptOf, Above;
    KeptAreTheTops(names);
    ClassKeepsItsCount(names, Daily);
    ClassKeepsItsCount(names, Weekly);
    ClassKeepsItsCount(names, Monthly);
    UnionSize(TopOf(names, Daily), TopOf(names, Weekly));
    UnionSize(TopOf(names, Daily) + TopOf(names, Weekly), TopOf(names, Monthly));
  }

  lemma {:induction false} UnionSize<T>(one: set<T>, other: set<T>)
    ensures |one + other| <= |one| + |other|
  {
    assert one + other == one + (other - one);
    SubsetSize(other - one, other);
  }
}
