// ship.py's `ship` and dump.py's `take_backup`, as they run: one effect at a time on the volume and the bucket, each
// effect a step of the system in Archive, so a run cut off anywhere is a run of that system.
module Operations {
  import opened Wrappers
  import opened Text
  import opened Naming
  import opened Retention
  import opened Archive
  import opened ArchiveSteps
  import RetentionLaws

  /** What Postgres can do with the file it is at: begin to copy it, write more, end the copy, or stop halfway. */
  datatype Turn =
    | Begin
    | More(upTo: nat)
    | End
    | Stop

  /** What may happen while a process is between two steps: Postgres takes its turns, or the process fails. */
  datatype Luck = Luck(turns: seq<Turn>, fails: bool)

  /** What another process than the nightly run can do next. */
  datatype Move =
    | Postgres(turn: Turn)
    | Shipping
    | ShippingStops
    | Recovering(event: Event)
    | TimePasses(span: nat)

  /** What may happen while the nightly run is between two steps: other processes move, or it fails. */
  datatype Chance = Chance(moves: seq<Move>, fails: bool)

  datatype Stopped = Stopped

  ghost predicate Reaches(s: State, t: State) {
    exists events :: Run(s, events) == t
  }

  lemma {:induction false} ReachesItself(s: State)
    ensures Reaches(s, s)
  {
    assert Run(s, []) == s;
  }

  lemma {:induction false} ReachesNext(s: State, t: State, event: Event)
    requires Reaches(s, t)
    ensures Reaches(s, Perform(t, event))
  {
    var events :| Run(s, events) == t;
    assert (events + [event])[..|events|] == events;
    assert Run(s, events + [event]) == Perform(t, event);
  }

  // The same, for the steps taken below.

  lemma {:induction false} AfterBeginCopy(s: State, t: State, name: string, bytes: string)
    requires Reaches(s, t)
    ensures Reaches(s, DoBeginCopy(t, name, bytes))
  {
    hide DoBeginCopy, Reaches;
    ReachesNext(s, t, BeginCopy(name, bytes));
  }

  lemma {:induction false} AfterCopyMore(s: State, t: State, upTo: nat)
    requires Reaches(s, t)
    ensures Reaches(s, DoCopyMore(t, upTo))
  {
    hide DoCopyMore, Reaches;
    ReachesNext(s, t, CopyMore(upTo));
  }

  lemma {:induction false} AfterEndCopy(s: State, t: State)
    requires Reaches(s, t)
    ensures Reaches(s, DoEndCopy(t))
  {
    hide DoEndCopy, Reaches;
    ReachesNext(s, t, EndCopy);
  }

  lemma {:induction false} AfterCopyStops(s: State, t: State)
    requires Reaches(s, t)
    ensures Reaches(s, t.(clock := t.clock + 1, copy := NoCopy))
  {
    ReachesNext(s, t, CopyStops);
  }

  lemma {:induction false} AfterReadClock(s: State, t: State)
    requires Reaches(s, t)
    ensures Reaches(s, DoReadClock(t))
  {
    hide DoReadClock, Reaches;
    ReachesNext(s, t, ReadClock);
  }

  lemma {:induction false} AfterListing(s: State, t: State, order: seq<string>)
    requires Reaches(s, t)
    ensures Reaches(s, DoListStaging(t, order))
  {
    hide DoListStaging, Reaches;
    ReachesNext(s, t, ListStaging(order));
  }

  lemma {:induction false} AfterPack(s: State, t: State)
    requires Reaches(s, t)
    ensures Reaches(s, DoPackSegment(t))
  {
    hide DoPackSegment, Reaches;
    ReachesNext(s, t, PackSegment);
  }

  lemma {:induction false} AfterUpload(s: State, t: State)
    requires Reaches(s, t)
    ensures Reaches(s, DoUploadSegment(t))
  {
    hide DoUploadSegment, Reaches;
    ReachesNext(s, t, UploadSegment);
  }

  lemma {:induction false} AfterUnlink(s: State, t: State)
    requires Reaches(s, t)
    ensures Reaches(s, DoUnlinkSegment(t))
  {
    hide DoUnlinkSegment, Reaches;
    ReachesNext(s, t, UnlinkSegment);
  }

  lemma {:induction false} AfterPublish(s: State, t: State)
    requires Reaches(s, t)
    ensures Reaches(s, DoPublishGauge(t))
  {
    hide DoPublishGauge, Reaches;
    ReachesNext(s, t, PublishGauge);
  }

  lemma {:induction false} AfterShipperStops(s: State, t: State)
    requires Reaches(s, t)
    ensures Reaches(s, t.(clock := t.clock + 1, shipper := ShipperResting))
  {
    ReachesNext(s, t, ShipperStops);
  }

  lemma {:induction false} ReachesOn(s: State, t: State, u: State)
    requires Reaches(s, t) && Reaches(t, u)
    ensures Reaches(s, u)
  {
    var first :| Run(s, first) == t;
    var second :| Run(t, second) == u;
    RunOfRun(s, first, second);
  }

  lemma {:induction false} AfterStamp(s: State, t: State)
    requires Reaches(s, t)
    ensures Reaches(s, DoStampDump(t))
  {
    hide DoStampDump, Reaches;
    ReachesNext(s, t, StampDump);
  }

  lemma {:induction false} AfterUploadDump(s: State, t: State)
    requires Reaches(s, t)
    ensures Reaches(s, DoUploadDump(t))
  {
    hide DoUploadDump, Reaches;
    ReachesNext(s, t, UploadDump);
  }

  lemma {:induction false} AfterPlan(s: State, t: State, listing: seq<string>)
    requires Reaches(s, t)
    ensures Reaches(s, DoPlanRetention(t, listing))
  {
    hide DoPlanRetention, Reaches;
    ReachesNext(s, t, PlanRetention(listing));
  }

  lemma {:induction false} AfterDeleteDump(s: State, t: State)
    requires Reaches(s, t)
    ensures Reaches(s, DoDeleteDump(t))
  {
    hide DoDeleteDump, Reaches;
    ReachesNext(s, t, DeleteDump);
  }

  lemma {:induction false} AfterListWal(s: State, t: State, segments: seq<(string, int)>)
    requires Reaches(s, t)
    ensures Reaches(s, DoListWal(t, segments))
  {
    hide DoListWal, Reaches;
    ReachesNext(s, t, ListWal(segments));
  }

  lemma {:induction false} AfterDeleteWal(s: State, t: State)
    requires Reaches(s, t)
    ensures Reaches(s, DoDeleteWal(t))
  {
    hide DoDeleteWal, Reaches;
    ReachesNext(s, t, DeleteWal);
  }

  lemma {:induction false} AfterDumperStops(s: State, t: State)
    requires Reaches(s, t)
    ensures Reaches(s, t.(clock := t.clock + 1, dumper := DumperResting))
  {
    ReachesNext(s, t, DumperStops);
  }

  // ---- What Postgres does meanwhile ----

  /** The files Postgres has yet to archive, in order: the first may have been begun, and none after it. */
  ghost predicate Upcoming(coming: seq<(string, string)>, offered: map<string, Offer>) {
    && (forall i :: 0 <= i < |coming| ==> coming[i].1 != "")
    && (forall i, j :: 0 <= i < j < |coming| ==> Less(coming[i].0, coming[j].0))
    && (forall i :: 1 <= i < |coming| ==> ComesLast(offered, coming[i].0))
    && (coming != [] ==> MayBegin(offered, coming[0].0, coming[0].1))
    && forall name :: name in offered && offered[name].ended.None? ==> coming != [] && name == coming[0].0
  }

  lemma {:induction false} UpcomingIsBegun(coming: seq<(string, string)>, offered: map<string, Offer>, begun: int)
    requires Upcoming(coming, offered) && coming != [] && coming[0].0 !in offered
    ensures Upcoming(coming, offered[coming[0].0 := Offer(coming[0].1, begun, None)])
  {
    var now := offered[coming[0].0 := Offer(coming[0].1, begun, None)];
    forall i | 1 <= i < |coming| ensures ComesLast(now, coming[i].0) {
      assert ComesLast(offered, coming[i].0) && Less(coming[0].0, coming[i].0);
    }
  }

  lemma {:induction false} UpcomingGoesOn(coming: seq<(string, string)>, offered: map<string, Offer>, offer: Offer)
    requires Upcoming(coming, offered) && coming != [] && coming[0].0 in offered && offer.ended.Some?
    ensures Upcoming(coming[1..], offered[coming[0].0 := offer])
  {
    var now, rest := offered[coming[0].0 := offer], coming[1..];
    forall i | 0 <= i < |rest| ensures ComesLast(now, rest[i].0) && rest[i].0 !in now {
      assert rest[i] == coming[i + 1] && ComesLast(offered, coming[i + 1].0) && Less(coming[0].0, coming[i + 1].0);
      LessIsIrreflexive(rest[i].0);
    }
  }

  /** What Postgres does leaves every file whose copy had ended as it was, and takes no file off the volume. */
  ghost predicate OnlyCopies(s: State, t: State) {
    && t == s.(clock := t.clock, staging := t.staging, copy := t.copy, offered := t.offered, requests := t.requests)
    && s.clock <= t.clock
    && forall name :: Undisturbed(s, t, name)
  }

  /** As `OnlyCopies` has it of one file, and nothing sent under its name since. */
  ghost predicate Undisturbed(s: State, t: State, name: string) {
    && StaysStaged(s, t, name)
    && (name in s.uploads ==> name in t.uploads && t.uploads[name] == s.uploads[name])
    && (SegmentObject(name) in s.wal ==>
          SegmentObject(name) in t.wal && t.wal[SegmentObject(name)] == s.wal[SegmentObject(name)])
  }

  ghost predicate StaysStaged(s: State, t: State, name: string) {
    && (name in s.staging ==> name in t.staging)
    && (HadEnded(s, name) ==>
          && name in t.offered && t.offered[name] == s.offered[name]
          && (name in t.staging ==> name in s.staging && t.staging[name] == s.staging[name]))
  }

  ghost predicate HadEnded(s: State, name: string) {
    name in s.offered && s.offered[name].ended.Some?
  }

  lemma {:induction false} OnlyCopiesItself(s: State)
    ensures OnlyCopies(s, s)
  {
  }

  lemma {:induction false} OnlyCopiesOn(s: State, t: State, u: State)
    requires OnlyCopies(s, t) && OnlyCopies(t, u)
    ensures OnlyCopies(s, u)
  {
    forall name ensures Undisturbed(s, u, name) {
      assert Undisturbed(s, t, name) && Undisturbed(t, u, name);
    }
  }

  lemma {:induction false} CopyingDisturbsNothing(s: State, name: string, bytes: string, upTo: nat)
    requires s.copy.Copying? ==> !HadEnded(s, s.copy.name)
    ensures OnlyCopies(s, DoBeginCopy(s, name, bytes))
    ensures OnlyCopies(s, DoCopyMore(s, upTo))
    ensures OnlyCopies(s, DoEndCopy(s))
    ensures OnlyCopies(s, s.(clock := s.clock + 1, copy := NoCopy))
  {
    hide OnlyCopies, DoBeginCopy, DoCopyMore, DoEndCopy;
    BeginDisturbsNothing(s, name, bytes);
    MoreDisturbsNothing(s, upTo);
    EndDisturbsNothing(s);
    StopDisturbsNothing(s);
  }

  lemma {:induction false} BeginDisturbsNothing(s: State, name: string, bytes: string)
    ensures OnlyCopies(s, DoBeginCopy(s, name, bytes))
  {
    hide IsSegmentName, ComesLast;
  }

  lemma {:induction false} MoreDisturbsNothing(s: State, upTo: nat)
    requires s.copy.Copying? ==> !HadEnded(s, s.copy.name)
    ensures OnlyCopies(s, DoCopyMore(s, upTo))
  {
  }

  lemma {:induction false} EndDisturbsNothing(s: State)
    requires s.copy.Copying? ==> !HadEnded(s, s.copy.name)
    ensures OnlyCopies(s, DoEndCopy(s))
  {
  }

  lemma {:induction false} StopDisturbsNothing(s: State)
    ensures OnlyCopies(s, s.(clock := s.clock + 1, copy := NoCopy))
  {
  }

  // ---- What the others do to the bucket meanwhile ----

  ghost predicate SentSince(s: State, t: State, name: string) {
    name in t.uploads && s.clock <= t.uploads[name]
  }

  /** Every file was last sent when it had been, or since. */
  ghost predicate OnlySends(s: State, t: State) {
    && s.clock <= t.clock
    && forall name :: SentSince(s, t, name)
         || ((name in t.uploads <==> name in s.uploads) && (name in s.uploads ==> t.uploads[name] == s.uploads[name]))
  }

  /** Of the segments in the bucket exactly those named have gone, but for what was sent since. */
  ghost predicate PrunedFrom(s: State, t: State, gone: set<string>) {
    OnlySends(s, t) && forall o :: ObjectPrunedFrom(s, t, gone, o)
  }

  ghost predicate ObjectPrunedFrom(s: State, t: State, gone: set<string>, o: string) {
    || ((o in t.wal <==> o in s.wal && o !in gone) && (o in t.wal ==> t.wal[o] == s.wal[o]))
    || (IsSegmentObject(o) && SentSince(s, t, SegmentOf(o)) && (o in t.wal ==> s.clock <= t.wal[o].modifiedAt))
  }

  /** With nothing sent since, they have gone and that is all. */
  lemma {:induction false} ExactlyPruned(s: State, t: State, gone: set<string>)
    requires PrunedFrom(s, t, gone) && forall name :: name in t.uploads ==> t.uploads[name] < s.clock
    ensures t.wal == s.wal - gone
  {
    forall o ensures o in t.wal <==> o in s.wal && o !in gone {
      assert ObjectPrunedFrom(s, t, gone, o);
    }
    forall o | o in t.wal ensures t.wal[o] == s.wal[o] {
      assert ObjectPrunedFrom(s, t, gone, o);
    }
  }

  lemma {:induction false} PrunedFromOn(s: State, t: State, u: State, first: set<string>, second: set<string>)
    requires PrunedFrom(s, t, first) && PrunedFrom(t, u, second)
    ensures PrunedFrom(s, u, first + second)
  {
    hide PrunedFrom, ObjectPrunedFrom;
    assert OnlySends(s, t) && OnlySends(t, u) by { PrunedSends(s, t, first); PrunedSends(t, u, second); }
    OnlySendsOn(s, t, u);
    forall o ensures ObjectPrunedFrom(s, u, first + second, o) {
      ObjectPrunedOn(s, t, u, first, second, o);
    }
    AllPruned(s, u, first + second);
  }

  lemma {:induction false} PrunedSends(s: State, t: State, gone: set<string>)
    requires PrunedFrom(s, t, gone)
    ensures OnlySends(s, t)
  {
  }

  lemma {:induction false} AllPruned(s: State, t: State, gone: set<string>)
    requires OnlySends(s, t) && forall o :: ObjectPrunedFrom(s, t, gone, o)
    ensures PrunedFrom(s, t, gone)
  {
  }

  lemma {:induction false} OnlySendsOn(s: State, t: State, u: State)
    requires OnlySends(s, t) && OnlySends(t, u)
    ensures OnlySends(s, u)
  {
  }

  lemma {:induction false} ObjectPrunedOn(s: State, t: State, u: State, first: set<string>, second: set<string>,
                                          o: string)
    requires PrunedFrom(s, t, first) && PrunedFrom(t, u, second)
    ensures ObjectPrunedFrom(s, u, first + second, o)
  {
    assert ObjectPrunedFrom(s, t, first, o) && ObjectPrunedFrom(t, u, second, o);
  }

  /** Other processes leave the dumps and the nightly run alone, and take no segment from the bucket. */
  ghost predicate OthersMove(s: State, t: State) {
    t.dumps == s.dumps && t.dumper == s.dumper && PrunedFrom(s, t, {})
  }

  lemma {:induction false} OthersMoveOn(s: State, t: State, u: State)
    requires OthersMove(s, t) && OthersMove(t, u)
    ensures OthersMove(s, u)
  {
    hide PrunedFrom;
    PrunedFromOn(s, t, u, {}, {});
    var none: set<string> := {};
    assert none + none == none;
  }

  /** A move that leaves the bucket alone. */
  lemma {:induction false} MovesElsewhere(s: State, t: State)
    requires t.dumps == s.dumps && t.dumper == s.dumper && t.wal == s.wal && t.uploads == s.uploads
    requires s.clock <= t.clock
    ensures OthersMove(s, t)
  {
  }

  lemma {:induction false} ReadMoves(s: State)
    ensures OthersMove(s, DoReadClock(s))
  {
    hide OthersMove;
    MovesElsewhere(s, DoReadClock(s));
  }

  lemma {:induction false} ListMoves(s: State, order: seq<string>)
    ensures OthersMove(s, DoListStaging(s, order))
  {
    hide OthersMove, Ascending, Filter, Lists;
    MovesElsewhere(s, DoListStaging(s, order));
  }

  lemma {:induction false} PublishMoves(s: State)
    ensures OthersMove(s, DoPublishGauge(s))
  {
    hide OthersMove, Rounded;
    MovesElsewhere(s, DoPublishGauge(s));
  }

  lemma {:induction false} PackMoves(s: State)
    ensures OthersMove(s, DoPackSegment(s))
  {
    hide OthersMove;
    MovesElsewhere(s, DoPackSegment(s));
  }

  lemma {:induction false} UnlinkMoves(s: State)
    ensures OthersMove(s, DoUnlinkSegment(s))
  {
    hide OthersMove;
    MovesElsewhere(s, DoUnlinkSegment(s));
  }

  lemma {:induction false} StopMoves(s: State)
    ensures OthersMove(s, s.(clock := s.clock + 1, shipper := ShipperResting))
  {
    hide OthersMove;
    MovesElsewhere(s, s.(clock := s.clock + 1, shipper := ShipperResting));
  }

  lemma {:induction false} UploadMoves(s: State)
    ensures OthersMove(s, DoUploadSegment(s))
  {
    var t := DoUploadSegment(s);
    if CanUpload(s) {
      var segment := s.shipper.queue[0];
      SegmentOfObject(segment);
      forall o ensures ObjectPrunedFrom(s, t, {}, o) {
        assert o != SegmentObject(segment) ==> (o in t.wal <==> o in s.wal);
      }
    } else {
      MovesElsewhere(s, t);
    }
  }

  lemma {:induction false} RecoveringMovesElsewhere(s: State, event: Event)
    requires event.StartRecovery? || event.FetchNext? || event.RecoveryStops?
    ensures var t := if Perform(s, event).clock == s.clock then Perform(s, Tick(1)) else Perform(s, event);
            OthersMove(s, t) && t == s.(clock := s.clock + 1, recovery := t.recovery)
  {
    hide OthersMove, Fetched, StartsAt, HoldsDump, TakenAt;
    MovesElsewhere(s, s.(clock := s.clock + 1, recovery := Perform(s, event).recovery));
    MovesElsewhere(s, s.(clock := s.clock + 1));
  }

  lemma {:induction false} CopyingMovesElsewhere(s: State, t: State)
    requires OnlyCopies(s, t)
    ensures OthersMove(s, t)
  {
    hide Undisturbed;
    MovesElsewhere(s, t);
  }

  /** The host's volumes and the bucket. `coming` is what Postgres has yet to archive, the file under copy first, and
      `now` is the state of the system that these are part of. */
  class Site {
    var clock: int
    var staging: map<string, Blob>
    var copy: Copy
    var wal: map<string, Object>
    var dumps: set<string>
    var gauge: Option<int>
    var backupGauge: Option<int>
    var shipper: Shipper
    var dumper: Dumper
    var coming: seq<(string, string)>
    ghost var now: State

    ghost predicate Valid()
      reads this
    {
      && clock == now.clock && staging == now.staging && copy == now.copy && wal == now.wal && dumps == now.dumps
      && gauge == now.gauge && shipper == now.shipper && dumper == now.dumper
      && Upcoming(coming, now.offered)
      && (copy.Copying? ==>
            && coming != [] && coming[0].0 == copy.name && copy.name in now.offered
            && copy.done < |coming[0].1|)
    }

    // ---- One effect each ----

    /** `archive_command` begins: `test ! -f`, and `cp` makes the file. */
    method BeginCopy()
      requires Valid() && copy.NoCopy? && coming != [] && coming[0].0 !in staging
      modifies this
      ensures Valid() && coming == old(coming) && backupGauge == old(backupGauge)
      ensures now == DoBeginCopy(old(now), coming[0].0, coming[0].1)
    {
      var (name, bytes) := coming[0];
      if name !in now.offered {
        UpcomingIsBegun(coming, now.offered, clock);
      }
      now := DoBeginCopy(now, name, bytes);
      staging := staging[name := Plain("")];
      copy := Copying(name, 0);
      clock := clock + 1;
    }

    /** `cp` has written this much, to the file under the name if that is still the one it made. */
    method CopyMore(upTo: nat)
      requires Valid() && copy.Copying? && copy.done < upTo < |coming[0].1|
      modifies this
      ensures Valid() && coming == old(coming) && backupGauge == old(backupGauge)
      ensures now == DoCopyMore(old(now), upTo)
    {
      now := DoCopyMore(now, upTo);
      if copy.name in staging {
        staging := staging[copy.name := Plain(coming[0].1[..upTo])];
      }
      copy := Copying(copy.name, upTo);
      clock := clock + 1;
    }

    method EndCopy()
      requires Valid() && copy.Copying?
      modifies this
      ensures Valid() && coming == old(coming)[1..] && backupGauge == old(backupGauge)
      ensures now == DoEndCopy(old(now))
    {
      UpcomingGoesOn(coming, now.offered, now.offered[copy.name].(ended := Some(clock)));
      now := DoEndCopy(now);
      if copy.name in staging {
        staging := staging[copy.name := Plain(coming[0].1)];
      }
      copy := NoCopy;
      coming := coming[1..];
      clock := clock + 1;
    }

    method StopCopy()
      requires Valid()
      modifies this
      ensures Valid() && coming == old(coming) && backupGauge == old(backupGauge)
      ensures now == old(now).(clock := old(now).clock + 1, copy := NoCopy)
    {
      now := now.(clock := now.clock + 1, copy := NoCopy);
      copy := NoCopy;
      clock := clock + 1;
    }

    /** One turn of Postgres's, if it has that turn. */
    method TakeTurn(turn: Turn)
      requires Valid()
      modifies this
      ensures Valid() && Reaches(old(now), now) && OnlyCopies(old(now), now) && backupGauge == old(backupGauge)
      ensures now == match turn
                     case Begin =>
                       if old(coming) == [] then old(now) else DoBeginCopy(old(now), old(coming)[0].0, old(coming)[0].1)
                     case More(upTo) => DoCopyMore(old(now), upTo)
                     case End => DoEndCopy(old(now))
                     case Stop =>
                       if old(copy).Copying? then old(now).(clock := old(now).clock + 1, copy := NoCopy) else old(now)
    {
      hide Reaches;
      ghost var t0 := now;
      ReachesItself(t0);
      if coming != [] {
        CopyingDisturbsNothing(t0, coming[0].0, coming[0].1, if turn.More? then turn.upTo else 0);
      }
      match turn {
        case Begin =>
          if copy.NoCopy? && coming != [] && coming[0].0 !in staging {
            AfterBeginCopy(t0, t0, coming[0].0, coming[0].1);
            BeginCopy();
          }
        case More(upTo) =>
          if copy.Copying? && copy.done < upTo < |coming[0].1| {
            AfterCopyMore(t0, t0, upTo);
            CopyMore(upTo);
          }
        case End =>
          if copy.Copying? {
            AfterEndCopy(t0, t0);
            EndCopy();
          }
        case Stop =>
          if copy.Copying? {
            AfterCopyStops(t0, t0);
            StopCopy();
          }
      }
    }

    /** Postgres works on while another process is between two of its steps. */
    method Pause(turns: seq<Turn>)
      requires Valid()
      modifies this
      ensures Valid() && Reaches(old(now), now) && OnlyCopies(old(now), now) && backupGauge == old(backupGauge)
      ensures turns == [] ==> now == old(now)
    {
      hide Reaches, OnlyCopies;
      ghost var t0 := now;
      ReachesItself(t0);
      OnlyCopiesItself(t0);
      for taken := 0 to |turns|
        invariant Valid() && Reaches(t0, now) && OnlyCopies(t0, now) && backupGauge == old(backupGauge)
        invariant taken == 0 ==> now == t0
      {
        ghost var here := now;
        TakeTurn(turns[taken]);
        ReachesOn(t0, here, now);
        OnlyCopiesOn(t0, here, now);
      }
    }

    /** The clock is read before anything is listed. */
    method ReadTheClock()
      requires Valid() && shipper.ShipperResting?
      modifies this
      ensures Valid() && now == DoReadClock(old(now)) && backupGauge == old(backupGauge)
    {
      now := DoReadClock(now);
      shipper := ClockRead(clock);
      clock := clock + 1;
    }

    /** The volume's files, in no order anyone chose. */
    method StagedFiles() returns (order: seq<string>)
      ensures Lists(order, staging.Keys)
    {
      order := [];
      var left := staging.Keys;
      while left != {}
        invariant left <= staging.Keys && NoRepeats(order) && Elements(order) == staging.Keys - left
      {
        var name :| name in left;
        assert name !in Elements(order);
        assert Elements(order + [name]) == Elements(order) + {name};
        order := order + [name];
        left := left - {name};
      }
    }

    /** The queue is what is staged and shippable, in strictly ascending order of name. */
    method StagedSegmentsInOrder() returns (queue: seq<string>, ghost order: seq<string>)
      requires Valid() && shipper.ClockRead?
      modifies this
      ensures Valid() && now == DoListStaging(old(now), order) && backupGauge == old(backupGauge)
      ensures now.shipper == Draining(old(shipper).readAt, old(clock), queue, Waiting)
      ensures now == old(now).(clock := now.clock, shipper := now.shipper) && now.clock == old(clock) + 1
      ensures StrictlyAscending(queue)
      ensures forall name :: name in queue <==> name in staging && IsShippable(name)
    {
      var listed := StagedFiles();
      order := listed;
      queue := Ascending(Filter(listed, name => IsShippable(name)));
      StagedSegments(listed, staging.Keys);
      now := DoListStaging(now, listed);
      shipper := Draining(shipper.readAt, clock, queue, Waiting);
      clock := clock + 1;
    }

    method PackSegment()
      requires Valid() && CanPack(now)
      modifies this
      ensures Valid() && now == DoPackSegment(old(now)) && backupGauge == old(backupGauge)
    {
      now := DoPackSegment(now);
      shipper := shipper.(stage := Packed(Gzip(staging[shipper.queue[0]]), clock));
      clock := clock + 1;
    }

    method UploadSegment()
      requires Valid() && CanUpload(now)
      modifies this
      ensures Valid() && now == DoUploadSegment(old(now)) && backupGauge == old(backupGauge)
    {
      now := DoUploadSegment(now);
      wal := wal[SegmentObject(shipper.queue[0]) := Object(Gpg(shipper.stage.content), clock)];
      shipper := shipper.(stage := Sent);
      clock := clock + 1;
    }

    method UnlinkSegment()
      requires Valid() && shipper.Draining? && shipper.queue != [] && shipper.stage.Sent?
      modifies this
      ensures Valid() && now == DoUnlinkSegment(old(now)) && backupGauge == old(backupGauge)
    {
      now := DoUnlinkSegment(now);
      staging := staging - {shipper.queue[0]};
      shipper := shipper.(queue := shipper.queue[1..], stage := Waiting);
      clock := clock + 1;
    }

    method PublishGauge()
      requires Valid() && shipper.Draining? && shipper.queue == []
      modifies this
      ensures Valid() && now == DoPublishGauge(old(now)) && backupGauge == old(backupGauge)
    {
      now := DoPublishGauge(now);
      gauge := Some(Rounded(shipper.readAt));
      shipper := ShipperResting;
      clock := clock + 1;
    }

    /** The run ends here, wherever it was. */
    method StopShipping()
      requires Valid()
      modifies this
      ensures Valid() && now == old(now).(clock := old(now).clock + 1, shipper := ShipperResting)
      ensures backupGauge == old(backupGauge)
    {
      now := now.(clock := now.clock + 1, shipper := ShipperResting);
      shipper := ShipperResting;
      clock := clock + 1;
    }

    // ---- The other processes, while the nightly run is between two steps ----

    /** The shipper's next step, whatever it is at. */
    method ShipperMoves()
      requires Valid()
      modifies this
      ensures Valid() && Reaches(old(now), now) && OthersMove(old(now), now) && backupGauge == old(backupGauge)
    {
      hide Reaches, OthersMove, DoReadClock, DoListStaging, DoPackSegment, DoUploadSegment, DoUnlinkSegment,
        DoPublishGauge, Upcoming;
      ghost var t0 := now;
      ReachesItself(t0);
      match shipper {
        case ShipperResting =>
          AfterReadClock(t0, t0);
          ReadMoves(t0);
          ReadTheClock();
        case ClockRead(_) =>
          var queue;
          ghost var order;
          queue, order := StagedSegmentsInOrder();
          AfterListing(t0, t0, order);
          ListMoves(t0, order);
        case Draining(_, _, queue, stage) =>
          if queue == [] {
            AfterPublish(t0, t0);
            PublishMoves(t0);
            PublishGauge();
          } else if stage.Packed? {
            AfterUpload(t0, t0);
            UploadMoves(t0);
            UploadSegment();
          } else if stage.Sent? {
            AfterUnlink(t0, t0);
            UnlinkMoves(t0);
            UnlinkSegment();
          } else if queue[0] in staging {
            AfterPack(t0, t0);
            PackMoves(t0);
            PackSegment();
          } else {
            AfterShipperStops(t0, t0);
            StopMoves(t0);
            StopShipping();
          }
      }
    }

    /** A recovery's step, if it has that one; the host is not where it is taken. */
    method RecoveryMoves(event: Event)
      requires Valid()
      modifies this
      ensures Valid() && Reaches(old(now), now) && OthersMove(old(now), now) && backupGauge == old(backupGauge)
    {
      hide Reaches, OthersMove, Perform;
      ghost var t0 := now;
      ReachesItself(t0);
      if event.StartRecovery? || event.FetchNext? || event.RecoveryStops? {
        RecoveringMovesElsewhere(t0, event);
        ReachesNext(t0, t0, event);
        ReachesNext(t0, t0, Tick(1));
        now := if Perform(t0, event).clock == t0.clock then Perform(t0, Tick(1)) else Perform(t0, event);
        clock := clock + 1;
      } else {
        MovesElsewhere(t0, t0);
      }
    }

    method MakeMove(move: Move)
      requires Valid()
      modifies this
      ensures Valid() && Reaches(old(now), now) && OthersMove(old(now), now) && backupGauge == old(backupGauge)
    {
      hide Reaches, OthersMove, OnlyCopies;
      ghost var t0 := now;
      ReachesItself(t0);
      match move {
        case Postgres(turn) =>
          TakeTurn(turn);
          CopyingMovesElsewhere(t0, now);
        case Shipping =>
          ShipperMoves();
        case ShippingStops =>
          AfterShipperStops(t0, t0);
          StopMoves(t0);
          StopShipping();
        case Recovering(event) =>
          RecoveryMoves(event);
        case TimePasses(span) =>
          ReachesNext(t0, t0, Tick(span));
          now := DoTick(now, span);
          clock := clock + span;
          MovesElsewhere(t0, now);
      }
    }

    method Meanwhile(moves: seq<Move>)
      requires Valid()
      modifies this
      ensures Valid() && Reaches(old(now), now) && OthersMove(old(now), now) && backupGauge == old(backupGauge)
      ensures moves == [] ==> now == old(now)
    {
      hide Reaches, OthersMove;
      ghost var t0 := now;
      ReachesItself(t0);
      MovesElsewhere(t0, t0);
      for made := 0 to |moves|
        invariant Valid() && Reaches(t0, now) && OthersMove(t0, now) && backupGauge == old(backupGauge)
        invariant made == 0 ==> now == t0
      {
        ghost var here := now;
        MakeMove(moves[made]);
        ReachesOn(t0, here, now);
        OthersMoveOn(t0, here, now);
      }
    }

    // ---- ship.py ----

    /** The head of the queue is packed, sent and unlinked, or the run ends with it still in the volume. No other file
        is disturbed. */
    method ShipOne(pack: Luck, upload: Luck, unlink: Luck) returns (ok: bool)
      requires Valid() && CanPack(now)
      modifies this
      ensures Valid() && Reaches(old(now), now) && backupGauge == old(backupGauge)
      ensures ok <==> !pack.fails && !upload.fails && !unlink.fails
      ensures if ok then Shipped(old(now), now) else NotShipped(old(now), now, !pack.fails && !upload.fails)
    {
      hide Reaches, DoPackSegment, DoUploadSegment, DoUnlinkSegment, OnlyCopies, CanPack, CanUpload, Upcoming,
        IsWaiting, IsPacked, IsSent, Shipped, NotShipped;
      ghost var t0 := now;
      Pause(pack.turns);
      ghost var t1 := now;
      StillWaiting(t0, t1);
      if pack.fails {
        StopShipping();
        AfterShipperStops(t0, t1);
        return false;
      }
      PackSegment();
      AfterPack(t0, t1);
      PackedNow(t0, t1);
      ghost var t2 := now;
      Pause(upload.turns);
      ghost var t3 := now;
      ReachesOn(t0, t2, t3);
      StillPacked(t0, t2, t3);
      if upload.fails {
        StopShipping();
        AfterShipperStops(t0, t3);
        return false;
      }
      UploadSegment();
      AfterUpload(t0, t3);
      SentNow(t0, t3);
      ghost var t4 := now;
      Pause(unlink.turns);
      ghost var t5 := now;
      ReachesOn(t0, t4, t5);
      StillSent(t0, t4, t5);
      if unlink.fails {
        StopShipping();
        AfterShipperStops(t0, t5);
        return false;
      }
      UnlinkSegment();
      AfterUnlink(t0, t5);
      return true;
    }

    /** The drain, oldest first, stopping at the first failure. */
    method Drain(queue: seq<string>, luck: nat -> Luck, ghost start: State) returns (shipped: nat)
      requires Valid() && now.shipper.Draining? && now.shipper.queue == queue && now.shipper.stage.Waiting?
      requires start.clock <= now.clock && StrictlyAscending(queue) && PartlyShipped(start, now, queue, 0)
      modifies this
      ensures Valid() && Reaches(old(now), now) && now.dumps == old(now).dumps && now.gauge == old(now).gauge
      ensures backupGauge == old(backupGauge)
      ensures shipped <= |queue| && PartlyShipped(start, now, queue, shipped)
      ensures forall k :: 1 <= k <= 3 * shipped ==> !luck(k).fails
      ensures shipped < |queue| ==> exists k :: 3 * shipped < k <= 3 * shipped + 3 && luck(k).fails
      ensures now.shipper == if shipped == |queue| then old(now).shipper.(queue := []) else ShipperResting
    {
      hide Reaches, CanPack, Shipped, NotShipped, PartlyShipped;
      ghost var t0 := now;
      ReachesItself(t0);
      shipped := 0;
      while shipped < |queue|
        invariant 0 <= shipped <= |queue|
        invariant Valid() && Reaches(t0, now) && now.dumps == t0.dumps && now.gauge == t0.gauge
        invariant start.clock <= now.clock && backupGauge == old(backupGauge)
        invariant forall k :: 1 <= k <= 3 * shipped ==> !luck(k).fails
        invariant now.shipper == t0.shipper.(queue := queue[shipped..])
        invariant PartlyShipped(start, now, queue, shipped)
      {
        ghost var here := now;
        HeadCanBePacked(start, here, queue, shipped);
        var ok := ShipOne(luck(3 * shipped + 1), luck(3 * shipped + 2), luck(3 * shipped + 3));
        ReachesOn(t0, here, now);
        ShippedOneMore(start, here, now, queue, shipped, ok,
                       !luck(3 * shipped + 1).fails && !luck(3 * shipped + 2).fails);
        if !ok {
          return;
        }
        shipped := shipped + 1;
      }
    }

    /** `luck` says, for each point between two steps, what Postgres does there and whether the run fails there.

        On success everything shippable that was in the volume has been sent since, what had been copied to its end went
        up as it was and is gone from the volume, and the gauge carries the clock reading taken before the listing. On
        failure the gauge is untouched, and each of those files is still there or went so. */
    method Ship(luck: nat -> Luck) returns (r: Result<nat, Stopped>)
      requires Valid() && shipper.ShipperResting?
      modifies this
      ensures Valid() && shipper.ShipperResting? && Reaches(old(now), now)
      ensures dumps == old(dumps) && backupGauge == old(backupGauge)
      ensures r.Success? ==>
                && gauge == Some(Rounded(old(clock)))
                && (forall name :: name in old(staging) && IsShippable(name) ==> HasGone(old(now), now, name))
                && (exists at :: Reaches(old(now), at) && Reaches(at, now) && r.value == |Shippable(at)|)
                && r.value >= |Shippable(old(now))|
                && ((forall k :: luck(k).turns == []) ==> r.value == |Shippable(old(now))|)
                && forall k :: 0 <= k <= 3 * r.value ==> !luck(k).fails
      ensures r.Failure? ==>
                && (exists k :: luck(k).fails)
                && gauge == old(gauge)
                && forall name :: name in old(staging) && IsShippable(name) ==>
                     HasGone(old(now), now, name) || StillWaits(old(now), now, name)
    {
      hide Reaches, PartlyShipped, HasGone, StillWaits, Shippable;
      ghost var t0 := now;
      var queue, listed := ListToShip(luck(0));
      ghost var t3 := now;
      if !listed {
        return Failure(Stopped);
      }
      var shipped := Drain(queue, luck, t0);
      ghost var t4 := now;
      ReachesOn(t0, t3, t4);
      QueueCovers(t0, t4, queue, shipped);
      if shipped < |queue| {
        return Failure(Stopped);
      }
      PublishGauge();
      AfterPublish(t0, t4);
      AfterPublish(t3, t4);
      GoneStaysGone(t0, t4, now);
      return Success(shipped);
    }

    /** The clock is read, and then the volume; every file staged at the start is still staged as it was. */
    method ListToShip(luck: Luck) returns (queue: seq<string>, listed: bool)
      requires Valid() && shipper.ShipperResting?
      modifies this
      ensures Valid() && Reaches(old(now), now) && backupGauge == old(backupGauge)
      ensures now.dumps == old(now).dumps && now.gauge == old(now).gauge && old(clock) <= now.clock
      ensures listed <==> !luck.fails
      ensures listed ==>
                && |queue| == |Shippable(now)| && |Shippable(old(now))| <= |queue|
                && (luck.turns == [] ==> |queue| == |Shippable(old(now))|)
                && now.shipper.Draining? && now.shipper.readAt == old(clock)
                && now.shipper.queue == queue && now.shipper.stage.Waiting?
                && StrictlyAscending(queue) && PartlyShipped(old(now), now, queue, 0)
                && forall name :: name in old(staging) && IsShippable(name) ==> name in queue
      ensures !listed ==>
                && shipper.ShipperResting?
                && forall name :: name in old(staging) ==> StillWaits(old(now), now, name)
    {
      hide Reaches;
      ghost var t0 := now;
      ReadTheClock();
      ghost var t1 := now;
      ReachesItself(t0);
      AfterReadClock(t0, t0);
      Pause(luck.turns);
      ghost var t2 := now;
      ReachesOn(t0, t1, t2);
      WaitsWhileListing(t0, t1, t2);
      if luck.fails {
        StopShipping();
        AfterShipperStops(t0, t2);
        return [], false;
      }
      ghost var order;
      queue, order := StagedSegmentsInOrder();
      AfterListing(t0, t2, order);
      GoneStaysGone(t0, t2, now);
      CountQueue(queue, Shippable(now));
      SubsetSize(Shippable(t0), Shippable(now));
      return queue, true;
    }

    // ---- dump.py ----

    method StopDump()
      requires Valid()
      modifies this
      ensures Valid() && now == old(now).(clock := old(now).clock + 1, dumper := DumperResting)
      ensures backupGauge == old(backupGauge)
    {
      now := now.(clock := now.clock + 1, dumper := DumperResting);
      dumper := DumperResting;
      clock := clock + 1;
    }

    method StampTheDump()
      requires Valid() && dumper.DumperResting? && HasFourDigitYear(clock)
      modifies this
      ensures Valid() && now == DoStampDump(old(now)) && backupGauge == old(backupGauge)
    {
      now := DoStampDump(now);
      dumper := Uploading(Stamp(clock), 0);
      clock := clock + 1;
    }

    method UploadObject()
      requires Valid() && dumper.Uploading? && dumper.done < 2
      modifies this
      ensures Valid() && now == DoUploadDump(old(now)) && backupGauge == old(backupGauge)
    {
      now := DoUploadDump(now);
      dumps := dumps + {ObjectsFor(dumper.name)[dumper.done]};
      dumper := Uploading(dumper.name, dumper.done + 1);
      clock := clock + 1;
    }

    method Listing() returns (order: seq<string>)
      ensures Lists(order, dumps)
    {
      order := [];
      var left := dumps;
      while left != {}
        invariant left <= dumps && NoRepeats(order) && Elements(order) == dumps - left
      {
        var name :| name in left;
        assert name !in Elements(order);
        assert Elements(order + [name]) == Elements(order) + {name};
        order := order + [name];
        left := left - {name};
      }
    }

    /** Decide retention over a fresh listing. A refusal ends the run with nothing deleted. */
    method PlanDeletions() returns (planned: bool, ghost listing: seq<string>)
      requires Valid() && dumper.Uploading? && dumper.done == 2 && TakenAt(dumper.name).Some?
      modifies this
      ensures Valid() && now == DoPlanRetention(old(now), listing) && backupGauge == old(backupGauge)
      ensures Lists(listing, old(dumps))
      ensures planned == now.dumper.DeletingDumps? == PlanFor(listing, old(dumper).name).Success?
    {
      hide PlanFor, TakenAt, OldestKept, ObjectsToDelete, Lists;
      var order := Listing();
      listing := order;
      now := DoPlanRetention(now, order);
      match PlanFor(order, dumper.name) {
        case Failure(_) =>
          planned := false;
          dumper := DumperResting;
        case Success(plan) =>
          PlanSparesTheKept(dumps, dumper.name, order, plan);
          planned := true;
          dumper := DeletingDumps(TakenAt(OldestKept(plan)).value, ObjectsToDelete(order, plan.delete));
      }
      clock := clock + 1;
    }

    method DeleteObject()
      requires Valid() && dumper.DeletingDumps? && dumper.dumpQueue != []
      modifies this
      ensures Valid() && now == DoDeleteDump(old(now)) && backupGauge == old(backupGauge)
    {
      now := DoDeleteDump(now);
      dumps := dumps - {dumper.dumpQueue[0]};
      dumper := DeletingDumps(dumper.oldest, dumper.dumpQueue[1..]);
      clock := clock + 1;
    }

    method WalListing() returns (segments: seq<(string, int)>)
      ensures ListsWal(segments, wal)
    {
      segments := [];
      var left := wal.Keys;
      while left != {}
        invariant left <= wal.Keys
        invariant forall name: string, when: int :: (name, when) in segments <==>
                    name in wal && name !in left && wal[name].modifiedAt == when
      {
        var name :| name in left;
        segments := segments + [(name, wal[name].modifiedAt)];
        left := left - {name};
      }
    }

    method PlanWal() returns (ghost segments: seq<(string, int)>)
      requires Valid() && dumper.DeletingDumps? && dumper.dumpQueue == []
      modifies this
      ensures Valid() && now == DoListWal(old(now), segments) && backupGauge == old(backupGauge)
      ensures ListsWal(segments, old(wal))
      ensures now == old(now).(
                       clock := now.clock,
                       dumper := DeletingWal(old(dumper).oldest, WalToDelete(segments, old(dumper).oldest)))
    {
      var listed := WalListing();
      segments := listed;
      now := DoListWal(now, listed);
      dumper := DeletingWal(dumper.oldest, WalToDelete(listed, dumper.oldest));
      clock := clock + 1;
    }

    method DeleteSegment()
      requires Valid() && dumper.DeletingWal? && dumper.walQueue != []
      modifies this
      ensures Valid() && now == DoDeleteWal(old(now)) && backupGauge == old(backupGauge)
    {
      now := DoDeleteWal(now);
      wal := wal - {dumper.walQueue[0]};
      dumper := DeletingWal(dumper.oldest, dumper.walQueue[1..]);
      clock := clock + 1;
    }

    /** The planned objects go one at a time, in order. Returns how many went; short of all of them the run is over. */
    method Prune(chance: nat -> Chance) returns (deleted: nat)
      requires Valid() && now.dumper.DeletingDumps?
      modifies this
      ensures Valid() && backupGauge == old(backupGauge) && Continues(old(now), now, {}, IsAlone(chance))
      ensures deleted <= |old(now).dumper.dumpQueue| && forall point :: 0 <= point < deleted ==> !chance(point).fails
      ensures deleted < |old(now).dumper.dumpQueue| ==> chance(deleted).fails
      ensures now.dumps == old(now).dumps - Elements(old(now).dumper.dumpQueue[..deleted])
      ensures now.dumper == if deleted == |old(now).dumper.dumpQueue| then DeletingDumps(old(now).dumper.oldest, [])
                            else DumperResting
    {
      hide Continues, OthersMove, Reaches, DoDeleteDump, Upcoming;
      ghost var t0 := now;
      NothingDone(t0, IsAlone(chance));
      var queue := dumper.dumpQueue;
      deleted := 0;
      while deleted < |queue|
        invariant 0 <= deleted <= |queue|
        invariant Valid() && backupGauge == old(backupGauge) && Continues(t0, now, {}, IsAlone(chance))
        invariant forall point :: 0 <= point < deleted ==> !chance(point).fails
        invariant now.dumper == DeletingDumps(t0.dumper.oldest, queue[deleted..])
        invariant now.dumps == t0.dumps - Elements(queue[..deleted])
      {
        ghost var t1 := now;
        Meanwhile(chance(deleted).moves);
        MovedOn(t0, t1, now, {}, IsAlone(chance));
        ghost var t2 := now;
        if chance(deleted).fails {
          StopContinues(t0, t2, {}, IsAlone(chance));
          StopDump();
          return;
        }
        DeleteContinues(t0, t2, {}, IsAlone(chance));
        OneDumpLess(t2, t0.dumps, queue, deleted);
        DeleteObject();
        deleted := deleted + 1;
      }
    }

    /** The planned segments go likewise, and the run ends. */
    method PruneWal(chance: nat -> Chance) returns (deleted: nat)
      requires Valid() && now.dumper.DeletingWal?
      modifies this
      ensures Valid() && backupGauge == old(backupGauge)
      ensures now.dumps == old(now).dumps && now.dumper == DumperResting
      ensures deleted <= |old(now).dumper.walQueue| && forall point :: 0 <= point < deleted ==> !chance(point).fails
      ensures deleted < |old(now).dumper.walQueue| ==> chance(deleted).fails
      ensures Continues(old(now), now, Elements(old(now).dumper.walQueue[..deleted]), IsAlone(chance))
    {
      hide Continues, OthersMove, Reaches, DoDeleteWal, Upcoming;
      ghost var t0 := now;
      NothingDone(t0, IsAlone(chance));
      var queue := dumper.walQueue;
      assert Elements(queue[..0]) == {};
      deleted := 0;
      while deleted < |queue|
        invariant 0 <= deleted <= |queue|
        invariant Valid() && backupGauge == old(backupGauge) && now.dumps == t0.dumps
        invariant Continues(t0, now, Elements(queue[..deleted]), IsAlone(chance))
        invariant forall point :: 0 <= point < deleted ==> !chance(point).fails
        invariant now.dumper == DeletingWal(t0.dumper.oldest, queue[deleted..])
      {
        ghost var t1, gone := now, Elements(queue[..deleted]);
        Meanwhile(chance(deleted).moves);
        MovedOn(t0, t1, now, gone, IsAlone(chance));
        ghost var t2 := now;
        if chance(deleted).fails {
          StopContinues(t0, t2, gone, IsAlone(chance));
          StopDump();
          return;
        }
        OneSegmentLess(t0, t2, queue, deleted, IsAlone(chance));
        DeleteSegment();
        deleted := deleted + 1;
      }
      StopContinues(t0, now, Elements(queue[..deleted]), IsAlone(chance));
      StopDump();
    }

    /** Before each effect the other processes make the moves that the chances say, and the run fails where they say;
        a refusal of anything before the uploads is a failure at point 0. Besides, it fails only when retention
        refuses. The gauge moves only on success. Either way the run was a night of retention's, and by itself it
        changes nothing on the host. */
    method TakeBackup(chance: nat -> Chance, dumpChance: nat -> Chance, walChance: nat -> Chance)
      returns (r: Result<string, Stopped>)
      requires Valid() && dumper.DumperResting? && HasFourDigitYear(clock)
      modifies this
      ensures Valid() && dumper.DumperResting? && Reaches(old(now), now)
      ensures IsAlone(chance) && IsAlone(dumpChance) && IsAlone(walChance) ==> HostIsAsItWas(old(now), now)
      ensures r.Failure? ==> backupGauge == old(backupGauge) && NightWasCut(old(now), now, Stamp(old(clock)))
      ensures r.Success? ==>
                && r.value == Stamp(old(clock)) && backupGauge == Some(Rounded(old(clock)))
                && NightWasDone(old(now), now, r.value)
      ensures r.Failure? ==>
                (exists point :: chance(point).fails || dumpChance(point).fails || walChance(point).fails)
                || IsRefused(old(dumps), Stamp(old(clock)))
      ensures r.Success? ==> !chance(0).fails && !chance(1).fails && !chance(2).fails
      ensures IsANight(old(dumps), dumps, Stamp(old(clock)))
    {
      hide Continues, OthersMove, Reaches, NightWasCut, NightWasDone, IsANight, TakenAt, PlanFor, OldestKept,
        HostIsAsItWas, Upcoming, Stamp, DoPlanRetention, IsPlanned, ObjectsToDelete;
      ghost var t0 := now;
      var taken := clock;
      var name := Stamp(taken);
      var ok := UploadBoth(chance);
      if !ok {
        CutBeforePruning(t0, now, name, IsAlone(chance));
        return Failure(Stopped);
      }
      StampRoundTrip(taken);
      ghost var listing;
      ok, listing := PlanAfter(chance(2), name, t0, IsAlone(chance));
      if !ok {
        CutBeforePruning(t0, now, name, IsAlone(chance));
        return Failure(Stopped);
      }
      r := PruneAll(name, taken, dumpChance, walChance, t0, listing, PlanFor(listing, name).value, IsAlone(chance));
    }

    /** Retention decides over a listing taken once both objects are up; cut off or refused, the run ends. */
    method PlanAfter(chance: Chance, name: string, ghost t0: State, ghost alone: bool)
      returns (planned: bool, ghost listing: seq<string>)
      requires Valid() && Continues(t0, now, {}, alone) && (alone ==> chance.moves == [])
      requires dumper == Uploading(name, 2) && TakenAt(name).Some? && dumps == BothUploaded(t0.dumps, name)
      modifies this
      ensures Valid() && backupGauge == old(backupGauge) && Continues(t0, now, {}, alone) && dumps == old(dumps)
      ensures planned ==> !chance.fails
      ensures !planned && !chance.fails ==> IsRefused(t0.dumps, name)
      ensures planned ==>
                && PlanFor(listing, name).Success?
                && var plan := PlanFor(listing, name).value;
                   && IsPlanned(t0, listing, plan, name) && plan.keep != [] && TakenAt(OldestKept(plan)).Some?
                   && now.dumper == DeletingDumps(
                        TakenAt(OldestKept(plan)).value, ObjectsToDelete(listing, plan.delete))
      ensures !planned ==> dumper == DumperResting
    {
      hide Continues, OthersMove, Reaches, TakenAt, PlanFor, OldestKept, Upcoming, DoPlanRetention, ObjectsToDelete,
        Lists;
      ghost var t1 := now;
      Meanwhile(chance.moves);
      MovedOn(t0, t1, now, {}, alone);
      ghost var t2 := now;
      listing := [];
      if chance.fails {
        StopContinues(t0, t2, {}, alone);
        StopDump();
        return false, listing;
      }
      planned, listing := PlanDeletions();
      PlanContinues(t0, t2, listing, {}, alone);
      PlannedNight(t0, t2, listing, name);
    }

    /** The dump goes up and then its fingerprint; cut off, neither did or the dump alone. */
    method UploadBoth(chance: nat -> Chance) returns (ok: bool)
      requires Valid() && dumper.DumperResting? && HasFourDigitYear(clock)
      modifies this
      ensures Valid() && backupGauge == old(backupGauge) && Continues(old(now), now, {}, IsAlone(chance))
      ensures ok <==> !chance(0).fails && !chance(1).fails
      ensures ok ==>
                && now.dumper == Uploading(Stamp(old(clock)), 2)
                && now.dumps == BothUploaded(old(dumps), Stamp(old(clock)))
      ensures !ok ==>
                && now.dumper == DumperResting
                && now.dumps == if chance(0).fails then old(dumps)
                                else old(dumps) + {DumpObject(Stamp(old(clock)))}
    {
      hide Continues, OthersMove, Reaches, Stamp, Upcoming;
      ghost var t0 := now;
      NothingDone(t0, IsAlone(chance));
      StampContinues(t0, t0, {}, IsAlone(chance));
      StampTheDump();
      ok := UploadAfter(chance(0), t0, {}, IsAlone(chance));
      if ok {
        ok := UploadAfter(chance(1), t0, {}, IsAlone(chance));
      }
    }

    /** The next of the two objects goes up, or the run ends without it. */
    method UploadAfter(chance: Chance, ghost t0: State, ghost gone: set<string>, ghost alone: bool) returns (ok: bool)
      requires Valid() && now.dumper.Uploading? && now.dumper.done < 2 && Continues(t0, now, gone, alone)
      requires alone ==> chance.moves == []
      modifies this
      ensures Valid() && backupGauge == old(backupGauge) && Continues(t0, now, gone, alone)
      ensures ok <==> !chance.fails
      ensures ok ==>
                && now.dumps == old(dumps) + {ObjectsFor(old(now).dumper.name)[old(now).dumper.done]}
                && now.dumper == Uploading(old(now).dumper.name, old(now).dumper.done + 1)
      ensures !ok ==> now.dumps == old(dumps) && now.dumper == DumperResting
    {
      hide Continues, OthersMove, Reaches, Upcoming;
      ghost var t1 := now;
      Meanwhile(chance.moves);
      MovedOn(t0, t1, now, gone, alone);
      ghost var t2 := now;
      if chance.fails {
        StopContinues(t0, t2, gone, alone);
        StopDump();
        return false;
      }
      UploadContinues(t0, t2, gone, alone);
      UploadObject();
      return true;
    }

    /** The deletions of one night, every planned dump before any segment, and the gauge. */
    method PruneAll(name: string, taken: int, dumpChance: nat -> Chance, walChance: nat -> Chance,
                    ghost t0: State, ghost listing: seq<string>, ghost plan: Plan, ghost alone: bool)
      returns (r: Result<string, Stopped>)
      requires Valid() && Continues(t0, now, {}, alone)
      requires IsPlanned(t0, listing, plan, name) && plan.keep != [] && TakenAt(OldestKept(plan)).Some?
      requires now.dumper == DeletingDumps(TakenAt(OldestKept(plan)).value, ObjectsToDelete(listing, plan.delete))
      requires now.dumps == BothUploaded(t0.dumps, name)
      modifies this
      ensures Valid() && dumper.DumperResting? && Reaches(t0, now)
      ensures alone && IsAlone(dumpChance) && IsAlone(walChance) ==> HostIsAsItWas(t0, now)
      ensures r.Failure? ==> backupGauge == old(backupGauge) && NightWasCut(t0, now, name)
      ensures r.Success? ==> r.value == name && backupGauge == Some(Rounded(taken)) && NightWasDone(t0, now, name)
      ensures r.Failure? ==> exists point :: dumpChance(point).fails || walChance(point).fails
      ensures IsANight(t0.dumps, now.dumps, name)
    {
      hide Continues, OthersMove, Reaches, IsPlanned, NightWasCut, NightWasDone, IsANight, TakenAt, OldestKept,
        ObjectsToDelete, WalToDelete, ListsWal, DoListWal, HostIsAsItWas, Upcoming;
      ghost var t2 := now;
      var deleted := Prune(dumpChance);
      ghost var t3 := now;
      ContinuesOn(t0, t2, t3, alone, IsAlone(dumpChance));
      PrunedIsANight(t0, t3.dumps, listing, plan, name, deleted);
      if dumper.DumperResting? {
        CutAmongDumps(t0, t3, listing, plan, name, deleted, alone && IsAlone(dumpChance));
        return Failure(Stopped);
      }
      ghost var segments := PlanWal();
      ListContinues(t0, t3, segments, {}, alone && IsAlone(dumpChance));
      ghost var t4 := now;
      var stale := |dumper.walQueue|;
      var gone := PruneWal(walChance);
      CutAmongSegments(t0, t4, now, listing, plan, name, segments, gone, alone && IsAlone(dumpChance),
                       IsAlone(walChance));
      if gone < stale {
        return Failure(Stopped);
      }
      backupGauge := Some(Rounded(taken));
      return Success(name);
    }
  }

  // ---- What a night may have done to the bucket ----

  ghost function BothUploaded(dumps: set<string>, name: string): set<string> {
    dumps + {DumpObject(name), ManifestObject(name)}
  }

  /** A listing of the bucket with this run's two objects in it, and the plan made over it. */
  ghost predicate IsPlanned(s: State, listing: seq<string>, plan: Plan, name: string) {
    && Lists(listing, BothUploaded(s.dumps, name)) && PlanFor(listing, name) == Success(plan)
    && plan.keep != [] && TakenAt(OldestKept(plan)).Some?
  }

  /** Retention makes no plan over the bucket with this run's two objects in it. */
  ghost predicate IsRefused(dumps: set<string>, name: string) {
    exists listing :: Lists(listing, BothUploaded(dumps, name)) && PlanFor(listing, name).Failure?
  }

  /** That is so exactly when what was uploaded would go, or the newest name is no real instant. */
  lemma {:induction false} RefusedExactly(dumps: set<string>, name: string, listing: seq<string>, newest: string)
    requires Lists(listing, BothUploaded(dumps, name))
    requires RetentionLaws.IsNewest(BackupSet(BothUploaded(dumps, name)), newest)
    ensures IsRefused(dumps, name) <==>
            name !in KeptOf(BackupSet(BothUploaded(dumps, name))) || TakenAt(newest).None?
  {
    hide PlanFor, KeptOf, BackupSet, TakenAt;
    RetentionLaws.PlanRefusesExactly(listing, name, newest);
    if other :| Lists(other, BothUploaded(dumps, name)) && PlanFor(other, name).Failure? {
      RetentionLaws.PlanRefusesExactly(other, name, newest);
    }
  }

  /** The first `deleted` of the planned objects are gone. */
  ghost predicate DumpsWerePruned(s: State, dumps: set<string>, listing: seq<string>, plan: Plan, name: string,
                                  deleted: nat)
  {
    var objects := ObjectsToDelete(listing, plan.delete);
    deleted <= |objects| && dumps == BothUploaded(s.dumps, name) - Elements(objects[..deleted])
  }

  /** Of the segments listed at a moment of the run, the first `gone` of the stale ones have gone since, and before it
      none. */
  ghost predicate WalWasPruned(s: State, at: State, t: State, oldest: int, segments: seq<(string, int)>, gone: nat) {
    var stale := WalToDelete(segments, oldest);
    && Reaches(s, at) && Reaches(at, t) && PrunedFrom(s, at, {})
    && ListsWal(segments, at.wal) && gone <= |stale| && PrunedFrom(at, t, Elements(stale[..gone]))
  }

  /** Cut off before any deletion, with nothing uploaded, the dump alone or both; or among the deletions, of which
      none of a segment was made before the last of a dump. */
  ghost predicate NightWasCut(s: State, t: State, name: string) {
    || (PrunedFrom(s, t, {})
        && (t.dumps == s.dumps || t.dumps == s.dumps + {DumpObject(name)} || t.dumps == BothUploaded(s.dumps, name)))
    || exists listing, plan, deleted: nat ::
         && IsPlanned(s, listing, plan, name) && DumpsWerePruned(s, t.dumps, listing, plan, name, deleted)
         && (PrunedFrom(s, t, {})
             || (deleted == |ObjectsToDelete(listing, plan.delete)|
                 && exists at, segments, gone: nat ::
                      WalWasPruned(s, at, t, TakenAt(OldestKept(plan)).value, segments, gone)))
  }

  /** Exactly the plan's deletions, of dumps and of segments. */
  ghost predicate NightWasDone(s: State, t: State, name: string) {
    exists listing, plan, at, segments ::
      && IsPlanned(s, listing, plan, name)
      && DumpsWerePruned(s, t.dumps, listing, plan, name, |ObjectsToDelete(listing, plan.delete)|)
      && var oldest := TakenAt(OldestKept(plan)).value;
         WalWasPruned(s, at, t, oldest, segments, |WalToDelete(segments, oldest)|)
  }

  // ---- The run alone ----

  ghost predicate IsAlone(chance: nat -> Chance) {
    forall point :: chance(point).moves == []
  }

  /** The nightly run by itself changes nothing on the host and sends no segment. */
  ghost predicate HostIsAsItWas(s: State, t: State) {
    && t.staging == s.staging && t.copy == s.copy && t.shipper == s.shipper && t.gauge == s.gauge
    && t.offered == s.offered && t.uploads == s.uploads
  }

  /** A run got from one state to another, with these segments pruned by it and, if it was alone, the host as it was. */
  ghost predicate Continues(s: State, t: State, gone: set<string>, alone: bool) {
    Reaches(s, t) && PrunedFrom(s, t, gone) && (alone ==> HostIsAsItWas(s, t))
  }

  lemma {:induction false} NothingDone(s: State, alone: bool)
    ensures Continues(s, s, {}, alone)
  {
    ReachesItself(s);
  }

  lemma {:induction false} MovedOn(s: State, t: State, u: State, gone: set<string>, alone: bool)
    requires Continues(s, t, gone, alone) && OthersMove(t, u) && Reaches(t, u) && (alone ==> u == t)
    ensures Continues(s, u, gone, alone) && u.dumps == t.dumps && u.dumper == t.dumper
  {
    hide PrunedFrom, Reaches;
    ReachesOn(s, t, u);
    PrunedFromOn(s, t, u, gone, {});
    assert gone + {} == gone;
  }

  lemma {:induction false} ContinuesOn(s: State, t: State, u: State, first: bool, second: bool)
    requires Continues(s, t, {}, first) && Continues(t, u, {}, second)
    ensures Continues(s, u, {}, first && second)
  {
    hide PrunedFrom, Reaches;
    ReachesOn(s, t, u);
    PrunedFromOn(s, t, u, {}, {});
    var none: set<string> := {};
    assert none + none == none;
  }

  /** A step of the nightly run that deletes no segment. */
  lemma {:induction false} StepContinues(s: State, t: State, u: State, gone: set<string>, alone: bool)
    requires Continues(s, t, gone, alone) && Reaches(s, u) && IsQuiet(t, u)
    ensures Continues(s, u, gone, alone)
  {
    hide Reaches;
    forall o ensures ObjectPrunedFrom(s, u, gone, o) {
      assert ObjectPrunedFrom(s, t, gone, o);
    }
  }

  ghost predicate IsQuiet(t: State, u: State) {
    u.wal == t.wal && t.clock <= u.clock && HostIsAsItWas(t, u)
  }

  lemma {:induction false} StampContinues(s: State, t: State, gone: set<string>, alone: bool)
    requires Continues(s, t, gone, alone)
    ensures Continues(s, DoStampDump(t), gone, alone)
  {
    hide Reaches, PrunedFrom, Stamp, HasFourDigitYear;
    AfterStamp(s, t);
    StepContinues(s, t, DoStampDump(t), gone, alone);
  }

  lemma {:induction false} UploadContinues(s: State, t: State, gone: set<string>, alone: bool)
    requires Continues(s, t, gone, alone)
    ensures Continues(s, DoUploadDump(t), gone, alone)
  {
    hide Reaches, PrunedFrom, ObjectsFor;
    AfterUploadDump(s, t);
    StepContinues(s, t, DoUploadDump(t), gone, alone);
  }

  lemma {:induction false} PlanContinues(s: State, t: State, listing: seq<string>, gone: set<string>, alone: bool)
    requires Continues(s, t, gone, alone)
    ensures Continues(s, DoPlanRetention(t, listing), gone, alone)
  {
    hide Reaches, PrunedFrom, Planned, Lists;
    AfterPlan(s, t, listing);
    StepContinues(s, t, DoPlanRetention(t, listing), gone, alone);
  }

  lemma {:induction false} DeleteContinues(s: State, t: State, gone: set<string>, alone: bool)
    requires Continues(s, t, gone, alone)
    ensures Continues(s, DoDeleteDump(t), gone, alone)
  {
    hide Reaches, PrunedFrom;
    AfterDeleteDump(s, t);
    StepContinues(s, t, DoDeleteDump(t), gone, alone);
  }

  lemma {:induction false} ListContinues(s: State, t: State, segments: seq<(string, int)>, gone: set<string>,
                                         alone: bool)
    requires Continues(s, t, gone, alone)
    ensures Continues(s, DoListWal(t, segments), gone, alone)
  {
    hide Reaches, PrunedFrom, WalToDelete, ListsWal;
    AfterListWal(s, t, segments);
    StepContinues(s, t, DoListWal(t, segments), gone, alone);
  }

  lemma {:induction false} StopContinues(s: State, t: State, gone: set<string>, alone: bool)
    requires Continues(s, t, gone, alone)
    ensures Continues(s, t.(clock := t.clock + 1, dumper := DumperResting), gone, alone)
  {
    hide Reaches, PrunedFrom;
    AfterDumperStops(s, t);
    StepContinues(s, t, t.(clock := t.clock + 1, dumper := DumperResting), gone, alone);
  }

  /** A night of retention's, as its laws over any run of nights have it. */
  ghost predicate IsANight(before: set<string>, after: set<string>, name: string) {
    exists night :: MadeOf(before, after, name, night)
  }

  ghost predicate MadeOf(before: set<string>, after: set<string>, name: string, night: RetentionLaws.Night) {
    && RetentionLaws.IsNight(before, night) && night.name == name
    && night.uploaded <= {DumpObject(name), ManifestObject(name)}
    && after == before + night.uploaded - night.removed
  }

  lemma {:induction false} ListingExists(keys: set<string>) returns (order: seq<string>)
    ensures Elements(order) == keys
  {
    order := [];
    if keys != {} {
      var name :| name in keys;
      var rest := ListingExists(keys - {name});
      order := [name] + rest;
      assert Elements(order) == {name} + Elements(rest);
    }
  }

  lemma {:induction false} CutBeforePruning(s: State, t: State, name: string, alone: bool)
    requires Continues(s, t, {}, alone)
    requires t.dumps == s.dumps || t.dumps == s.dumps + {DumpObject(name)} || t.dumps == BothUploaded(s.dumps, name)
    ensures Reaches(s, t) && (alone ==> HostIsAsItWas(s, t))
    ensures NightWasCut(s, t, name) && IsANight(s.dumps, t.dumps, name)
  {
    hide PlanFor, ObjectsToDelete, DumpObject, ManifestObject, IsPlanned, PrunedFrom, Reaches, WalWasPruned,
      DumpsWerePruned, TakenAt, OldestKept;
    var order := ListingExists(t.dumps);
    var night := RetentionLaws.Night(name, t.dumps - s.dumps, order, {});
    assert s.dumps + (t.dumps - s.dumps) == t.dumps;
    assert MadeOf(s.dumps, t.dumps, name, night);
  }

  /** What planning leaves: the plan's deletions ahead, or the run over with nothing deleted. */
  lemma {:induction false} PlannedNight(s: State, t: State, listing: seq<string>, name: string)
    requires t.dumper == Uploading(name, 2) && t.dumps == BothUploaded(s.dumps, name) && Lists(listing, t.dumps)
    ensures var u := DoPlanRetention(t, listing);
            && u.dumps == t.dumps
            && (u.dumper.DeletingDumps? ==>
                  && PlanFor(listing, name).Success?
                  && var plan := PlanFor(listing, name).value;
                     && IsPlanned(s, listing, plan, name)
                     && u.dumper == DeletingDumps(
                          TakenAt(OldestKept(plan)).value, ObjectsToDelete(listing, plan.delete)))
            && (!u.dumper.DeletingDumps? ==> u.dumper == DumperResting)
  {
    hide PlanFor, ObjectsToDelete, TakenAt, Lists, OldestKept;
  }

  lemma {:induction false} OneDumpLess(s: State, before: set<string>, queue: seq<string>, deleted: nat)
    requires s.dumper.DeletingDumps? && deleted < |queue| && s.dumper.dumpQueue == queue[deleted..]
    requires s.dumps == before - Elements(queue[..deleted])
    ensures var t := DoDeleteDump(s);
            && t.dumps == before - Elements(queue[..deleted + 1])
            && t.dumper == DeletingDumps(s.dumper.oldest, queue[deleted + 1..])
  {
    assert Elements(queue[..deleted + 1]) == Elements(queue[..deleted]) + {queue[deleted]};
  }

  lemma {:induction false} OneSegmentLess(s: State, t: State, queue: seq<string>, deleted: nat, alone: bool)
    requires t.dumper.DeletingWal? && deleted < |queue| && t.dumper.walQueue == queue[deleted..]
    requires Continues(s, t, Elements(queue[..deleted]), alone)
    ensures var u := DoDeleteWal(t);
            && Continues(s, u, Elements(queue[..deleted + 1]), alone)
            && u.dumper == DeletingWal(t.dumper.oldest, queue[deleted + 1..]) && u.dumps == t.dumps
  {
    hide Reaches;
    AfterDeleteWal(s, t);
    var u, gone, more := DoDeleteWal(t), Elements(queue[..deleted]), Elements(queue[..deleted + 1]);
    assert more == gone + {queue[deleted]};
    forall o ensures ObjectPrunedFrom(s, u, more, o) {
      assert ObjectPrunedFrom(s, t, gone, o);
    }
  }

  lemma {:induction false} PrunedIsANight(s: State, dumps: set<string>, listing: seq<string>, plan: Plan, name: string,
                                          deleted: nat)
    requires IsPlanned(s, listing, plan, name) && DumpsWerePruned(s, dumps, listing, plan, name, deleted)
    ensures IsANight(s.dumps, dumps, name)
  {
    hide PlanFor, ObjectsToDelete, TakenAt, OldestKept, DumpObject, ManifestObject;
    var objects := ObjectsToDelete(listing, plan.delete);
    var night := RetentionLaws.Night(
      name, {DumpObject(name), ManifestObject(name)}, listing, Elements(objects[..deleted]));
    assert Elements(objects[..deleted]) <= Elements(objects);
    assert MadeOf(s.dumps, dumps, name, night);
  }

  lemma {:induction false} CutAmongDumps(s: State, t: State, listing: seq<string>, plan: Plan, name: string,
                                         deleted: nat, alone: bool)
    requires IsPlanned(s, listing, plan, name) && DumpsWerePruned(s, t.dumps, listing, plan, name, deleted)
    requires Continues(s, t, {}, alone)
    ensures NightWasCut(s, t, name) && Reaches(s, t) && (alone ==> HostIsAsItWas(s, t))
  {
    hide IsPlanned, DumpsWerePruned, TakenAt, OldestKept, PrunedFrom, WalWasPruned, Reaches;
  }

  lemma {:induction false} CutAmongSegments(s: State, at: State, t: State, listing: seq<string>, plan: Plan,
                                            name: string, segments: seq<(string, int)>, gone: nat, first: bool,
                                            second: bool)
    requires IsPlanned(s, listing, plan, name) && plan.keep != [] && TakenAt(OldestKept(plan)).Some?
    requires DumpsWerePruned(s, t.dumps, listing, plan, name, |ObjectsToDelete(listing, plan.delete)|)
    requires ListsWal(segments, at.wal) && gone <= |WalToDelete(segments, TakenAt(OldestKept(plan)).value)|
    requires Continues(s, at, {}, first)
    requires Continues(at, t, Elements(WalToDelete(segments, TakenAt(OldestKept(plan)).value)[..gone]), second)
    ensures NightWasCut(s, t, name) && Reaches(s, t) && (first && second ==> HostIsAsItWas(s, t))
    ensures gone == |WalToDelete(segments, TakenAt(OldestKept(plan)).value)| ==> NightWasDone(s, t, name)
  {
    hide IsPlanned, DumpsWerePruned, ObjectsToDelete, WalToDelete, PlanFor, Lists, PrunedFrom, Reaches, ListsWal,
      TakenAt, OldestKept;
    ReachesOn(s, at, t);
    assert WalWasPruned(s, at, t, TakenAt(OldestKept(plan)).value, segments, gone);
  }

  // ---- What a ship run may have done to the volume ----

  /** Sent since; and what had been copied to its end went up as it was, and has left the volume. */
  ghost predicate HasGone(s: State, t: State, name: string) {
    WasSent(s, t, name) && (HadEnded(s, name) && name in s.staging ==> HadEnded(t, name) && name !in t.staging)
  }

  /** Still in the volume; and as it was, if it had been copied to its end. */
  ghost predicate StillWaits(s: State, t: State, name: string) {
    && name in t.staging
    && (HadEnded(s, name) && name in s.staging ==> HadEnded(t, name) && t.staging[name] == s.staging[name])
  }

  /** The files before `shipped` have gone, the others still wait. */
  ghost predicate PartlyShipped(s: State, t: State, queue: seq<string>, shipped: nat)
    requires shipped <= |queue|
  {
    && (forall i :: 0 <= i < shipped ==> HasGone(s, t, queue[i]))
    && (forall i :: shipped <= i < |queue| ==> StillWaits(s, t, queue[i]))
  }

  lemma {:induction false} WaitsWhileListing(s: State, t: State, u: State)
    requires t == s.(clock := t.clock, shipper := t.shipper) && OnlyCopies(t, u)
    ensures forall name :: name in u.staging ==> StillWaits(s, u, name)
    ensures forall name :: name in s.staging ==> name in u.staging
    ensures forall later, shipper, name :: name in u.staging ==>
              StillWaits(s, u.(clock := later, shipper := shipper), name)
  {
    forall name | name in u.staging || name in s.staging
      ensures name in u.staging && StillWaits(s, u, name)
    {
      assert Undisturbed(t, u, name);
    }
  }

  lemma {:induction false} QueueCovers(s: State, t: State, queue: seq<string>, shipped: nat)
    requires shipped <= |queue| && PartlyShipped(s, t, queue, shipped)
    requires forall name :: name in s.staging && IsShippable(name) ==> name in queue
    ensures forall name :: name in s.staging && IsShippable(name) ==>
              HasGone(s, t, name) || (shipped < |queue| && StillWaits(s, t, name))
  {
    hide HasGone, StillWaits;
  }

  ghost predicate OthersStay(s: State, t: State, segment: string) {
    && t.dumps == s.dumps && t.gauge == s.gauge && s.clock <= t.clock
    && forall name :: name != segment ==> Undisturbed(s, t, name)
  }

  lemma {:induction false} OthersStayOn(s: State, t: State, u: State, segment: string)
    requires OthersStay(s, t, segment) && t.clock <= u.clock && u.dumps == t.dumps && u.gauge == t.gauge
    requires forall name :: name != segment ==> Undisturbed(t, u, name)
    ensures OthersStay(s, u, segment)
  {
    forall name | name != segment ensures Undisturbed(s, u, name) {
      assert Undisturbed(s, t, name) && Undisturbed(t, u, name);
    }
  }

  // The head of the queue: still to be packed, packed, sent, and gone.

  ghost predicate IsWaiting(s: State, t: State)
    requires CanPack(s)
  {
    var segment := s.shipper.queue[0];
    OthersStay(s, t, segment) && t.shipper == s.shipper && StillWaits(s, t, segment) && NotSent(s, t, segment)
  }

  ghost predicate IsPacked(s: State, t: State)
    requires CanPack(s)
  {
    var segment := s.shipper.queue[0];
    && OthersStay(s, t, segment) && StillWaits(s, t, segment) && NotSent(s, t, segment)
    && t.shipper.Draining? && t.shipper.stage.Packed? && t.shipper == s.shipper.(stage := t.shipper.stage)
    && (HadEnded(s, segment) ==> t.shipper.stage.content == Gzip(s.staging[segment]))
  }

  ghost predicate IsSent(s: State, t: State)
    requires CanPack(s)
  {
    var segment := s.shipper.queue[0];
    && OthersStay(s, t, segment) && StillWaits(s, t, segment)
    && t.shipper == s.shipper.(stage := Sent) && WasSent(s, t, segment)
  }

  ghost predicate NotSent(s: State, t: State, name: string) {
    && (name in t.uploads <==> name in s.uploads) && (name in s.uploads ==> t.uploads[name] == s.uploads[name])
    && (SegmentObject(name) in t.wal <==> SegmentObject(name) in s.wal)
    && (SegmentObject(name) in s.wal ==> t.wal[SegmentObject(name)] == s.wal[SegmentObject(name)])
  }

  /** Sent since; as it was, if it had been copied to its end. */
  ghost predicate WasSent(s: State, t: State, name: string) {
    && name in t.uploads && SegmentObject(name) in t.wal && s.clock <= t.wal[SegmentObject(name)].modifiedAt
    && (HadEnded(s, name) && name in s.staging ==>
          t.wal[SegmentObject(name)].content == Gpg(Gzip(s.staging[name])))
  }

  ghost predicate Shipped(s: State, t: State)
    requires CanPack(s)
  {
    && OthersStay(s, t, s.shipper.queue[0])
    && t.shipper == s.shipper.(queue := s.shipper.queue[1..])
    && HasGone(s, t, s.shipper.queue[0])
  }

  /** The run ended with the file in the volume, before it was sent or after. */
  ghost predicate NotShipped(s: State, t: State, sent: bool)
    requires CanPack(s)
  {
    var segment := s.shipper.queue[0];
    && OthersStay(s, t, segment) && t.shipper == ShipperResting && StillWaits(s, t, segment)
    && (if sent then WasSent(s, t, segment) else NotSent(s, t, segment))
  }

  lemma {:induction false} StillWaiting(s: State, t: State)
    requires CanPack(s) && OnlyCopies(s, t)
    ensures CanPack(t) && IsWaiting(s, t)
    ensures NotShipped(s, t.(clock := t.clock + 1, shipper := ShipperResting), false)
  {
    assert Undisturbed(s, t, s.shipper.queue[0]);
    StopLeavesOthers(s, t, false);
  }

  /** A run that ends leaves every file where it was. */
  lemma {:induction false} StopLeavesOthers(s: State, t: State, sent: bool)
    requires CanPack(s) && OthersStay(s, t, s.shipper.queue[0]) && StillWaits(s, t, s.shipper.queue[0])
    requires if sent then WasSent(s, t, s.shipper.queue[0]) else NotSent(s, t, s.shipper.queue[0])
    ensures NotShipped(s, t.(clock := t.clock + 1, shipper := ShipperResting), sent)
  {
    var u := t.(clock := t.clock + 1, shipper := ShipperResting);
    OthersStayOn(s, t, u, s.shipper.queue[0]);
  }

  lemma {:induction false} PackedNow(s: State, t: State)
    requires CanPack(s) && CanPack(t) && IsWaiting(s, t)
    ensures IsPacked(s, DoPackSegment(t))
  {
    OthersStayOn(s, t, DoPackSegment(t), s.shipper.queue[0]);
  }

  lemma {:induction false} StillPacked(s: State, t: State, u: State)
    requires CanPack(s) && IsPacked(s, t) && OnlyCopies(t, u)
    ensures IsPacked(s, u) && CanUpload(u)
    ensures NotShipped(s, u.(clock := u.clock + 1, shipper := ShipperResting), false)
  {
    OthersStayOn(s, t, u, s.shipper.queue[0]);
    assert Undisturbed(t, u, s.shipper.queue[0]);
    StopLeavesOthers(s, u, false);
  }

  lemma {:induction false} UploadingDisturbsOne(s: State, name: string)
    requires CanUpload(s) && name != s.shipper.queue[0]
    ensures Undisturbed(s, DoUploadSegment(s), name)
  {
    if SegmentObject(name) == SegmentObject(s.shipper.queue[0]) {
      SegmentObjectIsInjective(name, s.shipper.queue[0]);
    }
  }

  lemma {:induction false} SentNow(s: State, t: State)
    requires CanPack(s) && IsPacked(s, t) && CanUpload(t)
    ensures IsSent(s, DoUploadSegment(t))
  {
    forall name | name != s.shipper.queue[0] ensures Undisturbed(t, DoUploadSegment(t), name) {
      UploadingDisturbsOne(t, name);
    }
    OthersStayOn(s, t, DoUploadSegment(t), s.shipper.queue[0]);
  }

  lemma {:induction false} StillSent(s: State, t: State, u: State)
    requires CanPack(s) && IsSent(s, t) && OnlyCopies(t, u)
    ensures u.shipper.Draining? && u.shipper.queue != [] && u.shipper.stage.Sent?
    ensures Shipped(s, DoUnlinkSegment(u))
    ensures NotShipped(s, u.(clock := u.clock + 1, shipper := ShipperResting), true)
  {
    hide Shipped;
    OthersStayOn(s, t, u, s.shipper.queue[0]);
    assert Undisturbed(t, u, s.shipper.queue[0]);
    StopLeavesOthers(s, u, true);
    ShippedNow(s, u);
  }

  lemma {:induction false} ShippedNow(s: State, t: State)
    requires CanPack(s) && IsSent(s, t)
    ensures Shipped(s, DoUnlinkSegment(t))
  {
    OthersStayOn(s, t, DoUnlinkSegment(t), s.shipper.queue[0]);
  }

  lemma {:induction false} HeadCanBePacked(start: State, s: State, queue: seq<string>, shipped: nat)
    requires shipped < |queue| && PartlyShipped(start, s, queue, shipped)
    requires s.shipper.Draining? && s.shipper.queue == queue[shipped..] && s.shipper.stage.Waiting?
    ensures CanPack(s)
  {
    assert StillWaits(start, s, queue[shipped]);
  }

  lemma {:induction false} ShippedOneMore(start: State, s: State, t: State, queue: seq<string>, shipped: nat, ok: bool,
                                          sent: bool)
    requires shipped < |queue| && StrictlyAscending(queue) && PartlyShipped(start, s, queue, shipped)
    requires CanPack(s) && s.shipper.queue == queue[shipped..] && start.clock <= s.clock
    requires if ok then Shipped(s, t) else NotShipped(s, t, sent)
    ensures queue[shipped..][1..] == queue[shipped + 1..]
    ensures PartlyShipped(start, t, queue, if ok then shipped + 1 else shipped)
    ensures t.dumps == s.dumps && t.gauge == s.gauge && s.clock <= t.clock
    ensures t.shipper == if ok then s.shipper.(queue := queue[shipped + 1..]) else ShipperResting
  {
    hide HasGone, StillWaits, Undisturbed;
    assert s.shipper.queue[0] == queue[shipped];
    LessIsIrreflexive(queue[shipped]);
    forall i | 0 <= i < |queue| && i != shipped ensures Undisturbed(s, t, queue[i]) {
      assert queue[i] != queue[shipped];
    }
    forall i | 0 <= i < shipped ensures HasGone(start, t, queue[i]) {
      assert HasGone(start, s, queue[i]);
      GoneForGood(start, s, t, queue[i]);
    }
    forall i | shipped < i < |queue| ensures StillWaits(start, t, queue[i]) {
      assert StillWaits(start, s, queue[i]);
      WaitsOn(start, s, t, queue[i]);
    }
    assert StillWaits(start, s, queue[shipped]);
    HeadMovesOn(start, s, t, queue[shipped]);
  }

  lemma {:induction false} GoneForGood(start: State, s: State, t: State, name: string)
    requires HasGone(start, s, name) && Undisturbed(s, t, name)
    ensures HasGone(start, t, name)
  {
  }

  lemma {:induction false} WaitsOn(start: State, s: State, t: State, name: string)
    requires StillWaits(start, s, name) && Undisturbed(s, t, name)
    ensures StillWaits(start, t, name)
  {
  }

  lemma {:induction false} HeadMovesOn(start: State, s: State, t: State, name: string)
    requires StillWaits(start, s, name) && start.clock <= s.clock
    ensures HasGone(s, t, name) ==> HasGone(start, t, name)
    ensures StillWaits(s, t, name) ==> StillWaits(start, t, name)
  {
  }

  lemma {:induction false} GoneStaysGone(s: State, t: State, u: State)
    requires u.staging == t.staging && u.uploads == t.uploads && u.wal == t.wal && u.offered == t.offered
    ensures forall name :: HasGone(s, t, name) ==> HasGone(s, u, name)
    ensures forall name :: StillWaits(s, t, name) ==> StillWaits(s, u, name)
  {
  }

  /** What the shipper would take of the volume. */
  ghost function Shippable(s: State): set<string> {
    set name | name in s.staging && IsShippable(name)
  }

  lemma {:induction false} CountQueue(queue: seq<string>, waiting: set<string>)
    requires StrictlyAscending(queue) && forall name :: name in waiting <==> name in queue
    ensures |queue| == |waiting|
  {
    assert waiting == Elements(queue);
    AscendingAreAsMany(queue);
  }

  lemma {:induction false} AscendingAreAsMany(s: seq<string>)
    requires StrictlyAscending(s)
    ensures |Elements(s)| == |s|
  {
    if s != [] {
      AscendingAreAsMany(s[1..]);
      LessIsIrreflexive(s[0]);
      assert Elements(s) == {s[0]} + Elements(s[1..]);
      assert forall k :: 1 <= k < |s| ==> Less(s[0], s[k]);
      assert s[0] !in Elements(s[1..]);
    }
  }
}
