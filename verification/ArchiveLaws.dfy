// What the backup path promises, over every run of it.
module ArchiveLaws {
  import opened Wrappers
  import opened Text
  import opened Naming
  import opened Retention
  import opened Archive
  import opened ArchiveSteps

  // ---- Recovering ----

  /** What a recovery ends with: its dump still held; everything handed over in order from its start on, each file whole
      exactly when its copy had ended before gzip read it; nothing sent left out; and its start where the
      dump was taken, unless the segment before it has been sent again since. */
  ghost predicate IsWholeRecovery(s: State, r: Recovery)
    requires r.EndOfArchive?
  {
    && HoldsDump(s.dumps, r.dump)
    && r.start <= r.next <= |s.requests| && |r.replayed| == r.next - r.start
    && (forall i :: r.start <= i < r.next ==> IsHandedOver(s, s.requests[i], r.replayed[i - r.start]))
    && (forall i :: 0 <= i < |s.requests| ==> (s.requests[i] in s.uploads <==> i < r.next))
    && (forall i :: r.start <= i < r.next ==> TakenAt(r.dump).value * MICROSECONDS <= s.uploads[s.requests[i]])
    && (forall i :: 0 <= i < r.start ==> WentUpBefore(s.uploads[s.requests[i]], TakenAt(r.dump).value, r.since))
  }

  ghost predicate IsHandedOver(s: State, name: string, replay: Replay) {
    name in s.offered && (replay.bytes == s.offered[name].bytes <==> EndedBy(s.offered[name], replay.packedAt))
  }

  /** A recovery that is answered "absent" has been handed every segment from its start on that was ever sent, and
      what it was refused had never left the host. The segments asked for are all that Postgres ever offered, in
      order. */
  lemma {:induction false} RecoveryReplaysEverything(s0: State, events: seq<Event>)
    requires Starts(s0) && Run(s0, events).recovery.Replaying?
    requires Perform(Run(s0, events), FetchNext).recovery.EndOfArchive?
    ensures IsWholeRecovery(Run(s0, events), Perform(Run(s0, events), FetchNext).recovery)
    ensures StrictlyAscending(Run(s0, events).requests)
    ensures forall name :: name in Run(s0, events).requests <==> name in Run(s0, events).offered && IsSegmentName(name)
  {
    hide Run, Perform, NextIsHeld, IsWholeRecovery;
    var s := Run(s0, events);
    EveryReachableStateKeeps(s0, events);
    RequestsAreAll(s);
    EndMeansAbsent(s);
    AbsentIsTheEnd(s, Perform(s, FetchNext).recovery);
  }

  lemma {:induction false} RequestsAreAll(s: State)
    requires Inv(s)
    ensures StrictlyAscending(s.requests)
    ensures forall name :: name in s.requests <==> name in s.offered && IsSegmentName(name)
  {
    hide CopyInv, StagingInv, PrefixInv, BucketInv, CoverageInv, GaugeInv, ShipperInv, DumperInv, RecoveryInv, ClockInv;
  }

  lemma {:induction false} EndMeansAbsent(s: State)
    requires s.recovery.Replaying? && Perform(s, FetchNext).recovery.EndOfArchive?
    ensures !NextIsHeld(s)
    ensures var r := s.recovery;
            Perform(s, FetchNext).recovery == EndOfArchive(r.dump, r.since, r.start, r.next, r.replayed)
  {
  }

  lemma {:induction false} AbsentIsTheEnd(s: State, r: Recovery)
    requires Inv(s) && s.recovery.Replaying? && !NextIsHeld(s)
    requires r == EndOfArchive(
                    s.recovery.dump, s.recovery.since, s.recovery.start, s.recovery.next, s.recovery.replayed)
    ensures IsWholeRecovery(s, r)
  {
    hide CopyInv, StagingInv, PrefixInv, BucketInv, CoverageInv, GaugeInv, ShipperInv, DumperInv, RequestsInv, ClockInv,
      NextIsHeld, IsReplayOf, TakenAt, WentUpBefore;
    if r.next < |s.requests| {
      NextIsHeldWhenSent(s);
      forall i | r.next <= i < |s.requests| ensures s.requests[i] !in s.uploads {
        LaterIsNotSent(s, r.next, i);
      }
    }
    forall i | r.start <= i < r.next ensures IsHandedOver(s, s.requests[i], r.replayed[i - r.start]) {
      ReplayIsHandedOver(s, s.requests[i], r.replayed[i - r.start]);
    }
  }

  lemma {:induction false} ReplayIsHandedOver(s: State, name: string, replay: Replay)
    requires IsReplayOf(replay, name, s.offered)
    ensures IsHandedOver(s, name, replay)
  {
  }

  /** Every dump in the bucket can be recovered from: it has a place to start. */
  lemma {:induction false} RecoveryCanStart(s0: State, events: seq<Event>, dump: string) returns (start: nat)
    requires Starts(s0) && HoldsDump(Run(s0, events).dumps, dump)
    ensures var s := Run(s0, events);
            Perform(s, StartRecovery(dump, start)).recovery == Replaying(dump, s.clock, start, start, [])
  {
    hide Run, CopyInv, StagingInv, PrefixInv, BucketInv, CoverageInv, GaugeInv, ShipperInv, DumperInv, RequestsInv,
      RecoveryInv, ClockInv, Starts;
    EveryReachableStateKeeps(s0, events);
    start := StartExists(Run(s0, events), dump);
  }

  /** While a dump is in the bucket, a recovery from it is never refused a segment that was sent. */
  lemma {:induction false} RecoveryIsNeverCutShort(s0: State, events: seq<Event>)
    requires Starts(s0) && Run(s0, events).recovery.Replaying?
    ensures var s := Run(s0, events);
            && HoldsDump(s.dumps, s.recovery.dump)
            && (s.recovery.next < |s.requests| && s.requests[s.recovery.next] in s.uploads ==>
                  DoFetchNext(s).recovery.Replaying? && DoFetchNext(s).recovery.next == s.recovery.next + 1)
  {
    EveryReachableStateKeeps(s0, events);
    SentIsAnswered(Run(s0, events));
  }

  lemma {:induction false} SentIsAnswered(s: State)
    requires Inv(s) && s.recovery.Replaying?
    ensures HoldsDump(s.dumps, s.recovery.dump)
    ensures s.recovery.next < |s.requests| && s.requests[s.recovery.next] in s.uploads ==>
              DoFetchNext(s).recovery.Replaying? && DoFetchNext(s).recovery.next == s.recovery.next + 1
  {
    hide CopyInv, StagingInv, PrefixInv, BucketInv, CoverageInv, GaugeInv, ShipperInv, DumperInv, RequestsInv, ClockInv;
    if s.recovery.next < |s.requests| {
      NextIsHeldWhenSent(s);
    }
  }

  /** Pruning never reaches a segment within a day before any dump in the bucket, nor the newest ever sent, however
      many nights ran and wherever each stopped. */
  lemma {:induction false} PrunedIsNeverNeeded(s0: State, events: seq<Event>, segment: string)
    requires Starts(s0) && IsPruned(Run(s0, events).wal, Run(s0, events).uploads, segment)
    ensures var s := Run(s0, events);
            && (forall dump :: HoldsDump(s.dumps, dump) ==>
                  s.uploads[segment] < (TakenAt(dump).value - WAL_RETENTION_MARGIN_SECONDS) * MICROSECONDS)
            && exists newer :: newer in s.uploads && Less(segment, newer)
  {
    var s := Run(s0, events);
    EveryReachableStateKeeps(s0, events);
    assert HasNewer(s.uploads, segment);
    forall dump | HoldsDump(s.dumps, dump)
      ensures s.uploads[segment] < (TakenAt(dump).value - WAL_RETENTION_MARGIN_SECONDS) * MICROSECONDS
    {
      assert PrunedBefore(s.wal, s.uploads, TakenAt(dump).value);
    }
  }

  // ---- Losing ----

  /** Postgres was told that the file is archived, and it is neither in the volume nor was it read whole for the
      bucket. */
  ghost predicate IsLost(s: State, name: string) {
    && name in s.offered && s.offered[name].ended.Some?
    && name !in s.staging && name in s.packed && !EndedBy(s.offered[name], s.packed[name])
  }

  /** A shippable file once offered is in the volume, in the bucket or pruned, and what has gone up is a prefix in name
      order. In the volume it is whole once its copy has ended; in the bucket, exactly when gzip read it after that. */
  lemma {:induction false} EveryFileIsAccountedFor(s0: State, events: seq<Event>, name: string)
    requires Starts(s0) && name in Run(s0, events).offered && IsShippable(name)
    ensures var s, o := Run(s0, events), SegmentObject(name);
            && (name in s.staging || o in s.wal || IsPruned(s.wal, s.uploads, name))
            && (name in s.staging && s.offered[name].ended.Some? ==> s.staging[name] == Plain(s.offered[name].bytes))
            && (name in s.packed <==> name in s.uploads)
            && (name in s.packed && o in s.wal ==>
                  (Decoded(s.wal[o].content) == Some(s.offered[name].bytes) <==>
                   EndedBy(s.offered[name], s.packed[name])))
            && (name in s.uploads ==>
                  forall early :: early in s.offered && IsShippable(early) && Less(early, name) ==> early in s.uploads)
  {
    EveryReachableStateKeeps(s0, events);
    KeptWhereItIs(Run(s0, events), name);
  }

  lemma {:induction false} KeptWhereItIs(s: State, name: string)
    requires Inv(s) && name in s.offered && IsShippable(name)
    ensures var o := SegmentObject(name);
            && (name in s.staging || o in s.wal || IsPruned(s.wal, s.uploads, name))
            && (name in s.staging && s.offered[name].ended.Some? ==> s.staging[name] == Plain(s.offered[name].bytes))
            && (name in s.packed <==> name in s.uploads)
            && (name in s.packed && o in s.wal ==>
                  (Decoded(s.wal[o].content) == Some(s.offered[name].bytes) <==>
                   EndedBy(s.offered[name], s.packed[name])))
            && (name in s.uploads ==>
                  forall early :: early in s.offered && IsShippable(early) && Less(early, name) ==> early in s.uploads)
  {
    hide CopyInv, CoverageInv, GaugeInv, ShipperInv, DumperInv, RequestsInv, RecoveryInv, ClockInv;
  }

  ghost predicate HeadIsStaged(s: State) {
    s.shipper.Draining? && s.shipper.queue != [] ==> s.shipper.queue[0] in s.staging
  }

  predicate IsOtherStep(event: Event) {
    || event.StampDump? || event.UploadDump? || event.PlanRetention? || event.DeleteDump? || event.ListWal?
    || event.DeleteWal? || event.StartRecovery? || event.FetchNext?
  }

  ghost predicate KeepsFiles(s: State, t: State) {
    && t.staging == s.staging && t.copy == s.copy && t.shipper == s.shipper && t.offered == s.offered
    && t.requests == s.requests && t.uploads == s.uploads && t.packed == s.packed
  }

  /** The nightly run and a recovery leave the copied files, and what is known of them, alone. */
  lemma {:induction false} OtherStepsKeepFiles(s: State, event: Event)
    requires IsOtherStep(event)
    ensures KeepsFiles(s, Perform(s, event))
  {
    hide KeepsFiles, DoStampDump, DoUploadDump, DoPlanRetention, DoDeleteDump, DoListWal, DoDeleteWal, DoStartRecovery,
      DoFetchNext;
    match event
    case PlanRetention(listing) => PlanKeepsFiles(s, listing);
    case ListWal(segments) => ListingKeepsFiles(s, segments);
    case StartRecovery(dump, start) => StartKeepsFiles(s, dump, start);
    case FetchNext => FetchKeepsFiles(s);
    case DeleteDump => DeletionKeepsFiles(s);
    case _ => UploadingKeepsFiles(s);
  }

  lemma {:induction false} UploadingKeepsFiles(s: State)
    ensures KeepsFiles(s, DoStampDump(s)) && KeepsFiles(s, DoUploadDump(s)) && KeepsFiles(s, DoDeleteWal(s))
  {
    hide Stamp, HasFourDigitYear, ObjectsFor;
  }

  lemma {:induction false} StartKeepsFiles(s: State, dump: string, start: nat)
    ensures KeepsFiles(s, DoStartRecovery(s, dump, start))
  {
    hide StartsAt, HoldsDump, TakenAt;
  }

  lemma {:induction false} PlanKeepsFiles(s: State, listing: seq<string>)
    ensures KeepsFiles(s, DoPlanRetention(s, listing))
  {
    hide Planned, Lists;
  }

  lemma {:induction false} FetchKeepsFiles(s: State)
    ensures KeepsFiles(s, DoFetchNext(s))
  {
    hide Fetched;
  }

  lemma {:induction false} DeletionKeepsFiles(s: State)
    ensures KeepsFiles(s, DoDeleteDump(s))
  {
  }

  lemma {:induction false} ListingKeepsFiles(s: State, segments: seq<(string, int)>)
    ensures KeepsFiles(s, DoListWal(s, segments))
  {
    hide WalToDelete, ListsWal;
  }

  lemma {:induction false} EndedIsNotBegun(s: State, name: string)
    requires name in s.offered && s.offered[name].ended.Some?
    ensures forall bytes :: !CanBegin(s, name, bytes)
  {
  }

  /** No step brings a lost file back. */
  lemma {:induction false} LostStaysLost(s: State, event: Event, name: string)
    requires CopyInv(s.copy, s.staging, s.offered) && HeadIsStaged(s) && IsLost(s, name)
    ensures IsLost(Perform(s, event), name) && Perform(s, event).offered[name] == s.offered[name]
  {
    hide PlanFor, OldestKept, ObjectsToDelete, WalToDelete, HoldsDump, StartsAt, Decoded, TakenAt, Stamp, IsShippable,
      ObjectsFor, Ascending, Filter, Rounded, HasFourDigitYear, CanBegin;
    hide DoStampDump, DoUploadDump, DoPlanRetention, DoDeleteDump, DoListWal, DoDeleteWal, DoStartRecovery, DoFetchNext;
    EndedIsNotBegun(s, name);
    if IsOtherStep(event) {
      OtherStepsKeepFiles(s, event);
    }
  }

  /** Nor does any run, and the bucket never holds it. */
  lemma {:induction false} LostForEver(s0: State, events: seq<Event>, more: seq<Event>, name: string)
    requires Starts(s0) && IsLost(Run(s0, events), name)
    ensures var s, t, o := Run(s0, events), Run(s0, events + more), SegmentObject(name);
            && IsLost(t, name) && t.offered[name] == s.offered[name]
            && (o in t.wal ==> Decoded(t.wal[o].content) != Some(t.offered[name].bytes))
    decreases |more|
  {
    hide Perform, IsLost, Decoded, HoldsDump;
    if more != [] {
      var most := more[..|more| - 1];
      LostForEver(s0, events, most, name);
      assert (events + more)[..|events + more| - 1] == events + most;
      EveryReachableStateKeeps(s0, events + most);
      LostStaysLost(Run(s0, events + most), more[|more| - 1], name);
    } else {
      assert events + more == events;
    }
    EveryReachableStateKeeps(s0, events + more);
    LostIsNotHeld(Run(s0, events + more), name);
  }

  lemma {:induction false} LostIsNotHeld(s: State, name: string)
    requires Inv(s) && IsLost(s, name)
    ensures SegmentObject(name) in s.wal ==>
              Decoded(s.wal[SegmentObject(name)].content) != Some(s.offered[name].bytes)
  {
    hide CopyInv, PrefixInv, CoverageInv, GaugeInv, ShipperInv, DumperInv, RequestsInv, RecoveryInv, ClockInv;
  }

  /** The unlinking that takes a file away which gzip read before its copy ended, or the end of a copy into a file that
      has been unlinked. */
  ghost predicate Loses(s: State, event: Event, name: string) {
    || (event.UnlinkSegment? && s.shipper.Draining? && s.shipper.queue != [] && s.shipper.stage.Sent?
        && s.shipper.queue[0] == name && name in s.offered && s.offered[name].ended.Some?
        && name in s.packed && !EndedBy(s.offered[name], s.packed[name]))
    || (event.EndCopy? && s.copy.Copying? && s.copy.name == name && name !in s.staging)
  }

  /** A file is lost by such a step and by no other. */
  lemma {:induction false} LostByTheseSteps(s: State, event: Event, name: string)
    requires Inv(s) && IsShippable(name) && !IsLost(s, name)
    ensures IsLost(Perform(s, event), name) <==> Loses(s, event, name)
  {
    hide CoverageInv, GaugeInv, DumperInv, RequestsInv, RecoveryInv, IsLost, Loses, Perform;
    assert UploadsArePast(s.packed, s.clock);
    LostOrNot(s, event, name);
  }

  lemma {:induction false} LostOrNot(s: State, event: Event, name: string)
    requires CopyInv(s.copy, s.staging, s.offered) && StagingInv(s.staging, s.offered, s.uploads)
    requires HeadIsStaged(s) && UploadsArePast(s.packed, s.clock) && s.packed.Keys == s.uploads.Keys
    requires IsShippable(name) && !IsLost(s, name)
    ensures IsLost(Perform(s, event), name) <==> Loses(s, event, name)
  {
    hide IsShippable, Ascending, Filter, Rounded, IsStagedCopy;
    hide DoStampDump, DoUploadDump, DoPlanRetention, DoDeleteDump, DoListWal, DoDeleteWal, DoStartRecovery, DoFetchNext;
    if IsOtherStep(event) {
      OtherStepsKeepFiles(s, event);
    }
  }

  // ---- A listing during a copy ----

  lemma {:induction false} RunOne(s0: State, events: seq<Event>, event: Event)
    ensures Run(s0, events + [event]) == Perform(Run(s0, events), event)
  {
    assert (events + [event])[..|events|] == events;
  }

  lemma {:induction false} RunThree(s: State, a: Event, b: Event, c: Event)
    ensures Run(s, [a, b, c]) == Perform(Perform(Perform(s, a), b), c)
  {
    hide Perform;
    RunOne(s, [], a);
    RunOne(s, [a], b);
    RunOne(s, [a, b], c);
    assert [] + [a] == [a] && [a] + [b] == [a, b] && [a, b] + [c] == [a, b, c];
  }

  lemma {:induction false} RunFive(s: State, a: Event, b: Event, c: Event, d: Event, e: Event)
    ensures Run(s, [a, b, c, d, e]) == Perform(Perform(Perform(Perform(Perform(s, a), b), c), d), e)
  {
    hide Perform;
    hide Run;
    RunThree(s, a, b, c);
    RunOne(s, [a, b, c], d);
    RunOne(s, [a, b, c, d], e);
    assert [a, b, c] + [d] == [a, b, c, d] && [a, b, c, d] + [e] == [a, b, c, d, e];
  }

  lemma {:induction false} OnlyIsQueued(queue: seq<string>, name: string)
    requires StrictlyAscending(queue) && forall other :: other in queue <==> other == name
    ensures queue == [name]
  {
    assert name in queue;
    assert |queue| > 1 ==> Less(queue[0], queue[1]);
    forall i | 0 <= i < |queue| ensures queue[i] == name {
      assert queue[i] in queue;
    }
    LessIsIrreflexive(name);
  }

  ghost predicate OnlyStaged(s: State, name: string) {
    name in s.staging && IsShippable(name) && forall other :: other in s.staging && IsShippable(other) ==> other == name
  }

  /** What a listing finds half copied is compressed, sent and unlinked under the copy, and the copy ends none the
      wiser. */
  lemma {:induction false} TornCopyIsLost(s: State, order: seq<string>)
    requires CopyInv(s.copy, s.staging, s.offered) && s.copy.Copying? && s.shipper.ClockRead?
    requires OnlyStaged(s, s.copy.name) && Lists(order, s.staging.Keys)
    ensures var t := Run(s, [ListStaging(order), PackSegment, UploadSegment, UnlinkSegment, EndCopy]);
            IsLost(t, s.copy.name) && t.offered[s.copy.name].bytes == s.offered[s.copy.name].bytes
  {
    hide Perform, IsLost, Lists, OnlyStaged, Run, CopyInv;
    RunFive(s, ListStaging(order), PackSegment, UploadSegment, UnlinkSegment, EndCopy);
    CopiedIsOffered(s);
    TornIsQueued(s, order, Perform(s, ListStaging(order)));
    TornIsSent(Perform(s, ListStaging(order)), s.copy.name);
  }

  lemma {:induction false} CopiedIsOffered(s: State)
    requires CopyInv(s.copy, s.staging, s.offered) && s.copy.Copying?
    ensures s.copy.name in s.offered
  {
  }

  lemma {:induction false} TornIsQueued(s: State, order: seq<string>, t: State)
    requires s.shipper.ClockRead? && s.copy.Copying? && t == Perform(s, ListStaging(order))
    requires OnlyStaged(s, s.copy.name) && Lists(order, s.staging.Keys)
    ensures t == s.(clock := s.clock + 1, shipper := Draining(s.shipper.readAt, s.clock, [s.copy.name], Waiting))
    ensures s.copy.name in s.staging
  {
    hide IsShippable, Ascending, Filter, Lists, StrictlyAscending;
    StagedSegments(order, s.staging.Keys);
    OnlyIsQueued(Ascending(Filter(order, name => IsShippable(name))), s.copy.name);
  }

  lemma {:induction false} TornIsSent(s: State, name: string)
    requires s.copy.Copying? && s.copy.name == name && name in s.offered && name in s.staging
    requires s.shipper.Draining? && s.shipper.queue == [name] && s.shipper.stage == Waiting
    ensures var t := Perform(Perform(Perform(Perform(s, PackSegment), UploadSegment), UnlinkSegment), EndCopy);
            IsLost(t, name) && t.offered[name].bytes == s.offered[name].bytes
  {
    var packed := DoPackSegment(s);
    var sent := DoUploadSegment(packed);
    assert sent.packed[name] == s.clock && sent.staging == s.staging && sent.clock == s.clock + 2;
    var gone := DoUnlinkSegment(sent);
    assert gone.packed == sent.packed && gone.staging == s.staging - {name} && gone.clock == s.clock + 3;
    assert gone.copy == s.copy && gone.offered == s.offered;
  }

  ghost function Empty(clock: int): State {
    State(clock, map[], NoCopy, map[], {}, None, ShipperResting, DumperResting, NoRecovery,
      map[], [], map[], map[], 0, 0)
  }

  const SEGMENT := "000000010000000000000003"

  /** So it goes on a host that starts empty, and nothing that happens afterwards mends it. */
  lemma {:induction false} SegmentCanBeLost(more: seq<Event>)
    ensures var events := [BeginCopy(SEGMENT, "ab"), ReadClock]
                          + [ListStaging([SEGMENT]), PackSegment, UploadSegment, UnlinkSegment, EndCopy];
            var t := Run(Empty(0), events + more);
            && IsLost(t, SEGMENT) && t.offered[SEGMENT].bytes == "ab"
            && (SegmentObject(SEGMENT) in t.wal ==> Decoded(t.wal[SegmentObject(SEGMENT)].content) != Some("ab"))
  {
    hide Run, Perform, IsLost, Decoded, OnlyStaged, Lists, CopyInv, Inv, Starts;
    var first := [BeginCopy(SEGMENT, "ab"), ReadClock];
    var second := [ListStaging([SEGMENT]), PackSegment, UploadSegment, UnlinkSegment, EndCopy];
    var begun := Perform(Perform(Empty(0), BeginCopy(SEGMENT, "ab")), ReadClock);
    RunTwo(Empty(0), first[0], first[1]);
    EmptyStarts(0);
    HalfCopied();
    RunOfRun(Empty(0), first, second);
    TornCopyIsLost(begun, [SEGMENT]);
    LostForEver(Empty(0), first + second, more, SEGMENT);
  }

  lemma {:induction false} RunTwo(s: State, a: Event, b: Event)
    ensures Run(s, [a, b]) == Perform(Perform(s, a), b)
  {
    hide Perform;
    RunOne(s, [], a);
    RunOne(s, [a], b);
    assert [] + [a] == [a] && [a] + [b] == [a, b];
  }

  lemma {:induction false} SegmentIsShippable()
    ensures IsShippable(SEGMENT)
  {
    SegmentsAreShippable(SEGMENT);
  }

  lemma {:induction false} EmptyStarts(clock: int)
    ensures Starts(Empty(clock))
  {
    hide TakenAt;
  }

  lemma {:induction false} HalfCopied()
    ensures var s := Perform(Perform(Empty(0), BeginCopy(SEGMENT, "ab")), ReadClock);
            && s.copy == Copying(SEGMENT, 0) && s.shipper == ClockRead(1) && s.staging == map[SEGMENT := Plain("")]
            && s.offered == map[SEGMENT := Offer("ab", 0, None)]
            && OnlyStaged(s, SEGMENT) && Lists([SEGMENT], s.staging.Keys) && CopyInv(s.copy, s.staging, s.offered)
  {
    hide IsShippable, IsSegmentName, HoldsDump;
    SegmentIsShippable();
    var s := DoBeginCopy(Empty(0), SEGMENT, "ab");
    assert s.copy == Copying(SEGMENT, 0) && s.offered == map[SEGMENT := Offer("ab", 0, None)] && s.clock == 1;
    assert s.staging == map[SEGMENT := Plain("")];
    assert "ab"[..0] == "";
  }

  // ---- Listings that find no copy unfinished ----

  /** What the shipper would take is whole, however much is skipped. */
  ghost predicate IsSettled(s: State) {
    forall name :: name in s.staging && IsShippable(name) ==> name in s.offered && s.offered[name].ended.Some?
  }

  ghost predicate ListsSettled(s: State, events: seq<Event>) {
    forall i :: 0 <= i < |events| && events[i].ListStaging? ==> IsSettled(Run(s, events[..i]))
  }

  /** If no listing finds a copy unfinished, nothing is ever lost, and every object is the whole file. */
  lemma {:induction false} SettledListingsLoseNothing(s0: State, events: seq<Event>, name: string)
    requires Starts(s0) && ListsSettled(s0, events)
    ensures var s, o := Run(s0, events), SegmentObject(name);
            && !IsLost(s, name)
            && (name in s.uploads && o in s.wal ==>
                  name in s.offered && Decoded(s.wal[o].content) == Some(s.offered[name].bytes))
  {
    SettledRunSendsWhole(s0, events);
    EveryReachableStateKeeps(s0, events);
    if name in Run(s0, events).uploads {
      SentNamesAreOffered(Run(s0, events), name);
      KeptWhereItIs(Run(s0, events), name);
    }
  }

  lemma {:induction false} SentNamesAreOffered(s: State, name: string)
    requires StagingInv(s.staging, s.offered, s.uploads) && name in s.uploads
    ensures name in s.offered && IsShippable(name)
  {
  }

  ghost predicate SendsWhole(s: State) {
    && (forall name :: name in s.packed ==> name in s.offered && EndedBy(s.offered[name], s.packed[name]))
    && (s.shipper.Draining? ==>
          forall name :: name in s.shipper.queue ==> name in s.offered && s.offered[name].ended.Some?)
    && (s.shipper.Draining? && s.shipper.stage.Packed? && s.shipper.queue != [] ==>
          s.shipper.queue[0] in s.offered && EndedBy(s.offered[s.shipper.queue[0]], s.shipper.stage.at))
  }

  lemma {:induction false} SettledRunSendsWhole(s0: State, events: seq<Event>)
    requires Starts(s0) && ListsSettled(s0, events)
    ensures SendsWhole(Run(s0, events))
  {
    hide Perform, SendsWhole, IsSettled, Inv;
    if events == [] {
      StartSendsWhole(s0);
    } else {
      var most, event := events[..|events| - 1], events[|events| - 1];
      assert forall i :: 0 <= i < |most| ==> most[..i] == events[..i];
      SettledRunSendsWhole(s0, most);
      EveryReachableStateKeeps(s0, most);
      SendsWholeOn(Run(s0, most), event);
    }
  }

  lemma {:induction false} StartSendsWhole(s: State)
    requires Starts(s)
    ensures SendsWhole(s)
  {
  }

  lemma {:induction false} SendsWholeOn(s: State, event: Event)
    requires Inv(s) && SendsWhole(s) && (event.ListStaging? ==> IsSettled(s))
    ensures SendsWhole(Perform(s, event))
  {
    hide StagingInv, PrefixInv, BucketInv, CoverageInv, GaugeInv, ShipperInv, DumperInv, RequestsInv, RecoveryInv,
      UploadsArePast, RecoveryIsPast, DumpsArePast, PrunedBefore, DumperIsPast, ShipperIsPast;
    hide DoListStaging, DoStampDump, DoUploadDump, DoPlanRetention, DoDeleteDump, DoListWal, DoDeleteWal,
      DoStartRecovery, DoFetchNext, DoBeginCopy, DoCopyMore, DoEndCopy, Rounded;
    if IsOtherStep(event) {
      OtherStepsKeepFiles(s, event);
    } else if event.ListStaging? {
      ListsWhole(s, event.order);
    }
    CopiesKeepWhole(s, event);
  }

  lemma {:induction false} CopiesKeepWhole(s: State, event: Event)
    requires CopyInv(s.copy, s.staging, s.offered) && SendsWhole(s)
    ensures event.BeginCopy? ==> SendsWhole(DoBeginCopy(s, event.name, event.bytes))
    ensures event.CopyMore? ==> SendsWhole(DoCopyMore(s, event.upTo))
    ensures event.EndCopy? ==> SendsWhole(DoEndCopy(s))
  {
    hide IsSegmentName, MayBegin, IsShippable;
  }

  lemma {:induction false} ListsWhole(s: State, order: seq<string>)
    requires SendsWhole(s) && IsSettled(s)
    ensures SendsWhole(DoListStaging(s, order))
  {
    if s.shipper.ClockRead? && Lists(order, s.staging.Keys) {
      StagedSegments(order, s.staging.Keys);
    }
  }

  // ---- Recovering after such a run ----

  /** Every file handed over had been read whole. */
  ghost predicate ReplaysWhole(s: State) {
    s.recovery.Replaying? ==>
      && s.recovery.start <= s.recovery.next <= |s.requests|
      && |s.recovery.replayed| == s.recovery.next - s.recovery.start
      && forall k :: 0 <= k < |s.recovery.replayed| ==> WasWhole(s.offered, s.requests[s.recovery.start + k],
                                                                 s.recovery.replayed[k])
  }

  ghost predicate WasWhole(offered: map<string, Offer>, name: string, replay: Replay) {
    name in offered && EndedBy(offered[name], replay.packedAt)
  }

  /** If no listing finds a copy unfinished, a recovery that is told "absent" has been handed every file byte for
      byte. */
  lemma {:induction false} SettledRecoveryIsWhole(s0: State, events: seq<Event>)
    requires Starts(s0) && ListsSettled(s0, events) && Run(s0, events).recovery.Replaying?
    requires Perform(Run(s0, events), FetchNext).recovery.EndOfArchive?
    ensures var s, r := Run(s0, events), Perform(Run(s0, events), FetchNext).recovery;
            && r.start <= r.next <= |s.requests| && |r.replayed| == r.next - r.start
            && (forall i :: 0 <= i < |s.requests| ==> (s.requests[i] in s.uploads <==> i < r.next))
            && forall i :: r.start <= i < r.next ==>
                 s.requests[i] in s.offered && r.replayed[i - r.start].bytes == s.offered[s.requests[i]].bytes
  {
    hide Run, Perform, Inv, ListsSettled, Starts, IsWholeRecovery, ReplaysWhole;
    var s := Run(s0, events);
    RecoveryReplaysEverything(s0, events);
    SettledRunReplaysWhole(s0, events);
    EndMeansAbsent(s);
    WholeReplays(s, Perform(s, FetchNext).recovery);
  }

  lemma {:induction false} WholeReplays(s: State, r: Recovery)
    requires s.recovery.Replaying? && ReplaysWhole(s) && r.EndOfArchive? && IsWholeRecovery(s, r)
    requires r == EndOfArchive(
                    s.recovery.dump, s.recovery.since, s.recovery.start, s.recovery.next, s.recovery.replayed)
    ensures r.start <= r.next <= |s.requests| && |r.replayed| == r.next - r.start
    ensures forall i :: 0 <= i < |s.requests| ==> (s.requests[i] in s.uploads <==> i < r.next)
    ensures forall i :: r.start <= i < r.next ==>
              s.requests[i] in s.offered && r.replayed[i - r.start].bytes == s.offered[s.requests[i]].bytes
  {
    hide HoldsDump, TakenAt, WentUpBefore, IsHandedOver, WasWhole;
    forall i | r.start <= i < r.next
      ensures s.requests[i] in s.offered && r.replayed[i - r.start].bytes == s.offered[s.requests[i]].bytes
    {
      assert WasWhole(s.offered, s.requests[r.start + (i - r.start)], r.replayed[i - r.start]);
      HandedOverWhole(s, s.requests[i], r.replayed[i - r.start]);
    }
  }

  lemma {:induction false} HandedOverWhole(s: State, name: string, replay: Replay)
    requires IsHandedOver(s, name, replay) && WasWhole(s.offered, name, replay)
    ensures name in s.offered && replay.bytes == s.offered[name].bytes
  {
  }

  lemma {:induction false} SettledRunReplaysWhole(s0: State, events: seq<Event>)
    requires Starts(s0) && ListsSettled(s0, events)
    ensures ReplaysWhole(Run(s0, events))
  {
    hide Perform, SendsWhole, ReplaysWhole, IsSettled, Inv;
    if events == [] {
      assert ReplaysWhole(s0) by { NothingReplayed(s0); }
    } else {
      var most, event := events[..|events| - 1], events[|events| - 1];
      assert forall i :: 0 <= i < |most| ==> most[..i] == events[..i];
      SettledRunReplaysWhole(s0, most);
      SettledRunSendsWhole(s0, most);
      EveryReachableStateKeeps(s0, most);
      ReplaysWholeOn(Run(s0, most), event);
    }
  }

  lemma {:induction false} NothingReplayed(s: State)
    requires Starts(s)
    ensures ReplaysWhole(s)
  {
  }

  lemma {:induction false} ReplaysWholeOn(s: State, event: Event)
    requires Inv(s) && SendsWhole(s) && ReplaysWhole(s)
    ensures ReplaysWhole(Perform(s, event))
  {
    hide Perform, ReplaysWhole, SendsWhole, Inv;
    if event.FetchNext? {
      FetchedWasWhole(s);
    } else {
      OthersReplayNothing(s, event);
      RecordsOnlyGrow(s, event);
      StillReplaysWhole(s, Perform(s, event));
    }
  }

  lemma {:induction false} FetchedWasWhole(s: State)
    requires SendsWhole(s) && ReplaysWhole(s)
    requires Inv(s)
    ensures ReplaysWhole(Perform(s, FetchNext))
  {
    hide Inv, SendsWhole, ReplaysWhole, NextIsHeld, Perform;
    if s.recovery.Replaying? && NextIsHeld(s) {
      HeldIsRequested(s);
      NextIsHeldWhenSent(s);
      var replay := FetchGives(s);
      SentWasWhole(s, s.requests[s.recovery.next], replay);
      OneMoreReplayed(s, Perform(s, FetchNext), replay);
    } else {
      FetchGivesNothing(s);
    }
  }

  lemma {:induction false} HeldIsRequested(s: State)
    requires s.recovery.Replaying? && NextIsHeld(s)
    ensures s.recovery.next < |s.requests|
  {
  }

  lemma {:induction false} FetchGives(s: State) returns (replay: Replay)
    requires s.recovery.Replaying? && NextIsHeld(s) && s.requests[s.recovery.next] in s.packed
    requires Decoded(s.wal[SegmentObject(s.requests[s.recovery.next])].content).Some?
    ensures var t, r := Perform(s, FetchNext), s.recovery;
            && t.requests == s.requests && t.offered == s.offered
            && replay.packedAt == s.packed[s.requests[r.next]]
            && t.recovery == Replaying(r.dump, r.since, r.start, r.next + 1, r.replayed + [replay])
  {
    hide Decoded;
    replay := Perform(s, FetchNext).recovery.replayed[|s.recovery.replayed|];
  }

  lemma {:induction false} FetchGivesNothing(s: State)
    requires s.recovery.Replaying? ==> !NextIsHeld(s)
    requires ReplaysWhole(s)
    ensures ReplaysWhole(Perform(s, FetchNext))
  {
    hide NextIsHeld, Decoded, WasWhole;
  }

  lemma {:induction false} OneMoreReplayed(s: State, t: State, replay: Replay)
    requires ReplaysWhole(s) && s.recovery.Replaying? && s.recovery.next < |s.requests|
    requires t.requests == s.requests && t.offered == s.offered
    requires var r := s.recovery;
             t.recovery == Replaying(r.dump, r.since, r.start, r.next + 1, r.replayed + [replay])
    requires WasWhole(s.offered, s.requests[s.recovery.next], replay)
    ensures ReplaysWhole(t)
  {
    hide WasWhole;
  }

  lemma {:induction false} SentWasWhole(s: State, name: string, replay: Replay)
    requires SendsWhole(s) && name in s.packed && replay.packedAt == s.packed[name]
    ensures WasWhole(s.offered, name, replay)
  {
  }

  ghost predicate Grows(s: State, t: State) {
    && s.requests <= t.requests
    && forall name :: name in s.offered ==>
         name in t.offered && (s.offered[name].ended.Some? ==> t.offered[name] == s.offered[name])
  }

  lemma {:induction false} StillReplaysWhole(s: State, t: State)
    requires ReplaysWhole(s) && Grows(s, t)
    requires t.recovery == s.recovery || (t.recovery.Replaying? ==> t.recovery.start == t.recovery.next <= |t.requests|
                                                                    && t.recovery.replayed == [])
    ensures ReplaysWhole(t)
  {
  }

  /** Only a fetch hands anything over. */
  lemma {:induction false} OthersReplayNothing(s: State, event: Event)
    requires !event.FetchNext?
    ensures var t := Perform(s, event);
            t.recovery == s.recovery
            || (t.recovery.Replaying? ==>
                  t.recovery.start == t.recovery.next <= |t.requests| && t.recovery.replayed == [])
  {
    hide PlanFor, OldestKept, ObjectsToDelete, WalToDelete, HoldsDump, Decoded, TakenAt, Stamp, IsShippable,
      ObjectsFor, Ascending, Filter, Rounded, HasFourDigitYear, CanBegin, CanCopyMore, CanEndCopy, Lists, ListsWal;
  }

  lemma {:induction false} RecordsOnlyGrow(s: State, event: Event)
    requires Inv(s)
    ensures Grows(s, Perform(s, event))
  {
    hide StagingInv, PrefixInv, BucketInv, CoverageInv, GaugeInv, ShipperInv, DumperInv, RequestsInv, RecoveryInv,
      ClockInv;
    hide IsShippable, Ascending, Filter, Rounded, Lists;
    hide DoStampDump, DoUploadDump, DoPlanRetention, DoDeleteDump, DoListWal, DoDeleteWal, DoStartRecovery, DoFetchNext;
    if IsOtherStep(event) {
      OtherStepsKeepFiles(s, event);
    }
  }
}
