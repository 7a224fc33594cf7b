// Every step of the backup path keeps its invariant, one step at a time.
module ArchiveSteps {
  import opened Wrappers
  import opened Text
  import opened Naming
  import opened Retention
  import opened Archive
  import RetentionLaws

  lemma {:induction false} StartsKeeps(s: State)
    requires Starts(s)
    ensures Inv(s)
  {
  }

  lemma {:induction false} LaterCut(wal: map<string, Object>, uploads: map<string, int>, early: int, late: int)
    requires PrunedBefore(wal, uploads, early) && early <= late
    ensures PrunedBefore(wal, uploads, late)
  {
  }

  lemma {:induction false} TickKeeps(s: State, span: nat)
    requires Inv(s)
    ensures Inv(DoTick(s, span))
  {
    hide CopyInv, StagingInv, PrefixInv, BucketInv, CoverageInv, GaugeInv, ShipperInv, DumperInv, RequestsInv,
      RecoveryInv;
    LaterCut(s.wal, s.uploads, s.clock / MICROSECONDS, DoTick(s, span).clock / MICROSECONDS);
  }

  /** A step of the nightly run that only moves it on. */
  lemma {:induction false} DumperMovesOn(s: State, t: State)
    requires Inv(s) && t == s.(clock := s.clock + 1, dumper := t.dumper)
    requires DumperInv(t.dumper, t.dumps, t.wal, t.uploads) && DumperIsPast(t.dumper, t.clock)
    ensures Inv(t)
  {
    hide CopyInv, StagingInv, PrefixInv, BucketInv, CoverageInv, GaugeInv, ShipperInv, DumperInv, RequestsInv,
      RecoveryInv, OffersArePast, UploadsArePast, ShipperIsPast, RecoveryIsPast, DumpsArePast, PrunedBefore,
      DumperIsPast;
    TickKeeps(s, 1);
  }

  /** A step of the recovery that only moves it on. */
  lemma {:induction false} RecoveryMovesOn(s: State, t: State)
    requires Inv(s) && t == s.(clock := s.clock + 1, recovery := t.recovery)
    requires RecoveryInv(t.recovery, t.dumps, t.requests, t.offered, t.uploads) && RecoveryIsPast(t.recovery, t.clock)
    ensures Inv(t)
  {
    hide CopyInv, StagingInv, PrefixInv, BucketInv, CoverageInv, GaugeInv, ShipperInv, DumperInv, RequestsInv,
      RecoveryInv, OffersArePast, UploadsArePast, ShipperIsPast, RecoveryIsPast, DumpsArePast, PrunedBefore,
      DumperIsPast;
    TickKeeps(s, 1);
  }

  /** A step of the shipper that only moves it on. */
  lemma {:induction false} ShipperMovesOn(s: State, t: State)
    requires Inv(s) && t == s.(clock := s.clock + 1, shipper := t.shipper)
    requires ShipperInv(t.shipper, t.staging, t.offered, t.uploads) && ShipperIsPast(t.shipper, t.clock)
    ensures Inv(t)
  {
    hide CopyInv, StagingInv, PrefixInv, BucketInv, CoverageInv, GaugeInv, ShipperInv, DumperInv, RequestsInv,
      RecoveryInv, OffersArePast, UploadsArePast, ShipperIsPast, RecoveryIsPast, DumpsArePast, PrunedBefore,
      DumperIsPast;
    TickKeeps(s, 1);
  }

  // ---- Postgres copies a file ----

  /** The file an attempt is of, once it has begun, comes after every other. */
  lemma {:induction false} BegunIsLast(s: State, name: string, bytes: string)
    requires CopyInv(s.copy, s.staging, s.offered) && CanBegin(s, name, bytes)
    ensures var offered := DoBeginCopy(s, name, bytes).offered;
            && name in offered && offered[name].ended.None? && bytes == offered[name].bytes && bytes != ""
            && forall other :: other in offered && other != name ==> Less(other, name)
  {
  }

  lemma {:induction false} BeginCopyKeeps(s: State, name: string, bytes: string)
    requires Inv(s)
    ensures Inv(DoBeginCopy(s, name, bytes))
  {
    if CanBegin(s, name, bytes) {
      TickKeeps(s, 1);
      BegunIsLast(s, name, bytes);
      BeginKeepsNames(s, name, bytes);
      BeginKeepsBucket(s, name, bytes);
      BeginKeepsShipper(s, name, bytes);
      BeginKeepsRequests(s, name, bytes);
      BeginKeepsRecovery(s, name, bytes);
      BeginKeepsClock(s, name, bytes);
    }
  }

  lemma {:induction false} BeginKeepsNames(s: State, name: string, bytes: string)
    requires CanBegin(s, name, bytes) && CopyInv(s.copy, s.staging, s.offered)
    requires StagingInv(s.staging, s.offered, s.uploads) && PrefixInv(s.staging, s.offered, s.uploads)
    requires forall other :: other in s.offered && other != name ==> Less(other, name)
    ensures var t := DoBeginCopy(s, name, bytes);
            && CopyInv(t.copy, t.staging, t.offered)
            && StagingInv(t.staging, t.offered, t.uploads)
            && PrefixInv(t.staging, t.offered, t.uploads)
  {
    LessIsIrreflexive(name);
    forall late | Less(late, name) ensures !Less(name, late) {
      LessIsAsymmetric(late, name);
    }
  }

  lemma {:induction false} BeginKeepsBucket(s: State, name: string, bytes: string)
    requires CanBegin(s, name, bytes) && ClockInv(s) && StagingInv(s.staging, s.offered, s.uploads)
    requires BucketInv(s.wal, s.offered, s.uploads, s.packed)
    requires GaugeInv(s.gauge, s.gaugeRead, s.gaugeListed, s.offered, s.uploads)
    ensures var t := DoBeginCopy(s, name, bytes);
            && BucketInv(t.wal, t.offered, t.uploads, t.packed)
            && GaugeInv(t.gauge, t.gaugeRead, t.gaugeListed, t.offered, t.uploads)
  {
    hide IsObjectOf, IsStagedCopy;
  }

  lemma {:induction false} BeginKeepsShipper(s: State, name: string, bytes: string)
    requires StagingInv(s.staging, s.offered, s.uploads) && ShipperInv(s.shipper, s.staging, s.offered, s.uploads)
    requires CanBegin(s, name, bytes) && ClockInv(s)
    requires forall other :: other in s.offered && other != name ==> Less(other, name)
    ensures var t := DoBeginCopy(s, name, bytes); ShipperInv(t.shipper, t.staging, t.offered, t.uploads)
  {
  }

  lemma {:induction false} BeginKeepsRequests(s: State, name: string, bytes: string)
    requires RequestsInv(s.requests, s.offered) && CanBegin(s, name, bytes)
    ensures var t := DoBeginCopy(s, name, bytes); RequestsInv(t.requests, t.offered)
  {
    var t := DoBeginCopy(s, name, bytes);
    if name !in s.offered {
      forall other ensures other in t.requests <==> other in s.requests || (IsSegmentName(name) && other == name) {
      }
      forall i | 0 <= i < |s.requests| ensures Less(s.requests[i], name) {
        assert s.requests[i] in s.requests;
      }
    }
  }

  lemma {:induction false} BeginKeepsRecovery(s: State, name: string, bytes: string)
    requires RecoveryInv(s.recovery, s.dumps, s.requests, s.offered, s.uploads)
    requires CanBegin(s, name, bytes) && StagingInv(s.staging, s.offered, s.uploads)
    ensures var t := DoBeginCopy(s, name, bytes); RecoveryInv(t.recovery, t.dumps, t.requests, t.offered, t.uploads)
  {
    hide TakenAt;
    var t := DoBeginCopy(s, name, bytes);
    assert forall i :: 0 <= i < |s.requests| ==> t.requests[i] == s.requests[i];
    assert forall i :: |s.requests| <= i < |t.requests| ==> t.requests[i] == name && name !in s.uploads;
  }

  lemma {:induction false} BeginKeepsClock(s: State, name: string, bytes: string)
    requires CanBegin(s, name, bytes) && ClockInv(s)
    ensures ClockInv(DoBeginCopy(s, name, bytes))
  {
    LaterCut(s.wal, s.uploads, s.clock / MICROSECONDS, (s.clock + 1) / MICROSECONDS);
  }

  lemma {:induction false} CopyMoreKeeps(s: State, upTo: nat)
    requires Inv(s)
    ensures Inv(DoCopyMore(s, upTo))
  {
    hide CopyInv, StagingInv, PrefixInv, BucketInv, CoverageInv, GaugeInv, ShipperInv, DumperInv, RequestsInv,
      RecoveryInv, OffersArePast, UploadsArePast, ShipperIsPast, RecoveryIsPast, DumpsArePast, PrunedBefore,
      DumperIsPast;
    if CanCopyMore(s, upTo) {
      TickKeeps(s, 1);
      MoreKeepsNames(s, upTo);
    }
  }

  lemma {:induction false} MoreKeepsNames(s: State, upTo: nat)
    requires CanCopyMore(s, upTo) && CopyInv(s.copy, s.staging, s.offered)
    requires StagingInv(s.staging, s.offered, s.uploads) && PrefixInv(s.staging, s.offered, s.uploads)
    requires ShipperInv(s.shipper, s.staging, s.offered, s.uploads)
    ensures var t := DoCopyMore(s, upTo);
            && CopyInv(t.copy, t.staging, t.offered)
            && StagingInv(t.staging, t.offered, t.uploads)
            && PrefixInv(t.staging, t.offered, t.uploads)
            && ShipperInv(t.shipper, t.staging, t.offered, t.uploads)
  {
    var t, offer := DoCopyMore(s, upTo), s.offered[s.copy.name];
    assert |offer.bytes[..upTo]| == upTo;
    assert t.staging.Keys == s.staging.Keys;
  }

  lemma {:induction false} EndCopyKeeps(s: State)
    requires Inv(s)
    ensures Inv(DoEndCopy(s))
  {
    if CanEndCopy(s) {
      TickKeeps(s, 1);
      EndKeepsNames(s);
      EndKeepsBucket(s);
      EndKeepsShipper(s);
      EndKeepsRecovery(s);
      EndKeepsClock(s);
      assert RequestsInv(s.requests, DoEndCopy(s).offered);
    }
  }

  lemma {:induction false} EndKeepsNames(s: State)
    requires CanEndCopy(s) && CopyInv(s.copy, s.staging, s.offered)
    requires StagingInv(s.staging, s.offered, s.uploads) && PrefixInv(s.staging, s.offered, s.uploads)
    ensures var t := DoEndCopy(s);
            && CopyInv(t.copy, t.staging, t.offered)
            && StagingInv(t.staging, t.offered, t.uploads)
            && PrefixInv(t.staging, t.offered, t.uploads)
  {
    var t := DoEndCopy(s);
    assert t.staging.Keys == s.staging.Keys && t.offered.Keys == s.offered.Keys;
  }

  /** A copy that ends now makes nothing whole that went up before. */
  lemma {:induction false} EndChangesNoTaking(s: State, bytes: string, name: string, when: int)
    requires CanEndCopy(s) && CopyInv(s.copy, s.staging, s.offered) && name in s.offered && when < s.clock
    ensures IsTakenAt(bytes, DoEndCopy(s).offered[name], when) <==> IsTakenAt(bytes, s.offered[name], when)
  {
  }

  lemma {:induction false} EndKeepsBucket(s: State)
    requires CanEndCopy(s) && CopyInv(s.copy, s.staging, s.offered) && ClockInv(s)
    requires BucketInv(s.wal, s.offered, s.uploads, s.packed)
    requires GaugeInv(s.gauge, s.gaugeRead, s.gaugeListed, s.offered, s.uploads)
    ensures var t := DoEndCopy(s);
            && BucketInv(t.wal, t.offered, t.uploads, t.packed)
            && GaugeInv(t.gauge, t.gaugeRead, t.gaugeListed, t.offered, t.uploads)
  {
    hide IsTakenAt;
    var t := DoEndCopy(s);
    assert t.offered.Keys == s.offered.Keys;
    forall name | name in s.uploads && SegmentObject(name) in s.wal
      ensures IsObjectOf(s.wal[SegmentObject(name)], t.offered[name], s.uploads[name], s.packed[name])
    {
      EndChangesNoTaking(s, Decoded(s.wal[SegmentObject(name)].content).value, name, s.packed[name]);
    }
  }

  lemma {:induction false} EndKeepsShipper(s: State)
    requires CanEndCopy(s) && CopyInv(s.copy, s.staging, s.offered)
    requires ShipperInv(s.shipper, s.staging, s.offered, s.uploads) && ShipperIsPast(s.shipper, s.clock)
    ensures var t := DoEndCopy(s); ShipperInv(t.shipper, t.staging, t.offered, t.uploads)
  {
    var t := DoEndCopy(s);
    assert t.staging.Keys == s.staging.Keys && t.offered.Keys == s.offered.Keys;
    assert forall name :: name in s.offered ==> t.offered[name].begun == s.offered[name].begun;
    if s.shipper.Draining? && s.shipper.stage.Packed? {
      EndChangesNoTaking(s, s.shipper.stage.content.of.bytes, s.shipper.queue[0], s.shipper.stage.at);
    }
  }

  lemma {:induction false} EndKeepsRecovery(s: State)
    requires CanEndCopy(s) && CopyInv(s.copy, s.staging, s.offered) && ClockInv(s)
    requires RecoveryInv(s.recovery, s.dumps, s.requests, s.offered, s.uploads)
    ensures var t := DoEndCopy(s); RecoveryInv(t.recovery, t.dumps, t.requests, t.offered, t.uploads)
  {
    hide IsReplayOf, TakenAt;
    var t, r := DoEndCopy(s), s.recovery;
    if r.Replaying? {
      forall i | r.start <= i < r.next
        ensures IsReplayOf(r.replayed[i - r.start], s.requests[i], t.offered)
      {
        EndKeepsReplay(s, r.replayed[i - r.start], s.requests[i]);
      }
    }
  }

  lemma {:induction false} EndKeepsReplay(s: State, replay: Replay, name: string)
    requires CanEndCopy(s) && CopyInv(s.copy, s.staging, s.offered)
    requires IsReplayOf(replay, name, s.offered) && replay.packedAt < s.clock
    ensures IsReplayOf(replay, name, DoEndCopy(s).offered)
  {
    hide IsTakenAt;
    EndChangesNoTaking(s, replay.bytes, name, replay.packedAt);
  }

  lemma {:induction false} EndKeepsClock(s: State)
    requires CanEndCopy(s) && CopyInv(s.copy, s.staging, s.offered) && ClockInv(s)
    ensures ClockInv(DoEndCopy(s))
  {
    LaterCut(s.wal, s.uploads, s.clock / MICROSECONDS, (s.clock + 1) / MICROSECONDS);
  }

  // ---- The shipper ----

  lemma {:induction false} AscendingWithoutRepeats(s: seq<string>)
    requires IsAscending(s) && NoRepeats(s)
    ensures StrictlyAscending(s)
  {
    forall i, j | 0 <= i < j < |s| ensures Less(s[i], s[j]) {
      LessIsTotal(s[i], s[j]);
    }
  }

  lemma {:induction false} FilterWithoutRepeats<T>(s: seq<T>, keep: T -> bool)
    requires NoRepeats(s)
    ensures NoRepeats(Filter(s, keep))
  {
    if s != [] {
      FilterWithoutRepeats(s[1..], keep);
      var rest := Filter(s[1..], keep);
      forall j | 0 <= j < |rest| ensures rest[j] != s[0] {
        FilterKeeps(s[1..], keep, rest[j]);
      }
    }
  }

  lemma {:induction false} CountWithoutRepeats<T>(s: seq<T>, x: T)
    ensures NoRepeats(s) ==> multiset(s)[x] <= 1
  {
    if s != [] && NoRepeats(s) {
      CountWithoutRepeats(s[1..], x);
      assert s == [s[0]] + s[1..];
      assert s[0] !in s[1..];
    }
  }

  lemma {:induction false} RepeatsCount<T>(s: seq<T>, i: nat, j: nat)
    requires i < j < |s| && s[i] == s[j]
    ensures multiset(s)[s[i]] >= 2
  {
    assert s == s[..j] + [s[j]] + s[j + 1..];
    assert s[i] in s[..j];
    assert multiset(s[..j])[s[i]] >= 1;
  }

  lemma {:induction false} SortingAddsNoRepeats(s: seq<string>)
    requires NoRepeats(s)
    ensures NoRepeats(Ascending(s))
  {
    AscendingSorts(s);
    var sorted := Ascending(s);
    forall i, j | 0 <= i < j < |sorted| ensures sorted[i] != sorted[j] {
      CountWithoutRepeats(s, sorted[i]);
      if sorted[i] == sorted[j] {
        RepeatsCount(sorted, i, j);
      }
    }
  }

  /** What the shipper will drain: every shippable staged file once, in name order. */
  lemma {:induction false} StagedSegments(order: seq<string>, staged: set<string>)
    requires Lists(order, staged)
    ensures var queue := Ascending(Filter(order, name => IsShippable(name)));
            && StrictlyAscending(queue)
            && forall name :: name in queue <==> name in staged && IsShippable(name)
  {
    var shippable := name => IsShippable(name);
    FilterWithoutRepeats(order, shippable);
    SortingAddsNoRepeats(Filter(order, shippable));
    AscendingSorts(Filter(order, shippable));
    AscendingWithoutRepeats(Ascending(Filter(order, shippable)));
    forall name ensures name in Ascending(Filter(order, shippable)) <==> name in staged && IsShippable(name) {
      AscendingKeeps(Filter(order, shippable), name);
      FilterKeeps(order, shippable, name);
      assert name in order <==> name in Elements(order);
    }
  }

  lemma {:induction false} ListStagingKeeps(s: State, order: seq<string>)
    requires Inv(s)
    ensures Inv(DoListStaging(s, order))
  {
    var t := DoListStaging(s, order);
    if t != s {
      TickKeeps(s, 1);
      StagedSegments(order, s.staging.Keys);
      assert ShipperInv(t.shipper, t.staging, t.offered, t.uploads);
    }
  }

  /** What gzip reads is all of the file exactly when its copy has ended. */
  lemma {:induction false} PackSegmentKeeps(s: State)
    requires Inv(s)
    ensures Inv(DoPackSegment(s))
  {
    hide CopyInv, StagingInv, PrefixInv, BucketInv, CoverageInv, GaugeInv, ShipperInv, DumperInv, RequestsInv,
      RecoveryInv, OffersArePast, UploadsArePast, ShipperIsPast, RecoveryIsPast, DumpsArePast, PrunedBefore,
      DumperIsPast, IsPackedOf;
    if CanPack(s) {
      StagedAsTaken(s, s.shipper.queue[0]);
      PackKeepsShipper(s);
      ShipperMovesOn(s, DoPackSegment(s));
    }
  }

  lemma {:induction false} PackKeepsShipper(s: State)
    requires CanPack(s) && ShipperInv(s.shipper, s.staging, s.offered, s.uploads) && ShipperIsPast(s.shipper, s.clock)
    requires s.shipper.queue[0] in s.offered
    requires IsPackedOf(Gzip(s.staging[s.shipper.queue[0]]), s.offered[s.shipper.queue[0]], s.clock)
    ensures var t := DoPackSegment(s);
            ShipperInv(t.shipper, t.staging, t.offered, t.uploads) && ShipperIsPast(t.shipper, t.clock)
  {
    hide IsPackedOf;
  }

  lemma {:induction false} StagedAsTaken(s: State, name: string)
    requires StagingInv(s.staging, s.offered, s.uploads) && OffersArePast(s.offered, s.clock) && name in s.staging
    ensures name in s.offered && IsPackedOf(Gzip(s.staging[name]), s.offered[name], s.clock)
  {
    assert IsStagedCopy(s.staging[name], s.offered[name]);
  }

  /** Everything offered before this file that can be shipped has already gone up and left the volume. */
  ghost predicate AllBeforeAreGone(s: State, segment: string) {
    forall early :: early in s.offered && IsShippable(early) && Less(early, segment) ==>
      early in s.uploads && early !in s.staging
  }

  ghost predicate NothingAfterIsUp(s: State, segment: string) {
    forall late :: late in s.uploads ==> !Less(segment, late)
  }

  lemma {:induction false} HeadIsFirst(s: State)
    requires CanUpload(s)
    requires StagingInv(s.staging, s.offered, s.uploads) && ShipperInv(s.shipper, s.staging, s.offered, s.uploads)
    ensures AllBeforeAreGone(s, s.shipper.queue[0])
  {
    var queue := s.shipper.queue;
    forall early | early in s.offered && IsShippable(early) && Less(early, queue[0])
      ensures early in s.uploads && early !in s.staging
    {
      LessIsIrreflexive(early);
      LessIsAsymmetric(early, queue[0]);
    }
  }

  lemma {:induction false} HeadIsLastUploaded(s: State)
    requires CanUpload(s)
    requires StagingInv(s.staging, s.offered, s.uploads) && PrefixInv(s.staging, s.offered, s.uploads)
    requires ShipperInv(s.shipper, s.staging, s.offered, s.uploads)
    ensures NothingAfterIsUp(s, s.shipper.queue[0])
  {
    assert s.shipper.queue[0] in s.shipper.queue;
  }

  /** So if it went up before, it was the newest object, which pruning spares. */
  lemma {:induction false} HeadIsNotPruned(s: State)
    requires CanUpload(s) && CoverageInv(s.dumps, s.wal, s.uploads) && NothingAfterIsUp(s, s.shipper.queue[0])
    ensures !IsPruned(s.wal, s.uploads, s.shipper.queue[0])
  {
    assert IsPruned(s.wal, s.uploads, s.shipper.queue[0]) ==> HasNewer(s.uploads, s.shipper.queue[0]);
  }

  lemma {:induction false} UploadSegmentKeeps(s: State)
    requires Inv(s)
    ensures Inv(DoUploadSegment(s))
  {
    if CanUpload(s) {
      HeadIsFirst(s);
      HeadIsLastUploaded(s);
      HeadIsNotPruned(s);
      UploadKeepsNames(s);
      UploadKeepsBucket(s);
      UploadKeepsCoverage(s);
      UploadKeepsDumper(s);
      UploadKeepsRecovery(s);
      UploadKeepsClock(s);
    }
  }

  lemma {:induction false} UploadKeepsNames(s: State)
    requires CanUpload(s) && Inv(s)
    requires AllBeforeAreGone(s, s.shipper.queue[0]) && NothingAfterIsUp(s, s.shipper.queue[0])
    ensures var t := DoUploadSegment(s);
            && StagingInv(t.staging, t.offered, t.uploads)
            && PrefixInv(t.staging, t.offered, t.uploads)
            && GaugeInv(t.gauge, t.gaugeRead, t.gaugeListed, t.offered, t.uploads)
            && ShipperInv(t.shipper, t.staging, t.offered, t.uploads)
  {
    assert s.shipper.queue[0] in s.shipper.queue;
    LessIsIrreflexive(s.shipper.queue[0]);
  }

  lemma {:induction false} UploadKeepsBucket(s: State)
    requires CanUpload(s)
    requires BucketInv(s.wal, s.offered, s.uploads, s.packed)
    requires ShipperInv(s.shipper, s.staging, s.offered, s.uploads) && ClockInv(s)
    ensures var t := DoUploadSegment(s); BucketInv(t.wal, t.offered, t.uploads, t.packed)
  {
    hide IsTakenAt;
    var t, segment := DoUploadSegment(s), s.shipper.queue[0];
    SegmentOfObject(segment);
    forall name | name in t.uploads && SegmentObject(name) in t.wal
      ensures name in t.offered
      ensures IsObjectOf(t.wal[SegmentObject(name)], t.offered[name], t.uploads[name], t.packed[name])
    {
      if name != segment {
        if SegmentObject(name) == SegmentObject(segment) {
          SegmentObjectIsInjective(name, segment);
        }
      }
    }
  }

  /** Uploading prunes nothing and moves no pruned segment's time. */
  lemma {:induction false} UploadPrunesNothing(s: State, name: string)
    requires CanUpload(s) && !IsPruned(s.wal, s.uploads, s.shipper.queue[0])
    ensures var t := DoUploadSegment(s);
            && (IsPruned(t.wal, t.uploads, name) ==> IsPruned(s.wal, s.uploads, name) && name != s.shipper.queue[0])
            && (HasNewer(s.uploads, name) ==> HasNewer(t.uploads, name))
  {
    var t := DoUploadSegment(s);
    if HasNewer(s.uploads, name) {
      var newer :| newer in s.uploads && Less(name, newer);
      assert newer in t.uploads;
    }
  }

  lemma {:induction false} UploadPrunedBefore(s: State, taken: int)
    requires CanUpload(s) && !IsPruned(s.wal, s.uploads, s.shipper.queue[0]) && PrunedBefore(s.wal, s.uploads, taken)
    ensures var t := DoUploadSegment(s); PrunedBefore(t.wal, t.uploads, taken)
  {
    var t := DoUploadSegment(s);
    forall name | IsPruned(t.wal, t.uploads, name)
      ensures t.uploads[name] < (taken - WAL_RETENTION_MARGIN_SECONDS) * MICROSECONDS
    {
      UploadPrunesNothing(s, name);
    }
  }

  lemma {:induction false} UploadKeepsCoverage(s: State)
    requires CanUpload(s) && !IsPruned(s.wal, s.uploads, s.shipper.queue[0]) && CoverageInv(s.dumps, s.wal, s.uploads)
    ensures var t := DoUploadSegment(s); CoverageInv(t.dumps, t.wal, t.uploads)
  {
    var t := DoUploadSegment(s);
    forall dump | HoldsDump(t.dumps, dump) ensures PrunedBefore(t.wal, t.uploads, TakenAt(dump).value) {
      UploadPrunedBefore(s, TakenAt(dump).value);
    }
    forall name | IsPruned(t.wal, t.uploads, name) ensures HasNewer(t.uploads, name) {
      UploadPrunesNothing(s, name);
    }
  }

  lemma {:induction false} UploadKeepsDumper(s: State)
    requires CanUpload(s) && NothingAfterIsUp(s, s.shipper.queue[0])
    requires !IsPruned(s.wal, s.uploads, s.shipper.queue[0]) && DumperInv(s.dumper, s.dumps, s.wal, s.uploads)
    ensures var t := DoUploadSegment(s); DumperInv(t.dumper, t.dumps, t.wal, t.uploads)
  {
    var t := DoUploadSegment(s);
    if s.dumper.Uploading? {
      UploadPrunedBefore(s, TakenAt(s.dumper.name).value);
    } else if s.dumper.DeletingWal? {
      forall o | o in s.dumper.walQueue
        ensures HasNewer(t.uploads, SegmentOf(o)) && SegmentOf(o) != s.shipper.queue[0]
      {
        UploadPrunesNothing(s, SegmentOf(o));
      }
    }
  }

  lemma {:induction false} UploadKeepsRecovery(s: State)
    requires CanUpload(s) && ClockInv(s) && RecoveryInv(s.recovery, s.dumps, s.requests, s.offered, s.uploads)
    ensures var t := DoUploadSegment(s); RecoveryInv(t.recovery, t.dumps, t.requests, t.offered, t.uploads)
  {
    hide TakenAt, Less;
  }

  lemma {:induction false} UploadKeepsClock(s: State)
    requires CanUpload(s) && !IsPruned(s.wal, s.uploads, s.shipper.queue[0]) && ClockInv(s)
    ensures ClockInv(DoUploadSegment(s))
  {
    var t := DoUploadSegment(s);
    UploadPrunedBefore(s, s.clock / MICROSECONDS);
    LaterCut(t.wal, t.uploads, s.clock / MICROSECONDS, t.clock / MICROSECONDS);
  }

  /** Only the volume changes, by a file that is already off the host. */
  lemma {:induction false} UnlinkSegmentKeeps(s: State)
    requires Inv(s)
    ensures Inv(DoUnlinkSegment(s))
  {
    hide CopyInv, StagingInv, PrefixInv, BucketInv, CoverageInv, GaugeInv, ShipperInv, DumperInv, RequestsInv,
      RecoveryInv, OffersArePast, UploadsArePast, RecoveryIsPast, DumpsArePast, PrunedBefore, DumperIsPast;
    if s.shipper.Draining? && s.shipper.queue != [] && s.shipper.stage.Sent? {
      TickKeeps(s, 1);
      UnlinkKeepsShipper(s);
      UnlinkKeepsNames(s);
    }
  }

  lemma {:induction false} UnlinkKeepsNames(s: State)
    requires CopyInv(s.copy, s.staging, s.offered) && StagingInv(s.staging, s.offered, s.uploads)
    requires PrefixInv(s.staging, s.offered, s.uploads) && ShipperInv(s.shipper, s.staging, s.offered, s.uploads)
    ensures var t := DoUnlinkSegment(s);
            && CopyInv(t.copy, t.staging, t.offered)
            && StagingInv(t.staging, t.offered, t.uploads)
            && PrefixInv(t.staging, t.offered, t.uploads)
  {
    hide IsStagedCopy, IsPackedOf;
    if s.shipper.Draining? && s.shipper.queue != [] {
      assert s.shipper.queue[0] in s.shipper.queue;
    }
  }

  lemma {:induction false} UnlinkKeepsShipper(s: State)
    requires ShipperInv(s.shipper, s.staging, s.offered, s.uploads)
    ensures var t := DoUnlinkSegment(s); ShipperInv(t.shipper, t.staging, t.offered, t.uploads)
  {
    if s.shipper.Draining? && s.shipper.queue != [] {
      var queue := s.shipper.queue;
      LessIsIrreflexive(queue[0]);
      assert forall name :: name in queue <==> name == queue[0] || name in queue[1..];
      forall name | name in queue[1..] ensures name != queue[0] {
        var i :| 0 < i < |queue| && queue[i] == name;
      }
    }
  }

  lemma {:induction false} PublishGaugeKeeps(s: State)
    requires Inv(s)
    ensures Inv(DoPublishGauge(s))
  {
    var t := DoPublishGauge(s);
    if t != s {
      TickKeeps(s, 1);
      DrainedMeansGone(s);
    }
  }

  /** With the queue empty, whatever was first offered before the listing has gone up. */
  lemma {:induction false} DrainedMeansGone(s: State)
    requires StagingInv(s.staging, s.offered, s.uploads) && ShipperInv(s.shipper, s.staging, s.offered, s.uploads)
    requires s.shipper.Draining? && s.shipper.queue == []
    ensures forall name :: name in s.offered && IsShippable(name) && s.offered[name].begun < s.shipper.listedAt ==>
              name in s.uploads
  {
  }

  // ---- The nightly dump ----

  lemma {:induction false} StampDumpKeeps(s: State)
    requires Inv(s)
    ensures Inv(DoStampDump(s))
  {
    if s.dumper.DumperResting? && HasFourDigitYear(s.clock) {
      TickKeeps(s, 1);
      StampRoundTrip(s.clock);
    }
  }

  lemma {:induction false} UploadDumpKeeps(s: State)
    requires Inv(s)
    ensures Inv(DoUploadDump(s))
  {
    hide StagingInv, PrefixInv, BucketInv, GaugeInv, ShipperInv, RequestsInv;
    var t := DoUploadDump(s);
    if s.dumper.Uploading? && s.dumper.done < 2 {
      TickKeeps(s, 1);
      forall name | HoldsDump(t.dumps, name) && !HoldsDump(s.dumps, name) ensures name == s.dumper.name {
        UploadedDumpIsStamped(s.dumper.name, s.dumper.done, name);
      }
      MoreDumps(s, t, s.dumper.name);
    }
  }

  lemma {:induction false} MoreDumps(s: State, t: State, own: string)
    requires s.dumps <= t.dumps
    requires t == s.(clock := s.clock + 1, dumps := t.dumps, dumper := t.dumper)
    requires s.dumper.Uploading? && s.dumper.name == own && t.dumper.Uploading? && t.dumper.name == own
    requires forall name :: HoldsDump(t.dumps, name) && !HoldsDump(s.dumps, name) ==> name == own
    requires CoverageInv(s.dumps, s.wal, s.uploads) && DumperInv(s.dumper, s.dumps, s.wal, s.uploads)
    requires RecoveryInv(s.recovery, s.dumps, s.requests, s.offered, s.uploads) && ClockInv(s)
    ensures CoverageInv(t.dumps, t.wal, t.uploads) && ClockInv(t)
    ensures RecoveryInv(t.recovery, t.dumps, t.requests, t.offered, t.uploads)
  {
    LaterCut(s.wal, s.uploads, s.clock / MICROSECONDS, t.clock / MICROSECONDS);
  }

  /** The only dump an uploaded object can add is the run's own. */
  lemma {:induction false} UploadedDumpIsStamped(own: string, done: nat, name: string)
    requires IsBackupName(own) && IsBackupName(name) && done < 2 && DumpObject(name) == ObjectsFor(own)[done]
    ensures name == own
  {
    assert DumpObject(name) in ObjectsFor(name);
    ObjectsNameTheirBackup(name, DumpObject(name));
    ObjectsNameTheirBackup(own, DumpObject(name));
  }

  lemma {:induction false} PlanRetentionKeeps(s: State, listing: seq<string>)
    requires Inv(s)
    ensures Inv(DoPlanRetention(s, listing))
  {
    hide Inv, DoPlanRetention, TakenAt;
    var t := DoPlanRetention(s, listing);
    if t != s {
      OnlyUploadedNightsPlan(s, listing);
      NightIsStamped(s);
      PlanKeepsDumper(s, listing);
      DumperMovesOn(s, t);
    }
  }

  lemma {:induction false} OnlyUploadedNightsPlan(s: State, listing: seq<string>)
    requires DoPlanRetention(s, listing) != s
    ensures s.dumper.Uploading?
  {
    hide PlanFor, TakenAt, OldestKept, ObjectsToDelete, Lists;
  }

  lemma {:induction false} NightIsStamped(s: State)
    requires Inv(s)
    ensures s.dumper.Uploading? ==>
              TakenAt(s.dumper.name).Some? && TakenAt(s.dumper.name).value * MICROSECONDS <= s.clock
  {
    hide CopyInv, StagingInv, PrefixInv, BucketInv, CoverageInv, GaugeInv, ShipperInv, DumperInv, RequestsInv,
      RecoveryInv, OffersArePast, UploadsArePast, ShipperIsPast, RecoveryIsPast, DumpsArePast, PrunedBefore;
  }

  lemma {:induction false} PlanKeepsDumper(s: State, listing: seq<string>)
    requires DoPlanRetention(s, listing) != s && s.dumper.Uploading? && TakenAt(s.dumper.name).Some?
    requires TakenAt(s.dumper.name).value * MICROSECONDS <= s.clock
    ensures var t := DoPlanRetention(s, listing);
            && t == s.(clock := s.clock + 1, dumper := t.dumper)
            && DumperInv(t.dumper, t.dumps, t.wal, t.uploads) && DumperIsPast(t.dumper, t.clock)
  {
    hide PlanFor, TakenAt, OldestKept, ObjectsToDelete, Lists;
    if DoPlanRetention(s, listing).dumper.DeletingDumps? {
      PlanSparesTheKept(s.dumps, s.dumper.name, listing, PlanFor(listing, s.dumper.name).value);
    }
  }

  /** A dump the plan does not queue for deletion was taken no earlier than the oldest kept, which this run's own is
      no older than. */
  lemma {:induction false} PlanSparesTheKept(dumps: set<string>, own: string, listing: seq<string>, plan: Plan)
    requires PlanFor(listing, own) == Success(plan) && Lists(listing, dumps)
    requires TakenAt(own).Some?
    ensures plan.keep != [] && TakenAt(OldestKept(plan)).Some?
    ensures TakenAt(OldestKept(plan)).value <= TakenAt(own).value
    ensures forall name :: HoldsDump(dumps, name) ==>
              TakenAt(OldestKept(plan)).value <= TakenAt(name).value
              || DumpObject(name) in ObjectsToDelete(listing, plan.delete)
  {
    RetentionLaws.PlanIsKeptOf(listing, own);
    RetentionLaws.OldestKeptIsOldest(listing, own, plan);
    forall name | HoldsDump(dumps, name) && DumpObject(name) !in ObjectsToDelete(listing, plan.delete)
      ensures name in KeptOf(RetentionLaws.Names(listing))
    {
      DumpIsListed(listing, dumps, name);
      RetentionLaws.DeletedObjectsAre(listing, plan.delete, DumpObject(name));
      assert DumpObject(name) in ObjectsFor(name);
      assert name in plan.delete <==> name in Elements(plan.delete);
    }
  }

  lemma {:induction false} DumpIsListed(listing: seq<string>, dumps: set<string>, name: string)
    requires Lists(listing, dumps) && IsBackupName(name) && DumpObject(name) in dumps
    ensures DumpObject(name) in listing && name in RetentionLaws.Names(listing)
  {
    assert DumpObject(name) in ObjectsFor(name);
    ObjectsNameTheirBackup(name, DumpObject(name));
    assert DumpObject(name) in Elements(listing);
  }

  lemma {:induction false} DeleteDumpKeeps(s: State)
    requires Inv(s)
    ensures Inv(DoDeleteDump(s))
  {
    if s.dumper.DeletingDumps? && s.dumper.dumpQueue != [] {
      DeleteDumpKeepsDumper(s);
      FewerDumps(s);
    }
  }

  lemma {:induction false} DeleteDumpKeepsDumper(s: State)
    requires s.dumper.DeletingDumps? && s.dumper.dumpQueue != []
    requires DumperInv(s.dumper, s.dumps, s.wal, s.uploads)
    ensures var t := DoDeleteDump(s); DumperInv(t.dumper, t.dumps, t.wal, t.uploads)
  {
    var t := DoDeleteDump(s);
    var queue := s.dumper.dumpQueue;
    assert forall o :: o in queue ==> o == queue[0] || o in queue[1..];
    forall name | HoldsDump(t.dumps, name) ensures HoldsDump(s.dumps, name) && DumpObject(name) != queue[0] {
    }
  }

  lemma {:induction false} FewerDumps(s: State)
    requires s.dumper.DeletingDumps? && s.dumper.dumpQueue != []
    requires CoverageInv(s.dumps, s.wal, s.uploads) && ClockInv(s)
    requires RecoveryInv(s.recovery, s.dumps, s.requests, s.offered, s.uploads)
    ensures var t := DoDeleteDump(s);
            && CoverageInv(t.dumps, t.wal, t.uploads) && ClockInv(t)
            && RecoveryInv(t.recovery, t.dumps, t.requests, t.offered, t.uploads)
  {
    hide PrunedBefore, TakenAt;
    var t := DoDeleteDump(s);
    LaterCut(s.wal, s.uploads, s.clock / MICROSECONDS, t.clock / MICROSECONDS);
    forall name | HoldsDump(t.dumps, name) ensures HoldsDump(s.dumps, name) {
    }
  }

  lemma {:induction false} ListWalKeeps(s: State, segments: seq<(string, int)>)
    requires Inv(s)
    ensures Inv(DoListWal(s, segments))
  {
    var t := DoListWal(s, segments);
    if t != s {
      TickKeeps(s, 1);
      forall o | o in t.dumper.walQueue
        ensures IsSegmentObject(o) && SegmentOf(o) in s.uploads && HasNewer(s.uploads, SegmentOf(o))
        ensures s.uploads[SegmentOf(o)] < (s.dumper.oldest - WAL_RETENTION_MARGIN_SECONDS) * MICROSECONDS
      {
        StaleIsOld(s, segments, s.dumper.oldest, o);
      }
    }
  }

  /** What WAL retention picks is older than the cut and is not the last segment sent. */
  lemma {:induction false} StaleIsOld(s: State, segments: seq<(string, int)>, oldest: int, o: string)
    requires PrefixInv(s.staging, s.offered, s.uploads) && BucketInv(s.wal, s.offered, s.uploads, s.packed)
    requires ListsWal(segments, s.wal) && o in WalToDelete(segments, oldest)
    ensures IsSegmentObject(o) && SegmentOf(o) in s.uploads && HasNewer(s.uploads, SegmentOf(o))
    ensures s.uploads[SegmentOf(o)] < (oldest - WAL_RETENTION_MARGIN_SECONDS) * MICROSECONDS
  {
    RetentionLaws.WalDeletedIs(segments, oldest, o);
    var when :| (o, when) in segments && when < (oldest - WAL_RETENTION_MARGIN_SECONDS) * MICROSECONDS
      && o != NewestSegment(segments).0;
    RetentionLaws.NewestSegmentIsNewest(segments);
    var newest := NewestSegment(segments);
    assert (newest.0, newest.1) in segments;
    assert o in s.wal && newest.0 in s.wal;
    assert SegmentObject(SegmentOf(o)) == o && SegmentObject(SegmentOf(newest.0)) == newest.0;
    LessIsTotal(SegmentOf(o), SegmentOf(newest.0));
    assert Less(SegmentOf(o), SegmentOf(newest.0));
  }

  ghost predicate CanDeleteWal(s: State) {
    s.dumper.DeletingWal? && s.dumper.walQueue != []
  }

  lemma {:induction false} DeleteWalKeeps(s: State)
    requires Inv(s)
    ensures Inv(DoDeleteWal(s))
  {
    if CanDeleteWal(s) {
      var t := DoDeleteWal(s);
      DeleteWalKeepsCoverage(s);
      DeleteWalKeepsClock(s);
      assert BucketInv(t.wal, t.offered, t.uploads, t.packed);
      assert forall o :: o in s.dumper.walQueue[1..] ==> o in s.dumper.walQueue;
    }
  }

  /** The one segment this step prunes is older than the margin before the oldest dump kept. */
  lemma {:induction false} DeleteWalPrunedBefore(s: State, taken: int)
    requires CanDeleteWal(s) && DumperInv(s.dumper, s.dumps, s.wal, s.uploads)
    requires PrunedBefore(s.wal, s.uploads, taken) && s.dumper.oldest <= taken
    ensures var t := DoDeleteWal(s); PrunedBefore(t.wal, t.uploads, taken)
  {
    var t := DoDeleteWal(s);
    assert s.dumper.walQueue[0] in s.dumper.walQueue;
    forall name | IsPruned(t.wal, t.uploads, name)
      ensures t.uploads[name] < (taken - WAL_RETENTION_MARGIN_SECONDS) * MICROSECONDS
    {
      SegmentOfObject(name);
      assert IsPruned(s.wal, s.uploads, name) || name == SegmentOf(s.dumper.walQueue[0]);
    }
  }

  lemma {:induction false} DeleteWalKeepsCoverage(s: State)
    requires CanDeleteWal(s) && CoverageInv(s.dumps, s.wal, s.uploads) && DumperInv(s.dumper, s.dumps, s.wal, s.uploads)
    ensures var t := DoDeleteWal(s); CoverageInv(t.dumps, t.wal, t.uploads)
  {
    var t := DoDeleteWal(s);
    assert s.dumper.walQueue[0] in s.dumper.walQueue;
    forall dump | HoldsDump(t.dumps, dump) ensures PrunedBefore(t.wal, t.uploads, TakenAt(dump).value) {
      DeleteWalPrunedBefore(s, TakenAt(dump).value);
    }
    forall name | IsPruned(t.wal, t.uploads, name) ensures HasNewer(t.uploads, name) {
      SegmentOfObject(name);
      assert IsPruned(s.wal, s.uploads, name) || name == SegmentOf(s.dumper.walQueue[0]);
    }
  }

  lemma {:induction false} DeleteWalKeepsClock(s: State)
    requires CanDeleteWal(s) && ClockInv(s) && DumperInv(s.dumper, s.dumps, s.wal, s.uploads)
    ensures ClockInv(DoDeleteWal(s))
  {
    var t := DoDeleteWal(s);
    DeleteWalPrunedBefore(s, s.clock / MICROSECONDS);
    LaterCut(t.wal, t.uploads, s.clock / MICROSECONDS, t.clock / MICROSECONDS);
  }

  // ---- A recovery ----

  lemma {:induction false} StartRecoveryKeeps(s: State, dump: string, start: nat)
    requires Inv(s)
    ensures Inv(DoStartRecovery(s, dump, start))
  {
    hide CopyInv, StagingInv, PrefixInv, BucketInv, CoverageInv, GaugeInv, ShipperInv, DumperInv, RequestsInv,
      RecoveryInv, OffersArePast, UploadsArePast, ShipperIsPast, DumpsArePast, PrunedBefore,
      DumperIsPast;
    if HoldsDump(s.dumps, dump) && StartsAt(s, TakenAt(dump).value, start) {
      StartKeepsRecovery(s, dump, start);
      RecoveryMovesOn(s, DoStartRecovery(s, dump, start));
    }
  }

  lemma {:induction false} StartKeepsRecovery(s: State, dump: string, start: nat)
    requires CoverageInv(s.dumps, s.wal, s.uploads) && BucketInv(s.wal, s.offered, s.uploads, s.packed)
    requires PrefixInv(s.staging, s.offered, s.uploads) && RequestsInv(s.requests, s.offered)
    requires HoldsDump(s.dumps, dump) && StartsAt(s, TakenAt(dump).value, start)
    ensures var t := DoStartRecovery(s, dump, start);
            RecoveryInv(t.recovery, t.dumps, t.requests, t.offered, t.uploads)
  {
    hide CoverageInv, BucketInv, PrefixInv, RequestsInv, TakenAt;
    StartIsRecent(s, TakenAt(dump).value, start);
    forall i | 0 <= i < start ensures s.uploads[s.requests[i]] < TakenAt(dump).value * MICROSECONDS {
      EarlierWentUpBefore(s, dump, start, i);
    }
  }

  /** What comes before a start had gone up before the dump was taken, pruned since or not. */
  lemma {:induction false} EarlierWentUpBefore(s: State, dump: string, start: nat, i: nat)
    requires CoverageInv(s.dumps, s.wal, s.uploads) && BucketInv(s.wal, s.offered, s.uploads, s.packed)
    requires HoldsDump(s.dumps, dump) && StartsAt(s, TakenAt(dump).value, start) && i < start
    ensures s.requests[i] in s.uploads && s.uploads[s.requests[i]] < TakenAt(dump).value * MICROSECONDS
  {
    var segment := s.requests[i];
    if SegmentObject(segment) !in s.wal {
      assert IsPruned(s.wal, s.uploads, segment);
    }
  }

  /** Every dump in the bucket has a place for a recovery from it to start. */
  lemma {:induction false} StartExists(s: State, dump: string) returns (start: nat)
    requires Inv(s) && HoldsDump(s.dumps, dump)
    ensures StartsAt(s, TakenAt(dump).value, start)
  {
    hide CopyInv, StagingInv, PrefixInv, BucketInv, CoverageInv, GaugeInv, ShipperInv, DumperInv, RequestsInv,
      RecoveryInv, OffersArePast, UploadsArePast, ShipperIsPast, RecoveryIsPast, DumpsArePast, PrunedBefore,
      DumperIsPast;
    hide WentUpEarlier;
    var taken := TakenAt(dump).value;
    start := 0;
    while start < |s.requests| && WentUpEarlier(s, start, taken)
      invariant 0 <= start <= |s.requests|
      invariant forall i :: 0 <= i < start ==> WentUpEarlier(s, i, taken)
    {
      start := start + 1;
    }
    StoppedAtAStart(s, dump, start);
  }

  ghost predicate WentUpEarlier(s: State, i: nat, taken: int)
    requires i < |s.requests|
  {
    s.requests[i] in s.uploads && s.uploads[s.requests[i]] < taken * MICROSECONDS
  }

  lemma {:induction false} StoppedAtAStart(s: State, dump: string, start: nat)
    requires CoverageInv(s.dumps, s.wal, s.uploads) && BucketInv(s.wal, s.offered, s.uploads, s.packed)
    requires PrefixInv(s.staging, s.offered, s.uploads) && RequestsInv(s.requests, s.offered)
    requires HoldsDump(s.dumps, dump) && start <= |s.requests|
    requires forall i :: 0 <= i < start ==> WentUpEarlier(s, i, TakenAt(dump).value)
    requires start < |s.requests| ==> !WentUpEarlier(s, start, TakenAt(dump).value)
    ensures StartsAt(s, TakenAt(dump).value, start)
  {
    hide PrefixInv, RequestsInv, TakenAt, IsTakenAt;
    forall i | 0 <= i < start
      ensures s.requests[i] in s.uploads
      ensures SegmentObject(s.requests[i]) in s.wal ==>
                s.wal[SegmentObject(s.requests[i])].modifiedAt < TakenAt(dump).value * MICROSECONDS
    {
      assert WentUpEarlier(s, i, TakenAt(dump).value);
    }
    if start < |s.requests| && s.requests[start] in s.uploads {
      RetainedDumpIsCovered(s, dump, s.requests[start]);
    } else if start < |s.requests| {
      forall i | start <= i < |s.requests| ensures s.requests[i] !in s.uploads {
        LaterIsNotSent(s, start, i);
      }
    }
  }

  /** Once a segment has not gone up, none after it has. */
  lemma {:induction false} LaterIsNotSent(s: State, early: nat, late: nat)
    requires PrefixInv(s.staging, s.offered, s.uploads) && RequestsInv(s.requests, s.offered)
    requires early <= late < |s.requests| && s.requests[early] !in s.uploads
    ensures s.requests[late] !in s.uploads
  {
    assert s.requests[early] in s.requests;
    SegmentsAreShippable(s.requests[early]);
    assert early < late ==> Less(s.requests[early], s.requests[late]);
  }

  /** Upload times increase in name order, so whatever was sent from the start on is as recent as the start. */
  lemma {:induction false} StartIsRecent(s: State, taken: int, start: nat)
    requires PrefixInv(s.staging, s.offered, s.uploads) && BucketInv(s.wal, s.offered, s.uploads, s.packed)
    requires RequestsInv(s.requests, s.offered) && StartsAt(s, taken, start)
    ensures forall i :: start <= i < |s.requests| && s.requests[i] in s.uploads ==>
              taken * MICROSECONDS <= s.uploads[s.requests[i]]
  {
    forall i | start <= i < |s.requests| && s.requests[i] in s.uploads
      ensures taken * MICROSECONDS <= s.uploads[s.requests[i]]
    {
      var first := s.requests[start];
      assert first in s.uploads && SegmentObject(first) in s.wal;
      assert s.wal[SegmentObject(first)].modifiedAt == s.uploads[first];
      assert start < i ==> Less(first, s.requests[i]);
    }
  }

  /** Every segment sent within the margin of a dump that is still held, or since, is in the bucket, as it was sent. */
  lemma {:induction false} RetainedDumpIsCovered(s: State, dump: string, segment: string)
    requires CoverageInv(s.dumps, s.wal, s.uploads) && BucketInv(s.wal, s.offered, s.uploads, s.packed)
    requires HoldsDump(s.dumps, dump) && segment in s.uploads
    requires (TakenAt(dump).value - WAL_RETENTION_MARGIN_SECONDS) * MICROSECONDS <= s.uploads[segment]
    ensures SegmentObject(segment) in s.wal && segment in s.offered && segment in s.packed
    ensures s.packed[segment] < s.uploads[segment]
    ensures IsObjectOf(s.wal[SegmentObject(segment)], s.offered[segment], s.uploads[segment], s.packed[segment])
  {
    assert !IsPruned(s.wal, s.uploads, segment);
  }

  lemma {:induction false} NextIsHeldWhenSent(s: State)
    requires Inv(s) && s.recovery.Replaying? && s.recovery.next < |s.requests|
    ensures NextIsHeld(s) <==> s.requests[s.recovery.next] in s.uploads
    ensures NextIsHeld(s) ==>
              var segment := s.requests[s.recovery.next];
              && segment in s.offered && segment in s.packed && s.packed[segment] < s.uploads[segment]
              && IsObjectOf(s.wal[SegmentObject(segment)], s.offered[segment], s.uploads[segment], s.packed[segment])
  {
    hide CopyInv, StagingInv, GaugeInv, ShipperInv, DumperInv, ClockInv, IsTakenAt;
    var segment := s.requests[s.recovery.next];
    SegmentOfObject(segment);
    if segment in s.uploads {
      RetainedDumpIsCovered(s, s.recovery.dump, segment);
    }
  }

  lemma {:induction false} FetchNextKeeps(s: State)
    requires Inv(s)
    ensures Inv(DoFetchNext(s))
  {
    if s.recovery.Replaying? {
      TickKeeps(s, 1);
      if NextIsHeld(s) {
        NextIsHeldWhenSent(s);
        FetchedKeepsRecovery(s);
      }
    }
  }

  lemma {:induction false} FetchedKeepsRecovery(s: State)
    requires RecoveryInv(s.recovery, s.dumps, s.requests, s.offered, s.uploads) && ClockInv(s)
    requires s.recovery.Replaying? && NextIsHeld(s)
    requires var segment := s.requests[s.recovery.next];
             && segment in s.uploads && segment in s.offered && segment in s.packed
             && s.packed[segment] < s.uploads[segment]
             && IsObjectOf(s.wal[SegmentObject(segment)], s.offered[segment], s.uploads[segment], s.packed[segment])
    ensures var t := DoFetchNext(s);
            && RecoveryInv(t.recovery, t.dumps, t.requests, t.offered, t.uploads)
            && (t.recovery.Replaying? ==>
                  forall k :: 0 <= k < |t.recovery.replayed| ==> t.recovery.replayed[k].packedAt < t.clock)
  {
    hide IsTakenAt, TakenAt;
  }

  // ---- Every run ----

  lemma {:induction false} PerformKeeps(s: State, event: Event)
    requires Inv(s)
    ensures Inv(Perform(s, event))
  {
    hide Inv, Perform;
    match event
    case StampDump => NightlyStepKeeps(s, event);
    case UploadDump => NightlyStepKeeps(s, event);
    case PlanRetention(_) => NightlyStepKeeps(s, event);
    case DeleteDump => NightlyStepKeeps(s, event);
    case ListWal(_) => NightlyStepKeeps(s, event);
    case DeleteWal => NightlyStepKeeps(s, event);
    case CopyStops => PauseKeeps(s, event);
    case ReadClock => PauseKeeps(s, event);
    case ShipperStops => PauseKeeps(s, event);
    case DumperStops => PauseKeeps(s, event);
    case RecoveryStops => PauseKeeps(s, event);
    case _ => HostStepKeeps(s, event);
  }

  lemma {:induction false} HostStepKeeps(s: State, event: Event)
    requires Inv(s)
    requires || event.Tick? || event.BeginCopy? || event.CopyMore? || event.EndCopy? || event.ListStaging?
             || event.PackSegment? || event.UploadSegment? || event.UnlinkSegment? || event.PublishGauge?
             || event.StartRecovery? || event.FetchNext?
    ensures Inv(Perform(s, event))
  {
    hide Inv, DoTick, DoBeginCopy, DoCopyMore, DoEndCopy, DoListStaging, DoPackSegment, DoUploadSegment,
      DoUnlinkSegment, DoPublishGauge, DoStartRecovery, DoFetchNext;
    match event
    case Tick(span) => TickKeeps(s, span);
    case BeginCopy(name, bytes) => BeginCopyKeeps(s, name, bytes);
    case CopyMore(upTo) => CopyMoreKeeps(s, upTo);
    case EndCopy => EndCopyKeeps(s);
    case ListStaging(order) => ListStagingKeeps(s, order);
    case PackSegment => PackSegmentKeeps(s);
    case UploadSegment => UploadSegmentKeeps(s);
    case UnlinkSegment => UnlinkSegmentKeeps(s);
    case PublishGauge => PublishGaugeKeeps(s);
    case StartRecovery(dump, start) => StartRecoveryKeeps(s, dump, start);
    case FetchNext => FetchNextKeeps(s);
  }

  lemma {:induction false} NightlyStepKeeps(s: State, event: Event)
    requires Inv(s)
    requires || event.StampDump? || event.UploadDump? || event.PlanRetention? || event.DeleteDump? || event.ListWal?
             || event.DeleteWal?
    ensures Inv(Perform(s, event))
  {
    hide Inv, DoStampDump, DoUploadDump, DoPlanRetention, DoDeleteDump, DoListWal, DoDeleteWal;
    match event
    case StampDump => StampDumpKeeps(s);
    case UploadDump => UploadDumpKeeps(s);
    case PlanRetention(listing) => PlanRetentionKeeps(s, listing);
    case DeleteDump => DeleteDumpKeeps(s);
    case ListWal(segments) => ListWalKeeps(s, segments);
    case DeleteWal => DeleteWalKeeps(s);
  }

  /** A process that reads the clock or stops dead, an attempt at a copy included, changes nothing the others rely on.
      */
  lemma {:induction false} PauseKeeps(s: State, event: Event)
    requires Inv(s)
    requires event.CopyStops? || event.ReadClock? || event.ShipperStops? || event.DumperStops? || event.RecoveryStops?
    ensures Inv(Perform(s, event))
  {
    hide StagingInv, PrefixInv, BucketInv, CoverageInv, GaugeInv, RequestsInv,
      OffersArePast, UploadsArePast, DumpsArePast, PrunedBefore;
    TickKeeps(s, 1);
  }

  lemma {:induction false} RunOfRun(s: State, first: seq<Event>, second: seq<Event>)
    ensures Run(s, first + second) == Run(Run(s, first), second)
  {
    if second == [] {
      assert first + second == first;
    } else {
      var most := second[..|second| - 1];
      RunOfRun(s, first, most);
      assert (first + second)[..|first + second| - 1] == first + most;
    }
  }

  lemma {:induction false} EveryReachableStateKeeps(s: State, events: seq<Event>)
    requires Starts(s)
    ensures Inv(Run(s, events))
  {
    if events == [] {
      StartsKeeps(s);
    } else {
      EveryReachableStateKeeps(s, events[..|events| - 1]);
      PerformKeeps(Run(s, events[..|events| - 1]), events[|events| - 1]);
    }
  }
}
