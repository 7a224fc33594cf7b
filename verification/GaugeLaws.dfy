// What the shipper's freshness gauge claims, that every segment archived by the published second was then off the
// host, and exactly when the claim is true.
module GaugeLaws {
  import opened Wrappers
  import opened Text
  import opened Naming
  import opened Retention
  import opened Archive
  import opened ArchiveSteps
  import opened ArchiveLaws

  lemma {:induction false} RoundedIsNear(microseconds: int)
    ensures 2 * Rounded(microseconds) * MICROSECONDS - MICROSECONDS <= 2 * microseconds
            <= 2 * Rounded(microseconds) * MICROSECONDS + MICROSECONDS
  {
  }

  /** Of what Postgres had archived more than half a second before a published value, exactly the shippable files have
      been sent. */
  lemma {:induction false} GaugeMeansOffHost(s0: State, events: seq<Event>, name: string)
    requires Starts(s0) && Run(s0, events).gauge.Some? && name in Run(s0, events).offered
    requires Run(s0, events).offered[name].ended.Some?
    requires 2 * Run(s0, events).offered[name].ended.value < (2 * Run(s0, events).gauge.value - 1) * MICROSECONDS
    ensures name in Run(s0, events).uploads <==> IsShippable(name)
  {
    EveryReachableStateKeeps(s0, events);
    GaugeIsTrueOf(Run(s0, events), name);
  }

  lemma {:induction false} GaugeIsTrueOf(s: State, name: string)
    requires Inv(s) && s.gauge.Some? && name in s.offered && s.offered[name].ended.Some?
    requires 2 * s.offered[name].ended.value < (2 * s.gauge.value - 1) * MICROSECONDS
    ensures name in s.uploads <==> IsShippable(name)
  {
    hide CopyInv, PrefixInv, BucketInv, CoverageInv, ShipperInv, DumperInv, RequestsInv, RecoveryInv, Rounded,
      UploadsArePast, ShipperIsPast, RecoveryIsPast, DumpsArePast, PrunedBefore, DumperIsPast;
    RoundedIsNear(s.gaugeRead);
  }

  /** Archived by an instant, as Postgres sees it. */
  ghost predicate IsClaimed(s: State, name: string, published: int) {
    name in s.offered && s.offered[name].ended.Some? && s.offered[name].ended.value <= published
  }

  /** Off the host, and whole unless pruned. */
  ghost predicate IsOffHost(s: State, name: string) {
    && name in s.uploads
    && (SegmentObject(name) in s.wal ==>
          name in s.offered && Decoded(s.wal[SegmentObject(name)].content) == Some(s.offered[name].bytes))
  }

  /** When the gauge is published, "every segment archived by then was sent" holds of the published second exactly when
      nothing archived by it wears an intermediate's suffix and nothing archived by it was first offered after the
      listing. It was sent whole exactly when, besides, gzip read each after its copy had ended. */
  lemma {:induction false} GaugeClaimExactly(s0: State, events: seq<Event>)
    requires Starts(s0) && Run(s0, events).shipper.Draining? && Run(s0, events).shipper.queue == []
    ensures var s, t := Run(s0, events), Perform(Run(s0, events), PublishGauge);
            && t.gauge.Some?
            && var published := t.gauge.value * MICROSECONDS;
               && ((forall name :: IsClaimed(t, name, published) ==> name in t.uploads) <==>
                   forall name :: IsClaimed(t, name, published) ==>
                     IsShippable(name) && t.offered[name].begun < s.shipper.listedAt)
               && ((forall name :: IsClaimed(t, name, published) ==> IsOffHost(t, name)) <==>
                   forall name :: IsClaimed(t, name, published) ==>
                     && IsShippable(name) && t.offered[name].begun < s.shipper.listedAt
                     && (SegmentObject(name) in t.wal ==>
                           name in t.packed && t.offered[name].ended.value < t.packed[name]))
  {
    hide Run, Rounded, IsOffHost;
    var s, t := Run(s0, events), Perform(Run(s0, events), PublishGauge);
    EveryReachableStateKeeps(s0, events);
    SentWhenDrained(s);
    assert t == s.(clock := t.clock, gauge := t.gauge, gaugeRead := t.gaugeRead, gaugeListed := t.gaugeListed,
                   shipper := t.shipper);
    forall name, published | IsClaimed(t, name, published)
      ensures name in t.uploads <==> IsShippable(name) && t.offered[name].begun < s.shipper.listedAt
      ensures IsOffHost(t, name) <==>
              && IsShippable(name) && t.offered[name].begun < s.shipper.listedAt
              && (SegmentObject(name) in t.wal ==>
                    name in t.packed && t.offered[name].ended.value < t.packed[name])
    {
      SentWholeWhenDrained(s, t, name);
    }
  }

  lemma {:induction false} SentWhenDrained(s: State)
    requires StagingInv(s.staging, s.offered, s.uploads) && ShipperInv(s.shipper, s.staging, s.offered, s.uploads)
    requires s.shipper.Draining? && s.shipper.queue == []
    ensures forall name :: name in s.offered ==>
              (name in s.uploads <==> IsShippable(name) && s.offered[name].begun < s.shipper.listedAt)
  {
    DrainedMeansGone(s);
  }

  lemma {:induction false} SentWholeWhenDrained(s: State, t: State, name: string)
    requires Inv(s) && name in s.offered && s.offered[name].ended.Some? && s.shipper.Draining?
    requires name in s.uploads <==> IsShippable(name) && s.offered[name].begun < s.shipper.listedAt
    requires t == s.(clock := t.clock, gauge := t.gauge, gaugeRead := t.gaugeRead, gaugeListed := t.gaugeListed,
                     shipper := t.shipper)
    ensures IsOffHost(t, name) <==>
            && IsShippable(name) && s.offered[name].begun < s.shipper.listedAt
            && (SegmentObject(name) in s.wal ==> name in s.packed && s.offered[name].ended.value < s.packed[name])
  {
    hide Inv, IsShippable;
    if name in s.uploads {
      ShippableIsKept(s, name);
    }
  }

  lemma {:induction false} ShippableIsKept(s: State, name: string)
    requires Inv(s) && name in s.uploads
    ensures name in s.offered && name in s.packed
    ensures SegmentObject(name) in s.wal ==>
              (Decoded(s.wal[SegmentObject(name)].content) == Some(s.offered[name].bytes) <==>
               EndedBy(s.offered[name], s.packed[name]))
  {
    hide CopyInv, PrefixInv, BucketInv, CoverageInv, GaugeInv, ShipperInv, DumperInv, RequestsInv, RecoveryInv,
      ClockInv;
    SentNamesAreOffered(s, name);
    KeptWhereItIs(s, name);
  }

  // ---- Runs on which the claim fails ----

  const PARTIAL := "000000010000000000000003.partial"

  /** A reading of .6 s is published as 1 s; a segment archived in between is staged, and claimed off-host. */
  lemma {:induction false} GaugeCanRoundUp()
    ensures var s := Run(Empty(600_000),
                         [ReadClock, ListStaging([]), BeginCopy(SEGMENT, "x"), EndCopy, PublishGauge]);
            && s.gauge == Some(1)
            && SEGMENT in s.offered && s.offered[SEGMENT].ended == Some(600_003) && 600_003 <= 1 * MICROSECONDS
            && SEGMENT !in s.uploads && SEGMENT in s.staging
  {
    hide Run, Rounded;
    RunFive(Empty(600_000), ReadClock, ListStaging([]), BeginCopy(SEGMENT, "x"), EndCopy, PublishGauge);
    CopiedWhileDraining();
  }

  lemma {:induction false} CopiedWhileDraining()
    ensures var s := Perform(Perform(Perform(Perform(Perform(
                       Empty(600_000), ReadClock), ListStaging([])), BeginCopy(SEGMENT, "x")), EndCopy), PublishGauge);
            && s.gauge == Some(1) && s.uploads == map[] && SEGMENT in s.staging
            && s.offered == map[SEGMENT := Offer("x", 600_002, Some(600_003))]
  {
    hide IsSegmentName;
    var s1 := DoReadClock(Empty(600_000));
    var s2 := DoListStaging(s1, []);
    NothingIsQueued([]);
    assert s2 == Empty(600_002).(shipper := Draining(600_000, 600_001, [], Waiting));
    var s3 := DoBeginCopy(s2, SEGMENT, "x");
    assert s3.copy == Copying(SEGMENT, 0) && s3.offered == map[SEGMENT := Offer("x", 600_002, None)];
    assert s3.shipper == s2.shipper && s3.uploads == map[] && s3.clock == 600_003 && SEGMENT in s3.staging;
    assert Rounded(600_000) == 1;
  }

  lemma {:induction false} NothingIsQueued(order: seq<string>)
    requires forall name :: name in order ==> !IsShippable(name)
    ensures Filter(order, name => IsShippable(name)) == []
  {
    if Filter(order, name => IsShippable(name)) != [] {
      FilterKeeps(order, name => IsShippable(name), Filter(order, name => IsShippable(name))[0]);
    }
  }

  /** With nothing shippable staged a ship run is three steps and publishes its clock reading. */
  lemma {:induction false} QuietRun(s: State, order: seq<string>)
    requires s.shipper.ShipperResting? && Lists(order, s.staging.Keys)
    requires forall name :: name in s.staging ==> !IsShippable(name)
    ensures Perform(Perform(Perform(s, ReadClock), ListStaging(order)), PublishGauge)
            == s.(clock := s.clock + 3, gauge := Some(Rounded(s.clock)), gaugeRead := s.clock,
                  gaugeListed := s.clock + 1, shipper := ShipperResting)
  {
    hide Rounded, IsShippable;
    forall name | name in order ensures name in s.staging {
      assert name in Elements(order);
    }
    NothingIsQueued(order);
    var drained := DoListStaging(DoReadClock(s), order);
    assert drained == s.(clock := s.clock + 2, shipper := Draining(s.clock, s.clock + 1, [], Waiting));
  }

  /** A file wearing an intermediate's suffix is never sent, and once staged it is staged for ever. */
  lemma {:induction false} UnshippableNeverLeaves(s0: State, events: seq<Event>, more: seq<Event>, name: string)
    requires Starts(s0) && !IsShippable(name)
    ensures name !in Run(s0, events + more).uploads
    ensures name in Run(s0, events).staging ==> name in Run(s0, events + more).staging
    decreases |more|
  {
    hide Perform, Inv, IsShippable;
    EveryReachableStateKeeps(s0, events + more);
    OnlyShippableIsSent(Run(s0, events + more), name);
    if more == [] {
      assert events + more == events;
    } else if name in Run(s0, events).staging {
      var most := more[..|more| - 1];
      UnshippableNeverLeaves(s0, events, most, name);
      assert (events + more)[..|events + more| - 1] == events + most;
      EveryReachableStateKeeps(s0, events + most);
      UnshippableStays(Run(s0, events + most), more[|more| - 1], name);
    }
  }

  lemma {:induction false} OnlyShippableIsSent(s: State, name: string)
    requires Inv(s) && !IsShippable(name)
    ensures name !in s.uploads
  {
    hide IsShippable;
  }

  lemma {:induction false} UnshippableStays(s: State, event: Event, name: string)
    requires ShipperInv(s.shipper, s.staging, s.offered, s.uploads) && !IsShippable(name) && name in s.staging
    ensures name in Perform(s, event).staging
  {
    hide IsShippable, Ascending, Filter, Rounded, MayBegin;
    hide DoStampDump, DoUploadDump, DoPlanRetention, DoDeleteDump, DoListWal, DoDeleteWal, DoStartRecovery, DoFetchNext,
      Lists;
    if IsOtherStep(event) {
      OtherStepsKeepFiles(s, event);
    } else if event.UnlinkSegment? {
      assert s.shipper.Draining? && s.shipper.queue != [] ==> s.shipper.queue[0] in s.shipper.queue;
    }
  }

  /** A `.partial` file that Postgres archives is passed over for ever, while the gauge reads fresh. */
  lemma {:induction false} PartialIsClaimedButNeverSent(more: seq<Event>)
    ensures var events := [BeginCopy(PARTIAL, "x"), EndCopy, Tick(2_000_000)]
                          + [ReadClock, ListStaging([PARTIAL]), PublishGauge];
            var s, t := Run(Empty(0), events), Run(Empty(0), events + more);
            && s.gauge == Some(2)
            && PARTIAL in s.offered && s.offered[PARTIAL].ended == Some(1)
            && PARTIAL !in t.uploads && PARTIAL in t.staging
  {
    var first := [BeginCopy(PARTIAL, "x"), EndCopy, Tick(2_000_000)];
    var second := [ReadClock, ListStaging([PARTIAL]), PublishGauge];
    hide Run, Perform, IsShippable, Rounded;
    PartialIsStaged();
    PartialIsPassedOver();
    RunOfRun(Empty(0), first, second);
    RunThree(Empty(0), first[0], first[1], first[2]);
    RunThree(Run(Empty(0), first), second[0], second[1], second[2]);
    QuietRun(Run(Empty(0), first), [PARTIAL]);
    assert Rounded(2_000_002) == 2 by { RoundsToTwo(); }
    UnshippableNeverLeaves(Empty(0), first + second, more, PARTIAL);
  }

  lemma {:induction false} RoundsToTwo()
    ensures Rounded(2_000_002) == 2
  {
  }

  lemma {:induction false} PartialIsStaged()
    ensures var s := Perform(Perform(Perform(Empty(0), BeginCopy(PARTIAL, "x")), EndCopy), Tick(2_000_000));
            && s.clock == 2_000_002 && s.shipper == ShipperResting && s.staging == map[PARTIAL := Plain("x")]
            && s.offered == map[PARTIAL := Offer("x", 0, Some(1))]
  {
    var s := DoBeginCopy(Empty(0), PARTIAL, "x");
    assert s.copy == Copying(PARTIAL, 0) && s.offered == map[PARTIAL := Offer("x", 0, None)] && s.clock == 1;
    assert s.staging == map[PARTIAL := Plain("")];
  }

  lemma {:induction false} PartialIsPassedOver()
    ensures Lists([PARTIAL], {PARTIAL}) && !IsShippable(PARTIAL) && Starts(Empty(0))
  {
    assert EndsWith(PARTIAL, ".partial");
  }
}
