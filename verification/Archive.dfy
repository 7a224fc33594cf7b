// The backup path of deployments/ops as one system of steps: Postgres copies files into a staging volume, the shipper
// (ship.py) drains it into a bucket, the nightly dump (dump.py) prunes the bucket, and a recovery (fetch_segment.py)
// reads it back. Any process may stop dead between any two of its steps.
//
// The copy is the `cp` of docker-compose.yml's `archive_command`, which writes under the file's own name: a listing
// can find the file half written, and an unlinking can take it away from under the copy.
//
// Assumed of the surroundings: Postgres offers files in ascending order of name, one at a time, the same bytes at
// every attempt and never none, and goes on to the next only when a copy has ended; a copy's last write is its end;
// one shipper and one nightly dump run at a time; only these steps write to the bucket; the clock moves on with every
// step and is in a year `%Y` writes with four digits.
module Archive {
  import opened Wrappers
  import opened Text
  import opened Naming
  import opened Retention

  // gzip and gpg as wrappers that only their own inverse takes off.
  datatype Blob = Plain(bytes: string) | Gzip(of: Blob) | Gpg(of: Blob)

  datatype Object = Object(content: Blob, modifiedAt: int)

  /** A file Postgres has begun to copy: what it holds, when the first attempt began, and when one ended, which is when
      Postgres takes the file for archived. */
  datatype Offer = Offer(bytes: string, begun: int, ended: Option<int>)

  /** An attempt under way, and how much of the file it has written. */
  datatype Copy =
    | NoCopy
    | Copying(name: string, done: nat)

  /** How far the head of the queue has come: `at` is when gzip read the file. */
  datatype Stage =
    | Waiting
    | Packed(content: Blob, at: int)
    | Sent

  datatype Shipper =
    | ShipperResting
    | ClockRead(readAt: int)
    | Draining(readAt: int, listedAt: int, queue: seq<string>, stage: Stage)

  datatype Dumper =
    | DumperResting
    | Uploading(name: string, done: nat)
    | DeletingDumps(oldest: int, dumpQueue: seq<string>)
    | DeletingWal(oldest: int, walQueue: seq<string>)

  /** What a fetch hands over, and when gzip had read it off the volume. */
  datatype Replay = Replay(bytes: string, packedAt: int)

  datatype Recovery =
    | NoRecovery
    | Replaying(dump: string, since: int, start: nat, next: nat, replayed: seq<Replay>)
    | EndOfArchive(dump: string, since: int, start: nat, next: nat, replayed: seq<Replay>)

  /** The host, the bucket and the processes. The last six are history: what Postgres ever began to copy, the segments
      among them in order, when each name last went up and when gzip had read what went up then, and the clock reading
      and the listing behind the published gauge. */
  datatype State = State(
    clock: int,
    staging: map<string, Blob>,
    copy: Copy,
    wal: map<string, Object>,
    dumps: set<string>,
    gauge: Option<int>,
    shipper: Shipper,
    dumper: Dumper,
    recovery: Recovery,
    offered: map<string, Offer>,
    requests: seq<string>,
    uploads: map<string, int>,
    packed: map<string, int>,
    gaugeRead: int,
    gaugeListed: int)

  datatype Event =
    | Tick(span: nat)
    | BeginCopy(name: string, bytes: string)
    | CopyMore(upTo: nat)
    | EndCopy
    | CopyStops
    | ReadClock
    | ListStaging(order: seq<string>)
    | PackSegment
    | UploadSegment
    | UnlinkSegment
    | PublishGauge
    | ShipperStops
    | StampDump
    | UploadDump
    | PlanRetention(listing: seq<string>)
    | DeleteDump
    | ListWal(segments: seq<(string, int)>)
    | DeleteWal
    | DumperStops
    | StartRecovery(dump: string, start: nat)
    | FetchNext
    | RecoveryStops

  // ---- Names ----

  /** A staged file the shipper takes: anything but an intermediate, `.history` included. */
  predicate IsShippable(name: string) {
    !EndsWith(name, ".gz") && !EndsWith(name, ".gpg") && !EndsWith(name, ".tmp") && !EndsWith(name, ".partial")
  }

  predicate IsHex(c: char) {
    '0' <= c <= '9' || 'A' <= c <= 'F'
  }

  /** How Postgres names a segment. */
  predicate IsSegmentName(name: string) {
    |name| == 24 && forall i :: 0 <= i < 24 ==> IsHex(name[i])
  }

  lemma {:induction false} SegmentsAreShippable(name: string)
    requires IsSegmentName(name)
    ensures IsShippable(name)
  {
    assert IsHex(name[23]);
    LastOfSuffix(name, ".gz");
    LastOfSuffix(name, ".gpg");
    LastOfSuffix(name, ".tmp");
    LastOfSuffix(name, ".partial");
  }

  function SegmentOf(walObject: string): string
    requires |walObject| >= 7
  {
    walObject[..|walObject| - 7]
  }

  predicate IsSegmentObject(walObject: string) {
    |walObject| >= 7 && SegmentObject(SegmentOf(walObject)) == walObject
  }

  lemma {:induction false} SegmentOfObject(name: string)
    ensures IsSegmentObject(SegmentObject(name)) && SegmentOf(SegmentObject(name)) == name
  {
    assert SegmentObject(name)[..|name|] == name;
  }

  // ---- Listings: the same keys, in whatever order the directory or the bucket gives them ----

  ghost predicate NoRepeats<T>(s: seq<T>) {
    forall i, j :: 0 <= i < j < |s| ==> s[i] != s[j]
  }

  ghost predicate Lists<T>(order: seq<T>, keys: set<T>) {
    NoRepeats(order) && Elements(order) == keys
  }

  ghost predicate ListsWal(segments: seq<(string, int)>, wal: map<string, Object>) {
    forall name: string, when: int :: (name, when) in segments <==> name in wal && wal[name].modifiedAt == when
  }

  // ---- The steps ----

  ghost function Later(s: State): State {
    s.(clock := s.clock + 1)
  }

  ghost function DoTick(s: State, span: nat): State {
    s.(clock := s.clock + span)
  }

  ghost predicate ComesLast(offered: map<string, Offer>, name: string) {
    forall earlier :: earlier in offered ==> Less(earlier, name)
  }

  /** A file is copied once those before it have been, or again while no attempt at it has ended. */
  ghost predicate MayBegin(offered: map<string, Offer>, name: string, bytes: string) {
    if name in offered then offered[name].ended.None? && offered[name].bytes == bytes
    else
      && bytes != "" && ComesLast(offered, name)
      && forall earlier :: earlier in offered ==> offered[earlier].ended.Some?
  }

  /** `test ! -f` lets an attempt begin only when no file stands under the name. */
  ghost predicate CanBegin(s: State, name: string, bytes: string) {
    s.copy.NoCopy? && name !in s.staging && MayBegin(s.offered, name, bytes)
  }

  ghost function DoBeginCopy(s: State, name: string, bytes: string): State {
    if CanBegin(s, name, bytes) then
      Later(s).(
        staging := s.staging[name := Plain("")],
        copy := Copying(name, 0),
        offered := if name in s.offered then s.offered else s.offered[name := Offer(bytes, s.clock, None)],
        requests := if name !in s.offered && IsSegmentName(name) then s.requests + [name] else s.requests)
    else s
  }

  /** What is written goes to the file under the name, or to no name once that has been unlinked. */
  ghost function Written(staging: map<string, Blob>, name: string, bytes: string): map<string, Blob> {
    if name in staging then staging[name := Plain(bytes)] else staging
  }

  ghost predicate CanCopyMore(s: State, upTo: nat) {
    && s.copy.Copying? && s.copy.name in s.offered
    && s.copy.done < upTo < |s.offered[s.copy.name].bytes|
  }

  ghost function DoCopyMore(s: State, upTo: nat): State {
    if CanCopyMore(s, upTo) then
      Later(s).(
        staging := Written(s.staging, s.copy.name, s.offered[s.copy.name].bytes[..upTo]),
        copy := Copying(s.copy.name, upTo))
    else s
  }

  ghost predicate CanEndCopy(s: State) {
    s.copy.Copying? && s.copy.name in s.offered
  }

  /** The rest is written and Postgres is told that the file is archived, linked still or not. */
  ghost function DoEndCopy(s: State): State {
    if CanEndCopy(s) then
      var offer := s.offered[s.copy.name];
      Later(s).(
        staging := Written(s.staging, s.copy.name, offer.bytes),
        copy := NoCopy,
        offered := s.offered[s.copy.name := offer.(ended := Some(s.clock))])
    else s
  }

  ghost function DoReadClock(s: State): State {
    if s.shipper.ShipperResting? then Later(s).(shipper := ClockRead(s.clock)) else s
  }

  ghost function DoListStaging(s: State, order: seq<string>): State {
    if s.shipper.ClockRead? && Lists(order, s.staging.Keys) then
      Later(s).(shipper :=
        Draining(s.shipper.readAt, s.clock, Ascending(Filter(order, name => IsShippable(name))), Waiting))
    else s
  }

  ghost predicate CanPack(s: State) {
    s.shipper.Draining? && s.shipper.queue != [] && s.shipper.stage.Waiting? && s.shipper.queue[0] in s.staging
  }

  /** What is compressed is the file as it stands now, whatever is written to it after. */
  ghost function DoPackSegment(s: State): State {
    if CanPack(s) then Later(s).(shipper := s.shipper.(stage := Packed(Gzip(s.staging[s.shipper.queue[0]]), s.clock)))
    else s
  }

  ghost predicate CanUpload(s: State) {
    s.shipper.Draining? && s.shipper.queue != [] && s.shipper.stage.Packed?
  }

  ghost function DoUploadSegment(s: State): State {
    if CanUpload(s) then
      var segment, stage := s.shipper.queue[0], s.shipper.stage;
      Later(s).(
        wal := s.wal[SegmentObject(segment) := Object(Gpg(stage.content), s.clock)],
        uploads := s.uploads[segment := s.clock],
        packed := s.packed[segment := stage.at],
        shipper := s.shipper.(stage := Sent))
    else s
  }

  ghost function DoUnlinkSegment(s: State): State {
    if s.shipper.Draining? && s.shipper.queue != [] && s.shipper.stage.Sent? then
      Later(s).(
        staging := s.staging - {s.shipper.queue[0]},
        shipper := s.shipper.(queue := s.shipper.queue[1..], stage := Waiting))
    else s
  }

  /** `{value:.0f}`: the nearest second, and the even one of two. */
  function Rounded(microseconds: int): int {
    var below, rest := microseconds / MICROSECONDS, microseconds % MICROSECONDS;
    if 2 * rest < MICROSECONDS || (2 * rest == MICROSECONDS && below % 2 == 0) then below else below + 1
  }

  ghost function DoPublishGauge(s: State): State {
    if s.shipper.Draining? && s.shipper.queue == [] then
      Later(s).(
        gauge := Some(Rounded(s.shipper.readAt)),
        gaugeRead := s.shipper.readAt,
        gaugeListed := s.shipper.listedAt,
        shipper := ShipperResting)
    else s
  }

  ghost function DoStampDump(s: State): State {
    if s.dumper.DumperResting? && HasFourDigitYear(s.clock) then
      Later(s).(dumper := Uploading(Stamp(s.clock), 0))
    else s
  }

  /** The dump first, then its fingerprint. */
  ghost function DoUploadDump(s: State): State {
    if s.dumper.Uploading? && s.dumper.done < 2 then
      Later(s).(
        dumps := s.dumps + {ObjectsFor(s.dumper.name)[s.dumper.done]},
        dumper := Uploading(s.dumper.name, s.dumper.done + 1))
    else s
  }

  /** Where planning leaves the nightly run: at the plan's deletions, or at its end. */
  ghost function Planned(listing: seq<string>, name: string): Dumper {
    match PlanFor(listing, name)
    case Failure(_) => DumperResting
    case Success(plan) =>
      if plan.keep == [] || TakenAt(OldestKept(plan)).None? then DumperResting
      else DeletingDumps(TakenAt(OldestKept(plan)).value, ObjectsToDelete(listing, plan.delete))
  }

  ghost function DoPlanRetention(s: State, listing: seq<string>): State {
    if s.dumper.Uploading? && s.dumper.done == 2 && Lists(listing, s.dumps) then
      Later(s).(dumper := Planned(listing, s.dumper.name))
    else s
  }

  ghost function DoDeleteDump(s: State): State {
    if s.dumper.DeletingDumps? && s.dumper.dumpQueue != [] then
      var gone := s.dumper.dumpQueue[0];
      Later(s).(
        dumps := s.dumps - {gone},
        dumper := DeletingDumps(s.dumper.oldest, s.dumper.dumpQueue[1..]),
        recovery := if s.recovery.Replaying? && DumpObject(s.recovery.dump) == gone then NoRecovery else s.recovery)
    else s
  }

  ghost function DoListWal(s: State, segments: seq<(string, int)>): State {
    if s.dumper.DeletingDumps? && s.dumper.dumpQueue == [] && ListsWal(segments, s.wal) then
      Later(s).(dumper := DeletingWal(s.dumper.oldest, WalToDelete(segments, s.dumper.oldest)))
    else s
  }

  ghost function DoDeleteWal(s: State): State {
    if s.dumper.DeletingWal? && s.dumper.walQueue != [] then
      Later(s).(
        wal := s.wal - {s.dumper.walQueue[0]},
        dumper := DeletingWal(s.dumper.oldest, s.dumper.walQueue[1..]))
    else s
  }

  /** The first segment the bucket shows as uploaded at or after an instant, or the one after the last it was sent. */
  ghost predicate StartsAt(s: State, taken: int, start: nat) {
    && start <= |s.requests|
    && (forall i :: 0 <= i < start ==> s.requests[i] in s.uploads)
    && (forall i :: 0 <= i < start && SegmentObject(s.requests[i]) in s.wal ==>
          s.wal[SegmentObject(s.requests[i])].modifiedAt < taken * MICROSECONDS)
    && if start < |s.requests| && s.requests[start] in s.uploads then
         && SegmentObject(s.requests[start]) in s.wal
         && taken * MICROSECONDS <= s.wal[SegmentObject(s.requests[start])].modifiedAt
       else
         forall i :: start <= i < |s.requests| ==> s.requests[i] !in s.uploads
  }

  ghost predicate HoldsDump(dumps: set<string>, name: string) {
    IsBackupName(name) && TakenAt(name).Some? && DumpObject(name) in dumps
  }

  ghost function DoStartRecovery(s: State, dump: string, start: nat): State {
    if HoldsDump(s.dumps, dump) && StartsAt(s, TakenAt(dump).value, start) then
      Later(s).(recovery := Replaying(dump, s.clock, start, start, []))
    else s
  }

  ghost predicate NextIsHeld(s: State)
    requires s.recovery.Replaying?
  {
    s.recovery.next < |s.requests| && SegmentObject(s.requests[s.recovery.next]) in s.wal
  }

  function Decoded(content: Blob): Option<string> {
    if content.Gpg? && content.of.Gzip? && content.of.of.Plain? then Some(content.of.of.bytes) else None
  }

  /** The next name is asked for: what is held under it is replayed, or the recovery is told that nothing is. */
  ghost function Fetched(s: State): Recovery
    requires s.recovery.Replaying?
  {
    var r := s.recovery;
    if NextIsHeld(s) then
      var segment := s.requests[r.next];
      match Decoded(s.wal[SegmentObject(segment)].content)
      case None => NoRecovery
      case Some(bytes) =>
        Replaying(r.dump, r.since, r.start, r.next + 1,
                  r.replayed + [Replay(bytes, if segment in s.packed then s.packed[segment] else s.clock)])
    else EndOfArchive(r.dump, r.since, r.start, r.next, r.replayed)
  }

  ghost function DoFetchNext(s: State): State {
    if s.recovery.Replaying? then Later(s).(recovery := Fetched(s)) else s
  }

  ghost function Perform(s: State, event: Event): State {
    match event
    case Tick(span) => DoTick(s, span)
    case BeginCopy(name, bytes) => DoBeginCopy(s, name, bytes)
    case CopyMore(upTo) => DoCopyMore(s, upTo)
    case EndCopy => DoEndCopy(s)
    case CopyStops => Later(s).(copy := NoCopy)
    case ReadClock => DoReadClock(s)
    case ListStaging(order) => DoListStaging(s, order)
    case PackSegment => DoPackSegment(s)
    case UploadSegment => DoUploadSegment(s)
    case UnlinkSegment => DoUnlinkSegment(s)
    case PublishGauge => DoPublishGauge(s)
    case ShipperStops => Later(s).(shipper := ShipperResting)
    case StampDump => DoStampDump(s)
    case UploadDump => DoUploadDump(s)
    case PlanRetention(listing) => DoPlanRetention(s, listing)
    case DeleteDump => DoDeleteDump(s)
    case ListWal(segments) => DoListWal(s, segments)
    case DeleteWal => DoDeleteWal(s)
    case DumperStops => Later(s).(dumper := DumperResting)
    case StartRecovery(dump, start) => DoStartRecovery(s, dump, start)
    case FetchNext => DoFetchNext(s)
    case RecoveryStops => Later(s).(recovery := NoRecovery)
  }

  /** Nothing offered or shipped yet; the bucket may hold any dumps from before, none stamped in the future. */
  ghost predicate Starts(s: State) {
    && s.staging == map[] && s.copy == NoCopy && s.wal == map[] && s.gauge == None
    && s.shipper == ShipperResting && s.dumper == DumperResting && s.recovery == NoRecovery
    && s.offered == map[] && s.requests == [] && s.uploads == map[] && s.packed == map[]
    && forall name :: HoldsDump(s.dumps, name) ==> TakenAt(name).value * MICROSECONDS <= s.clock
  }

  ghost function Run(s: State, events: seq<Event>): State {
    if events == [] then s else Perform(Run(s, events[..|events| - 1]), events[|events| - 1])
  }

  // ---- What every step keeps ----

  /** Had the copy of a file ended by an instant? */
  predicate EndedBy(offer: Offer, when: int) {
    offer.ended.Some? && offer.ended.value < when
  }

  predicate IsCutShort(bytes: string, whole: string) {
    |bytes| < |whole| && bytes == whole[..|bytes|]
  }

  /** What was taken of a file at an instant: all of it exactly when its copy had ended by then. */
  predicate IsTakenAt(bytes: string, offer: Offer, when: int) {
    if EndedBy(offer, when) then bytes == offer.bytes else IsCutShort(bytes, offer.bytes)
  }

  /** A staged file is a copy's work: whole once a copy has ended, cut short before. */
  predicate IsStagedCopy(staged: Blob, offer: Offer) {
    && staged.Plain?
    && if offer.ended.Some? then staged.bytes == offer.bytes else IsCutShort(staged.bytes, offer.bytes)
  }

  /** Only the last file offered can be waiting for a copy to end, and a copy under way is of that file. */
  ghost predicate CopyInv(copy: Copy, staging: map<string, Blob>, offered: map<string, Offer>) {
    && (forall name, other :: name in offered && offered[name].ended.None? && other in offered && other != name ==>
          Less(other, name))
    && (forall name :: name in offered ==> offered[name].bytes != "")
    && (copy.Copying? ==>
          && copy.name in offered && offered[copy.name].ended.None? && copy.done < |offered[copy.name].bytes|
          && (copy.name in staging ==> staging[copy.name] == Plain(offered[copy.name].bytes[..copy.done])))
  }

  /** Staged files are copies of offered ones; a shippable file once offered is staged or has gone up. */
  ghost predicate StagingInv(staging: map<string, Blob>, offered: map<string, Offer>, uploads: map<string, int>) {
    && (forall name :: name in staging ==> name in offered && IsStagedCopy(staging[name], offered[name]))
    && (forall name :: name in uploads ==> name in offered && IsShippable(name))
    && (forall name :: name in offered && IsShippable(name) ==> name in staging || name in uploads)
  }

  /** What has gone up is a prefix in name order, and only its last name can still be staged. */
  ghost predicate PrefixInv(staging: map<string, Blob>, offered: map<string, Offer>, uploads: map<string, int>) {
    && (forall early, late :: late in uploads && early in offered && IsShippable(early) && Less(early, late) ==>
          early in uploads && early !in staging)
    && (forall early, late :: early in uploads && late in uploads && Less(early, late) ==>
          uploads[early] < uploads[late])
  }

  /** Every object is a file under its own name: all of it exactly when its copy had ended before gzip read it. */
  ghost predicate BucketInv(wal: map<string, Object>, offered: map<string, Offer>, uploads: map<string, int>,
                            packed: map<string, int>)
  {
    && (forall name :: name in uploads <==> name in packed)
    && (forall name :: name in uploads ==> packed[name] < uploads[name])
    && (forall o :: o in wal ==> IsSegmentObject(o) && SegmentOf(o) in uploads)
    && (forall name :: name in uploads && SegmentObject(name) in wal ==>
          && name in offered && IsObjectOf(wal[SegmentObject(name)], offered[name], uploads[name], packed[name]))
  }

  ghost predicate IsObjectOf(held: Object, offer: Offer, sentAt: int, packedAt: int) {
    held.modifiedAt == sentAt && Decoded(held.content).Some? && IsTakenAt(Decoded(held.content).value, offer, packedAt)
  }

  ghost predicate IsPruned(wal: map<string, Object>, uploads: map<string, int>, name: string) {
    name in uploads && SegmentObject(name) !in wal
  }

  ghost predicate HasNewer(uploads: map<string, int>, name: string) {
    exists newer :: newer in uploads && Less(name, newer)
  }

  /** Every pruned segment went up more than the margin before this instant, given in seconds. */
  ghost predicate PrunedBefore(wal: map<string, Object>, uploads: map<string, int>, taken: int) {
    forall name :: IsPruned(wal, uploads, name) ==>
      uploads[name] < (taken - WAL_RETENTION_MARGIN_SECONDS) * MICROSECONDS
  }

  /** No dump in the bucket is within the margin of a pruned segment, and the newest segment is never pruned. */
  ghost predicate CoverageInv(dumps: set<string>, wal: map<string, Object>, uploads: map<string, int>) {
    && (forall name :: HoldsDump(dumps, name) ==> PrunedBefore(wal, uploads, TakenAt(name).value))
    && (forall name :: IsPruned(wal, uploads, name) ==> HasNewer(uploads, name))
  }

  /** What had been offered when the volume was listed for the gauge has gone up. */
  ghost predicate GaugeInv(gauge: Option<int>, read: int, listed: int, offered: map<string, Offer>,
                           uploads: map<string, int>)
  {
    gauge.Some? ==>
      && gauge.value == Rounded(read) && read < listed
      && forall name :: name in offered && IsShippable(name) && offered[name].begun < listed ==> name in uploads
  }

  ghost predicate StrictlyAscending(s: seq<string>) {
    forall i, j :: 0 <= i < j < |s| ==> Less(s[i], s[j])
  }

  /** The shipper's queue is staged, in name order, and leaves out only what was first offered after its listing, or has
      gone up and is being copied again. Nothing goes up that was first offered after the listing. */
  ghost predicate ShipperInv(shipper: Shipper, staging: map<string, Blob>, offered: map<string, Offer>,
                             uploads: map<string, int>)
  {
    shipper.Draining? ==>
      && shipper.readAt < shipper.listedAt
      && StrictlyAscending(shipper.queue)
      && (forall name :: name in shipper.queue ==> name in staging && IsShippable(name))
      && (forall name :: name in staging && IsShippable(name) && name !in shipper.queue ==>
            && name in offered && (shipper.listedAt <= offered[name].begun || name in uploads)
            && forall queued :: queued in shipper.queue ==> Less(queued, name))
      && (forall name :: name in shipper.queue || name in uploads ==>
            name in offered && offered[name].begun < shipper.listedAt)
      && match shipper.stage
         case Waiting => true
         case Packed(content, at) =>
           shipper.queue != [] && shipper.queue[0] in offered && IsPackedOf(content, offered[shipper.queue[0]], at)
         case Sent => shipper.queue != [] && shipper.queue[0] in uploads
  }

  predicate IsPackedOf(content: Blob, offer: Offer, at: int) {
    content.Gzip? && content.of.Plain? && IsTakenAt(content.of.bytes, offer, at)
  }

  ghost predicate DumperInv(dumper: Dumper, dumps: set<string>, wal: map<string, Object>, uploads: map<string, int>) {
    match dumper
    case DumperResting => true
    case Uploading(name, done) =>
      done <= 2 && IsBackupName(name) && TakenAt(name).Some? && PrunedBefore(wal, uploads, TakenAt(name).value)
    case DeletingDumps(oldest, queue) =>
      forall name :: HoldsDump(dumps, name) ==> oldest <= TakenAt(name).value || DumpObject(name) in queue
    case DeletingWal(oldest, queue) =>
      && (forall name :: HoldsDump(dumps, name) ==> oldest <= TakenAt(name).value)
      && forall o :: o in queue ==>
           && IsSegmentObject(o) && SegmentOf(o) in uploads && HasNewer(uploads, SegmentOf(o))
           && uploads[SegmentOf(o)] < (oldest - WAL_RETENTION_MARGIN_SECONDS) * MICROSECONDS
  }

  ghost predicate RequestsInv(requests: seq<string>, offered: map<string, Offer>) {
    && StrictlyAscending(requests)
    && (forall name :: name in requests <==> name in offered && IsSegmentName(name))
  }

  /** A recovery has been handed what the bucket held, in order; all that was sent from its start on is as recent as its
      dump; and what comes before its start went up before the dump was taken, or again since the recovery began. */
  ghost predicate RecoveryInv(recovery: Recovery, dumps: set<string>, requests: seq<string>,
                              offered: map<string, Offer>, uploads: map<string, int>)
  {
    recovery.Replaying? ==>
      && HoldsDump(dumps, recovery.dump)
      && recovery.start <= recovery.next <= |requests|
      && |recovery.replayed| == recovery.next - recovery.start
      && (forall i :: recovery.start <= i < recovery.next ==>
            IsReplayOf(recovery.replayed[i - recovery.start], requests[i], offered))
      && (forall i :: 0 <= i < recovery.next ==> requests[i] in uploads)
      && (forall i :: recovery.start <= i < |requests| && requests[i] in uploads ==>
            TakenAt(recovery.dump).value * MICROSECONDS <= uploads[requests[i]])
      && (forall i :: 0 <= i < recovery.start && requests[i] in uploads ==>
            WentUpBefore(uploads[requests[i]], TakenAt(recovery.dump).value, recovery.since))
  }

  /** What a fetch handed over is all of the file exactly when its copy had ended before gzip read it. */
  predicate IsReplayOf(replay: Replay, name: string, offered: map<string, Offer>) {
    name in offered && IsTakenAt(replay.bytes, offered[name], replay.packedAt)
  }

  predicate WentUpBefore(sentAt: int, taken: int, since: int) {
    sentAt < taken * MICROSECONDS || since <= sentAt
  }

  // What is on record is not later than now.

  ghost predicate OffersArePast(offered: map<string, Offer>, clock: int) {
    forall name :: name in offered ==> IsPast(offered[name], clock)
  }

  ghost predicate UploadsArePast(uploads: map<string, int>, clock: int) {
    forall name :: name in uploads ==> uploads[name] < clock
  }

  predicate ShipperIsPast(shipper: Shipper, clock: int) {
    match shipper
    case ShipperResting => true
    case ClockRead(readAt) => readAt < clock
    case Draining(_, listedAt, _, stage) => listedAt < clock && (stage.Packed? ==> stage.at < clock)
  }

  ghost predicate RecoveryIsPast(recovery: Recovery, clock: int) {
    recovery.Replaying? ==>
      && recovery.since < clock
      && forall k :: 0 <= k < |recovery.replayed| ==> recovery.replayed[k].packedAt < clock
  }

  ghost predicate DumpsArePast(dumps: set<string>, clock: int) {
    forall name :: HoldsDump(dumps, name) ==> TakenAt(name).value * MICROSECONDS <= clock
  }

  predicate DumperIsPast(dumper: Dumper, clock: int) {
    match dumper
    case DumperResting => true
    case Uploading(name, _) => TakenAt(name).Some? && TakenAt(name).value * MICROSECONDS <= clock
    case DeletingDumps(oldest, _) => oldest * MICROSECONDS <= clock
    case DeletingWal(oldest, _) => oldest * MICROSECONDS <= clock
  }

  /** Nothing on record is later than now, and nothing pruned is within the margin of now. */
  ghost predicate ClockInv(s: State) {
    && OffersArePast(s.offered, s.clock)
    && UploadsArePast(s.uploads, s.clock)
    && (s.gauge.Some? ==> s.gaugeListed < s.clock)
    && ShipperIsPast(s.shipper, s.clock)
    && RecoveryIsPast(s.recovery, s.clock)
    && DumpsArePast(s.dumps, s.clock)
    && PrunedBefore(s.wal, s.uploads, s.clock / MICROSECONDS)
    && DumperIsPast(s.dumper, s.clock)
  }

  predicate IsPast(offer: Offer, clock: int) {
    offer.begun < clock && (offer.ended.Some? ==> offer.begun < offer.ended.value < clock)
  }

  ghost predicate Inv(s: State) {
    && CopyInv(s.copy, s.staging, s.offered)
    && StagingInv(s.staging, s.offered, s.uploads)
    && PrefixInv(s.staging, s.offered, s.uploads)
    && BucketInv(s.wal, s.offered, s.uploads, s.packed)
    && CoverageInv(s.dumps, s.wal, s.uploads)
    && GaugeInv(s.gauge, s.gaugeRead, s.gaugeListed, s.offered, s.uploads)
    && ShipperInv(s.shipper, s.staging, s.offered, s.uploads)
    && DumperInv(s.dumper, s.dumps, s.wal, s.uploads)
    && RequestsInv(s.requests, s.offered)
    && RecoveryInv(s.recovery, s.dumps, s.requests, s.offered, s.uploads)
    && ClockInv(s)
  }
}
