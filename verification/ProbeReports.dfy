// Exactly what the probe reports, in its own arithmetic over sets of free instants, and so when it reports nothing.
module ProbeReports {
  import opened Wrappers
  import opened Text
  import opened Intervals
  import opened Probe
  import opened ProbeLaws

  // ---- Which instants are free ----

  ghost predicate Covers(intervals: seq<Interval>, t: Instant) {
    exists i :: 0 <= i < |intervals| && intervals[i].start <= t < intervals[i].end
  }

  ghost predicate IsForbidden(scoped: seq<ScopedWindow>, area: Area, t: Instant) {
    exists i :: 0 <= i < |scoped| && area in scoped[i].forbidden &&
                scoped[i].interval.start <= t < scoped[i].interval.end
  }

  lemma {:induction false} CoversIs(intervals: seq<Interval>, t: Instant)
    ensures t in Points(intervals) <==> Covers(intervals, t)
  {
    CoveredBy(intervals, t);
    assert forall i :: 0 <= i < |intervals| ==>
        (t in Span(intervals[i]) <==> intervals[i].start <= t < intervals[i].end);
  }

  lemma {:induction false} ForbiddenIs(scoped: seq<ScopedWindow>, area: Area, t: Instant)
    ensures t in Points(ScopedAgainst(scoped, area)) <==> IsForbidden(scoped, area, t)
  {
    if scoped != [] {
      var most, last := scoped[..|scoped| - 1], scoped[|scoped| - 1];
      ForbiddenIs(most, area, t);
      if area in last.forbidden {
        OneMoreSpan(ScopedAgainst(most, area), last.interval);
      } else {
        assert ScopedAgainst(most, area) + [] == ScopedAgainst(most, area);
      }
      hide Points, ScopedAgainst;
      if IsForbidden(most, area, t) {
        var i :| 0 <= i < |most| && area in most[i].forbidden &&
                 most[i].interval.start <= t < most[i].interval.end;
        assert scoped[i] == most[i];
      }
    }
  }

  /** An instant counts in a week when nothing that is always taken covers it; it is free from now on, where nothing is
      placed; and it is an Area's own where no window that names the Area covers it. */
  lemma {:induction false} FreeInstantsAre(inputs: ProbeInputs, area: Area, t: Instant)
    ensures t in Discretionary(inputs) <==>
            && inputs.span.start <= t < inputs.span.end
            && !Covers(inputs.frame, t) && !Covers(inputs.anchors, t) && !Covers(inputs.absolute, t)
            && !Covers(inputs.offPlan, t)
    ensures t in Free(inputs) <==>
            t in Discretionary(inputs) && inputs.now <= t && !Covers(inputs.placed, t)
    ensures t in FreeFor(inputs, area) <==> t in Free(inputs) && !IsForbidden(inputs.scoped, area, t)
  {
    CoversIs(inputs.frame, t);
    CoversIs(inputs.anchors, t);
    CoversIs(inputs.absolute, t);
    CoversIs(inputs.offPlan, t);
    CoversIs(inputs.placed, t);
    ForbiddenIs(inputs.scoped, area, t);
    hide Points, Covers, IsForbidden, ScopedAgainst;
  }

  /** Whole minutes of a number of microseconds. */
  function Whole(instants: set<Instant>): nat {
    |instants| / 60_000_000
  }

  // ---- The week ----

  function Total(reservations: seq<FloorReservation>): nat {
    if reservations == [] then 0 else reservations[0].reserved + Total(reservations[1..])
  }

  /** The names of the floors that reserve anything. */
  function Reserving(reservations: seq<FloorReservation>): seq<string> {
    if reservations == [] then []
    else (if reservations[0].reserved == 0 then [] else [reservations[0].name]) + Reserving(reservations[1..])
  }

  lemma {:induction false} TotalIsReserved(reservations: seq<FloorReservation>)
    ensures Total(reservations) == Reserved(reservations)
    ensures Reserving(reservations) == NamesReserving(reservations)
  {
    if reservations != [] {
      var most, last := reservations[..|reservations| - 1], reservations[|reservations| - 1];
      TotalIsReserved(most);
      TotalOfMore(most, last);
      assert most + [last] == reservations;
    }
  }

  lemma {:induction false} TotalOfMore(reservations: seq<FloorReservation>, last: FloorReservation)
    ensures Total(reservations + [last]) == Total(reservations) + last.reserved
    ensures Reserving(reservations + [last]) ==
            Reserving(reservations) + if last.reserved == 0 then [] else [last.name]
  {
    if reservations == [] {
      assert [] + [last] == [last] && [last][1..] == [];
    } else {
      TotalOfMore(reservations[1..], last);
      assert (reservations + [last])[1..] == reservations[1..] + [last];
    }
  }

  /** All that is reserved against all that is free. */
  ghost predicate IsWeekReport(inputs: ProbeInputs, report: seq<Shortfall>) {
    var short := Total(inputs.reservations) - Whole(Free(inputs));
    if short > 0 then
      report == [Shortfall(FloorsExceedCapacity, short, Reserving(inputs.reservations), None, None, [])]
    else report == []
  }

  lemma {:induction false} WeekReportIs(inputs: ProbeInputs)
    ensures IsWeekReport(inputs, WeekShortfalls(inputs))
  {
    hide Free;
    TotalIsReserved(inputs.reservations);
  }

  // ---- The order of the demands ----

  predicate AreAlike(one: DeadlineDemand, other: DeadlineDemand) {
    one.deadline == other.deadline && one.area == other.area && one.labels == other.labels
  }

  /** The demands with the same deadline, Area and names as one, as they are listed. */
  function Alike(demands: seq<DeadlineDemand>, like: DeadlineDemand): seq<DeadlineDemand> {
    if demands == [] then []
    else (if AreAlike(demands[0], like) then [demands[0]] else []) + Alike(demands[1..], like)
  }

  /** By deadline, then by Area, then by the names of the tasks. */
  predicate ComesFirst(one: DeadlineDemand, other: DeadlineDemand) {
    if one.deadline != other.deadline then one.deadline < other.deadline
    else if one.area != other.area then Less(one.area, other.area)
    else one.labels == other.labels || NamesLess(one.labels, other.labels)
  }

  predicate AreInTurn(sorted: seq<DeadlineDemand>) {
    forall j, k :: 0 <= j < k < |sorted| ==> ComesFirst(sorted[j], sorted[k])
  }

  lemma {:induction false} NamesLessIsTotal(one: seq<string>, other: seq<string>)
    ensures one == other || NamesLess(one, other) || NamesLess(other, one)
  {
    if one != [] && other != [] {
      LessIsTotal(one[0], other[0]);
      if one[0] == other[0] {
        NamesLessIsTotal(one[1..], other[1..]);
        assert one == [one[0]] + one[1..] && other == [other[0]] + other[1..];
      }
    }
  }

  lemma {:induction false} NamesLessIsOneWay(one: seq<string>, other: seq<string>)
    ensures !(NamesLess(one, other) && NamesLess(other, one)) && !NamesLess(one, one)
  {
    if one != [] {
      LessIsIrreflexive(one[0]);
      NamesLessIsOneWay(one[1..], one[1..]);
      if other != [] {
        NamesLessIsOneWay(one[1..], other[1..]);
        if Less(one[0], other[0]) {
          LessIsAsymmetric(one[0], other[0]);
        }
        if Less(other[0], one[0]) {
          LessIsAsymmetric(other[0], one[0]);
        }
      }
    }
  }

  lemma {:induction false} NamesLessIsTransitive(a: seq<string>, b: seq<string>, c: seq<string>)
    requires NamesLess(a, b) && NamesLess(b, c)
    ensures NamesLess(a, c)
  {
    if a != [] {
      if Less(a[0], b[0]) && Less(b[0], c[0]) {
        LessIsTransitive(a[0], b[0], c[0]);
      } else if !Less(a[0], b[0]) && !Less(b[0], c[0]) {
        NamesLessIsTransitive(a[1..], b[1..], c[1..]);
      }
    }
  }

  lemma {:induction false} DueBeforeIs(one: DeadlineDemand, other: DeadlineDemand)
    ensures IsDueBefore(one, other) ==> ComesFirst(one, other) && !AreAlike(one, other)
    ensures !IsDueBefore(other, one) ==> ComesFirst(one, other)
  {
    LessIsTotal(one.area, other.area);
    LessIsIrreflexive(one.area);
    if Less(one.area, other.area) {
      LessIsAsymmetric(one.area, other.area);
    }
    NamesLessIsTotal(one.labels, other.labels);
    NamesLessIsOneWay(one.labels, other.labels);
  }

  lemma {:induction false} ComesFirstIsTransitive(a: DeadlineDemand, b: DeadlineDemand, c: DeadlineDemand)
    requires ComesFirst(a, b) && ComesFirst(b, c)
    ensures ComesFirst(a, c)
  {
    if a.area != b.area && b.area != c.area && a.deadline == b.deadline == c.deadline {
      LessIsTransitive(a.area, b.area, c.area);
      LessIsIrreflexive(a.area);
    }
    if a.labels != b.labels && b.labels != c.labels && a.area == b.area == c.area && a.deadline == b.deadline &&
       b.deadline == c.deadline {
      NamesLessIsTransitive(a.labels, b.labels, c.labels);
    }
  }

  lemma {:induction false} InsertedHolds(demand: DeadlineDemand, sorted: seq<DeadlineDemand>, other: DeadlineDemand)
    ensures other in Inserted(demand, sorted) <==> other == demand || other in sorted
  {
    hide IsDueBefore;
    if sorted != [] && IsDueBefore(sorted[0], demand) {
      InsertedHolds(demand, sorted[1..], other);
      assert sorted == [sorted[0]] + sorted[1..];
    }
  }

  lemma {:induction false} InsertedIsInTurn(demand: DeadlineDemand, sorted: seq<DeadlineDemand>)
    requires AreInTurn(sorted)
    ensures AreInTurn(Inserted(demand, sorted))
  {
    hide IsDueBefore, ComesFirst;
    var all := Inserted(demand, sorted);
    if sorted != [] {
      DueBeforeIs(demand, sorted[0]);
      DueBeforeIs(sorted[0], demand);
    }
    if sorted == [] || !IsDueBefore(sorted[0], demand) {
      forall k | 0 < k < |all| ensures ComesFirst(demand, all[k]) {
        assert all[k] == sorted[k - 1];
        if k > 1 {
          ComesFirstIsTransitive(demand, sorted[0], sorted[k - 1]);
        }
      }
    } else {
      var rest := sorted[1..];
      var tail := Inserted(demand, rest);
      InsertedIsInTurn(demand, rest);
      forall k | 0 <= k < |tail| ensures ComesFirst(sorted[0], tail[k]) {
        InsertedHolds(demand, rest, tail[k]);
        assert tail[k] in tail;
        if i :| 0 <= i < |rest| && rest[i] == tail[k] {
          assert sorted[i + 1] == tail[k];
        }
      }
      assert all == [sorted[0]] + tail;
    }
  }

  lemma {:induction false} InsertedAlike(demand: DeadlineDemand, sorted: seq<DeadlineDemand>, like: DeadlineDemand)
    ensures Alike(Inserted(demand, sorted), like) == Alike([demand] + sorted, like)
  {
    hide IsDueBefore;
    assert ([demand] + sorted)[1..] == sorted;
    if sorted != [] && IsDueBefore(sorted[0], demand) {
      InsertedAlike(demand, sorted[1..], like);
      DueBeforeIs(sorted[0], demand);
      assert ([demand] + sorted[1..])[1..] == sorted[1..];
      assert ([sorted[0]] + Inserted(demand, sorted[1..]))[1..] == Inserted(demand, sorted[1..]);
    }
  }

  lemma {:induction false} EmptyIsInTurn()
    ensures AreInTurn([])
  {
  }

  /** The demands are taken by deadline, then by Area, then by the names of their tasks; those alike in all three as
      they are listed. */
  lemma {:induction false} EarliestFirstSorts(demands: seq<DeadlineDemand>)
    ensures var sorted := EarliestFirst(demands);
            && (forall like :: Alike(sorted, like) == Alike(demands, like))
            && (forall demand :: demand in sorted <==> demand in demands) && AreInTurn(sorted)
  {
    hide AreAlike, AreInTurn;
    EmptyIsInTurn();
    if demands != [] {
      var rest := EarliestFirst(demands[1..]);
      EarliestFirstSorts(demands[1..]);
      InsertedIsInTurn(demands[0], rest);
      forall demand ensures demand in EarliestFirst(demands) <==> demand in demands {
        InsertedHolds(demands[0], rest, demand);
      }
      forall like ensures Alike(EarliestFirst(demands), like) == Alike(demands, like) {
        InsertedAlike(demands[0], rest, like);
        assert ([demands[0]] + rest)[1..] == rest;
      }
    }
  }

  // ---- What competes for the capacity before a deadline ----

  ghost predicate HasFloor(reservations: seq<FloorReservation>, area: Area) {
    exists i :: 0 <= i < |reservations| && reservations[i].area == area && reservations[i].reserved > 0
  }

  ghost predicate HasDemand(demands: seq<DeadlineDemand>, area: Area) {
    exists i :: 0 <= i < |demands| && demands[i].area == area
  }

  /** The minutes still reserved for an Area: its last floor that reserves any. */
  function FloorOf(reservations: seq<FloorReservation>, area: Area): nat {
    if reservations == [] then 0
    else
      var last := reservations[|reservations| - 1];
      if last.area == area && last.reserved > 0 then last.reserved
      else FloorOf(reservations[..|reservations| - 1], area)
  }

  /** What an Area's demands were granted: what was available to each, and no more than it owed. */
  function Granted(demands: seq<DeadlineDemand>, available: seq<nat>, area: Area): nat
    requires |available| == |demands|
  {
    if demands == [] then 0
    else
      var most := |demands| - 1;
      Granted(demands[..most], available[..most], area) +
      if demands[most].area != area then 0
      else if available[most] < demands[most].remaining then available[most] else demands[most].remaining
  }

  /** Every other Area with a floor to reach or an earlier demand, once. */
  ghost predicate AreCompetitors(reservations: seq<FloorReservation>, earlier: seq<DeadlineDemand>, mine: Area,
                                 areas: seq<Area>)
  {
    && AreApart(areas)
    && forall area :: area in areas <==> area != mine && (HasFloor(reservations, area) || HasDemand(earlier, area))
  }

  /** Of each of some Areas the larger figure: what its earlier demands were granted, and what of its floor the minutes
      after the deadline cannot hold. */
  function Contest(reservations: seq<FloorReservation>, earlier: seq<DeadlineDemand>, available: seq<nat>,
                   later: nat, areas: seq<Area>): nat
    requires |available| == |earlier|
  {
    if areas == [] then 0
    else
      var last := areas[|areas| - 1];
      var granted, early: int := Granted(earlier, available, last), FloorOf(reservations, last) - later;
      Contest(reservations, earlier, available, later, areas[..|areas| - 1]) +
      if early > granted then early else granted
  }

  /** Of an Area's own minutes, those left by others' work that does not fit beside them. */
  predicate IsLeft(left: nat, own: nat, beside: nat, competing: nat) {
    left == if competing <= beside then own
            else if own + beside <= competing then 0
            else own + beside - competing
  }

  ghost function OwnBefore(inputs: ProbeInputs, demand: DeadlineDemand): set<Instant> {
    set t | t in FreeFor(inputs, demand.area) && t < demand.deadline
  }

  ghost function OthersBefore(inputs: ProbeInputs, demand: DeadlineDemand): set<Instant> {
    set t | t in Free(inputs) && t < demand.deadline && t !in FreeFor(inputs, demand.area)
  }

  ghost function FreeAfter(inputs: ProbeInputs, deadline: Instant): set<Instant> {
    set t | t in Free(inputs) && t >= deadline
  }

  /** What is available to a demand, after the earlier ones and what was available to them. */
  ghost predicate IsAvailable(inputs: ProbeInputs, earlier: seq<DeadlineDemand>, before: seq<nat>,
                              demand: DeadlineDemand, available: nat)
    requires |before| == |earlier|
  {
    exists areas :: AreCompetitors(inputs.reservations, earlier, demand.area, areas) &&
      IsLeft(available, Whole(OwnBefore(inputs, demand)), Whole(OthersBefore(inputs, demand)),
             Granted(earlier, before, demand.area)
             + Contest(inputs.reservations, earlier, before, Whole(FreeAfter(inputs, demand.deadline)), areas))
  }

  /** What is available to each demand in turn. */
  ghost predicate IsLedger(inputs: ProbeInputs, sorted: seq<DeadlineDemand>, available: seq<nat>) {
    && |available| == |sorted|
    && forall n :: 0 <= n < |sorted| ==> IsAvailable(inputs, sorted[..n], available[..n], sorted[n], available[n])
  }

  // ---- The figures are these ----

  lemma {:induction false} OneMoreHas(reservations: seq<FloorReservation>, last: FloorReservation, area: Area)
    ensures HasFloor(reservations + [last], area) <==>
            HasFloor(reservations, area) || (last.area == area && last.reserved > 0)
  {
    var more := reservations + [last];
    assert more[|reservations|] == last;
    if HasFloor(reservations, area) {
      var i :| 0 <= i < |reservations| && reservations[i].area == area && reservations[i].reserved > 0;
      assert more[i] == reservations[i];
    }
  }

  lemma {:induction false} ByAreaIs(reservations: seq<FloorReservation>, area: Area)
    ensures area in ByArea(reservations).values <==> HasFloor(reservations, area)
    ensures area in ByArea(reservations).values ==>
              ByArea(reservations).values[area].reserved == FloorOf(reservations, area)
    ensures area !in ByArea(reservations).values ==> FloorOf(reservations, area) == 0
  {
    hide HasFloor;
    if reservations != [] {
      var most, last := reservations[..|reservations| - 1], reservations[|reservations| - 1];
      ByAreaIs(most, area);
      OneMoreHas(most, last, area);
      assert most + [last] == reservations;
    } else {
      NobodyHas(area);
    }
  }

  lemma {:induction false} OneMoreDemands(demands: seq<DeadlineDemand>, last: DeadlineDemand, area: Area)
    ensures HasDemand(demands + [last], area) <==> HasDemand(demands, area) || last.area == area
  {
    var more := demands + [last];
    assert more[|demands|] == last;
    if HasDemand(demands, area) {
      var i :| 0 <= i < |demands| && demands[i].area == area;
      assert more[i] == demands[i];
    }
  }

  /** What the source makes available to each demand in turn. */
  function LedgerOf(inputs: ProbeInputs, sorted: seq<DeadlineDemand>): (available: seq<nat>)
    ensures |available| == |sorted|
  {
    if sorted == [] then []
    else
      var most := sorted[..|sorted| - 1];
      LedgerOf(inputs, most) + [Available(inputs, sorted[|sorted| - 1], ClaimsOf(inputs, most))]
  }

  lemma {:induction false} LedgerAt(inputs: ProbeInputs, sorted: seq<DeadlineDemand>, n: nat)
    requires n < |sorted|
    ensures LedgerOf(inputs, sorted)[..n] == LedgerOf(inputs, sorted[..n])
    ensures LedgerOf(inputs, sorted)[n] == Available(inputs, sorted[n], ClaimsOf(inputs, sorted[..n]))
  {
    hide Available, ClaimsOf;
    var most := sorted[..|sorted| - 1];
    if n < |most| {
      LedgerAt(inputs, most, n);
      assert most[..n] == sorted[..n];
      assert LedgerOf(inputs, sorted)[..n] == LedgerOf(inputs, most)[..n];
    }
  }

  lemma {:induction false} ClaimedIsGranted(inputs: ProbeInputs, sorted: seq<DeadlineDemand>, area: Area)
    ensures ClaimedBy(ClaimsOf(inputs, sorted), area) == Granted(sorted, LedgerOf(inputs, sorted), area)
    ensures area in ClaimsOf(inputs, sorted).values <==> HasDemand(sorted, area)
  {
    hide Available, HasDemand;
    if sorted == [] {
      NobodyHas(area);
    } else {
      var most, last := sorted[..|sorted| - 1], sorted[|sorted| - 1];
      ClaimedIsGranted(inputs, most, area);
      OneMoreDemands(most, last, area);
      assert most + [last] == sorted;
      var ledger := LedgerOf(inputs, sorted);
      assert ledger[..|most|] == LedgerOf(inputs, most);
    }
  }

  lemma {:induction false} NobodyHas(area: Area)
    ensures !HasDemand([], area) && !HasFloor([], area)
  {
  }

  lemma {:induction false} CompetitorsAre(inputs: ProbeInputs, earlier: seq<DeadlineDemand>, mine: Area)
    ensures AreCompetitors(inputs.reservations, earlier, mine,
                           CompetingAreas(ByArea(inputs.reservations), ClaimsOf(inputs, earlier), mine))
  {
    hide HasFloor, HasDemand;
    var reserved, claimed := ByArea(inputs.reservations), ClaimsOf(inputs, earlier);
    ByAreaHolds(inputs.reservations);
    ClaimsAreOwed(inputs, earlier, mine);
    CompetitorsAreOthers(reserved, claimed, mine);
    var areas := CompetingAreas(reserved, claimed, mine);
    OthersAre(reserved.order, mine, {});
    OthersAre(claimed.order, mine, reserved.values.Keys);
    forall area
      ensures area in areas <==>
              area != mine && (HasFloor(inputs.reservations, area) || HasDemand(earlier, area))
    {
      ByAreaIs(inputs.reservations, area);
      ClaimedIsGranted(inputs, earlier, area);
    }
  }

  lemma {:induction false} ContestIs(inputs: ProbeInputs, earlier: seq<DeadlineDemand>, later: nat, areas: seq<Area>)
    ensures Contested(ByArea(inputs.reservations), ClaimsOf(inputs, earlier), later, areas) ==
            Contest(inputs.reservations, earlier, LedgerOf(inputs, earlier), later, areas)
  {
    hide ByArea, ClaimsOf, LedgerOf, ClaimedBy, Granted, FloorOf;
    if areas != [] {
      var last := areas[|areas| - 1];
      ContestIs(inputs, earlier, later, areas[..|areas| - 1]);
      ByAreaIs(inputs.reservations, last);
      ClaimedIsGranted(inputs, earlier, last);
    }
  }

  lemma {:induction false} AvailableIs(inputs: ProbeInputs, earlier: seq<DeadlineDemand>, demand: DeadlineDemand)
    ensures IsAvailable(inputs, earlier, LedgerOf(inputs, earlier), demand,
                        Available(inputs, demand, ClaimsOf(inputs, earlier)))
  {
    hide ByArea, ClaimsOf, LedgerOf, ClaimedBy, Granted, FloorOf, Contest, Contested, AreCompetitors, CompetingAreas,
      Free, FreeFor;
    var areas := AreasAgainst(inputs, demand, ClaimsOf(inputs, earlier));
    CompetitorsAre(inputs, earlier, demand.area);
    ContestIs(inputs, earlier, Later(inputs, demand.deadline), areas);
    ClaimedIsGranted(inputs, earlier, demand.area);
    assert OwnBefore(inputs, demand) == ClaimableBefore(inputs, demand);
    assert FreeAfter(inputs, demand.deadline) == From(Free(inputs), demand.deadline);
    assert OthersBefore(inputs, demand) == Before(Free(inputs), demand.deadline) - ClaimableBefore(inputs, demand);
  }

  lemma {:induction false} LedgerIsOne(inputs: ProbeInputs, sorted: seq<DeadlineDemand>)
    ensures IsLedger(inputs, sorted, LedgerOf(inputs, sorted))
  {
    hide IsAvailable, LedgerOf;
    forall n | 0 <= n < |sorted|
      ensures IsAvailable(inputs, sorted[..n], LedgerOf(inputs, sorted)[..n], sorted[n], LedgerOf(inputs, sorted)[n])
    {
      LedgerAt(inputs, sorted, n);
      AvailableIs(inputs, sorted[..n], sorted[n]);
    }
  }

  // ---- Each demand, and each floor ----

  /** What of the other Areas' floors must come early, by the floors' names and in their order. */
  function TakenEarly(reservations: seq<FloorReservation>, mine: Area, later: nat): seq<(string, nat)> {
    if reservations == [] then []
    else
      var last := reservations[|reservations| - 1];
      TakenEarly(reservations[..|reservations| - 1], mine, later) +
      if last.area != mine && last.reserved > later then [(last.name, last.reserved - later)] else []
  }

  /** A demand for more than is available is reported, with the difference. */
  ghost predicate IsLateReport(inputs: ProbeInputs, demand: DeadlineDemand, available: nat, report: seq<Shortfall>) {
    if demand.remaining <= available then report == []
    else
      && |report| == 1
      && report[0] == Shortfall(DeadlineCapacity, demand.remaining - available, demand.labels, Some(demand.deadline),
                                Some(demand.area), report[0].takes)
      && (HaveOneFloor(inputs.reservations) ==>
            report[0].takes == TakenEarly(inputs.reservations, demand.area, Whole(FreeAfter(inputs, demand.deadline))))
  }

  function DemandedBeside(demands: seq<DeadlineDemand>, area: Area): nat {
    if demands == [] then 0
    else (if demands[0].area == area then 0 else demands[0].remaining) + DemandedBeside(demands[1..], area)
  }

  /** A floor for more than is left of its Area's capacity by the other Areas' demands is reported, with the
      difference. */
  ghost predicate IsFloorReport(inputs: ProbeInputs, reservation: FloorReservation, report: seq<Shortfall>) {
    var own, area := FreeFor(inputs, reservation.area), reservation.area;
    exists available ::
      && IsLeft(available, Whole(own), Whole(Free(inputs) - own), DemandedBeside(inputs.demands, area))
      && report == if reservation.reserved <= available then []
                   else [Shortfall(AreaFloorUnreachable, reservation.reserved - available, [reservation.name], None,
                                   Some(area), [])]
  }

  lemma {:induction false} BesideOfMore(demands: seq<DeadlineDemand>, last: DeadlineDemand, area: Area)
    ensures DemandedBeside(demands + [last], area) ==
            DemandedBeside(demands, area) + if last.area == area then 0 else last.remaining
  {
    if demands == [] {
      assert [] + [last] == [last] && [last][1..] == [];
    } else {
      BesideOfMore(demands[1..], last, area);
      assert (demands + [last])[1..] == demands[1..] + [last];
    }
  }

  lemma {:induction false} BesideIs(demands: seq<DeadlineDemand>, area: Area)
    ensures DemandedBeside(demands, area) == DemandedElsewhere(demands, area)
  {
    if demands != [] {
      var most, last := demands[..|demands| - 1], demands[|demands| - 1];
      BesideIs(most, area);
      BesideOfMore(most, last, area);
      assert most + [last] == demands;
    }
  }

  lemma {:induction false} FloorReportIs(inputs: ProbeInputs, reservation: FloorReservation)
    ensures IsFloorReport(inputs, reservation, FloorShortfall(inputs, reservation))
  {
    hide Free, FreeFor;
    BesideIs(inputs.demands, reservation.area);
    var available, own := Reachable(inputs, reservation.area), FreeFor(inputs, reservation.area);
    assert IsLeft(available, Whole(own), Whole(Free(inputs) - own), DemandedBeside(inputs.demands, reservation.area));
  }

  lemma {:induction false} TakesOfNone(reserved: Dict<FloorReservation>, later: nat, areas: seq<Area>)
    requires forall area :: area in areas ==> area !in reserved.values
    ensures Takes(reserved, later, areas) == []
  {
    if areas != [] {
      TakesOfNone(reserved, later, areas[..|areas| - 1]);
    }
  }

  lemma {:induction false} TakesOfMore(reserved: Dict<FloorReservation>, later: nat, first: seq<Area>,
                                       second: seq<Area>)
    ensures Takes(reserved, later, first + second) == Takes(reserved, later, first) + Takes(reserved, later, second)
  {
    if second == [] {
      assert first + second == first;
    } else {
      TakesOfMore(reserved, later, first, second[..|second| - 1]);
      assert (first + second)[..|first + second| - 1] == first + second[..|second| - 1];
    }
  }

  /** One more floor is looked at last. */
  lemma {:induction false} OneMoreTaken(reserved: Dict<FloorReservation>, later: nat, order: seq<Area>, mine: Area,
                                        last: FloorReservation)
    requires last.area in reserved.values && reserved.values[last.area] == last
    ensures Takes(reserved, later, Others(order + [last.area], mine, {})) ==
            Takes(reserved, later, Others(order, mine, {})) +
            if last.area != mine && last.reserved > later then [(last.name, last.reserved - later)] else []
  {
    var one := [last.area];
    assert (order + one)[..|order|] == order;
    TakesOfMore(reserved, later, Others(order, mine, {}), one);
    assert one[..0] == [];
    assert Takes(reserved, later, []) == [];
    assert Takes(reserved, later, one) ==
           if last.reserved > later then [(last.name, last.reserved - later)] else [];
    assert Others(order, mine, {}) + [] == Others(order, mine, {});
    hide Takes;
  }

  /** The floors there are, looked up by Area, are listed in the order of the reservations. */
  lemma {:induction false} TakesAre(reservations: seq<FloorReservation>, listed: nat, mine: Area, later: nat)
    requires HaveOneFloor(reservations) && listed <= |reservations|
    ensures Takes(ByArea(reservations), later, Others(ByArea(reservations[..listed]).order, mine, {})) ==
            TakenEarly(reservations[..listed], mine, later)
  {
    hide HaveOneFloor, Takes;
    if listed > 0 {
      var at := listed - 1;
      TakesAre(reservations, at, mine, later);
      FirstOfItsArea(reservations, at);
      assert reservations[..listed][..at] == reservations[..at];
      hide Others;
      if reservations[at].reserved > 0 {
        OneMoreTaken(ByArea(reservations), later, ByArea(reservations[..at]).order, mine, reservations[at]);
      }
    } else {
      NoTakes(ByArea(reservations), later);
    }
  }

  lemma {:induction false} NoTakes(reserved: Dict<FloorReservation>, later: nat)
    ensures Takes(reserved, later, []) == []
  {
  }

  lemma {:induction false} FirstOfItsArea(reservations: seq<FloorReservation>, at: nat)
    requires HaveOneFloor(reservations) && at < |reservations|
    ensures reservations[at].area !in ByArea(reservations[..at]).values
    ensures reservations[at].reserved > 0 ==>
              reservations[at].area in ByArea(reservations).values &&
              ByArea(reservations).values[reservations[at].area] == reservations[at]
  {
    hide ByArea;
    var area := reservations[at].area;
    ByAreaHolds(reservations[..at]);
    ByAreaHolds(reservations);
    ByAreaIs(reservations, area);
  }

  lemma {:induction false} TakesAgainst(inputs: ProbeInputs, demand: DeadlineDemand, earlier: seq<DeadlineDemand>,
                                        later: nat)
    requires HaveOneFloor(inputs.reservations)
    ensures Takes(ByArea(inputs.reservations), later, AreasAgainst(inputs, demand, ClaimsOf(inputs, earlier))) ==
            TakenEarly(inputs.reservations, demand.area, later)
  {
    hide ByArea, ClaimsOf, Takes, Others, TakenEarly, HaveOneFloor;
    var reserved, claimed := ByArea(inputs.reservations), ClaimsOf(inputs, earlier);
    var second := Others(claimed.order, demand.area, reserved.values.Keys);
    TakesAre(inputs.reservations, |inputs.reservations|, demand.area, later);
    assert inputs.reservations[..|inputs.reservations|] == inputs.reservations;
    ClaimsAreOwed(inputs, earlier, demand.area);
    OthersAre(claimed.order, demand.area, reserved.values.Keys);
    TakesOfNone(reserved, later, second);
    TakesOfMore(reserved, later, Others(reserved.order, demand.area, {}), second);
  }

  lemma {:induction false} LateReportIs(inputs: ProbeInputs, demand: DeadlineDemand, earlier: seq<DeadlineDemand>)
    ensures IsLateReport(inputs, demand, Available(inputs, demand, ClaimsOf(inputs, earlier)),
                         DeadlineShortfall(inputs, demand, ClaimsOf(inputs, earlier)))
  {
    hide ByArea, ClaimsOf, Available, Takes, AreasAgainst, TakenEarly, HaveOneFloor, Free;
    if HaveOneFloor(inputs.reservations) {
      TakesAgainst(inputs, demand, earlier, Later(inputs, demand.deadline));
    }
    assert FreeAfter(inputs, demand.deadline) == From(Free(inputs), demand.deadline);
  }

  // ---- The whole report ----

  function Joined(pieces: seq<seq<Shortfall>>): seq<Shortfall> {
    if pieces == [] then [] else Joined(pieces[..|pieces| - 1]) + pieces[|pieces| - 1]
  }

  /** Each demand in turn, against what is available to it. */
  ghost predicate AreLateReports(inputs: ProbeInputs, sorted: seq<DeadlineDemand>, available: seq<nat>,
                                 reports: seq<seq<Shortfall>>)
  {
    && |reports| == |available| == |sorted|
    && forall n :: 0 <= n < |sorted| ==> IsLateReport(inputs, sorted[n], available[n], reports[n])
  }

  ghost predicate AreFloorReports(inputs: ProbeInputs, reservations: seq<FloorReservation>,
                                  reports: seq<seq<Shortfall>>)
  {
    && |reports| == |reservations|
    && forall n :: 0 <= n < |reservations| ==> IsFloorReport(inputs, reservations[n], reports[n])
  }

  lemma {:induction false} LateReportsAre(inputs: ProbeInputs, sorted: seq<DeadlineDemand>)
    returns (reports: seq<seq<Shortfall>>)
    ensures AreLateReports(inputs, sorted, LedgerOf(inputs, sorted), reports)
    ensures DeadlineShortfalls(inputs, sorted) == Joined(reports)
  {
    hide DeadlineShortfall, ClaimsOf, IsLateReport, Available;
    reports := [];
    if sorted != [] {
      var most, last := sorted[..|sorted| - 1], sorted[|sorted| - 1];
      var before := LateReportsAre(inputs, most);
      LateReportIs(inputs, last, most);
      reports := before + [DeadlineShortfall(inputs, last, ClaimsOf(inputs, most))];
      assert reports[..|most|] == before;
    }
  }

  lemma {:induction false} FloorReportsAre(inputs: ProbeInputs, reservations: seq<FloorReservation>)
    returns (reports: seq<seq<Shortfall>>)
    ensures AreFloorReports(inputs, reservations, reports)
    ensures FloorShortfalls(inputs, reservations) == Joined(reports)
  {
    hide FloorShortfall, IsFloorReport;
    reports := [];
    if reservations != [] {
      var most, last := reservations[..|reservations| - 1], reservations[|reservations| - 1];
      var before := FloorReportsAre(inputs, most);
      FloorReportIs(inputs, last);
      reports := before + [FloorShortfall(inputs, last)];
      assert reports[..|most|] == before;
    }
  }

  /** Exactly what the probe reports: all the floors against all that is free; then each demand, by deadline, against
      what the earlier ones and the other Areas' floors leave it; then each floor against what the other Areas' demands
      leave it. */
  lemma {:induction false} ReportIsExactly(inputs: ProbeInputs)
    returns (available: seq<nat>, week: seq<Shortfall>, late: seq<seq<Shortfall>>, short: seq<seq<Shortfall>>)
    ensures Shortfalls(inputs) == week + Joined(late) + Joined(short)
    ensures IsWeekReport(inputs, week) && IsLedger(inputs, EarliestFirst(inputs.demands), available)
    ensures AreLateReports(inputs, EarliestFirst(inputs.demands), available, late)
    ensures AreFloorReports(inputs, inputs.reservations, short)
  {
    hide IsWeekReport, IsLedger, AreLateReports, AreFloorReports, WeekShortfalls;
    var sorted := EarliestFirst(inputs.demands);
    available, week := LedgerOf(inputs, sorted), WeekShortfalls(inputs);
    WeekReportIs(inputs);
    LedgerIsOne(inputs, sorted);
    late := LateReportsAre(inputs, sorted);
    short := FloorReportsAre(inputs, inputs.reservations);
  }
}
