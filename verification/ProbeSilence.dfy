// Exactly when the probe finds nothing, stated in what is asked for and what is free; and so what it never misses.
module ProbeSilence {
  import opened Wrappers
  import opened Intervals
  import opened Probe
  import opened ProbeLaws
  import opened ProbeReports

  /** Of each of some Areas the larger figure: what its earlier demands owe, and what of its floor the minutes after the
      deadline cannot hold. */
  function OwedContest(reservations: seq<FloorReservation>, earlier: seq<DeadlineDemand>, later: nat, areas: seq<Area>)
    : nat
  {
    if areas == [] then 0
    else
      OwedContest(reservations, earlier, later, areas[..|areas| - 1])
      + MustComeEarly(reservations, earlier, later, areas[|areas| - 1])
  }

  function MustComeEarly(reservations: seq<FloorReservation>, earlier: seq<DeadlineDemand>, later: nat, area: Area)
    : nat
  {
    var owed, early: int := Owed(earlier, area, false), FloorOf(reservations, area) - later;
    if early > owed then early else owed
  }

  /** Minutes fit an Area's own beside others' work, as much of which as there is room for goes where the Area may
      not. */
  predicate FitsBeside(minutes: nat, own: nat, beside: nat, competing: nat) {
    if competing <= beside then minutes <= own else minutes + competing <= own + beside
  }

  /** A demand fits before its deadline, with what is owed earlier and what of the other Areas' floors must come
      early. */
  ghost predicate FitsInTime(inputs: ProbeInputs, earlier: seq<DeadlineDemand>, demand: DeadlineDemand) {
    demand.remaining == 0 ||
    exists areas :: AreCompetitors(inputs.reservations, earlier, demand.area, areas) &&
      FitsBeside(demand.remaining, Whole(OwnBefore(inputs, demand)), Whole(OthersBefore(inputs, demand)),
                 Owed(earlier, demand.area, false)
                 + OwedContest(inputs.reservations, earlier, Whole(FreeAfter(inputs, demand.deadline)), areas))
  }

  /** A floor fits its Area's capacity beside what the other Areas' demands owe. */
  ghost predicate FitsItsArea(inputs: ProbeInputs, reservation: FloorReservation) {
    var own := FreeFor(inputs, reservation.area);
    reservation.reserved == 0 ||
    FitsBeside(reservation.reserved, Whole(own), Whole(Free(inputs) - own),
               DemandedBeside(inputs.demands, reservation.area))
  }

  // ---- Whichever way the competitors are listed ----

  function WithoutAt(areas: seq<Area>, i: nat): seq<Area>
    requires i < |areas|
  {
    areas[..i] + areas[i + 1..]
  }

  lemma {:induction false} TakeOneOut(reservations: seq<FloorReservation>, earlier: seq<DeadlineDemand>, later: nat,
                                      areas: seq<Area>, i: nat)
    requires i < |areas|
    ensures OwedContest(reservations, earlier, later, areas) ==
            OwedContest(reservations, earlier, later, WithoutAt(areas, i))
            + MustComeEarly(reservations, earlier, later, areas[i])
  {
    hide MustComeEarly;
    var most := areas[..|areas| - 1];
    if i < |most| {
      TakeOneOut(reservations, earlier, later, most, i);
      assert WithoutAt(areas, i)[..|areas| - 2] == WithoutAt(most, i);
    } else {
      assert WithoutAt(areas, i) == most;
    }
  }

  lemma {:induction false} ContestIsOne(reservations: seq<FloorReservation>, earlier: seq<DeadlineDemand>, later: nat,
                                        one: seq<Area>, other: seq<Area>)
    requires AreApart(one) && AreApart(other) && forall area :: area in one <==> area in other
    ensures OwedContest(reservations, earlier, later, one) == OwedContest(reservations, earlier, later, other)
    decreases |one|
  {
    hide MustComeEarly;
    if one == [] {
      if other != [] {
        FirstIsListed(other);
      }
    } else {
      var most, last := one[..|one| - 1], one[|one| - 1];
      assert last in other;
      var i :| 0 <= i < |other| && other[i] == last;
      TakeOneOut(reservations, earlier, later, other, i);
      var rest := WithoutAt(other, i);
      forall area ensures area in most <==> area in rest {
        OneFewer(one, |one| - 1, area);
        OneFewer(other, i, area);
        assert most == WithoutAt(one, |one| - 1);
      }
      StillApart(other, i);
      ContestIsOne(reservations, earlier, later, most, rest);
    }
  }

  lemma {:induction false} FirstIsListed(areas: seq<Area>)
    requires areas != []
    ensures exists area :: area in areas
  {
    assert areas[0] in areas;
  }

  lemma {:induction false} OneFewer(areas: seq<Area>, i: nat, area: Area)
    requires AreApart(areas) && i < |areas|
    ensures area in WithoutAt(areas, i) <==> area in areas && area != areas[i]
  {
    var rest := WithoutAt(areas, i);
    if area in areas && area != areas[i] {
      var j :| 0 <= j < |areas| && areas[j] == area;
      assert rest[if j < i then j else j - 1] == area;
    }
    if area in rest {
      var j :| 0 <= j < |rest| && rest[j] == area;
      assert areas[if j < i then j else j + 1] == area;
    }
  }

  lemma {:induction false} StillApart(areas: seq<Area>, i: nat)
    requires AreApart(areas) && i < |areas|
    ensures AreApart(WithoutAt(areas, i))
  {
  }

  // ---- Where nothing earlier is short, what is granted is what is owed ----

  lemma {:induction false} AllIsGranted(demands: seq<DeadlineDemand>, available: seq<nat>, area: Area)
    requires |available| == |demands| && forall i :: 0 <= i < |demands| ==> demands[i].remaining <= available[i]
    ensures Granted(demands, available, area) == Owed(demands, area, false)
  {
    if demands != [] {
      AllIsGranted(demands[..|demands| - 1], available[..|demands| - 1], area);
    }
  }

  lemma {:induction false} ContestIsOwed(reservations: seq<FloorReservation>, earlier: seq<DeadlineDemand>,
                                         available: seq<nat>, later: nat, areas: seq<Area>)
    requires |available| == |earlier| && forall i :: 0 <= i < |earlier| ==> earlier[i].remaining <= available[i]
    ensures Contest(reservations, earlier, available, later, areas) == OwedContest(reservations, earlier, later, areas)
  {
    hide Granted, Owed, FloorOf;
    if areas != [] {
      ContestIsOwed(reservations, earlier, available, later, areas[..|areas| - 1]);
      AllIsGranted(earlier, available, areas[|areas| - 1]);
    }
  }

  /** Where every earlier demand gets what it owes, a demand does if and only if it fits in time. */
  lemma {:induction false} GetsItExactly(inputs: ProbeInputs, earlier: seq<DeadlineDemand>, before: seq<nat>,
                                         demand: DeadlineDemand, available: nat)
    requires |before| == |earlier| && forall i :: 0 <= i < |earlier| ==> earlier[i].remaining <= before[i]
    requires IsAvailable(inputs, earlier, before, demand, available)
    ensures demand.remaining <= available <==> FitsInTime(inputs, earlier, demand)
  {
    hide Granted, Owed, Contest, OwedContest, AreCompetitors, OwnBefore, OthersBefore, FreeAfter, Whole;
    var later := Whole(FreeAfter(inputs, demand.deadline));
    var areas :| AreCompetitors(inputs.reservations, earlier, demand.area, areas) &&
                 IsLeft(available, Whole(OwnBefore(inputs, demand)), Whole(OthersBefore(inputs, demand)),
                        Granted(earlier, before, demand.area)
                        + Contest(inputs.reservations, earlier, before, later, areas));
    AllIsGranted(earlier, before, demand.area);
    ContestIsOwed(inputs.reservations, earlier, before, later, areas);
    forall others | AreCompetitors(inputs.reservations, earlier, demand.area, others)
      ensures OwedContest(inputs.reservations, earlier, later, others) ==
              OwedContest(inputs.reservations, earlier, later, areas)
    {
      SameCompetitors(inputs, earlier, demand.area, areas, others);
      ContestIsOne(inputs.reservations, earlier, later, areas, others);
    }
  }

  lemma {:induction false} SameCompetitors(inputs: ProbeInputs, earlier: seq<DeadlineDemand>, mine: Area,
                                           one: seq<Area>, other: seq<Area>)
    requires AreCompetitors(inputs.reservations, earlier, mine, one)
    requires AreCompetitors(inputs.reservations, earlier, mine, other)
    ensures AreApart(one) && AreApart(other) && forall area :: area in one <==> area in other
  {
  }

  /** The first demands all get what they owe if and only if they all fit in time. */
  lemma {:induction false} FirstGetTheirs(inputs: ProbeInputs, sorted: seq<DeadlineDemand>, available: seq<nat>,
                                          count: nat)
    requires IsLedger(inputs, sorted, available) && count <= |sorted|
    ensures (forall n :: 0 <= n < count ==> sorted[n].remaining <= available[n]) <==>
            (forall n :: 0 <= n < count ==> FitsInTime(inputs, sorted[..n], sorted[n]))
  {
    hide IsAvailable, FitsInTime;
    if count > 0 {
      var last := count - 1;
      FirstGetTheirs(inputs, sorted, available, last);
      if forall n :: 0 <= n < last ==> sorted[n].remaining <= available[n] {
        assert forall i :: 0 <= i < last ==> sorted[..last][i].remaining <= available[..last][i];
        GetsItExactly(inputs, sorted[..last], available[..last], sorted[last], available[last]);
      }
    }
  }

  // ---- Nothing is reported ----

  lemma {:induction false} JoinedIsEmpty(pieces: seq<seq<Shortfall>>)
    ensures Joined(pieces) == [] <==> forall i :: 0 <= i < |pieces| ==> pieces[i] == []
  {
    if pieces != [] {
      JoinedIsEmpty(pieces[..|pieces| - 1]);
    }
  }

  /** The probe finds nothing if and only if the floors together fit what is free, every demand fits in time after those
      before it, and every floor fits its own Area: for all inputs. */
  lemma {:induction false} SilentExactly(inputs: ProbeInputs)
    ensures Shortfalls(inputs) == [] <==>
            && Total(inputs.reservations) <= Whole(Free(inputs))
            && (var sorted := EarliestFirst(inputs.demands);
                forall n :: 0 <= n < |sorted| ==> FitsInTime(inputs, sorted[..n], sorted[n]))
            && forall i :: 0 <= i < |inputs.reservations| ==> FitsItsArea(inputs, inputs.reservations[i])
  {
    hide Shortfalls, Joined, EarliestFirst, FitsInTime, IsLedger, Free, FreeFor, FitsItsArea, AreLateReports,
      AreFloorReports, Total;
    var available, week, late, short := ReportIsExactly(inputs);
    var sorted := EarliestFirst(inputs.demands);
    JoinedIsEmpty(late);
    JoinedIsEmpty(short);
    DemandsAreSilent(inputs, sorted, available, late);
    FloorsAreSilent(inputs, inputs.reservations, short);
  }

  lemma {:induction false} DemandsAreSilent(inputs: ProbeInputs, sorted: seq<DeadlineDemand>, available: seq<nat>,
                                            reports: seq<seq<Shortfall>>)
    requires IsLedger(inputs, sorted, available) && AreLateReports(inputs, sorted, available, reports)
    ensures (forall i :: 0 <= i < |reports| ==> reports[i] == []) <==>
            (forall n :: 0 <= n < |sorted| ==> FitsInTime(inputs, sorted[..n], sorted[n]))
  {
    FirstGetTheirs(inputs, sorted, available, |sorted|);
    hide FitsInTime, IsLedger, HaveOneFloor, TakenEarly;
    assert forall n :: 0 <= n < |sorted| ==> (reports[n] == [] <==> sorted[n].remaining <= available[n]);
  }

  lemma {:induction false} FloorsAreSilent(inputs: ProbeInputs, reservations: seq<FloorReservation>,
                                           reports: seq<seq<Shortfall>>)
    requires AreFloorReports(inputs, reservations, reports)
    ensures (forall i :: 0 <= i < |reports| ==> reports[i] == []) <==>
            (forall i :: 0 <= i < |reservations| ==> FitsItsArea(inputs, reservations[i]))
  {
    hide FitsItsArea, IsFloorReport;
    forall i | 0 <= i < |reservations| ensures reports[i] == [] <==> FitsItsArea(inputs, reservations[i]) {
      FloorIsSilent(inputs, reservations[i], reports[i]);
    }
  }

  lemma {:induction false} FloorIsSilent(inputs: ProbeInputs, reservation: FloorReservation, report: seq<Shortfall>)
    requires IsFloorReport(inputs, reservation, report)
    ensures report == [] <==> FitsItsArea(inputs, reservation)
  {
    hide FreeFor, Free, DemandedBeside, Whole;
  }

  lemma {:induction false} JoinedIs(pieces: seq<seq<Shortfall>>, shortfall: Shortfall)
    ensures shortfall in Joined(pieces) <==> exists i :: 0 <= i < |pieces| && shortfall in pieces[i]
  {
    if pieces != [] {
      var most := pieces[..|pieces| - 1];
      JoinedIs(most, shortfall);
      if i :| 0 <= i < |most| && shortfall in most[i] {
        assert shortfall in pieces[i];
      }
      if i :| 0 <= i < |pieces| && shortfall in pieces[i] {
        assert i < |most| ==> shortfall in most[i];
      }
    }
  }

  /** A gap of the whole week is found if and only if more minutes are reserved than are free, and its figure is the
      difference; so where nothing is found the floors fit what is free. */
  lemma {:induction false} WeekGapExactly(inputs: ProbeInputs, shortfall: Shortfall)
    requires shortfall.kind == FloorsExceedCapacity
    ensures shortfall in Shortfalls(inputs) <==>
            && Total(inputs.reservations) > Whole(Free(inputs))
            && shortfall == Shortfall(FloorsExceedCapacity, Total(inputs.reservations) - Whole(Free(inputs)),
                                      Reserving(inputs.reservations), None, None, [])
    ensures Shortfalls(inputs) == [] ==> Total(inputs.reservations) * 60_000_000 <= |Free(inputs)|
  {
    var available, week, late, short := ReportIsExactly(inputs);
    JoinedIs(late, shortfall);
    JoinedIs(short, shortfall);
    hide Shortfalls, Joined, EarliestFirst, IsLedger, Free, FreeFor, HaveOneFloor, IsAvailable;
  }

  // ---- What is owed together ----

  function AllOwed(demands: seq<DeadlineDemand>): nat {
    if demands == [] then 0 else AllOwed(demands[..|demands| - 1]) + demands[|demands| - 1].remaining
  }

  /** What is owed in all is what each of the Areas owes. */
  function OwedBy(demands: seq<DeadlineDemand>, areas: seq<Area>): nat {
    if areas == [] then 0
    else OwedBy(demands, areas[..|areas| - 1]) + Owed(demands, areas[|areas| - 1], false)
  }

  lemma {:induction false} OwedByMore(demands: seq<DeadlineDemand>, last: DeadlineDemand, areas: seq<Area>)
    requires AreApart(areas)
    ensures OwedBy(demands + [last], areas) ==
            OwedBy(demands, areas) + if last.area in areas then last.remaining else 0
  {
    if areas != [] {
      var most, area := areas[..|areas| - 1], areas[|areas| - 1];
      OwedByMore(demands, last, most);
      assert (demands + [last])[..|demands|] == demands;
      assert last.area in areas <==> last.area in most || last.area == area;
    }
  }

  lemma {:induction false} AllIsOwed(demands: seq<DeadlineDemand>, areas: seq<Area>)
    requires AreApart(areas) && forall i :: 0 <= i < |demands| ==> demands[i].area in areas
    ensures AllOwed(demands) == OwedBy(demands, areas)
  {
    if demands == [] {
      NobodyOwes(areas);
    } else {
      var most, last := demands[..|demands| - 1], demands[|demands| - 1];
      AllIsOwed(most, areas);
      OwedByMore(most, last, areas);
      assert most + [last] == demands;
    }
  }

  lemma {:induction false} NobodyOwes(areas: seq<Area>)
    ensures OwedBy([], areas) == 0
  {
    if areas != [] {
      NobodyOwes(areas[..|areas| - 1]);
    }
  }

  lemma {:induction false} ContestIsNoLess(reservations: seq<FloorReservation>, earlier: seq<DeadlineDemand>,
                                           later: nat, areas: seq<Area>)
    ensures OwedContest(reservations, earlier, later, areas) >= OwedBy(earlier, areas)
  {
    hide Owed, FloorOf;
    if areas != [] {
      ContestIsNoLess(reservations, earlier, later, areas[..|areas| - 1]);
    }
  }

  /** With no window in play, a demand that fits in time fits with all that is owed before it. */
  lemma {:induction false} FitsWithTheRest(inputs: ProbeInputs, earlier: seq<DeadlineDemand>, demand: DeadlineDemand)
    requires FitsInTime(inputs, earlier, demand) && FreeFor(inputs, demand.area) == Free(inputs)
    ensures demand.remaining == 0 ||
            AllOwed(earlier) + demand.remaining <= Whole(Before(Free(inputs), demand.deadline))
  {
    if demand.remaining != 0 {
      hide Owed, OwedContest, Free, FreeFor, AllOwed;
      var later := Whole(FreeAfter(inputs, demand.deadline));
      var areas :| AreCompetitors(inputs.reservations, earlier, demand.area, areas) &&
        FitsBeside(demand.remaining, Whole(OwnBefore(inputs, demand)), Whole(OthersBefore(inputs, demand)),
                   Owed(earlier, demand.area, false) + OwedContest(inputs.reservations, earlier, later, areas));
      assert OthersBefore(inputs, demand) == {};
      assert OwnBefore(inputs, demand) == Before(Free(inputs), demand.deadline);
      ContestIsNoLess(inputs.reservations, earlier, later, areas);
      WithMine(inputs, earlier, demand.area, areas);
    }
  }

  lemma {:induction false} WithMine(inputs: ProbeInputs, earlier: seq<DeadlineDemand>, mine: Area, areas: seq<Area>)
    requires AreCompetitors(inputs.reservations, earlier, mine, areas)
    ensures AllOwed(earlier) == OwedBy(earlier, areas) + Owed(earlier, mine, false)
  {
    hide Owed, AllOwed, HasFloor;
    var all := areas + [mine];
    assert all[..|areas|] == areas;
    forall i | 0 <= i < |areas| ensures areas[i] != mine {
      assert areas[i] in areas;
    }
    forall i | 0 <= i < |earlier| ensures earlier[i].area in all {
      assert HasDemand(earlier, earlier[i].area);
    }
    AllIsOwed(earlier, all);
  }

  lemma {:induction false} MoreTimeHoldsMore(free: set<Instant>, early: Instant, late: Instant)
    requires early <= late
    ensures Whole(Before(free, early)) <= Whole(Before(free, late))
  {
    SizesInOrder(Before(free, early), Before(free, late));
  }

  /** With no window in play, demands that all fit in time fit together before any moment they are all due by. */
  lemma {:induction false} FitTogether(inputs: ProbeInputs, sorted: seq<DeadlineDemand>, count: nat, moment: Instant)
    requires count <= |sorted| && forall n :: 0 <= n < count ==> FitsInTime(inputs, sorted[..n], sorted[n])
    requires forall n :: 0 <= n < count ==>
               FreeFor(inputs, sorted[n].area) == Free(inputs) && sorted[n].deadline <= moment
    ensures AllOwed(sorted[..count]) <= Whole(Before(Free(inputs), moment))
  {
    hide FitsInTime, Free, FreeFor, Whole;
    if count > 0 {
      var last := count - 1;
      FitTogether(inputs, sorted, last, moment);
      FitsWithTheRest(inputs, sorted[..last], sorted[last]);
      MoreTimeHoldsMore(Free(inputs), sorted[last].deadline, moment);
      assert sorted[..count][..last] == sorted[..last];
    }
  }

  /** The demands due by a moment, among some. */
  function DueBy(demands: seq<DeadlineDemand>, moment: Instant): nat {
    if demands == [] then 0
    else
      var last := demands[|demands| - 1];
      DueBy(demands[..|demands| - 1], moment) + if last.deadline <= moment then last.remaining else 0
  }

  lemma {:induction false} LaterAreNotDue(sorted: seq<DeadlineDemand>, moment: Instant) returns (count: nat)
    requires AreDueInOrder(sorted)
    ensures count <= |sorted| && AllOwed(sorted[..count]) == DueBy(sorted, moment)
    ensures forall n :: 0 <= n < |sorted| ==> (n < count <==> sorted[n].deadline <= moment)
  {
    count := 0;
    if sorted != [] {
      var most, last := sorted[..|sorted| - 1], sorted[|sorted| - 1];
      count := LaterAreNotDue(most, moment);
      assert most[..count] == sorted[..count];
      if last.deadline <= moment {
        assert forall n :: 0 <= n < |most| ==> most[n].deadline <= last.deadline;
        assert most[..|most|] == most;
        count := |sorted|;
        assert sorted[..count] == sorted;
      }
    }
  }

  lemma {:induction false} DueByAppended(demands: seq<DeadlineDemand>, more: seq<DeadlineDemand>, moment: Instant)
    ensures DueBy(demands + more, moment) == DueBy(demands, moment) + DueBy(more, moment)
  {
    if more == [] {
      assert demands + more == demands;
    } else {
      DueByAppended(demands, more[..|more| - 1], moment);
      assert (demands + more)[..|demands + more| - 1] == demands + more[..|more| - 1];
    }
  }

  lemma {:induction false} DueByInserted(demand: DeadlineDemand, sorted: seq<DeadlineDemand>, moment: Instant)
    ensures DueBy(Inserted(demand, sorted), moment) == DueBy([demand] + sorted, moment)
  {
    hide IsDueBefore, DueBy;
    if sorted != [] && IsDueBefore(sorted[0], demand) {
      var rest := sorted[1..];
      DueByInserted(demand, rest, moment);
      DueByAppended([sorted[0]], Inserted(demand, rest), moment);
      DueByAppended([demand], rest, moment);
      DueByAppended([demand], sorted, moment);
      DueByAppended([sorted[0]], rest, moment);
      assert sorted == [sorted[0]] + rest;
    }
  }

  lemma {:induction false} DueByInOrder(demands: seq<DeadlineDemand>, moment: Instant)
    ensures DueBy(EarliestFirst(demands), moment) == DueBy(demands, moment)
  {
    hide DueBy;
    if demands != [] {
      DueByInOrder(demands[1..], moment);
      DueByInserted(demands[0], EarliestFirst(demands[1..]), moment);
      DueByAppended([demands[0]], EarliestFirst(demands[1..]), moment);
      DueByAppended([demands[0]], demands[1..], moment);
      assert demands == [demands[0]] + demands[1..];
    }
  }

  /** With no window in play, demands of any number of Areas that together owe more by some moment than is free before
      it are reported: one of those due by then is found short. */
  lemma {:induction false} OwedTogetherIsReported(inputs: ProbeInputs, moment: Instant) returns (shortfall: Shortfall)
    requires forall demand :: demand in inputs.demands ==> FreeFor(inputs, demand.area) == Free(inputs)
    requires DueBy(inputs.demands, moment) > Whole(Before(Free(inputs), moment))
    ensures shortfall in Shortfalls(inputs) && shortfall.kind == DeadlineCapacity
    ensures shortfall.deadline.Some? && shortfall.deadline.value <= moment
  {
    hide Shortfalls, Joined, EarliestFirst, FitsInTime, IsLedger, Free, FreeFor, AreLateReports, AreFloorReports,
      IsWeekReport, DueBy, AreInTurn;
    var available, week, late, short := ReportIsExactly(inputs);
    var sorted := EarliestFirst(inputs.demands);
    EarliestFirstSorts(inputs.demands);
    InTurnIsInOrder(sorted);
    DueByInOrder(inputs.demands, moment);
    var count := LaterAreNotDue(sorted, moment);
    FirstGetTheirs(inputs, sorted, available, count);
    if forall n :: 0 <= n < count ==> FitsInTime(inputs, sorted[..n], sorted[n]) {
      FitTogether(inputs, sorted, count, moment);
      assert false;
    }
    assert exists n :: 0 <= n < count && !FitsInTime(inputs, sorted[..n], sorted[n]);
    var n := LateOne(inputs, sorted, available, late, count);
    shortfall := late[n][0];
    JoinedIs(late, shortfall);
  }

  lemma {:induction false} InTurnIsInOrder(sorted: seq<DeadlineDemand>)
    requires AreInTurn(sorted)
    ensures AreDueInOrder(sorted)
  {
  }

  lemma {:induction false} LateOne(inputs: ProbeInputs, sorted: seq<DeadlineDemand>, available: seq<nat>,
                                   reports: seq<seq<Shortfall>>, count: nat) returns (n: nat)
    requires AreLateReports(inputs, sorted, available, reports) && count <= |sorted|
    requires !forall n :: 0 <= n < count ==> sorted[n].remaining <= available[n]
    ensures n < count <= |reports| && |reports[n]| == 1 && reports[n][0].kind == DeadlineCapacity
    ensures reports[n][0].deadline == Some(sorted[n].deadline)
  {
    hide TakenEarly, HaveOneFloor;
    n :| 0 <= n < count && available[n] < sorted[n].remaining;
  }
}
