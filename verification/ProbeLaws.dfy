// How far the probe's figures can be from what any way to work a week comes to.
module ProbeLaws {
  import opened Wrappers
  import opened Text
  import opened Intervals
  import opened Probe

  // ---- Doing a week: who works when ----

  ghost function WorkOf(work: map<Area, set<Instant>>, area: Area): set<Instant> {
    if area in work then work[area] else {}
  }

  /** Areas work in capacity they may claim, and no two of them at once. */
  ghost predicate IsWork(inputs: ProbeInputs, work: map<Area, set<Instant>>) {
    && (forall area :: area in work ==> work[area] <= FreeFor(inputs, area))
    && forall area, other :: area in work && other in work && area != other ==> work[area] !! work[other]
  }

  ghost predicate MeetsFloor(reservation: FloorReservation, work: map<Area, set<Instant>>) {
    reservation.reserved * MINUTE <= |WorkOf(work, reservation.area)|
  }

  /** The instants given to each demand: its Area's, before its deadline, and given to no other. */
  ghost predicate AreGiven(demands: seq<DeadlineDemand>, work: map<Area, set<Instant>>, given: seq<set<Instant>>) {
    && |given| == |demands|
    && (forall i :: 0 <= i < |demands| ==> given[i] <= Before(WorkOf(work, demands[i].area), demands[i].deadline))
    && forall i, j :: 0 <= i < j < |demands| ==> given[i] !! given[j]
  }

  ghost predicate IsMet(demand: DeadlineDemand, given: set<Instant>) {
    demand.remaining * MINUTE <= |given|
  }

  /** A week in which every floor is reached and every deadline kept. */
  ghost predicate IsDone(inputs: ProbeInputs, work: map<Area, set<Instant>>, given: seq<set<Instant>>) {
    && IsWork(inputs, work)
    && (forall i :: 0 <= i < |inputs.reservations| ==> MeetsFloor(inputs.reservations[i], work))
    && AreGiven(inputs.demands, work, given)
    && forall i :: 0 <= i < |inputs.demands| ==> IsMet(inputs.demands[i], given[i])
  }

  /** An Area has one floor. */
  ghost predicate HaveOneFloor(reservations: seq<FloorReservation>) {
    forall i, j :: 0 <= i < j < |reservations| ==> reservations[i].area != reservations[j].area
  }

  // ---- Counting minutes ----

  lemma {:induction false} SizesInOrder(part: set<Instant>, whole: set<Instant>)
    requires part <= whole
    ensures |part| <= |whole| && |whole - part| == |whole| - |part|
  {
    assert whole == part + (whole - part);
  }

  lemma {:induction false} AnyOf<T>(members: set<T>) returns (member: T)
    requires members != {}
    ensures member in members
  {
    member :| member in members;
  }

  /** What of a minute is left over when instants are counted in minutes. */
  function Leftover(instants: set<Instant>): nat {
    |instants| % MINUTE
  }

  /** Disjoint work in two pieces of capacity, the first part of it in the first piece, leaves no more than the probe
      says is available, but for what the pieces have left over: `others` of the minutes compete, `own` are what is left
      to measure, and `slack` is what those others may do elsewhere. */
  lemma {:induction false} LeavesNoMore(claimable: set<Instant>, elsewhere: set<Instant>, mine: set<Instant>,
                                        theirs: set<Instant>, own: nat, earlier: nat, others: nat, slack: nat)
    requires claimable !! elsewhere && mine <= claimable && theirs <= claimable + elsewhere && mine !! theirs
    requires (earlier + own) * MINUTE <= |mine| && others * MINUTE <= |theirs| + slack
    ensures own <= Minutes(claimable)
    ensures own <= NotNegative(Minutes(claimable) - NotNegative(earlier + others - Minutes(elsewhere)))
                   + (Leftover(claimable) + Leftover(elsewhere) + slack) / MINUTE
  {
    SizesInOrder(mine, claimable);
    SizesInOrder(mine + theirs, claimable + elsewhere);
    assert |mine + theirs| == |mine| + |theirs|;
    assert |claimable + elsewhere| == |claimable| + |elsewhere|;
    CutInMinutes(|claimable|, |elsewhere|, slack, own, earlier, others);
  }

  lemma {:induction false} CutInMinutes(claimable: nat, elsewhere: nat, slack: nat, own: nat, earlier: nat, others: nat)
    requires (earlier + own) * MINUTE <= claimable
    requires (earlier + own + others) * MINUTE <= claimable + elsewhere + slack
    ensures own <= claimable / MINUTE
    ensures own <= NotNegative(claimable / MINUTE - NotNegative(earlier + others - elsewhere / MINUTE))
                   + (claimable % MINUTE + elsewhere % MINUTE + slack) / MINUTE
  {
    assert earlier + own + others
        <= claimable / MINUTE + elsewhere / MINUTE + (claimable % MINUTE + elsewhere % MINUTE + slack) / MINUTE;
  }

  /** The minutes lost by counting an Area's capacity and the rest of what is free apart. */
  function LostOf(inputs: ProbeInputs, area: Area): (lost: nat)
    ensures lost <= 1
  {
    (Leftover(FreeFor(inputs, area)) + Leftover(Free(inputs) - FreeFor(inputs, area))) / MINUTE
  }

  /** The minutes lost by counting apart an Area's capacity before a deadline, the others' before it, and what is free
      after it. */
  function LostBefore(inputs: ProbeInputs, area: Area, deadline: Instant): (lost: nat)
    ensures lost <= 2
  {
    var claimable := Before(FreeFor(inputs, area), deadline);
    var others, later := Before(Free(inputs), deadline) - claimable, From(Free(inputs), deadline);
    (Leftover(claimable) + Leftover(others) + Leftover(later)) / MINUTE
  }

  // ---- What is owed ----

  /** Is a demand an Area's own, or another's? */
  predicate Concerns(demand: DeadlineDemand, area: Area, elsewhere: bool) {
    (demand.area == area) != elsewhere
  }

  function Owed(demands: seq<DeadlineDemand>, area: Area, elsewhere: bool): nat {
    if demands == [] then 0
    else
      var last := demands[|demands| - 1];
      Owed(demands[..|demands| - 1], area, elsewhere) + if Concerns(last, area, elsewhere) then last.remaining else 0
  }

  ghost function GivenTo(demands: seq<DeadlineDemand>, given: seq<set<Instant>>, area: Area, elsewhere: bool)
    : set<Instant>
    requires |given| == |demands|
  {
    if demands == [] then {}
    else
      var most := |demands| - 1;
      GivenTo(demands[..most], given[..most], area, elsewhere)
      + if Concerns(demands[most], area, elsewhere) then given[most] else {}
  }

  lemma {:induction false} GivenToAre(demands: seq<DeadlineDemand>, given: seq<set<Instant>>, area: Area,
                                      elsewhere: bool, t: Instant)
    requires |given| == |demands| && t in GivenTo(demands, given, area, elsewhere)
    ensures exists i :: 0 <= i < |demands| && Concerns(demands[i], area, elsewhere) && t in given[i]
  {
    hide Concerns;
    var most := |demands| - 1;
    if t in GivenTo(demands[..most], given[..most], area, elsewhere) {
      GivenToAre(demands[..most], given[..most], area, elsewhere, t);
    }
  }

  lemma {:induction false} GivenIsEnough(demands: seq<DeadlineDemand>, given: seq<set<Instant>>, area: Area,
                                         elsewhere: bool)
    requires |given| == |demands| && forall i, j :: 0 <= i < j < |demands| ==> given[i] !! given[j]
    requires forall i :: 0 <= i < |demands| ==> IsMet(demands[i], given[i])
    ensures Owed(demands, area, elsewhere) * MINUTE <= |GivenTo(demands, given, area, elsewhere)|
  {
    hide Concerns;
    if demands != [] {
      var most := |demands| - 1;
      var before := GivenTo(demands[..most], given[..most], area, elsewhere);
      GivenIsEnough(demands[..most], given[..most], area, elsewhere);
      forall t | t in before ensures t !in given[most] {
        GivenToAre(demands[..most], given[..most], area, elsewhere, t);
      }
      assert |before + given[most]| == |before| + |given[most]|;
    }
  }

  /** What an Area's demands up to a moment are given, it works before that moment. */
  lemma {:induction false} GivenIsWorked(demands: seq<DeadlineDemand>, work: map<Area, set<Instant>>,
                                         given: seq<set<Instant>>, area: Area, moment: Instant)
    requires AreGiven(demands, work, given) && forall i :: 0 <= i < |demands| ==> demands[i].deadline <= moment
    ensures GivenTo(demands, given, area, false) <= Before(WorkOf(work, area), moment)
  {
    forall t | t in GivenTo(demands, given, area, false) ensures t in Before(WorkOf(work, area), moment) {
      GivenToAre(demands, given, area, false, t);
    }
  }

  lemma {:induction false} GivenElsewhereIsApart(inputs: ProbeInputs, demands: seq<DeadlineDemand>,
                                                 work: map<Area, set<Instant>>, given: seq<set<Instant>>, area: Area)
    requires IsWork(inputs, work) && AreGiven(demands, work, given)
    ensures GivenTo(demands, given, area, true) <= Free(inputs)
    ensures GivenTo(demands, given, area, true) !! WorkOf(work, area)
  {
    hide Free;
    forall t | t in GivenTo(demands, given, area, true) ensures t in Free(inputs) && t !in WorkOf(work, area) {
      GivenToAre(demands, given, area, true, t);
    }
  }

  lemma {:induction false} DemandedIsOwed(demands: seq<DeadlineDemand>, area: Area)
    ensures DemandedElsewhere(demands, area) == Owed(demands, area, true)
  {
    if demands != [] {
      DemandedIsOwed(demands[..|demands| - 1], area);
    }
  }

  // ---- The dictionaries ----

  ghost predicate IsDict<V>(dict: Dict<V>) {
    && (forall i, j :: 0 <= i < j < |dict.order| ==> dict.order[i] != dict.order[j])
    && forall area :: area in dict.order <==> area in dict.values
  }

  lemma {:induction false} PutKeeps<V>(dict: Dict<V>, key: Area, value: V)
    requires IsDict(dict)
    ensures IsDict(Put(dict, key, value))
  {
    if key !in dict.values {
      forall area ensures area in dict.order + [key] <==> area in dict.values || area == key {
      }
    }
  }

  /** No more is claimed than the demands so far owe. */
  lemma {:induction false} ClaimsAreOwed(inputs: ProbeInputs, demands: seq<DeadlineDemand>, area: Area)
    ensures ClaimedBy(ClaimsOf(inputs, demands), area) <= Owed(demands, area, false)
    ensures IsDict(ClaimsOf(inputs, demands))
  {
    hide Available, IsDict;
    if demands == [] {
      NothingIsADict<nat>();
    } else {
      var most, last := demands[..|demands| - 1], demands[|demands| - 1];
      ClaimsAreOwed(inputs, most, area);
      PutKeeps(ClaimsOf(inputs, most), last.area,
               ClaimedBy(ClaimsOf(inputs, most), last.area)
               + Smaller(Available(inputs, last, ClaimsOf(inputs, most)), last.remaining));
    }
  }

  lemma {:induction false} NothingIsADict<V>()
    ensures var none: Dict<V> := Dict(map[], []); IsDict(none)
  {
  }

  lemma {:induction false} ByAreaHolds(reservations: seq<FloorReservation>)
    ensures IsDict(ByArea(reservations))
    ensures forall area :: area in ByArea(reservations).values ==>
              ByArea(reservations).values[area] in reservations && ByArea(reservations).values[area].area == area
  {
    hide IsDict;
    if reservations == [] {
      NothingIsADict<FloorReservation>();
    } else {
      var most, last := reservations[..|reservations| - 1], reservations[|reservations| - 1];
      ByAreaHolds(most);
      PutKeeps(ByArea(most), last.area, last);
      assert forall reservation :: reservation in most ==> reservation in reservations;
    }
  }

  ghost predicate AreApart(areas: seq<Area>) {
    forall i, j :: 0 <= i < j < |areas| ==> areas[i] != areas[j]
  }

  lemma {:induction false} OthersAre(order: seq<Area>, area: Area, named: set<Area>)
    requires AreApart(order)
    ensures AreApart(Others(order, area, named))
    ensures forall other :: other in Others(order, area, named) <==>
                            other in order && other != area && other !in named
  {
    if order != [] {
      var most, last := order[..|order| - 1], order[|order| - 1];
      OthersAre(most, area, named);
      assert forall other :: other in order <==> other in most || other == last;
      assert last !in most;
    }
  }

  lemma {:induction false} CompetitorsAreOthers(reserved: Dict<FloorReservation>, claimed: Dict<nat>, area: Area)
    requires IsDict(reserved) && IsDict(claimed)
    ensures AreApart(CompetingAreas(reserved, claimed, area)) && area !in CompetingAreas(reserved, claimed, area)
  {
    OthersAre(reserved.order, area, {});
    OthersAre(claimed.order, area, reserved.values.Keys);
    var first, second := Others(reserved.order, area, {}), Others(claimed.order, area, reserved.values.Keys);
    forall i, j | 0 <= i < |first| && 0 <= j < |second| ensures first[i] != second[j] {
      assert first[i] in first && second[j] in second;
    }
  }

  // ---- What the other Areas must do before a deadline ----

  ghost function WorkBefore(work: map<Area, set<Instant>>, areas: seq<Area>, deadline: Instant): set<Instant> {
    if areas == [] then {}
    else
      WorkBefore(work, areas[..|areas| - 1], deadline) + Before(WorkOf(work, areas[|areas| - 1]), deadline)
  }

  lemma {:induction false} WorkBeforeIs(inputs: ProbeInputs, work: map<Area, set<Instant>>, areas: seq<Area>,
                                        deadline: Instant, other: Area)
    requires IsWork(inputs, work) && other !in areas
    ensures WorkBefore(work, areas, deadline) <= Before(Free(inputs), deadline)
    ensures WorkBefore(work, areas, deadline) !! WorkOf(work, other)
  {
    hide Free;
    if areas != [] {
      WorkBeforeIs(inputs, work, areas[..|areas| - 1], deadline, other);
    }
  }

  /** What of an Area's floor must come early is more than its earlier deadlines claimed. */
  predicate IsEarly(reserved: Dict<FloorReservation>, claimed: Dict<nat>, later: nat, area: Area) {
    ClaimedBy(claimed, area) < EarlyPart(reserved, area, later)
  }

  /** The work after a deadline of the Areas whose floor must come early. */
  ghost function WorkAfter(work: map<Area, set<Instant>>, reserved: Dict<FloorReservation>, claimed: Dict<nat>,
                           later: nat, areas: seq<Area>, deadline: Instant): set<Instant>
  {
    if areas == [] then {}
    else
      var most, last := areas[..|areas| - 1], areas[|areas| - 1];
      WorkAfter(work, reserved, claimed, later, most, deadline)
      + if IsEarly(reserved, claimed, later, last) then From(WorkOf(work, last), deadline) else {}
  }

  lemma {:induction false} WorkAfterIs(inputs: ProbeInputs, work: map<Area, set<Instant>>,
                                       reserved: Dict<FloorReservation>, claimed: Dict<nat>, later: nat,
                                       areas: seq<Area>, deadline: Instant, other: Area)
    requires IsWork(inputs, work)
    ensures WorkAfter(work, reserved, claimed, later, areas, deadline) <= From(Free(inputs), deadline)
    ensures other !in areas ==> WorkAfter(work, reserved, claimed, later, areas, deadline) !! WorkOf(work, other)
  {
    hide Free, IsEarly;
    if areas != [] {
      WorkAfterIs(inputs, work, reserved, claimed, later, areas[..|areas| - 1], deadline, other);
    }
  }

  /** An Area works before a deadline what its earlier deadlines claimed, and in all what its floor asks for. */
  ghost predicate Works(work: map<Area, set<Instant>>, reserved: Dict<FloorReservation>, claimed: Dict<nat>,
                        area: Area, deadline: Instant)
  {
    && ClaimedBy(claimed, area) * MINUTE <= |Before(WorkOf(work, area), deadline)|
    && (area in reserved.values ==> reserved.values[area].reserved * MINUTE <= |WorkOf(work, area)|)
  }

  lemma {:induction false} WorkIsCut(instants: set<Instant>, deadline: Instant)
    ensures |instants| == |Before(instants, deadline)| + |From(instants, deadline)|
  {
    assert instants == Before(instants, deadline) + From(instants, deadline);
  }

  lemma {:induction false} OneMoreWorks(work: map<Area, set<Instant>>, reserved: Dict<FloorReservation>,
                                        claimed: Dict<nat>, later: nat, area: Area, deadline: Instant)
    requires Works(work, reserved, claimed, area, deadline)
    ensures var contested := Larger(ClaimedBy(claimed, area), EarlyPart(reserved, area, later));
            if IsEarly(reserved, claimed, later, area) then
              (contested + later) * MINUTE
              <= |Before(WorkOf(work, area), deadline)| + |From(WorkOf(work, area), deadline)|
            else contested * MINUTE <= |Before(WorkOf(work, area), deadline)|
  {
    WorkIsCut(WorkOf(work, area), deadline);
  }

  /** What Areas contest they work before the deadline; or, where floors must come early, before it and after it
      together they work that and what could come later once more. */
  lemma {:induction false} ContestedIsWorked(inputs: ProbeInputs, work: map<Area, set<Instant>>,
                                             reserved: Dict<FloorReservation>, claimed: Dict<nat>, later: nat,
                                             areas: seq<Area>, deadline: Instant)
    requires IsWork(inputs, work) && AreApart(areas)
    requires forall area :: area in areas ==> Works(work, reserved, claimed, area, deadline)
    ensures var contested := Contested(reserved, claimed, later, areas) * MINUTE;
            var before := WorkBefore(work, areas, deadline);
            var after := WorkAfter(work, reserved, claimed, later, areas, deadline);
            (after == {} && contested <= |before|) || contested + later * MINUTE <= |before| + |after|
  {
    hide EarlyPart, ClaimedBy, Larger, IsWork, WorkOf, IsEarly, Works, Before, From;
    if areas != [] {
      var most, last := areas[..|areas| - 1], areas[|areas| - 1];
      ContestedIsWorked(inputs, work, reserved, claimed, later, most, deadline);
      WorkBeforeIs(inputs, work, most, deadline, last);
      WorkAfterIs(inputs, work, reserved, claimed, later, most, deadline, last);
      OneMoreWorks(work, reserved, claimed, later, last, deadline);
      CutsArePart(WorkOf(work, last), deadline);
      var before, now := WorkBefore(work, most, deadline), Before(WorkOf(work, last), deadline);
      assert |before + now| == |before| + |now|;
      var after, then_ := WorkAfter(work, reserved, claimed, later, most, deadline), From(WorkOf(work, last), deadline);
      assert |after + then_| == |after| + |then_|;
    }
  }

  lemma {:induction false} CutsArePart(instants: set<Instant>, deadline: Instant)
    ensures Before(instants, deadline) <= instants && From(instants, deadline) <= instants
  {
  }

  lemma {:induction false} EachWorks(inputs: ProbeInputs, work: map<Area, set<Instant>>, demands: seq<DeadlineDemand>,
                                     given: seq<set<Instant>>, area: Area, deadline: Instant)
    requires IsWork(inputs, work) && AreGiven(demands, work, given)
    requires forall i :: 0 <= i < |inputs.reservations| ==> MeetsFloor(inputs.reservations[i], work)
    requires forall i :: 0 <= i < |demands| ==> IsMet(demands[i], given[i]) && demands[i].deadline <= deadline
    ensures Works(work, ByArea(inputs.reservations), ClaimsOf(inputs, demands), area, deadline)
  {
    hide ByArea, ClaimsOf, GivenTo, Owed, Free;
    ClaimsAreOwed(inputs, demands, area);
    GivenIsEnough(demands, given, area, false);
    GivenIsWorked(demands, work, given, area, deadline);
    SizesInOrder(GivenTo(demands, given, area, false), Before(WorkOf(work, area), deadline));
    ByAreaHolds(inputs.reservations);
    var reserved := ByArea(inputs.reservations);
    if area in reserved.values {
      var i :| 0 <= i < |inputs.reservations| && inputs.reservations[i] == reserved.values[area];
      assert MeetsFloor(inputs.reservations[i], work);
    }
  }

  /** Before a deadline the other Areas work at least the minutes contested, but for the part of a minute that the
      capacity after it has left over. */
  lemma {:induction false} OthersMustWork(inputs: ProbeInputs, work: map<Area, set<Instant>>,
                                          demands: seq<DeadlineDemand>, given: seq<set<Instant>>,
                                          demand: DeadlineDemand)
    requires IsWork(inputs, work) && AreGiven(demands, work, given)
    requires forall i :: 0 <= i < |inputs.reservations| ==> MeetsFloor(inputs.reservations[i], work)
    requires forall i :: 0 <= i < |demands| ==> IsMet(demands[i], given[i]) && demands[i].deadline <= demand.deadline
    ensures var areas := AreasAgainst(inputs, demand, ClaimsOf(inputs, demands));
            && Contested(ByArea(inputs.reservations), ClaimsOf(inputs, demands), Later(inputs, demand.deadline), areas)
               * MINUTE <= |WorkBefore(work, areas, demand.deadline)| + Leftover(From(Free(inputs), demand.deadline))
            && WorkBefore(work, areas, demand.deadline) <= Before(Free(inputs), demand.deadline)
            && WorkBefore(work, areas, demand.deadline) !! WorkOf(work, demand.area)
  {
    hide MeetsFloor, IsMet, IsWork, AreGiven, ClaimsOf, ByArea, CompetingAreas, Free, WorkBefore, WorkAfter, Contested,
      IsDict, AreApart, Works, From, Before;
    var reserved, claimed := ByArea(inputs.reservations), ClaimsOf(inputs, demands);
    ByAreaHolds(inputs.reservations);
    ClaimsAreOwed(inputs, demands, demand.area);
    CompetitorsAreOthers(reserved, claimed, demand.area);
    var areas := CompetingAreas(reserved, claimed, demand.area);
    var later := Later(inputs, demand.deadline);
    forall area | area in areas ensures Works(work, reserved, claimed, area, demand.deadline) {
      EachWorks(inputs, work, demands, given, area, demand.deadline);
    }
    ContestedIsWorked(inputs, work, reserved, claimed, later, areas, demand.deadline);
    WorkBeforeIs(inputs, work, areas, demand.deadline, demand.area);
    WorkAfterIs(inputs, work, reserved, claimed, later, areas, demand.deadline, demand.area);
    SizesInOrder(WorkAfter(work, reserved, claimed, later, areas, demand.deadline),
                 From(Free(inputs), demand.deadline));
  }

  // ---- The three gaps ----

  ghost predicate AreDueInOrder(demands: seq<DeadlineDemand>) {
    forall i, j :: 0 <= i < j < |demands| ==> demands[i].deadline <= demands[j].deadline
  }

  /** However a week is worked, if every floor is reached and every earlier demand is met, a demand gets no more minutes
      than the probe finds available for it and the two at most that are lost by counting capacity apart. */
  lemma {:induction false} GapAgainstADeadline(inputs: ProbeInputs, work: map<Area, set<Instant>>,
                                               demands: seq<DeadlineDemand>, given: seq<set<Instant>>, at: nat)
    requires IsWork(inputs, work) && AreGiven(demands, work, given) && at < |demands| && AreDueInOrder(demands)
    requires forall i :: 0 <= i < |inputs.reservations| ==> MeetsFloor(inputs.reservations[i], work)
    requires forall i :: 0 <= i < at ==> IsMet(demands[i], given[i])
    ensures var demand := demands[at];
            && Minutes(given[at]) <= Minutes(ClaimableBefore(inputs, demand))
            && Minutes(given[at]) <= Available(inputs, demand, ClaimsOf(inputs, demands[..at]))
                                     + LostBefore(inputs, demand.area, demand.deadline)
  {
    hide MeetsFloor, ClaimsOf, Available, IsMet, LostBefore;
    EarlierIsGiven(work, demands, given, at);
    OthersMustWork(inputs, work, demands[..at], given[..at], demands[at]);
    OwnWork(inputs, work, demands, given, at);
  }

  lemma {:induction false} EarlierIsGiven(work: map<Area, set<Instant>>, demands: seq<DeadlineDemand>,
                                          given: seq<set<Instant>>, at: nat)
    requires AreGiven(demands, work, given) && at < |demands| && AreDueInOrder(demands)
    requires forall i :: 0 <= i < at ==> IsMet(demands[i], given[i])
    ensures AreGiven(demands[..at], work, given[..at])
    ensures forall i :: 0 <= i < at ==>
              IsMet(demands[..at][i], given[..at][i]) && demands[..at][i].deadline <= demands[at].deadline
  {
    hide IsMet;
  }

  lemma {:induction false} OwnWork(inputs: ProbeInputs, work: map<Area, set<Instant>>, demands: seq<DeadlineDemand>,
                                   given: seq<set<Instant>>, at: nat)
    requires IsWork(inputs, work) && AreGiven(demands, work, given) && at < |demands|
    requires AreGiven(demands[..at], work, given[..at])
    requires forall i :: 0 <= i < at ==>
               IsMet(demands[..at][i], given[..at][i]) && demands[..at][i].deadline <= demands[at].deadline
    requires var demand, claimed := demands[at], ClaimsOf(inputs, demands[..at]);
             var areas := AreasAgainst(inputs, demand, claimed);
             && Contested(ByArea(inputs.reservations), claimed, Later(inputs, demand.deadline), areas) * MINUTE
                <= |WorkBefore(work, areas, demand.deadline)| + Leftover(From(Free(inputs), demand.deadline))
             && WorkBefore(work, areas, demand.deadline) <= Before(Free(inputs), demand.deadline)
             && WorkBefore(work, areas, demand.deadline) !! WorkOf(work, demand.area)
    ensures var demand := demands[at];
            && Minutes(given[at]) <= Minutes(ClaimableBefore(inputs, demand))
            && Minutes(given[at]) <= Available(inputs, demand, ClaimsOf(inputs, demands[..at]))
                                     + LostBefore(inputs, demand.area, demand.deadline)
  {
    hide ClaimsOf, ByArea, AreasAgainst, Free, WorkBefore, Contested, Later, GivenTo, Owed, IsMet, Leftover;
    var demand, claimed := demands[at], ClaimsOf(inputs, demands[..at]);
    var areas := AreasAgainst(inputs, demand, claimed);
    var earlier := GivenTo(demands[..at], given[..at], demand.area, false);
    ClaimsAreOwed(inputs, demands[..at], demand.area);
    GivenIsEnough(demands[..at], given[..at], demand.area, false);
    GivenIsWorked(demands[..at], work, given[..at], demand.area, demand.deadline);
    forall t | t in earlier ensures t !in given[at] {
      GivenToAre(demands[..at], given[..at], demand.area, false, t);
    }
    assert |earlier + given[at]| == |earlier| + |given[at]|;
    var claimable, jointly := ClaimableBefore(inputs, demand), Before(Free(inputs), demand.deadline);
    assert earlier + given[at] <= claimable <= jointly;
    LeavesNoMore(claimable, jointly - claimable, earlier + given[at], WorkBefore(work, areas, demand.deadline),
                 Minutes(given[at]), ClaimedBy(claimed, demand.area),
                 Contested(ByArea(inputs.reservations), claimed, Later(inputs, demand.deadline), areas),
                 Leftover(From(Free(inputs), demand.deadline)));
  }

  ghost function MinutesWorked(reservations: seq<FloorReservation>, work: map<Area, set<Instant>>): nat {
    if reservations == [] then 0
    else
      MinutesWorked(reservations[..|reservations| - 1], work)
      + Minutes(WorkOf(work, reservations[|reservations| - 1].area))
  }

  ghost function AllWork(reservations: seq<FloorReservation>, work: map<Area, set<Instant>>): set<Instant> {
    if reservations == [] then {}
    else
      AllWork(reservations[..|reservations| - 1], work) + WorkOf(work, reservations[|reservations| - 1].area)
  }

  lemma {:induction false} AllWorkIs(inputs: ProbeInputs, reservations: seq<FloorReservation>,
                                     work: map<Area, set<Instant>>)
    requires IsWork(inputs, work) && HaveOneFloor(reservations)
    ensures AllWork(reservations, work) <= Free(inputs)
    ensures MinutesWorked(reservations, work) * MINUTE <= |AllWork(reservations, work)|
    ensures forall area :: (forall i :: 0 <= i < |reservations| ==> reservations[i].area != area) ==>
              AllWork(reservations, work) !! WorkOf(work, area)
  {
    hide Free;
    if reservations != [] {
      var most, last := reservations[..|reservations| - 1], reservations[|reservations| - 1];
      AllWorkIs(inputs, most, work);
      assert AllWork(most, work) !! WorkOf(work, last.area);
      assert |AllWork(reservations, work)| == |AllWork(most, work)| + |WorkOf(work, last.area)|;
    }
  }

  /** However a week is worked, the Areas with floors get no more minutes between them than are free. */
  lemma {:induction false} GapAgainstTheWeek(inputs: ProbeInputs, work: map<Area, set<Instant>>)
    requires IsWork(inputs, work) && HaveOneFloor(inputs.reservations)
    ensures MinutesWorked(inputs.reservations, work) <= Minutes(Free(inputs))
  {
    hide Free;
    AllWorkIs(inputs, inputs.reservations, work);
    SizesInOrder(AllWork(inputs.reservations, work), Free(inputs));
  }

  /** However a week is worked, if every demand is met, an Area gets no more minutes than the probe finds in its reach
      and the one at most that is lost. */
  lemma {:induction false} GapAgainstAnArea(inputs: ProbeInputs, work: map<Area, set<Instant>>,
                                            given: seq<set<Instant>>, area: Area)
    requires IsWork(inputs, work) && AreGiven(inputs.demands, work, given)
    requires forall i :: 0 <= i < |inputs.demands| ==> IsMet(inputs.demands[i], given[i])
    ensures Minutes(WorkOf(work, area)) <= Minutes(FreeFor(inputs, area))
    ensures Minutes(WorkOf(work, area)) <= Reachable(inputs, area) + LostOf(inputs, area)
  {
    hide Free, IsMet, Leftover;
    var elsewhere := GivenTo(inputs.demands, given, area, true);
    GivenIsEnough(inputs.demands, given, area, true);
    GivenElsewhereIsApart(inputs, inputs.demands, work, given, area);
    DemandedIsOwed(inputs.demands, area);
    var claimable := FreeFor(inputs, area);
    LeavesNoMore(claimable, Free(inputs) - claimable, WorkOf(work, area), elsewhere, Minutes(WorkOf(work, area)), 0,
                 DemandedElsewhere(inputs.demands, area), 0);
  }
}
