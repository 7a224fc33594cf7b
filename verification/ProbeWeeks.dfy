// What a shortfall proves of a whole week, and for which calendars finding none is proof as well.
module ProbeWeeks {
  import opened Wrappers
  import opened Text
  import opened Intervals
  import opened Probe
  import opened ProbeLaws

  // ---- The demands in another order ----

  lemma {:induction false} InsertedIsInOrder(demand: DeadlineDemand, sorted: seq<DeadlineDemand>)
    requires AreDueInOrder(sorted)
    ensures AreDueInOrder(Inserted(demand, sorted))
    ensures forall other :: other in Inserted(demand, sorted) <==> other == demand || other in sorted
  {
    if sorted != [] && IsDueBefore(sorted[0], demand) {
      InsertedIsInOrder(demand, sorted[1..]);
      var rest := Inserted(demand, sorted[1..]);
      forall j | 0 <= j < |rest| ensures sorted[0].deadline <= rest[j].deadline {
        assert rest[j] in rest;
      }
    }
  }

  lemma {:induction false} EarliestComeFirst(demands: seq<DeadlineDemand>)
    ensures AreDueInOrder(EarliestFirst(demands))
    ensures forall other :: other in EarliestFirst(demands) <==> other in demands
  {
    if demands != [] {
      EarliestComeFirst(demands[1..]);
      InsertedIsInOrder(demands[0], EarliestFirst(demands[1..]));
    }
  }

  ghost predicate IsServed(demand: DeadlineDemand, work: map<Area, set<Instant>>, given: set<Instant>) {
    given <= Before(WorkOf(work, demand.area), demand.deadline) && IsMet(demand, given)
  }

  /** Every demand is given what it owes, in time and apart from the others. */
  ghost predicate AreServed(demands: seq<DeadlineDemand>, work: map<Area, set<Instant>>, given: seq<set<Instant>>) {
    && |given| == |demands|
    && (forall i :: 0 <= i < |demands| ==> IsServed(demands[i], work, given[i]))
    && forall i, j :: 0 <= i < j < |demands| ==> given[i] !! given[j]
  }

  lemma {:induction false} ServedIsGiven(demands: seq<DeadlineDemand>, work: map<Area, set<Instant>>,
                                         given: seq<set<Instant>>)
    ensures AreServed(demands, work, given) <==>
            AreGiven(demands, work, given) && forall i :: 0 <= i < |demands| ==> IsMet(demands[i], given[i])
  {
    hide IsMet;
  }

  lemma {:induction false} ServedOneMore(demand: DeadlineDemand, mine: set<Instant>, demands: seq<DeadlineDemand>,
                                         work: map<Area, set<Instant>>, given: seq<set<Instant>>)
    requires AreServed(demands, work, given) && IsServed(demand, work, mine)
    requires forall i :: 0 <= i < |given| ==> mine !! given[i]
    ensures AreServed([demand] + demands, work, [mine] + given)
  {
    hide IsServed;
  }

  lemma {:induction false} ServedWithoutFirst(demands: seq<DeadlineDemand>, work: map<Area, set<Instant>>,
                                              given: seq<set<Instant>>)
    requires AreServed(demands, work, given) && demands != []
    ensures AreServed(demands[1..], work, given[1..]) && IsServed(demands[0], work, given[0])
    ensures forall i :: 0 <= i < |given[1..]| ==> given[0] !! given[1..][i]
  {
    hide IsServed;
  }

  lemma {:induction false} ServedInserted(demand: DeadlineDemand, mine: set<Instant>, sorted: seq<DeadlineDemand>,
                                          work: map<Area, set<Instant>>, given: seq<set<Instant>>)
    returns (again: seq<set<Instant>>)
    requires AreServed(sorted, work, given) && IsServed(demand, work, mine)
    requires forall i :: 0 <= i < |given| ==> mine !! given[i]
    ensures AreServed(Inserted(demand, sorted), work, again)
    ensures forall j :: 0 <= j < |again| ==> again[j] == mine || again[j] in given
  {
    hide IsServed, AreServed, IsDueBefore;
    if sorted == [] || !IsDueBefore(sorted[0], demand) {
      again := [mine] + given;
      ServedOneMore(demand, mine, sorted, work, given);
    } else {
      ServedWithoutFirst(sorted, work, given);
      assert |given| > 0 by { ServedLengths(sorted, work, given); }
      var rest := ServedInserted(demand, mine, sorted[1..], work, given[1..]);
      again := [given[0]] + rest;
      ServedOneMore(sorted[0], given[0], Inserted(demand, sorted[1..]), work, rest);
    }
  }

  lemma {:induction false} ServedLengths(demands: seq<DeadlineDemand>, work: map<Area, set<Instant>>,
                                         given: seq<set<Instant>>)
    requires AreServed(demands, work, given)
    ensures |given| == |demands|
  {
  }

  lemma {:induction false} ServedInOrder(demands: seq<DeadlineDemand>, work: map<Area, set<Instant>>,
                                         given: seq<set<Instant>>) returns (again: seq<set<Instant>>)
    requires AreServed(demands, work, given)
    ensures AreServed(EarliestFirst(demands), work, again)
    ensures forall j :: 0 <= j < |again| ==> again[j] in given
  {
    hide IsServed;
    if demands == [] {
      again := [];
    } else {
      ServedWithoutFirst(demands, work, given);
      var rest := ServedInOrder(demands[1..], work, given[1..]);
      forall j | 0 <= j < |rest| ensures given[0] !! rest[j] {
        var i :| 0 <= i < |given[1..]| && given[1..][i] == rest[j];
      }
      again := ServedInserted(demands[0], given[0], EarliestFirst(demands[1..]), work, rest);
    }
  }

  lemma {:induction false} ServedTakenOut(demand: DeadlineDemand, sorted: seq<DeadlineDemand>,
                                          work: map<Area, set<Instant>>, again: seq<set<Instant>>)
    returns (mine: set<Instant>, given: seq<set<Instant>>)
    requires AreServed(Inserted(demand, sorted), work, again)
    ensures AreServed(sorted, work, given) && IsServed(demand, work, mine)
    ensures forall i :: 0 <= i < |given| ==> mine !! given[i]
    ensures mine in again && forall i :: 0 <= i < |given| ==> given[i] in again
  {
    hide IsServed, AreServed, IsDueBefore;
    ServedWithoutFirst(Inserted(demand, sorted), work, again);
    ServedLengths(Inserted(demand, sorted), work, again);
    if sorted == [] || !IsDueBefore(sorted[0], demand) {
      mine, given := again[0], again[1..];
      assert Inserted(demand, sorted)[1..] == sorted;
    } else {
      assert Inserted(demand, sorted)[1..] == Inserted(demand, sorted[1..]);
      var rest;
      mine, rest := ServedTakenOut(demand, sorted[1..], work, again[1..]);
      given := [again[0]] + rest;
      forall i | 0 <= i < |rest| ensures again[0] !! rest[i] {
        var k :| 0 <= k < |again[1..]| && again[1..][k] == rest[i];
      }
      var m :| 0 <= m < |again[1..]| && again[1..][m] == mine;
      ServedOneMore(sorted[0], again[0], sorted[1..], work, rest);
      assert [sorted[0]] + sorted[1..] == sorted;
    }
  }

  lemma {:induction false} ServedAsListed(demands: seq<DeadlineDemand>, work: map<Area, set<Instant>>,
                                          again: seq<set<Instant>>) returns (given: seq<set<Instant>>)
    requires AreServed(EarliestFirst(demands), work, again)
    ensures AreServed(demands, work, given)
    ensures forall i :: 0 <= i < |given| ==> given[i] in again
  {
    hide IsServed;
    if demands == [] {
      given := [];
    } else {
      var mine, rest := ServedTakenOut(demands[0], EarliestFirst(demands[1..]), work, again);
      var others := ServedAsListed(demands[1..], work, rest);
      forall i | 0 <= i < |others| ensures mine !! others[i] && others[i] in again {
        var k :| 0 <= k < |rest| && rest[k] == others[i];
      }
      given := [mine] + others;
      ServedOneMore(demands[0], mine, demands[1..], work, others);
      assert [demands[0]] + demands[1..] == demands;
    }
  }

  // ---- A shortfall is proof ----

  /** Counting an Area's capacity apart from the rest loses no minute, or there is none to lose. */
  predicate KeepsMinutes(inputs: ProbeInputs, area: Area) {
    Minutes(FreeFor(inputs, area)) == 0 || LostOf(inputs, area) == 0
  }

  predicate KeepsMinutesBefore(inputs: ProbeInputs, area: Area, deadline: Instant) {
    Minutes(Before(FreeFor(inputs, area), deadline)) == 0 || LostBefore(inputs, area, deadline) == 0
  }

  /** No capacity that is asked for loses a minute by the way it is counted. */
  predicate LosesNoMinute(inputs: ProbeInputs) {
    && (forall i :: 0 <= i < |inputs.demands| ==>
          KeepsMinutesBefore(inputs, inputs.demands[i].area, inputs.demands[i].deadline))
    && forall i :: 0 <= i < |inputs.reservations| ==> KeepsMinutes(inputs, inputs.reservations[i].area)
  }

  lemma {:induction false} ReservedIsWorked(reservations: seq<FloorReservation>, work: map<Area, set<Instant>>)
    requires forall i :: 0 <= i < |reservations| ==> MeetsFloor(reservations[i], work)
    ensures Reserved(reservations) <= MinutesWorked(reservations, work)
  {
    if reservations != [] {
      ReservedIsWorked(reservations[..|reservations| - 1], work);
      assert MeetsFloor(reservations[|reservations| - 1], work);
    }
  }

  /** A demand that is met, with all before it and every floor, has no gap. */
  lemma {:induction false} NoGapWhenMet(inputs: ProbeInputs, work: map<Area, set<Instant>>,
                                        demands: seq<DeadlineDemand>, given: seq<set<Instant>>, at: nat)
    requires IsWork(inputs, work) && AreServed(demands, work, given) && AreDueInOrder(demands) && at < |demands|
    requires forall i :: 0 <= i < |inputs.reservations| ==> MeetsFloor(inputs.reservations[i], work)
    requires KeepsMinutesBefore(inputs, demands[at].area, demands[at].deadline)
    ensures DeadlineShortfall(inputs, demands[at], ClaimsOf(inputs, demands[..at])) == []
  {
    hide IsWork, AreServed, AreDueInOrder, MeetsFloor, ClaimsOf, Available, Takes, LostBefore, FreeFor, Before;
    ServedIsGiven(demands, work, given);
    GapAgainstADeadline(inputs, work, demands, given, at);
    assert IsMet(demands[at], given[at]);
  }

  lemma {:induction false} NoDeadlineShortfalls(inputs: ProbeInputs, work: map<Area, set<Instant>>,
                                                demands: seq<DeadlineDemand>, given: seq<set<Instant>>, count: nat)
    requires IsWork(inputs, work) && AreServed(demands, work, given) && AreDueInOrder(demands) && count <= |demands|
    requires forall i :: 0 <= i < |inputs.reservations| ==> MeetsFloor(inputs.reservations[i], work)
    requires forall i :: 0 <= i < |demands| ==> KeepsMinutesBefore(inputs, demands[i].area, demands[i].deadline)
    ensures DeadlineShortfalls(inputs, demands[..count]) == []
  {
    hide IsWork, AreServed, AreDueInOrder, MeetsFloor, KeepsMinutesBefore, ClaimsOf, DeadlineShortfall,
      DeadlineShortfalls;
    if count > 0 {
      var at := count - 1;
      NoDeadlineShortfalls(inputs, work, demands, given, at);
      NoGapWhenMet(inputs, work, demands, given, at);
      OneMoreGap(inputs, demands[..at], demands[at]);
      assert demands[..at] + [demands[at]] == demands[..count];
    } else {
      NoDemands(inputs);
      assert demands[..0] == [];
    }
  }

  /** A floor that is reached while every demand is met has no gap. */
  lemma {:induction false} NoGapWhenReached(inputs: ProbeInputs, work: map<Area, set<Instant>>,
                                            given: seq<set<Instant>>, reservation: FloorReservation)
    requires IsWork(inputs, work) && AreServed(inputs.demands, work, given) && MeetsFloor(reservation, work)
    requires KeepsMinutes(inputs, reservation.area)
    ensures FloorShortfall(inputs, reservation) == []
  {
    hide IsWork, AreServed, AreGiven, Reachable, LostOf, FreeFor;
    ServedIsGiven(inputs.demands, work, given);
    GapAgainstAnArea(inputs, work, given, reservation.area);
  }

  lemma {:induction false} NoFloorShortfalls(inputs: ProbeInputs, work: map<Area, set<Instant>>,
                                             given: seq<set<Instant>>, reservations: seq<FloorReservation>)
    requires IsWork(inputs, work) && AreServed(inputs.demands, work, given)
    requires forall i :: 0 <= i < |reservations| ==>
               MeetsFloor(reservations[i], work) && KeepsMinutes(inputs, reservations[i].area)
    ensures FloorShortfalls(inputs, reservations) == []
  {
    hide IsWork, AreServed, MeetsFloor, KeepsMinutes, FloorShortfall;
    if reservations != [] {
      NoFloorShortfalls(inputs, work, given, reservations[..|reservations| - 1]);
      NoGapWhenReached(inputs, work, given, reservations[|reservations| - 1]);
    }
  }

  /** If every floor can be reached and every deadline kept in the capacity there is, and counting it loses no minute,
      the probe reports nothing: so what it reports proves that they cannot. */
  lemma {:induction false} ShortfallIsProof(inputs: ProbeInputs, work: map<Area, set<Instant>>,
                                            given: seq<set<Instant>>)
    requires HaveOneFloor(inputs.reservations) && LosesNoMinute(inputs) && IsDone(inputs, work, given)
    ensures Shortfalls(inputs) == []
  {
    hide IsWork, HaveOneFloor, AreGiven, AreServed, MeetsFloor, IsMet, Free, EarliestFirst, DeadlineShortfalls,
      FloorShortfalls, KeepsMinutes, KeepsMinutesBefore;
    ReservedIsWorked(inputs.reservations, work);
    GapAgainstTheWeek(inputs, work);
    ServedIsGiven(inputs.demands, work, given);
    EarliestComeFirst(inputs.demands);
    var again := ServedInOrder(inputs.demands, work, given);
    var demands := EarliestFirst(inputs.demands);
    forall i | 0 <= i < |demands| ensures KeepsMinutesBefore(inputs, demands[i].area, demands[i].deadline) {
      assert demands[i] in inputs.demands;
    }
    NoDeadlineShortfalls(inputs, work, demands, again, |demands|);
    assert demands[..|demands|] == demands;
    NoFloorShortfalls(inputs, work, given, inputs.reservations);
  }

  // ---- When no shortfall is proof too ----

  /** The earliest of some instants. */
  ghost predicate IsInitial(part: set<Instant>, whole: set<Instant>) {
    part <= whole && forall t, u :: t in part && u in whole && u !in part ==> t < u
  }

  lemma {:induction false} EarliestOf(instants: set<Instant>) returns (first: Instant)
    requires instants != {}
    ensures first in instants && forall t :: t in instants ==> first <= t
    decreases |instants|
  {
    var one := AnyOf(instants);
    if instants == {one} {
      return one;
    }
    var others := instants - {one};
    var next := EarliestOf(others);
    first := if one < next then one else next;
    forall t | t in instants ensures first <= t {
      assert t == one || t in others;
    }
  }

  lemma {:induction false} InitialOfSize(whole: set<Instant>, size: nat) returns (part: set<Instant>)
    requires size <= |whole|
    ensures IsInitial(part, whole) && |part| == size
  {
    part := {};
    if size > 0 {
      var shorter := InitialOfSize(whole, size - 1);
      assert |whole - shorter| > 0 by { SizesInOrder(shorter, whole); }
      var left := whole - shorter;
      var next := EarliestOf(left);
      part := shorter + {next};
      forall t, u | t in part && u in whole && u !in part ensures t < u {
        assert u in left && u != next;
        assert next <= u;
      }
    }
  }

  lemma {:induction false} InitialsNest(one: set<Instant>, other: set<Instant>, whole: set<Instant>)
    requires IsInitial(one, whole) && IsInitial(other, whole) && |one| <= |other|
    ensures one <= other
  {
    forall t | t in one ensures t in other {
      if t !in other {
        forall u | u in other ensures u in one {
          assert u < t;
        }
        SizesInOrder(other + {t}, one);
      }
    }
  }

  lemma {:induction false} BeforeIsInitial(whole: set<Instant>, moment: Instant)
    ensures IsInitial(Before(whole, moment), whole)
  {
  }

  /** Given to the demands in order, the earliest instants there are serve each of them by its deadline. */
  lemma {:induction false} Allot(area: Area, free: set<Instant>, demands: seq<DeadlineDemand>)
    returns (given: seq<set<Instant>>, used: set<Instant>)
    requires forall i :: 0 <= i < |demands| ==> demands[i].area == area
    requires forall i :: 0 <= i < |demands| ==>
               Owed(demands[..i + 1], area, false) * MINUTE <= |Before(free, demands[i].deadline)|
    ensures AreServed(demands, map[area := free], given)
    ensures IsInitial(used, free) && |used| == Owed(demands, area, false) * MINUTE
    ensures forall i :: 0 <= i < |given| ==> given[i] <= used
  {
    hide Owed, IsInitial;
    if demands == [] {
      given, used := [], {};
      NothingOwed(area, free);
    } else {
      var most, last := demands[..|demands| - 1], demands[|demands| - 1];
      forall i | 0 <= i < |most|
        ensures Owed(most[..i + 1], area, false) * MINUTE <= |Before(free, most[i].deadline)|
      {
        assert most[..i + 1] == demands[..i + 1];
      }
      var rest, before := Allot(area, free, most);
      assert demands[..|most| + 1] == demands;
      OwedOneMore(demands, area);
      var due := Before(free, last.deadline);
      SizesInOrder(due, free);
      used := InitialOfSize(free, Owed(demands, area, false) * MINUTE);
      InitialsNest(before, used, free);
      BeforeIsInitial(free, last.deadline);
      InitialsNest(used, due, free);
      SizesInOrder(before, used);
      given := rest + [used - before];
      assert IsServed(last, map[area := free], used - before);
      assert demands == most + [last];
    }
  }

  lemma {:induction false} NothingOwed(area: Area, free: set<Instant>)
    ensures Owed([], area, false) == 0 && IsInitial({}, free)
  {
  }

  lemma {:induction false} OwedOneMore(demands: seq<DeadlineDemand>, area: Area)
    requires demands != [] && demands[|demands| - 1].area == area
    ensures Owed(demands, area, false) ==
            Owed(demands[..|demands| - 1], area, false) + demands[|demands| - 1].remaining
  {
  }

  // ---- One Area ----

  /** The same calendar with other floors and demands. */
  function Asking(inputs: ProbeInputs, reservations: seq<FloorReservation>, demands: seq<DeadlineDemand>): ProbeInputs {
    inputs.(reservations := reservations, demands := demands)
  }

  lemma {:induction false} SameCapacity(inputs: ProbeInputs, reservations: seq<FloorReservation>,
                                        demands: seq<DeadlineDemand>, area: Area)
    ensures Free(Asking(inputs, reservations, demands)) == Free(inputs)
    ensures FreeFor(Asking(inputs, reservations, demands), area) == FreeFor(inputs, area)
  {
  }

  ghost predicate CanBeDone(inputs: ProbeInputs) {
    exists work, given :: IsDone(inputs, work, given)
  }

  /** What is asked is one Area's: a floor or none, and any demands. */
  predicate AskOneArea(reservations: seq<FloorReservation>, demands: seq<DeadlineDemand>, area: Area) {
    && (forall i :: 0 <= i < |demands| ==> demands[i].area == area)
    && |reservations| <= 1 && (forall i :: 0 <= i < |reservations| ==> reservations[i].area == area)
  }

  /** No whole minute is taken off what competes for an Area's capacity, or the Area has none of it. */
  predicate NothingIsDiscounted(inputs: ProbeInputs, area: Area) {
    Minutes(FreeFor(inputs, area)) == 0 || Minutes(Free(inputs) - FreeFor(inputs, area)) == 0
  }

  lemma {:induction false} NobodyCompetes(inputs: ProbeInputs, area: Area, demands: seq<DeadlineDemand>)
    requires AskOneArea(inputs.reservations, demands, area)
    ensures CompetingAreas(ByArea(inputs.reservations), ClaimsOf(inputs, demands), area) == []
  {
    ClaimedOnlyBy(inputs, area, demands);
    ReservedOnlyBy(inputs.reservations, area);
    NoOthers(ByArea(inputs.reservations).order, area, {});
    NoOthers(ClaimsOf(inputs, demands).order, area, ByArea(inputs.reservations).values.Keys);
  }

  lemma {:induction false} NoOthers(order: seq<Area>, area: Area, named: set<Area>)
    requires forall other :: other in order ==> other == area
    ensures Others(order, area, named) == []
  {
    if order != [] {
      var most := order[..|order| - 1];
      assert forall other :: other in most ==> other in order;
      assert order[|order| - 1] in order;
      NoOthers(most, area, named);
    }
  }

  lemma {:induction false} ClaimedOnlyBy(inputs: ProbeInputs, area: Area, demands: seq<DeadlineDemand>)
    requires forall i :: 0 <= i < |demands| ==> demands[i].area == area
    ensures forall other :: other in ClaimsOf(inputs, demands).order ==> other == area
  {
    hide Available;
    if demands != [] {
      ClaimedOnlyBy(inputs, area, demands[..|demands| - 1]);
    }
  }

  lemma {:induction false} ReservedOnlyBy(reservations: seq<FloorReservation>, area: Area)
    requires forall i :: 0 <= i < |reservations| ==> reservations[i].area == area
    ensures forall other :: other in ByArea(reservations).order ==> other == area
  {
    if reservations != [] {
      ReservedOnlyBy(reservations[..|reservations| - 1], area);
    }
  }

  lemma {:induction false} CutsAreFewer(whole: set<Instant>, part: set<Instant>, moment: Instant)
    requires part <= whole
    ensures Minutes(Before(part, moment)) <= Minutes(part)
    ensures Minutes(Before(whole, moment) - Before(part, moment)) <= Minutes(whole - part)
  {
    SizesInOrder(Before(part, moment), part);
    SizesInOrder(Before(whole, moment) - Before(part, moment), whole - part);
  }

  lemma {:induction false} AvailableToOne(inputs: ProbeInputs, area: Area, demands: seq<DeadlineDemand>,
                                          demand: DeadlineDemand)
    requires AskOneArea(inputs.reservations, demands, area) && demand.area == area && NothingIsDiscounted(inputs, area)
    ensures Available(inputs, demand, ClaimsOf(inputs, demands)) ==
            NotNegative(Minutes(ClaimableBefore(inputs, demand)) - ClaimedBy(ClaimsOf(inputs, demands), area))
  {
    hide ClaimsOf, Free, ByArea, CompetingAreas, Before, Minutes;
    NobodyCompetes(inputs, area, demands);
    CutsAreFewer(Free(inputs), FreeFor(inputs, area), demand.deadline);
  }

  /** With no shortfall found so far, all that the demands owe is claimed, and there is room for it by each deadline. */
  lemma {:induction false} OwedFits(inputs: ProbeInputs, area: Area, demands: seq<DeadlineDemand>, count: nat)
    requires AskOneArea(inputs.reservations, demands, area) && NothingIsDiscounted(inputs, area)
    requires count <= |demands| && AreDueInOrder(demands) && DeadlineShortfalls(inputs, demands) == []
    ensures ClaimedBy(ClaimsOf(inputs, demands[..count]), area) == Owed(demands[..count], area, false)
    ensures count > 0 ==>
              Owed(demands[..count], area, false) <= Minutes(Before(FreeFor(inputs, area), demands[count - 1].deadline))
    decreases count
  {
    hide FreeFor, Available, DeadlineShortfalls, ClaimsOf, Owed, Minutes, NothingIsDiscounted, Before;
    ShortfallsOfPrefix(inputs, demands, count);
    if count == 0 {
      NoDemands(inputs);
      NothingOwed(area, {});
      assert demands[..0] == [];
    } else {
      var at := count - 1;
      var demand, claimed := demands[at], ClaimsOf(inputs, demands[..at]);
      OwedFits(inputs, area, demands, at);
      assert demands[..at] + [demand] == demands[..count] && demands[..count][..at] == demands[..at];
      OneMoreGap(inputs, demands[..at], demand);
      OneMoreClaim(inputs, demands[..at], demand);
      AvailableToOne(inputs, area, demands[..at], demand);
      OwedOneMore(demands[..count], area);
      if at > 0 {
        LaterHoldsMore(FreeFor(inputs, area), demands[at - 1].deadline, demand.deadline);
      } else {
        NothingOwed(area, {});
        assert demands[..0] == [];
      }
      assert demand.remaining <= Available(inputs, demand, claimed);
    }
  }

  lemma {:induction false} LaterHoldsMore(free: set<Instant>, early: Instant, late: Instant)
    requires early <= late
    ensures Minutes(Before(free, early)) <= Minutes(Before(free, late))
  {
    SizesInOrder(Before(free, early), Before(free, late));
  }

  lemma {:induction false} ShortfallsOfPrefix(inputs: ProbeInputs, demands: seq<DeadlineDemand>, count: nat)
    requires count <= |demands| && DeadlineShortfalls(inputs, demands) == []
    ensures DeadlineShortfalls(inputs, demands[..count]) == []
    decreases |demands| - count
  {
    hide DeadlineShortfalls, DeadlineShortfall, ClaimsOf;
    if count == |demands| {
      assert demands[..count] == demands;
    } else {
      ShortfallsOfPrefix(inputs, demands, count + 1);
      OneMoreGap(inputs, demands[..count], demands[count]);
      assert demands[..count] + [demands[count]] == demands[..count + 1];
    }
  }

  lemma {:induction false} NothingElsewhere(demands: seq<DeadlineDemand>, area: Area)
    requires forall i :: 0 <= i < |demands| ==> demands[i].area == area
    ensures DemandedElsewhere(demands, area) == 0
  {
    if demands != [] {
      NothingElsewhere(demands[..|demands| - 1], area);
    }
  }

  lemma {:induction false} ReachedByOne(inputs: ProbeInputs, area: Area)
    requires AskOneArea(inputs.reservations, inputs.demands, area)
    ensures Reachable(inputs, area) == Minutes(FreeFor(inputs, area))
    ensures FloorShortfalls(inputs, inputs.reservations) == [] <==>
            forall i :: 0 <= i < |inputs.reservations| ==>
              inputs.reservations[i].reserved <= Minutes(FreeFor(inputs, area))
  {
    hide FreeFor, Free, Minutes;
    NothingElsewhere(inputs.demands, area);
    if inputs.reservations != [] {
      assert inputs.reservations[..|inputs.reservations| - 1] == [];
    }
  }

  // ---- One Area: what can be done is not reported ----

  /** With all before it met, a demand gets no more of its Area's capacity than is not claimed. */
  lemma {:induction false} UnclaimedIsEnough(inputs: ProbeInputs, work: map<Area, set<Instant>>,
                                             demands: seq<DeadlineDemand>, given: seq<set<Instant>>, at: nat)
    requires IsWork(inputs, work) && AreServed(demands, work, given) && AreDueInOrder(demands) && at < |demands|
    ensures var demand := demands[at];
            ClaimedBy(ClaimsOf(inputs, demands[..at]), demand.area) + demand.remaining
            <= Minutes(ClaimableBefore(inputs, demand))
  {
    hide ClaimsOf, FreeFor, GivenTo, Owed;
    var demand := demands[at];
    var earlier := GivenTo(demands[..at], given[..at], demand.area, false);
    ServedIsGiven(demands, work, given);
    EarlierIsGiven(work, demands, given, at);
    ClaimsAreOwed(inputs, demands[..at], demand.area);
    GivenIsEnough(demands[..at], given[..at], demand.area, false);
    GivenIsWorked(demands[..at], work, given[..at], demand.area, demand.deadline);
    forall t | t in earlier ensures t !in given[at] {
      GivenToAre(demands[..at], given[..at], demand.area, false, t);
    }
    assert |earlier + given[at]| == |earlier| + |given[at]|;
    assert IsServed(demand, work, given[at]);
    SizesInOrder(earlier + given[at], ClaimableBefore(inputs, demand));
  }

  lemma {:induction false} DoneIsNotLate(inputs: ProbeInputs, area: Area, work: map<Area, set<Instant>>,
                                         demands: seq<DeadlineDemand>, given: seq<set<Instant>>, count: nat)
    requires AskOneArea(inputs.reservations, demands, area) && NothingIsDiscounted(inputs, area)
    requires IsWork(inputs, work) && AreServed(demands, work, given) && AreDueInOrder(demands) && count <= |demands|
    ensures DeadlineShortfalls(inputs, demands[..count]) == []
  {
    hide IsWork, AreServed, AreDueInOrder, NothingIsDiscounted, ClaimsOf, Available, DeadlineShortfalls, Takes,
      ClaimableBefore;
    if count > 0 {
      var at := count - 1;
      DoneIsNotLate(inputs, area, work, demands, given, at);
      UnclaimedIsEnough(inputs, work, demands, given, at);
      AvailableToOne(inputs, area, demands[..at], demands[at]);
      OneMoreGap(inputs, demands[..at], demands[at]);
      assert demands[..at] + [demands[at]] == demands[..count];
    } else {
      NoDemands(inputs);
      assert demands[..0] == [];
    }
  }

  lemma {:induction false} DoneIsNotReported(inputs: ProbeInputs, area: Area, work: map<Area, set<Instant>>,
                                             given: seq<set<Instant>>)
    requires AskOneArea(inputs.reservations, inputs.demands, area) && NothingIsDiscounted(inputs, area)
    requires IsDone(inputs, work, given)
    ensures Shortfalls(inputs) == []
  {
    hide NothingIsDiscounted, IsWork, AreGiven, AreServed, MeetsFloor, IsMet, Free, FreeFor, EarliestFirst,
      DeadlineShortfalls, FloorShortfalls;
    ReservedIsWorked(inputs.reservations, work);
    GapAgainstTheWeek(inputs, work);
    ServedIsGiven(inputs.demands, work, given);
    EarliestComeFirst(inputs.demands);
    var again := ServedInOrder(inputs.demands, work, given);
    var demands := EarliestFirst(inputs.demands);
    forall i | 0 <= i < |demands| ensures demands[i].area == area {
      assert demands[i] in inputs.demands;
    }
    DoneIsNotLate(inputs, area, work, demands, again, |demands|);
    assert demands[..|demands|] == demands;
    ReachedByOne(inputs, area);
    forall i | 0 <= i < |inputs.reservations|
      ensures inputs.reservations[i].reserved <= Minutes(FreeFor(inputs, area))
    {
      WorkIsWithin(inputs, work, inputs.reservations[i]);
    }
  }

  lemma {:induction false} WorkIsWithin(inputs: ProbeInputs, work: map<Area, set<Instant>>,
                                        reservation: FloorReservation)
    requires IsWork(inputs, work) && MeetsFloor(reservation, work)
    ensures reservation.reserved <= Minutes(FreeFor(inputs, reservation.area))
  {
    hide FreeFor;
    SizesInOrder(WorkOf(work, reservation.area), FreeFor(inputs, reservation.area));
  }

  // ---- One Area: what is not reported can be done ----

  lemma {:induction false} DoneInOrder(inputs: ProbeInputs, area: Area) returns (given: seq<set<Instant>>)
    requires AskOneArea(inputs.reservations, inputs.demands, area) && NothingIsDiscounted(inputs, area)
    requires Shortfalls(inputs) == []
    ensures IsDone(inputs, map[area := FreeFor(inputs, area)], given)
  {
    hide NothingIsDiscounted, Free, FreeFor, WeekShortfalls, DeadlineShortfalls, FloorShortfalls, EarliestFirst, Owed,
      AreServed, AreGiven, IsMet, Before;
    var demands, free := EarliestFirst(inputs.demands), FreeFor(inputs, area);
    EarliestComeFirst(inputs.demands);
    forall i | 0 <= i < |demands|
      ensures demands[i].area == area
    {
      assert demands[i] in inputs.demands;
    }
    forall i | 0 <= i < |demands|
      ensures Owed(demands[..i + 1], area, false) * MINUTE <= |Before(free, demands[i].deadline)|
    {
      OwedFits(inputs, area, demands, i + 1);
    }
    var again, used := Allot(area, free, demands);
    given := ServedAsListed(inputs.demands, map[area := free], again);
    ServedIsGiven(inputs.demands, map[area := free], given);
    ReachedByOne(inputs, area);
  }

  // ---- One Area: where capacity is discounted ----

  /** Two demands that between them owe a minute more than the Area has. */
  function TwoDemands(inputs: ProbeInputs, area: Area): seq<DeadlineDemand> {
    [DeadlineDemand(inputs.span.end, Minutes(FreeFor(inputs, area)), area, ["one"]),
     DeadlineDemand(inputs.span.end, 1, area, ["other"])]
  }

  lemma {:induction false} TwoAreInOrder(inputs: ProbeInputs, area: Area)
    ensures EarliestFirst(TwoDemands(inputs, area)) == TwoDemands(inputs, area)
  {
    hide FreeFor, Minutes;
    var demands := TwoDemands(inputs, area);
    LessIsIrreflexive(area);
    assert Less("one", "other") && !Less("other", "one");
    assert demands[1..] == [demands[1]] && [demands[1]][1..] == [];
    assert EarliestFirst([demands[1]]) == [demands[1]];
  }

  lemma {:induction false} AllBeforeTheEnd(inputs: ProbeInputs, area: Area)
    ensures Before(Free(inputs), inputs.span.end) == Free(inputs)
    ensures Before(FreeFor(inputs, area), inputs.span.end) == FreeFor(inputs, area)
  {
    assert forall t :: t in Free(inputs) ==> t in Span(inputs.span);
  }

  /** Each of the two is told that the Area's capacity is its own, less what the discount does not make up for. */
  lemma {:induction false} TwoAreNotReported(inputs: ProbeInputs, area: Area)
    requires Minutes(FreeFor(inputs, area)) >= 1 && Minutes(Free(inputs) - FreeFor(inputs, area)) >= 1
    ensures Shortfalls(Asking(inputs, [], TwoDemands(inputs, area))) == []
  {
    hide Free, FreeFor, Minutes, Available, ClaimsOf, DeadlineShortfalls, Takes, Asking;
    var demands := TwoDemands(inputs, area);
    var week, one, other := Asking(inputs, [], demands), demands[0], demands[1];
    TwoAreInOrder(inputs, area);
    NoDemands(week);
    OneMoreGap(week, [], one);
    OneMoreGap(week, [one], other);
    OneMoreClaim(week, [], one);
    assert [] + [one] == [one] && [one] + [other] == demands;
    AvailableAtTheEnd(inputs, area, demands, [], one);
    AvailableAtTheEnd(inputs, area, demands, [one], other);
    assert week.reservations == [] && week.demands == demands by { AskedIsAsked(inputs, [], demands); }
  }

  lemma {:induction false} AskedIsAsked(inputs: ProbeInputs, reservations: seq<FloorReservation>,
                                        demands: seq<DeadlineDemand>)
    ensures Asking(inputs, reservations, demands).reservations == reservations
    ensures Asking(inputs, reservations, demands).demands == demands
  {
  }

  lemma {:induction false} AvailableAtTheEnd(inputs: ProbeInputs, area: Area, demands: seq<DeadlineDemand>,
                                             earlier: seq<DeadlineDemand>, demand: DeadlineDemand)
    requires demand.area == area && demand.deadline == inputs.span.end
    requires forall i :: 0 <= i < |earlier| ==> earlier[i].area == area
    ensures var week := Asking(inputs, [], demands);
            Available(week, demand, ClaimsOf(week, earlier)) ==
            NotNegative(Minutes(FreeFor(inputs, area))
                        - NotNegative(ClaimedBy(ClaimsOf(week, earlier), area)
                                      - Minutes(Free(inputs) - FreeFor(inputs, area))))
  {
    hide Free, FreeFor, Before, Minutes, ClaimsOf, CompetingAreas, ByArea, Asking;
    var week := Asking(inputs, [], demands);
    AskedIsAsked(inputs, [], demands);
    SameCapacity(inputs, [], demands, area);
    AllBeforeTheEnd(inputs, area);
    NobodyCompetes(week, area, earlier);
  }

  lemma {:induction false} TwoAreNeverDone(inputs: ProbeInputs, area: Area, work: map<Area, set<Instant>>,
                                           given: seq<set<Instant>>)
    ensures !IsDone(Asking(inputs, [], TwoDemands(inputs, area)), work, given)
  {
    hide FreeFor;
    var week := Asking(inputs, [], TwoDemands(inputs, area));
    if IsDone(week, work, given) {
      TwoTake(week, area, work, given);
      SameCapacity(inputs, [], week.demands, area);
    }
  }

  lemma {:induction false} TwoTake(week: ProbeInputs, area: Area, work: map<Area, set<Instant>>,
                                   given: seq<set<Instant>>)
    requires |week.demands| == 2 && week.demands[0].area == area && week.demands[1].area == area
    requires IsWork(week, work) && AreGiven(week.demands, work, given)
    ensures |given[0]| + |given[1]| <= |FreeFor(week, area)|
  {
    hide FreeFor;
    CutsArePart(WorkOf(work, area), week.demands[0].deadline);
    CutsArePart(WorkOf(work, area), week.demands[1].deadline);
    SizesInOrder(given[0] + given[1], FreeFor(week, area));
    assert |given[0] + given[1]| == |given[0]| + |given[1]|;
  }

  // ---- One Area ----

  /** The probe decides what is asked of one Area: whatever that is, it reports nothing exactly when it can be done. */
  ghost predicate Decides(inputs: ProbeInputs, area: Area) {
    forall reservations, demands :: AskOneArea(reservations, demands, area) ==>
      (Shortfalls(Asking(inputs, reservations, demands)) == [] <==> CanBeDone(Asking(inputs, reservations, demands)))
  }

  /** The calendars for which the probe decides every week of one Area are those that hold no whole minute the Area may
      use, or no whole minute it may not. */
  lemma {:induction false} OneAreaIsDecided(inputs: ProbeInputs, area: Area)
    ensures Decides(inputs, area) <==>
            Minutes(FreeFor(inputs, area)) == 0 || Minutes(Free(inputs) - FreeFor(inputs, area)) == 0
  {
    hide Shortfalls, IsDone, FreeFor, Free, Minutes, Asking, AskOneArea;
    if NothingIsDiscounted(inputs, area) {
      forall reservations, demands | AskOneArea(reservations, demands, area)
        ensures Shortfalls(Asking(inputs, reservations, demands)) == [] <==>
                CanBeDone(Asking(inputs, reservations, demands))
      {
        DecidedWeek(inputs, area, reservations, demands);
      }
    } else {
      var demands := TwoDemands(inputs, area);
      assert AskOneArea([], demands, area) by { TwoAskOneArea(inputs, area); }
      TwoAreNotReported(inputs, area);
      forall work, given ensures !IsDone(Asking(inputs, [], demands), work, given) {
        TwoAreNeverDone(inputs, area, work, given);
      }
    }
  }

  lemma {:induction false} TwoAskOneArea(inputs: ProbeInputs, area: Area)
    ensures AskOneArea([], TwoDemands(inputs, area), area)
  {
  }

  lemma {:induction false} DecidedWeek(inputs: ProbeInputs, area: Area, reservations: seq<FloorReservation>,
                                       demands: seq<DeadlineDemand>)
    requires AskOneArea(reservations, demands, area) && NothingIsDiscounted(inputs, area)
    ensures Shortfalls(Asking(inputs, reservations, demands)) == [] <==>
            CanBeDone(Asking(inputs, reservations, demands))
  {
    var week := Asking(inputs, reservations, demands);
    SameCapacity(inputs, reservations, demands, area);
    assert NothingIsDiscounted(week, area) && AskOneArea(week.reservations, week.demands, area);
    hide Shortfalls, IsDone, FreeFor, Free, Minutes, NothingIsDiscounted, AskOneArea;
    if work, given :| IsDone(week, work, given) {
      DoneIsNotReported(week, area, work, given);
    }
    if Shortfalls(week) == [] {
      var given := DoneInOrder(week, area);
    }
  }
}
