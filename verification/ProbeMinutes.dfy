// Which calendars can be counted in minutes without losing one, and two weeks the probe misreads.
module ProbeMinutes {
  import opened Wrappers
  import opened Text
  import opened Intervals
  import opened Probe
  import opened ProbeLaws
  import opened ProbeWeeks

  // ---- Whole minutes ----

  predicate IsOnTheMinute(t: Instant) {
    t % MINUTE == 0
  }

  predicate AreOnTheMinute(intervals: seq<Interval>) {
    forall i :: 0 <= i < |intervals| ==> IsOnTheMinute(intervals[i].start) && IsOnTheMinute(intervals[i].end)
  }

  /** Every instant the inputs name is a whole minute, except for now. */
  predicate NamesWholeMinutes(inputs: ProbeInputs) {
    && AreOnTheMinute([inputs.span]) && AreOnTheMinute(inputs.frame) && AreOnTheMinute(inputs.anchors)
    && AreOnTheMinute(inputs.absolute) && AreOnTheMinute(inputs.offPlan) && AreOnTheMinute(inputs.placed)
    && (forall i :: 0 <= i < |inputs.scoped| ==>
          IsOnTheMinute(inputs.scoped[i].interval.start) && IsOnTheMinute(inputs.scoped[i].interval.end))
    && forall i :: 0 <= i < |inputs.demands| ==> IsOnTheMinute(inputs.demands[i].deadline)
  }

  predicate SameMinute(t: Instant, u: Instant) {
    t / MINUTE == u / MINUTE
  }

  /** No minute is split. */
  ghost predicate IsWhole(instants: set<Instant>) {
    forall t, u :: t in instants && SameMinute(t, u) ==> u in instants
  }

  /** No minute is split, but for what of it is past. */
  ghost predicate IsWholeFrom(instants: set<Instant>, now: Instant) {
    && (forall t :: t in instants ==> now <= t)
    && forall t, u :: t in instants && SameMinute(t, u) && now <= u ==> u in instants
  }

  lemma {:induction false} BoundsOnTheMinute(bound: Instant, t: Instant, u: Instant)
    requires IsOnTheMinute(bound) && SameMinute(t, u)
    ensures bound <= t <==> bound <= u
  {
  }

  lemma {:induction false} PointsAreWhole(intervals: seq<Interval>)
    requires AreOnTheMinute(intervals)
    ensures IsWhole(Points(intervals))
  {
    hide SameMinute, IsOnTheMinute;
    forall t, u | t in Points(intervals) && SameMinute(t, u) ensures u in Points(intervals) {
      CoveredBy(intervals, t);
      CoveredBy(intervals, u);
      var i :| 0 <= i < |intervals| && t in Span(intervals[i]);
      BoundsOnTheMinute(intervals[i].start, t, u);
      BoundsOnTheMinute(intervals[i].end, t, u);
      assert u in Span(intervals[i]);
    }
  }

  lemma {:induction false} SameMinuteIsMutual(t: Instant, u: Instant)
    ensures SameMinute(t, u) <==> SameMinute(u, t)
  {
  }

  lemma {:induction false} WholeLeftIsWhole(one: set<Instant>, other: set<Instant>, now: Instant)
    requires IsWhole(other)
    ensures IsWhole(one) ==> IsWhole(one - other)
    ensures IsWholeFrom(one, now) ==> IsWholeFrom(one - other, now)
  {
    hide SameMinute;
    forall t, u | SameMinute(t, u) ensures SameMinute(u, t) {
      SameMinuteIsMutual(t, u);
    }
  }

  lemma {:induction false} WholeBefore(instants: set<Instant>, now: Instant, moment: Instant)
    requires IsWholeFrom(instants, now) && IsOnTheMinute(moment)
    ensures IsWholeFrom(Before(instants, moment), now) && IsWholeFrom(From(instants, moment), now)
  {
    hide SameMinute, IsOnTheMinute;
    forall t, u | SameMinute(t, u) ensures moment <= t <==> moment <= u {
      BoundsOnTheMinute(moment, t, u);
    }
  }

  lemma {:induction false} FreeIsWhole(inputs: ProbeInputs)
    requires NamesWholeMinutes(inputs) && IsInputs(inputs)
    ensures IsWholeFrom(Free(inputs), inputs.now)
  {
    hide SameMinute, IsOnTheMinute, AreOnTheMinute, IsWhole;
    JustTheSpan(inputs.span);
    PointsAreWhole([inputs.span]);
    PointsAreWhole(inputs.frame);
    PointsAreWhole(inputs.anchors);
    PointsAreWhole(inputs.absolute);
    PointsAreWhole(inputs.offPlan);
    PointsAreWhole(inputs.placed);
    var left := Span(inputs.span) - Points(inputs.frame) - Points(inputs.anchors) - Points(inputs.absolute)
                - Points(inputs.offPlan);
    WholeLeftIsWhole(Span(inputs.span), Points(inputs.frame), 0);
    WholeLeftIsWhole(Span(inputs.span) - Points(inputs.frame), Points(inputs.anchors), 0);
    WholeLeftIsWhole(Span(inputs.span) - Points(inputs.frame) - Points(inputs.anchors), Points(inputs.absolute), 0);
    WholeLeftIsWhole(Span(inputs.span) - Points(inputs.frame) - Points(inputs.anchors) - Points(inputs.absolute),
                     Points(inputs.offPlan), 0);
    assert left == Discretionary(inputs);
    WholeFromNow(left, inputs.now);
    WholeLeftIsWhole(From(left, inputs.now), Points(inputs.placed), inputs.now);
  }

  lemma {:induction false} WholeFromNow(instants: set<Instant>, now: Instant)
    requires IsWhole(instants)
    ensures IsWholeFrom(From(instants, now), now)
  {
    hide SameMinute;
  }

  lemma {:induction false} ScopedAreOnTheMinute(scoped: seq<ScopedWindow>, area: Area)
    requires forall i :: 0 <= i < |scoped| ==>
               IsOnTheMinute(scoped[i].interval.start) && IsOnTheMinute(scoped[i].interval.end)
    ensures AreOnTheMinute(ScopedAgainst(scoped, area))
  {
    hide IsOnTheMinute;
    if scoped != [] {
      ScopedAreOnTheMinute(scoped[..|scoped| - 1], area);
    }
  }

  lemma {:induction false} FreeForIsWhole(inputs: ProbeInputs, area: Area)
    requires NamesWholeMinutes(inputs) && IsInputs(inputs)
    ensures IsWholeFrom(FreeFor(inputs, area), inputs.now)
    ensures IsWholeFrom(Free(inputs) - FreeFor(inputs, area), inputs.now)
  {
    hide SameMinute, IsOnTheMinute, AreOnTheMinute;
    FreeIsWhole(inputs);
    ScopedAreOnTheMinute(inputs.scoped, area);
    PointsAreWhole(ScopedAgainst(inputs.scoped, area));
    WholeLeftIsWhole(Free(inputs), Points(ScopedAgainst(inputs.scoped, area)), inputs.now);
    forall t, u | SameMinute(t, u) ensures SameMinute(u, t) {
      SameMinuteIsMutual(t, u);
    }
  }

  function MinuteOf(t: Instant): Interval {
    Interval(t / MINUTE * MINUTE, t / MINUTE * MINUTE + MINUTE)
  }

  /** Only a set that now itself is in can hold part of a minute. */
  lemma {:induction false} WholeMinutesCount(instants: set<Instant>, now: Instant)
    requires IsWholeFrom(instants, now) && now !in instants
    ensures |instants| % MINUTE == 0
    decreases |instants|
  {
    hide IsWholeFrom, MinuteOf, Span;
    if instants != {} {
      var t := AnyOf(instants);
      MinuteIsWithin(instants, now, t);
      LeftIsWhole(instants, now, t);
      var rest := instants - Span(MinuteOf(t));
      SizesInOrder(Span(MinuteOf(t)), instants);
      WholeMinutesCount(rest, now);
      assert |rest| == |instants| - MINUTE;
    }
  }

  lemma {:induction false} MinuteIsWithin(instants: set<Instant>, now: Instant, t: Instant)
    requires IsWholeFrom(instants, now) && now !in instants && t in instants
    ensures Span(MinuteOf(t)) <= instants && |Span(MinuteOf(t))| == MINUTE
  {
    hide SameMinute, MinuteOf, Span;
    forall u | u in Span(MinuteOf(t)) ensures u in instants {
      MinuteHolds(t, u);
      if u < now {
        MinuteHolds(t, now);
        NowIsBetween(t, u, now);
      }
    }
    MinuteIsLong(t);
  }

  lemma {:induction false} NowIsBetween(t: Instant, u: Instant, now: Instant)
    requires SameMinute(t, u) && u < now <= t
    ensures SameMinute(t, now)
  {
  }

  lemma {:induction false} MinuteIsLong(t: Instant)
    ensures |Span(MinuteOf(t))| == MINUTE
  {
    SpanSize(MinuteOf(t));
  }

  lemma {:induction false} MinuteHolds(t: Instant, u: Instant)
    ensures u in Span(MinuteOf(t)) <==> SameMinute(t, u)
  {
  }

  lemma {:induction false} LeftIsWhole(instants: set<Instant>, now: Instant, t: Instant)
    requires IsWholeFrom(instants, now)
    ensures IsWholeFrom(instants - Span(MinuteOf(t)), now)
  {
    hide MinuteOf, Span;
    var rest := instants - Span(MinuteOf(t));
    forall v, u | v in rest && SameMinute(v, u) && now <= u ensures u in rest {
      MinuteHolds(t, v);
      MinuteHolds(t, u);
    }
  }

  /** Of three pieces apart, one at most holds part of a minute, so together they have less than one left over. */
  lemma {:induction false} LeftoversOfThree(one: set<Instant>, two: set<Instant>, three: set<Instant>, now: Instant)
    requires IsWholeFrom(one, now) && IsWholeFrom(two, now) && IsWholeFrom(three, now)
    requires one !! two && one !! three && two !! three
    ensures Leftover(one) + Leftover(two) + Leftover(three) < MINUTE
  {
    hide IsWholeFrom;
    if now !in one {
      WholeMinutesCount(one, now);
    }
    if now !in two {
      WholeMinutesCount(two, now);
    }
    if now !in three {
      WholeMinutesCount(three, now);
    }
  }

  /** Where every instant named is a whole minute but now, no minute is lost. */
  lemma {:induction false} WholeMinutesAreKept(inputs: ProbeInputs)
    requires IsInputs(inputs) && NamesWholeMinutes(inputs)
    ensures LosesNoMinute(inputs)
    ensures forall area :: LostOf(inputs, area) == 0
    ensures forall area, deadline :: IsOnTheMinute(deadline) ==> LostBefore(inputs, area, deadline) == 0
  {
    hide IsInputs, IsOnTheMinute, LostOf, LostBefore, FreeFor, Free, Before, Minutes;
    forall area ensures LostOf(inputs, area) == 0 {
      NoneLost(inputs, area);
    }
    forall area, deadline | IsOnTheMinute(deadline) ensures LostBefore(inputs, area, deadline) == 0 {
      NoneLostBefore(inputs, area, deadline);
    }
  }

  lemma {:induction false} NoneLost(inputs: ProbeInputs, area: Area)
    requires IsInputs(inputs) && NamesWholeMinutes(inputs)
    ensures LostOf(inputs, area) == 0
  {
    hide IsInputs, NamesWholeMinutes, IsWholeFrom, FreeFor, Free;
    FreeForIsWhole(inputs, area);
    NothingIsWhole(inputs.now);
    LeftoversOfThree(FreeFor(inputs, area), Free(inputs) - FreeFor(inputs, area), {}, inputs.now);
  }

  lemma {:induction false} NothingIsWhole(now: Instant)
    ensures IsWholeFrom({}, now)
  {
  }

  lemma {:induction false} NoneLostBefore(inputs: ProbeInputs, area: Area, deadline: Instant)
    requires IsInputs(inputs) && NamesWholeMinutes(inputs) && IsOnTheMinute(deadline)
    ensures LostBefore(inputs, area, deadline) == 0
  {
    hide IsInputs, NamesWholeMinutes, IsWholeFrom, IsOnTheMinute, Free;
    var free, own := Free(inputs), FreeFor(inputs, area);
    FreeIsWhole(inputs);
    FreeForIsWhole(inputs, area);
    WholeBefore(free, inputs.now, deadline);
    WholeBefore(own, inputs.now, deadline);
    WholeBefore(free - own, inputs.now, deadline);
    assert Before(free, deadline) - Before(own, deadline) == Before(free - own, deadline);
    LeftoversOfThree(Before(own, deadline), Before(free, deadline) - Before(own, deadline), From(free, deadline),
                     inputs.now);
  }

  // ---- An Area that no window names ----

  function Longer(one: nat, other: nat): nat {
    if one < other then other else one
  }

  function LongestOf(areas: seq<Area>): nat {
    if areas == [] then 0 else Longer(LongestOf(areas[..|areas| - 1]), |areas[|areas| - 1]|)
  }

  function LongestNamed(scoped: seq<ScopedWindow>): nat {
    if scoped == [] then 0
    else Longer(LongestNamed(scoped[..|scoped| - 1]), LongestOf(scoped[|scoped| - 1].forbidden))
  }

  lemma {:induction false} LongestIsLongest(areas: seq<Area>, area: Area)
    requires area in areas
    ensures |area| <= LongestOf(areas)
  {
    if area != areas[|areas| - 1] {
      LongestIsLongest(areas[..|areas| - 1], area);
    }
  }

  lemma {:induction false} NotNamed(scoped: seq<ScopedWindow>, area: Area)
    requires |area| > LongestNamed(scoped)
    ensures ScopedAgainst(scoped, area) == []
  {
    if scoped != [] {
      NotNamed(scoped[..|scoped| - 1], area);
      if area in scoped[|scoped| - 1].forbidden {
        LongestIsLongest(scoped[|scoped| - 1].forbidden, area);
      }
    }
  }

  function Name(length: nat): Area {
    if length == 0 then "" else Name(length - 1) + "x"
  }

  lemma {:induction false} NameIsLong(length: nat)
    ensures |Name(length)| == length
  {
    if length > 0 {
      NameIsLong(length - 1);
    }
  }

  /** There is always another Area, which may use all that is free. */
  lemma {:induction false} AnotherArea(inputs: ProbeInputs, area: Area) returns (other: Area)
    ensures other != area && FreeFor(inputs, other) == Free(inputs)
  {
    hide Free;
    other := Name(Longer(LongestNamed(inputs.scoped), |area|) + 1);
    NameIsLong(Longer(LongestNamed(inputs.scoped), |area|) + 1);
    NotNamed(inputs.scoped, other);
  }

  // ---- The check of an Area's floor ----

  ghost predicate NoFloorGap(week: ProbeInputs, area: Area) {
    forall i :: 0 <= i < |week.reservations| && week.reservations[i].area == area ==>
      FloorShortfall(week, week.reservations[i]) == []
  }

  /** Whatever floors and demands are asked of the calendar, no gap is found against this Area's floor when they can be
      met. */
  ghost predicate FloorCheckIsTrue(inputs: ProbeInputs, area: Area) {
    forall reservations, demands :: CanBeDone(Asking(inputs, reservations, demands)) ==>
      NoFloorGap(Asking(inputs, reservations, demands), area)
  }

  /** The check of an Area's floor never over-reports exactly when counting the Area's capacity apart from the rest
      loses no minute, or the Area has no minute. */
  lemma {:induction false} FloorCheckIsTrueExactly(inputs: ProbeInputs, area: Area)
    ensures FloorCheckIsTrue(inputs, area) <==>
            Minutes(FreeFor(inputs, area)) == 0
            || Leftover(FreeFor(inputs, area)) + Leftover(Free(inputs) - FreeFor(inputs, area)) < MINUTE
  {
    hide Free, FreeFor, Asking, IsDone, NoFloorGap;
    if KeepsMinutes(inputs, area) {
      forall reservations, demands | CanBeDone(Asking(inputs, reservations, demands))
        ensures NoFloorGap(Asking(inputs, reservations, demands), area)
      {
        FloorCheckIsSound(inputs, reservations, demands, area);
      }
    } else {
      var other := AnotherArea(inputs, area);
      FloorIsMisread(inputs, area, other);
    }
  }

  lemma {:induction false} FloorCheckIsSound(inputs: ProbeInputs, reservations: seq<FloorReservation>,
                                             demands: seq<DeadlineDemand>, area: Area)
    requires CanBeDone(Asking(inputs, reservations, demands)) && KeepsMinutes(inputs, area)
    ensures NoFloorGap(Asking(inputs, reservations, demands), area)
  {
    var week := Asking(inputs, reservations, demands);
    SameCapacity(inputs, reservations, demands, area);
    assert KeepsMinutes(week, area);
    hide Free, FreeFor, IsWork, AreGiven, IsMet, MeetsFloor, FloorShortfall, KeepsMinutes;
    var work, given :| IsDone(week, work, given);
    ServedIsGiven(week.demands, work, given);
    forall i | 0 <= i < |week.reservations| && week.reservations[i].area == area
      ensures FloorShortfall(week, week.reservations[i]) == []
    {
      NoGapWhenReached(week, work, given, week.reservations[i]);
    }
  }

  /** A minute for the Area, and for another all the minutes that the two pieces have in one. */
  function OneMoreThanCounted(inputs: ProbeInputs, area: Area, other: Area): seq<DeadlineDemand> {
    var minutes := Minutes(FreeFor(inputs, area)) + Minutes(Free(inputs) - FreeFor(inputs, area));
    [DeadlineDemand(inputs.span.end, minutes, other, ["task"])]
  }

  lemma {:induction false} FloorIsMisread(inputs: ProbeInputs, area: Area, other: Area)
    requires !KeepsMinutes(inputs, area) && other != area && FreeFor(inputs, other) == Free(inputs)
    ensures var reservation := FloorReservation(area, 1, "");
            var week := Asking(inputs, [reservation], OneMoreThanCounted(inputs, area, other));
            CanBeDone(week) && !NoFloorGap(week, area)
  {
    hide Free, FreeFor;
    var reservation, demands := FloorReservation(area, 1, ""), OneMoreThanCounted(inputs, area, other);
    var week := Asking(inputs, [reservation], demands);
    SameCapacity(inputs, [reservation], demands, area);
    SameCapacity(inputs, [reservation], demands, other);
    assert demands[..0] == [];
    assert DemandedElsewhere(demands, area) == demands[0].remaining;
    assert Reachable(week, area) == 0;
    assert week.reservations[0] == reservation && FloorShortfall(week, reservation) != [];
    AllBeforeTheEnd(inputs, other);
    OwnIsPart(inputs, area);
    var own, free := FreeFor(inputs, area), Free(inputs);
    var mine := InitialOfSize(own, MINUTE);
    SizesInOrder(own, free);
    SizesInOrder(mine, free);
    var rest := free - mine;
    assert Before(rest, inputs.span.end) == rest;
    IsDoneByTwo(week, area, other, mine, rest);
  }

  lemma {:induction false} OwnIsPart(inputs: ProbeInputs, area: Area)
    ensures FreeFor(inputs, area) <= Free(inputs)
  {
  }

  lemma {:induction false} IsDoneByTwo(week: ProbeInputs, area: Area, other: Area, mine: set<Instant>,
                                       rest: set<Instant>)
    requires area != other && mine !! rest && mine <= FreeFor(week, area) && rest <= FreeFor(week, other)
    requires week.reservations == [FloorReservation(area, 1, "")] && MINUTE <= |mine|
    requires |week.demands| == 1 && week.demands[0].area == other && Before(rest, week.demands[0].deadline) == rest
    requires week.demands[0].remaining * MINUTE <= |rest|
    ensures CanBeDone(week)
  {
    hide FreeFor, Before;
    assert IsDone(week, map[area := mine, other := rest], [rest]);
  }

  // ---- The check of a demand against its deadline ----

  /** The gaps found against the demands of an Area due at an instant, in the order the demands are taken. */
  ghost predicate NoGapAt(week: ProbeInputs, area: Area, deadline: Instant) {
    var demands := EarliestFirst(week.demands);
    forall at :: 0 <= at < |demands| && demands[at].area == area && demands[at].deadline == deadline ==>
      DeadlineShortfall(week, demands[at], ClaimsOf(week, demands[..at])) == []
  }

  ghost predicate DeadlineCheckIsTrue(inputs: ProbeInputs, area: Area, deadline: Instant) {
    forall reservations, demands :: CanBeDone(Asking(inputs, reservations, demands)) ==>
      NoGapAt(Asking(inputs, reservations, demands), area, deadline)
  }

  /** The check of an Area's demands due at an instant never over-reports exactly when counting apart the Area's
      capacity before it, the others' before it and what is free after it loses no minute, or the Area has no minute
      before it. */
  lemma {:induction false} DeadlineCheckIsTrueExactly(inputs: ProbeInputs, area: Area, deadline: Instant)
    ensures var own, free := Before(FreeFor(inputs, area), deadline), Before(Free(inputs), deadline);
            DeadlineCheckIsTrue(inputs, area, deadline) <==>
            Minutes(own) == 0
            || Leftover(own) + Leftover(free - own) + Leftover(From(Free(inputs), deadline)) < MINUTE
  {
    hide Free, FreeFor, Asking, IsDone, NoGapAt, Before, From;
    if KeepsMinutesBefore(inputs, area, deadline) {
      forall reservations, demands | CanBeDone(Asking(inputs, reservations, demands))
        ensures NoGapAt(Asking(inputs, reservations, demands), area, deadline)
      {
        DeadlineCheckIsSound(inputs, reservations, demands, area, deadline);
      }
    } else {
      var other := AnotherArea(inputs, area);
      DemandIsMisread(inputs, area, other, deadline);
    }
  }

  lemma {:induction false} DeadlineCheckIsSound(inputs: ProbeInputs, reservations: seq<FloorReservation>,
                                                demands: seq<DeadlineDemand>, area: Area, deadline: Instant)
    requires CanBeDone(Asking(inputs, reservations, demands)) && KeepsMinutesBefore(inputs, area, deadline)
    ensures NoGapAt(Asking(inputs, reservations, demands), area, deadline)
  {
    var week := Asking(inputs, reservations, demands);
    SameCapacity(inputs, reservations, demands, area);
    assert KeepsMinutesBefore(week, area, deadline) && week.demands == demands && week.reservations == reservations;
    hide Free, FreeFor, IsWork, AreGiven, IsMet, DeadlineShortfall, KeepsMinutesBefore, ClaimsOf, EarliestFirst;
    var work, given :| IsDone(week, work, given);
    ServedIsGiven(week.demands, work, given);
    EarliestComeFirst(week.demands);
    var again := ServedInOrder(week.demands, work, given);
    var sorted := EarliestFirst(week.demands);
    forall at | 0 <= at < |sorted| && sorted[at].area == area && sorted[at].deadline == deadline
      ensures DeadlineShortfall(week, sorted[at], ClaimsOf(week, sorted[..at])) == []
    {
      NoGapWhenMet(week, work, sorted, again, at);
    }
  }

  /** A floor for another Area of all the minutes that the three pieces have but one, beside a demand for a minute. */
  function FloorOfTheRest(inputs: ProbeInputs, area: Area, other: Area, deadline: Instant): FloorReservation {
    var own := Before(FreeFor(inputs, area), deadline);
    FloorReservation(other, Minutes(own) + Minutes(Before(Free(inputs), deadline) - own)
                            + Minutes(From(Free(inputs), deadline)), "")
  }

  lemma {:induction false} DemandIsMisread(inputs: ProbeInputs, area: Area, other: Area, deadline: Instant)
    requires !KeepsMinutesBefore(inputs, area, deadline) && other != area && FreeFor(inputs, other) == Free(inputs)
    ensures var week := Asking(inputs, [FloorOfTheRest(inputs, area, other, deadline)],
                               [DeadlineDemand(deadline, 1, area, ["task"])]);
            CanBeDone(week) && !NoGapAt(week, area, deadline)
  {
    var reservation := FloorOfTheRest(inputs, area, other, deadline);
    var demand := DeadlineDemand(deadline, 1, area, ["task"]);
    var week := Asking(inputs, [reservation], [demand]);
    SameCapacity(inputs, [reservation], [demand], area);
    SameCapacity(inputs, [reservation], [demand], other);
    OwnIsPart(inputs, area);
    hide Free, FreeFor;
    AvailableBesideTheRest(week, area, other, demand);
    assert EarliestFirst([demand]) == [demand] by { assert [demand][1..] == []; }
    assert [demand][..0] == [];
    assert DeadlineShortfall(week, demand, ClaimsOf(week, [])) != [];
    RestIsDone(week, area, other, demand);
  }

  /** All of the demand's Area is taken by what of the other's floor the probe takes to come early. */
  lemma {:induction false} AvailableBesideTheRest(week: ProbeInputs, area: Area, other: Area, demand: DeadlineDemand)
    requires area != other && demand.area == area
    requires week.reservations == [FloorOfTheRest(week, area, other, demand.deadline)]
    requires Minutes(ClaimableBefore(week, demand)) >= 1
    ensures Available(week, demand, ClaimsOf(week, [])) == 0
  {
    hide Free, FreeFor, Before, From, Minutes, ByArea, ClaimsOf, CompetingAreas;
    var reservation, later := week.reservations[0], Later(week, demand.deadline);
    assert reservation.reserved == Minutes(ClaimableBefore(week, demand)) + later
             + Minutes(Before(Free(week), demand.deadline) - ClaimableBefore(week, demand));
    NoDemands(week);
    OneCompetes(reservation, area);
    OneContests(reservation, later);
  }

  lemma {:induction false} OneCompetes(reservation: FloorReservation, area: Area)
    requires reservation.area != area && reservation.reserved > 0
    ensures CompetingAreas(ByArea([reservation]), Dict(map[], []), area) == [reservation.area]
  {
    OneIsReserved(reservation);
    OthersOfOne(reservation.area, area);
    NoOthers([], area, ByArea([reservation]).values.Keys);
  }

  lemma {:induction false} OneIsReserved(reservation: FloorReservation)
    requires reservation.reserved > 0
    ensures var reserved := ByArea([reservation]);
            && reserved.order == [reservation.area] && reservation.area in reserved.values
            && reserved.values[reservation.area] == reservation
  {
    assert [reservation][..0] == [];
  }

  lemma {:induction false} OneContests(reservation: FloorReservation, later: nat)
    requires reservation.reserved > 0
    ensures Contested(ByArea([reservation]), Dict(map[], []), later, [reservation.area]) ==
            NotNegative(reservation.reserved - later)
  {
    hide ByArea;
    OneIsReserved(reservation);
    assert [reservation.area][..0] == [];
  }

  lemma {:induction false} OthersOfOne(other: Area, area: Area)
    requires other != area
    ensures Others([other], area, {}) == [other]
  {
    assert [other][..0] == [];
  }

  lemma {:induction false} RestIsDone(week: ProbeInputs, area: Area, other: Area, demand: DeadlineDemand)
    requires area != other && demand.area == area && demand.remaining == 1 && week.demands == [demand]
    requires FreeFor(week, other) == Free(week) && FreeFor(week, area) <= Free(week)
    requires week.reservations == [FloorOfTheRest(week, area, other, demand.deadline)]
    requires !KeepsMinutesBefore(week, area, demand.deadline)
    ensures CanBeDone(week)
  {
    hide Free, FreeFor;
    var own, free := ClaimableBefore(week, demand), Before(Free(week), demand.deadline);
    var mine := InitialOfSize(own, MINUTE);
    var rest := Free(week) - mine;
    WorkIsCut(Free(week), demand.deadline);
    SizesInOrder(own, free);
    SizesInOrder(mine, Free(week));
    assert week.reservations[0].reserved * MINUTE <= |rest|;
    var work := map[area := mine, other := rest];
    assert Before(mine, demand.deadline) == mine;
    RestIsWork(week, area, other, demand, mine, rest);
  }

  lemma {:induction false} RestIsWork(week: ProbeInputs, area: Area, other: Area, demand: DeadlineDemand,
                                      mine: set<Instant>, rest: set<Instant>)
    requires area != other && demand.area == area && demand.remaining == 1 && week.demands == [demand]
    requires mine !! rest && mine <= FreeFor(week, area) && rest <= FreeFor(week, other)
    requires |week.reservations| == 1 && week.reservations[0].area == other
    requires week.reservations[0].reserved * MINUTE <= |rest|
    requires MINUTE <= |mine| && Before(mine, demand.deadline) == mine
    ensures CanBeDone(week)
  {
    hide FreeFor, Before;
    assert IsDone(week, map[area := mine, other := rest], [mine]);
  }

  // ---- Weeks the probe misreads ----

  /** A week with nothing in it but what is asked and the windows some Areas may not use. */
  function EmptyWeek(length: Instant, scoped: seq<ScopedWindow>, reservations: seq<FloorReservation>,
                     demands: seq<DeadlineDemand>): ProbeInputs
  {
    ProbeInputs(Interval(0, length), 0, [], [], [], scoped, [], [], reservations, demands)
  }

  lemma {:induction false} EmptyWeekIsFree(length: Instant, scoped: seq<ScopedWindow>,
                                           reservations: seq<FloorReservation>, demands: seq<DeadlineDemand>)
    ensures Free(EmptyWeek(length, scoped, reservations, demands)) == Span(Interval(0, length))
  {
    assert Points([]) == {};
  }

  /** The minute and a half, of three, that an Area may not use. */
  const SPLIT := EmptyWeek(
    3 * MINUTE, [ScopedWindow(Interval(0, MINUTE + MINUTE / 2), ["a"])],
    [FloorReservation("a", 1, "A")], [DeadlineDemand(3 * MINUTE, 2, "b", ["task"])])

  /** Where a window ends within a minute, each side of it loses that minute, and the probe reports a gap in a week that
      can be done. */
  lemma {:induction false} SplitMinuteIsMisread()
    ensures IsInputs(SPLIT) && HaveOneFloor(SPLIT.reservations)
    ensures Shortfalls(SPLIT) != []
    ensures exists work, given :: IsDone(SPLIT, work, given)
  {
    hide Shortfalls, IsDone;
    SplitIsDone();
    SplitIsReported();
  }

  lemma {:induction false} SplitCapacity()
    ensures Free(SPLIT) == Span(Interval(0, 3 * MINUTE))
    ensures FreeFor(SPLIT, "a") == Span(Interval(MINUTE + MINUTE / 2, 3 * MINUTE))
    ensures FreeFor(SPLIT, "b") == Free(SPLIT)
  {
    hide Free;
    EmptyWeekIsFree(3 * MINUTE, SPLIT.scoped, SPLIT.reservations, SPLIT.demands);
    var window := SPLIT.scoped[0].interval;
    JustTheSpan(window);
    assert SPLIT.scoped[..0] == [];
    assert ScopedAgainst(SPLIT.scoped, "a") == [window];
    assert ScopedAgainst(SPLIT.scoped, "b") == [];
  }

  lemma {:induction false} SplitIsReported()
    ensures Shortfalls(SPLIT) != []
  {
    hide Free, FreeFor, WeekShortfalls, DeadlineShortfalls;
    SplitCapacity();
    var claimable := FreeFor(SPLIT, "a");
    SpanSize(Interval(MINUTE + MINUTE / 2, 3 * MINUTE));
    SpanSize(Interval(0, MINUTE + MINUTE / 2));
    assert Free(SPLIT) - claimable == Span(Interval(0, MINUTE + MINUTE / 2));
    assert SPLIT.demands[..0] == [] && SPLIT.reservations[..0] == [];
    assert DemandedElsewhere(SPLIT.demands, "a") == 2;
    assert Reachable(SPLIT, "a") == 0;
    assert FloorShortfalls(SPLIT, SPLIT.reservations) != [];
  }

  lemma {:induction false} SplitIsDone()
    ensures exists work, given :: IsDone(SPLIT, work, given)
  {
    hide Free, FreeFor;
    SplitCapacity();
    var mine := Span(Interval(MINUTE + MINUTE / 2, 2 * MINUTE + MINUTE / 2));
    var early, late := Span(Interval(0, MINUTE + MINUTE / 2)), Span(Interval(2 * MINUTE + MINUTE / 2, 3 * MINUTE));
    SpanSize(Interval(MINUTE + MINUTE / 2, 2 * MINUTE + MINUTE / 2));
    SpanSize(Interval(0, MINUTE + MINUTE / 2));
    SpanSize(Interval(2 * MINUTE + MINUTE / 2, 3 * MINUTE));
    assert |early + late| == |early| + |late|;
    var work := map["a" := mine, "b" := early + late];
    assert IsWork(SPLIT, work);
    assert IsDone(SPLIT, work, [early + late]);
  }

  /** Two deadlines of one Area, two hours of work for each, and two hours that the Area may use of four. */
  const SHARED := EmptyWeek(
    240 * MINUTE, [ScopedWindow(Interval(120 * MINUTE, 240 * MINUTE), ["a"])], [],
    [DeadlineDemand(240 * MINUTE, 120, "a", ["one"]), DeadlineDemand(300 * MINUTE, 120, "a", ["other"])])

  /** The capacity that an Area may not use is taken off its own earlier demands as well as the other Areas' work, so
      each of these two is told that the two hours are its own. */
  lemma {:induction false} SharedCapacityIsMisread()
    ensures IsInputs(SHARED) && NamesWholeMinutes(SHARED) && HaveOneFloor(SHARED.reservations)
    ensures Shortfalls(SHARED) == []
    ensures !exists work, given :: IsDone(SHARED, work, given)
  {
    hide Shortfalls, IsDone;
    SharedIsNotReported();
    forall work, given ensures !IsDone(SHARED, work, given) {
      SharedIsNeverDone(work, given);
    }
  }

  lemma {:induction false} SharedCapacity()
    ensures Free(SHARED) == Span(Interval(0, 240 * MINUTE))
    ensures FreeFor(SHARED, "a") == Span(Interval(0, 120 * MINUTE))
    ensures |FreeFor(SHARED, "a")| == 120 * MINUTE && |Free(SHARED) - FreeFor(SHARED, "a")| == 120 * MINUTE
    ensures Before(Free(SHARED), 240 * MINUTE) == Free(SHARED) && Before(Free(SHARED), 300 * MINUTE) == Free(SHARED)
  {
    hide Free;
    EmptyWeekIsFree(240 * MINUTE, SHARED.scoped, SHARED.reservations, SHARED.demands);
    var window := SHARED.scoped[0].interval;
    JustTheSpan(window);
    assert SHARED.scoped[..0] == [];
    assert ScopedAgainst(SHARED.scoped, "a") == [window];
    SpanSize(Interval(0, 120 * MINUTE));
    SpanSize(window);
    assert Free(SHARED) - FreeFor(SHARED, "a") == Span(window);
  }

  lemma {:induction false} SharedTakes(work: map<Area, set<Instant>>, given: seq<set<Instant>>)
    requires IsWork(SHARED, work) && AreGiven(SHARED.demands, work, given)
    ensures |given[0]| + |given[1]| <= |FreeFor(SHARED, "a")|
  {
    hide Free, FreeFor, Before;
    BeforeIsPart(WorkOf(work, "a"));
    SizesInOrder(given[0] + given[1], FreeFor(SHARED, "a"));
    assert |given[0] + given[1]| == |given[0]| + |given[1]|;
  }

  lemma {:induction false} SharedIsNeverDone(work: map<Area, set<Instant>>, given: seq<set<Instant>>)
    ensures !IsDone(SHARED, work, given)
  {
    hide Free, FreeFor, Before;
    if IsDone(SHARED, work, given) {
      SharedTakes(work, given);
      SharedCapacity();
    }
  }

  lemma {:induction false} BeforeIsPart(instants: set<Instant>)
    ensures forall moment :: Before(instants, moment) <= instants
  {
  }

  lemma {:induction false} SharedIsNotReported()
    ensures Shortfalls(SHARED) == []
  {
    hide Free, FreeFor, DeadlineShortfalls, ClaimsOf, Available, Before, Minutes;
    var one, other := SHARED.demands[0], SHARED.demands[1];
    assert SHARED.demands[1..] == [other] && [other][1..] == [];
    assert EarliestFirst([other]) == [other];
    assert EarliestFirst(SHARED.demands) == [one, other];
    NoDemands(SHARED);
    OneMoreGap(SHARED, [], one);
    OneMoreGap(SHARED, [one], other);
    OneMoreClaim(SHARED, [], one);
    assert [] + [one] == [one] && [one] + [other] == [one, other];
    AvailableToShared(Dict(map[], []), one);
    AvailableToShared(ClaimsOf(SHARED, [one]), other);
  }

  lemma {:induction false} AvailableToShared(claimed: Dict<nat>, demand: DeadlineDemand)
    requires demand in SHARED.demands && ClaimedBy(claimed, "a") <= 120
    requires forall area :: area in claimed.order ==> area == "a"
    ensures Available(SHARED, demand, claimed) == 120
  {
    hide Free, FreeFor;
    SharedCapacity();
    NoOthers(claimed.order, "a", ByArea(SHARED.reservations).values.Keys);
    assert ByArea(SHARED.reservations) == Dict(map[], []);
    assert AreasAgainst(SHARED, demand, claimed) == [];
    var claimable := ClaimableBefore(SHARED, demand);
    assert claimable == FreeFor(SHARED, "a");
  }
}
