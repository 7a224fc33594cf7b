// packages/syncr-domain/src/syncr_domain/feasibility/probe.py: the gaps that capacity arithmetic finds in a week.
// What a shortfall says of the constraints it honored, which no check reads, is not part of this model.
module Probe {
  import opened Wrappers
  import opened Text
  import opened Intervals

  type Area = string

  datatype ScopedWindow = ScopedWindow(interval: Interval, forbidden: seq<Area>)

  datatype FloorReservation = FloorReservation(area: Area, reserved: nat, name: string)

  datatype DeadlineDemand = DeadlineDemand(deadline: Instant, remaining: nat, area: Area, labels: seq<string>)

  datatype ProbeInputs = ProbeInputs(
    span: Interval,
    now: Instant,
    frame: seq<Interval>,
    anchors: seq<Interval>,
    absolute: seq<Interval>,
    scoped: seq<ScopedWindow>,
    offPlan: seq<Interval>,
    placed: seq<Interval>,
    reservations: seq<FloorReservation>,
    demands: seq<DeadlineDemand>)

  datatype Kind = FloorsExceedCapacity | DeadlineCapacity | AreaFloorUnreachable

  datatype Shortfall = Shortfall(kind: Kind, minutes: int, against: seq<string>, deadline: Option<Instant>,
                                 area: Option<Area>, takes: seq<(string, nat)>)

  /** What the source's constructors see to. */
  predicate IsInputs(inputs: ProbeInputs) {
    && IsInterval(inputs.span)
    && IsNormal(inputs.frame) && IsNormal(inputs.anchors) && IsNormal(inputs.absolute) && IsNormal(inputs.offPlan)
    && IsNormal(inputs.placed)
    && forall i :: 0 <= i < |inputs.scoped| ==> IsInterval(inputs.scoped[i].interval)
  }

  // ---- Capacity, as sets of instants ----

  function Discretionary(inputs: ProbeInputs): set<Instant> {
    Span(inputs.span)
    - (Points(inputs.frame) + Points(inputs.anchors) + Points(inputs.absolute) + Points(inputs.offPlan))
  }

  function Free(inputs: ProbeInputs): set<Instant> {
    From(Discretionary(inputs), inputs.now) - Points(inputs.placed)
  }

  function ScopedAgainst(scoped: seq<ScopedWindow>, area: Area): seq<Interval> {
    if scoped == [] then []
    else
      var last := scoped[|scoped| - 1];
      ScopedAgainst(scoped[..|scoped| - 1], area) + if area in last.forbidden then [last.interval] else []
  }

  function FreeFor(inputs: ProbeInputs, area: Area): set<Instant> {
    Free(inputs) - Points(ScopedAgainst(inputs.scoped, area))
  }

  function NotNegative(minutes: int): nat {
    if minutes < 0 then 0 else minutes
  }

  function Larger(one: nat, other: nat): nat {
    if one < other then other else one
  }

  function Smaller(one: nat, other: nat): nat {
    if one < other then one else other
  }

  /** Of so many minutes of other Areas' work, those that the capacity this Area cannot use does not take off. */
  function Competing(minutes: nat, claimable: set<Instant>, jointly: set<Instant>): nat {
    NotNegative(minutes - Minutes(jointly - claimable))
  }

  // ---- Python's dictionaries, which remember the order their keys came in ----

  datatype Dict<V> = Dict(values: map<Area, V>, order: seq<Area>)

  function Put<V>(dict: Dict<V>, key: Area, value: V): Dict<V> {
    Dict(dict.values[key := value], if key in dict.values then dict.order else dict.order + [key])
  }

  function ClaimedBy(claimed: Dict<nat>, area: Area): nat {
    if area in claimed.values then claimed.values[area] else 0
  }

  // ---- Every floor against the week ----

  function Reserved(reservations: seq<FloorReservation>): nat {
    if reservations == [] then 0
    else Reserved(reservations[..|reservations| - 1]) + reservations[|reservations| - 1].reserved
  }

  function NamesReserving(reservations: seq<FloorReservation>): seq<string> {
    if reservations == [] then []
    else
      var last := reservations[|reservations| - 1];
      NamesReserving(reservations[..|reservations| - 1]) + if last.reserved > 0 then [last.name] else []
  }

  function WeekShortfalls(inputs: ProbeInputs): seq<Shortfall> {
    var reserved, available := Reserved(inputs.reservations), Minutes(Free(inputs));
    if reserved <= available then []
    else
      [Shortfall(FloorsExceedCapacity, reserved - available, NamesReserving(inputs.reservations), None, None, [])]
  }

  // ---- Each demand against its deadline ----

  /** The floors still to be found, by Area: the last reservation of an Area, where the first stood. */
  function ByArea(reservations: seq<FloorReservation>): Dict<FloorReservation> {
    if reservations == [] then Dict(map[], [])
    else
      var rest, last := ByArea(reservations[..|reservations| - 1]), reservations[|reservations| - 1];
      if last.reserved > 0 then Put(rest, last.area, last) else rest
  }

  function Others(order: seq<Area>, area: Area, named: set<Area>): seq<Area> {
    if order == [] then []
    else
      var last := order[|order| - 1];
      Others(order[..|order| - 1], area, named) + if last != area && last !in named then [last] else []
  }

  function CompetingAreas(reserved: Dict<FloorReservation>, claimed: Dict<nat>, area: Area): seq<Area> {
    Others(reserved.order, area, {}) + Others(claimed.order, area, reserved.values.Keys)
  }

  /** What of an Area's floor cannot fit later. */
  function EarlyPart(reserved: Dict<FloorReservation>, area: Area, later: nat): nat {
    if area in reserved.values then NotNegative(reserved.values[area].reserved - later) else 0
  }

  /** Of each competing Area, the larger of what its earlier deadlines claimed and what of its floor must come early. */
  function Contested(reserved: Dict<FloorReservation>, claimed: Dict<nat>, later: nat, areas: seq<Area>): nat {
    if areas == [] then 0
    else
      var last := areas[|areas| - 1];
      Contested(reserved, claimed, later, areas[..|areas| - 1])
      + Larger(ClaimedBy(claimed, last), EarlyPart(reserved, last, later))
  }

  function Takes(reserved: Dict<FloorReservation>, later: nat, areas: seq<Area>): seq<(string, nat)> {
    if areas == [] then []
    else
      var last := areas[|areas| - 1];
      var early := EarlyPart(reserved, last, later);
      Takes(reserved, later, areas[..|areas| - 1])
      + if early > 0 then [(reserved.values[last].name, early)] else []
  }

  function Later(inputs: ProbeInputs, deadline: Instant): nat {
    Minutes(From(Free(inputs), deadline))
  }

  function ClaimableBefore(inputs: ProbeInputs, demand: DeadlineDemand): set<Instant> {
    Before(FreeFor(inputs, demand.area), demand.deadline)
  }

  function AreasAgainst(inputs: ProbeInputs, demand: DeadlineDemand, claimed: Dict<nat>): seq<Area> {
    CompetingAreas(ByArea(inputs.reservations), claimed, demand.area)
  }

  function Competition(inputs: ProbeInputs, demand: DeadlineDemand, claimed: Dict<nat>): nat {
    ClaimedBy(claimed, demand.area)
    + Contested(ByArea(inputs.reservations), claimed, Later(inputs, demand.deadline),
                AreasAgainst(inputs, demand, claimed))
  }

  function Available(inputs: ProbeInputs, demand: DeadlineDemand, claimed: Dict<nat>): nat {
    var claimable, jointly := ClaimableBefore(inputs, demand), Before(Free(inputs), demand.deadline);
    NotNegative(Minutes(claimable) - Competing(Competition(inputs, demand, claimed), claimable, jointly))
  }

  predicate NamesLess(one: seq<string>, other: seq<string>) {
    if other == [] then false
    else if one == [] then true
    else Less(one[0], other[0]) || (one[0] == other[0] && NamesLess(one[1..], other[1..]))
  }

  /** The key demands are sorted by: deadline, Area, and the names of the tasks. */
  predicate IsDueBefore(one: DeadlineDemand, other: DeadlineDemand) {
    || one.deadline < other.deadline
    || (one.deadline == other.deadline
        && (Less(one.area, other.area) || (one.area == other.area && NamesLess(one.labels, other.labels))))
  }

  function Inserted(demand: DeadlineDemand, sorted: seq<DeadlineDemand>): seq<DeadlineDemand> {
    if sorted == [] || !IsDueBefore(sorted[0], demand) then [demand] + sorted
    else [sorted[0]] + Inserted(demand, sorted[1..])
  }

  function EarliestFirst(demands: seq<DeadlineDemand>): seq<DeadlineDemand> {
    if demands == [] then [] else Inserted(demands[0], EarliestFirst(demands[1..]))
  }

  /** What the first demands leave claimed, Area by Area. */
  function ClaimsOf(inputs: ProbeInputs, demands: seq<DeadlineDemand>): Dict<nat> {
    if demands == [] then Dict(map[], [])
    else
      var claimed, last := ClaimsOf(inputs, demands[..|demands| - 1]), demands[|demands| - 1];
      Put(claimed, last.area,
          ClaimedBy(claimed, last.area) + Smaller(Available(inputs, last, claimed), last.remaining))
  }

  function DeadlineShortfall(inputs: ProbeInputs, demand: DeadlineDemand, claimed: Dict<nat>): seq<Shortfall> {
    var available := Available(inputs, demand, claimed);
    if available < demand.remaining then
      [Shortfall(DeadlineCapacity, demand.remaining - available, demand.labels, Some(demand.deadline),
                 Some(demand.area),
                 Takes(ByArea(inputs.reservations), Later(inputs, demand.deadline),
                       AreasAgainst(inputs, demand, claimed)))]
    else []
  }

  function DeadlineShortfalls(inputs: ProbeInputs, demands: seq<DeadlineDemand>): seq<Shortfall> {
    if demands == [] then []
    else
      var earlier, last := demands[..|demands| - 1], demands[|demands| - 1];
      DeadlineShortfalls(inputs, earlier) + DeadlineShortfall(inputs, last, ClaimsOf(inputs, earlier))
  }

  // ---- Each floor against its own Area ----

  function DemandedElsewhere(demands: seq<DeadlineDemand>, area: Area): nat {
    if demands == [] then 0
    else
      var last := demands[|demands| - 1];
      DemandedElsewhere(demands[..|demands| - 1], area) + if last.area != area then last.remaining else 0
  }

  function Reachable(inputs: ProbeInputs, area: Area): nat {
    var claimable := FreeFor(inputs, area);
    NotNegative(Minutes(claimable) - Competing(DemandedElsewhere(inputs.demands, area), claimable, Free(inputs)))
  }

  function FloorShortfall(inputs: ProbeInputs, reservation: FloorReservation): seq<Shortfall> {
    var available := Reachable(inputs, reservation.area);
    if reservation.reserved <= available then []
    else
      [Shortfall(AreaFloorUnreachable, reservation.reserved - available, [reservation.name], None,
                 Some(reservation.area), [])]
  }

  function FloorShortfalls(inputs: ProbeInputs, reservations: seq<FloorReservation>): seq<Shortfall> {
    if reservations == [] then []
    else
      FloorShortfalls(inputs, reservations[..|reservations| - 1])
      + FloorShortfall(inputs, reservations[|reservations| - 1])
  }

  function Shortfalls(inputs: ProbeInputs): seq<Shortfall> {
    WeekShortfalls(inputs) + DeadlineShortfalls(inputs, EarliestFirst(inputs.demands))
    + FloorShortfalls(inputs, inputs.reservations)
  }

  // ---- The probe, over sorted intervals ----

  datatype Week = Week(inputs: ProbeInputs, discretionary: seq<Interval>, free: seq<Interval>)

  /** A week's members cover the capacity its inputs leave. */
  ghost predicate IsWeek(week: Week) {
    && IsInputs(week.inputs)
    && IsNormal(week.discretionary) && Points(week.discretionary) == Discretionary(week.inputs)
    && IsNormal(week.free) && Points(week.free) == Free(week.inputs)
  }

  lemma {:induction false} JustTheSpan(span: Interval)
    requires IsInterval(span)
    ensures IsNormal([span]) && Points([span]) == Span(span)
  {
    OneMoreSpan([], span);
    assert [] + [span] == [span];
  }

  method WeekOf(inputs: ProbeInputs) returns (week: Week)
    requires IsInputs(inputs)
    ensures IsWeek(week) && week.inputs == inputs
  {
    hide IsNormal, Points, Span, From, IsInterval;
    var occupied := Union(inputs.frame, inputs.anchors);
    occupied := Union(occupied, inputs.absolute);
    occupied := Union(occupied, inputs.offPlan);
    JustTheSpan(inputs.span);
    var discretionary := Subtract([inputs.span], occupied);
    var free := CutAfter(discretionary, inputs.now);
    free := Subtract(free, inputs.placed);
    week := Week(inputs, discretionary, free);
  }

  method FreeForArea(week: Week, area: Area) returns (free: seq<Interval>)
    requires IsWeek(week)
    ensures IsNormal(free) && Points(free) == FreeFor(week.inputs, area)
  {
    var scoped := week.inputs.scoped;
    var windows: seq<Interval> := [];
    for i := 0 to |scoped|
      invariant windows == ScopedAgainst(scoped[..i], area) && AreIntervals(windows)
    {
      assert scoped[..i + 1][..i] == scoped[..i];
      if area in scoped[i].forbidden {
        windows := windows + [scoped[i].interval];
      }
    }
    assert scoped[..|scoped|] == scoped;
    hide IsNormal, Points;
    var forbidden := Normalized(windows);
    free := Subtract(week.free, forbidden);
  }

  method CompetingMinutes(minutes: nat, claimable: seq<Interval>, jointly: seq<Interval>) returns (competing: nat)
    requires IsNormal(claimable) && IsNormal(jointly)
    ensures competing == Competing(minutes, Points(claimable), Points(jointly))
  {
    hide IsNormal, Points;
    var elsewhereOnly := Subtract(jointly, claimable);
    var discount := TotalMinutes(elsewhereOnly);
    competing := NotNegative(minutes - discount);
  }

  method FloorsAgainstTheWeek(week: Week) returns (found: seq<Shortfall>)
    requires IsWeek(week)
    ensures found == WeekShortfalls(week.inputs)
  {
    hide IsNormal, Points, Free, Minutes;
    var reservations := week.inputs.reservations;
    var reserved := 0;
    var names: seq<string> := [];
    for i := 0 to |reservations|
      invariant reserved == Reserved(reservations[..i]) && names == NamesReserving(reservations[..i])
    {
      assert reservations[..i + 1][..i] == reservations[..i];
      reserved := reserved + reservations[i].reserved;
      if reservations[i].reserved > 0 {
        names := names + [reservations[i].name];
      }
    }
    assert reservations[..|reservations|] == reservations;
    var available := TotalMinutes(week.free);
    if reserved <= available {
      return [];
    }
    found := [Shortfall(FloorsExceedCapacity, reserved - available, names, None, None, [])];
  }

  method CompetitionBefore(week: Week, demand: DeadlineDemand, claimed: Dict<nat>)
    returns (minutes: nat, takes: seq<(string, nat)>)
    requires IsWeek(week)
    ensures minutes == Competition(week.inputs, demand, claimed)
    ensures takes == Takes(ByArea(week.inputs.reservations), Later(week.inputs, demand.deadline),
                           AreasAgainst(week.inputs, demand, claimed))
  {
    hide IsNormal, Points, Free, From, Minutes, ByArea, CompetingAreas;
    var after := CutAfter(week.free, demand.deadline);
    var later := TotalMinutes(after);
    var reserved := ReservedByArea(week.inputs.reservations);
    var areas := CompetingAreas(reserved, claimed, demand.area);
    minutes, takes := ClaimedBy(claimed, demand.area), [];
    for i := 0 to |areas|
      invariant minutes == ClaimedBy(claimed, demand.area) + Contested(reserved, claimed, later, areas[..i])
      invariant takes == Takes(reserved, later, areas[..i])
    {
      assert areas[..i + 1][..i] == areas[..i];
      var early := EarlyPart(reserved, areas[i], later);
      minutes := minutes + Larger(ClaimedBy(claimed, areas[i]), early);
      if early > 0 {
        takes := takes + [(reserved.values[areas[i]].name, early)];
      }
    }
    assert areas[..|areas|] == areas;
  }

  method ReservedByArea(reservations: seq<FloorReservation>) returns (reserved: Dict<FloorReservation>)
    ensures reserved == ByArea(reservations)
  {
    reserved := Dict(map[], []);
    for i := 0 to |reservations|
      invariant reserved == ByArea(reservations[..i])
    {
      assert reservations[..i + 1][..i] == reservations[..i];
      if reservations[i].reserved > 0 {
        reserved := Put(reserved, reservations[i].area, reservations[i]);
      }
    }
    assert reservations[..|reservations|] == reservations;
  }

  method AvailableFor(week: Week, demand: DeadlineDemand, claimed: Dict<nat>)
    returns (available: nat, takes: seq<(string, nat)>)
    requires IsWeek(week)
    ensures available == Available(week.inputs, demand, claimed)
    ensures takes == Takes(ByArea(week.inputs.reservations), Later(week.inputs, demand.deadline),
                           AreasAgainst(week.inputs, demand, claimed))
  {
    hide IsNormal, Points, Free, FreeFor, From, Before, Minutes, ByArea, Competition, Takes, AreasAgainst;
    var free := FreeForArea(week, demand.area);
    var claimable := CutBefore(free, demand.deadline);
    var jointly := CutBefore(week.free, demand.deadline);
    var minutes;
    minutes, takes := CompetitionBefore(week, demand, claimed);
    var competing := CompetingMinutes(minutes, claimable, jointly);
    var capacity: int := TotalMinutes(claimable);
    available := NotNegative(capacity - competing);
  }

  lemma {:induction false} NoDemands(inputs: ProbeInputs)
    ensures DeadlineShortfalls(inputs, []) == [] && ClaimsOf(inputs, []) == Dict(map[], [])
  {
  }

  lemma {:induction false} OneMoreGap(inputs: ProbeInputs, demands: seq<DeadlineDemand>, demand: DeadlineDemand)
    ensures DeadlineShortfalls(inputs, demands + [demand]) ==
            DeadlineShortfalls(inputs, demands) + DeadlineShortfall(inputs, demand, ClaimsOf(inputs, demands))
  {
    hide DeadlineShortfall, ClaimsOf;
    assert (demands + [demand])[..|demands|] == demands;
  }

  lemma {:induction false} OneMoreClaim(inputs: ProbeInputs, demands: seq<DeadlineDemand>, demand: DeadlineDemand)
    ensures var claimed := ClaimsOf(inputs, demands);
            ClaimsOf(inputs, demands + [demand]) ==
            Put(claimed, demand.area,
                ClaimedBy(claimed, demand.area) + Smaller(Available(inputs, demand, claimed), demand.remaining))
  {
    hide Available, Put, ClaimedBy, Smaller;
    assert (demands + [demand])[..|demands|] == demands;
  }

  method DemandsAgainstTheirDeadlines(week: Week) returns (found: seq<Shortfall>)
    requires IsWeek(week)
    ensures found == DeadlineShortfalls(week.inputs, EarliestFirst(week.inputs.demands))
  {
    hide IsWeek, Available, Takes, DeadlineShortfalls, ClaimsOf, ByArea, AreasAgainst, Later;
    NoDemands(week.inputs);
    found := [];
    var claimed: Dict<nat> := Dict(map[], []);
    var demands := EarliestFirst(week.inputs.demands);
    for i := 0 to |demands|
      invariant found == DeadlineShortfalls(week.inputs, demands[..i])
      invariant claimed == ClaimsOf(week.inputs, demands[..i])
    {
      var demand := demands[i];
      assert demands[..i + 1] == demands[..i] + [demand];
      OneMoreGap(week.inputs, demands[..i], demand);
      OneMoreClaim(week.inputs, demands[..i], demand);
      var available, takes := AvailableFor(week, demand, claimed);
      if available < demand.remaining {
        found := found + [Shortfall(DeadlineCapacity, demand.remaining - available, demand.labels,
                                    Some(demand.deadline), Some(demand.area), takes)];
      }
      claimed := Put(claimed, demand.area, ClaimedBy(claimed, demand.area) + Smaller(available, demand.remaining));
    }
    assert demands[..|demands|] == demands;
  }

  method FloorsAgainstTheirOwnAreas(week: Week) returns (found: seq<Shortfall>)
    requires IsWeek(week)
    ensures found == FloorShortfalls(week.inputs, week.inputs.reservations)
  {
    hide IsNormal, Points, Free, FreeFor, Minutes, Competing;
    found := [];
    var reservations := week.inputs.reservations;
    for i := 0 to |reservations|
      invariant found == FloorShortfalls(week.inputs, reservations[..i])
    {
      var reservation := reservations[i];
      assert reservations[..i + 1][..i] == reservations[..i];
      if reservation.reserved > 0 {
        var claimable := FreeForArea(week, reservation.area);
        var demanded := DemandedElsewhere(week.inputs.demands, reservation.area);
        var competing := CompetingMinutes(demanded, claimable, week.free);
        var capacity: int := TotalMinutes(claimable);
        var available := NotNegative(capacity - competing);
        if reservation.reserved > available {
          found := found + [Shortfall(AreaFloorUnreachable, reservation.reserved - available, [reservation.name], None,
                                      Some(reservation.area), [])];
        }
      }
    }
    assert reservations[..|reservations|] == reservations;
  }

  /** The discretionary minutes of the week, and every gap found in it. */
  method Probe(inputs: ProbeInputs) returns (discretionary: nat, found: seq<Shortfall>)
    requires IsInputs(inputs)
    ensures discretionary == Minutes(Discretionary(inputs)) && found == Shortfalls(inputs)
  {
    hide IsNormal, Points, Free, Discretionary, Minutes, DeadlineShortfalls, FloorShortfalls, WeekShortfalls;
    var week := WeekOf(inputs);
    discretionary := TotalMinutes(week.discretionary);
    found := FloorsAgainstTheWeek(week);
    var late := DemandsAgainstTheirDeadlines(week);
    var short := FloorsAgainstTheirOwnAreas(week);
    found := found + late + short;
  }
}
