// packages/syncr-domain/src/syncr_domain/intervals.py: sets of instants, kept as sorted spans that neither overlap nor
// touch. Half-open throughout.
module Intervals {

  /** Microseconds, which is as fine as a `datetime` goes. */
  type Instant = int

  const MINUTE := 60_000_000

  /** The source refuses to build one that does not run forward, so every one there is `IsInterval`. */
  datatype Interval = Interval(start: Instant, end: Instant)

  predicate IsInterval(interval: Interval) {
    interval.start < interval.end
  }

  /** What an `IntervalSet` holds: spans in order, with something uncovered between any two. */
  predicate IsNormal(members: seq<Interval>) {
    && (forall i :: 0 <= i < |members| ==> IsInterval(members[i]))
    && forall i, j :: 0 <= i < j < |members| ==> members[i].end < members[j].start
  }

  predicate AreIntervals(intervals: seq<Interval>) {
    forall i :: 0 <= i < |intervals| ==> IsInterval(intervals[i])
  }

  // ---- The instants covered ----

  predicate Holds(interval: Interval, t: Instant) {
    interval.start <= t < interval.end
  }

  function Span(interval: Interval): set<Instant> {
    set t: int | interval.start <= t < interval.end && Holds(interval, t)
  }

  function Points(intervals: seq<Interval>): set<Instant> {
    if intervals == [] then {} else Points(intervals[..|intervals| - 1]) + Span(intervals[|intervals| - 1])
  }

  lemma {:induction false} CoveredBy(intervals: seq<Interval>, t: Instant)
    ensures t in Points(intervals) <==> exists i :: 0 <= i < |intervals| && t in Span(intervals[i])
  {
    if intervals != [] {
      var most := intervals[..|intervals| - 1];
      CoveredBy(most, t);
      if t in Points(most) {
        var i :| 0 <= i < |most| && t in Span(most[i]);
        assert t in Span(intervals[i]);
      }
      if i :| 0 <= i < |intervals| && t in Span(intervals[i]) {
        assert i < |most| ==> t in Span(most[i]);
      }
    }
  }

  lemma {:induction false} PointsOfJoin(first: seq<Interval>, second: seq<Interval>)
    ensures Points(first + second) == Points(first) + Points(second)
  {
    if second == [] {
      assert first + second == first;
    } else {
      PointsOfJoin(first, second[..|second| - 1]);
      assert (first + second)[..|first + second| - 1] == first + second[..|second| - 1];
    }
  }

  lemma {:induction false} OneMoreSpan(intervals: seq<Interval>, interval: Interval)
    ensures Points(intervals + [interval]) == Points(intervals) + Span(interval)
  {
    assert (intervals + [interval])[..|intervals|] == intervals;
  }

  /** Two normal forms of one set are one: whatever was done to get there, equal instants are equal members. */
  lemma {:induction false} NormalFormIsUnique(one: seq<Interval>, other: seq<Interval>)
    requires IsNormal(one) && IsNormal(other) && Points(one) == Points(other)
    ensures one == other
    decreases |one|
  {
    if one == [] || other == [] {
      NothingCovered(one);
      NothingCovered(other);
    } else {
      var most, rest := one[..|one| - 1], other[..|other| - 1];
      var last, final := one[|one| - 1], other[|other| - 1];
      SameLast(one, other);
      hide Points, Span, IsNormal;
      NormalFormIsUnique(most, rest);
      assert one == most + [last] && other == rest + [final];
    }
  }

  lemma {:induction false} SameLast(one: seq<Interval>, other: seq<Interval>)
    requires IsNormal(one) && IsNormal(other) && Points(one) == Points(other) && one != [] && other != []
    ensures one[|one| - 1] == other[|other| - 1]
    ensures var most, rest := one[..|one| - 1], other[..|other| - 1];
            IsNormal(most) && IsNormal(rest) && Points(most) == Points(rest)
  {
    hide IsNormal;
    LastSpan(one);
    LastSpan(other);
    WithoutLast(one);
    WithoutLast(other);
    var last, final := one[|one| - 1], other[|other| - 1];
    assert Holds(last, final.start - 1) <==> final.start - 1 in Span(last);
    assert Holds(final, last.start - 1) <==> last.start - 1 in Span(final);
  }

  lemma {:induction false} WithoutLast(members: seq<Interval>)
    requires IsNormal(members) && members != []
    ensures var most, last := members[..|members| - 1], members[|members| - 1];
            && IsInterval(last) && Span(last) <= Points(members)
            && Points(most) == Points(members) - Span(last)
  {
    LastSpan(members);
  }

  lemma {:induction false} NothingCovered(members: seq<Interval>)
    requires IsNormal(members)
    ensures Points(members) == {} <==> members == []
  {
    if members != [] {
      assert members[|members| - 1].start in Points(members);
    }
  }

  lemma {:induction false} LastSpan(members: seq<Interval>)
    requires IsNormal(members) && members != []
    ensures var last := members[|members| - 1];
            && last.end - 1 in Points(members)
            && last.start - 1 !in Points(members)
            && (forall t :: t in Points(members) ==> t < last.end)
            && var most := members[..|members| - 1];
               IsNormal(most) && forall t :: t in Points(most) ==> t < last.start - 1
  {
    var most, last := members[..|members| - 1], members[|members| - 1];
    assert last.end - 1 in Span(last);
    forall t | t in Points(most) ensures t < last.start - 1 {
      CoveredBy(most, t);
      var i :| 0 <= i < |most| && t in Span(most[i]);
    }
  }

  // ---- How long ----

  lemma {:induction false} SpanSize(interval: Interval)
    requires interval.start <= interval.end
    ensures |Span(interval)| == interval.end - interval.start
    decreases interval.end - interval.start
  {
    if interval.start < interval.end {
      var shorter := Interval(interval.start, interval.end - 1);
      SpanSize(shorter);
      assert Span(interval) == Span(shorter) + {interval.end - 1};
    } else {
      assert Span(interval) == {};
    }
  }

  function Durations(members: seq<Interval>): int {
    if members == [] then 0
    else
      var last := members[|members| - 1];
      Durations(members[..|members| - 1]) + (last.end - last.start)
  }

  /** Nothing in a normal form is counted twice. */
  lemma {:induction false} DurationsCount(members: seq<Interval>)
    requires IsNormal(members)
    ensures Durations(members) == |Points(members)|
  {
    if members != [] {
      var most, last := members[..|members| - 1], members[|members| - 1];
      DurationsCount(most);
      LastSpan(members);
      SpanSize(last);
      assert Points(most) !! Span(last);
    }
  }

  function Minutes(instants: set<Instant>): nat {
    |instants| / MINUTE
  }

  /** Whole minutes, cut once for the whole set. */
  method TotalMinutes(members: seq<Interval>) returns (minutes: nat)
    requires IsNormal(members)
    ensures minutes == Minutes(Points(members))
  {
    var elapsed := 0;
    for i := 0 to |members|
      invariant elapsed == Durations(members[..i])
    {
      assert members[..i + 1][..i] == members[..i];
      elapsed := elapsed + (members[i].end - members[i].start);
    }
    assert members[..|members|] == members;
    DurationsCount(members);
    minutes := elapsed / MINUTE;
  }

  // ---- Building ----

  predicate ComesNoLater(one: Interval, other: Interval) {
    one.start < other.start || (one.start == other.start && one.end <= other.end)
  }

  function InsertedSpan(interval: Interval, sorted: seq<Interval>): seq<Interval> {
    if sorted == [] || ComesNoLater(interval, sorted[0]) then [interval] + sorted
    else [sorted[0]] + InsertedSpan(interval, sorted[1..])
  }

  /** `sorted(intervals)`. */
  function InOrder(intervals: seq<Interval>): seq<Interval> {
    if intervals == [] then [] else InsertedSpan(intervals[0], InOrder(intervals[1..]))
  }

  predicate IsInOrder(intervals: seq<Interval>) {
    forall i, j :: 0 <= i < j < |intervals| ==> intervals[i].start <= intervals[j].start
  }

  lemma {:induction false} InsertedSpanIsInOrder(interval: Interval, sorted: seq<Interval>)
    requires IsInOrder(sorted)
    ensures IsInOrder(InsertedSpan(interval, sorted))
    ensures forall other :: other in InsertedSpan(interval, sorted) <==> other == interval || other in sorted
  {
    if sorted == [] || ComesNoLater(interval, sorted[0]) {
    } else {
      InsertedSpanIsInOrder(interval, sorted[1..]);
      var rest := InsertedSpan(interval, sorted[1..]);
      forall j | 0 <= j < |rest| ensures sorted[0].start <= rest[j].start {
        assert rest[j] in rest;
      }
    }
  }

  lemma {:induction false} InOrderIsSorted(intervals: seq<Interval>)
    ensures IsInOrder(InOrder(intervals))
    ensures forall other :: other in InOrder(intervals) <==> other in intervals
  {
    if intervals != [] {
      InOrderIsSorted(intervals[1..]);
      InsertedSpanIsInOrder(intervals[0], InOrder(intervals[1..]));
    }
  }

  lemma {:induction false} SameMembersSamePoints(one: seq<Interval>, other: seq<Interval>)
    requires forall interval :: interval in one <==> interval in other
    ensures Points(one) == Points(other)
  {
    forall t ensures t in Points(one) <==> t in Points(other) {
      CoveredBy(one, t);
      CoveredBy(other, t);
      if i :| 0 <= i < |one| && t in Span(one[i]) {
        assert one[i] in other;
      }
      if i :| 0 <= i < |other| && t in Span(other[i]) {
        assert other[i] in one;
      }
    }
  }

  lemma {:induction false} ApartIsAppended(merged: seq<Interval>, interval: Interval)
    requires IsNormal(merged) && IsInterval(interval)
    requires merged == [] || merged[|merged| - 1].end < interval.start
    ensures IsNormal(merged + [interval]) && Points(merged + [interval]) == Points(merged) + Span(interval)
  {
    OneMoreSpan(merged, interval);
  }

  /** Where the next span starts within the last, or just as it ends, the two are one, as long as the longer of them. */
  lemma {:induction false} TouchingIsAbsorbed(merged: seq<Interval>, interval: Interval)
    requires IsNormal(merged) && IsInterval(interval) && merged != []
    requires merged[|merged| - 1].start <= interval.start <= merged[|merged| - 1].end
    ensures var most, previous := merged[..|merged| - 1], merged[|merged| - 1];
            if interval.end > previous.end then
              var longer := most + [Interval(previous.start, interval.end)];
              IsNormal(longer) && Points(longer) == Points(merged) + Span(interval)
            else Points(merged) == Points(merged) + Span(interval)
  {
    var most, previous := merged[..|merged| - 1], merged[|merged| - 1];
    if interval.end > previous.end {
      var longer := Interval(previous.start, interval.end);
      OneMoreSpan(most, longer);
      assert Span(longer) == Span(previous) + Span(interval);
    } else {
      assert Span(interval) <= Span(previous);
    }
  }

  /** A run of spans in order of start covers what its merged form does, and that form is normal. */
  method Merge(ordered: seq<Interval>) returns (merged: seq<Interval>)
    requires AreIntervals(ordered) && IsInOrder(ordered)
    ensures IsNormal(merged) && Points(merged) == Points(ordered)
  {
    hide Points, Span, IsNormal;
    assert Points([]) == {} && IsNormal([]) by { NoneIsNormal(); }
    merged := [];
    for i := 0 to |ordered|
      invariant IsNormal(merged) && Points(merged) == Points(ordered[..i])
      invariant i == 0 <==> merged == []
      invariant merged != [] ==> merged[|merged| - 1].start <= ordered[i - 1].start
    {
      var interval := ordered[i];
      assert ordered[..i + 1] == ordered[..i] + [interval];
      OneMoreSpan(ordered[..i], interval);
      if merged == [] || interval.start > merged[|merged| - 1].end {
        ApartIsAppended(merged, interval);
        merged := merged + [interval];
      } else {
        TouchingIsAbsorbed(merged, interval);
        var previous := merged[|merged| - 1];
        if interval.end > previous.end {
          merged := merged[..|merged| - 1] + [Interval(previous.start, interval.end)];
        }
      }
    }
    assert ordered[..|ordered|] == ordered;
  }

  lemma {:induction false} NoneIsNormal()
    ensures Points([]) == {} && IsNormal([])
  {
  }

  method Normalized(intervals: seq<Interval>) returns (members: seq<Interval>)
    requires AreIntervals(intervals)
    ensures IsNormal(members) && Points(members) == Points(intervals)
  {
    InOrderIsSorted(intervals);
    SameMembersSamePoints(InOrder(intervals), intervals);
    forall i | 0 <= i < |InOrder(intervals)| ensures IsInterval(InOrder(intervals)[i]) {
      assert InOrder(intervals)[i] in intervals;
    }
    members := Merge(InOrder(intervals));
  }

  // ---- The algebra ----

  method Union(one: seq<Interval>, other: seq<Interval>) returns (members: seq<Interval>)
    requires IsNormal(one) && IsNormal(other)
    ensures IsNormal(members) && Points(members) == Points(one) + Points(other)
  {
    PointsOfJoin(one, other);
    members := Normalized(one + other);
  }

  /** The part of one span that a sorted run of cuts leaves. */
  method Without(member: Interval, cuts: seq<Interval>) returns (pieces: seq<Interval>)
    requires IsInterval(member) && IsNormal(cuts)
    ensures AreIntervals(pieces) && Points(pieces) == Span(member) - Points(cuts)
  {
    pieces := [];
    var start := member.start;
    var i := 0;
    while i < |cuts| && cuts[i].start < member.end && start < member.end
      invariant 0 <= i <= |cuts| && member.start <= start && AreIntervals(pieces)
      invariant forall k :: 0 <= k < i ==> cuts[k].end <= start
      invariant Points(pieces) == LeftBefore(member, cuts, start)
    {
      var cut := cuts[i];
      if cut.end > start {
        CutNext(member, cuts, i, start);
        if cut.start > start {
          OneMoreSpan(pieces, Interval(start, cut.start));
          pieces := pieces + [Interval(start, cut.start)];
        }
        start := cut.end;
      }
      i := i + 1;
    }
    LeftAtTheEnd(member, cuts, i, start);
    if start < member.end {
      OneMoreSpan(pieces, Interval(start, member.end));
      pieces := pieces + [Interval(start, member.end)];
    }
  }

  ghost function LeftBefore(member: Interval, cuts: seq<Interval>, upTo: Instant): set<Instant> {
    set t: Instant | t in Span(member) && t < upTo && t !in Points(cuts)
  }

  lemma {:induction false} CutNext(member: Interval, cuts: seq<Interval>, i: nat, start: Instant)
    requires IsNormal(cuts) && i < |cuts| && member.start <= start < cuts[i].end && cuts[i].start < member.end
    requires forall k :: 0 <= k < i ==> cuts[k].end <= start
    ensures LeftBefore(member, cuts, cuts[i].end) ==
            LeftBefore(member, cuts, start) + Span(Interval(start, cuts[i].start))
  {
    forall t ensures t in LeftBefore(member, cuts, cuts[i].end) <==>
                     t in LeftBefore(member, cuts, start) + Span(Interval(start, cuts[i].start))
    {
      CoveredBy(cuts, t);
      assert t in Span(cuts[i]) ==> t in Points(cuts);
    }
  }

  lemma {:induction false} LeftAtTheEnd(member: Interval, cuts: seq<Interval>, i: nat, start: Instant)
    requires IsNormal(cuts) && i <= |cuts| && member.start <= start
    requires forall k :: 0 <= k < i ==> cuts[k].end <= start
    requires i == |cuts| || cuts[i].start >= member.end || start >= member.end
    ensures Span(member) - Points(cuts) ==
            LeftBefore(member, cuts, start) + Span(Interval(start, member.end))
  {
    forall t ensures t in Span(member) - Points(cuts) <==>
                     t in LeftBefore(member, cuts, start) + Span(Interval(start, member.end))
    {
      CoveredBy(cuts, t);
      if k :| 0 <= k < |cuts| && t in Span(cuts[k]) {
        assert i < k ==> cuts[i].end < cuts[k].start;
      }
    }
  }

  method Subtract(one: seq<Interval>, other: seq<Interval>) returns (members: seq<Interval>)
    requires IsNormal(one) && IsNormal(other)
    ensures IsNormal(members) && Points(members) == Points(one) - Points(other)
  {
    var pieces := [];
    for i := 0 to |one|
      invariant AreIntervals(pieces) && Points(pieces) == Points(one[..i]) - Points(other)
    {
      var left := Without(one[i], other);
      PointsOfJoin(pieces, left);
      assert one[..i + 1] == one[..i] + [one[i]];
      OneMoreSpan(one[..i], one[i]);
      pieces := pieces + left;
    }
    assert one[..|one|] == one;
    members := Normalized(pieces);
  }

  function Before(instants: set<Instant>, moment: Instant): set<Instant> {
    set t | t in instants && t < moment
  }

  function From(instants: set<Instant>, moment: Instant): set<Instant> {
    set t | t in instants && moment <= t
  }

  lemma {:induction false} CutSpans(member: Interval, moment: Instant)
    requires IsInterval(member)
    ensures Before(Span(member), moment) ==
            if member.end <= moment then Span(member)
            else if member.start < moment then Span(Interval(member.start, moment)) else {}
    ensures From(Span(member), moment) ==
            if moment <= member.start then Span(member)
            else if moment < member.end then Span(Interval(moment, member.end)) else {}
  {
  }

  lemma {:induction false} CutsAddUp(one: set<Instant>, other: set<Instant>, moment: Instant)
    ensures Before(one + other, moment) == Before(one, moment) + Before(other, moment)
    ensures From(one + other, moment) == From(one, moment) + From(other, moment)
    ensures Before({}, moment) == {} && From({}, moment) == {}
  {
  }

  method CutBefore(members: seq<Interval>, moment: Instant) returns (kept: seq<Interval>)
    requires IsNormal(members)
    ensures IsNormal(kept) && Points(kept) == Before(Points(members), moment)
  {
    hide Points, Span, Before;
    NoneIsNormal();
    CutsAddUp({}, {}, moment);
    var pieces := [];
    for i := 0 to |members|
      invariant AreIntervals(pieces) && Points(pieces) == Before(Points(members[..i]), moment)
    {
      var member := members[i];
      assert members[..i + 1] == members[..i] + [member];
      OneMoreSpan(members[..i], member);
      CutsAddUp(Points(members[..i]), Span(member), moment);
      CutSpans(member, moment);
      if member.start < moment {
        var piece := if member.end <= moment then member else Interval(member.start, moment);
        OneMoreSpan(pieces, piece);
        pieces := pieces + [piece];
      }
    }
    assert members[..|members|] == members;
    kept := Normalized(pieces);
  }

  method CutAfter(members: seq<Interval>, moment: Instant) returns (kept: seq<Interval>)
    requires IsNormal(members)
    ensures IsNormal(kept) && Points(kept) == From(Points(members), moment)
  {
    hide Points, Span, From;
    NoneIsNormal();
    CutsAddUp({}, {}, moment);
    var pieces := [];
    for i := 0 to |members|
      invariant AreIntervals(pieces) && Points(pieces) == From(Points(members[..i]), moment)
    {
      var member := members[i];
      assert members[..i + 1] == members[..i] + [member];
      OneMoreSpan(members[..i], member);
      CutsAddUp(Points(members[..i]), Span(member), moment);
      CutSpans(member, moment);
      if member.end > moment {
        var piece := if member.start >= moment then member else Interval(moment, member.end);
        OneMoreSpan(pieces, piece);
        pieces := pieces + [piece];
      }
    }
    assert members[..|members|] == members;
    kept := Normalized(pieces);
  }
}
