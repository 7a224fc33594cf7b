// Why comparing neighbours around the hue circle is enough, and the one ramp for which it is not.
module HueLaws {
  import opened Wrappers
  import opened Hues

  // ---- Hues ----

  /** Passing each channel on to the next turns the hue a third of the way round. */
  lemma {:induction false} ChannelsTurnTogether(red: Channel, green: Channel, blue: Channel)
    requires Span(red, green, blue) > 0
    ensures HueOf(blue, red, green) == (HueOf(red, green, blue) + TURN / 3) % TURN
  {
    hide HueTimesSpan, Span;
    var span, scaled := Span(red, green, blue), HueTimesSpan(red, green, blue);
    var turned := if scaled < 2400 * span then 1200 else -2400;
    ScaledTurns(red, green, blue, turned);
    assert 2 * (scaled + turned * span) + span == 2 * scaled + span + turned * (2 * span);
    WholePartsAdd(2 * scaled + span, 2 * span, turned);
    HueIsShortOfATurn(red, green, blue);
    HalfRoundsTogether(scaled, span);
  }

  /** The three primaries, and their tints, stand a third of a turn apart, red at the start. */
  lemma {:induction false} PrimariesAreThirds(high: Channel, low: Channel)
    requires low < high
    ensures HueOf(high, low, low) == 0 && HueOf(low, high, low) == TURN / 3 && HueOf(low, low, high) == 2 * TURN / 3
  {
    var span := high - low;
    assert HueTimesSpan(high, low, low) == 0 && Span(high, low, low) == span;
    RoundedIsBelow(span, 2 * span, 1);
    ChannelsTurnTogether(high, low, low);
    ChannelsTurnTogether(low, high, low);
  }

  lemma {:induction false} ScaledTurns(red: Channel, green: Channel, blue: Channel, turned: int)
    requires Span(red, green, blue) > 0
    requires turned == if HueTimesSpan(red, green, blue) < 2400 * Span(red, green, blue) then 1200 else -2400
    ensures Span(blue, red, green) == Span(red, green, blue)
    ensures HueTimesSpan(blue, red, green) == HueTimesSpan(red, green, blue) + turned * Span(red, green, blue)
  {
  }

  lemma {:induction false} WholePartsAdd(number: int, unit: int, units: int)
    requires unit > 0
    ensures (number + units * unit) / unit == number / unit + units
  {
    var whole := (number + units * unit) / unit;
    var part := number / unit + units;
    assert number == unit * (number / unit) + number % unit;
    assert number + units * unit == unit * part + number % unit;
    assert number + units * unit == unit * whole + (number + units * unit) % unit;
    MultiplesInOrder(unit, whole + 1, part);
    MultiplesInOrder(unit, part + 1, whole);
  }

  /** What rounds to two thirds of a turn or more is what is there already. */
  lemma {:induction false} HalfRoundsTogether(scaled: int, span: int)
    requires span > 0 && scaled >= 0
    ensures scaled < 2400 * span ==> (2 * scaled + span) / (2 * span) <= 2400
    ensures scaled >= 2400 * span ==> (2 * scaled + span) / (2 * span) >= 2400
  {
    var rounded := (2 * scaled + span) / (2 * span);
    MultiplesInOrder(2 * span, 2401, rounded);
    MultiplesInOrder(2 * span, rounded, 2399);
    assert 2 * scaled + span == 2 * span * rounded + (2 * scaled + span) % (2 * span);
  }

  // ---- Sorting ----

  predicate IsByHue(hues: seq<AreaHue>) {
    forall j, k :: 0 <= j < k < |hues| ==> hues[j].hue <= hues[k].hue
  }

  lemma {:induction false} InsertKeepsOrder(pigment: AreaHue, sorted: seq<AreaHue>)
    requires IsByHue(sorted)
    ensures IsByHue(InsertByHue(pigment, sorted))
    ensures multiset(InsertByHue(pigment, sorted)) == multiset(sorted) + multiset{pigment}
    ensures |InsertByHue(pigment, sorted)| == |sorted| + 1
    decreases |sorted|
  {
    if sorted == [] {
    } else if pigment.hue > sorted[0].hue {
      InsertKeepsOrder(pigment, sorted[1..]);
      assert sorted == [sorted[0]] + sorted[1..];
      InsertedIsOneOf(pigment, sorted[1..]);
    }
  }

  lemma {:induction false} InsertedIsOneOf(pigment: AreaHue, sorted: seq<AreaHue>)
    ensures forall k :: 0 <= k < |InsertByHue(pigment, sorted)| ==>
              InsertByHue(pigment, sorted)[k] == pigment || InsertByHue(pigment, sorted)[k] in sorted
    decreases |sorted|
  {
    if sorted != [] && pigment.hue > sorted[0].hue {
      InsertedIsOneOf(pigment, sorted[1..]);
    }
  }

  lemma {:induction false} NothingIsByHue()
    ensures IsByHue([])
  {
  }

  /** The same pigments, by hue. */
  lemma {:induction false} SortedIsByHue(hues: seq<AreaHue>)
    ensures IsByHue(SortedByHue(hues)) && multiset(SortedByHue(hues)) == multiset(hues)
    ensures |SortedByHue(hues)| == |hues|
    decreases |hues|
  {
    hide InsertByHue, IsByHue;
    if hues != [] {
      SortedIsByHue(hues[1..]);
      InsertKeepsOrder(hues[0], SortedByHue(hues[1..]));
      assert hues == [hues[0]] + hues[1..];
    } else {
      NothingIsByHue();
    }
  }

  // ---- Pairs ----

  /** Two of the pigments, which may share a hue but are two. */
  ghost predicate IsPair(hues: seq<AreaHue>, one: AreaHue, two: AreaHue) {
    multiset{one, two} <= multiset(hues)
  }

  lemma {:induction false} PairStandsAt(hues: seq<AreaHue>, one: AreaHue, two: AreaHue) returns (j: nat, k: nat)
    requires IsPair(hues, one, two)
    ensures j < |hues| && k < |hues| && j != k && hues[j] == one && hues[k] == two
  {
    assert one in multiset(hues) && two in multiset(hues);
    j :| 0 <= j < |hues| && hues[j] == one;
    var rest := hues[..j] + hues[j + 1..];
    assert hues == hues[..j] + [one] + hues[j + 1..];
    assert multiset(hues) == multiset(rest) + multiset{one};
    assert two in multiset(rest);
    k :| 0 <= k < |rest| && rest[k] == two;
    k := if k < j then k else k + 1;
  }

  lemma {:induction false} StandingMakesAPair(hues: seq<AreaHue>, j: nat, k: nat)
    requires j < k < |hues|
    ensures IsPair(hues, hues[j], hues[k]) && IsPair(hues, hues[k], hues[j])
  {
    assert hues == hues[..j] + [hues[j]] + hues[j + 1..k] + [hues[k]] + hues[k + 1..];
  }

  // ---- Gaps ----

  /** The neighbour of a place in hue order: the next, or the first after the last. */
  function After(count: nat, index: nat): nat {
    if index + 1 < count then index + 1 else 0
  }

  /** The gaps around a ramp in hue order: each step up, and the step from the last back round to the first. */
  lemma {:induction false} GapsAreSteps(byHue: seq<AreaHue>, index: nat)
    requires IsByHue(byHue) && index < |byHue|
    ensures index + 1 < |byHue| ==> GapAfter(byHue, index).gap == byHue[index + 1].hue - byHue[index].hue
    ensures index + 1 == |byHue| && byHue[0].hue < byHue[index].hue ==>
              GapAfter(byHue, index).gap == byHue[0].hue + TURN - byHue[index].hue
    ensures index + 1 == |byHue| && byHue[0].hue == byHue[index].hue ==> GapAfter(byHue, index).gap == 0
  {
    if index + 1 < |byHue| {
      assert (index + 1) % |byHue| == index + 1;
      assert byHue[index].hue <= byHue[index + 1].hue;
    } else {
      assert (index + 1) % |byHue| == 0;
      assert index > 0 ==> byHue[0].hue <= byHue[index].hue;
    }
  }

  /** Some neighbours are no further apart than any two. */
  lemma {:induction false} NeighboursAreCloser(byHue: seq<AreaHue>, j: nat, k: nat) returns (index: nat)
    requires IsByHue(byHue) && j < k < |byHue|
    ensures index < |byHue| && GapAfter(byHue, index).gap <= Separation(byHue[j].hue, byHue[k].hue)
  {
    var last := |byHue| - 1;
    var direct := byHue[k].hue - byHue[j].hue;
    GapsAreSteps(byHue, j);
    GapsAreSteps(byHue, last);
    assert byHue[j + 1].hue <= byHue[k].hue by { assert j + 1 < k ==> byHue[j + 1].hue <= byHue[k].hue; }
    assert byHue[0].hue <= byHue[j].hue && byHue[k].hue <= byHue[last].hue;
    index := if direct <= TURN - direct then j else last;
  }

  /** The least gap is at most half a turn, so it is the separation of the two it lies between. */
  lemma {:induction false} LeastGapIsASeparation(byHue: seq<AreaHue>, index: nat)
    requires IsByHue(byHue) && |byHue| >= 2 && index < |byHue|
    requires forall i :: 0 <= i < |byHue| ==> GapAfter(byHue, index).gap <= GapAfter(byHue, i).gap
    ensures GapAfter(byHue, index).gap == Separation(byHue[index].hue, byHue[After(|byHue|, index)].hue)
  {
    hide GapAfter;
    var last := |byHue| - 1;
    var least := GapAfter(byHue, index).gap;
    GapsAreSteps(byHue, index);
    GapsAreSteps(byHue, 0);
    GapsAreSteps(byHue, last);
    assert byHue[0].hue <= byHue[1].hue <= byHue[last].hue by { assert 1 < last ==> byHue[1].hue <= byHue[last].hue; }
    assert least <= GapAfter(byHue, 0).gap && least <= GapAfter(byHue, last).gap;
  }

  /** The number is the least separation of any two of the pigments. */
  ghost predicate IsLeastSeparation(hues: seq<AreaHue>, least: int) {
    && (exists one, two :: IsPair(hues, one, two) && Separation(one.hue, two.hue) == least)
    && forall one, two :: IsPair(hues, one, two) ==> least <= Separation(one.hue, two.hue)
  }

  /** Of two or more pigments, the tightest gap between neighbours is the least separation of any two. */
  lemma {:induction false} NeighboursAreEnough(hues: seq<AreaHue>, tightest: HueGap)
    requires |hues| >= 2
    requires Tightest(AdjacentGaps(hues)) == Some(tightest)
    ensures IsLeastSeparation(hues, tightest.gap)
  {
    var byHue, gaps := SortedByHue(hues), AdjacentGaps(hues);
    SortedIsByHue(hues);
    var index :| 0 <= index < |gaps| && gaps[index] == tightest;
    forall i | 0 <= i < |byHue| ensures GapAfter(byHue, index).gap <= GapAfter(byHue, i).gap {
      assert gaps[i] == GapAfter(byHue, i);
    }
    LeastGapIsASeparation(byHue, index);
    NeighbourPair(byHue, index);
    assert IsPair(hues, byHue[index], byHue[After(|byHue|, index)]);
    forall one, two | IsPair(hues, one, two) ensures tightest.gap <= Separation(one.hue, two.hue) {
      AnyTwoAreFurther(hues, byHue, one, two, tightest.gap);
    }
  }

  lemma {:induction false} NeighbourPair(byHue: seq<AreaHue>, index: nat)
    requires |byHue| >= 2 && index < |byHue|
    ensures IsPair(byHue, byHue[index], byHue[After(|byHue|, index)])
  {
    if index + 1 < |byHue| {
      StandingMakesAPair(byHue, index, index + 1);
    } else {
      StandingMakesAPair(byHue, 0, index);
    }
  }

  lemma {:induction false} AnyTwoAreFurther(hues: seq<AreaHue>, byHue: seq<AreaHue>, one: AreaHue, two: AreaHue,
                                            least: int)
    requires IsByHue(byHue) && multiset(byHue) == multiset(hues) && IsPair(hues, one, two)
    requires forall i :: 0 <= i < |byHue| ==> least <= GapAfter(byHue, i).gap
    ensures least <= Separation(one.hue, two.hue)
  {
    var j, k := PairStandsAt(byHue, one, two);
    var index;
    if j < k {
      index := NeighboursAreCloser(byHue, j, k);
    } else {
      index := NeighboursAreCloser(byHue, k, j);
    }
  }

  // ---- All the way round ----

  function Sum(gaps: seq<HueGap>): int {
    if gaps == [] then 0 else Sum(gaps[..|gaps| - 1]) + gaps[|gaps| - 1].gap
  }

  lemma {:induction false} StepsAddUp(byHue: seq<AreaHue>, gaps: seq<HueGap>, upTo: nat)
    requires IsByHue(byHue) && |gaps| == |byHue| && upTo < |byHue|
    requires forall i :: 0 <= i < |gaps| ==> gaps[i] == GapAfter(byHue, i)
    ensures Sum(gaps[..upTo]) == byHue[upTo].hue - byHue[0].hue
  {
    if upTo > 0 {
      StepsAddUp(byHue, gaps, upTo - 1);
      GapsAreSteps(byHue, upTo - 1);
      assert gaps[..upTo][..upTo - 1] == gaps[..upTo - 1];
    }
  }

  /** The gaps make a full turn, unless every hue is the same and there is nowhere to turn. */
  lemma {:induction false} GapsMakeATurn(hues: seq<AreaHue>)
    requires hues != []
    ensures Sum(AdjacentGaps(hues)) ==
            if forall j, k :: 0 <= j < |hues| && 0 <= k < |hues| ==> hues[j].hue == hues[k].hue
                                       then 0 else TURN
  {
    var byHue, gaps := SortedByHue(hues), AdjacentGaps(hues);
    var last := |hues| - 1;
    SortedIsByHue(hues);
    StepsAddUp(byHue, gaps, last);
    GapsAreSteps(byHue, last);
    assert gaps == gaps[..last] + [gaps[last]];
    SameEndsSameHues(hues, byHue);
  }

  /** All the hues are one exactly when the first and the last in order are. */
  lemma {:induction false} SameEndsSameHues(hues: seq<AreaHue>, byHue: seq<AreaHue>)
    requires IsByHue(byHue) && multiset(byHue) == multiset(hues) && byHue != []
    ensures (forall j, k :: 0 <= j < |hues| && 0 <= k < |hues| ==> hues[j].hue == hues[k].hue) <==>
            byHue[0].hue == byHue[|byHue| - 1].hue
  {
    var last := |byHue| - 1;
    assert byHue[0] in multiset(hues) && byHue[last] in multiset(hues);
    var first :| 0 <= first < |hues| && hues[first] == byHue[0];
    var final :| 0 <= final < |hues| && hues[final] == byHue[last];
    if byHue[0].hue == byHue[last].hue {
      forall j | 0 <= j < |hues| ensures hues[j].hue == byHue[0].hue {
        assert hues[j] in multiset(byHue);
        var i :| 0 <= i < |byHue| && byHue[i] == hues[j];
        assert i > 0 ==> byHue[0].hue <= byHue[i].hue;
        assert i < last ==> byHue[i].hue <= byHue[last].hue;
      }
    }
  }

  // ---- What is reported ----

  ghost predicate TwoAreCloser(hues: seq<AreaHue>, floor: int) {
    exists one, two :: IsPair(hues, one, two) && Separation(one.hue, two.hue) < floor
  }

  predicate IsReported(gaps: seq<HueGap>, floor: int) {
    Tightest(gaps).Some? && Tightest(gaps).value.gap < floor
  }

  /** The separation check complains exactly when two pigments are too close, or when there is a single pigment, which
      it finds to be no distance from itself. */
  lemma {:induction false} SeparationIsReported(hues: seq<AreaHue>)
    ensures IsReported(AdjacentGaps(hues), SEPARATION_FLOOR) <==> |hues| == 1 || TwoAreCloser(hues, SEPARATION_FLOOR)
  {
    var gaps := AdjacentGaps(hues);
    if |hues| >= 2 {
      NeighboursAreEnough(hues, Tightest(gaps).value);
    } else {
      forall one, two ensures !IsPair(hues, one, two) {
        assert |multiset{one, two}| == 2;
        assert |multiset(hues)| == |hues|;
        if IsPair(hues, one, two) {
          var j, k := PairStandsAt(hues, one, two);
        }
      }
      if |hues| == 1 {
        SortedIsByHue(hues);
        GapsAreSteps(SortedByHue(hues), 0);
        assert gaps[0] == GapAfter(SortedByHue(hues), 0);
      }
    }
  }

  lemma {:induction false} EitherWayRound(one: Hue, two: Hue)
    ensures Separation(one, two) == Separation(two, one)
  {
  }

  lemma {:induction false} ReportedIsClose(dealt: seq<AreaHue>, pairs: seq<HueGap>, floor: int)
    requires ArePairs(dealt, |dealt|, pairs) && IsReported(pairs, floor)
    ensures TwoAreCloser(dealt, floor)
  {
    hide Separation, TwoAreCloser;
    var i :| 0 <= i < |pairs| && pairs[i] == Tightest(pairs).value;
    var one, two :| 0 <= one < two < |dealt| && pairs[i] == PairGap(dealt[one], dealt[two]);
    TheseAreCloser(dealt, one, two, floor);
  }

  lemma {:induction false} TheseAreCloser(dealt: seq<AreaHue>, one: nat, two: nat, floor: int)
    requires one < two < |dealt| && Separation(dealt[one].hue, dealt[two].hue) < floor
    ensures TwoAreCloser(dealt, floor)
  {
    hide Separation;
    StandingMakesAPair(dealt, one, two);
  }

  lemma {:induction false} CloseIsReported(dealt: seq<AreaHue>, pairs: seq<HueGap>, floor: int, one: AreaHue,
                                           two: AreaHue)
    requires ArePairs(dealt, |dealt|, pairs) && IsPair(dealt, one, two) && Separation(one.hue, two.hue) < floor
    ensures IsReported(pairs, floor)
  {
    var j, k := PairStandsAt(dealt, one, two);
    EitherWayRound(one.hue, two.hue);
    hide Separation;
    var gap := if j < k then PairGap(one, two) else PairGap(two, one);
    assert gap in pairs && gap.gap < floor;
  }

  /** A list of the gaps of all pairs has one below a floor exactly when two are closer than it. */
  lemma {:induction false} PairsAreReported(dealt: seq<AreaHue>, pairs: seq<HueGap>, floor: int)
    requires ArePairs(dealt, |dealt|, pairs)
    ensures IsReported(pairs, floor) <==> TwoAreCloser(dealt, floor)
  {
    hide IsReported, ArePairs, Separation;
    if IsReported(pairs, floor) {
      ReportedIsClose(dealt, pairs, floor);
    } else if TwoAreCloser(dealt, floor) {
      var one, two :| IsPair(dealt, one, two) && Separation(one.hue, two.hue) < floor;
      CloseIsReported(dealt, pairs, floor, one, two);
    }
  }

  /** The deal check complains exactly when two of the first four dealt are too close. */
  lemma {:induction false} AssignmentIsReported(hues: seq<AreaHue>, pairs: seq<HueGap>)
    requires ArePairs(Dealt(hues), |Dealt(hues)|, pairs)
    ensures IsReported(pairs, ASSIGNMENT_FLOOR) <==> TwoAreCloser(Dealt(hues), ASSIGNMENT_FLOOR)
  {
    hide WithId, IsReported, TwoAreCloser, ArePairs;
    PairsAreReported(Dealt(hues), pairs, ASSIGNMENT_FLOOR);
  }

  /** The first of the least gaps between neighbours, named by the two pigments in the order they stand. */
  ghost predicate NamesNeighbours(byHue: seq<AreaHue>, gap: HueGap) {
    exists i :: 0 <= i < |byHue| && gap == GapAfter(byHue, i) &&
                gap.pair == byHue[i].id + "/" + byHue[After(|byHue|, i)].id &&
                forall j :: 0 <= j < i ==> gap.gap < GapAfter(byHue, j).gap
  }

  /** Two of some pigments, none of which are closer, named in the order they come. */
  ghost predicate NamesClosest(dealt: seq<AreaHue>, gap: HueGap) {
    && (exists one, two :: 0 <= one < two < |dealt| && gap.gap == Separation(dealt[one].hue, dealt[two].hue) &&
                           gap.pair == dealt[one].id + "/" + dealt[two].id)
    && forall one, two :: 0 <= one < two < |dealt| ==> gap.gap <= Separation(dealt[one].hue, dealt[two].hue)
  }

  lemma {:induction false} NeighboursAreNamed(byHue: seq<AreaHue>, i: nat)
    requires i < |byHue|
    ensures GapAfter(byHue, i).pair == byHue[i].id + "/" + byHue[After(|byHue|, i)].id
  {
    assert (i + 1) % |byHue| == After(|byHue|, i);
  }

  lemma {:induction false} TightestNamesNeighbours(hues: seq<AreaHue>)
    requires hues != []
    ensures NamesNeighbours(SortedByHue(hues), Tightest(AdjacentGaps(hues)).value)
  {
    hide Tightest, GapAfter, SortedByHue, After;
    var byHue, gaps := SortedByHue(hues), AdjacentGaps(hues);
    SortedIsByHue(hues);
    var tightest := Tightest(gaps).value;
    var i :| 0 <= i < |gaps| && gaps[i] == tightest && forall j :: 0 <= j < i ==> tightest.gap < gaps[j].gap;
    assert gaps[i] == GapAfter(byHue, i);
    assert forall j :: 0 <= j < i ==> gaps[j] == GapAfter(byHue, j);
    NeighboursAreNamed(byHue, i);
  }

  lemma {:induction false} PairIsNamed(one: AreaHue, two: AreaHue)
    ensures PairGap(one, two).pair == one.id + "/" + two.id && PairGap(one, two).gap == Separation(one.hue, two.hue)
  {
  }

  lemma {:induction false} PairStandsIn(dealt: seq<AreaHue>, pairs: seq<HueGap>, k: nat) returns (one: nat, two: nat)
    requires ArePairs(dealt, |dealt|, pairs) && k < |pairs|
    ensures one < two < |dealt| && pairs[k] == PairGap(dealt[one], dealt[two])
  {
    hide Separation;
    var pair := pairs[k];
    one, two :| 0 <= one < two < |dealt| && pair == PairGap(dealt[one], dealt[two]);
  }

  lemma {:induction false} NoPairIsCloser(dealt: seq<AreaHue>, pairs: seq<HueGap>, one: nat, two: nat)
    requires ArePairs(dealt, |dealt|, pairs) && Tightest(pairs).Some? && one < two < |dealt|
    ensures Tightest(pairs).value.gap <= Separation(dealt[one].hue, dealt[two].hue)
  {
    hide Separation, Tightest;
    assert PairGap(dealt[one], dealt[two]) in pairs;
  }

  lemma {:induction false} TightestNamesClosest(dealt: seq<AreaHue>, pairs: seq<HueGap>)
    requires ArePairs(dealt, |dealt|, pairs) && Tightest(pairs).Some?
    ensures NamesClosest(dealt, Tightest(pairs).value)
  {
    hide Tightest, Separation, PairGap, ArePairs;
    var tightest := Tightest(pairs).value;
    var i :| 0 <= i < |pairs| && pairs[i] == tightest;
    var first, second := PairStandsIn(dealt, pairs, i);
    PairIsNamed(dealt[first], dealt[second]);
    forall one, two | 0 <= one < two < |dealt|
      ensures tightest.gap <= Separation(dealt[one].hue, dealt[two].hue)
    {
      NoPairIsCloser(dealt, pairs, one, two);
    }
  }

  /** The two checks of the ramp: 19 degrees between any two pigments, and 75 between the first four dealt. */
  method CheckAreaHues(hues: seq<AreaHue>) returns (tooClose: Option<HueGap>, dealtTooClose: Option<HueGap>)
    ensures tooClose.Some? <==> |hues| == 1 || TwoAreCloser(hues, 190)
    ensures tooClose.Some? ==> NamesNeighbours(SortedByHue(hues), tooClose.value)
    ensures tooClose.Some? && |hues| >= 2 ==> IsLeastSeparation(hues, tooClose.value.gap)
    ensures dealtTooClose.Some? <==> TwoAreCloser(Dealt(hues), 750)
    ensures dealtTooClose.Some? ==> NamesClosest(Dealt(hues), dealtTooClose.value)
  {
    hide Tightest, AdjacentGaps, SortedByHue, NamesNeighbours, NamesClosest, ArePairs, Dealt, IsLeastSeparation,
      TwoAreCloser;
    var tightest := Tightest(AdjacentGaps(hues));
    SeparationIsReported(hues);
    tooClose := if tightest != None && tightest.value.gap < SEPARATION_FLOOR then tightest else None;
    if tooClose.Some? {
      SomeAreThere(hues);
      TightestNamesNeighbours(hues);
      if |hues| >= 2 {
        NeighboursAreEnough(hues, tooClose.value);
      }
    }
    var pairs := FirstFourPairs(hues);
    AssignmentIsReported(hues, pairs);
    var closestDealt := Tightest(pairs);
    dealtTooClose := if closestDealt != None && closestDealt.value.gap < ASSIGNMENT_FLOOR then closestDealt else None;
    if dealtTooClose.Some? {
      TightestNamesClosest(Dealt(hues), pairs);
    }
  }

  lemma {:induction false} SomeAreThere(hues: seq<AreaHue>)
    requires Tightest(AdjacentGaps(hues)).Some?
    ensures hues != []
  {
    SortedIsByHue(hues);
  }
}
