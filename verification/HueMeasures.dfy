// What the hue figures are, each by a definition of its own: the hue of any colour, the way round between two, the
// order of the ramp, and which pigments are dealt first.
module HueMeasures {
  import opened Wrappers
  import opened Hues
  import opened HueLaws

  /** Tenths of a degree, given as so many parts of a channel span, rounded half up. */
  predicate IsTenths(hue: Hue, tenths: int, span: int) {
    2 * tenths - span < 2 * span * hue <= 2 * tenths + span
  }

  lemma {:induction false} RoundedIs(scaled: int, span: int)
    requires span > 0
    ensures 2 * scaled - span < 2 * span * ((2 * scaled + span) / (2 * span)) <= 2 * scaled + span
  {
    var whole, unit := 2 * scaled + span, 2 * span;
    assert whole == unit * (whole / unit) + whole % unit;
  }

  /** The hue of every colour that has one, by which channels are highest, middle and lowest: a sixth of a turn each way
      from red, from green and from blue, by how far the middle channel stands above the lowest. */
  lemma {:induction false} HueBySixths(high: Channel, middle: Channel, low: Channel)
    requires low <= middle <= high && low < high
    ensures var span, part := high - low, 600 * (middle - low);
            && IsTenths(HueOf(high, middle, low), part, span)
            && IsTenths(HueOf(middle, high, low), 1200 * span - part, span)
            && IsTenths(HueOf(low, high, middle), 1200 * span + part, span)
            && IsTenths(HueOf(low, middle, high), 2400 * span - part, span)
            && IsTenths(HueOf(middle, low, high), 2400 * span + part, span)
            && (low < middle ==> IsTenths(HueOf(high, low, middle), 3600 * span - part, span))
    ensures HueOf(high, high, high) == 0
  {
    var span, part := high - low, 600 * (middle - low);
    RoundedIs(part, span);
    RoundedIs(1200 * span - part, span);
    RoundedIs(1200 * span + part, span);
    RoundedIs(2400 * span - part, span);
    RoundedIs(2400 * span + part, span);
    RoundedIs(3600 * span - part, span);
    ScaledAre(high, middle, low);
    hide HueTimesSpan, Span;
  }

  lemma {:induction false} ScaledAre(high: Channel, middle: Channel, low: Channel)
    requires low <= middle <= high && low < high
    ensures var span, part := high - low, 600 * (middle - low);
            && HueTimesSpan(high, middle, low) == part && HueTimesSpan(middle, high, low) == 1200 * span - part
            && HueTimesSpan(low, high, middle) == 1200 * span + part
            && HueTimesSpan(low, middle, high) == 2400 * span - part
            && HueTimesSpan(middle, low, high) == 2400 * span + part
            && (low < middle ==> HueTimesSpan(high, low, middle) == 3600 * span - part)
    ensures Span(high, middle, low) == Span(middle, high, low) == Span(low, high, middle) == high - low
    ensures Span(low, middle, high) == Span(middle, low, high) == Span(high, low, middle) == high - low
    ensures Span(high, high, high) == 0
  {
  }

  /** The way round between two hues leads from one of them to the other and is never more than half a turn. */
  lemma {:induction false} SeparationIsTheWayRound(one: Hue, two: Hue)
    ensures 0 <= Separation(one, two) <= 1800
    ensures (one + Separation(one, two)) % 3600 == two || (two + Separation(one, two)) % 3600 == one
  {
  }

  // ---- Order ----

  function WithHue(hues: seq<AreaHue>, hue: Hue): seq<AreaHue> {
    if hues == [] then [] else (if hues[0].hue == hue then [hues[0]] else []) + WithHue(hues[1..], hue)
  }

  lemma {:induction false} InsertedWithHue(pigment: AreaHue, sorted: seq<AreaHue>, hue: Hue)
    ensures WithHue(InsertByHue(pigment, sorted), hue) == WithHue([pigment] + sorted, hue)
    decreases |sorted|
  {
    assert ([pigment] + sorted)[1..] == sorted;
    if sorted != [] && pigment.hue > sorted[0].hue {
      InsertedWithHue(pigment, sorted[1..], hue);
      assert ([pigment] + sorted[1..])[1..] == sorted[1..];
    }
  }

  /** The ramp in order: by hue, and pigments of one hue as they came. */
  lemma {:induction false} SortingIsStable(hues: seq<AreaHue>, hue: Hue)
    ensures IsByHue(SortedByHue(hues)) && WithHue(SortedByHue(hues), hue) == WithHue(hues, hue)
    decreases |hues|
  {
    SortedIsByHue(hues);
    if hues != [] {
      SortingIsStable(hues[1..], hue);
      InsertedWithHue(hues[0], SortedByHue(hues[1..]), hue);
      assert ([hues[0]] + SortedByHue(hues[1..]))[1..] == SortedByHue(hues[1..]);
    }
  }

  // ---- The first four dealt ----

  /** Where an id stands among the first four, counted from 1; 0 if it is none of them. */
  function DealtAt(id: string): nat {
    if id == "01" then 1 else if id == "05" then 2 else if id == "08" then 3 else if id == "10" then 4 else 0
  }

  lemma {:induction false} WithIdCounts(hues: seq<AreaHue>, id: string, pigment: AreaHue)
    ensures multiset(WithId(hues, id))[pigment] == if pigment.id == id then multiset(hues)[pigment] else 0
  {
    if hues != [] {
      WithIdCounts(hues[1..], id, pigment);
      assert hues == [hues[0]] + hues[1..];
    }
  }

  lemma {:induction false} WithIdHas(hues: seq<AreaHue>, id: string)
    ensures forall k :: 0 <= k < |WithId(hues, id)| ==> WithId(hues, id)[k].id == id
  {
    if hues != [] {
      WithIdHas(hues[1..], id);
    }
  }

  /** The first four dealt are the pigments 01, 05, 08 and 10, each as often as the ramp has it, in that order. */
  lemma {:induction false} DealtAre(hues: seq<AreaHue>, pigment: AreaHue)
    ensures multiset(Dealt(hues))[pigment] == if DealtAt(pigment.id) > 0 then multiset(hues)[pigment] else 0
    ensures AreDealtInOrder(Dealt(hues))
  {
    hide WithId, AreDealtInOrder;
    var a, b, c, d := WithId(hues, "01"), WithId(hues, "05"), WithId(hues, "08"), WithId(hues, "10");
    WithIdHas(hues, "01");
    WithIdHas(hues, "05");
    WithIdHas(hues, "08");
    WithIdHas(hues, "10");
    FourInOrder(a, b, c, d);
    WithIdCounts(hues, "01", pigment);
    WithIdCounts(hues, "05", pigment);
    WithIdCounts(hues, "08", pigment);
    WithIdCounts(hues, "10", pigment);
    CountedInFour(a, b, c, d, pigment);
  }

  predicate AreDealtInOrder(dealt: seq<AreaHue>) {
    forall j, k :: 0 <= j < k < |dealt| ==> DealtAt(dealt[j].id) <= DealtAt(dealt[k].id)
  }

  lemma {:induction false} CountedInFour(a: seq<AreaHue>, b: seq<AreaHue>, c: seq<AreaHue>, d: seq<AreaHue>,
                                         pigment: AreaHue)
    ensures multiset(a + b + c + d)[pigment] ==
            multiset(a)[pigment] + multiset(b)[pigment] + multiset(c)[pigment] + multiset(d)[pigment]
  {
  }

  lemma {:induction false} FourInOrder(a: seq<AreaHue>, b: seq<AreaHue>, c: seq<AreaHue>, d: seq<AreaHue>)
    requires forall k :: 0 <= k < |a| ==> DealtAt(a[k].id) == 1
    requires forall k :: 0 <= k < |b| ==> DealtAt(b[k].id) == 2
    requires forall k :: 0 <= k < |c| ==> DealtAt(c[k].id) == 3
    requires forall k :: 0 <= k < |d| ==> DealtAt(d[k].id) == 4
    ensures AreDealtInOrder(a + b + c + d)
  {
    hide DealtAt;
  }
}
