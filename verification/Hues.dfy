// frontend/scripts/validate-tokens/hues.ts: the separation of the Area pigments' hues, in tenths of a degree.
module Hues {
  import opened Wrappers

  const TURN := 3600
  const SEPARATION_FLOOR := 190
  const ASSIGNMENT_FLOOR := 750
  const FIRST_FOUR := ["01", "05", "08", "10"]

  /** A hue, as tenths of a degree short of a full turn. */
  type Hue = hue: int | 0 <= hue < 3600

  datatype AreaHue = AreaHue(id: string, hue: Hue)

  datatype HueGap = HueGap(pair: string, gap: int)

  // ---- From a hex ----

  type Channel = channel: int | 0 <= channel < 256

  function Max(a: int, b: int): int {
    if a < b then b else a
  }

  function Min(a: int, b: int): int {
    if a < b then a else b
  }

  function Span(red: Channel, green: Channel, blue: Channel): (span: int)
    ensures 0 <= span < 256
  {
    Max(Max(red, green), blue) - Min(Min(red, green), blue)
  }

  /** The hue of three channels, as so many tenths over their span, wrapped into one turn. */
  function HueTimesSpan(red: Channel, green: Channel, blue: Channel): int {
    var highest, span := Max(Max(red, green), blue), Span(red, green, blue);
    if highest == red then 600 * (green - blue) + if green < blue then TURN * span else 0
    else if highest == green then 600 * (blue - red) + 1200 * span
    else 600 * (red - green) + 2400 * span
  }

  /** Rounded to a tenth, it never rounds up to the full turn that would be another name for none. */
  function HueOf(red: Channel, green: Channel, blue: Channel): (hue: Hue)
    ensures hue <= TURN - 2
  {
    var span, scaled := Span(red, green, blue), HueTimesSpan(red, green, blue);
    if span == 0 then 0
    else
      HueIsShortOfATurn(red, green, blue);
      RoundedIsBelow(2 * scaled + span, 2 * span, TURN - 1);
      (2 * scaled + span) / (2 * span)
  }

  lemma {:induction false} HueIsShortOfATurn(red: Channel, green: Channel, blue: Channel)
    requires Span(red, green, blue) > 0
    ensures 0 <= HueTimesSpan(red, green, blue) <= TURN * Span(red, green, blue) - 600
  {
  }

  lemma {:induction false} RoundedIsBelow(scaled: int, unit: int, bound: int)
    requires unit > 0 && 0 <= scaled < bound * unit
    ensures 0 <= scaled / unit < bound
  {
    MultiplesInOrder(unit, bound, scaled / unit);
    assert scaled == unit * (scaled / unit) + scaled % unit;
  }

  lemma {:induction false} MultiplesInOrder(unit: int, few: int, many: int)
    requires unit > 0
    ensures few <= many ==> few * unit <= unit * many
  {
    if few <= many {
      assert few * unit == unit * few;
      assert unit * (many - few) >= 0;
      assert unit * many == unit * few + unit * (many - few);
    }
  }

  // ---- Around the circle ----

  /** The shorter way round between two hues. */
  function Separation(one: Hue, two: Hue): int {
    var direct := (if one < two then two - one else one - two) % TURN;
    Min(direct, TURN - direct)
  }

  function InsertByHue(pigment: AreaHue, sorted: seq<AreaHue>): seq<AreaHue> {
    if sorted == [] then [pigment]
    else if pigment.hue <= sorted[0].hue then [pigment] + sorted
    else [sorted[0]] + InsertByHue(pigment, sorted[1..])
  }

  /** In hue order, and where hues are equal, in the order they came. */
  function SortedByHue(hues: seq<AreaHue>): seq<AreaHue> {
    if hues == [] then [] else InsertByHue(hues[0], SortedByHue(hues[1..]))
  }

  function GapAfter(byHue: seq<AreaHue>, index: nat): HueGap
    requires index < |byHue|
  {
    var pigment, next := byHue[index], byHue[(index + 1) % |byHue|];
    HueGap(pigment.id + "/" + next.id, (next.hue - pigment.hue + TURN) % TURN)
  }

  /** For each pigment by rising hue, how far on the next one is, the last one's next being the first. */
  function AdjacentGaps(hues: seq<AreaHue>): seq<HueGap> {
    var byHue := SortedByHue(hues);
    seq(|byHue|, index requires 0 <= index < |byHue| => GapAfter(byHue, index))
  }

  /** The first of the least gaps. */
  function Tightest(gaps: seq<HueGap>): (tightest: Option<HueGap>)
    ensures tightest.None? <==> gaps == []
    ensures tightest.Some? ==> exists i :: 0 <= i < |gaps| && gaps[i] == tightest.value &&
                                           forall j :: 0 <= j < i ==> tightest.value.gap < gaps[j].gap
    ensures tightest.Some? ==> forall i :: 0 <= i < |gaps| ==> tightest.value.gap <= gaps[i].gap
  {
    if gaps == [] then None
    else
      match Tightest(gaps[..|gaps| - 1])
      case None => Some(gaps[|gaps| - 1])
      case Some(tightest) => Some(if gaps[|gaps| - 1].gap < tightest.gap then gaps[|gaps| - 1] else tightest)
  }

  // ---- The first four dealt ----

  /** The pigments with an id, in the order they came. */
  function WithId(hues: seq<AreaHue>, id: string): seq<AreaHue> {
    if hues == [] then []
    else (if hues[0].id == id then [hues[0]] else []) + WithId(hues[1..], id)
  }

  function Dealt(hues: seq<AreaHue>): seq<AreaHue> {
    WithId(hues, FIRST_FOUR[0]) + WithId(hues, FIRST_FOUR[1])
    + WithId(hues, FIRST_FOUR[2]) + WithId(hues, FIRST_FOUR[3])
  }

  function PairGap(one: AreaHue, two: AreaHue): HueGap {
    HueGap(one.id + "/" + two.id, Separation(one.hue, two.hue))
  }

  /** Every pair has its gap in the list, and every gap in the list is some pair's. */
  ghost predicate ArePairs(dealt: seq<AreaHue>, upTo: nat, pairs: seq<HueGap>) {
    && (forall one, two :: 0 <= one < upTo && one < two < |dealt| ==> PairGap(dealt[one], dealt[two]) in pairs)
    && forall k :: 0 <= k < |pairs| ==>
         exists one, two :: 0 <= one < two < |dealt| && pairs[k] == PairGap(dealt[one], dealt[two])
  }

  /** The gaps of one pigment and the pigments after it, as far as `upTo`. */
  function RowOf(dealt: seq<AreaHue>, one: nat, upTo: nat): seq<HueGap>
    requires one < upTo <= |dealt|
  {
    if upTo == one + 1 then [] else RowOf(dealt, one, upTo - 1) + [PairGap(dealt[one], dealt[upTo - 1])]
  }

  /** The gaps of the first pigments, each with all those after it. */
  function RowsOf(dealt: seq<AreaHue>, upTo: nat): seq<HueGap>
    requires upTo <= |dealt|
  {
    if upTo == 0 then [] else RowsOf(dealt, upTo - 1) + RowOf(dealt, upTo - 1, |dealt|)
  }

  /** The gaps of one pigment and those after it, put after the gaps of those before it. */
  method PairsFrom(dealt: seq<AreaHue>, one: nat, before: seq<HueGap>) returns (pairs: seq<HueGap>)
    requires one < |dealt| && ArePairs(dealt, one, before) && before == RowsOf(dealt, one)
    ensures ArePairs(dealt, one + 1, pairs) && pairs == RowsOf(dealt, one + 1)
  {
    hide PairGap, Separation, ArePairs, RowsOf, RowOf;
    RowStarts(dealt, one);
    pairs := before;
    for two := one + 1 to |dealt|
      invariant ArePairs(dealt, one, pairs)
      invariant pairs == before + RowOf(dealt, one, two)
      invariant forall k :: one < k < two ==> PairGap(dealt[one], dealt[k]) in pairs
    {
      OneMorePair(dealt, one, two, pairs);
      RowGoesOn(dealt, one, two, before);
      pairs := pairs + [PairGap(dealt[one], dealt[two])];
    }
    OneMoreRow(dealt, one, pairs);
    RowsGoOn(dealt, one);
  }

  lemma {:induction false} RowStarts(dealt: seq<AreaHue>, one: nat)
    requires one < |dealt|
    ensures RowOf(dealt, one, one + 1) == []
  {
  }

  lemma {:induction false} RowGoesOn(dealt: seq<AreaHue>, one: nat, two: nat, before: seq<HueGap>)
    requires one < two < |dealt|
    ensures before + RowOf(dealt, one, two) + [PairGap(dealt[one], dealt[two])] == before + RowOf(dealt, one, two + 1)
  {
    hide PairGap;
  }

  lemma {:induction false} RowsGoOn(dealt: seq<AreaHue>, one: nat)
    requires one < |dealt|
    ensures RowsOf(dealt, one + 1) == RowsOf(dealt, one) + RowOf(dealt, one, |dealt|)
  {
    hide RowOf;
  }

  /** Every pair of the first four dealt, the first one's pairs before the second one's. */
  method FirstFourPairs(hues: seq<AreaHue>) returns (pairs: seq<HueGap>)
    ensures ArePairs(Dealt(hues), |Dealt(hues)|, pairs) && pairs == RowsOf(Dealt(hues), |Dealt(hues)|)
  {
    var dealt := Dealt(hues);
    pairs := [];
    for one := 0 to |dealt|
      invariant ArePairs(dealt, one, pairs) && pairs == RowsOf(dealt, one)
    {
      pairs := PairsFrom(dealt, one, pairs);
    }
  }

  lemma {:induction false} OneMoreRow(dealt: seq<AreaHue>, one: nat, pairs: seq<HueGap>)
    requires one < |dealt| && ArePairs(dealt, one, pairs)
    requires forall k :: one < k < |dealt| ==> PairGap(dealt[one], dealt[k]) in pairs
    ensures ArePairs(dealt, one + 1, pairs)
  {
    hide PairGap;
  }

  lemma {:induction false} OneMorePair(dealt: seq<AreaHue>, one: nat, two: nat, pairs: seq<HueGap>)
    requires one < two < |dealt| && ArePairs(dealt, one, pairs)
    ensures ArePairs(dealt, one, pairs + [PairGap(dealt[one], dealt[two])])
  {
    hide PairGap;
    var longer := pairs + [PairGap(dealt[one], dealt[two])];
    assert forall k :: 0 <= k < |pairs| ==> longer[k] == pairs[k];
    assert longer[|pairs|] == PairGap(dealt[one], dealt[two]);
  }
}
