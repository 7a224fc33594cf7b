// Error diffusion neither runs away nor loses tone: a bound on every cell of the buffer at every step of the scan, and
// an account of where every bit of tone went.
module DitherLaws {
  import opened PngBytes
  import opened Raster
  import opened Png
  import opened Dither

  // ---- The tones the scan starts from ----

  function Clamped(tone: real): real {
    if tone < 0.0 then 0.0 else if tone > 255.0 then 255.0 else tone
  }

  lemma {:induction false} SteepenedIs(gray: Byte, contrast: real, stretched: real)
    requires stretched == (gray as real - 128.0) * contrast
    ensures Steepened(gray, contrast) == Clamped(128.0 + stretched)
  {
  }

  /** Steepening turns about the midpoint: it keeps the order of tones and the midpoint, leaves tones alone at a
      contrast of one, and moves none towards the midpoint at more. */
  lemma {:induction false} SteepeningKeepsOrder(gray: Byte, lighter: Byte, contrast: real)
    requires contrast >= 0.0 && gray <= lighter
    ensures Steepened(gray, contrast) <= Steepened(lighter, contrast)
    ensures Steepened(gray, 1.0) == gray as real && Steepened(128, contrast) == MIDPOINT
    ensures contrast >= 1.0 ==> if gray < 128 then Steepened(gray, contrast) <= gray as real
                                else Steepened(gray, contrast) >= gray as real
  {
    hide Steepened;
    var one, other := gray as real - MIDPOINT, lighter as real - MIDPOINT;
    var stretched, further := one * contrast, other * contrast;
    SteepenedIs(gray, contrast, stretched);
    SteepenedIs(lighter, contrast, further);
    SteepenedIs(gray, 1.0, one);
    SteepenedIs(128, contrast, 0.0);
    StretchesInOrder(one, other, contrast, stretched, further);
  }

  lemma {:induction false} StretchesInOrder(one: real, other: real, contrast: real, stretched: real, further: real)
    requires contrast >= 0.0 && one <= other && stretched == one * contrast && further == other * contrast
    ensures stretched <= further
    ensures contrast >= 1.0 ==> if one < 0.0 then stretched <= one else stretched >= one
  {
    assert (other - one) * contrast >= 0.0;
    if contrast >= 1.0 {
      assert (if one < 0.0 then -one else one) * (contrast - 1.0) >= 0.0;
    }
  }

  // ---- How much of its neighbours' error a cell has received, in sixteenths ----

  /** Whatever is to the left counts once it is drawn, and so do the three above; never more than sixteen together. */
  function Received(width: nat, row: nat, column: nat, cell: nat): (sixteenths: real)
    requires column <= width
    ensures 0.0 <= sixteenths <= 16.0
  {
    var start := Area(width, row);
    if start <= cell < start + width then
      var at := cell - start;
      (if at == column > 0 then 7.0 else 0.0)
      + (if row == 0 then 0.0 else 5.0 + (if at + 1 < width then 3.0 else 0.0) + (if at > 0 then 1.0 else 0.0))
    else if start + width <= cell < start + 2 * width then
      var at := cell - start - width;
      (if at + 1 < column then 3.0 else 0.0) + (if at < column then 5.0 else 0.0)
      + (if 0 < at <= column then 1.0 else 0.0)
    else 0.0
  }

  /** A tone of 0 to 255 plus its share of remainders in [-127, 128). */
  predicate Within(value: real, sixteenths: real) {
    && -127.0 * sixteenths / 16.0 <= value
    && (if sixteenths == 0.0 then value <= 255.0 else value < 255.0 + 8.0 * sixteenths)
  }

  ghost predicate BufferIsBounded(error: seq<real>, width: nat, row: nat, column: nat)
    requires column <= width
  {
    forall cell :: Area(width, row) + column <= cell < |error| ==>
      Within(error[cell], Received(width, row, column, cell))
  }

  lemma {:induction false} RemainderIsSmall(wanted: real, sixteenths: real)
    requires Within(wanted, sixteenths) && 0.0 <= sixteenths <= 16.0
    ensures -127.0 <= wanted < 383.0
    ensures -127.0 <= Remainder(wanted) < 128.0
  {
  }

  /** What one step adds to a later cell, in sixteenths of its remainder. */
  function Share(index: nat, width: nat, firstColumn: bool, lastColumn: bool, lastRow: bool, cell: nat): real {
    if !lastColumn && cell == index + 1 then 7.0
    else if lastRow then 0.0
    else if !firstColumn && cell + 1 == index + width then 3.0
    else if cell == index + width then 5.0
    else if !lastColumn && cell == index + width + 1 then 1.0
    else 0.0
  }

  lemma {:induction false} DiffusedAdds(error: seq<real>, index: nat, width: nat, remainder: real,
                     firstColumn: bool, lastColumn: bool, lastRow: bool, cell: nat)
    requires Fits(|error|, index, width, lastColumn, lastRow) && index < cell < |error|
    requires width == 1 ==> firstColumn && lastColumn
    requires width == 2 ==> firstColumn || lastColumn
    ensures Diffused(error, index, width, remainder, firstColumn, lastColumn, lastRow)[cell] ==
            error[cell] + remainder * Share(index, width, firstColumn, lastColumn, lastRow, cell) / 16.0
  {
    var share := Share(index, width, firstColumn, lastColumn, lastRow, cell);
    if share == 0.0 {
      assert remainder * share / 16.0 == 0.0;
    }
  }

  lemma {:induction false} MoreReceived(value: real, sixteenths: real, remainder: real, share: real)
    requires Within(value, sixteenths) && 0.0 <= sixteenths && -127.0 <= remainder < 128.0
    requires share in {0.0, 1.0, 3.0, 5.0, 7.0}
    ensures Within(value + remainder * share / 16.0, sixteenths + share)
  {
    if share == 0.0 {
    } else if share == 1.0 {
    } else if share == 3.0 {
    } else if share == 5.0 {
    } else {
      assert share == 7.0;
    }
  }

  lemma {:induction false} ShareIsReceived(width: nat, height: nat, row: nat, column: nat, cell: nat)
    requires InScan(width, height, row, column)
    requires Area(width, row) + column < cell < Area(width, height)
    ensures Received(width, row, column + 1, cell) == Received(width, row, column, cell)
              + Share(Area(width, row) + column, width, column == 0, column + 1 == width, row + 1 == height, cell)
  {
    InBuffer(width, height, row, column);
    if row + 1 == height {
      assert cell < Area(width, row) + width;
    }
  }

  lemma {:induction false} NextRowReceived(width: nat, row: nat, cell: nat)
    requires Area(width, row + 1) <= cell
    ensures Received(width, row + 1, 0, cell) == Received(width, row, width, cell)
  {
  }

  /** At every step of the scan, every cell still to be drawn is bounded by what it has received. */
  lemma {:induction false} BufferStaysBounded(tones: seq<real>, width: nat, height: nat, row: nat, column: nat)
    requires |tones| == Area(width, height) && row <= height && column <= width && (row == height ==> column == 0)
    requires forall i :: 0 <= i < |tones| ==> 0.0 <= tones[i] <= 255.0
    ensures BufferIsBounded(Scan(tones, width, height, row, column).error, width, row, column)
    decreases row, column
  {
    hide Step, Received;
    if column > 0 {
      BufferStaysBounded(tones, width, height, row, column - 1);
      StepStaysBounded(Scan(tones, width, height, row, column - 1), width, height, row, column - 1);
    } else if row > 0 {
      BufferStaysBounded(tones, width, height, row - 1, width);
      var error := Scan(tones, width, height, row, 0).error;
      forall cell | Area(width, row) <= cell < |error| ensures Within(error[cell], Received(width, row, 0, cell)) {
        NextRowReceived(width, row - 1, cell);
      }
    }
  }

  lemma {:induction false} StepStaysBounded(drawing: Drawing, width: nat, height: nat, row: nat, column: nat)
    requires InScan(width, height, row, column) && |drawing.error| == Area(width, height)
    requires BufferIsBounded(drawing.error, width, row, column)
    ensures BufferIsBounded(Step(drawing, width, height, row, column).error, width, row, column + 1)
  {
    NeighboursFit(width, height, row, column);
    var index := Area(width, row) + column;
    var next := Step(drawing, width, height, row, column).error;
    var remainder := Remainder(drawing.error[index]);
    RemainderIsSmall(drawing.error[index], Received(width, row, column, index));
    forall cell | index + 1 <= cell < |next| ensures Within(next[cell], Received(width, row, column + 1, cell)) {
      DiffusedAdds(drawing.error, index, width, remainder, column == 0, column + 1 == width, row + 1 == height, cell);
      ShareIsReceived(width, height, row, column, cell);
      MoreReceived(drawing.error[cell], Received(width, row, column, cell), remainder,
                   Share(index, width, column == 0, column + 1 == width, row + 1 == height, cell));
    }
  }

  /** At every step, every undrawn cell lies in [-127, 383) and the remainder pushed on lies in [-127, 128). */
  lemma {:induction false} DiffusionIsBounded(gray: seq<Byte>, contrast: real, width: nat, height: nat, row: nat,
                                              column: nat)
    requires |gray| == Area(width, height) && InScan(width, height, row, column)
    ensures var error := Scan(Tones(gray, contrast), width, height, row, column).error;
            var index := Area(width, row) + column;
            && index < |error|
            && (forall cell :: index <= cell < |error| ==> -127.0 <= error[cell] < 383.0)
            && -127.0 <= Remainder(error[index]) < 128.0
  {
    var error := Scan(Tones(gray, contrast), width, height, row, column).error;
    var index := Area(width, row) + column;
    InBuffer(width, height, row, column);
    BufferStaysBounded(Tones(gray, contrast), width, height, row, column);
    forall cell | index <= cell < |error|
      ensures -127.0 <= error[cell] < 383.0 && -127.0 <= Remainder(error[cell]) < 128.0
    {
      RemainderIsSmall(error[cell], Received(width, row, column, cell));
    }
  }

  // ---- Where the tone goes ----

  function SumFrom(s: seq<real>, from: nat): real
    requires from <= |s|
    decreases |s| - from
  {
    if from == |s| then 0.0 else s[from] + SumFrom(s, from + 1)
  }

  function Papers(ink: seq<Byte>): real {
    if ink == [] then 0.0 else Papers(ink[..|ink| - 1]) + (if ink[|ink| - 1] == 0 then 1.0 else 0.0)
  }

  /** What of a pixel's remainder is not passed on, in sixteenths: the neighbours it lacks at the edges. */
  function LostShare(firstColumn: bool, lastColumn: bool, lastRow: bool): real {
    (if lastColumn then 7.0 else 0.0)
    + (if lastRow then 9.0 else (if firstColumn then 3.0 else 0.0) + (if lastColumn then 1.0 else 0.0))
  }

  /** What of a wanted tone is neither drawn nor passed on. */
  function Fallen(wanted: real, firstColumn: bool, lastColumn: bool, lastRow: bool): real {
    var remainder := Remainder(wanted);
    (if lastColumn then remainder * 7.0 / 16.0 else 0.0)
    + (if lastRow then remainder * 9.0 / 16.0
       else (if firstColumn then remainder * 3.0 / 16.0 else 0.0)
            + (if lastColumn then remainder * 1.0 / 16.0 else 0.0))
  }

  /** The tone that has fallen off the edges by a place in the scan. */
  function Lost(tones: seq<real>, width: nat, height: nat, row: nat, column: nat): real
    requires |tones| == Area(width, height) && row <= height && column <= width && (row == height ==> column == 0)
    decreases row, column
  {
    if column > 0 then
      InBuffer(width, height, row, column - 1);
      var wanted := Scan(tones, width, height, row, column - 1).error[Area(width, row) + column - 1];
      Lost(tones, width, height, row, column - 1)
      + Fallen(wanted, column == 1, column == width, row + 1 == height)
    else if row > 0 then Lost(tones, width, height, row - 1, width)
    else 0.0
  }

  lemma {:induction false} AddRaisesTheSum(error: seq<real>, index: nat, amount: real, from: nat, raised: seq<real>)
    requires from <= index < |error| && raised == Add(error, index, amount)
    ensures SumFrom(raised, from) == SumFrom(error, from) + amount
    decreases |error| - from
  {
    if from == index {
      SameTail(error, raised, from + 1);
    } else {
      AddRaisesTheSum(error, index, amount, from + 1, raised);
    }
  }

  lemma {:induction false} SameTail(a: seq<real>, b: seq<real>, from: nat)
    requires |a| == |b| && from <= |a| && forall i :: from <= i < |a| ==> a[i] == b[i]
    ensures SumFrom(a, from) == SumFrom(b, from)
    decreases |a| - from
  {
    if from < |a| {
      SameTail(a, b, from + 1);
    }
  }

  function PassedRight(remainder: real, lastColumn: bool): real {
    if lastColumn then 0.0 else remainder * 7.0 / 16.0
  }

  function PassedBelow(remainder: real, firstColumn: bool, lastColumn: bool): real {
    remainder * 5.0 / 16.0 + (if firstColumn then 0.0 else remainder * 3.0 / 16.0)
    + (if lastColumn then 0.0 else remainder * 1.0 / 16.0)
  }

  /** Sixteen sixteenths of a remainder are passed on or lost. */
  lemma {:induction false} PassedOrFallen(wanted: real, firstColumn: bool, lastColumn: bool, lastRow: bool)
    ensures PassedRight(Remainder(wanted), lastColumn)
            + (if lastRow then 0.0 else PassedBelow(Remainder(wanted), firstColumn, lastColumn))
            + Fallen(wanted, firstColumn, lastColumn, lastRow) == Remainder(wanted)
  {
  }

  lemma {:induction false} DiffusedPassesOn(error: seq<real>, index: nat, width: nat, remainder: real,
                         firstColumn: bool, lastColumn: bool, lastRow: bool)
    requires Fits(|error|, index, width, lastColumn, lastRow) && (width == 1 ==> firstColumn)
    ensures SumFrom(Diffused(error, index, width, remainder, firstColumn, lastColumn, lastRow), index + 1) ==
            SumFrom(error, index + 1) + PassedRight(remainder, lastColumn)
            + (if lastRow then 0.0 else PassedBelow(remainder, firstColumn, lastColumn))
  {
    var all := Diffused(error, index, width, remainder, firstColumn, lastColumn, lastRow);
    if lastColumn {
      if !lastRow {
        BelowPassesOn(error, index, width, remainder, firstColumn, lastColumn, all);
      }
    } else {
      var right := Add(error, index + 1, remainder * 7.0 / 16.0);
      AddRaisesTheSum(error, index + 1, remainder * 7.0 / 16.0, index + 1, right);
      if !lastRow {
        BelowPassesOn(right, index, width, remainder, firstColumn, lastColumn, all);
      }
    }
  }

  lemma {:induction false} BelowPassesOn(error: seq<real>, index: nat, width: nat, remainder: real,
                                         firstColumn: bool, lastColumn: bool,
                      all: seq<real>)
    requires Fits(|error|, index, width, lastColumn, false) && (width == 1 ==> firstColumn)
    requires all == DiffusedBelow(error, index, width, remainder, firstColumn, lastColumn)
    ensures SumFrom(all, index + 1) == SumFrom(error, index + 1) + PassedBelow(remainder, firstColumn, lastColumn)
  {
    var belowLeft := if firstColumn then error else Add(error, index + width - 1, remainder * 3.0 / 16.0);
    if !firstColumn {
      AddRaisesTheSum(error, index + width - 1, remainder * 3.0 / 16.0, index + 1, belowLeft);
    }
    if lastColumn {
      AddRaisesTheSum(belowLeft, index + width, remainder * 5.0 / 16.0, index + 1, all);
    } else {
      var below := Add(belowLeft, index + width, remainder * 5.0 / 16.0);
      AddRaisesTheSum(belowLeft, index + width, remainder * 5.0 / 16.0, index + 1, below);
      AddRaisesTheSum(below, index + width + 1, remainder * 1.0 / 16.0, index + 1, all);
    }
  }

  /** The source's tone is the paper drawn, what is in the buffer from the next pixel on, and what fell off the edges.
      */
  ghost predicate Accounts(tones: seq<real>, drawing: Drawing, lost: real) {
    && |drawing.ink| <= |drawing.error|
    && SumFrom(tones, 0) == 255.0 * Papers(drawing.ink) + SumFrom(drawing.error, |drawing.ink|) + lost
  }

  /** At every step the account balances. */
  lemma {:induction false} ToneIsConserved(tones: seq<real>, width: nat, height: nat, row: nat, column: nat)
    requires |tones| == Area(width, height) && row <= height && column <= width && (row == height ==> column == 0)
    ensures Accounts(tones, Scan(tones, width, height, row, column), Lost(tones, width, height, row, column))
    decreases row, column
  {
    if column > 0 {
      ToneIsConserved(tones, width, height, row, column - 1);
      NextColumnConserves(tones, width, height, row, column - 1);
    } else if row > 0 {
      ToneIsConserved(tones, width, height, row - 1, width);
      assert Scan(tones, width, height, row, 0) == Scan(tones, width, height, row - 1, width);
      assert Lost(tones, width, height, row, 0) == Lost(tones, width, height, row - 1, width);
    } else {
      assert Scan(tones, width, height, 0, 0) == Drawing(tones, []);
    }
  }

  lemma {:induction false} NextColumnConserves(tones: seq<real>, width: nat, height: nat, row: nat, column: nat)
    requires |tones| == Area(width, height) && InScan(width, height, row, column)
    requires Accounts(tones, Scan(tones, width, height, row, column), Lost(tones, width, height, row, column))
    ensures Accounts(tones, Scan(tones, width, height, row, column + 1), Lost(tones, width, height, row, column + 1))
  {
    InBuffer(width, height, row, column);
    StepConserves(tones, Scan(tones, width, height, row, column), width, height, row, column,
                  Lost(tones, width, height, row, column), Scan(tones, width, height, row, column + 1),
                  Lost(tones, width, height, row, column + 1));
  }

  lemma {:induction false} StepConserves(tones: seq<real>, drawing: Drawing, width: nat, height: nat, row: nat,
                                         column: nat, lost: real,
                      next: Drawing, more: real)
    requires InScan(width, height, row, column) && |drawing.error| == Area(width, height)
    requires |drawing.ink| == Area(width, row) + column < |drawing.error|
    requires Accounts(tones, drawing, lost) && next == Step(drawing, width, height, row, column)
    requires more == lost + Fallen(drawing.error[|drawing.ink|], column == 0, column + 1 == width, row + 1 == height)
    ensures Accounts(tones, next, more)
  {
    NeighboursFit(width, height, row, column);
    var index := |drawing.ink|;
    var wanted := drawing.error[index];
    DiffusedPassesOn(drawing.error, index, width, Remainder(wanted), column == 0, column + 1 == width,
                     row + 1 == height);
    PassedOrFallen(wanted, column == 0, column + 1 == width, row + 1 == height);
    assert SumFrom(drawing.error, index) == wanted + SumFrom(drawing.error, index + 1);
    assert next.ink[..index] == drawing.ink;
    assert 255.0 * Papers(next.ink) == 255.0 * Papers(drawing.ink) + Drawn(wanted);
  }

  // ---- How much can fall off ----

  function LostShares(width: nat, height: nat, row: nat, column: nat): real
    requires row <= height && column <= width && (row == height ==> column == 0)
    decreases row, column
  {
    if column > 0 then
      LostShares(width, height, row, column - 1) + LostShare(column == 1, column == width, row + 1 == height)
    else if row > 0 then LostShares(width, height, row - 1, width)
    else 0.0
  }

  predicate IsSmall(lost: real, shares: real) {
    -8.0 * shares <= lost <= 8.0 * shares
  }

  lemma {:induction false} SmallAdds(lost: real, shares: real, more: real, share: real)
    requires IsSmall(lost, shares) && IsSmall(more, share)
    ensures IsSmall(lost + more, shares + share)
  {
  }

  lemma {:induction false} LostIsSmall(tones: seq<real>, width: nat, height: nat, row: nat, column: nat)
    requires |tones| == Area(width, height) && row <= height && column <= width && (row == height ==> column == 0)
    requires forall i :: 0 <= i < |tones| ==> 0.0 <= tones[i] <= 255.0
    ensures IsSmall(Lost(tones, width, height, row, column), LostShares(width, height, row, column))
    decreases row, column
  {
    hide Scan, Fallen, LostShare, Area;
    if column > 0 {
      InBuffer(width, height, row, column - 1);
      LostIsSmall(tones, width, height, row, column - 1);
      var wanted := Scan(tones, width, height, row, column - 1).error[Area(width, row) + column - 1];
      RemaindersAreSmall(tones, width, height, row, column - 1);
      FallenIsSmall(wanted, column == 1, column == width, row + 1 == height);
      SmallAdds(Lost(tones, width, height, row, column - 1), LostShares(width, height, row, column - 1),
                Fallen(wanted, column == 1, column == width, row + 1 == height),
                LostShare(column == 1, column == width, row + 1 == height));
    } else if row > 0 {
      LostIsSmall(tones, width, height, row - 1, width);
    }
  }

  lemma {:induction false} RemaindersAreSmall(tones: seq<real>, width: nat, height: nat, row: nat, column: nat)
    requires |tones| == Area(width, height) && InScan(width, height, row, column)
    requires forall i :: 0 <= i < |tones| ==> 0.0 <= tones[i] <= 255.0
    ensures Area(width, row) + column < |tones|
    ensures -127.0 <= Remainder(Scan(tones, width, height, row, column).error[Area(width, row) + column]) < 128.0
  {
    InBuffer(width, height, row, column);
    BufferStaysBounded(tones, width, height, row, column);
    var index := Area(width, row) + column;
    RemainderIsSmall(Scan(tones, width, height, row, column).error[index], Received(width, row, column, index));
  }

  lemma {:induction false} FallenIsSmall(wanted: real, firstColumn: bool, lastColumn: bool, lastRow: bool)
    requires -127.0 <= Remainder(wanted) < 128.0
    ensures IsSmall(Fallen(wanted, firstColumn, lastColumn, lastRow), LostShare(firstColumn, lastColumn, lastRow))
  {
  }

  /** Eleven sixteenths a row fall off the sides, nine a column off the foot, and sixteen at the last corner. */
  lemma {:induction false} LostSharesAre(width: nat, height: nat, row: nat, column: nat)
    requires row < height && column <= width && width > 0
    ensures LostShares(width, height, row, column) ==
            11.0 * row as real
            + if row + 1 < height then (if column == 0 then 0.0 else if column < width then 3.0 else 11.0)
              else (if column < width then 9.0 * column as real else 9.0 * (width - 1) as real + 16.0)
    decreases row, column
  {
    if column > 0 {
      LostSharesAre(width, height, row, column - 1);
    } else if row > 0 {
      LostSharesAre(width, height, row - 1, width);
    }
  }

  /** However large the plate, the tone it carries differs from its source's only by what fell off its edges: by less
      than 128 for each row and column. */
  lemma {:induction false} PlateCarriesTheTone(gray: seq<Byte>, contrast: real, width: nat, height: nat)
    requires |gray| == Area(width, height) && width > 0 && height > 0
    ensures var tones := Tones(gray, contrast);
            var drift := SumFrom(tones, 0) - 255.0 * Papers(Scan(tones, width, height, height, 0).ink);
            var most := (88 * (height - 1) + 72 * (width - 1) + 128) as real;
            -most <= drift <= most && most < 128.0 * (width + height) as real
  {
    var tones := Tones(gray, contrast);
    ToneIsConserved(tones, width, height, height, 0);
    LostIsSmall(tones, width, height, height, 0);
    LostSharesAre(width, height, height - 1, width);
    assert SumFrom(Scan(tones, width, height, height, 0).error, |tones|) == 0.0;
  }
}
