// Pushing error forward, pixel by pixel in one buffer, comes to the same as each pixel gathering it from the four drawn
// before it: what a plate is, without the buffer.
module DitherGather {
  import opened PngBytes
  import opened Raster
  import opened Png
  import opened Dither
  import opened DitherLaws

  /** What a pixel is drawn for: its own tone and, in sixteenths, 7 of what the pixel to the left had left over, 1 of
      the one above that, 5 of the one above and 3 of the one above to the right. */
  ghost function Wanted(tones: seq<real>, width: nat, row: int, column: int): real
    requires width > 0
    decreases row, column, 0
  {
    if row < 0 || column < 0 || column >= width then 0.0
    else
      ToneAt(tones, width, row, column)
      + (7.0 * LeftOver(tones, width, row, column - 1) + 1.0 * LeftOver(tones, width, row - 1, column - 1)
         + 5.0 * LeftOver(tones, width, row - 1, column) + 3.0 * LeftOver(tones, width, row - 1, column + 1)) / 16.0
  }

  /** What drawing a pixel as ink, 0, or as paper, 255, leaves over; outside the plate, nothing. */
  ghost function LeftOver(tones: seq<real>, width: nat, row: int, column: int): real
    requires width > 0
    decreases row, column, 1
  {
    if row < 0 || column < 0 || column >= width then 0.0
    else
      var wanted := Wanted(tones, width, row, column);
      if wanted < 128.0 then wanted else wanted - 255.0
  }

  ghost function ToneAt(tones: seq<real>, width: nat, row: int, column: int): real {
    if row < 0 || column < 0 || Area(width, row) + column >= |tones| then 0.0 else tones[Area(width, row) + column]
  }

  // ---- What a cell of the buffer holds while the scan is on its way ----

  /** What a cell has gathered, in sixteenths, when the scan reaches a place. */
  ghost function Gathered(tones: seq<real>, width: nat, row: nat, column: nat, cell: nat): real
    requires width > 0
  {
    var start := Area(width, row);
    if start <= cell < start + width then
      var at := cell - start;
      (if at == column then 7.0 * LeftOver(tones, width, row, at - 1) else 0.0)
      + 1.0 * LeftOver(tones, width, row - 1, at - 1) + 5.0 * LeftOver(tones, width, row - 1, at)
      + 3.0 * LeftOver(tones, width, row - 1, at + 1)
    else if start + width <= cell < start + 2 * width then
      var at := cell - start - width;
      (if at <= column then 1.0 * LeftOver(tones, width, row, at - 1) else 0.0)
      + (if at < column then 5.0 * LeftOver(tones, width, row, at) else 0.0)
      + (if at + 1 < column then 3.0 * LeftOver(tones, width, row, at + 1) else 0.0)
    else 0.0
  }

  lemma {:induction false} NothingOutside(tones: seq<real>, width: nat, row: int, column: int)
    requires width > 0 && (row < 0 || column < 0 || column >= width)
    ensures LeftOver(tones, width, row, column) == 0.0
  {
  }

  /** Drawing a pixel passes its share of what it leaves over to each later cell. */
  lemma {:induction false} ShareIsGathered(tones: seq<real>, width: nat, height: nat, row: nat, column: nat, cell: nat)
    requires InScan(width, height, row, column) && |tones| == Area(width, height)
    requires Area(width, row) + column < cell < Area(width, height)
    ensures Gathered(tones, width, row, column + 1, cell) == Gathered(tones, width, row, column, cell)
              + LeftOver(tones, width, row, column)
                * Share(Area(width, row) + column, width, column == 0, column + 1 == width, row + 1 == height, cell)
  {
    hide LeftOver, Wanted, Area;
    InBuffer(width, height, row, column);
    NextRowStarts(width, row);
    NothingOutside(tones, width, row, -1);
    NothingOutside(tones, width, row, width);
    if row + 1 == height {
      assert cell < Area(width, row) + width;
    }
  }

  lemma {:induction false} NextRowStarts(width: nat, row: nat)
    ensures Area(width, row + 1) == Area(width, row) + width
  {
  }

  lemma {:induction false} NextRowGathered(tones: seq<real>, width: nat, row: nat, cell: nat)
    requires width > 0 && Area(width, row + 1) <= cell
    ensures Gathered(tones, width, row + 1, 0, cell) == Gathered(tones, width, row, width, cell)
  {
    hide LeftOver, Wanted, Area;
    NextRowStarts(width, row);
    NothingOutside(tones, width, row + 1, -1);
    NothingOutside(tones, width, row, -1);
    NothingOutside(tones, width, row, width);
  }

  ghost predicate HoldsGathered(tones: seq<real>, error: seq<real>, width: nat, row: nat, column: nat)
    requires width > 0 && |error| == |tones|
  {
    forall cell :: Area(width, row) + column <= cell < |error| ==>
      error[cell] == tones[cell] + Gathered(tones, width, row, column, cell) / 16.0
  }

  /** At every step of the scan, every cell still to be drawn holds its tone and what it has gathered. */
  lemma {:induction false} BufferHoldsGathered(tones: seq<real>, width: nat, height: nat, row: nat, column: nat)
    requires width > 0 && |tones| == Area(width, height)
    requires row <= height && column <= width && (row == height ==> column == 0)
    ensures HoldsGathered(tones, Scan(tones, width, height, row, column).error, width, row, column)
    decreases row, column
  {
    hide Step, Gathered;
    if column > 0 {
      BufferHoldsGathered(tones, width, height, row, column - 1);
      StepGathers(tones, Scan(tones, width, height, row, column - 1), width, height, row, column - 1);
    } else if row > 0 {
      BufferHoldsGathered(tones, width, height, row - 1, width);
      NextRowStarts(width, row - 1);
      var error := Scan(tones, width, height, row, 0).error;
      forall cell | Area(width, row) <= cell < |error|
        ensures error[cell] == tones[cell] + Gathered(tones, width, row, 0, cell) / 16.0
      {
        NextRowGathered(tones, width, row - 1, cell);
      }
    } else {
      forall cell | 0 <= cell < |tones| ensures Gathered(tones, width, 0, 0, cell) == 0.0 {
        NothingGathered(tones, width, cell);
      }
    }
  }

  lemma {:induction false} NothingGathered(tones: seq<real>, width: nat, cell: nat)
    requires width > 0
    ensures Gathered(tones, width, 0, 0, cell) == 0.0
  {
    hide LeftOver;
    assert Area(width, 0) == 0;
    NothingOutside(tones, width, 0, -1);
    NothingOutside(tones, width, -1, cell - 1);
    NothingOutside(tones, width, -1, cell);
    NothingOutside(tones, width, -1, cell + 1);
  }

  lemma {:induction false} SharedOut(value: real, gathered: real, remainder: real, share: real)
    requires share in {0.0, 1.0, 3.0, 5.0, 7.0}
    ensures value + gathered / 16.0 + remainder * share / 16.0 == value + (gathered + remainder * share) / 16.0
  {
    var product := remainder * share;
  }

  /** The cell the scan has reached holds what its pixel is drawn for. */
  lemma {:induction false} ReachedIsWanted(tones: seq<real>, width: nat, height: nat, row: nat, column: nat)
    requires InScan(width, height, row, column) && |tones| == Area(width, height)
    ensures Area(width, row) + column < |tones|
    ensures tones[Area(width, row) + column]
            + Gathered(tones, width, row, column, Area(width, row) + column) / 16.0 ==
            Wanted(tones, width, row, column)
  {
    hide LeftOver;
    InBuffer(width, height, row, column);
  }

  lemma {:induction false} StepGathers(tones: seq<real>, drawing: Drawing, width: nat, height: nat, row: nat,
                                       column: nat)
    requires InScan(width, height, row, column) && |drawing.error| == |tones| == Area(width, height)
    requires HoldsGathered(tones, drawing.error, width, row, column)
    ensures HoldsGathered(tones, Step(drawing, width, height, row, column).error, width, row, column + 1)
    ensures Step(drawing, width, height, row, column).ink ==
            drawing.ink + [if Wanted(tones, width, row, column) < 128.0 then 1 else 0]
  {
    hide Gathered, Wanted, Diffused, Share;
    NeighboursFit(width, height, row, column);
    ReachedIsWanted(tones, width, height, row, column);
    var index := Area(width, row) + column;
    var next := Step(drawing, width, height, row, column).error;
    var remainder := Remainder(drawing.error[index]);
    assert remainder == LeftOver(tones, width, row, column);
    forall cell | index + 1 <= cell < |next|
      ensures next[cell] == tones[cell] + Gathered(tones, width, row, column + 1, cell) / 16.0
    {
      var share := Share(index, width, column == 0, column + 1 == width, row + 1 == height, cell);
      DiffusedAdds(drawing.error, index, width, remainder, column == 0, column + 1 == width, row + 1 == height, cell);
      ShareIsGathered(tones, width, height, row, column, cell);
      ShareIs(index, width, column == 0, column + 1 == width, row + 1 == height, cell);
      SharedOut(tones[cell], Gathered(tones, width, row, column, cell), remainder, share);
    }
  }

  lemma {:induction false} ShareIs(index: nat, width: nat, firstColumn: bool, lastColumn: bool, lastRow: bool,
                                   cell: nat)
    ensures Share(index, width, firstColumn, lastColumn, lastRow, cell) in {0.0, 1.0, 3.0, 5.0, 7.0}
  {
  }

  /** Every pixel of the plate is ink exactly when it is wanted darker than 128, where what is wanted is gathered from
      the pixels before it. */
  lemma {:induction false} PlateIsGathered(tones: seq<real>, width: nat, height: nat, row: nat, column: nat)
    requires InScan(width, height, row, column) && |tones| == Area(width, height)
    ensures var ink := Scan(tones, width, height, height, 0).ink;
            && Area(width, row) + column < |ink| == |tones|
            && ink[Area(width, row) + column] == if Wanted(tones, width, row, column) < 128.0 then 1 else 0
  {
    hide Wanted, Step;
    InBuffer(width, height, row, column);
    var drawing := Scan(tones, width, height, row, column);
    BufferHoldsGathered(tones, width, height, row, column);
    StepGathers(tones, drawing, width, height, row, column);
    InkStays(tones, width, height, row, column + 1, height, 0, Area(width, row) + column);
  }

  lemma {:induction false} StepKeepsInk(drawing: Drawing, width: nat, height: nat, row: nat, column: nat, index: nat)
    requires InScan(width, height, row, column) && |drawing.error| == Area(width, height)
    requires index < |drawing.ink|
    ensures Step(drawing, width, height, row, column).ink[index] == drawing.ink[index]
  {
  }

  lemma {:induction false} InkStays(tones: seq<real>, width: nat, height: nat, row: nat, column: nat, laterRow: nat,
                                    laterColumn: nat, index: nat)
    requires |tones| == Area(width, height) && row <= laterRow <= height && column <= width && laterColumn <= width
    requires row == laterRow ==> column <= laterColumn
    requires (row == height ==> column == 0) && (laterRow == height ==> laterColumn == 0)
    requires index < Area(width, row) + column
    ensures index < |Scan(tones, width, height, laterRow, laterColumn).ink|
    ensures Scan(tones, width, height, laterRow, laterColumn).ink[index] ==
            Scan(tones, width, height, row, column).ink[index]
    decreases laterRow, laterColumn
  {
    hide Step, Area;
    AreaIncreases(width, row, laterRow);
    if row == laterRow && column == laterColumn {
    } else if laterColumn > 0 {
      if row < laterRow {
        AreaIncreases(width, row + 1, laterRow);
      }
      InkStays(tones, width, height, row, column, laterRow, laterColumn - 1, index);
      var before := Scan(tones, width, height, laterRow, laterColumn - 1);
      StepKeepsInk(before, width, height, laterRow, laterColumn - 1, index);
    } else {
      InkStays(tones, width, height, row, column, laterRow - 1, width, index);
    }
  }
}
