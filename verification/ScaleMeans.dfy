// What each tone of a scaled image is: the mean of its share of the source, added up pixel by pixel.
module ScaleMeans {
  import opened Wrappers
  import opened PngBytes
  import opened Raster
  import opened Png
  import opened Scale
  import opened ScaleLaws

  /** A place as far along a length as a part is along its parts, cut to a whole number. */
  predicate IsCut(part: nat, length: nat, parts: nat, at: nat) {
    parts * at <= part * length < parts * at + parts
  }

  lemma {:induction false} CutIsInProportion(part: nat, length: nat, parts: nat)
    requires parts > 0
    ensures IsCut(part, length, parts, Cut(part, length, parts))
  {
    CutIsNatural(part, length, parts);
  }

  /** The height in proportion, to the nearest row, the higher of two as near; and one row at the least. */
  predicate IsInProportion(height: nat, from: nat, width: nat, scaled: nat) {
    || (scaled >= 1 && 2 * (height * width) - from < 2 * (scaled * from) <= 2 * (height * width) + from)
    || (scaled == 1 && 2 * (height * width) < from)
  }

  lemma {:induction false} HeightIsInProportion(height: nat, from: nat, width: nat)
    requires from > 0
    ensures IsInProportion(height, from, width, ScaledHeight(height, from, width))
  {
    RoundsToNearest(height * width, from);
    var rounded := RoundedRatio(height * width, from);
    if rounded == 0 {
      assert rounded * from == 0;
    }
  }

  // ---- Adding up a box, column by column ----

  /** The pixel in a row and column of the source. */
  function Grey(image: GrayImage, y: nat, x: nat): nat {
    if y * image.width + x < |image.gray| then image.gray[y * image.width + x] else 0
  }

  function ColumnTotal(image: GrayImage, x: nat, top: nat, bottom: nat): nat
    decreases bottom
  {
    if top >= bottom then 0 else ColumnTotal(image, x, top, bottom - 1) + Grey(image, bottom - 1, x)
  }

  function BoxSum(image: GrayImage, top: nat, bottom: nat, left: nat, right: nat): nat
    decreases right
  {
    if left >= right then 0
    else BoxSum(image, top, bottom, left, right - 1) + ColumnTotal(image, right - 1, top, bottom)
  }

  function RowSum(image: GrayImage, y: nat, left: nat, right: nat): nat
    decreases right
  {
    if left >= right then 0 else RowSum(image, y, left, right - 1) + Grey(image, y, right - 1)
  }

  lemma {:induction false} OneMoreRow(image: GrayImage, top: nat, bottom: nat, left: nat, right: nat)
    requires top <= bottom
    ensures BoxSum(image, top, bottom + 1, left, right) ==
            BoxSum(image, top, bottom, left, right) + RowSum(image, bottom, left, right)
    decreases right
  {
    hide Grey;
    if left < right {
      OneMoreRow(image, top, bottom, left, right - 1);
    }
  }

  lemma {:induction false} NoRows(image: GrayImage, top: nat, left: nat, right: nat)
    ensures BoxSum(image, top, top, left, right) == 0
    decreases right
  {
    if left < right {
      NoRows(image, top, left, right - 1);
    }
  }

  lemma {:induction false} PixelIsGrey(image: GrayImage, y: nat, x: nat)
    ensures PixelAt(image, y, x).Some? ==> PixelAt(image, y, x).value == Grey(image, y, x)
  {
    AreaIsProduct(image.width, y);
    assert image.width * y == y * image.width;
  }

  lemma {:induction false} RowTotalIs(image: GrayImage, y: nat, left: nat, right: nat)
    requires RowTotal(image, y, left, right).Some?
    ensures RowTotal(image, y, left, right).value == RowSum(image, y, left, right)
    decreases right
  {
    hide PixelAt, Grey;
    if left < right {
      RowTotalIs(image, y, left, right - 1);
      PixelIsGrey(image, y, right - 1);
    }
  }

  lemma {:induction false} BoxTotalIs(image: GrayImage, top: nat, bottom: nat, left: nat, right: nat)
    requires top <= bottom && BoxTotal(image, top, bottom, left, right).Some?
    ensures BoxTotal(image, top, bottom, left, right).value == BoxSum(image, top, bottom, left, right)
    decreases bottom
  {
    hide RowTotal, BoxSum;
    if top < bottom {
      BoxTotalIs(image, top, bottom - 1, left, right);
      RowTotalIs(image, bottom - 1, left, right);
      OneMoreRow(image, top, bottom - 1, left, right);
    } else {
      NoRows(image, top, left, right);
    }
  }

  // ---- Each tone ----

  /** A tone is the mean of so many pixels, to the nearest whole number, the higher of two as near. */
  predicate IsMean(tone: Byte, total: nat, counted: nat) {
    counted > 0 && 2 * total - counted < 2 * (tone * counted) <= 2 * total + counted
  }

  lemma {:induction false} ToneIsMean(image: GrayImage, top: nat, bottom: nat, left: nat, right: nat, counted: nat)
    requires top < bottom && left < right && counted == Area(right - left, bottom - top)
    requires AllWithin(image, top, bottom, left, right, 0, 255)
    ensures IsMean(BoxTone(image, top, bottom, left, right), BoxSum(image, top, bottom, left, right), counted)
  {
    hide BoxTotal, BoxSum, AllWithin, RoundedRatio, Area;
    BoxTotalWithin(image, top, bottom, left, right, 0, 255);
    assert counted > 0 by { AreaIncreases(right - left, 1, bottom - top); OneRow(right - left); }
    BoxTotalIs(image, top, bottom, left, right);
    var total := BoxTotal(image, top, bottom, left, right).value;
    assert BoxTone(image, top, bottom, left, right) == RoundedRatio(total, counted) % 256;
    MeanIs(total, counted);
  }

  lemma {:induction false} OneRow(width: nat)
    ensures Area(width, 1) == width
  {
    assert Area(width, 0) == 0;
  }

  lemma {:induction false} MeanIs(total: nat, counted: nat)
    requires counted > 0 && total <= 255 * counted
    ensures IsMean(RoundedRatio(total, counted) % 256, total, counted)
  {
    hide RoundedRatio;
    RoundedMeanWithin(total, counted, 0, 255);
    RoundsToNearest(total, counted);
  }

  lemma {:induction false} ScaledPixelAt(image: GrayImage, width: nat, height: nat, rows: nat, row: nat, column: nat)
    requires height > 0 && row < rows && column < width
    ensures Area(width, row) + column < Area(width, rows)
    ensures ScaledRows(image, width, height, rows)[Area(width, row) + column] ==
            ScaledPixel(image, width, height, row, column)
  {
    hide ScaledPixel;
    AreaIncreases(width, row + 1, rows);
    if row < rows - 1 {
      ScaledPixelAt(image, width, height, rows - 1, row, column);
    } else {
      ScaledInRow(image, width, height, row, width, column);
    }
  }

  lemma {:induction false} ScaledInRow(image: GrayImage, width: nat, height: nat, row: nat, columns: nat, column: nat)
    requires height > 0 && column < columns <= width
    ensures ScaledRow(image, width, height, row, columns)[column] == ScaledPixel(image, width, height, row, column)
  {
    hide ScaledPixel;
    if column < columns - 1 {
      ScaledInRow(image, width, height, row, columns - 1, column);
    }
  }

  /** Every tone of a narrowed image: where its box stands in the source, in proportion, and that it is the mean of the
      pixels in it. */
  lemma {:induction false} EveryToneIsAMean(image: GrayImage, width: nat, row: nat, column: nat)
    returns (top: nat, bottom: nat, left: nat, right: nat, counted: nat, at: nat)
    requires 0 < width < image.width && image.height > 0 && |image.gray| == Area(image.width, image.height)
    requires row < Scaled(image, width).height && column < width
    ensures var scaled := Scaled(image, width);
            && scaled.width == width && IsInProportion(image.height, image.width, width, scaled.height)
            && IsCut(row, image.height, scaled.height, top) && IsCut(row + 1, image.height, scaled.height, bottom)
            && IsCut(column, image.width, width, left) && IsCut(column + 1, image.width, width, right)
            && top < bottom && left < right && counted == (right - left) * (bottom - top)
            && at == width * row + column && at < |scaled.gray| == width * scaled.height
            && IsMean(scaled.gray[at], BoxSum(image, top, bottom, left, right), counted)
  {
    hide ScaledHeight, ScaledRows, Cut, ScaledPixel, IsMean, IsCut, BoxSum, Area, IsInProportion;
    var height := ScaledHeight(image.height, image.width, width);
    HeightIsInProportion(image.height, image.width, width);
    ScaledIsNoTaller(image.height, image.width, width);
    top, bottom := PartBounds(row, image.height, height);
    left, right := PartBounds(column, image.width, width);
    AreaIsProduct(width, row);
    AreaIsProduct(width, height);
    AreaIsProduct(right - left, bottom - top);
    counted, at := Area(right - left, bottom - top), Area(width, row) + column;
    ScaledPixelAt(image, width, height, height, row, column);
    PixelIsMean(image, width, row, column, top, bottom, left, right);
  }

  lemma {:induction false} PartBounds(part: nat, length: nat, parts: nat) returns (from: nat, until: nat)
    requires 0 < parts <= length
    ensures from == Cut(part, length, parts) && until == Cut(part + 1, length, parts) && from < until
    ensures IsCut(part, length, parts, from) && IsCut(part + 1, length, parts, until)
  {
    hide Cut, IsCut;
    from, until := Cut(part, length, parts), Cut(part + 1, length, parts);
    CutIsInProportion(part, length, parts);
    CutIsInProportion(part + 1, length, parts);
    CutIncreases(part, length, parts);
  }

  lemma {:induction false} PixelIsMean(image: GrayImage, width: nat, row: nat, column: nat, top: nat, bottom: nat,
                                       left: nat, right: nat)
    requires 0 < width < image.width && image.height > 0 && |image.gray| == Area(image.width, image.height)
    requires row < ScaledHeight(image.height, image.width, width) && column < width && top < bottom && left < right
    requires var height := ScaledHeight(image.height, image.width, width);
             && top == Cut(row, image.height, height) && bottom == Cut(row + 1, image.height, height)
             && left == Cut(column, image.width, width) && right == Cut(column + 1, image.width, width)
    ensures IsMean(ScaledPixel(image, width, ScaledHeight(image.height, image.width, width), row, column),
                   BoxSum(image, top, bottom, left, right), Area(right - left, bottom - top))
  {
    hide ScaledHeight, Cut, BoxTone, IsMean, BoxSum, Area, AllWithin;
    GuardsNeverBind(image, width);
    BoxIsHeld(image, width, row, column);
    ToneIsMean(image, top, bottom, left, right, Area(right - left, bottom - top));
  }

  lemma {:induction false} BoxIsHeld(image: GrayImage, width: nat, row: nat, column: nat)
    requires 0 < width < image.width && image.height > 0 && |image.gray| == Area(image.width, image.height)
    requires row < ScaledHeight(image.height, image.width, width) && column < width
    ensures var height := ScaledHeight(image.height, image.width, width);
            AllWithin(image, Cut(row, image.height, height), BoxEnd(row, image.height, height),
                      Cut(column, image.width, width), BoxEnd(column, image.width, width), 0, 255)
  {
    hide ScaledHeight, Cut, BoxEnd;
    var height := ScaledHeight(image.height, image.width, width);
    ScaledIsNoTaller(image.height, image.width, width);
    forall y: nat, x: nat |
      Cut(row, image.height, height) <= y < BoxEnd(row, image.height, height) &&
      Cut(column, image.width, width) <= x < BoxEnd(column, image.width, width)
      ensures PixelAt(image, y, x).Some?
    {
      BoxesHoldPixels(image, width, row, column, y, x);
    }
  }
}
