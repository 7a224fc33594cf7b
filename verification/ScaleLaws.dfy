// What `scaleToWidth` does to a source: its boxes partition it, and every tone is a mean of its own box.
module ScaleLaws {
  import opened Wrappers
  import opened PngBytes
  import opened Raster
  import opened Png
  import opened Scale

  /** A narrower target is never taller than the source, unless the source has no rows at all. */
  lemma {:induction false} ScaledIsNoTaller(height: nat, from: nat, width: nat)
    requires width < from
    ensures 1 <= ScaledHeight(height, from, width)
    ensures ScaledHeight(height, from, width) <= height <==> height > 0
  {
    var scaled := RoundedRatio(height * width, from);
    if height > 0 {
      assert height * width <= height * (from - 1) == height * from - height;
      DivisionBounds(2 * (height * width) + from, 2 * from);
      NextMultiple(2 * from, height, scaled);
      assert 2 * from * height == 2 * (height * from);
    }
  }

  /** The guards that make a box at least one pixel wide and tall never bind, for every target narrower than the source,
      exactly when the source has a row. */
  lemma {:induction false} GuardsNeverBind(image: GrayImage, width: nat)
    requires 0 < width < image.width
    ensures var height := ScaledHeight(image.height, image.width, width);
            && (forall column :: 0 <= column < width ==>
                  BoxEnd(column, image.width, width) == Cut(column + 1, image.width, width))
            && ((forall row :: 0 <= row < height ==>
                   BoxEnd(row, image.height, height) == Cut(row + 1, image.height, height))
                <==> image.height > 0)
  {
    var height := ScaledHeight(image.height, image.width, width);
    ScaledIsNoTaller(image.height, image.width, width);
    forall column | 0 <= column < width
      ensures BoxEnd(column, image.width, width) == Cut(column + 1, image.width, width)
    {
      CutIncreases(column, image.width, width);
    }
    if image.height > 0 {
      forall row | 0 <= row < height ensures BoxEnd(row, image.height, height) == Cut(row + 1, image.height, height) {
        CutIncreases(row, image.height, height);
      }
    } else {
      CutEnds(0, height);
      CutsAreOrdered(1, height, 0, height);
      assert BoxEnd(0, 0, height) != Cut(1, 0, height);
    }
  }

  predicate InBox(image: GrayImage, width: nat, height: nat, row: nat, column: nat, y: nat, x: nat)
    requires width > 0 && height > 0
  {
    && Cut(row, image.height, height) <= y < BoxEnd(row, image.height, height)
    && Cut(column, image.width, width) <= x < BoxEnd(column, image.width, width)
  }

  /** Every pixel of the source is in the box of one pixel of the target and of no other. A target of no width has no
      boxes, so this is exactly where the partition needs a width. */
  lemma {:induction false} BoxesPartition(image: GrayImage, width: nat, y: nat, x: nat)
    returns (row: nat, column: nat)
    requires 0 < width < image.width && y < image.height && x < image.width
    ensures var height := ScaledHeight(image.height, image.width, width);
            && row < height && column < width && InBox(image, width, height, row, column, y, x)
            && forall otherRow: nat, otherColumn: nat ::
                 otherRow < height && otherColumn < width && InBox(image, width, height, otherRow, otherColumn, y, x)
                 ==> otherRow == row && otherColumn == column
  {
    var height := ScaledHeight(image.height, image.width, width);
    CutEnds(image.height, height);
    CutEnds(image.width, width);
    row := PartOf(y, image.height, height, height);
    column := PartOf(x, image.width, width, width);
    GuardsNeverBind(image, width);
    forall otherRow: nat, otherColumn: nat |
      otherRow < height && otherColumn < width && InBox(image, width, height, otherRow, otherColumn, y, x)
      ensures otherRow == row && otherColumn == column
    {
      PartIsUnique(y, row, otherRow, image.height, height);
      PartIsUnique(x, column, otherColumn, image.width, width);
    }
  }

  // ---- Each tone lies within its box ----

  ghost predicate AllWithin(image: GrayImage, fromRow: nat, toRow: nat, fromColumn: nat, toColumn: nat, low: nat,
                            high: nat)
  {
    forall y: nat, x: nat :: fromRow <= y < toRow && fromColumn <= x < toColumn ==>
      PixelAt(image, y, x).Some? && low <= PixelAt(image, y, x).value <= high
  }

  lemma {:induction false} RowTotalWithin(image: GrayImage, row: nat, from: nat, until: nat, low: nat, high: nat)
    requires from <= until && AllWithin(image, row, row + 1, from, until, low, high)
    ensures RowTotal(image, row, from, until).Some?
    ensures low * (until - from) <= RowTotal(image, row, from, until).value <= high * (until - from)
    decreases until
  {
    if until > from {
      RowTotalWithin(image, row, from, until - 1, low, high);
      assert low * (until - from) == low * (until - 1 - from) + low;
      assert high * (until - from) == high * (until - 1 - from) + high;
    }
  }

  lemma {:induction false} BoxTotalWithin(image: GrayImage, fromRow: nat, toRow: nat, fromColumn: nat, toColumn: nat,
                                          low: nat, high: nat)
    requires fromRow <= toRow && fromColumn <= toColumn
    requires AllWithin(image, fromRow, toRow, fromColumn, toColumn, low, high)
    ensures BoxTotal(image, fromRow, toRow, fromColumn, toColumn).Some?
    ensures var counted := Area(toColumn - fromColumn, toRow - fromRow);
            low * counted <= BoxTotal(image, fromRow, toRow, fromColumn, toColumn).value <= high * counted
    decreases toRow
  {
    if toRow > fromRow {
      BoxTotalWithin(image, fromRow, toRow - 1, fromColumn, toColumn, low, high);
      RowTotalWithin(image, toRow - 1, fromColumn, toColumn, low, high);
      Distributes(low, Area(toColumn - fromColumn, toRow - 1 - fromRow), toColumn - fromColumn);
      Distributes(high, Area(toColumn - fromColumn, toRow - 1 - fromRow), toColumn - fromColumn);
    }
  }

  lemma {:induction false} Distributes(a: nat, b: nat, c: nat)
    ensures a * (b + c) == a * b + a * c
  {
  }

  /** A rounded mean of whole numbers stays between the whole numbers that bound them. */
  lemma {:induction false} RoundedMeanWithin(total: nat, counted: nat, low: nat, high: nat)
    requires counted > 0 && low * counted <= total <= high * counted
    ensures low <= RoundedRatio(total, counted) <= high
  {
    var mean := RoundedRatio(total, counted);
    DivisionBounds(2 * total + counted, 2 * counted);
    NextMultiple(2 * counted, mean, low);
    NextMultiple(2 * counted, high, mean);
    assert 2 * counted * low == 2 * (low * counted) && 2 * counted * high == 2 * (high * counted);
  }

  /** Averaging invents no tone: each pixel of the target lies between the least and the greatest of its box. */
  lemma {:induction false} ScaledPixelWithin(image: GrayImage, width: nat, row: nat, column: nat, low: nat, high: nat)
    requires 0 < width < image.width && high < 256
    requires var height := ScaledHeight(image.height, image.width, width);
             && row < height && column < width
             && AllWithin(image, Cut(row, image.height, height), BoxEnd(row, image.height, height),
                          Cut(column, image.width, width), BoxEnd(column, image.width, width), low, high)
    ensures low <= ScaledPixel(image, width, ScaledHeight(image.height, image.width, width), row, column) <= high
  {
    var height := ScaledHeight(image.height, image.width, width);
    var fromRow, toRow := Cut(row, image.height, height), BoxEnd(row, image.height, height);
    var fromColumn, toColumn := Cut(column, image.width, width), BoxEnd(column, image.width, width);
    BoxTotalWithin(image, fromRow, toRow, fromColumn, toColumn, low, high);
    AreaIncreases(toColumn - fromColumn, 1, toRow - fromRow);
    RoundedMeanWithin(BoxTotal(image, fromRow, toRow, fromColumn, toColumn).value,
                      Area(toColumn - fromColumn, toRow - fromRow), low, high);
  }

  /** The boxes of a source with a row hold only its own pixels, so none of their tones is a NaN. */
  lemma {:induction false} BoxesHoldPixels(image: GrayImage, width: nat, row: nat, column: nat, y: nat, x: nat)
    requires 0 < width < image.width && image.height > 0 && |image.gray| == Area(image.width, image.height)
    requires var height := ScaledHeight(image.height, image.width, width);
             row < height && column < width && InBox(image, width, height, row, column, y, x)
    ensures y < image.height && x < image.width && PixelAt(image, y, x).Some?
  {
    var height := ScaledHeight(image.height, image.width, width);
    GuardsNeverBind(image, width);
    CutEnds(image.height, height);
    CutEnds(image.width, width);
    CutsAreOrdered(row + 1, height, image.height, height);
    CutsAreOrdered(column + 1, width, image.width, width);
    AreaIncreases(image.width, y + 1, image.height);
  }

  /** The tone of a box is the whole number nearest its mean, the higher of two as near. */
  lemma {:induction false} RoundsToNearest(total: nat, counted: nat)
    requires counted > 0
    ensures 2 * total - counted < 2 * (RoundedRatio(total, counted) * counted) <= 2 * total + counted
  {
    var rounded := RoundedRatio(total, counted);
    DivisionBounds(2 * total + counted, 2 * counted);
    assert 2 * counted * rounded == 2 * (rounded * counted);
  }
}
