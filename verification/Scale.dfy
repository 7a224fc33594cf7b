// frontend/scripts/generate-plate/dither.ts: `scaleToWidth`, which averages boxes of source pixels.
module Scale {
  import opened Wrappers
  import opened PngBytes
  import opened Raster
  import opened Png

  // ---- Cutting a length into parts ----

  /** Where part `part` of `parts` begins in a length: `Math.floor(part * length / parts)`. */
  function Cut(part: nat, length: nat, parts: nat): (at: nat)
    requires parts > 0
  {
    CutIsNatural(part, length, parts);
    part * length / parts
  }

  lemma {:induction false} CutIsNatural(part: nat, length: nat, parts: nat)
    requires parts > 0
    ensures 0 <= part * length / parts
    ensures parts * (part * length / parts) <= part * length < parts * (part * length / parts) + parts
  {
    assert part * length >= 0;
    DivisionBounds(part * length, parts);
  }

  lemma {:induction false} DivisionBounds(dividend: int, divisor: int)
    requires divisor > 0
    ensures divisor * (dividend / divisor) <= dividend < divisor * (dividend / divisor) + divisor
  {
  }

  lemma {:induction false} NextMultiple(divisor: int, small: int, large: int)
    requires divisor > 0
    ensures small < large ==> divisor * small + divisor <= divisor * large
  {
    if small < large {
      assert divisor * (small + 1) <= divisor * large;
    }
  }

  lemma {:induction false} QuotientIs(dividend: int, divisor: int, quotient: int)
    requires divisor > 0 && divisor * quotient <= dividend < divisor * quotient + divisor
    ensures dividend / divisor == quotient
  {
    DivisionBounds(dividend, divisor);
    NextMultiple(divisor, dividend / divisor, quotient);
    NextMultiple(divisor, quotient, dividend / divisor);
  }

  lemma {:induction false} CutEnds(length: nat, parts: nat)
    requires parts > 0
    ensures Cut(0, length, parts) == 0 && Cut(parts, length, parts) == length
  {
    QuotientIs(0 * length, parts, 0);
    QuotientIs(parts * length, parts, length);
  }

  lemma {:induction false} CutIncreases(part: nat, length: nat, parts: nat)
    requires parts > 0
    ensures Cut(part, length, parts) <= Cut(part + 1, length, parts)
    ensures length >= parts ==> Cut(part, length, parts) + 1 <= Cut(part + 1, length, parts)
  {
    CutIsNatural(part, length, parts);
    CutIsNatural(part + 1, length, parts);
    var here, next := Cut(part, length, parts), Cut(part + 1, length, parts);
    assert (part + 1) * length == part * length + length;
    NextMultiple(parts, next, here);
    NextMultiple(parts, next, here + 1);
    assert parts * (here + 1) == parts * here + parts;
  }

  lemma {:induction false} CutsAreOrdered(early: nat, late: nat, length: nat, parts: nat)
    requires parts > 0 && early <= late
    ensures Cut(early, length, parts) <= Cut(late, length, parts)
    decreases late
  {
    if early < late {
      CutsAreOrdered(early, late - 1, length, parts);
      CutIncreases(late - 1, length, parts);
    }
  }

  predicate InPart(at: nat, part: nat, length: nat, parts: nat)
    requires parts > 0
  {
    Cut(part, length, parts) <= at < Cut(part + 1, length, parts)
  }

  /** The parts cover a length exactly: every place in it is in one part and in no other. */
  lemma {:induction false} PartOf(at: nat, length: nat, parts: nat, upTo: nat) returns (part: nat)
    requires parts > 0 && at < Cut(upTo, length, parts)
    ensures part < upTo && InPart(at, part, length, parts)
    decreases upTo
  {
    CutEnds(length, parts);
    if Cut(upTo - 1, length, parts) <= at {
      part := upTo - 1;
    } else {
      part := PartOf(at, length, parts, upTo - 1);
    }
  }

  lemma {:induction false} PartIsUnique(at: nat, one: nat, other: nat, length: nat, parts: nat)
    requires parts > 0 && InPart(at, one, length, parts) && InPart(at, other, length, parts)
    ensures one == other
  {
    if one < other {
      CutsAreOrdered(one + 1, other, length, parts);
    } else if other < one {
      CutsAreOrdered(other + 1, one, length, parts);
    }
  }

  // ---- The scaled image ----

  function Max(a: int, b: int): int {
    if a >= b then a else b
  }

  /** `Math.round(a / b)`, which rounds a half up. */
  function RoundedRatio(a: nat, b: nat): nat
    requires b > 0
  {
    (2 * a + b) / (2 * b)
  }

  function ScaledHeight(height: nat, from: nat, width: nat): nat
    requires from > 0
  {
    Max(1, RoundedRatio(height * width, from))
  }

  /** Where a box ends: a part's end, and at least one past where it starts. */
  function BoxEnd(part: nat, length: nat, parts: nat): nat
    requires parts > 0
  {
    Max(Cut(part, length, parts) + 1, Cut(part + 1, length, parts))
  }

  /** A pixel of the source; one past its end reads as NaN. */
  function PixelAt(image: GrayImage, row: nat, column: nat): Option<Byte> {
    var index := Area(image.width, row) + column;
    if index < |image.gray| then Some(image.gray[index]) else None
  }

  /** The sum along one row of a box, or NaN. */
  function RowTotal(image: GrayImage, row: nat, from: nat, until: nat): Option<nat>
    decreases until
  {
    if from >= until then Some(0)
    else
      var rest := RowTotal(image, row, from, until - 1);
      var pixel := PixelAt(image, row, until - 1);
      if rest.None? || pixel.None? then None else Some(rest.value + pixel.value)
  }

  function BoxTotal(image: GrayImage, fromRow: nat, toRow: nat, fromColumn: nat, toColumn: nat): Option<nat>
    decreases toRow
  {
    if fromRow >= toRow then Some(0)
    else
      var rest := BoxTotal(image, fromRow, toRow - 1, fromColumn, toColumn);
      var row := RowTotal(image, toRow - 1, fromColumn, toColumn);
      if rest.None? || row.None? then None else Some(rest.value + row.value)
  }

  /** The mean of a box, rounded half up and kept to a byte; NaN is kept as 0. */
  function BoxTone(image: GrayImage, fromRow: nat, toRow: nat, fromColumn: nat, toColumn: nat): Byte
    requires fromRow < toRow && fromColumn < toColumn
  {
    var counted := Area(toColumn - fromColumn, toRow - fromRow);
    AreaIncreases(toColumn - fromColumn, 1, toRow - fromRow);
    match BoxTotal(image, fromRow, toRow, fromColumn, toColumn)
    case None => 0
    case Some(total) => RoundedRatio(total, counted) % 256
  }

  function ScaledPixel(image: GrayImage, width: nat, height: nat, row: nat, column: nat): Byte
    requires width > 0 && height > 0
  {
    BoxTone(image, Cut(row, image.height, height), BoxEnd(row, image.height, height),
            Cut(column, image.width, width), BoxEnd(column, image.width, width))
  }

  function ScaledRow(image: GrayImage, width: nat, height: nat, row: nat, columns: nat): (gray: seq<Byte>)
    requires height > 0 && columns <= width
    ensures |gray| == columns
  {
    if columns == 0 then []
    else ScaledRow(image, width, height, row, columns - 1) + [ScaledPixel(image, width, height, row, columns - 1)]
  }

  function ScaledRows(image: GrayImage, width: nat, height: nat, rows: nat): (gray: seq<Byte>)
    requires height > 0
    ensures |gray| == Area(width, rows)
  {
    if rows == 0 then []
    else ScaledRows(image, width, height, rows - 1) + ScaledRow(image, width, height, rows - 1, width)
  }

  function Scaled(image: GrayImage, width: nat): GrayImage {
    if width >= image.width then image
    else
      var height := ScaledHeight(image.height, image.width, width);
      GrayImage(width, height, ScaledRows(image, width, height, height))
  }

  /** The sum and the count of a box, pixel by pixel. */
  method SumBox(image: GrayImage, fromRow: nat, toRow: nat, fromColumn: nat, toColumn: nat)
    returns (total: Option<nat>, counted: nat)
    requires fromRow <= toRow && fromColumn <= toColumn
    ensures total == BoxTotal(image, fromRow, toRow, fromColumn, toColumn)
    ensures counted == Area(toColumn - fromColumn, toRow - fromRow)
  {
    total, counted := Some(0), 0;
    for y := fromRow to toRow
      invariant total == BoxTotal(image, fromRow, y, fromColumn, toColumn)
      invariant counted == Area(toColumn - fromColumn, y - fromRow)
    {
      var sum: Option<nat> := Some(0);
      for x := fromColumn to toColumn
        invariant sum == RowTotal(image, y, fromColumn, x)
        invariant counted == Area(toColumn - fromColumn, y - fromRow) + x - fromColumn
      {
        var pixel := PixelAt(image, y, x);
        sum := if sum.None? || pixel.None? then None else Some(sum.value + pixel.value);
        counted := counted + 1;
      }
      total := if total.None? || sum.None? then None else Some(total.value + sum.value);
    }
  }

  /** Each tone is the mean of its box; an image no wider than asked for comes back as it was given. */
  method ScaleToWidth(image: GrayImage, width: nat) returns (r: GrayImage)
    ensures r == Scaled(image, width) && (width >= image.width ==> r == image)
  {
    if width >= image.width {
      return image;
    }
    var height := ScaledHeight(image.height, image.width, width);
    var gray := new Byte[Area(width, height)](_ => 0);
    var base := 0;
    for row := 0 to height
      invariant base == Area(width, row) <= gray.Length
      invariant gray[..base] == ScaledRows(image, width, height, row)
    {
      AreaIncreases(width, row + 1, height);
      ScaleRow(image, width, height, row, gray, base);
      base := base + width;
    }
    assert gray[..base] == gray[..];
    return GrayImage(width, height, gray[..]);
  }

  method ScaleRow(image: GrayImage, width: nat, height: nat, row: nat, gray: array<Byte>, base: nat)
    requires height > 0 && base + width <= gray.Length
    modifies gray
    ensures gray[..base + width] == old(gray[..base]) + ScaledRow(image, width, height, row, width)
  {
    ghost var before := gray[..base];
    var fromRow, toRow := Cut(row, image.height, height), BoxEnd(row, image.height, height);
    for column := 0 to width
      invariant gray[..base + column] == before + ScaledRow(image, width, height, row, column)
    {
      var fromColumn, toColumn := Cut(column, image.width, width), BoxEnd(column, image.width, width);
      var total, counted := SumBox(image, fromRow, toRow, fromColumn, toColumn);
      AreaIncreases(toColumn - fromColumn, 1, toRow - fromRow);
      ghost var done := gray[..base + column];
      gray[base + column] := if total.None? then 0 else RoundedRatio(total.value, counted) % 256;
      assert gray[..base + column + 1] == done + [gray[base + column]];
    }
  }
}
