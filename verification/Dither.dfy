// frontend/scripts/generate-plate/dither.ts: Floyd and Steinberg's error diffusion, over the reals.
module Dither {
  import opened PngBytes
  import opened Raster
  import opened Png

  const MIDPOINT := 128.0

  /** A tone steepened around the midpoint and clamped to what a byte can say. */
  function Steepened(gray: Byte, contrast: real): real {
    var steepened := MIDPOINT + (gray as real - MIDPOINT) * contrast;
    if steepened < 0.0 then 0.0 else if steepened > 255.0 then 255.0 else steepened
  }

  function Tones(gray: seq<Byte>, contrast: real): (tones: seq<real>)
    ensures |tones| == |gray|
    ensures forall i :: 0 <= i < |gray| ==> 0.0 <= tones[i] <= 255.0
  {
    seq(|gray|, i requires 0 <= i < |gray| => Steepened(gray[i], contrast))
  }

  /** The buffer of tones with the error diffused so far, and the pixels drawn so far: 1 for ink. */
  datatype Drawing = Drawing(error: seq<real>, ink: seq<Byte>)

  function Drawn(wanted: real): real {
    if wanted < MIDPOINT then 0.0 else 255.0
  }

  function Remainder(wanted: real): real {
    wanted - Drawn(wanted)
  }

  function Add(error: seq<real>, index: int, amount: real): (r: seq<real>)
    requires 0 <= index < |error|
    ensures |r| == |error|
  {
    error[index := error[index] + amount]
  }

  /** A raster of `width` by `height` pixels, and a place in its scan. */
  predicate InScan(width: nat, height: nat, row: nat, column: nat) {
    row < height && column < width
  }

  lemma {:induction false} InBuffer(width: nat, height: nat, row: nat, column: nat)
    requires InScan(width, height, row, column)
    ensures Area(width, row) + column < Area(width, row + 1) <= Area(width, height)
    ensures row + 1 < height ==> Area(width, row + 2) <= Area(width, height)
  {
    AreaIncreases(width, row + 1, height);
    if row + 1 < height {
      AreaIncreases(width, row + 2, height);
    }
  }

  /** Whether a pixel's neighbours fit the buffer. */
  predicate Fits(size: nat, index: nat, width: nat, lastColumn: bool, lastRow: bool) {
    && width > 0 && index < size
    && (!lastColumn ==> index + 1 < size)
    && (!lastRow ==> index + width < size && (!lastColumn ==> index + width + 1 < size))
  }

  /** A remainder shared out, in sixteenths, among the neighbours not yet drawn that the plate has. */
  function Diffused(error: seq<real>, index: nat, width: nat, remainder: real,
                    firstColumn: bool, lastColumn: bool, lastRow: bool): (r: seq<real>)
    requires Fits(|error|, index, width, lastColumn, lastRow)
    ensures |r| == |error|
  {
    var right := if lastColumn then error else Add(error, index + 1, remainder * 7.0 / 16.0);
    if lastRow then right else DiffusedBelow(right, index, width, remainder, firstColumn, lastColumn)
  }

  function DiffusedBelow(error: seq<real>, index: nat, width: nat, remainder: real, firstColumn: bool, lastColumn: bool)
    : (r: seq<real>)
    requires Fits(|error|, index, width, lastColumn, false)
    ensures |r| == |error|
  {
    var belowLeft := if firstColumn then error else Add(error, index + width - 1, remainder * 3.0 / 16.0);
    var below := Add(belowLeft, index + width, remainder * 5.0 / 16.0);
    if lastColumn then below else Add(below, index + width + 1, remainder * 1.0 / 16.0)
  }

  lemma {:induction false} NeighboursFit(width: nat, height: nat, row: nat, column: nat)
    requires InScan(width, height, row, column)
    ensures Fits(Area(width, height), Area(width, row) + column, width, column + 1 == width, row + 1 == height)
  {
    InBuffer(width, height, row, column);
    assert row + 1 < height ==> Area(width, row + 2) == Area(width, row + 1) + width;
  }

  /** One pixel: draw the nearer of ink and paper and push what is left over onto the neighbours there are. */
  function Step(drawing: Drawing, width: nat, height: nat, row: nat, column: nat): (next: Drawing)
    requires InScan(width, height, row, column) && |drawing.error| == Area(width, height)
    ensures |next.error| == |drawing.error| && |next.ink| == |drawing.ink| + 1
  {
    NeighboursFit(width, height, row, column);
    var index := Area(width, row) + column;
    var wanted := drawing.error[index];
    Drawing(
      Diffused(drawing.error, index, width, Remainder(wanted), column == 0, column + 1 == width, row + 1 == height),
      drawing.ink + [if Drawn(wanted) == 0.0 then 1 else 0])
  }

  /** The drawing when the scan reaches a place: every pixel before it is drawn. */
  function Scan(tones: seq<real>, width: nat, height: nat, row: nat, column: nat): (drawing: Drawing)
    requires |tones| == Area(width, height) && row <= height && column <= width && (row == height ==> column == 0)
    ensures |drawing.error| == |tones| && |drawing.ink| == Area(width, row) + column
    decreases row, column
  {
    if column > 0 then Step(Scan(tones, width, height, row, column - 1), width, height, row, column - 1)
    else if row > 0 then Scan(tones, width, height, row - 1, width)
    else Drawing(tones, [])
  }

  /** The bitmap is what the scan draws of the steepened tones, from first pixel to last. */
  method DitherPlate(image: GrayImage, contrast: real) returns (bitmap: Bitmap)
    requires |image.gray| == Area(image.width, image.height)
    ensures bitmap.width == image.width && bitmap.height == image.height
    ensures bitmap.ink == Scan(Tones(image.gray, contrast), image.width, image.height, image.height, 0).ink
  {
    var width, height := image.width, image.height;
    ghost var tones := Tones(image.gray, contrast);
    var error := LoadTones(image.gray, contrast);
    var ink := new Byte[Area(width, height)](_ => 0);
    for row := 0 to height
      invariant error[..] == Scan(tones, width, height, row, 0).error
      invariant Area(width, row) <= ink.Length && ink[..Area(width, row)] == Scan(tones, width, height, row, 0).ink
    {
      DrawRow(error, ink, tones, width, height, row);
    }
    assert ink[..] == ink[..Area(width, height)];
    return Bitmap(width, height, ink[..]);
  }

  method LoadTones(gray: seq<Byte>, contrast: real) returns (error: array<real>)
    ensures fresh(error) && error[..] == Tones(gray, contrast)
  {
    ghost var tones := Tones(gray, contrast);
    error := new real[|gray|](_ => 0.0);
    for index := 0 to |gray|
      invariant forall i :: 0 <= i < index ==> error[i] == tones[i]
      invariant forall i :: index <= i < error.Length ==> error[i] == 0.0
    {
      error[index] := error[index] + Steepened(gray[index], contrast);
    }
  }

  method DrawRow(error: array<real>, ink: array<Byte>, ghost tones: seq<real>, width: nat, height: nat, row: nat)
    requires row < height && |tones| == error.Length == ink.Length == Area(width, height)
    requires error[..] == Scan(tones, width, height, row, 0).error
    requires Area(width, row) <= ink.Length && ink[..Area(width, row)] == Scan(tones, width, height, row, 0).ink
    modifies error, ink
    ensures error[..] == Scan(tones, width, height, row + 1, 0).error
    ensures Area(width, row + 1) <= ink.Length
    ensures ink[..Area(width, row + 1)] == Scan(tones, width, height, row + 1, 0).ink
  {
    AreaIncreases(width, row + 1, height);
    for column := 0 to width
      invariant error[..] == Scan(tones, width, height, row, column).error
      invariant ink[..Area(width, row) + column] == Scan(tones, width, height, row, column).ink
    {
      DrawPixel(error, ink, width, height, row, column, Scan(tones, width, height, row, column));
    }
  }

  method DrawPixel(error: array<real>, ink: array<Byte>, width: nat, height: nat, row: nat, column: nat,
                   ghost drawing: Drawing)
    requires InScan(width, height, row, column)
    requires error.Length == Area(width, height) == ink.Length && |drawing.error| == Area(width, height)
    requires error[..] == drawing.error && Area(width, row) + column < ink.Length
    requires ink[..Area(width, row) + column] == drawing.ink
    modifies error, ink
    ensures error[..] == Step(drawing, width, height, row, column).error
    ensures ink[..Area(width, row) + column + 1] == Step(drawing, width, height, row, column).ink
  {
    NeighboursFit(width, height, row, column);
    var index := Area(width, row) + column;
    var wanted := error[index];
    var drawn := Drawn(wanted);
    ink[index] := if drawn == 0.0 then 1 else 0;
    assert ink[..index + 1] == ink[..index] + [ink[index]];
    Diffuse(error, index, width, wanted - drawn, column == 0, column + 1 >= width, row + 1 >= height);
  }

  method Diffuse(error: array<real>, index: nat, width: nat, remainder: real,
                 firstColumn: bool, lastColumn: bool, lastRow: bool)
    requires Fits(error.Length, index, width, lastColumn, lastRow)
    modifies error
    ensures error[..] == Diffused(old(error[..]), index, width, remainder, firstColumn, lastColumn, lastRow)
  {
    if !lastColumn {
      error[index + 1] := error[index + 1] + remainder * 7.0 / 16.0;
    }
    if lastRow {
      return;
    }
    if !firstColumn {
      error[index + width - 1] := error[index + width - 1] + remainder * 3.0 / 16.0;
    }
    error[index + width] := error[index + width] + remainder * 5.0 / 16.0;
    if !lastColumn {
      error[index + width + 1] := error[index + width + 1] + remainder * 1.0 / 16.0;
    }
  }
}
