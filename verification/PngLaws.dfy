// A plate written by png.ts's encoder reads back as the plate, pixel for pixel.
module PngLaws {
  import opened Wrappers
  import opened PngBytes
  import opened PngFilter
  import opened Raster
  import opened Png

  // ---- Tones keep their ends and their order ----

  /** Black stays black, white stays white, an opaque sample is itself and a transparent one is paper. */
  lemma {:induction false} TonesKeepTheirEnds(value: Byte)
    ensures Luminance(value, value, value) == value
    ensures OverPaper(value, 255) == value && OverPaper(value, 0) == 255
    ensures OverPaper(255, value) == 255
  {
  }

  /** Pure green reads lightest and pure blue darkest, in whole tones; and more of any channel never reads darker. */
  lemma {:induction false} ChannelsWeigh(red: Byte, green: Byte, blue: Byte, more: Byte)
    ensures Luminance(255, 0, 0) == 54 && Luminance(0, 255, 0) == 182 && Luminance(0, 0, 255) == 18
    ensures red <= more ==> Luminance(red, green, blue) <= Luminance(more, green, blue)
    ensures green <= more ==> Luminance(red, green, blue) <= Luminance(red, more, blue)
    ensures blue <= more ==> Luminance(red, green, blue) <= Luminance(red, green, more)
  {
  }

  // ---- Packing ----

  /** The bit of a column is set exactly when its pixel is paper and it has been reached; past the width none is. */
  lemma {:induction false} PackedBit(ink: seq<Byte>, width: nat, row: nat, columns: nat, column: nat)
    requires columns <= width && (column < width || column / 8 < Stride(width, 1))
    ensures column / 8 < Stride(width, 1)
    ensures Bit(PackedRow(ink, width, row, columns)[column / 8], 7 - column % 8) ==
            if column < columns && IsPaper(ink, Area(width, row) + column) then 1 else 0
  {
    hide IsPaper, Area;
    if columns == 0 {
      BitOfZero(7 - column % 8);
    } else {
      var last := columns - 1;
      PackedBit(ink, width, row, last, column);
      if IsPaper(ink, Area(width, row) + last) && column / 8 == last / 8 {
        var packed := PackedRow(ink, width, row, last);
        OrSetsOneBit(packed[last / 8], 7 - last % 8, 7 - column % 8);
        assert column == last <==> column % 8 == last % 8;
      }
    }
  }

  // ---- The packed rows are filtered rows, with the filter that predicts nothing ----

  function BitRows(ink: seq<Byte>, width: nat, rows: nat): (packed: seq<seq<Byte>>)
    ensures |packed| == rows && forall i :: 0 <= i < rows ==> |packed[i]| == Stride(width, 1)
  {
    if rows == 0 then [] else BitRows(ink, width, rows - 1) + [PackedRow(ink, width, rows - 1, width)]
  }

  function NoFilters(rows: nat): seq<Filter> {
    seq(rows, _ => 0)
  }

  lemma {:induction false} PackedIsFiltered(ink: seq<Byte>, width: nat, rows: nat)
    ensures PackedRows(ink, width, rows) ==
            RowsFiltered(BitRows(ink, width, rows), NoFilters(rows), Stride(width, 1), 1)
  {
    hide Stride, PackedRow, Area;
    if rows != 0 {
      PackedIsFiltered(ink, width, rows - 1);
      var packed := BitRows(ink, width, rows);
      var row := PackedRow(ink, width, rows - 1, width);
      assert packed[..rows - 1] == BitRows(ink, width, rows - 1);
      assert NoFilters(rows)[..rows - 1] == NoFilters(rows - 1);
      var above := Above(packed[..rows - 1], Stride(width, 1));
      assert RowFiltered(row, 0, above, 1) == row;
    }
  }

  lemma {:induction false} FlatRowAt(rows: seq<seq<Byte>>, stride: nat, row: nat, index: nat)
    requires row < |rows| && index < stride && forall i :: 0 <= i < |rows| ==> |rows[i]| == stride
    ensures At(Flat(rows), Area(stride, row) + index) == rows[row][index]
  {
    var rest := rows[..|rows| - 1];
    FlatSize(rest, stride);
    if row < |rows| - 1 {
      FlatRowAt(rest, stride, row, index);
      AreaIncreases(stride, row + 1, |rows| - 1);
    }
  }

  lemma {:induction false} BitRowIs(ink: seq<Byte>, width: nat, rows: nat, row: nat)
    requires row < rows
    ensures BitRows(ink, width, rows)[row] == PackedRow(ink, width, row, width)
  {
    if row < rows - 1 {
      BitRowIs(ink, width, rows - 1, row);
    }
  }

  /** Decoding the packed rows gives the rows of bits back. */
  lemma {:induction false} PackedRowsUnfilter(ink: seq<Byte>, width: nat, rows: nat)
    ensures Unfiltered(PackedRows(ink, width, rows), Stride(width, 1), rows, 1) ==
            Success(Flat(BitRows(ink, width, rows)))
  {
    PackedIsFiltered(ink, width, rows);
    FiltersRoundTrip(BitRows(ink, width, rows), NoFilters(rows), Stride(width, 1), 1);
  }

  // ---- Reading a plate back ----

  function PlateHead(bitmap: Bitmap): Head {
    Head(bitmap.width, bitmap.height, 1, 3, 1)
  }

  /** The sample of a pixel is 1 for paper and 0 for ink. */
  lemma {:induction false} SampleIsPaper(bitmap: Bitmap, row: nat, column: nat)
    requires row < bitmap.height && column < bitmap.width
    ensures var raw := Flat(BitRows(bitmap.ink, bitmap.width, bitmap.height));
            Sample(raw, Stride(bitmap.width, 1), PlateHead(bitmap), row, column, 0) ==
            if IsPaper(bitmap.ink, Area(bitmap.width, row) + column) then 1 else 0
  {
    var rows := BitRows(bitmap.ink, bitmap.width, bitmap.height);
    var stride := Stride(bitmap.width, 1);
    PackedBit(bitmap.ink, bitmap.width, row, bitmap.width, column);
    FlatRowAt(rows, stride, row, column / 8);
    BitRowIs(bitmap.ink, bitmap.width, bitmap.height, row);
    ShiftedBit(rows[row][column / 8], 7 - column % 8);
    assert Power2(1) == 2;
    assert column * 1 == column;
  }

  function ToneOf(hex: string): Byte
    requires IsColour(hex)
  {
    var rgb := Rgb(hex);
    Luminance(rgb[0], rgb[1], rgb[2])
  }

  function PlateTone(bitmap: Bitmap, palette: PlatePalette, index: nat): Byte
    requires IsColour(palette.ink) && IsColour(palette.paper)
  {
    if IsPaper(bitmap.ink, index) then ToneOf(palette.paper) else ToneOf(palette.ink)
  }

  /** The tones a plate is read back with: the ink's or the paper's, exactly as the bitmap says. */
  function PlateRow(bitmap: Bitmap, palette: PlatePalette, row: nat, columns: nat): (gray: seq<Byte>)
    requires IsColour(palette.ink) && IsColour(palette.paper)
    ensures |gray| == columns
  {
    seq<Byte>(columns, column requires 0 <= column < columns =>
      PlateTone(bitmap, palette, Area(bitmap.width, row) + column))
  }

  function PlateRows(bitmap: Bitmap, palette: PlatePalette, rows: nat): (gray: seq<Byte>)
    requires IsColour(palette.ink) && IsColour(palette.paper)
    ensures |gray| == Area(bitmap.width, rows)
  {
    if rows == 0 then []
    else PlateRows(bitmap, palette, rows - 1) + PlateRow(bitmap, palette, rows - 1, bitmap.width)
  }

  /** Pixel `width * row + column` of the tones is the tone of that pixel of the bitmap. */
  lemma {:induction false} PlatePixel(bitmap: Bitmap, palette: PlatePalette, rows: nat, row: nat, column: nat)
    requires IsColour(palette.ink) && IsColour(palette.paper) && row < rows && column < bitmap.width
    ensures bitmap.width * row + column < bitmap.width * rows == |PlateRows(bitmap, palette, rows)|
    ensures PlateRows(bitmap, palette, rows)[bitmap.width * row + column] ==
            if IsPaper(bitmap.ink, bitmap.width * row + column) then ToneOf(palette.paper) else ToneOf(palette.ink)
  {
    AreaIsProduct(bitmap.width, row);
    AreaIsProduct(bitmap.width, rows);
    AreaIncreases(bitmap.width, row + 1, rows);
    PlatePixelAt(bitmap, palette, rows, row, column);
  }

  lemma {:induction false} PlatePixelAt(bitmap: Bitmap, palette: PlatePalette, rows: nat, row: nat, column: nat)
    requires IsColour(palette.ink) && IsColour(palette.paper) && row < rows && column < bitmap.width
    ensures Area(bitmap.width, row) + column < Area(bitmap.width, rows)
    ensures PlateRows(bitmap, palette, rows)[Area(bitmap.width, row) + column] ==
            PlateTone(bitmap, palette, Area(bitmap.width, row) + column)
  {
    if row < rows - 1 {
      PlatePixelAt(bitmap, palette, rows - 1, row, column);
    }
  }

  lemma {:induction false} PalettePixel(bitmap: Bitmap, palette: PlatePalette, row: nat, column: nat)
    requires IsColour(palette.ink) && IsColour(palette.paper) && row < bitmap.height && column < bitmap.width
    ensures Pixel(Flat(BitRows(bitmap.ink, bitmap.width, bitmap.height)), Stride(bitmap.width, 1), PlateHead(bitmap),
                  Rgb(palette.ink) + Rgb(palette.paper), row, column) ==
            PlateRow(bitmap, palette, row, bitmap.width)[column]
  {
    SampleIsPaper(bitmap, row, column);
    var ink, paper := Rgb(palette.ink), Rgb(palette.paper);
    assert EntryTone(ink + paper, 0) == ToneOf(palette.ink);
    assert EntryTone(ink + paper, 1) == ToneOf(palette.paper);
  }

  lemma {:induction false} GrayRowIsPlate(bitmap: Bitmap, palette: PlatePalette, row: nat, columns: nat)
    requires IsColour(palette.ink) && IsColour(palette.paper) && row < bitmap.height && columns <= bitmap.width
    ensures GrayRow(Flat(BitRows(bitmap.ink, bitmap.width, bitmap.height)), Stride(bitmap.width, 1), PlateHead(bitmap),
                    Rgb(palette.ink) + Rgb(palette.paper), row, columns) == PlateRow(bitmap, palette, row, columns)
  {
    if columns != 0 {
      GrayRowIsPlate(bitmap, palette, row, columns - 1);
      PalettePixel(bitmap, palette, row, columns - 1);
    }
  }

  lemma {:induction false} GrayRowsArePlate(bitmap: Bitmap, palette: PlatePalette, rows: nat)
    requires IsColour(palette.ink) && IsColour(palette.paper) && rows <= bitmap.height
    ensures GrayRows(Flat(BitRows(bitmap.ink, bitmap.width, bitmap.height)), Stride(bitmap.width, 1), PlateHead(bitmap),
                     Rgb(palette.ink) + Rgb(palette.paper), rows) == PlateRows(bitmap, palette, rows)
  {
    hide Pixel;
    if rows != 0 {
      GrayRowsArePlate(bitmap, palette, rows - 1);
      GrayRowIsPlate(bitmap, palette, rows - 1, bitmap.width);
    }
  }

  lemma {:induction false} FileChunksReadBack(bitmap: Bitmap, palette: PlatePalette, deflate: seq<Byte> -> seq<Byte>,
                           crc: seq<Byte> -> UInt32)
    requires Encoded(bitmap, palette, deflate, crc).Success?
    ensures ChunksOf(Encoded(bitmap, palette, deflate, crc).value) == Success(FileChunks(bitmap, palette, deflate))
  {
    var chunks := FileChunks(bitmap, palette, deflate);
    FileChunksAreChunks(bitmap, palette, deflate);
    ChunksRoundTrip(SIGNATURE, chunks, [], crc);
    assert SIGNATURE + EncodeChunks(chunks, crc) + [] == SIGNATURE + EncodeChunks(chunks, crc);
    assert UpToEnd(chunks) == chunks by { FiveChunks(chunks[0], chunks[1], chunks[2], chunks[3], chunks[4]); }
    assert Slice(SIGNATURE + EncodeChunks(chunks, crc), 0, 8) == SIGNATURE;
  }

  lemma {:induction false} FiveChunks(a: Chunk, b: Chunk, c: Chunk, d: Chunk, e: Chunk)
    requires a.name != "IEND" && b.name != "IEND" && c.name != "IEND" && d.name != "IEND" && e.name == "IEND"
    ensures UpToEnd([a, b, c, d, e]) == [a, b, c, d, e]
  {
    assert [a, b, c, d, e][1..] == [b, c, d, e] && [b, c, d, e][1..] == [c, d, e];
    assert [c, d, e][1..] == [d, e] && [d, e][1..] == [e];
    assert UpToEnd([d, e]) == [d] + UpToEnd([e]);
    assert UpToEnd([c, d, e]) == [c] + UpToEnd([d, e]);
    assert UpToEnd([b, c, d, e]) == [b] + UpToEnd([c, d, e]);
  }

  lemma {:induction false} FileChunksByName(bitmap: Bitmap, palette: PlatePalette, deflate: seq<Byte> -> seq<Byte>)
    requires bitmap.width < 0x1_0000_0000 && bitmap.height < 0x1_0000_0000
    requires IsColour(palette.ink) && IsColour(palette.paper)
    ensures var chunks := FileChunks(bitmap, palette, deflate);
            && Find(chunks, "IHDR") == Some(HeaderData(bitmap.width, bitmap.height))
            && Find(chunks, "PLTE") == Some(Rgb(palette.ink) + Rgb(palette.paper))
            && Joined(chunks, "IDAT") == deflate(PackedRows(bitmap.ink, bitmap.width, bitmap.height))
  {
    var chunks := FileChunks(bitmap, palette, deflate);
    var data := chunks[3].data;
    assert chunks[1..][0] == chunks[1] && chunks[1..][1..] == chunks[2..];
    assert chunks[2..][1..] == chunks[3..] && chunks[3..][1..] == chunks[4..] && chunks[4..][1..] == [];
    assert Joined(chunks[4..], "IDAT") == [];
    assert Joined(chunks[3..], "IDAT") == data;
    assert Joined(chunks[2..], "IDAT") == data;
    assert Joined(chunks[1..], "IDAT") == data;
  }

  lemma {:induction false} HeaderReadsBack(bitmap: Bitmap)
    requires bitmap.width < 0x1_0000_0000 && bitmap.height < 0x1_0000_0000
    ensures HeadOf(HeaderData(bitmap.width, bitmap.height)) == Success(PlateHead(bitmap))
  {
    var tail: seq<Byte> := [1, 3, 0, 0, 0];
    var data := HeaderData(bitmap.width, bitmap.height);
    UInt32RoundTrip(bitmap.width, [], WriteUInt32(bitmap.height) + tail);
    UInt32RoundTrip(bitmap.height, WriteUInt32(bitmap.width), tail);
    assert data == [] + WriteUInt32(bitmap.width) + (WriteUInt32(bitmap.height) + tail);
    assert data[8..] == tail;
    assert data[8] == tail[0] && data[9] == tail[1] && data[12] == tail[4];
  }

  /** For every bitmap and every two-colour palette the encoder accepts, decoding its file gives back the size and, at
      each pixel, the luminance of ink or of paper exactly as the bitmap says. */
  lemma {:induction false} PlateRoundTrip(bitmap: Bitmap, palette: PlatePalette, deflate: seq<Byte> -> seq<Byte>,
                       inflate: seq<Byte> -> Option<seq<Byte>>, crc: seq<Byte> -> UInt32)
    requires forall raw :: inflate(deflate(raw)) == Some(raw)
    requires Encoded(bitmap, palette, deflate, crc).Success?
    ensures Decoded(Encoded(bitmap, palette, deflate, crc).value, inflate) ==
            Success(GrayImage(bitmap.width, bitmap.height, PlateRows(bitmap, palette, bitmap.height)))
  {
    FileChunksReadBack(bitmap, palette, deflate, crc);
    FileChunksByName(bitmap, palette, deflate);
    HeaderReadsBack(bitmap);
    PackedRowsUnfilter(bitmap.ink, bitmap.width, bitmap.height);
    GrayRowsArePlate(bitmap, palette, bitmap.height);
  }
}
