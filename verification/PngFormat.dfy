// What png.ts reads and writes, byte by byte: rows under their filters (section 6 of RFC 2083), numbers, chunks, the
// header and tones, each stated by its own arithmetic.
module PngFormat {
  import opened Wrappers
  import opened PngBytes
  import opened PngFilter
  import opened Raster
  import opened Png
  import PngLaws

  // ---- Rows, as the five filter types leave them ----

  /** The byte of a row and column of an image; outside it, 0. */
  ghost function Cell(out: seq<Byte>, stride: nat, row: int, column: int): Byte {
    if row < 0 || column < 0 || row * stride + column < 0 || row * stride + column >= |out| then 0
    else out[row * stride + column]
  }

  ghost function Away(estimate: int, neighbour: int): nat {
    if estimate < neighbour then neighbour - estimate else estimate - neighbour
  }

  /** Of three neighbours the nearest to left + up - upLeft, and the first of those as near. */
  ghost predicate IsFirstNearest(neighbours: seq<Byte>, pick: nat)
    requires |neighbours| == 3
  {
    var left: int, up: int, upLeft: int := neighbours[0], neighbours[1], neighbours[2];
    var estimate := left + up - upLeft;
    && pick < 3
    && (forall other :: 0 <= other < pick ==> Away(estimate, neighbours[pick]) < Away(estimate, neighbours[other]))
    && forall other :: pick < other < 3 ==> Away(estimate, neighbours[pick]) <= Away(estimate, neighbours[other])
  }

  /** A byte is a filtered byte put back, for each of the five filter types. */
  ghost predicate IsPutBack(filter: Byte, value: Byte, left: Byte, up: Byte, upLeft: Byte, byte: Byte) {
    && filter <= 4
    && (filter == 0 ==> byte == value)
    && (filter == 1 ==> byte == (value + left) % 256)
    && (filter == 2 ==> byte == (value + up) % 256)
    && (filter == 3 ==> byte == (value + (left + up) / 2) % 256)
    && (filter == 4 ==> exists pick: nat :: IsFirstNearest([left, up, upLeft], pick) &&
                                            byte == (value + [left, up, upLeft][pick]) % 256)
  }

  /** A byte of the rebuilt image, against the filtered stream: its row starts with a filter type, and it is the byte
      the stream holds for it put back from the bytes `bpp` to the left, above, and above that one. What the stream does
      not hold is 0. */
  ghost predicate IsRebuilt(raw: seq<Byte>, out: seq<Byte>, stride: nat, bpp: nat, row: nat, column: nat) {
    var start := row * (stride + 1);
    var here := Cell(out, stride, row, column);
    && start < |raw|
    && if start + 1 + column < |raw| then
         IsPutBack(raw[start], raw[start + 1 + column], Cell(out, stride, row, column - bpp),
                   Cell(out, stride, row - 1, column), Cell(out, stride, row - 1, column - bpp), here)
       else raw[start] <= 4 && here == 0
  }

  lemma {:induction false} PaethIsFirstNearest(left: Byte, up: Byte, upLeft: Byte)
    ensures exists pick: nat :: IsFirstNearest([left, up, upLeft], pick) &&
                                Paeth(left, up, upLeft) == [left, up, upLeft][pick]
  {
    var neighbours: seq<Byte> := [left, up, upLeft];
    var pick: nat := if Paeth(left, up, upLeft) == left then 0 else if Paeth(left, up, upLeft) == up then 1 else 2;
    assert IsFirstNearest(neighbours, pick);
  }

  lemma {:induction false} UndoneIsPutBack(filter: Filter, value: Byte, left: Byte, up: Byte, upLeft: Byte)
    ensures IsPutBack(filter, value, left, up, upLeft, Undone(filter, Some(value), left, up, upLeft))
  {
    hide Paeth, IsFirstNearest;
    PaethIsFirstNearest(left, up, upLeft);
  }

  lemma {:induction false} RowByteIs(raw: seq<Byte>, from: nat, filter: Filter, above: seq<Byte>, bpp: nat, count: nat,
                                     index: nat)
    requires bpp >= 1 && index < count
    ensures var row := RowUndone(raw, from, filter, above, bpp, count);
            row[index] == Undone(filter, Held(raw, from + index), At(row, index - bpp), At(above, index),
                                 At(above, index - bpp))
  {
    hide Undone, Held;
    if index < count - 1 {
      RowByteIs(raw, from, filter, above, bpp, count - 1, index);
    }
  }

  /** A row of the rebuilt rows, by the filter its first byte names. */
  lemma {:induction false} RowIs(raw: seq<Byte>, stride: nat, bpp: nat, height: nat, row: nat)
    requires row < height && RowsUndone(raw, stride, bpp, height).Success?
    ensures RowsUndone(raw, stride, bpp, row).Success?
    ensures var rows := RowsUndone(raw, stride, bpp, height).value;
            && |rows| == height && RowsUndone(raw, stride, bpp, row).value == rows[..row]
            && var from := Area(stride + 1, row);
            && (stride > 0 ==> from < |raw| && raw[from] <= 4)
            && rows[row] == if stride == 0 then []
                            else RowUndone(raw, from + 1, raw[from], Above(rows[..row], stride), bpp, stride)
  {
    hide RowUndone, Area, Above;
    RowsUndoneShape(raw, stride, bpp, height);
    if row < height - 1 {
      RowIs(raw, stride, bpp, height - 1, row);
      assert RowsUndone(raw, stride, bpp, height).value[..height - 1] == RowsUndone(raw, stride, bpp, height - 1).value;
      assert RowsUndone(raw, stride, bpp, height).value[..row] ==
             RowsUndone(raw, stride, bpp, height).value[..height - 1][..row];
    } else {
      assert RowsUndone(raw, stride, bpp, height).value[..row] == RowsUndone(raw, stride, bpp, row).value;
    }
  }

  lemma {:induction false} CellOf(rows: seq<seq<Byte>>, stride: nat, row: int, column: int)
    requires (forall i :: 0 <= i < |rows| ==> |rows[i]| == stride) && row < |rows| && column < stride
    ensures Cell(Flat(rows), stride, row, column) == if row < 0 then 0 else At(rows[row], column)
  {
    if row >= 0 && column >= 0 {
      PngLaws.FlatRowAt(rows, stride, row, column);
      AreaIsProduct(stride, row);
      FlatSize(rows, stride);
      AreaIncreases(stride, row + 1, |rows|);
    }
  }

  lemma {:induction false} ByteIsRebuilt(raw: seq<Byte>, stride: nat, bpp: nat, rows: seq<seq<Byte>>, row: nat,
                                         column: nat)
    requires bpp >= 1 && RowsUndone(raw, stride, bpp, |rows|) == Success(rows) && row < |rows| && column < stride
    ensures IsRebuilt(raw, Flat(rows), stride, bpp, row, column)
  {
    hide RowsUndone, RowUndone, Undone, Flat, Cell, IsPutBack;
    RowsUndoneShape(raw, stride, bpp, |rows|);
    RowIs(raw, stride, bpp, |rows|, row);
    AreaIsProduct(stride + 1, row);
    var from, above := Area(stride + 1, row), Above(rows[..row], stride);
    RowByteIs(raw, from + 1, raw[from], above, bpp, stride, column);
    CellOf(rows, stride, row, column);
    CellOf(rows, stride, row, column - bpp);
    CellOf(rows, stride, row - 1, column);
    CellOf(rows, stride, row - 1, column - bpp);
    var left, up, upLeft := At(rows[row], column - bpp), At(above, column), At(above, column - bpp);
    if from + 1 + column < |raw| {
      UndoneIsPutBack(raw[from], raw[from + 1 + column], left, up, upLeft);
    } else {
      NothingIsPutBack(raw[from], left, up, upLeft);
    }
  }

  lemma {:induction false} NothingIsPutBack(filter: Filter, left: Byte, up: Byte, upLeft: Byte)
    ensures Undone(filter, None, left, up, upLeft) == 0
  {
  }

  /** Every byte the decoder rebuilds, type by type: for every stream, stride, pixel size and height. */
  lemma {:induction false} EveryByteIsRebuilt(raw: seq<Byte>, stride: nat, height: nat, bpp: nat)
    requires bpp >= 1 && Unfiltered(raw, stride, height, bpp).Success?
    ensures var out := Unfiltered(raw, stride, height, bpp).value;
            && |out| == stride * height
            && forall row, column :: 0 <= row < height && 0 <= column < stride ==>
                 IsRebuilt(raw, out, stride, bpp, row, column)
  {
    hide IsRebuilt, RowsUndone, Flat;
    var rows := RowsUndone(raw, stride, bpp, height).value;
    RowsUndoneShape(raw, stride, bpp, height);
    FlatSize(rows, stride);
    AreaIsProduct(stride, height);
    forall row, column | 0 <= row < height && 0 <= column < stride
      ensures IsRebuilt(raw, Flat(rows), stride, bpp, row, column)
    {
      ByteIsRebuilt(raw, stride, bpp, rows, row, column);
    }
  }

  /** A stream holds no row filter where a row should start with one. */
  predicate LacksFilter(raw: seq<Byte>, stride: nat, row: nat) {
    row * (stride + 1) >= |raw| || raw[row * (stride + 1)] > 4
  }

  lemma {:induction false} LacksFilterAt(raw: seq<Byte>, stride: nat, row: nat)
    ensures LacksFilter(raw, stride, row) <==>
            Area(stride + 1, row) >= |raw| || raw[Area(stride + 1, row)] > 4
  {
    AreaIsProduct(stride + 1, row);
  }

  /** The rows are refused exactly when they hold bytes and one of them starts with no filter type: by that name. */
  lemma {:induction false} RowsAreRefusedExactly(raw: seq<Byte>, stride: nat, height: nat, bpp: nat)
    ensures Unfiltered(raw, stride, height, bpp).Failure? <==>
            stride > 0 && exists row :: 0 <= row < height && LacksFilter(raw, stride, row)
    ensures Unfiltered(raw, stride, height, bpp).Failure? ==> Unfiltered(raw, stride, height, bpp).error == RowFilter
  {
    hide Flat;
    RowsUndoneFail(raw, stride, bpp, height);
  }

  lemma {:induction false} RowsUndoneFail(raw: seq<Byte>, stride: nat, bpp: nat, height: nat)
    ensures RowsUndone(raw, stride, bpp, height).Failure? <==>
            stride > 0 && exists row :: 0 <= row < height && LacksFilter(raw, stride, row)
    ensures RowsUndone(raw, stride, bpp, height).Failure? ==>
              RowsUndone(raw, stride, bpp, height).error == RowFilter
  {
    hide RowUndone, Above, LacksFilter, Area;
    if height != 0 {
      RowsUndoneFail(raw, stride, bpp, height - 1);
      LacksFilterAt(raw, stride, height - 1);
    }
  }

  // ---- Numbers and chunks, section 3.2 of RFC 2083 ----

  /** Four bytes hold a number, the most significant byte first. */
  ghost predicate HoldsNumber(bytes: seq<Byte>, at: nat, number: int) {
    && at + 4 <= |bytes|
    && var first: int, second: int, third: int, fourth: int :=
         bytes[at], bytes[at + 1], bytes[at + 2], bytes[at + 3];
       number == ((first * 256 + second) * 256 + third) * 256 + fourth
  }

  /** Numbers are read and written most significant byte first. */
  lemma {:induction false} NumbersAreBigEndian(bytes: seq<Byte>, at: nat, n: UInt32)
    requires at + 4 <= |bytes|
    ensures ReadUInt32(bytes, at) == n <==> HoldsNumber(bytes, at, n)
    ensures HoldsNumber(WriteUInt32(n), 0, n)
  {
    WrittenIs(n);
  }

  lemma {:induction false} WrittenIs(n: UInt32)
    ensures HoldsNumber(WriteUInt32(n), 0, n)
  {
  }

  lemma {:induction false} NumberIsAt(bytes: seq<Byte>, at: nat, n: UInt32)
    requires at + 4 <= |bytes| && bytes[at..at + 4] == WriteUInt32(n)
    ensures HoldsNumber(bytes, at, n)
  {
    WrittenIs(n);
    assert forall i :: 0 <= i < 4 ==> bytes[at + i] == bytes[at..at + 4][i] == WriteUInt32(n)[i];
    hide WriteUInt32;
  }

  /** Where the four parts of a frame stand. */
  lemma {:induction false} FrameParts(size: seq<Byte>, name: seq<Byte>, data: seq<Byte>, check: seq<Byte>)
    requires |size| == |name| == |check| == 4
    ensures var frame := size + (name + data) + check;
            && |frame| == |data| + 12 && frame[0..4] == size && frame[4..8] == name
            && frame[8..8 + |data|] == data && frame[4..8 + |data|] == name + data
            && frame[8 + |data|..8 + |data| + 4] == check
  {
    var frame := size + (name + data) + check;
    assert frame[8..8 + |data|] == data;
    assert frame[4..8 + |data|] == name + data;
  }

  /** A chunk on disk: the size of its data, its four letters, its data, and the checksum of the letters and the data.
      */
  lemma {:induction false} FrameIs(chunk: Chunk, crc: seq<Byte> -> UInt32)
    requires IsChunk(chunk)
    ensures var frame, size := EncodeChunk(chunk, crc), |chunk.data|;
            && |frame| == size + 12 && HoldsNumber(frame, 0, size)
            && FromLatin1(frame[4..8]) == chunk.name && frame[8..8 + size] == chunk.data
            && HoldsNumber(frame, 8 + size, crc(frame[4..8 + size]))
  {
    var name, size := ToLatin1(chunk.name), |chunk.data|;
    var check := crc(name + chunk.data);
    Latin1RoundTrip(chunk.name);
    FrameParts(WriteUInt32(size), name, chunk.data, WriteUInt32(check));
    hide WriteUInt32, HoldsNumber, ToLatin1, FromLatin1;
    var frame := EncodeChunk(chunk, crc);
    NumberIsAt(frame, 0, size);
    NumberIsAt(frame, 8 + size, check);
  }

  /** A byte and its character are the same number. */
  lemma {:induction false} CharactersAreBytes(bytes: seq<Byte>)
    ensures |FromLatin1(bytes)| == |bytes|
    ensures forall i :: 0 <= i < |bytes| ==> FromLatin1(bytes)[i] as int == bytes[i]
  {
  }

  /** The chunk looked up by name is the first of that name, if there is one. */
  lemma {:induction false} FindIsTheFirst(chunks: seq<Chunk>, name: string)
    ensures match Find(chunks, name)
            case None => forall i :: 0 <= i < |chunks| ==> chunks[i].name != name
            case Some(data) => exists i :: 0 <= i < |chunks| && chunks[i] == Chunk(name, data) &&
                                           forall j :: 0 <= j < i ==> chunks[j].name != name
    decreases |chunks|
  {
    if chunks != [] && chunks[0].name != name {
      FindIsTheFirst(chunks[1..], name);
      assert forall i :: 0 < i < |chunks| ==> chunks[i] == chunks[1..][i - 1];
      if data :| Find(chunks, name) == Some(data) {
        var i :| 0 <= i < |chunks| - 1 && chunks[1..][i] == Chunk(name, data) &&
                 forall j :: 0 <= j < i ==> chunks[1..][j].name != name;
        assert chunks[i + 1] == Chunk(name, data);
        assert forall j :: 0 < j < i + 1 ==> chunks[j] == chunks[1..][j - 1];
      }
    }
  }

  /** Joined data follows the chunks' own order and takes in each of that name and no other. */
  lemma {:induction false} JoinedFollows(chunks: seq<Chunk>, chunk: Chunk, name: string)
    ensures Joined([], name) == []
    ensures Joined(chunks + [chunk], name) ==
            Joined(chunks, name) + if chunk.name == name then chunk.data else []
    decreases |chunks|
  {
    if chunks == [] {
      assert [chunk][1..] == [] && [] + [chunk] == [chunk];
      assert chunk.data + [] == [] + chunk.data;
    } else {
      JoinedFollows(chunks[1..], chunk, name);
      assert (chunks + [chunk])[1..] == chunks[1..] + [chunk];
    }
  }

  // ---- The header, section 4.1.1 of RFC 2083 ----

  /** Channels to a pixel, by colour type. */
  const LAYOUTS: map<int, nat> := map[0 := 1, 2 := 3, 3 := 1, 4 := 2, 6 := 4]

  ghost predicate IsReadable(data: seq<Byte>) {
    && |data| >= 13 && data[9] in {0, 2, 3, 4, 6} && data[12] == 0
    && (data[8] == 8 || (data[8] in {1, 2, 4} && data[9] in {0, 3}))
  }

  /** Which headers are read and as what, and which refusal the others meet: in the order the fields are looked at. */
  lemma {:induction false} HeaderIsReadExactly(data: seq<Byte>)
    ensures HeadOf(data).Success? <==> IsReadable(data)
    ensures HeadOf(data).Success? ==>
              var head := HeadOf(data).value;
              && HoldsNumber(data, 0, head.width) && HoldsNumber(data, 4, head.height)
              && head.bitDepth == data[8] && head.colourType == data[9] && head.channels == LAYOUTS[data[9]]
    ensures HeadOf(data).Failure? ==>
              var refusal := HeadOf(data).error;
              if |data| < 8 then refusal == ShortHeader
              else if |data| < 10 || data[9] !in LAYOUTS then refusal == ColourType
              else if |data| < 13 || data[12] != 0 then refusal == Interlaced
              else if data[8] !in {1, 2, 4, 8} then refusal == BitDepth
              else refusal == Refusal.Channels && LAYOUTS[data[9]] != 1
  {
    hide HoldsNumber;
    if |data| >= 8 {
      NumbersAreBigEndian(data, 0, ReadUInt32(data, 0));
      NumbersAreBigEndian(data, 4, ReadUInt32(data, 4));
    }
  }

  // ---- Tones ----

  /** Luminance weighs red, green and blue 2126, 7152 and 722 parts in 10000. */
  lemma {:induction false} LuminanceIsNearest(red: Byte, green: Byte, blue: Byte)
    ensures var exactly := 2126 * red + 7152 * green + 722 * blue;
            exactly - 5000 < 10_000 * Luminance(red, green, blue) <= exactly + 5000
  {
  }

  /** Alpha mixes a sample with white, in proportion. */
  lemma {:induction false} CompositeIsNearest(value: Byte, alpha: Byte)
    ensures var twice := 2 * (alpha * value + (255 - alpha) * 255);
            twice - 255 < 510 * OverPaper(value, alpha) <= twice + 255
  {
    CompositeFits(value, alpha);
  }

  /** A grey sample of few bits is stretched over 255: white is the largest such sample. */
  lemma {:induction false} GreyIsNearest(sample: Byte)
    ensures Power2(1) == 2 && Power2(2) == 4 && Power2(4) == 16 && Power2(8) == 256
    ensures sample < 2 ==> GreyTone(sample, 1) == 255 * sample
    ensures sample < 4 ==> GreyTone(sample, 2) == 85 * sample
    ensures sample < 16 ==> GreyTone(sample, 4) == 17 * sample
    ensures GreyTone(sample, 8) == sample
  {
    assert Power2(1) == 2 && Power2(2) == 4 && Power2(4) == 16 && Power2(8) == 256;
  }

  /** A palette entry's tone is the luminance of its three bytes, and black where the palette does not hold all three.
      */
  lemma {:induction false} EntriesAreTones(palette: seq<Byte>, entry: nat)
    ensures EntryTone(palette, entry) ==
            if |palette| >= 3 * entry + 3 then
              var rgb := palette[3 * entry..3 * entry + 3]; Luminance(rgb[0], rgb[1], rgb[2])
            else 0
  {
  }

  // ---- What is written ----

  predicate IsDigit(c: char) {
    c in "0123456789" || c in "abcdef" || c in "ABCDEF"
  }

  lemma {:induction false} HexDigitsAre(c: char)
    ensures IsHexDigit(c) <==> IsDigit(c)
    ensures IsHexDigit(c) ==> "0123456789abcdef"[HexValue(c)] == c || "0123456789ABCDEF"[HexValue(c)] == c
  {
  }

  /** A colour's bytes, each two hex digits, the high one first. */
  lemma {:induction false} ColourBytesAre(hex: string)
    ensures IsColour(hex) <==> |hex| == 7 && hex[0] == '#' && forall i :: 1 <= i < 7 ==> IsDigit(hex[i])
    ensures IsColour(hex) ==>
              && |Rgb(hex)| == 3 && Rgb(hex)[0] == HexValue(hex[1]) * 16 + HexValue(hex[2])
              && Rgb(hex)[1] == HexValue(hex[3]) * 16 + HexValue(hex[4])
              && Rgb(hex)[2] == HexValue(hex[5]) * 16 + HexValue(hex[6])
  {
    forall i | 0 <= i < |hex| ensures IsHexDigit(hex[i]) <==> IsDigit(hex[i]) {
      HexDigitsAre(hex[i]);
    }
    hide IsHexDigit, IsDigit, HexValue;
  }

  /** Every bit of the rows as packed: a row is as many bytes as its bits need behind filter type 0, and a bit is set
      exactly where the bitmap has a pixel holding 0. */
  lemma {:induction false} PackedBitIs(ink: seq<Byte>, width: nat, rows: nat, stride: nat, row: nat, column: nat)
    requires width <= 8 * stride < width + 8 && row < rows && column < 8 * stride
    ensures var packed, start, pixel := PackedRows(ink, width, rows), row * (stride + 1), row * width + column;
            && start + 1 + column / 8 < |packed| && packed[start] == 0
            && Bit(packed[start + 1 + column / 8], 7 - column % 8) ==
               if column < width && pixel < |ink| && ink[pixel] == 0 then 1 else 0
  {
    hide PackedRows, Area, Bit;
    BitsFill(width, stride);
    AreaIsProduct(stride + 1, row);
    AreaIsProduct(width, row);
    assert Area(stride + 1, row) == row * (stride + 1) && Area(width, row) == row * width;
    PackedBitAt(ink, width, rows, row, column);
    hide Stride;
  }

  lemma {:induction false} BitsFill(width: nat, stride: nat)
    requires width <= 8 * stride < width + 8
    ensures stride == Stride(width, 1)
  {
  }

  lemma {:induction false} PackedBitAt(ink: seq<Byte>, width: nat, rows: nat, row: nat, column: nat)
    requires row < rows && column < 8 * Stride(width, 1)
    ensures var packed, start, pixel := PackedRows(ink, width, rows), Area(Stride(width, 1) + 1, row), Area(width, row);
            && start + 1 + column / 8 < |packed| && packed[start] == 0
            && Bit(packed[start + 1 + column / 8], 7 - column % 8) ==
               if column < width && pixel + column < |ink| && ink[pixel + column] == 0 then 1 else 0
  {
    hide PackedRows, PackedRow, Area, Bit, Stride;
    var stride := Stride(width, 1);
    var packed, start := PackedRows(ink, width, rows), Area(stride + 1, row);
    PngLaws.PackedBit(ink, width, row, width, column);
    PackedRowIsThere(ink, width, rows, row);
    assert packed[start + 1 + column / 8] == packed[start + 1..start + 1 + stride][column / 8];
  }

  lemma {:induction false} PackedRowIsThere(ink: seq<Byte>, width: nat, rows: nat, row: nat)
    requires row < rows
    ensures var packed, stride := PackedRows(ink, width, rows), Stride(width, 1);
            var start := Area(stride + 1, row);
            && start + 1 + stride <= |packed| && packed[start] == 0
            && packed[start + 1..start + 1 + stride] == PackedRow(ink, width, row, width)
  {
    hide PackedRow, Stride;
    var stride := Stride(width, 1);
    var start := Area(stride + 1, row);
    AreaIncreases(stride + 1, row + 1, rows);
    var packed, before := PackedRows(ink, width, rows), PackedRows(ink, width, rows - 1);
    if row < rows - 1 {
      PackedRowIsThere(ink, width, rows - 1, row);
      AreaIncreases(stride + 1, row + 1, rows - 1);
      assert packed[..|before|] == before;
      assert packed[start + 1..start + 1 + stride] == before[start + 1..start + 1 + stride];
    }
  }

  /** The file, chunk by chunk: the signature, a header of one bit and indexed colour, the ink's bytes before the
      paper's, ink opaque and paper clear, the packed rows, and an end. */
  lemma {:induction false} FileIs(bitmap: Bitmap, palette: PlatePalette, deflate: seq<Byte> -> seq<Byte>,
                                  crc: seq<Byte> -> UInt32)
    returns (header: seq<Byte>)
    ensures var stream := deflate(PackedRows(bitmap.ink, bitmap.width, bitmap.height));
            var encoded := Encoded(bitmap, palette, deflate, crc);
            && (encoded.Success? <==>
                bitmap.width < 4_294_967_296 && bitmap.height < 4_294_967_296 && |stream| < 4_294_967_296 &&
                IsColour(palette.ink) && IsColour(palette.paper))
            && (encoded.Success? ==>
                  && |header| == 13 && HoldsNumber(header, 0, bitmap.width) && HoldsNumber(header, 4, bitmap.height)
                  && header[8..] == [1, 3, 0, 0, 0]
                  && encoded.value ==
                     [137, 80, 78, 71, 13, 10, 26, 10]
                     + EncodeChunks([Chunk("IHDR", header),
                                     Chunk("PLTE", Rgb(palette.ink) + Rgb(palette.paper)),
                                     Chunk("tRNS", [255, 0]),
                                     Chunk("IDAT", stream),
                                     Chunk("IEND", [])], crc))
  {
    header := [];
    if Encoded(bitmap, palette, deflate, crc).Success? {
      header := HeaderData(bitmap.width, bitmap.height);
      HeaderIs(bitmap.width, bitmap.height);
      FileChunksAreChunks(bitmap, palette, deflate);
    }
    hide Rgb, PackedRows, EncodeChunks, HeaderData, IsColour, HoldsNumber;
  }

  lemma {:induction false} HeaderIs(width: UInt32, height: UInt32)
    ensures var header := HeaderData(width, height);
            && |header| == 13 && HoldsNumber(header, 0, width) && HoldsNumber(header, 4, height)
            && header[8..] == [1, 3, 0, 0, 0]
  {
    var header := HeaderData(width, height);
    hide HoldsNumber;
    assert header[0..4] == WriteUInt32(width) && header[4..8] == WriteUInt32(height);
    NumberIsAt(header, 0, width);
    NumberIsAt(header, 4, height);
  }

  /** Framed chunks stand end to end, in order. */
  lemma {:induction false} FramesFollow(chunks: seq<Chunk>, chunk: Chunk, crc: seq<Byte> -> UInt32)
    requires (forall i :: 0 <= i < |chunks| ==> IsChunk(chunks[i])) && IsChunk(chunk)
    ensures EncodeChunks([], crc) == []
    ensures EncodeChunks(chunks + [chunk], crc) == EncodeChunks(chunks, crc) + EncodeChunk(chunk, crc)
  {
    hide EncodeChunk, IsChunk;
    if chunks == [] {
      assert [chunk][1..] == [] && [] + [chunk] == [chunk];
      assert EncodeChunk(chunk, crc) + [] == EncodeChunk(chunk, crc) == [] + EncodeChunk(chunk, crc);
    } else {
      assert (chunks + [chunk])[1..] == chunks[1..] + [chunk];
      FramesFollow(chunks[1..], chunk, crc);
    }
  }

  // ---- What is refused ----

  ghost predicate IsRefusedRow(stream: seq<Byte>, stride: nat, height: nat) {
    stride > 0 && exists row :: 0 <= row < height && LacksFilter(stream, stride, row)
  }

  /** Bytes in a row of samples, and bytes back to the pixel a filter compares with. */
  ghost predicate HasLayout(head: Head, stride: nat, bpp: nat) {
    var bits := head.width * (head.bitDepth * head.channels);
    && 8 * stride >= bits && 8 * stride < bits + 8
    && bpp == if head.bitDepth == 8 then head.channels else 1
  }

  /** A file decodes exactly when it starts with the signature, has a header that can be read, a palette if its colours
      are entries of one, data that inflates, and a filter type before every row; each refusal says which of these
      failed first. What decodes has the header's size and, row by row, the tones of the rows rebuilt. */
  lemma {:induction false} DecodesExactly(bytes: seq<Byte>, inflate: seq<Byte> -> Option<seq<Byte>>)
    returns (head: Head, stride: nat, bpp: nat)
    ensures var decoded := Decoded(bytes, inflate);
            var chunks := ChunksFrom(bytes, 8);
            if |bytes| < 8 || bytes[..8] != [137, 80, 78, 71, 13, 10, 26, 10] then decoded == Failure(WrongSignature)
            else if Find(chunks, "IHDR") == None then decoded == Failure(NoHeader)
            else if !IsReadable(Find(chunks, "IHDR").value) then
              HeadOf(Find(chunks, "IHDR").value).Failure? &&
              decoded == Failure(HeadOf(Find(chunks, "IHDR").value).error)
            else if Find(chunks, "IHDR").value[9] == 3 && Find(chunks, "PLTE") == None then
              decoded == Failure(NoPalette)
            else if inflate(Joined(chunks, "IDAT")) == None then decoded == Failure(BadStream)
            else
              var stream := inflate(Joined(chunks, "IDAT")).value;
              && HeadOf(Find(chunks, "IHDR").value) == Success(head) && HasLayout(head, stride, bpp)
              && if IsRefusedRow(stream, stride, head.height) then decoded == Failure(RowFilter)
                 else
                   && Unfiltered(stream, stride, head.height, bpp).Success? && decoded.Success?
                   && decoded.value.width == head.width && decoded.value.height == head.height
                   && |decoded.value.gray| == head.width * head.height
                   && decoded.value.gray == GrayRows(Unfiltered(stream, stride, head.height, bpp).value, stride, head,
                                                     OrElse(Find(chunks, "PLTE")), head.height)
  {
    hide ChunksFrom, Find, Joined, Unfiltered, GrayRows, HeadOf, IsReadable, LacksFilter;
    head, stride, bpp := Head(0, 0, 8, 0, 1), 0, 1;
    var chunks := ChunksFrom(bytes, 8);
    SignatureIs(bytes);
    var header := Find(chunks, "IHDR");
    if header != None {
      HeaderIsReadExactly(header.value);
      if IsReadable(header.value) {
        head := HeadOf(header.value).value;
        stride, bpp := LayoutOf(head);
        AreaIsProduct(head.width, head.height);
        var stream := inflate(Joined(chunks, "IDAT"));
        if stream != None {
          RowsAreRefusedExactly(stream.value, stride, head.height, bpp);
        }
      }
    }
  }

  lemma {:induction false} SignatureIs(bytes: seq<Byte>)
    ensures ChunksOf(bytes) ==
            if |bytes| < 8 || bytes[..8] != [137, 80, 78, 71, 13, 10, 26, 10] then Failure(WrongSignature)
            else Success(ChunksFrom(bytes, 8))
  {
    hide ChunksFrom;
    assert |bytes| <= 8 ==> Slice(bytes, 0, 8) == bytes;
    assert |bytes| == 8 ==> bytes[..8] == bytes;
  }

  lemma {:induction false} LayoutOf(head: Head) returns (stride: nat, bpp: nat)
    requires IsHead(head)
    ensures HasLayout(head, stride, bpp)
    ensures stride == Stride(head.width, head.bitDepth * head.channels)
    ensures bpp == if head.bitDepth * head.channels / 8 > 1 then head.bitDepth * head.channels / 8 else 1
  {
    var bits := head.bitDepth * head.channels;
    stride, bpp := Stride(head.width, bits), if bits / 8 > 1 then bits / 8 else 1;
  }
}
