// frontend/scripts/generate-plate/png.ts: the decoder, the encoder, and what the one makes of the other's files.
// Image layout is section 2.3 of RFC 2083. DEFLATE and the checksum are parameters.
module Png {
  import opened Wrappers
  import opened PngBytes
  import opened PngFilter
  import opened Raster

  datatype GrayImage = GrayImage(width: nat, height: nat, gray: seq<Byte>)

  datatype Bitmap = Bitmap(width: nat, height: nat, ink: seq<Byte>)

  datatype PlatePalette = PlatePalette(ink: string, paper: string)

  // ---- Tones ----

  /** Rec. 709 luminance, rounded half up. */
  function Luminance(red: Byte, green: Byte, blue: Byte): Byte {
    (2126 * red + 7152 * green + 722 * blue + 5000) / 10000
  }

  /** A sample composited over white, rounded half up. */
  function OverPaper(value: Byte, alpha: Byte): Byte {
    CompositeFits(value, alpha);
    (2 * (value * alpha + 255 * (255 - alpha)) + 255) / 510
  }

  lemma {:induction false} CompositeFits(value: Byte, alpha: Byte)
    ensures 0 <= value * alpha + 255 * (255 - alpha) <= 255 * 255
  {
    assert 0 <= value * alpha <= 255 * alpha;
  }

  // ---- The header ----

  datatype Head = Head(width: nat, height: nat, bitDepth: nat, colourType: Byte, channels: nat)

  function PngChannels(colourType: Byte): Option<nat> {
    if colourType == 0 || colourType == 3 then Some(1)
    else if colourType == 2 then Some(3)
    else if colourType == 4 then Some(2)
    else if colourType == 6 then Some(4)
    else None
  }

  predicate IsHead(head: Head) {
    && PngChannels(head.colourType) == Some(head.channels)
    && head.bitDepth in {1, 2, 4, 8} && (head.bitDepth != 8 ==> head.channels == 1)
  }

  function HeadOf(data: seq<Byte>): (r: Result<Head, Refusal>)
    ensures r.Success? ==> IsHead(r.value)
  {
    if |data| < 8 then Failure(ShortHeader)
    else if |data| < 10 || PngChannels(data[9]).None? then Failure(ColourType)
    else if |data| < 13 || data[12] != 0 then Failure(Interlaced)
    else if data[8] !in {1, 2, 4, 8} then Failure(BitDepth)
    else if data[8] != 8 && PngChannels(data[9]).value != 1 then Failure(Refusal.Channels)
    else Success(Head(ReadUInt32(data, 0), ReadUInt32(data, 4), data[8], data[9], PngChannels(data[9]).value))
  }

  function Stride(width: nat, bitsPerPixel: nat): nat {
    (width * bitsPerPixel + 7) / 8
  }

  // ---- Samples and pixels ----

  /** A sample of eight bits is a byte; a smaller one is so many bits of one, counted from the top. */
  function Sample(raw: seq<Byte>, stride: nat, head: Head, row: nat, column: nat, channel: nat): Byte
    requires IsHead(head)
  {
    if head.bitDepth == 8 then At(raw, Area(stride, row) + column * head.channels + channel)
    else
      var bit := column * head.bitDepth;
      SubByteFits(head.bitDepth, column);
      var byte := At(raw, Area(stride, row) + bit / 8);
      var sample := ShiftRight(byte, 8 - head.bitDepth - bit % 8) % Power2(head.bitDepth);
      assert Power2(1) == 2 && Power2(2) == 4 && Power2(4) == 16;
      sample
  }

  lemma {:induction false} SubByteFits(bitDepth: nat, column: nat)
    requires bitDepth in {1, 2, 4}
    ensures column * bitDepth % 8 + bitDepth <= 8
  {
    if bitDepth == 1 {
    } else if bitDepth == 2 {
      assert column * 2 % 8 <= 6;
    } else {
      assert column * 4 % 8 <= 4;
    }
  }

  /** A palette entry's tone; one the palette does not hold reads as NaN and lands as 0. */
  function EntryTone(palette: seq<Byte>, entry: nat): Byte {
    if 3 * entry + 2 < |palette| then Luminance(palette[3 * entry], palette[3 * entry + 1], palette[3 * entry + 2])
    else 0
  }

  function GreyTone(sample: Byte, bitDepth: nat): Byte
    requires bitDepth in {1, 2, 4, 8} && sample < Power2(bitDepth)
  {
    assert Power2(1) == 2 && Power2(2) == 4 && Power2(4) == 16 && Power2(8) == 256;
    var maximum := Power2(bitDepth) - 1;
    (2 * 255 * sample + maximum) / (2 * maximum)
  }

  lemma {:induction false} SampleFits(raw: seq<Byte>, stride: nat, head: Head, row: nat, column: nat, channel: nat)
    requires IsHead(head)
    ensures Sample(raw, stride, head, row, column, channel) < Power2(head.bitDepth)
  {
    assert Power2(8) == 256;
  }

  function Pixel(raw: seq<Byte>, stride: nat, head: Head, palette: seq<Byte>, row: nat, column: nat): Byte
    requires IsHead(head)
  {
    if head.colourType == 3 then EntryTone(palette, Sample(raw, stride, head, row, column, 0))
    else if head.colourType == 0 then
      SampleFits(raw, stride, head, row, column, 0);
      GreyTone(Sample(raw, stride, head, row, column, 0), head.bitDepth)
    else if head.colourType == 4 then
      OverPaper(Sample(raw, stride, head, row, column, 0), Sample(raw, stride, head, row, column, 1))
    else if head.colourType == 6 then
      var alpha := Sample(raw, stride, head, row, column, 3);
      Luminance(OverPaper(Sample(raw, stride, head, row, column, 0), alpha),
                OverPaper(Sample(raw, stride, head, row, column, 1), alpha),
                OverPaper(Sample(raw, stride, head, row, column, 2), alpha))
    else
      Luminance(Sample(raw, stride, head, row, column, 0),
                Sample(raw, stride, head, row, column, 1),
                Sample(raw, stride, head, row, column, 2))
  }

  function GrayRow(raw: seq<Byte>, stride: nat, head: Head, palette: seq<Byte>, row: nat, columns: nat)
    : (gray: seq<Byte>)
    requires IsHead(head)
    ensures |gray| == columns
  {
    if columns == 0 then []
    else GrayRow(raw, stride, head, palette, row, columns - 1) + [Pixel(raw, stride, head, palette, row, columns - 1)]
  }

  function GrayRows(raw: seq<Byte>, stride: nat, head: Head, palette: seq<Byte>, rows: nat): (gray: seq<Byte>)
    requires IsHead(head)
    ensures |gray| == Area(head.width, rows)
  {
    if rows == 0 then []
    else
      GrayRows(raw, stride, head, palette, rows - 1) + GrayRow(raw, stride, head, palette, rows - 1, head.width)
  }

  // ---- Chunks by name ----

  /** The data of the first chunk of a name. */
  function Find(chunks: seq<Chunk>, name: string): Option<seq<Byte>> {
    if chunks == [] then None
    else if chunks[0].name == name then Some(chunks[0].data)
    else Find(chunks[1..], name)
  }

  /** The data of every chunk of a name, end to end. */
  function Joined(chunks: seq<Chunk>, name: string): seq<Byte> {
    if chunks == [] then []
    else (if chunks[0].name == name then chunks[0].data else []) + Joined(chunks[1..], name)
  }

  function OrElse(data: Option<seq<Byte>>): seq<Byte> {
    if data.Some? then data.value else []
  }

  /** The image a file holds, or why it is refused, in the order the refusals are reached. */
  function Decoded(bytes: seq<Byte>, inflate: seq<Byte> -> Option<seq<Byte>>): Result<GrayImage, Refusal> {
    match ChunksOf(bytes)
    case Failure(refusal) => Failure(refusal)
    case Success(chunks) =>
      if Find(chunks, "IHDR").None? then Failure(NoHeader)
      else
        match HeadOf(Find(chunks, "IHDR").value)
        case Failure(refusal) => Failure(refusal)
        case Success(head) =>
          var palette := Find(chunks, "PLTE");
          if head.colourType == 3 && palette.None? then Failure(NoPalette)
          else if inflate(Joined(chunks, "IDAT")).None? then Failure(BadStream)
          else
            var bits := head.bitDepth * head.channels;
            var stride := Stride(head.width, bits);
            var pixelBytes := if bits / 8 > 1 then bits / 8 else 1;
            match Unfiltered(inflate(Joined(chunks, "IDAT")).value, stride, head.height, pixelBytes)
            case Failure(refusal) => Failure(refusal)
            case Success(raw) =>
              Success(GrayImage(head.width, head.height, GrayRows(raw, stride, head, OrElse(palette), head.height)))
  }

  /** The tones of one row, written after those of the rows above it. */
  method GrayRowOf(raw: array<Byte>, stride: nat, head: Head, palette: seq<Byte>, row: nat, gray: array<Byte>,
                   base: nat)
    requires IsHead(head) && raw != gray && base + head.width <= gray.Length
    modifies gray
    ensures gray[..base + head.width] ==
            old(gray[..base]) + GrayRow(raw[..], stride, head, palette, row, head.width)
  {
    hide Pixel;
    ghost var before := gray[..base];
    for column := 0 to head.width
      invariant gray[..base] == before
      invariant gray[base..base + column] == GrayRow(raw[..], stride, head, palette, row, column)
    {
      ghost var done := gray[base..base + column];
      gray[base + column] := Pixel(raw[..], stride, head, palette, row, column);
      assert gray[base..base + column + 1] == done + [gray[base + column]];
    }
    assert gray[..base + head.width] == gray[..base] + gray[base..base + head.width];
  }

  /** The tone of every pixel, row by row. */
  method GrayOf(raw: array<Byte>, stride: nat, head: Head, palette: seq<Byte>) returns (gray: array<Byte>)
    requires IsHead(head)
    ensures gray[..] == GrayRows(raw[..], stride, head, palette, head.height)
  {
    hide GrayRow, IsHead;
    gray := new Byte[Area(head.width, head.height)];
    var base := 0;
    for row := 0 to head.height
      invariant base == Area(head.width, row) <= gray.Length
      invariant gray[..base] == GrayRows(raw[..], stride, head, palette, row)
    {
      AreaIncreases(head.width, row + 1, head.height);
      GrayRowOf(raw, stride, head, palette, row, gray, base);
      base := base + head.width;
    }
    assert gray[..base] == gray[..];
  }

  method DecodeToGray(bytes: seq<Byte>, inflate: seq<Byte> -> Option<seq<Byte>>) returns (r: Result<GrayImage, Refusal>)
    ensures r == Decoded(bytes, inflate)
  {
    var read := ReadChunks(bytes);
    if read.Failure? {
      return Failure(read.error);
    }
    var chunks := read.value;
    var header := Find(chunks, "IHDR");
    if header.None? {
      return Failure(NoHeader);
    }
    var parsed := HeadOf(header.value);
    if parsed.Failure? {
      return Failure(parsed.error);
    }
    var head := parsed.value;
    var palette := Find(chunks, "PLTE");
    if head.colourType == 3 && palette.None? {
      return Failure(NoPalette);
    }
    var stream := inflate(Joined(chunks, "IDAT"));
    if stream.None? {
      return Failure(BadStream);
    }
    var bits := head.bitDepth * head.channels;
    var stride := Stride(head.width, bits);
    var raw := Unfilter(stream.value, stride, head.height, if bits / 8 > 1 then bits / 8 else 1);
    if raw.Failure? {
      return Failure(raw.error);
    }
    var gray := GrayOf(raw.value, stride, head, OrElse(palette));
    return Success(GrayImage(head.width, head.height, gray[..]));
  }

  // ---- The encoder ----

  predicate IsHexDigit(c: char) {
    '0' <= c <= '9' || 'a' <= c <= 'f' || 'A' <= c <= 'F'
  }

  function HexValue(c: char): (value: nat)
    requires IsHexDigit(c)
    ensures value < 16
  {
    if c <= '9' then c as int - '0' as int
    else if c <= 'F' then c as int - 'A' as int + 10
    else c as int - 'a' as int + 10
  }

  /** Six hex digits after a `#`, in either case. */
  predicate IsColour(hex: string) {
    |hex| == 7 && hex[0] == '#' && forall i :: 1 <= i < 7 ==> IsHexDigit(hex[i])
  }

  function Rgb(hex: string): (rgb: seq<Byte>)
    requires IsColour(hex)
    ensures |rgb| == 3
  {
    [16 * HexValue(hex[1]) + HexValue(hex[2]),
     16 * HexValue(hex[3]) + HexValue(hex[4]),
     16 * HexValue(hex[5]) + HexValue(hex[6])]
  }

  /** Anything but a 0 is drawn in ink, a missing entry included. */
  predicate IsPaper(ink: seq<Byte>, index: nat) {
    index < |ink| && ink[index] == 0
  }

  /** A packed row after its first `columns` pixels: bits counted from the top of each byte, 1 for paper. */
  function PackedRow(ink: seq<Byte>, width: nat, row: nat, columns: nat): (packed: seq<Byte>)
    requires columns <= width
    ensures |packed| == Stride(width, 1)
  {
    if columns == 0 then ZeroRow(Stride(width, 1))
    else
      var packed := PackedRow(ink, width, row, columns - 1);
      var column := columns - 1;
      if IsPaper(ink, Area(width, row) + column)
      then packed[column / 8 := WithPixel(packed[column / 8], column)]
      else packed
  }

  /** Every row behind a filter byte of 0. */
  function PackedRows(ink: seq<Byte>, width: nat, rows: nat): (packed: seq<Byte>)
    ensures |packed| == Area(Stride(width, 1) + 1, rows)
  {
    if rows == 0 then []
    else PackedRows(ink, width, rows - 1) + [0] + PackedRow(ink, width, rows - 1, width)
  }

  function HeaderData(width: UInt32, height: UInt32): seq<Byte> {
    WriteUInt32(width) + WriteUInt32(height) + [1, 3, 0, 0, 0]
  }

  function FileChunks(bitmap: Bitmap, palette: PlatePalette, deflate: seq<Byte> -> seq<Byte>): seq<Chunk>
    requires bitmap.width < 0x1_0000_0000 && bitmap.height < 0x1_0000_0000
    requires IsColour(palette.ink) && IsColour(palette.paper)
  {
    [Chunk("IHDR", HeaderData(bitmap.width, bitmap.height)),
     Chunk("PLTE", Rgb(palette.ink) + Rgb(palette.paper)),
     Chunk("tRNS", [0xff, 0x00]),
     Chunk("IDAT", deflate(PackedRows(bitmap.ink, bitmap.width, bitmap.height))),
     Chunk("IEND", [])]
  }

  /** The file a bitmap is written as, or what cannot be written. */
  function Encoded(bitmap: Bitmap, palette: PlatePalette, deflate: seq<Byte> -> seq<Byte>, crc: seq<Byte> -> UInt32)
    : Result<seq<Byte>, Refusal>
  {
    if bitmap.width >= 0x1_0000_0000 || bitmap.height >= 0x1_0000_0000 then Failure(TooLarge)
    else if !IsColour(palette.ink) || !IsColour(palette.paper) then Failure(NotAColour)
    else if |deflate(PackedRows(bitmap.ink, bitmap.width, bitmap.height))| >= 0x1_0000_0000 then Failure(TooLarge)
    else Success(SIGNATURE + EncodeChunks(FileChunks(bitmap, palette, deflate), crc))
  }

  lemma {:induction false} FileChunksAreChunks(bitmap: Bitmap, palette: PlatePalette, deflate: seq<Byte> -> seq<Byte>)
    requires bitmap.width < 0x1_0000_0000 && bitmap.height < 0x1_0000_0000
    requires IsColour(palette.ink) && IsColour(palette.paper)
    requires |deflate(PackedRows(bitmap.ink, bitmap.width, bitmap.height))| < 0x1_0000_0000
    ensures forall i :: 0 <= i < 5 ==> IsChunk(FileChunks(bitmap, palette, deflate)[i])
  {
  }

  /** The bits of every row, set in place behind a filter byte of 0. */
  method Pack(bitmap: Bitmap) returns (raw: array<Byte>)
    ensures raw[..] == PackedRows(bitmap.ink, bitmap.width, bitmap.height)
  {
    hide PackedRow, Stride;
    var width := bitmap.width;
    var stride := Stride(width, 1);
    raw := new Byte[Area(stride + 1, bitmap.height)](_ => 0);
    var start, first := 0, 0;
    for row := 0 to bitmap.height
      invariant start == Area(stride + 1, row) <= raw.Length && first == Area(width, row)
      invariant raw[..start] == PackedRows(bitmap.ink, width, row)
      invariant forall i :: start <= i < raw.Length ==> raw[i] == 0
    {
      AreaIncreases(stride + 1, row + 1, bitmap.height);
      PackRow(bitmap.ink, width, row, raw, start, first);
      start, first := start + stride + 1, first + width;
    }
    assert raw[..start] == raw[..];
  }

  method PackRow(ink: seq<Byte>, width: nat, row: nat, raw: array<Byte>, start: nat, first: nat)
    requires start + 1 + Stride(width, 1) <= raw.Length && first == Area(width, row)
    requires forall i :: start <= i < raw.Length ==> raw[i] == 0
    modifies raw
    ensures raw[..start + Stride(width, 1) + 1] == old(raw[..start]) + [0] + PackedRow(ink, width, row, width)
    ensures forall i :: start + 1 + Stride(width, 1) <= i < raw.Length ==> raw[i] == 0
  {
    var stride := Stride(width, 1);
    ghost var before := raw[..start];
    for column := 0 to width
      invariant raw[..start] == before && raw[start] == 0
      invariant raw[start + 1..start + 1 + stride] == PackedRow(ink, width, row, column)
      invariant forall i :: start + 1 + stride <= i < raw.Length ==> raw[i] == 0
    {
      if IsPaper(ink, first + column) {
        ghost var packed := raw[start + 1..start + 1 + stride];
        var at := start + 1 + column / 8;
        raw[at] := WithPixel(raw[at], column);
        assert raw[start + 1..start + 1 + stride] == packed[column / 8 := WithPixel(packed[column / 8], column)];
      }
    }
    assert raw[..start + stride + 1] == raw[..start] + [raw[start]] + raw[start + 1..start + 1 + stride];
  }

  method EncodeBitmap(bitmap: Bitmap, palette: PlatePalette, deflate: seq<Byte> -> seq<Byte>, crc: seq<Byte> -> UInt32)
    returns (r: Result<seq<Byte>, Refusal>)
    ensures r == Encoded(bitmap, palette, deflate, crc)
  {
    if bitmap.width >= 0x1_0000_0000 || bitmap.height >= 0x1_0000_0000 {
      return Failure(TooLarge);
    }
    if !IsColour(palette.ink) || !IsColour(palette.paper) {
      return Failure(NotAColour);
    }
    var raw := Pack(bitmap);
    var compressed := deflate(raw[..]);
    if |compressed| >= 0x1_0000_0000 {
      return Failure(TooLarge);
    }
    FileChunksAreChunks(bitmap, palette, deflate);
    return Success(SIGNATURE + EncodeChunks(FileChunks(bitmap, palette, deflate), crc));
  }
}
