// What png.ts's decoder makes of any file: every colour type and sample size it supports, under any choice of row
// filters, whatever fills a row's last byte, and however the data is cut into chunks.
module PngImages {
  import opened Wrappers
  import opened PngBytes
  import opened PngFilter
  import opened Raster
  import opened Png
  import PngLaws

  /** Rows of samples of so many bits, so many to a pixel. */
  datatype Image = Image(width: nat, height: nat, bitDepth: Byte, colourType: Byte, palette: seq<Byte>,
                         rows: seq<seq<Byte>>)

  function Channels(image: Image): nat
    requires PngChannels(image.colourType).Some?
  {
    PngChannels(image.colourType).value
  }

  predicate AreSamples(samples: seq<Byte>, depth: nat) {
    forall i :: 0 <= i < |samples| ==> samples[i] < Power2(depth)
  }

  predicate IsImage(image: Image) {
    && image.width < 0x1_0000_0000 && image.height < 0x1_0000_0000
    && PngChannels(image.colourType).Some?
    && image.bitDepth in {1, 2, 4, 8} && (image.bitDepth != 8 ==> Channels(image) == 1)
    && |image.rows| == image.height
    && forall row :: 0 <= row < image.height ==>
         |image.rows[row]| == Area(Channels(image), image.width) && AreSamples(image.rows[row], image.bitDepth)
  }

  function HeadOfImage(image: Image): Head
    requires PngChannels(image.colourType).Some?
  {
    Head(image.width, image.height, image.bitDepth, image.colourType, Channels(image))
  }

  function HeaderOf(image: Image): seq<Byte>
    requires IsImage(image)
  {
    WriteUInt32(image.width) + WriteUInt32(image.height) + [image.bitDepth, image.colourType, 0, 0, 0]
  }

  /** Bytes to a row, and bytes from a sample back to the one before it that a filter looks at. */
  function RowBytes(image: Image): nat
    requires PngChannels(image.colourType).Some?
  {
    Stride(image.width, image.bitDepth * Channels(image))
  }

  function PixelBytes(image: Image): nat
    requires PngChannels(image.colourType).Some?
  {
    var bits := image.bitDepth * Channels(image);
    if bits / 8 > 1 then bits / 8 else 1
  }

  // ---- Samples packed into bytes ----

  /** What samples of so many bits spell, most significant first. */
  function Spelled(samples: seq<nat>, depth: nat): nat {
    if samples == [] then 0 else Spelled(samples[..|samples| - 1], depth) * Power2(depth) + samples[|samples| - 1]
  }

  /** As many samples as fill a byte: the row's own as far as they go, and then anything. */
  predicate IsGroup(group: seq<nat>, samples: seq<Byte>, index: nat, depth: nat)
    requires depth in {1, 2, 4, 8}
  {
    && |group| == 8 / depth
    && forall i :: 0 <= i < |group| ==>
         && group[i] < Power2(depth)
         && (index * (8 / depth) + i < |samples| ==> group[i] == samples[index * (8 / depth) + i])
  }

  ghost predicate SpellsGroup(byte: Byte, samples: seq<Byte>, index: nat, depth: nat)
    requires depth in {1, 2, 4, 8}
  {
    exists group :: IsGroup(group, samples, index, depth) && Spelled(group, depth) == byte
  }

  /** Each byte spells the next group of a row's samples. */
  ghost predicate Packs(bytes: seq<Byte>, samples: seq<Byte>, depth: nat)
    requires depth in {1, 2, 4, 8}
  {
    |bytes| == Stride(|samples|, depth) && forall i :: 0 <= i < |bytes| ==> SpellsGroup(bytes[i], samples, i, depth)
  }

  ghost predicate AllPack(packed: seq<seq<Byte>>, image: Image)
    requires IsImage(image)
  {
    |packed| == image.height
    && forall row :: 0 <= row < image.height ==> Packs(packed[row], image.rows[row], image.bitDepth)
  }

  /** A file's chunks hold an image: its header, its packed and filtered rows compressed over however many chunks, and a
      palette where the pixels are entries of one. What else they hold, and in what order, is free. */
  ghost predicate Hold(chunks: seq<Chunk>, image: Image, packed: seq<seq<Byte>>, filters: seq<Filter>,
                       deflate: seq<Byte> -> seq<Byte>)
    requires IsImage(image) && |packed| == |filters|
  {
    && (forall i :: 0 <= i < |chunks| ==> IsChunk(chunks[i]))
    && UpToEnd(chunks) == chunks
    && AllPack(packed, image)
    && Find(chunks, "IHDR") == Some(HeaderOf(image))
    && (image.colourType == 3 ==> Find(chunks, "PLTE") == Some(image.palette))
    && Joined(chunks, "IDAT") == deflate(RowsFiltered(packed, filters, RowBytes(image), PixelBytes(image)))
  }

  /** The tone of one pixel's samples, by the colour type's own layout. */
  function ToneOfSamples(colourType: Byte, depth: nat, palette: seq<Byte>, samples: seq<Byte>): Byte
    requires PngChannels(colourType) == Some(|samples|) && depth in {1, 2, 4, 8} && AreSamples(samples, depth)
  {
    if colourType == 3 then EntryTone(palette, samples[0])
    else
      var values := Scaled(samples, depth);
      var colour := if |values| <= 2 then [values[0], values[0], values[0]] else values[..3];
      var alpha: Byte := if |values| % 2 == 0 then values[|values| - 1] else 255;
      Luminance(OverPaper(colour[0], alpha), OverPaper(colour[1], alpha), OverPaper(colour[2], alpha))
  }

  /** Samples stretched over the whole range of tones, rounded half up. */
  function Scaled(samples: seq<Byte>, depth: nat): (values: seq<Byte>)
    requires depth in {1, 2, 4, 8} && AreSamples(samples, depth)
    ensures |values| == |samples|
    ensures forall i :: 0 <= i < |samples| ==> values[i] == GreyTone(samples[i], depth)
  {
    if samples == [] then []
    else Scaled(samples[..|samples| - 1], depth) + [GreyTone(samples[|samples| - 1], depth)]
  }

  /** Grey is colour with its three channels alike, and a pixel with no alpha is an opaque one. */
  lemma {:induction false} GreyAndOpaque(value: Byte)
    ensures Luminance(value, value, value) == value && OverPaper(value, 255) == value
    ensures value < Power2(8) && GreyTone(value, 8) == value
  {
    assert Power2(8) == 256 by { assert Power2(4) == 16; }
  }

  function SamplesAt(image: Image, row: nat, column: nat): (samples: seq<Byte>)
    requires IsImage(image) && row < image.height && column < image.width
    ensures |samples| == Channels(image) && AreSamples(samples, image.bitDepth)
  {
    AreaIncreases(Channels(image), column + 1, image.width);
    image.rows[row][Area(Channels(image), column)..Area(Channels(image), column + 1)]
  }

  lemma {:induction false} StrideOfBytes(width: nat, channels: nat)
    ensures Stride(width, 8 * channels) == Area(channels, width)
    ensures Stride(Area(channels, width), 8) == Area(channels, width)
  {
    AreaIsProduct(channels, width);
    assert width * (8 * channels) == 8 * (channels * width);
  }

  /** The packed rows are as long as the decoder takes a row to be. */
  lemma {:induction false} PackedRowsFit(packed: seq<seq<Byte>>, image: Image)
    requires IsImage(image) && AllPack(packed, image)
    ensures forall row :: 0 <= row < |packed| ==> |packed[row]| == RowBytes(image)
  {
    hide Area;
    StrideOfBytes(image.width, Channels(image));
    OneSampleAPixel(image.width);
    forall row | 0 <= row < |packed| ensures |packed[row]| == RowBytes(image) {
      assert Packs(packed[row], image.rows[row], image.bitDepth);
    }
  }

  lemma {:induction false} OneSampleAPixel(width: nat)
    ensures Area(1, width) == width
  {
    AreaIsProduct(1, width);
  }

  lemma {:induction false} HeaderOfReadsBack(image: Image)
    requires IsImage(image)
    ensures HeadOf(HeaderOf(image)) == Success(HeadOfImage(image))
  {
    var tail: seq<Byte> := [image.bitDepth, image.colourType, 0, 0, 0];
    var data := HeaderOf(image);
    UInt32RoundTrip(image.width, [], WriteUInt32(image.height) + tail);
    UInt32RoundTrip(image.height, WriteUInt32(image.width), tail);
    assert data == [] + WriteUInt32(image.width) + (WriteUInt32(image.height) + tail);
    assert data[8..] == tail;
    assert data[8] == tail[0] && data[9] == tail[1] && data[12] == tail[4];
  }

  /** Each sample is read where its pixel and channel put it. */
  lemma {:induction false} SampleIs(image: Image, packed: seq<seq<Byte>>, row: nat, column: nat, channel: nat)
    requires IsImage(image) && AllPack(packed, image)
    requires row < image.height && column < image.width && channel < Channels(image)
    ensures Sample(Flat(packed), RowBytes(image), HeadOfImage(image), row, column, channel) ==
            SamplesAt(image, row, column)[channel]
  {
    PackedRowsFit(packed, image);
    if image.bitDepth == 8 {
      WholeSampleIs(image, packed, row, column, channel);
    } else {
      SmallSampleIs(image, packed, row, column);
    }
  }

  lemma {:induction false} WholeSampleIs(image: Image, packed: seq<seq<Byte>>, row: nat, column: nat, channel: nat)
    requires IsImage(image) && AllPack(packed, image) && image.bitDepth == 8
    requires forall row :: 0 <= row < |packed| ==> |packed[row]| == RowBytes(image)
    requires row < image.height && column < image.width && channel < Channels(image)
    ensures Sample(Flat(packed), RowBytes(image), HeadOfImage(image), row, column, channel) ==
            SamplesAt(image, row, column)[channel]
  {
    hide Power2;
    var channels := Channels(image);
    var index := Area(channels, column) + channel;
    AreaIncreases(channels, column + 1, image.width);
    AreaIsProduct(channels, column);
    StrideOfBytes(image.width, channels);
    PngLaws.FlatRowAt(packed, RowBytes(image), row, index);
    assert Packs(packed[row], image.rows[row], 8);
    ByteIsItsSample(packed[row][index], image.rows[row], index);
  }

  lemma {:induction false} ByteIsItsSample(byte: Byte, samples: seq<Byte>, index: nat)
    requires SpellsGroup(byte, samples, index, 8) && index < |samples|
    ensures byte == samples[index]
  {
    hide Power2;
    var group :| IsGroup(group, samples, index, 8) && Spelled(group, 8) == byte;
    assert group[..0] == [] && Spelled(group[..0], 8) == 0;
    assert group[0] == samples[index];
  }

  lemma {:induction false} SmallSampleIs(image: Image, packed: seq<seq<Byte>>, row: nat, column: nat)
    requires IsImage(image) && AllPack(packed, image) && image.bitDepth != 8
    requires forall row :: 0 <= row < |packed| ==> |packed[row]| == RowBytes(image)
    requires row < image.height && column < image.width
    ensures Sample(Flat(packed), RowBytes(image), HeadOfImage(image), row, column, 0) ==
            SamplesAt(image, row, column)[0]
  {
    hide Power2, Flat, Sample, SpellsGroup, AreSamples, RowBytes, AllPack, Packs, At;
    var depth, head := image.bitDepth, HeadOfImage(image);
    DepthIsSmall(head);
    ByteOfSample(image.width, depth, column);
    OneSampleAPixel(image.width);
    OneSampleAPixel(column);
    OneSampleAPixel(column + 1);
    SmallByteIs(image, packed, row, column / (8 / depth));
    SampleOfByte(Flat(packed), RowBytes(image), head, row, column, image.rows[row]);
  }

  /** The byte the decoder looks a sample up in spells that sample's group. */
  lemma {:induction false} SmallByteIs(image: Image, packed: seq<seq<Byte>>, row: nat, index: nat)
    requires IsImage(image) && AllPack(packed, image) && row < image.height && Channels(image) == 1
    requires forall row :: 0 <= row < |packed| ==> |packed[row]| == RowBytes(image)
    requires index < Stride(image.width, image.bitDepth)
    ensures SpellsGroup(At(Flat(packed), Area(RowBytes(image), row) + index), image.rows[row], index, image.bitDepth)
  {
    hide SpellsGroup, AreSamples, Area, Flat, At;
    assert Packs(packed[row], image.rows[row], image.bitDepth);
    PngLaws.FlatRowAt(packed, RowBytes(image), row, index);
  }

  lemma {:induction false} SampleOfByte(raw: seq<Byte>, stride: nat, head: Head, row: nat, column: nat,
                                        samples: seq<Byte>)
    requires IsHead(head) && head.bitDepth in {1, 2, 4} && column < |samples|
    requires var index := column / (8 / head.bitDepth);
             SpellsGroup(At(raw, Area(stride, row) + index), samples, index, head.bitDepth)
    ensures Sample(raw, stride, head, row, column, 0) == samples[column]
  {
    hide Power2, Sample, SpellsGroup, Spelled, SamplesOf, At, Area;
    var depth := head.bitDepth;
    var index, at := column / (8 / depth), column % (8 / depth);
    ByteOfSample(|samples|, depth, column);
    SamplesSpellTheByte(raw, stride, head, row, index);
    var found := SamplesOf(raw, stride, head, row, index, 8 / depth);
    SamplesOfAre(raw, stride, head, row, index, 8 / depth, found);
    GroupIs(At(raw, Area(stride, row) + index), found, samples, index, depth, at);
  }

  lemma {:induction false} ByteOfSample(width: nat, depth: nat, column: nat)
    requires depth in {1, 2, 4} && column < width
    ensures column / (8 / depth) < Stride(width, depth)
    ensures column == column / (8 / depth) * (8 / depth) + column % (8 / depth)
  {
  }

  /** Two groups that spell one byte are one group. */
  lemma {:induction false} GroupIs(byte: Byte, found: seq<nat>, samples: seq<Byte>, index: nat, depth: nat, at: nat)
    requires depth in {1, 2, 4} && SpellsGroup(byte, samples, index, depth) && Spelled(found, depth) == byte
    requires |found| == 8 / depth && forall i :: 0 <= i < |found| ==> found[i] < Power2(depth)
    requires at < 8 / depth && index * (8 / depth) + at < |samples|
    ensures found[at] == samples[index * (8 / depth) + at]
  {
    hide Power2, Spelled;
    var group :| IsGroup(group, samples, index, depth) && Spelled(group, depth) == byte;
    SpellingIsUnique(group, found, depth);
  }

  lemma {:induction false} SpellingIsUnique(first: seq<nat>, second: seq<nat>, depth: nat)
    requires |first| == |second| && Spelled(first, depth) == Spelled(second, depth)
    requires forall i :: 0 <= i < |first| ==> first[i] < Power2(depth) && second[i] < Power2(depth)
    ensures first == second
  {
    hide Power2;
    if first != [] {
      var last := |first| - 1;
      SamePlaces(Spelled(first[..last], depth), first[last], Spelled(second[..last], depth), second[last],
                 Power2(depth));
      SpellingIsUnique(first[..last], second[..last], depth);
      assert first == first[..last] + [first[last]] && second == second[..last] + [second[last]];
    }
  }

  lemma {:induction false} SamePlaces(high: nat, low: nat, high': nat, low': nat, base: nat)
    requires low < base && low' < base && high * base + low == high' * base + low'
    ensures high == high' && low == low'
  {
    if high < high' {
      FurtherOn(high, high', base);
    } else if high > high' {
      FurtherOn(high', high, base);
    }
  }

  lemma {:induction false} FurtherOn(early: nat, late: nat, base: nat)
    requires early < late
    ensures early * base + base <= late * base
  {
    AreaIncreases(base, early + 1, late);
    AreaIsProduct(base, early);
    AreaIsProduct(base, late);
  }

  lemma {:induction false} SamplesOfAre(raw: seq<Byte>, stride: nat, head: Head, row: nat, index: nat, count: nat,
                                        samples: seq<nat>)
    requires IsHead(head) && samples == SamplesOf(raw, stride, head, row, index, count)
    ensures forall i :: 0 <= i < count ==>
              && samples[i] == Sample(raw, stride, head, row, index * (8 / head.bitDepth) + i, 0)
              && samples[i] < Power2(head.bitDepth)
  {
    hide Sample, Power2;
    if count > 0 {
      SamplesOfAre(raw, stride, head, row, index, count - 1, samples[..count - 1]);
      SampleFits(raw, stride, head, row, index * (8 / head.bitDepth) + count - 1, 0);
    }
  }

  lemma {:induction false} PixelIs(image: Image, packed: seq<seq<Byte>>, row: nat, column: nat)
    requires IsImage(image) && AllPack(packed, image) && row < image.height && column < image.width
    ensures Pixel(Flat(packed), RowBytes(image), HeadOfImage(image), image.palette, row, column) ==
            ToneOfSamples(image.colourType, image.bitDepth, image.palette, SamplesAt(image, row, column))
  {
    hide Sample, SamplesAt, Area, Flat, OverPaper, Luminance, EntryTone, RowBytes, Packs, AllPack, GreyTone, Power2;
    var samples := SamplesAt(image, row, column);
    forall channel | 0 <= channel < Channels(image)
      ensures Sample(Flat(packed), RowBytes(image), HeadOfImage(image), row, column, channel) == samples[channel]
    {
      SampleIs(image, packed, row, column, channel);
    }
    forall value: Byte
      ensures Luminance(value, value, value) == value && OverPaper(value, 255) == value
      ensures value < Power2(8) && GreyTone(value, 8) == value
    {
      GreyAndOpaque(value);
    }
  }

  /** Pixel `column` of row `row` of what the decoder's loops fill in. */
  lemma {:induction false} GrayAt(raw: seq<Byte>, stride: nat, head: Head, palette: seq<Byte>, rows: nat, row: nat,
                                  column: nat)
    requires IsHead(head) && row < rows && column < head.width
    ensures Area(head.width, row) + column < Area(head.width, rows)
    ensures GrayRows(raw, stride, head, palette, rows)[Area(head.width, row) + column] ==
            Pixel(raw, stride, head, palette, row, column)
  {
    hide Pixel;
    if row < rows - 1 {
      GrayAt(raw, stride, head, palette, rows - 1, row, column);
    } else {
      GrayRowAt(raw, stride, head, palette, row, head.width, column);
    }
  }

  lemma {:induction false} GrayRowAt(raw: seq<Byte>, stride: nat, head: Head, palette: seq<Byte>, row: nat,
                                     columns: nat, column: nat)
    requires IsHead(head) && column < columns
    ensures GrayRow(raw, stride, head, palette, row, columns)[column] == Pixel(raw, stride, head, palette, row, column)
  {
    hide Pixel;
    if column < columns - 1 {
      GrayRowAt(raw, stride, head, palette, row, columns - 1, column);
    }
  }

  /** The tones a decoded image is expected to hold. */
  ghost predicate HasTones(image: Image, gray: seq<Byte>)
    requires IsImage(image)
  {
    && |gray| == Area(image.width, image.height)
    && forall row: nat, column: nat :: row < image.height && column < image.width ==>
         At(gray, Area(image.width, row) + column) ==
         ToneOfSamples(image.colourType, image.bitDepth, image.palette, SamplesAt(image, row, column))
  }

  lemma {:induction false} RowsHaveTones(image: Image, packed: seq<seq<Byte>>, palette: seq<Byte>, gray: seq<Byte>)
    requires IsImage(image) && AllPack(packed, image) && (image.colourType == 3 ==> palette == image.palette)
    requires gray == GrayRows(Flat(packed), RowBytes(image), HeadOfImage(image), palette, image.height)
    ensures HasTones(image, gray)
  {
    hide AllPack, RowBytes;
    forall row: nat, column: nat | row < image.height && column < image.width
      ensures At(gray, Area(image.width, row) + column) ==
              ToneOfSamples(image.colourType, image.bitDepth, image.palette, SamplesAt(image, row, column))
    {
      GrayAt(Flat(packed), RowBytes(image), HeadOfImage(image), palette, image.height, row, column);
      SamePixel(image, packed, palette, row, column);
      PixelIs(image, packed, row, column);
    }
  }

  /** Only an indexed pixel looks at the palette. */
  lemma {:induction false} SamePixel(image: Image, packed: seq<seq<Byte>>, palette: seq<Byte>, row: nat, column: nat)
    requires IsImage(image) && (image.colourType == 3 ==> palette == image.palette)
    ensures Pixel(Flat(packed), RowBytes(image), HeadOfImage(image), palette, row, column) ==
            Pixel(Flat(packed), RowBytes(image), HeadOfImage(image), image.palette, row, column)
  {
    hide Sample, Area, Flat;
  }

  /** Any file that holds an image, of any colour type and sample size, under any filters, decodes to its size and to
      the tone of each of its pixels. */
  lemma {:induction false} AnyEncodingReadsBack(image: Image, packed: seq<seq<Byte>>, filters: seq<Filter>,
                                                chunks: seq<Chunk>, deflate: seq<Byte> -> seq<Byte>,
                                                inflate: seq<Byte> -> Option<seq<Byte>>, crc: seq<Byte> -> UInt32)
    requires IsImage(image) && |packed| == |filters| && Hold(chunks, image, packed, filters, deflate)
    requires forall raw :: inflate(deflate(raw)) == Some(raw)
    ensures var decoded := Decoded(SIGNATURE + EncodeChunks(chunks, crc), inflate);
            && decoded.Success? && decoded.value.width == image.width && decoded.value.height == image.height
            && HasTones(image, decoded.value.gray)
  {
    hide AllPack, RowBytes, HasTones, RowsFiltered, RowsUndone;
    var file := SIGNATURE + EncodeChunks(chunks, crc);
    ChunksRoundTrip(SIGNATURE, chunks, [], crc);
    assert SIGNATURE + EncodeChunks(chunks, crc) + [] == file;
    assert Slice(file, 0, 8) == SIGNATURE;
    HeaderOfReadsBack(image);
    PackedRowsFit(packed, image);
    FiltersRoundTrip(packed, filters, RowBytes(image), PixelBytes(image));
    assert |packed| == image.height by { PackedHeight(packed, image); }
    HoldDecodes(image, packed, chunks, file, filters, deflate, inflate);
  }

  lemma {:induction false} PackedHeight(packed: seq<seq<Byte>>, image: Image)
    requires IsImage(image) && AllPack(packed, image)
    ensures |packed| == image.height
  {
  }

  lemma {:induction false} HoldDecodes(image: Image, packed: seq<seq<Byte>>, chunks: seq<Chunk>, file: seq<Byte>,
                                       filters: seq<Filter>, deflate: seq<Byte> -> seq<Byte>,
                                       inflate: seq<Byte> -> Option<seq<Byte>>)
    requires IsImage(image) && |packed| == |filters| && Hold(chunks, image, packed, filters, deflate)
    requires forall raw :: inflate(deflate(raw)) == Some(raw)
    requires ChunksOf(file) == Success(chunks) && HeadOf(HeaderOf(image)) == Success(HeadOfImage(image))
    requires RowsUndone(RowsFiltered(packed, filters, RowBytes(image), PixelBytes(image)), RowBytes(image),
                        PixelBytes(image), image.height) == Success(packed)
    ensures var decoded := Decoded(file, inflate);
            && decoded.Success? && decoded.value.width == image.width && decoded.value.height == image.height
            && HasTones(image, decoded.value.gray)
  {
    hide HasTones, RowsFiltered, RowsUndone, ChunksOf, HeadOf, Area, Stride, GrayRows, Flat, Find, Joined, HeaderOf,
      AllPack;
    var palette := OrElse(Find(chunks, "PLTE"));
    RowsHaveTones(image, packed, palette,
                  GrayRows(Flat(packed), RowBytes(image), HeadOfImage(image), palette, image.height));
  }

  // ---- Samples smaller than a byte ----

  /** The first samples the decoder reads out of one byte of a row. */
  function SamplesOf(raw: seq<Byte>, stride: nat, head: Head, row: nat, index: nat, count: nat): (samples: seq<nat>)
    requires IsHead(head)
    ensures |samples| == count
  {
    if count == 0 then []
    else
      SamplesOf(raw, stride, head, row, index, count - 1) +
      [Sample(raw, stride, head, row, index * (8 / head.bitDepth) + count - 1, 0)]
  }

  lemma {:induction false} ShiftRightHalves(value: nat, places: nat)
    requires places > 0
    ensures ShiftRight(value, places) == ShiftRight(value, places - 1) / 2
  {
    if places > 1 {
      ShiftRightHalves(value / 2, places - 1);
    }
  }

  /** The samples read so far spell the byte, but for the bits still to come. */
  lemma {:induction false} SamplesSpellTheTop(raw: seq<Byte>, stride: nat, head: Head, row: nat, index: nat, count: nat)
    requires IsHead(head) && head.bitDepth != 8 && count * head.bitDepth <= 8
    ensures Spelled(SamplesOf(raw, stride, head, row, index, count), head.bitDepth) ==
            ShiftRight(At(raw, Area(stride, row) + index), 8 - count * head.bitDepth)
  {
    hide ShiftRight, Sample, Power2, At, Area, IsHead;
    var byte := At(raw, Area(stride, row) + index);
    if count == 0 {
      NothingAboveAByte(byte);
    } else {
      var samples := SamplesOf(raw, stride, head, row, index, count);
      SamplesSpellTheTop(raw, stride, head, row, index, count - 1);
      assert samples[..count - 1] == SamplesOf(raw, stride, head, row, index, count - 1);
      OneMoreSample(raw, stride, head, row, index, count - 1);
      assert (count - 1) * head.bitDepth == count * head.bitDepth - head.bitDepth;
      DepthIsSmall(head);
      NextBits(byte, head.bitDepth, 8 - count * head.bitDepth);
    }
  }

  lemma {:induction false} DepthIsSmall(head: Head)
    requires IsHead(head) && head.bitDepth != 8
    ensures head.bitDepth in {1, 2, 4}
  {
  }

  lemma {:induction false} FourHalves(value: nat, places: nat)
    ensures ShiftRight(value, places) == 2 * ShiftRight(value, places + 1) + ShiftRight(value, places) % 2
    ensures ShiftRight(value, places) == 4 * ShiftRight(value, places + 2) + ShiftRight(value, places) % 4
    ensures ShiftRight(value, places) == 16 * ShiftRight(value, places + 4) + ShiftRight(value, places) % 16
  {
    hide ShiftRight;
    ShiftRightHalves(value, places + 1);
    ShiftRightHalves(value, places + 2);
    ShiftRightHalves(value, places + 3);
    ShiftRightHalves(value, places + 4);
    SixteenParts(ShiftRight(value, places));
  }

  lemma {:induction false} SixteenParts(value: nat)
    ensures value == 4 * (value / 2 / 2) + value % 4
    ensures value == 16 * (value / 2 / 2 / 2 / 2) + value % 16
  {
  }

  lemma {:induction false} NothingAboveAByte(byte: Byte)
    ensures ShiftRight(byte, 8) == 0
  {
    assert ShiftRight(byte, 0) == byte;
    FourHalves(byte, 0);
    FourHalves(byte, 4);
    hide ShiftRight;
  }

  /** Which bits of its byte a sample is read from. */
  lemma {:induction false} OneMoreSample(raw: seq<Byte>, stride: nat, head: Head, row: nat, index: nat, at: nat)
    requires IsHead(head) && head.bitDepth != 8 && (at + 1) * head.bitDepth <= 8
    ensures Sample(raw, stride, head, row, index * (8 / head.bitDepth) + at, 0) ==
            ShiftRight(At(raw, Area(stride, row) + index), 8 - (at + 1) * head.bitDepth) % Power2(head.bitDepth)
  {
    hide ShiftRight, Power2, Area, At;
  }

  /** Shifting fewer places brings in that many more bits. */
  lemma {:induction false} NextBits(value: nat, depth: nat, places: nat)
    requires depth in {1, 2, 4}
    ensures ShiftRight(value, places) ==
            ShiftRight(value, places + depth) * Power2(depth) + ShiftRight(value, places) % Power2(depth)
  {
    hide ShiftRight;
    FourHalves(value, places);
    assert Power2(1) == 2 && Power2(2) == 4 && Power2(4) == 16;
  }

  /** The samples the decoder reads out of a byte spell the byte, whatever their depth: they are its bits, most
      significant first, each once. */
  lemma {:induction false} SamplesSpellTheByte(raw: seq<Byte>, stride: nat, head: Head, row: nat, index: nat)
    requires IsHead(head) && head.bitDepth != 8
    ensures Spelled(SamplesOf(raw, stride, head, row, index, 8 / head.bitDepth), head.bitDepth) ==
            At(raw, Area(stride, row) + index)
  {
    DepthIsSmall(head);
    hide IsHead, Sample, Spelled, At, Area;
    assert 8 / head.bitDepth * head.bitDepth == 8;
    SamplesSpellTheTop(raw, stride, head, row, index, 8 / head.bitDepth);
  }
}
