// Bytes, bits and chunk framing for frontend/scripts/generate-plate/png.ts. Chunk layout is section 3.2 of RFC 2083.
module PngBytes {
  import opened Wrappers

  type Byte = b: int | 0 <= b < 256
  type UInt32 = n: int | 0 <= n < 0x1_0000_0000

  // ---- Bits of a byte, numbered from the least significant ----

  function Power2(exponent: nat): (power: nat)
    ensures power >= 1
  {
    if exponent == 0 then 1 else 2 * Power2(exponent - 1)
  }

  function Bit(value: nat, at: nat): nat
    decreases at
  {
    if at == 0 then value % 2 else Bit(value / 2, at - 1)
  }

  function ShiftRight(value: nat, places: nat): nat {
    if places == 0 then value else ShiftRight(value / 2, places - 1)
  }

  /** `a | b`. */
  function Or(a: nat, b: nat): nat {
    if a == 0 then b
    else if b == 0 then a
    else 2 * Or(a / 2, b / 2) + (if a % 2 == 1 || b % 2 == 1 then 1 else 0)
  }

  lemma {:induction false} ShiftedBit(value: nat, at: nat)
    ensures ShiftRight(value, at) % 2 == Bit(value, at)
    decreases at
  {
    if at != 0 {
      ShiftedBit(value / 2, at - 1);
    }
  }

  lemma {:induction false} BitOfZero(at: nat)
    ensures Bit(0, at) == 0
  {
    if at != 0 {
      BitOfZero(at - 1);
    }
  }

  lemma {:induction false} BitOfPower(one: nat, at: nat)
    ensures Bit(Power2(one), at) == if at == one then 1 else 0
  {
    if at == 0 {
    } else if one == 0 {
      BitOfZero(at - 1);
    } else {
      BitOfPower(one - 1, at - 1);
    }
  }

  /** Or-ing one bit in sets that bit and leaves the others. */
  lemma {:induction false} OrSetsOneBit(value: nat, one: nat, at: nat)
    ensures Bit(Or(value, Power2(one)), at) == if at == one then 1 else Bit(value, at)
  {
    if value == 0 {
      BitOfPower(one, at);
      BitOfZero(at);
    } else if at != 0 {
      if one == 0 {
        assert Or(value / 2, 0) == value / 2;
      } else {
        OrSetsOneBit(value / 2, one - 1, at - 1);
      }
    }
  }

  lemma {:induction false} OrStaysWithin(value: nat, one: nat, width: nat)
    requires value < Power2(width) && one < width
    ensures Or(value, Power2(one)) < Power2(width)
  {
    if value == 0 {
      PowerIncreases(one, width);
    } else if one == 0 {
      assert Or(value / 2, 0) == value / 2;
      assert Power2(width) == 2 * Power2(width - 1);
    } else {
      assert Power2(one) == 2 * Power2(one - 1) && Power2(width) == 2 * Power2(width - 1);
      OrStaysWithin(value / 2, one - 1, width - 1);
      assert Or(value, Power2(one)) == 2 * Or(value / 2, Power2(one - 1)) + value % 2;
    }
  }

  lemma {:induction false} PowerIncreases(small: nat, large: nat)
    requires small < large
    ensures Power2(small) < Power2(large)
  {
    if small + 1 < large {
      PowerIncreases(small, large - 1);
    }
  }

  /** `0x80 >> (column & 7)`, or-ed into a byte. */
  function WithPixel(value: Byte, column: nat): Byte {
    assert Power2(8) == 256;
    OrStaysWithin(value, 7 - column % 8, 8);
    Or(value, Power2(7 - column % 8))
  }

  // ---- Four-byte numbers ----

  function WriteUInt32(n: UInt32): seq<Byte> {
    [n / 0x100_0000, n / 0x1_0000 % 256, n / 0x100 % 256, n % 256]
  }

  function ReadUInt32(bytes: seq<Byte>, at: nat): UInt32
    requires at + 4 <= |bytes|
  {
    var first: int, second: int, third: int := bytes[at], bytes[at + 1], bytes[at + 2];
    0x100_0000 * first + 0x1_0000 * second + 0x100 * third + bytes[at + 3]
  }

  lemma {:induction false} UInt32RoundTrip(n: UInt32, before: seq<Byte>, after: seq<Byte>)
    ensures ReadUInt32(before + WriteUInt32(n) + after, |before|) == n
  {
    var bytes := before + WriteUInt32(n) + after;
    assert bytes[|before|..|before| + 4] == WriteUInt32(n);
    assert forall i :: 0 <= i < 4 ==> bytes[|before| + i] == WriteUInt32(n)[i];
  }

  // ---- Slices and text ----

  /** `subarray`, whose ends are clamped to the buffer. */
  function Slice<T>(s: seq<T>, from: nat, to: nat): seq<T> {
    if from >= |s| || to <= from then [] else if to >= |s| then s[from..] else s[from..to]
  }

  function FromLatin1(bytes: seq<Byte>): string {
    seq(|bytes|, i requires 0 <= i < |bytes| => bytes[i] as char)
  }

  function ToLatin1(text: string): seq<Byte> {
    seq(|text|, i requires 0 <= i < |text| => text[i] as int % 256)
  }

  predicate IsLatin1(text: string) {
    forall i :: 0 <= i < |text| ==> text[i] as int < 256
  }

  lemma {:induction false} Latin1RoundTrip(text: string)
    requires IsLatin1(text)
    ensures FromLatin1(ToLatin1(text)) == text
  {
  }

  // ---- Chunks ----

  const SIGNATURE: seq<Byte> := [0x89, 0x50, 0x4e, 0x47, 0x0d, 0x0a, 0x1a, 0x0a]

  datatype Chunk = Chunk(name: string, data: seq<Byte>)

  predicate IsChunk(chunk: Chunk) {
    |chunk.name| == 4 && IsLatin1(chunk.name) && |chunk.data| < 0x1_0000_0000
  }

  function EncodeChunk(chunk: Chunk, crc: seq<Byte> -> UInt32): seq<Byte>
    requires IsChunk(chunk)
  {
    var typed := ToLatin1(chunk.name) + chunk.data;
    WriteUInt32(|chunk.data|) + typed + WriteUInt32(crc(typed))
  }

  function EncodeChunks(chunks: seq<Chunk>, crc: seq<Byte> -> UInt32): seq<Byte>
    requires forall i :: 0 <= i < |chunks| ==> IsChunk(chunks[i])
  {
    if chunks == [] then [] else EncodeChunk(chunks[0], crc) + EncodeChunks(chunks[1..], crc)
  }

  /** The chunk at an offset: whatever the buffer holds of the length it states. */
  function ChunkAt(bytes: seq<Byte>, offset: nat): Chunk
    requires offset + 8 <= |bytes|
  {
    Chunk(FromLatin1(bytes[offset + 4..offset + 8]),
          Slice(bytes, offset + 8, offset + 8 + ReadUInt32(bytes, offset)))
  }

  function ChunksFrom(bytes: seq<Byte>, offset: nat): seq<Chunk>
    decreases |bytes| - offset
  {
    if offset + 8 > |bytes| then []
    else if ChunkAt(bytes, offset).name == "IEND" then [ChunkAt(bytes, offset)]
    else [ChunkAt(bytes, offset)] + ChunksFrom(bytes, offset + 12 + ReadUInt32(bytes, offset))
  }

  datatype Refusal =
    | WrongSignature
    | NoHeader
    | ShortHeader
    | ColourType
    | Interlaced
    | BitDepth
    | Channels
    | NoPalette
    | BadStream
    | RowFilter
    | TooLarge
    | NotAColour

  function ChunksOf(bytes: seq<Byte>): Result<seq<Chunk>, Refusal> {
    if Slice(bytes, 0, 8) != SIGNATURE then Failure(WrongSignature) else Success(ChunksFrom(bytes, 8))
  }

  lemma {:induction false} OneMoreChunk(bytes: seq<Byte>, offset: nat, chunks: seq<Chunk>, whole: seq<Chunk>)
    requires offset + 8 <= |bytes| && chunks + ChunksFrom(bytes, offset) == whole
    ensures var chunk := ChunkAt(bytes, offset);
            if chunk.name == "IEND" then chunks + [chunk] == whole
            else chunks + [chunk] + ChunksFrom(bytes, offset + 12 + ReadUInt32(bytes, offset)) == whole
  {
    var chunk := ChunkAt(bytes, offset);
    if chunk.name != "IEND" {
      var rest := ChunksFrom(bytes, offset + 12 + ReadUInt32(bytes, offset));
      assert chunks + ([chunk] + rest) == chunks + [chunk] + rest;
    }
  }

  /** `readChunks`, which stops after `IEND` or where no whole chunk head is left. */
  method ReadChunks(bytes: seq<Byte>) returns (r: Result<seq<Chunk>, Refusal>)
    ensures r == ChunksOf(bytes)
  {
    if Slice(bytes, 0, 8) != SIGNATURE {
      return Failure(WrongSignature);
    }
    ghost var whole := ChunksFrom(bytes, 8);
    var chunks := [];
    var offset := 8;
    while offset + 8 <= |bytes|
      invariant 0 <= offset
      invariant chunks + ChunksFrom(bytes, offset) == whole
      decreases |bytes| - offset
    {
      var next := offset + 12 + ReadUInt32(bytes, offset);
      var chunk := ChunkAt(bytes, offset);
      OneMoreChunk(bytes, offset, chunks, whole);
      chunks := chunks + [chunk];
      if chunk.name == "IEND" {
        return Success(chunks);
      }
      assert chunks + ChunksFrom(bytes, next) == whole;
      offset := next;
    }
    assert chunks + [] == chunks;
    return Success(chunks);
  }

  /** Up to and with the first `IEND`. */
  function UpToEnd(chunks: seq<Chunk>): seq<Chunk> {
    if chunks == [] then []
    else if chunks[0].name == "IEND" then [chunks[0]]
    else [chunks[0]] + UpToEnd(chunks[1..])
  }

  predicate HasEnd(chunks: seq<Chunk>) {
    chunks != [] && (chunks[0].name == "IEND" || HasEnd(chunks[1..]))
  }

  lemma {:induction false} ChunkRoundTrip(before: seq<Byte>, chunk: Chunk, after: seq<Byte>, crc: seq<Byte> -> UInt32)
    requires IsChunk(chunk)
    ensures var bytes := before + EncodeChunk(chunk, crc) + after;
            ChunkAt(bytes, |before|) == chunk && ReadUInt32(bytes, |before|) == |chunk.data|
  {
    var typed := ToLatin1(chunk.name) + chunk.data;
    var check := WriteUInt32(crc(typed));
    var bytes := before + EncodeChunk(chunk, crc) + after;
    UInt32RoundTrip(|chunk.data|, before, typed + check + after);
    assert bytes == before + WriteUInt32(|chunk.data|) + (typed + check + after);
    assert bytes[|before| + 4..|before| + 8] == ToLatin1(chunk.name);
    Latin1RoundTrip(chunk.name);
    assert bytes[|before| + 8..|before| + 8 + |chunk.data|] == chunk.data;
  }

  /** Framing loses nothing: reading back a run of framed chunks gives the chunks, up to the first `IEND`, whatever
      checksums they carry and whatever follows. */
  lemma {:induction false} ChunksRoundTrip(before: seq<Byte>, chunks: seq<Chunk>, after: seq<Byte>,
                                           crc: seq<Byte> -> UInt32)
    requires forall i :: 0 <= i < |chunks| ==> IsChunk(chunks[i])
    requires after == [] || HasEnd(chunks)
    ensures ChunksFrom(before + EncodeChunks(chunks, crc) + after, |before|) == UpToEnd(chunks)
    decreases |chunks|
  {
    if chunks == [] {
      assert before + EncodeChunks(chunks, crc) + after == before;
    } else {
      var head, rest := EncodeChunk(chunks[0], crc), EncodeChunks(chunks[1..], crc);
      assert EncodeChunks(chunks, crc) == head + rest;
      Regroup(before, head, rest, after);
      if chunks[0].name != "IEND" {
        assert forall i :: 0 < i < |chunks| ==> chunks[i] == chunks[1..][i - 1];
        ChunksRoundTrip(before + head, chunks[1..], after, crc);
      }
      FirstChunk(before, chunks[0], rest + after, crc);
    }
  }

  lemma {:induction false} FirstChunk(before: seq<Byte>, chunk: Chunk, after: seq<Byte>, crc: seq<Byte> -> UInt32)
    requires IsChunk(chunk)
    ensures var head := EncodeChunk(chunk, crc);
            ChunksFrom(before + head + after, |before|) ==
            if chunk.name == "IEND" then [chunk] else [chunk] + ChunksFrom(before + head + after, |before + head|)
  {
    hide ChunksFrom, ChunkAt, ReadUInt32;
    ChunkRoundTrip(before, chunk, after, crc);
    OneChunk(before + EncodeChunk(chunk, crc) + after, |before|, chunk);
    assert |before + EncodeChunk(chunk, crc)| == |before| + 12 + |chunk.data|;
  }

  lemma {:induction false} OneChunk(bytes: seq<Byte>, offset: nat, chunk: Chunk)
    requires offset + 8 <= |bytes| && ChunkAt(bytes, offset) == chunk && ReadUInt32(bytes, offset) == |chunk.data|
    ensures ChunksFrom(bytes, offset) ==
            if chunk.name == "IEND" then [chunk] else [chunk] + ChunksFrom(bytes, offset + 12 + |chunk.data|)
  {
  }

  lemma {:induction false} Regroup<T>(a: seq<T>, b: seq<T>, c: seq<T>, d: seq<T>)
    ensures a + (b + c) + d == a + b + (c + d)
    ensures a + (b + c) + d == (a + b) + c + d
  {
  }
}
