// The five row filters of png.ts, undone in place. Filter types are section 6 of RFC 2083.
module PngFilter {
  import opened Wrappers
  import opened PngBytes
  import opened Raster

  function Abs(x: int): nat {
    if x < 0 then -x else x
  }

  function Paeth(left: Byte, up: Byte, upLeft: Byte): Byte {
    var estimate := left + up - upLeft;
    var toLeft, toUp, toUpLeft := Abs(estimate - left), Abs(estimate - up), Abs(estimate - upLeft);
    if toLeft <= toUp && toLeft <= toUpLeft then left
    else if toUp <= toUpLeft then up
    else upLeft
  }

  function Distance(left: Byte, up: Byte, upLeft: Byte, neighbour: Byte): nat {
    Abs(left + up - upLeft - neighbour)
  }

  /** The nearest of the three neighbours to left + up - upLeft; of several as near, the first of left, up,
      upper-left. */
  lemma {:induction false} PaethIsNearest(left: Byte, up: Byte, upLeft: Byte) returns (neighbours: seq<Byte>, pick: nat)
    ensures neighbours == [left, up, upLeft] && pick < 3 && Paeth(left, up, upLeft) == neighbours[pick]
    ensures forall other :: 0 <= other < 3 ==>
              Distance(left, up, upLeft, neighbours[pick]) <= Distance(left, up, upLeft, neighbours[other])
    ensures forall other :: 0 <= other < pick ==>
              Distance(left, up, upLeft, neighbours[pick]) < Distance(left, up, upLeft, neighbours[other])
  {
    neighbours := [left, up, upLeft];
    if Paeth(left, up, upLeft) == left {
      pick := 0;
    } else if Paeth(left, up, upLeft) == up {
      pick := 1;
    } else {
      pick := 2;
    }
  }

  type Filter = f: int | 0 <= f <= 4

  /** What a filter expects a byte to be, from the bytes already known. */
  function Predicted(filter: Filter, left: Byte, up: Byte, upLeft: Byte): Byte {
    if filter == 0 then 0
    else if filter == 1 then left
    else if filter == 2 then up
    else if filter == 3 then (left + up) / 2
    else Paeth(left, up, upLeft)
  }

  function At(s: seq<Byte>, index: int): Byte {
    if 0 <= index < |s| then s[index] else 0
  }

  /** One byte back from its difference; a byte the stream does not hold reads as NaN and lands as 0. */
  function Undone(filter: Filter, value: Option<Byte>, left: Byte, up: Byte, upLeft: Byte): Byte {
    match value
    case None => 0
    case Some(difference) => (difference + Predicted(filter, left, up, upLeft)) % 256
  }

  function Held(raw: seq<Byte>, at: nat): Option<Byte> {
    if at < |raw| then Some(raw[at]) else None
  }

  /** The first `count` bytes of a row, from the filtered bytes at `from` and the row above (all zero above the
      first). */
  function RowUndone(raw: seq<Byte>, from: nat, filter: Filter, above: seq<Byte>, bpp: nat, count: nat)
    : (row: seq<Byte>)
    ensures |row| == count
  {
    if count == 0 then []
    else
      var row := RowUndone(raw, from, filter, above, bpp, count - 1);
      var index := count - 1;
      row + [Undone(filter, Held(raw, from + index), At(row, index - bpp), At(above, index), At(above, index - bpp))]
  }

  function ZeroRow(stride: nat): seq<Byte> {
    seq(stride, _ => 0)
  }

  function Above(rows: seq<seq<Byte>>, stride: nat): seq<Byte> {
    if rows == [] then ZeroRow(stride) else rows[|rows| - 1]
  }

  /** The rows of a stream of filtered rows, each behind its filter byte. */
  function RowsUndone(raw: seq<Byte>, stride: nat, bpp: nat, height: nat): Result<seq<seq<Byte>>, Refusal> {
    if height == 0 then Success([])
    else
      match RowsUndone(raw, stride, bpp, height - 1)
      case Failure(refusal) => Failure(refusal)
      case Success(rows) =>
        var from := Area(stride + 1, height - 1);
        // The filter is looked at byte by byte, so a row of no bytes never meets a bad one.
        if stride == 0 then Success(rows + [[]])
        else if from < |raw| && raw[from] <= 4 then
          Success(rows + [RowUndone(raw, from + 1, raw[from], Above(rows, stride), bpp, stride)])
        else Failure(RowFilter)
  }

  function Flat(rows: seq<seq<Byte>>): seq<Byte> {
    if rows == [] then [] else Flat(rows[..|rows| - 1]) + rows[|rows| - 1]
  }

  function Unfiltered(raw: seq<Byte>, stride: nat, height: nat, bpp: nat): Result<seq<Byte>, Refusal> {
    match RowsUndone(raw, stride, bpp, height)
    case Failure(refusal) => Failure(refusal)
    case Success(rows) => Success(Flat(rows))
  }

  lemma {:induction false} RowsUndoneShape(raw: seq<Byte>, stride: nat, bpp: nat, height: nat)
    requires RowsUndone(raw, stride, bpp, height).Success?
    ensures var rows := RowsUndone(raw, stride, bpp, height).value;
            |rows| == height && forall i :: 0 <= i < height ==> |rows[i]| == stride
  {
    if height != 0 {
      RowsUndoneShape(raw, stride, bpp, height - 1);
    }
  }

  lemma {:induction false} FlatSize(rows: seq<seq<Byte>>, stride: nat)
    requires forall i :: 0 <= i < |rows| ==> |rows[i]| == stride
    ensures |Flat(rows)| == Area(stride, |rows|)
  {
    if rows != [] {
      FlatSize(rows[..|rows| - 1], stride);
    }
  }

  lemma {:induction false} RefusalStays(raw: seq<Byte>, stride: nat, bpp: nat, row: nat, height: nat)
    requires row <= height && RowsUndone(raw, stride, bpp, row).Failure?
    ensures RowsUndone(raw, stride, bpp, height) == RowsUndone(raw, stride, bpp, row)
    decreases height
  {
    if row < height {
      RefusalStays(raw, stride, bpp, row, height - 1);
    }
  }

  lemma {:induction false} NoneUndone(raw: seq<Byte>, from: nat, filter: Filter, above: seq<Byte>, bpp: nat)
    ensures RowUndone(raw, from, filter, above, bpp, 0) == []
  {
  }

  lemma {:induction false} NextUndone(raw: seq<Byte>, from: nat, filter: Filter, above: seq<Byte>, bpp: nat,
                                      done: seq<Byte>, left: Byte, up: Byte, upLeft: Byte)
    requires done == RowUndone(raw, from, filter, above, bpp, |done|)
    requires left == At(done, |done| - bpp) && up == At(above, |done|) && upLeft == At(above, |done| - bpp)
    ensures RowUndone(raw, from, filter, above, bpp, |done| + 1) ==
            done + [Undone(filter, Held(raw, from + |done|), left, up, upLeft)]
  {
    hide Undone, Held, At;
  }

  /** Where the neighbours of the next byte stand in the buffer. */
  lemma {:induction false} NeighboursAreThere(before: seq<Byte>, done: seq<Byte>, whole: seq<Byte>, above: seq<Byte>,
                                              stride: nat, bpp: nat, hasAbove: bool)
    requires bpp >= 1 && whole == before + done && |done| < stride
    requires if hasAbove then stride <= |before| && above == before[|before| - stride..] else above == ZeroRow(stride)
    ensures (if |done| >= bpp then whole[|whole| - bpp] else 0) == At(done, |done| - bpp)
    ensures (if hasAbove then whole[|whole| - stride] else 0) == At(above, |done|)
    ensures (if !hasAbove || |done| < bpp then 0 else whole[|whole| - stride - bpp]) == At(above, |done| - bpp)
  {
  }

  /** One row, reconstructed over the zeroes at `base` from the bytes before it and the row above in the same buffer. */
  method UnfilterRow(raw: seq<Byte>, from: nat, filter: Filter, out: array<Byte>, base: nat, stride: nat, bpp: nat,
                     hasAbove: bool, ghost above: seq<Byte>)
    requires bpp >= 1 && base + stride <= out.Length
    requires if hasAbove then stride <= base && above == out[base - stride..base] else above == ZeroRow(stride)
    modifies out
    ensures out[..base + stride] == old(out[..base]) + RowUndone(raw, from, filter, above, bpp, stride)
  {
    hide Undone, Held, At, ZeroRow, RowUndone;
    NoneUndone(raw, from, filter, above, bpp);
    ghost var before := out[..base];
    assert hasAbove ==> above == before[base - stride..];
    for index := 0 to stride
      invariant out[..base] == before
      invariant out[base..base + index] == RowUndone(raw, from, filter, above, bpp, index)
    {
      ghost var done, whole := out[base..base + index], out[..base + index];
      assert whole == before + done;
      NeighboursAreThere(before, done, whole, above, stride, bpp, hasAbove);
      var left := if index >= bpp then out[base + index - bpp] else 0;
      var up := if hasAbove then out[base - stride + index] else 0;
      var upLeft := if !hasAbove || index < bpp then 0 else out[base - stride + index - bpp];
      NextUndone(raw, from, filter, above, bpp, done, left, up, upLeft);
      out[base + index] := Undone(filter, Held(raw, from + index), left, up, upLeft);
      assert out[base..base + index + 1] == done + [out[base + index]];
    }
    assert out[..base + stride] == out[..base] + out[base..base + stride];
  }

  /** The buffer the loops fill row by row holds every row rebuilt, or some row's filter is refused. */
  method Unfilter(raw: seq<Byte>, stride: nat, height: nat, bpp: nat) returns (r: Result<array<Byte>, Refusal>)
    requires bpp >= 1
    ensures r.Failure? ==> Unfiltered(raw, stride, height, bpp) == Failure(r.error)
    ensures r.Success? ==> fresh(r.value) && Unfiltered(raw, stride, height, bpp) == Success(r.value[..])
  {
    hide RowsUndone, RowUndone, Flat, IsTopOf, Above;
    var out := new Byte[Area(stride, height)](_ => 0);
    NoRowsUndone(raw, stride, bpp);
    ghost var rows: seq<seq<Byte>>, written: seq<Byte> := [], [];
    var position, base := 0, 0;
    for row := 0 to height
      invariant base == Area(stride, row) <= out.Length && position == Area(stride + 1, row)
      invariant RowsUndone(raw, stride, bpp, row) == Success(rows)
      invariant IsTopOf(rows, written, row, stride) && out[..base] == written
    {
      AreaIncreases(stride, row + 1, height);
      if stride > 0 {
        if position >= |raw| || raw[position] > 4 {
          BadRowIsRefused(raw, stride, bpp, row, height);
          return Failure(RowFilter);
        }
        ghost var above := Above(rows, stride);
        AboveIsWritten(rows, written, row, stride);
        assert row > 0 ==> above == out[base - stride..base];
        UnfilterRow(raw, position + 1, raw[position], out, base, stride, bpp, row > 0, above);
        rows := OneMoreRow(raw, stride, bpp, row, rows, written);
        written := written + RowUndone(raw, position + 1, raw[position], above, bpp, stride);
      } else {
        rows := OneMoreEmptyRow(raw, bpp, row, rows, written);
      }
      position, base := position + 1 + stride, base + stride;
    }
    AboveIsWritten(rows, written, height, stride);
    assert out[..base] == out[..];
    return Success(out);
  }

  lemma {:induction false} NoRowsUndone(raw: seq<Byte>, stride: nat, bpp: nat)
    ensures RowsUndone(raw, stride, bpp, 0) == Success([]) && IsTopOf([], [], 0, stride)
  {
  }

  lemma {:induction false} BadRowIsRefused(raw: seq<Byte>, stride: nat, bpp: nat, row: nat, height: nat)
    requires row < height && stride > 0 && RowsUndone(raw, stride, bpp, row).Success?
    requires Area(stride + 1, row) >= |raw| || raw[Area(stride + 1, row)] > 4
    ensures Unfiltered(raw, stride, height, bpp) == Failure(RowFilter)
  {
    RefusalStays(raw, stride, bpp, row + 1, height);
  }

  lemma {:induction false} OneMoreRow(raw: seq<Byte>, stride: nat, bpp: nat, row: nat, rows: seq<seq<Byte>>,
                                      written: seq<Byte>)
    returns (more: seq<seq<Byte>>)
    requires RowsUndone(raw, stride, bpp, row) == Success(rows) && IsTopOf(rows, written, row, stride)
    requires stride > 0 && Area(stride + 1, row) < |raw| && raw[Area(stride + 1, row)] <= 4
    ensures RowsUndone(raw, stride, bpp, row + 1) == Success(more)
    ensures var from := Area(stride + 1, row);
            IsTopOf(more, written + RowUndone(raw, from + 1, raw[from], Above(rows, stride), bpp, stride), row + 1,
                    stride)
  {
    var from := Area(stride + 1, row);
    var line := RowUndone(raw, from + 1, raw[from], Above(rows, stride), bpp, stride);
    hide RowUndone, IsTopOf, Flat, Above, Area, RowsUndone;
    more := rows + [line];
    NextRowUndone(raw, stride, bpp, row, rows);
    TopGrows(rows, written, row, stride, line);
  }

  lemma {:induction false} NextRowUndone(raw: seq<Byte>, stride: nat, bpp: nat, row: nat, rows: seq<seq<Byte>>)
    requires RowsUndone(raw, stride, bpp, row) == Success(rows)
    requires stride > 0 && Area(stride + 1, row) < |raw| && raw[Area(stride + 1, row)] <= 4
    ensures var from := Area(stride + 1, row);
            RowsUndone(raw, stride, bpp, row + 1) ==
            Success(rows + [RowUndone(raw, from + 1, raw[from], Above(rows, stride), bpp, stride)])
  {
    hide RowUndone, Above, Area;
  }

  lemma {:induction false} TopGrows(rows: seq<seq<Byte>>, written: seq<Byte>, row: nat, stride: nat, line: seq<Byte>)
    requires IsTopOf(rows, written, row, stride) && |line| == stride
    ensures IsTopOf(rows + [line], written + line, row + 1, stride)
  {
    assert (rows + [line])[..row] == rows;
    assert (written + line)[|written|..] == line;
  }

  lemma {:induction false} AboveIsWritten(rows: seq<seq<Byte>>, written: seq<Byte>, row: nat, stride: nat)
    requires IsTopOf(rows, written, row, stride)
    ensures |rows| == row && written == Flat(rows)
    ensures if row > 0 then stride <= |written| && Above(rows, stride) == written[|written| - stride..]
            else Above(rows, stride) == ZeroRow(stride)
  {
  }

  lemma {:induction false} OneMoreEmptyRow(raw: seq<Byte>, bpp: nat, row: nat, rows: seq<seq<Byte>>, written: seq<Byte>)
    returns (more: seq<seq<Byte>>)
    requires RowsUndone(raw, 0, bpp, row) == Success(rows) && IsTopOf(rows, written, row, 0)
    ensures RowsUndone(raw, 0, bpp, row + 1) == Success(more) && IsTopOf(more, written, row + 1, 0)
  {
    more := rows + [[]];
    TopGrows(rows, written, row, 0, []);
    assert written + [] == written;
  }

  /** The rows written so far, end to end, the last of them readable at the end. */
  ghost predicate IsTopOf(rows: seq<seq<Byte>>, written: seq<Byte>, row: nat, stride: nat) {
    && |rows| == row && written == Flat(rows)
    && (row > 0 ==> stride <= |written| && rows[row - 1] == written[|written| - stride..])
  }

  // ---- Applying filters, which undoing them inverts ----

  /** A row as an encoder filters it: each byte less what its true neighbours predict. */
  function RowFiltered(row: seq<Byte>, filter: Filter, above: seq<Byte>, bpp: nat): (line: seq<Byte>)
    ensures |line| == |row|
  {
    seq(|row|, index requires 0 <= index < |row| =>
      (row[index] - Predicted(filter, At(row, index - bpp), At(above, index), At(above, index - bpp))) % 256)
  }

  function RowsFiltered(rows: seq<seq<Byte>>, filters: seq<Filter>, stride: nat, bpp: nat): seq<Byte>
    requires |filters| == |rows|
  {
    if rows == [] then []
    else
      var rest := rows[..|rows| - 1];
      RowsFiltered(rest, filters[..|rows| - 1], stride, bpp)
      + [filters[|rows| - 1]]
      + RowFiltered(rows[|rows| - 1], filters[|rows| - 1], Above(rest, stride), bpp)
  }

  lemma {:induction false} ByteBack(value: Byte, predicted: Byte)
    ensures ((value - predicted) % 256 + predicted) % 256 == value
  {
  }

  lemma {:induction false} RowRoundTrip(raw: seq<Byte>, from: nat, row: seq<Byte>, filter: Filter, above: seq<Byte>,
                                        bpp: nat, count: nat)
    requires bpp >= 1 && count <= |row| && from + |row| <= |raw|
    requires raw[from..from + |row|] == RowFiltered(row, filter, above, bpp)
    ensures RowUndone(raw, from, filter, above, bpp, count) == row[..count]
  {
    if count != 0 {
      var index := count - 1;
      RowRoundTrip(raw, from, row, filter, above, bpp, index);
      NextByteRoundTrip(raw, from, row, filter, above, bpp, index);
      assert row[..count] == row[..index] + [row[index]];
    }
  }

  lemma {:induction false} NextByteRoundTrip(raw: seq<Byte>, from: nat, row: seq<Byte>, filter: Filter,
                                             above: seq<Byte>, bpp: nat, index: nat)
    requires bpp >= 1 && index < |row| && from + |row| <= |raw|
    requires raw[from..from + |row|] == RowFiltered(row, filter, above, bpp)
    ensures Undone(filter, Held(raw, from + index), At(row[..index], index - bpp), At(above, index),
                   At(above, index - bpp)) == row[index]
  {
    assert raw[from + index] == raw[from..from + |row|][index];
    assert At(row[..index], index - bpp) == At(row, index - bpp);
    ByteBack(row[index], Predicted(filter, At(row, index - bpp), At(above, index), At(above, index - bpp)));
  }

  lemma {:induction false} RowsFilteredSize(rows: seq<seq<Byte>>, filters: seq<Filter>, stride: nat, bpp: nat)
    requires |filters| == |rows| && forall i :: 0 <= i < |rows| ==> |rows[i]| == stride
    ensures |RowsFiltered(rows, filters, stride, bpp)| == Area(stride + 1, |rows|)
  {
    if rows != [] {
      RowsFilteredSize(rows[..|rows| - 1], filters[..|rows| - 1], stride, bpp);
    }
  }

  /** What is decided of the first rows does not depend on what follows them in the stream. */
  lemma {:induction false} RowsUndoneOfPrefix(raw: seq<Byte>, after: seq<Byte>, stride: nat, bpp: nat, height: nat)
    requires |raw| == Area(stride + 1, height)
    ensures RowsUndone(raw + after, stride, bpp, height) == RowsUndone(raw, stride, bpp, height)
  {
    RowsUndoneAgree(raw + after, raw, stride, bpp, height);
  }

  lemma {:induction false} RowsUndoneAgree(one: seq<Byte>, two: seq<Byte>, stride: nat, bpp: nat, height: nat)
    requires Area(stride + 1, height) <= |one| && Area(stride + 1, height) <= |two|
    requires one[..Area(stride + 1, height)] == two[..Area(stride + 1, height)]
    ensures RowsUndone(one, stride, bpp, height) == RowsUndone(two, stride, bpp, height)
  {
    if height != 0 {
      var from := Area(stride + 1, height - 1);
      assert one[..from] == one[..from + stride + 1][..from] && two[..from] == two[..from + stride + 1][..from];
      RowsUndoneAgree(one, two, stride, bpp, height - 1);
      assert forall i :: 0 <= i < from + stride + 1 ==> one[i] == one[..from + stride + 1][i] == two[i];
      if RowsUndone(one, stride, bpp, height - 1).Success? && one[from] <= 4 {
        RowUndoneAgrees(one, two, from + 1, one[from], Above(RowsUndone(one, stride, bpp, height - 1).value, stride),
                        bpp, stride);
      }
    }
  }

  lemma {:induction false} RowUndoneAgrees(one: seq<Byte>, two: seq<Byte>, from: nat, filter: Filter, above: seq<Byte>,
                                           bpp: nat, count: nat)
    requires from + count <= |one| && from + count <= |two|
    requires forall i :: from <= i < from + count ==> one[i] == two[i]
    ensures RowUndone(one, from, filter, above, bpp, count) == RowUndone(two, from, filter, above, bpp, count)
  {
    if count != 0 {
      RowUndoneAgrees(one, two, from, filter, above, bpp, count - 1);
    }
  }

  /** Undoing inverts applying: for every image, every choice of filter per row, every stride and pixel size. */
  lemma {:induction false} FiltersRoundTrip(rows: seq<seq<Byte>>, filters: seq<Filter>, stride: nat, bpp: nat)
    requires bpp >= 1 && |filters| == |rows| && forall i :: 0 <= i < |rows| ==> |rows[i]| == stride
    ensures RowsUndone(RowsFiltered(rows, filters, stride, bpp), stride, bpp, |rows|) == Success(rows)
  {
    if rows != [] {
      var last := |rows| - 1;
      var rest, before := rows[..last], RowsFiltered(rows[..last], filters[..last], stride, bpp);
      var line := RowFiltered(rows[last], filters[last], Above(rest, stride), bpp);
      RowsFilteredSize(rest, filters[..last], stride, bpp);
      FiltersRoundTrip(rest, filters[..last], stride, bpp);
      RowsUndoneOfPrefix(before, [filters[last]] + line, stride, bpp, last);
      LastRowRoundTrip(before, rest, rows[last], filters[last], stride, bpp);
      LastRowSplits(rows, filters, stride, bpp);
    }
  }

  lemma {:induction false} LastRowSplits(rows: seq<seq<Byte>>, filters: seq<Filter>, stride: nat, bpp: nat)
    requires |filters| == |rows| && rows != []
    ensures var last := |rows| - 1;
            && rows == rows[..last] + [rows[last]]
            && RowsFiltered(rows, filters, stride, bpp) == RowsFiltered(rows[..last], filters[..last], stride, bpp)
                 + ([filters[last]] + RowFiltered(rows[last], filters[last], Above(rows[..last], stride), bpp))
  {
  }

  lemma {:induction false} LastRowRoundTrip(before: seq<Byte>, rest: seq<seq<Byte>>, row: seq<Byte>, filter: Filter,
                                            stride: nat, bpp: nat)
    requires bpp >= 1 && |row| == stride && |before| == Area(stride + 1, |rest|)
    requires var raw := before + ([filter] + RowFiltered(row, filter, Above(rest, stride), bpp));
             RowsUndone(raw, stride, bpp, |rest|) == Success(rest)
    ensures var raw := before + ([filter] + RowFiltered(row, filter, Above(rest, stride), bpp));
            RowsUndone(raw, stride, bpp, |rest| + 1) == Success(rest + [row])
  {
    hide RowFiltered, RowUndone;
    var line := RowFiltered(row, filter, Above(rest, stride), bpp);
    var raw := before + ([filter] + line);
    var from := |before|;
    assert raw[from] == filter && raw[from + 1..from + 1 + stride] == line;
    RowRoundTrip(raw, from + 1, row, filter, Above(rest, stride), bpp, stride);
    assert row[..stride] == row;
  }
}
