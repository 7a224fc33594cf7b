// frontend/scripts/lib/css-scan.ts, createPositionResolver: an offset as a line and a column.
module Lines {

  predicate IsBreak(text: string, at: nat) {
    at < |text| && text[at] == '\n'
  }

  /** How many newlines stand before an offset. */
  function Newlines(text: string, offset: nat): nat {
    if offset == 0 then 0
    else Newlines(text, offset - 1) + if IsBreak(text, offset - 1) then 1 else 0
  }

  /** Where the line holding an offset starts. */
  function LineStart(text: string, offset: nat): (start: nat)
    ensures start <= offset && start <= |text|
  {
    if offset == 0 then 0
    else if IsBreak(text, offset - 1) then offset
    else LineStart(text, offset - 1)
  }

  lemma {:induction false} NewlinesNeverDrop(text: string, few: nat, many: nat)
    requires few <= many
    ensures Newlines(text, few) <= Newlines(text, many)
  {
    if few < many {
      NewlinesNeverDrop(text, few, many - 1);
    }
  }

  datatype Position = Position(line: nat, column: nat)

  function Located(text: string, offset: nat): Position {
    Position(Newlines(text, offset) + 1, offset - LineStart(text, offset) + 1)
  }

  /** The table: entry `k` is where line `k + 1` starts. */
  ghost predicate IsTable(text: string, starts: seq<nat>, upTo: nat) {
    && |starts| == Newlines(text, upTo) + 1
    && (forall k :: 0 <= k < |starts| ==> starts[k] <= upTo && Newlines(text, starts[k]) == k)
    && forall k :: 0 <= k < |starts| ==> LineStart(text, starts[k]) == starts[k]
  }

  method LineStarts(text: string) returns (starts: seq<nat>)
    ensures IsTable(text, starts, |text|)
  {
    starts := [0];
    for index := 0 to |text|
      invariant IsTable(text, starts, index)
    {
      if text[index] == '\n' {
        starts := starts + [index + 1];
      }
    }
  }

  /** A line start is at or before an offset exactly when no more newlines stand before it. */
  lemma {:induction false} StartsAreInOrder(text: string, starts: seq<nat>, k: nat, offset: nat)
    requires IsTable(text, starts, |text|) && k < |starts|
    ensures starts[k] <= offset <==> k <= Newlines(text, offset)
  {
    if starts[k] <= offset {
      NewlinesNeverDrop(text, starts[k], offset);
    } else {
      NewlinesNeverDrop(text, offset, starts[k] - 1);
      LineStartIsBreak(text, starts[k]);
    }
  }

  lemma {:induction false} LineStartIsBreak(text: string, offset: nat)
    requires offset > 0 && LineStart(text, offset) == offset
    ensures IsBreak(text, offset - 1)
  {
    assert LineStart(text, offset - 1) < offset;
  }

  /** No newline stands between a line's start and an offset on it. */
  lemma {:induction false} StartOfLine(text: string, offset: nat, start: nat)
    requires start <= offset && Newlines(text, start) == Newlines(text, offset) && LineStart(text, start) == start
    ensures LineStart(text, offset) == start
  {
    if start < offset {
      NewlinesNeverDrop(text, start, offset - 1);
      StartOfLine(text, offset - 1, start);
    }
  }

  lemma {:induction false} NewlinesEnd(text: string, offset: nat)
    requires offset >= |text|
    ensures Newlines(text, offset) == Newlines(text, |text|)
  {
    if offset > |text| {
      NewlinesEnd(text, offset - 1);
    }
  }

  /** The halving search finds the line and the column an offset is really at. */
  method At(text: string, starts: seq<nat>, offset: nat) returns (position: Position)
    requires IsTable(text, starts, |text|)
    ensures position == Located(text, offset)
  {
    var low, high := 0, |starts| - 1;
    ghost var line := Newlines(text, offset);
    if offset >= |text| {
      NewlinesEnd(text, offset);
    } else {
      NewlinesNeverDrop(text, offset, |text|);
    }
    while low < high
      invariant 0 <= low <= line <= high < |starts|
    {
      var middle := (low + high + 1) / 2;
      StartsAreInOrder(text, starts, middle, offset);
      if starts[middle] <= offset {
        low := middle;
      } else {
        high := middle - 1;
      }
    }
    StartsAreInOrder(text, starts, low, offset);
    StartOfLine(text, offset, starts[low]);
    position := Position(low + 1, offset - starts[low] + 1);
  }

  /** Two offsets never share a position, so a position names one place in the source. */
  lemma {:induction false} PositionsAreDistinct(text: string, one: nat, other: nat)
    requires Located(text, one) == Located(text, other)
    ensures one == other
  {
    var first, second := LineStart(text, one), LineStart(text, other);
    StartIsOnItsLine(text, one);
    StartIsOnItsLine(text, other);
    if first < second {
      LineStartIsBreak(text, second);
      NewlinesNeverDrop(text, first, second - 1);
    } else if second < first {
      LineStartIsBreak(text, first);
      NewlinesNeverDrop(text, second, first - 1);
    }
  }

  lemma {:induction false} StartIsOnItsLine(text: string, offset: nat)
    ensures Newlines(text, LineStart(text, offset)) == Newlines(text, offset)
    ensures LineStart(text, LineStart(text, offset)) == LineStart(text, offset)
  {
    if offset > 0 && !IsBreak(text, offset - 1) {
      StartIsOnItsLine(text, offset - 1);
    }
  }

  /** Two texts that break their lines alike, up to an offset, locate it alike. */
  lemma {:induction false} SameBreaksSamePosition(text: string, other: string, offset: nat)
    requires forall i :: 0 <= i < offset ==> (IsBreak(text, i) <==> IsBreak(other, i))
    ensures Located(text, offset) == Located(other, offset)
  {
    if offset > 0 {
      SameBreaksSamePosition(text, other, offset - 1);
      assert IsBreak(text, offset - 1) <==> IsBreak(other, offset - 1);
    }
  }
}
