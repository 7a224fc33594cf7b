// What the TypeScript scanner and the Python reader promise, of one text or of both.
module ScannerLaws {
  import opened Wrappers
  import opened Spans
  import opened Lines
  import opened JsComments
  import P = ProseReader

  // ---- The two agree ----

  /** One scanner's comments are the other's, in order. */
  ghost predicate SameComments(prose: seq<P.Prose>, comments: seq<Span>) {
    |prose| == |comments| && forall k :: 0 <= k < |prose| ==> prose[k].span == comments[k]
  }

  lemma {:induction false} SameOneMore(first: P.Prose, prose: seq<P.Prose>, comments: seq<Span>)
    requires SameComments(prose, comments)
    ensures SameComments([first] + prose, [first.span] + comments)
  {
  }

  /** The two stop a line comment, and a block, at the same place. */
  lemma {:induction false} SameStops(text: string, index: nat)
    requires index < |text|
    ensures P.LineStop(text, index) == LineStop(text, index)
    ensures HasAt(text, "/*", index) ==> P.BlockStop(text, index, P.SLASH.block.value) == BlockStop(text, index)
  {
  }

  /** Reading a quoted value a character at a time comes out where skipping past it does. */
  lemma {:induction false} QuoteIsSkipped(text: string, index: nat, quote: char)
    ensures CommentsFrom(text, index, Some(quote)) == CommentsFrom(text, P.ValueEnd(text, index, quote), None)
    decreases |text| - index
  {
    if index < |text| {
      if text[index] == '\\' {
        QuoteIsSkipped(text, index + 2, quote);
      } else if !Closes(text[index], quote) {
        QuoteIsSkipped(text, index + 1, quote);
      }
    }
  }

  /** One turn of the Python reader, told in the TypeScript scanner's terms. */
  lemma {:induction false} SlashTurn(text: string, index: nat, number: nat)
    requires index < |text|
    ensures var reading, character := P.ReadFrom(text, index, number, P.SLASH), text[index];
            if character == '\n' then reading == P.ReadFrom(text, index + 1, number + 1, P.SLASH)
            else if HasAt(text, "//", index) then
              reading == [P.Prose(number, Span(index, LineStop(text, index)))] +
                         P.ReadFrom(text, LineStop(text, index), number, P.SLASH)
            else if HasAt(text, "/*", index) then
              reading == [P.Prose(number, Span(index, BlockStop(text, index)))] +
                         P.ReadFrom(text, BlockStop(text, index),
                                    number + P.Breaks(text, index, BlockStop(text, index)), P.SLASH)
            else if character in QUOTES then
              reading == P.ReadFrom(text, P.ValueEnd(text, index + 1, character),
                                    number + P.LinesInValue(text, index + 1, character), P.SLASH)
            else reading == P.ReadFrom(text, index + 1, number, P.SLASH)
  {
    hide P.LineStop, LineStop, P.BlockStop, BlockStop, P.ValueEnd, P.LinesInValue, P.Breaks;
    SameStops(text, index);
  }

  /** One turn of the TypeScript scanner outside a quote, past the whole of a value at once. */
  lemma {:induction false} BlankingTurn(text: string, index: nat)
    requires index < |text|
    ensures var comments, character := CommentsFrom(text, index, None), text[index];
            if HasAt(text, "//", index) then
              comments == [Span(index, LineStop(text, index))] + CommentsFrom(text, LineStop(text, index), None)
            else if HasAt(text, "/*", index) then
              comments == [Span(index, BlockStop(text, index))] + CommentsFrom(text, BlockStop(text, index), None)
            else if character in QUOTES then
              comments == CommentsFrom(text, P.ValueEnd(text, index + 1, character), None)
            else comments == CommentsFrom(text, index + 1, None)
  {
    HasPairAt(text, '/', '/', index);
    HasPairAt(text, '/', '*', index);
    if text[index] in QUOTES {
      QuoteIsSkipped(text, index + 1, text[index]);
    }
  }

  lemma {:induction false} NothingLeftToRead(text: string, index: nat, number: nat)
    ensures index >= |text| ==> P.ReadFrom(text, index, number, P.SLASH) == [] && CommentsFrom(text, index, None) == []
  {
  }

  /** From any offset outside a quote, the two scanners find the same comments. */
  lemma {:induction false} ScannersAgreeFrom(text: string, index: nat, number: nat, prose: seq<P.Prose>,
                                             comments: seq<Span>)
    requires prose == P.ReadFrom(text, index, number, P.SLASH) && comments == CommentsFrom(text, index, None)
    ensures SameComments(prose, comments)
    decreases |text| - index
  {
    NothingLeftToRead(text, index, number);
    hide P.ReadFrom, CommentsFrom;
    if index < |text| {
      HasPairAt(text, '/', '/', index);
      HasPairAt(text, '/', '*', index);
      SlashTurn(text, index, number);
      BlankingTurn(text, index);
      var character := text[index];
      if HasAt(text, "//", index) || HasAt(text, "/*", index) {
        var isLine := HasAt(text, "//", index);
        var stop := if isLine then LineStop(text, index) else BlockStop(text, index);
        var line := if isLine then number else number + P.Breaks(text, index, stop);
        ScannersAgreeFrom(text, stop, line, prose[1..], comments[1..]);
        SameOneMore(P.Prose(number, Span(index, stop)), prose[1..], comments[1..]);
      } else {
        var next := if character in QUOTES then P.ValueEnd(text, index + 1, character) else index + 1;
        var line := if character == '\n' then number + 1
                    else if character in QUOTES then number + P.LinesInValue(text, index + 1, character)
                    else number;
        ScannersAgreeFrom(text, next, line, prose, comments);
      }
    }
  }

  /** The Python reader yields a comment over an offset. */
  ghost predicate IsRead(prose: seq<P.Prose>, at: nat) {
    exists k :: 0 <= k < |prose| && prose[k].span.start <= at < prose[k].span.stop
  }

  /** What the TypeScript scanner blanks of a text is exactly what the Python reader yields of it. */
  lemma {:induction false} ScannersAgree(text: string, blanked: string, at: nat)
    requires IsBlanked(text, Comments(text), blanked) && at < |text|
    ensures SameComments(P.Read(text, P.SLASH), Comments(text))
    ensures blanked[at] == if IsRead(P.Read(text, P.SLASH), at) && text[at] != '\n' then ' ' else text[at]
  {
    var prose, comments := P.Read(text, P.SLASH), Comments(text);
    ScannersAgreeFrom(text, 0, 1, prose, comments);
    if IsRead(prose, at) {
      var k :| 0 <= k < |prose| && prose[k].span.start <= at < prose[k].span.stop;
      assert comments[k] == prose[k].span;
    }
    if Covers(comments, at) {
      var k :| 0 <= k < |comments| && comments[k].start <= at < comments[k].stop;
      assert prose[k].span == comments[k];
    }
  }

  // ---- What a comment is ----

  /** A comment opens with its marker and runs to where its kind ends: a line's to the newline, a block's past its
      closer, either to the end of the text. */
  ghost predicate IsComment(text: string, comment: Span) {
    && comment.start + 2 <= comment.stop <= |text|
    && ((HasAt(text, "//", comment.start) && IsToTheNewline(text, comment)) ||
        (HasAt(text, "/*", comment.start) && IsToTheCloser(text, comment)))
  }

  ghost predicate IsToTheNewline(text: string, comment: Span)
    requires comment.stop <= |text|
  {
    && (forall k :: comment.start <= k < comment.stop ==> text[k] != '\n')
    && (comment.stop < |text| ==> text[comment.stop] == '\n')
  }

  ghost predicate IsToTheCloser(text: string, comment: Span) {
    || (comment.stop >= comment.start + 4 && HasAt(text, "*/", comment.stop - 2)
        && forall k :: comment.start + 2 <= k < comment.stop - 2 ==> !HasAt(text, "*/", k))
    || (comment.stop == |text| && forall k :: comment.start + 2 <= k ==> !HasAt(text, "*/", k))
  }

  lemma {:induction false} StopsMakeComments(text: string, index: nat)
    requires index < |text|
    ensures HasAt(text, "//", index) ==> IsComment(text, Span(index, LineStop(text, index)))
    ensures HasAt(text, "/*", index) ==> IsComment(text, Span(index, BlockStop(text, index)))
  {
    HasPairAt(text, '/', '/', index);
    HasPairAt(text, '/', '*', index);
  }

  /** Comments, one after another from an offset on. */
  ghost predicate AreComments(text: string, comments: seq<Span>, from: nat) {
    InOrder(comments, from) && forall k :: 0 <= k < |comments| ==> IsComment(text, comments[k])
  }

  lemma {:induction false} OneMoreComment(text: string, comment: Span, comments: seq<Span>)
    requires IsComment(text, comment) && AreComments(text, comments, comment.stop)
    ensures AreComments(text, [comment] + comments, comment.start)
  {
    var all := [comment] + comments;
    assert forall k :: 0 < k < |all| ==> all[k] == comments[k - 1];
  }

  /** The comments found are comments, one after another. */
  lemma {:induction false} CommentsAreComments(text: string, index: nat, quote: Option<char>)
    ensures AreComments(text, CommentsFrom(text, index, quote), index)
    decreases |text| - index
  {
    if index < |text| {
      match quote
      case Some(open) =>
        if text[index] == '\\' {
          CommentsAreComments(text, index + 2, quote);
        } else {
          CommentsAreComments(text, index + 1, if Closes(text[index], open) then None else quote);
        }
      case None =>
        if text[index] in QUOTES {
          CommentsAreComments(text, index + 1, Some(text[index]));
        } else if HasAt(text, "//", index) || HasAt(text, "/*", index) {
          HasPairAt(text, '/', '/', index);
          StopsMakeComments(text, index);
          var stop := if HasAt(text, "//", index) then LineStop(text, index) else BlockStop(text, index);
          CommentsAreComments(text, stop, None);
          OneMoreComment(text, Span(index, stop), CommentsFrom(text, stop, None));
        } else {
          CommentsAreComments(text, index + 1, None);
        }
    }
  }

  // ---- Blanking twice ----

  /** From an offset on, the blanked text holds what the text does but for its comments. */
  ghost predicate IsBlankedFrom(text: string, blanked: string, index: nat, quote: Option<char>) {
    && |blanked| == |text|
    && forall at :: index <= at < |text| ==> blanked[at] == Blank(text, CommentsFrom(text, index, quote), at)
  }

  /** Nothing before the comments' start is covered. */
  lemma {:induction false} NothingCoveredBefore(text: string, index: nat, quote: Option<char>, at: nat)
    requires at < index
    ensures !Covers(CommentsFrom(text, index, quote), at)
  {
    CommentsAreComments(text, index, quote);
  }

  lemma {:induction false} StepKeepsBlankedFrom(text: string, blanked: string, index: nat, quote: Option<char>,
                                                next: nat, after: Option<char>)
    requires IsBlankedFrom(text, blanked, index, quote) && index < next
    requires CommentsFrom(text, index, quote) == CommentsFrom(text, next, after)
    ensures IsBlankedFrom(text, blanked, next, after)
    ensures forall at :: index <= at < next && at < |text| ==> blanked[at] == text[at]
  {
    forall at | index <= at < next && at < |text| ensures blanked[at] == text[at] {
      NothingCoveredBefore(text, next, after, at);
    }
  }

  /** A stretch of spaces and newlines outside a quote opens nothing. */
  lemma {:induction false} SpaceOpensNothing(text: string, index: nat, stop: nat)
    requires index <= stop <= |text| && forall at :: index <= at < stop ==> text[at] == ' ' || text[at] == '\n'
    ensures CommentsFrom(text, index, None) == CommentsFrom(text, stop, None)
    decreases stop - index
  {
    if index < stop {
      HasPairAt(text, '/', '/', index);
      HasPairAt(text, '/', '*', index);
      SpaceOpensNothing(text, index + 1, stop);
    }
  }

  lemma {:induction false} NothingLeftFrom(text: string, blanked: string, index: nat, quote: Option<char>)
    requires IsBlankedFrom(text, blanked, index, quote)
    ensures CommentsFrom(blanked, index, quote) == []
    decreases |text| - index
  {
    if index < |text| {
      match quote
      case Some(open) =>
        var next := if text[index] == '\\' then index + 2 else index + 1;
        var still := if text[index] != '\\' && Closes(text[index], open) then None else quote;
        StepKeepsBlankedFrom(text, blanked, index, quote, next, still);
        NothingLeftFrom(text, blanked, next, still);
      case None =>
        NothingLeftOutside(text, blanked, index);
    }
  }

  lemma {:induction false} NothingLeftOutside(text: string, blanked: string, index: nat)
    requires index < |text| && IsBlankedFrom(text, blanked, index, None)
    ensures CommentsFrom(blanked, index, None) == []
    decreases |text| - index, 0
  {
    HasPairAt(text, '/', '/', index);
    HasPairAt(text, '/', '*', index);
    if text[index] in QUOTES {
      StepKeepsBlankedFrom(text, blanked, index, None, index + 1, Some(text[index]));
      NothingLeftFrom(text, blanked, index + 1, Some(text[index]));
    } else if HasAt(text, "//", index) || HasAt(text, "/*", index) {
      var stop := if HasAt(text, "//", index) then LineStop(text, index) else BlockStop(text, index);
      PastTheComment(text, blanked, index, stop);
      NothingLeftFrom(text, blanked, stop, None);
      SpaceOpensNothing(blanked, index, stop);
    } else {
      StepKeepsBlankedFrom(text, blanked, index, None, index + 1, None);
      NothingLeftFrom(text, blanked, index + 1, None);
      PlainStaysPlain(text, blanked, index);
    }
  }

  /** A comment is all spaces and newlines once blanked, and what follows it is blanked by what follows it. */
  lemma {:induction false} PastTheComment(text: string, blanked: string, index: nat, stop: nat)
    requires index < stop <= |text| && IsBlankedFrom(text, blanked, index, None)
    requires CommentsFrom(text, index, None) == [Span(index, stop)] + CommentsFrom(text, stop, None)
    ensures IsBlankedFrom(text, blanked, stop, None)
    ensures forall at :: index <= at < stop ==> blanked[at] == ' ' || blanked[at] == '\n'
  {
    forall at | index <= at < |text|
      ensures at < stop ==> blanked[at] == ' ' || blanked[at] == '\n'
      ensures at >= stop ==> blanked[at] == Blank(text, CommentsFrom(text, stop, None), at)
    {
      CoversJoined([Span(index, stop)], CommentsFrom(text, stop, None), at);
      assert at < stop ==> [Span(index, stop)][0].start <= at < [Span(index, stop)][0].stop;
    }
  }

  /** A character that opened no comment opens none beside a blanked neighbour. */
  lemma {:induction false} PlainStaysPlain(text: string, blanked: string, index: nat)
    requires index < |text| && IsBlankedFrom(text, blanked, index, None)
    requires text[index] !in QUOTES && !HasAt(text, "//", index) && !HasAt(text, "/*", index)
    ensures CommentsFrom(blanked, index, None) == CommentsFrom(blanked, index + 1, None)
  {
    HasPairAt(text, '/', '/', index);
    HasPairAt(text, '/', '*', index);
    HasPairAt(blanked, '/', '/', index);
    HasPairAt(blanked, '/', '*', index);
    StepKeepsBlankedFrom(text, blanked, index, None, index + 1, None);
    assert index + 1 < |text| ==> blanked[index + 1] == ' ' || blanked[index + 1] == text[index + 1];
  }

  /** Blanked text holds no comment, for either scanner, so blanking again changes nothing. */
  lemma {:induction false} BlankingIsIdempotent(text: string, blanked: string, again: string)
    requires IsBlanked(text, Comments(text), blanked) && IsBlanked(blanked, Comments(blanked), again)
    ensures Comments(blanked) == [] && P.Read(blanked, P.SLASH) == [] && again == blanked
  {
    NothingLeftFrom(text, blanked, 0, None);
    ScannersAgreeFrom(blanked, 0, 1, P.Read(blanked, P.SLASH), Comments(blanked));
  }

  /** Every offset into the blanked text is where the source says it is, line and column both. */
  lemma {:induction false} BlankingKeepsPositions(text: string, blanked: string, offset: nat)
    requires IsBlanked(text, Comments(text), blanked)
    ensures Located(blanked, offset) == Located(text, offset)
  {
    forall i | 0 <= i < offset ensures IsBreak(blanked, i) <==> IsBreak(text, i) {
      if i < |text| {
        assert blanked[i] == Blank(text, Comments(text), i);
      }
    }
    SameBreaksSamePosition(blanked, text, offset);
  }

  // ---- The lines the Python reader names ----

  /** The newlines a backslash stands before, inside a value. */
  function EscapedInValue(text: string, index: nat, quote: char): nat
    decreases |text| - index
  {
    if index >= |text| then 0
    else if text[index] == '\\' then
      (if IsBreak(text, index + 1) then 1 else 0) + EscapedInValue(text, index + 2, quote)
    else if text[index] == quote || (text[index] == '\n' && quote != '`') then 0
    else EscapedInValue(text, index + 1, quote)
  }

  /** The same, over every value read between two offsets outside them. */
  function Escaped(text: string, index: nat, upTo: nat, spelling: P.Spelling): nat
    requires P.Moves(spelling)
    decreases |text| - index
  {
    if index >= upTo || index >= |text| then 0
    else if text[index] == '\n' then Escaped(text, index + 1, upTo, spelling)
    else if HasAt(text, spelling.line, index) then Escaped(text, P.LineStop(text, index), upTo, spelling)
    else if P.OpensBlock(text, index, spelling) then
      P.BlockMoves(text, index, spelling);
      Escaped(text, P.BlockStop(text, index, spelling.block.value), upTo, spelling)
    else if text[index] in spelling.quotes then
      EscapedInValue(text, index + 1, text[index]) +
      Escaped(text, P.ValueEnd(text, index + 1, text[index]), upTo, spelling)
    else Escaped(text, index + 1, upTo, spelling)
  }

  /** A value's own count misses exactly the newlines a backslash stands before. */
  lemma {:induction false} ValueCountsAllButEscaped(text: string, index: nat, quote: char)
    requires quote != '\n'
    ensures Newlines(text, index) + P.LinesInValue(text, index, quote) + EscapedInValue(text, index, quote) ==
            Newlines(text, P.ValueEnd(text, index, quote))
    decreases |text| - index
  {
    if index < |text| {
      if text[index] == '\\' {
        ValueCountsAllButEscaped(text, index + 2, quote);
        assert Newlines(text, index + 2) == Newlines(text, index + 1) + if IsBreak(text, index + 1) then 1 else 0;
      } else if text[index] != quote && (text[index] != '\n' || quote == '`') {
        ValueCountsAllButEscaped(text, index + 1, quote);
      }
    }
  }

  lemma {:induction false} NoBreakNoNewline(text: string, index: nat, stop: nat)
    requires index <= stop <= |text| && forall k :: index <= k < stop ==> text[k] != '\n'
    ensures Newlines(text, stop) == Newlines(text, index)
  {
    if index < stop {
      NoBreakNoNewline(text, index, stop - 1);
    }
  }

  /** Every comment read from an offset on starts at it or later. */
  lemma {:induction false} ReadsOnwards(text: string, index: nat, number: nat, spelling: P.Spelling, k: nat)
    requires P.Moves(spelling) && k < |P.ReadFrom(text, index, number, spelling)|
    ensures P.ReadFrom(text, index, number, spelling)[k].span.start >= index
    decreases |text| - index
  {
    var character := text[index];
    if character == '\n' {
      ReadsOnwards(text, index + 1, number + 1, spelling, k);
    } else if HasAt(text, spelling.line, index) {
      if k > 0 {
        ReadsOnwards(text, P.LineStop(text, index), number, spelling, k - 1);
      }
    } else if P.OpensBlock(text, index, spelling) {
      var stop := P.BlockStop(text, index, spelling.block.value);
      P.BlockMoves(text, index, spelling);
      if k > 0 {
        ReadsOnwards(text, stop, number + P.Breaks(text, index, stop), spelling, k - 1);
      }
    } else if character in spelling.quotes {
      ReadsOnwards(text, P.ValueEnd(text, index + 1, character),
                   number + P.LinesInValue(text, index + 1, character), spelling, k);
    } else {
      ReadsOnwards(text, index + 1, number, spelling, k);
    }
  }

  lemma {:induction false} PastOne(text: string, index: nat)
    ensures Newlines(text, index + 1) == Newlines(text, index) + if IsBreak(text, index) then 1 else 0
  {
  }

  /** A comment's number falls short of its line by the newlines escaped in values on the way to it. */
  lemma {:induction false} NumberFallsShort(text: string, index: nat, number: nat, spelling: P.Spelling, k: nat)
    requires P.Moves(spelling) && k < |P.ReadFrom(text, index, number, spelling)|
    ensures var prose := P.ReadFrom(text, index, number, spelling)[k];
            prose.number + Escaped(text, index, prose.span.start, spelling) ==
            number + Newlines(text, prose.span.start) - Newlines(text, index)
    decreases |text| - index
  {
    hide Newlines;
    PastOne(text, index);
    ReadsOnwards(text, index, number, spelling, k);
    var character := text[index];
    if character == '\n' {
      ReadsOnwards(text, index + 1, number + 1, spelling, k);
      NumberFallsShort(text, index + 1, number + 1, spelling, k);
    } else if HasAt(text, spelling.line, index) {
      var stop := P.LineStop(text, index);
      NoBreakNoNewline(text, index, stop);
      if k > 0 {
        ReadsOnwards(text, stop, number, spelling, k - 1);
        NumberFallsShort(text, stop, number, spelling, k - 1);
      }
    } else if P.OpensBlock(text, index, spelling) {
      var stop := P.BlockStop(text, index, spelling.block.value);
      P.BlockMoves(text, index, spelling);
      if k > 0 {
        ReadsOnwards(text, stop, number + P.Breaks(text, index, stop), spelling, k - 1);
        NumberFallsShort(text, stop, number + P.Breaks(text, index, stop), spelling, k - 1);
      }
    } else if character in spelling.quotes {
      var end, line := P.ValueEnd(text, index + 1, character), number + P.LinesInValue(text, index + 1, character);
      ValueCountsAllButEscaped(text, index + 1, character);
      ReadsOnwards(text, end, line, spelling, k);
      NumberFallsShort(text, end, line, spelling, k);
    } else {
      ReadsOnwards(text, index + 1, number, spelling, k);
      NumberFallsShort(text, index + 1, number, spelling, k);
    }
  }

  /** The line a comment is said to be on is the line it is on exactly when no value before it escapes a newline. */
  lemma {:induction false} NumberIsItsLine(text: string, spelling: P.Spelling, k: nat)
    requires P.Moves(spelling) && k < |P.Read(text, spelling)|
    ensures var prose := P.Read(text, spelling)[k];
            prose.number == Located(text, prose.span.start).line <==>
            Escaped(text, 0, prose.span.start, spelling) == 0
  {
    NumberFallsShort(text, 0, 1, spelling, k);
  }

  /** A shell text that continues a quoted line: the comment after it is on line 2 and is reported on line 1. */
  lemma {:induction false} NumberCanFallShort()
    ensures var text := "'\\\n'#";
            P.Read(text, P.HASH) == [P.Prose(1, Span(4, 5))] && Located(text, 4).line == 2
  {
    var text := "'\\\n'#";
    assert |text| == 5;
    HasOneAt(text, '#', 0);
    HasOneAt(text, '#', 4);
    P.HasBreakAt(text);
    assert P.ValueEnd(text, 1, '\'') == P.ValueEnd(text, 3, '\'') == 4;
    assert P.LinesInValue(text, 1, '\'') == P.LinesInValue(text, 3, '\'') == 0;
    assert P.LineStop(text, 4) == 5;
    assert P.ReadFrom(text, 5, 1, P.HASH) == [];
    assert P.ReadFrom(text, 4, 1, P.HASH) == [P.Prose(1, Span(4, 5))];
    assert Newlines(text, 3) == 1;
  }
}
