// What of a stylesheet is comment, told one character at a time from the left, and what its comments say.
module CssStates {
  import opened Wrappers
  import opened Spans
  import opened CssScan

  /** What the character about to be read is part of. */
  datatype Mode =
    | Code
    | InQuote(quote: char)
    | Escaped(quote: char)
    | OpensBlock
    | InBlock
    | ClosesBlock

  predicate ArePair(text: string, at: nat, first: char, second: char) {
    at + 1 < |text| && text[at] == first && text[at + 1] == second
  }

  /** What the character after one is part of. A value ends at a newline, and a closer on its own is taken out too. */
  function Next(text: string, at: nat, mode: Mode): Mode
    requires at < |text|
  {
    match mode
    case Code =>
      if text[at] == '"' || text[at] == '\'' then InQuote(text[at])
      else if ArePair(text, at, '*', '/') then ClosesBlock
      else if ArePair(text, at, '/', '*') then OpensBlock
      else Code
    case InQuote(quote) =>
      if text[at] == '\\' then Escaped(quote)
      else if text[at] == quote || text[at] == '\n' then Code
      else mode
    case Escaped(quote) => InQuote(quote)
    case OpensBlock => InBlock
    case InBlock => if ArePair(text, at, '*', '/') then ClosesBlock else InBlock
    case ClosesBlock => Code
  }

  function ModeAt(text: string, at: nat): Mode
    requires at <= |text|
  {
    if at == 0 then Code else Next(text, at - 1, ModeAt(text, at - 1))
  }

  /** A character that is taken out: of a comment, or of a closer on its own. */
  predicate IsTakenOut(text: string, at: nat)
    requires at < |text|
  {
    match ModeAt(text, at)
    case Code => ArePair(text, at, '/', '*') || ArePair(text, at, '*', '/')
    case OpensBlock => true
    case InBlock => true
    case ClosesBlock => true
    case InQuote(_) => false
    case Escaped(_) => false
  }

  lemma {:induction false} NextMode(text: string, at: nat)
    requires at < |text|
    ensures ModeAt(text, at + 1) == Next(text, at, ModeAt(text, at))
  {
  }

  lemma {:induction false} ThroughABlock(text: string, index: nat, at: nat)
    requires index + 2 <= at <= |text| && ModeAt(text, index + 2) == InBlock
    requires forall k :: index + 2 <= k < at ==> !HasAt(text, "*/", k)
    ensures ModeAt(text, at) == InBlock
    decreases at
  {
    hide ModeAt;
    if at > index + 2 {
      ThroughABlock(text, index, at - 1);
      NextMode(text, at - 1);
      HasPairAt(text, '*', '/', at - 1);
    }
  }

  /** One piece from where it starts. */
  lemma {:induction false} PieceAgrees(text: string, index: nat, at: nat)
    requires index < |text| && ModeAt(text, index) == Code && !IsQuote(text[index])
    ensures match PieceAt(text, index)
            case None => ModeAt(text, index + 1) == Code && !IsTakenOut(text, index)
            case Some(piece) =>
              && (piece.span.stop < |text| ==> ModeAt(text, piece.span.stop) == Code)
              && (index <= at < piece.span.stop ==> IsTakenOut(text, at))
  {
    hide ModeAt;
    HasPairAt(text, '*', '/', index);
    HasPairAt(text, '/', '*', index);
    NextMode(text, index);
    if ArePair(text, index, '*', '/') {
      NextMode(text, index + 1);
    } else if ArePair(text, index, '/', '*') {
      NextMode(text, index + 1);
      BlockAgrees(text, index, at);
    }
  }

  lemma {:induction false} BlockAgrees(text: string, index: nat, at: nat)
    requires index + 1 < |text| && ModeAt(text, index) == Code && ArePair(text, index, '/', '*')
    requires ModeAt(text, index + 1) == OpensBlock && ModeAt(text, index + 2) == InBlock
    ensures match Find(text, "*/", index + 2)
            case None => index <= at < |text| ==> IsTakenOut(text, at)
            case Some(closer) =>
              && (closer + 2 < |text| ==> ModeAt(text, closer + 2) == Code)
              && (index <= at < closer + 2 ==> IsTakenOut(text, at))
  {
    hide ModeAt;
    var found := Find(text, "*/", index + 2);
    if found.Some? {
      var closer := found.value;
      ThroughABlock(text, index, closer);
      HasPairAt(text, '*', '/', closer);
      NextMode(text, closer);
      NextMode(text, closer + 1);
      if index + 2 <= at < closer {
        ThroughABlock(text, index, at);
      }
    } else if index + 2 <= at < |text| {
      ThroughABlock(text, index, at);
    }
  }

  lemma {:induction false} NothingEarlier(text: string, index: nat, quote: Option<char>, at: nat)
    requires at < index
    ensures !Covers(SpansOf(PiecesFrom(text, index, quote)), at)
  {
    PiecesArePieces(text, index, quote, PiecesFrom(text, index, quote));
  }

  lemma {:induction false} CoversFirst(piece: Piece, pieces: seq<Piece>, at: nat)
    ensures Covers(SpansOf([piece] + pieces), at) <==>
            piece.span.start <= at < piece.span.stop || Covers(SpansOf(pieces), at)
  {
    assert ([piece] + pieces)[1..] == pieces;
    CoversJoined([piece.span], SpansOf(pieces), at);
    assert [piece.span][0] == piece.span;
  }

  /** A quote stands open here, or none does. */
  predicate Stands(text: string, index: nat, quote: Option<char>)
    requires index <= |text|
  {
    ModeAt(text, index) == match quote case None => Code case Some(open) => InQuote(open)
  }

  lemma {:induction false} StatesAgree(text: string, index: nat, quote: Option<char>, at: nat)
    requires index <= at < |text| && Stands(text, index, quote)
    ensures Covers(SpansOf(PiecesFrom(text, index, quote)), at) <==> IsTakenOut(text, at)
    decreases |text| - index
  {
    hide ModeAt, PieceAt, Covers, SpansOf;
    NextMode(text, index);
    if quote.Some? {
      if text[index] == '\\' {
        if at > index {
          NextMode(text, index + 1);
        }
        if at >= index + 2 {
          StatesAgree(text, index + 2, quote, at);
        } else {
          NothingEarlier(text, index + 2, quote, at);
        }
      } else {
        var after := if text[index] == quote.value || text[index] == '\n' then None else quote;
        Onwards(text, index, after, at);
      }
    } else if IsQuote(text[index]) {
      NoPairInAQuote(text, index);
      Onwards(text, index, Some(text[index]), at);
    } else {
      PieceAgrees(text, index, at);
      var piece := PieceAt(text, index);
      if piece.None? {
        Onwards(text, index, None, at);
      } else {
        var stop := piece.value.span.stop;
        CoversFirst(piece.value, PiecesFrom(text, stop, None), at);
        if at >= stop {
          StatesAgree(text, stop, None, at);
        }
      }
    }
  }

  lemma {:induction false} NoPairInAQuote(text: string, index: nat)
    requires index < |text| && IsQuote(text[index])
    ensures !ArePair(text, index, '/', '*') && !ArePair(text, index, '*', '/')
  {
  }

  lemma {:induction false} Onwards(text: string, index: nat, after: Option<char>, at: nat)
    requires index <= at < |text| && Stands(text, index + 1, after) && (at == index ==> !IsTakenOut(text, at))
    ensures Covers(SpansOf(PiecesFrom(text, index + 1, after)), at) <==> IsTakenOut(text, at)
    decreases |text| - index, 0
  {
    hide ModeAt;
    if at > index {
      StatesAgree(text, index + 1, after, at);
    } else {
      NothingEarlier(text, index + 1, after, at);
    }
  }

  /** The scan takes out exactly the characters that are comment, or a closer on its own, read one at a time. */
  lemma {:induction false} PiecesAreExactly(text: string, at: nat)
    requires at < |text|
    ensures Covers(SpansOf(Pieces(text)), at) <==> IsTakenOut(text, at)
  {
    assert ModeAt(text, 0) == Code;
    StatesAgree(text, 0, None, at);
  }

  // ---- What the comments say ----

  /** What stands between an opener and the first closer after it, or the end of the text; and where. */
  ghost predicate IsSaid(text: string, said: CommentText) {
    && 2 <= said.offset && said.offset + |said.text| <= |text|
    && said.text == text[said.offset..said.offset + |said.text|] && HasAt(text, "/*", said.offset - 2)
    && (HasAt(text, "*/", said.offset + |said.text|) || said.offset + |said.text| == |text|)
    && forall k :: said.offset <= k < said.offset + |said.text| ==> !HasAt(text, "*/", k)
  }

  /** The comments' own texts, one for each that opens, in order. */
  ghost predicate AreSaid(text: string, pieces: seq<Piece>, said: seq<CommentText>) {
    EachIsSaid(text, pieces, said) && IsRising(said) && AllAreSaid(pieces, said)
  }

  ghost predicate EachIsSaid(text: string, pieces: seq<Piece>, said: seq<CommentText>) {
    forall k :: 0 <= k < |said| ==> IsSaid(text, said[k]) && HasOpener(pieces, said[k].offset - 2)
  }

  ghost predicate IsRising(said: seq<CommentText>) {
    forall j, k :: 0 <= j < k < |said| ==> said[j].offset < said[k].offset
  }

  ghost predicate AllAreSaid(pieces: seq<Piece>, said: seq<CommentText>) {
    forall k :: 0 <= k < |pieces| && pieces[k].kind != Stray ==> IsSaidOf(said, pieces[k].span.start + 2)
  }

  ghost predicate HasOpener(pieces: seq<Piece>, at: int) {
    exists k :: 0 <= k < |pieces| && pieces[k].kind != Stray && pieces[k].span.start == at
  }

  ghost predicate IsSaidOf(said: seq<CommentText>, offset: nat) {
    exists k :: 0 <= k < |said| && said[k].offset == offset
  }

  lemma {:induction false} TextIsSaid(text: string, piece: Piece)
    requires IsPiece(text, piece) && piece.kind != Stray
    ensures |TextOf(text, piece)| == 1 && TextOf(text, piece)[0].offset == piece.span.start + 2
    ensures IsSaid(text, TextOf(text, piece)[0])
  {
  }

  lemma {:induction false} TextsAreSaid(text: string, pieces: seq<Piece>, from: nat)
    requires ArePieces(text, pieces, from)
    ensures AreSaid(text, pieces, TextsOf(text, pieces))
    ensures forall k :: 0 <= k < |TextsOf(text, pieces)| ==> TextsOf(text, pieces)[k].offset >= from + 2
    decreases |pieces|
  {
    hide IsSaid;
    if pieces != [] {
      var first, rest := pieces[0], pieces[1..];
      RestArePieces(text, pieces, from);
      TextsAreSaid(text, rest, first.span.stop);
      SaidFirst(text, first, rest, TextsOf(text, rest));
      assert [first] + rest == pieces;
      assert SpansOf(pieces)[0] == first.span;
    }
  }

  lemma {:induction false} RestArePieces(text: string, pieces: seq<Piece>, from: nat)
    requires ArePieces(text, pieces, from) && pieces != []
    ensures ArePieces(text, pieces[1..], pieces[0].span.stop) && from <= pieces[0].span.start
  {
    hide IsPiece;
    var rest := pieces[1..];
    assert forall k :: 0 <= k < |rest| ==> rest[k] == pieces[k + 1] && SpansOf(rest)[k] == SpansOf(pieces)[k + 1];
    assert SpansOf(pieces)[0] == pieces[0].span;
  }

  lemma {:induction false} SaidFirst(text: string, first: Piece, rest: seq<Piece>, said: seq<CommentText>)
    requires IsPiece(text, first) && AreSaid(text, rest, said)
    requires forall k :: 0 <= k < |said| ==> said[k].offset >= first.span.stop + 2
    ensures AreSaid(text, [first] + rest, TextOf(text, first) + said)
  {
    assert first.span.start < first.span.stop;
    hide EachIsSaid, AllAreSaid, IsRising, IsSaid, IsPiece;
    if first.kind == Stray {
      assert TextOf(text, first) + said == said;
      StrayAddsNothing(text, first, rest, said);
    } else {
      TextIsSaid(text, first);
      var one := TextOf(text, first)[0];
      assert TextOf(text, first) + said == [one] + said;
      OneIsSaid(text, first, rest, one, said);
    }
  }

  lemma {:induction false} StrayAddsNothing(text: string, first: Piece, rest: seq<Piece>, said: seq<CommentText>)
    requires first.kind == Stray && EachIsSaid(text, rest, said) && AllAreSaid(rest, said)
    ensures EachIsSaid(text, [first] + rest, said) && AllAreSaid([first] + rest, said)
  {
    hide IsSaid, HasOpener, IsSaidOf;
    forall k | 0 <= k < |said| ensures HasOpener([first] + rest, said[k].offset - 2) {
      StillOpens(first, rest, said[k].offset - 2);
    }
  }

  lemma {:induction false} OneIsSaid(text: string, first: Piece, rest: seq<Piece>, one: CommentText,
                                     said: seq<CommentText>)
    requires first.kind != Stray && IsSaid(text, one) && one.offset == first.span.start + 2
    requires EachIsSaid(text, rest, said) && AllAreSaid(rest, said) && IsRising(said)
    requires forall k :: 0 <= k < |said| ==> said[k].offset > one.offset
    ensures EachIsSaid(text, [first] + rest, [one] + said) && IsRising([one] + said)
    ensures AllAreSaid([first] + rest, [one] + said)
  {
    hide IsSaid, HasOpener, IsSaidOf;
    FirstOpens(first, rest);
    FirstIsSaidOf(one, said);
    forall k | 0 <= k < |said| ensures HasOpener([first] + rest, said[k].offset - 2) {
      StillOpens(first, rest, said[k].offset - 2);
    }
    forall k | 0 <= k < |rest| && rest[k].kind != Stray ensures IsSaidOf([one] + said, rest[k].span.start + 2) {
      StillSaid([one], said, rest[k].span.start + 2);
    }
  }

  lemma {:induction false} FirstOpens(first: Piece, rest: seq<Piece>)
    requires first.kind != Stray
    ensures HasOpener([first] + rest, first.span.start)
  {
    assert ([first] + rest)[0] == first;
  }

  lemma {:induction false} StillOpens(first: Piece, rest: seq<Piece>, at: int)
    requires HasOpener(rest, at)
    ensures HasOpener([first] + rest, at)
  {
    var i :| 0 <= i < |rest| && rest[i].kind != Stray && rest[i].span.start == at;
    assert ([first] + rest)[i + 1] == rest[i];
  }

  lemma {:induction false} FirstIsSaidOf(first: CommentText, said: seq<CommentText>)
    ensures IsSaidOf([first] + said, first.offset)
  {
    assert ([first] + said)[0] == first;
  }

  lemma {:induction false} StillSaid(before: seq<CommentText>, said: seq<CommentText>, offset: nat)
    requires IsSaidOf(said, offset)
    ensures IsSaidOf(before + said, offset)
  {
    var i :| 0 <= i < |said| && said[i].offset == offset;
    assert (before + said)[|before| + i] == said[i];
  }

  /** Each comment that opens says what stands between its opener and its closer or the end, at its own place. */
  lemma {:induction false} CommentsSayExactly(text: string)
    ensures ArePieces(text, Pieces(text), 0) && AreSaid(text, Pieces(text), TextsOf(text, Pieces(text)))
  {
    PiecesArePieces(text, 0, None, Pieces(text));
    TextsAreSaid(text, Pieces(text), 0);
  }
}
