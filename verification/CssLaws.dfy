// What stripping a stylesheet's comments promises.
module CssLaws {
  import opened Wrappers
  import opened Spans
  import opened Lines
  import opened CssScan
  import J = JsComments
  import P = ProseReader
  import ScannerLaws

  // ---- Stripping twice ----

  /** From an offset on: spaces and newlines where a piece stands, and the text everywhere else. */
  ghost predicate IsErasedFrom(text: string, code: string, index: nat, pieces: seq<Piece>) {
    && |code| == |text|
    && forall at :: index <= at < |text| ==>
         if Covers(SpansOf(pieces), at) then code[at] == ' ' || code[at] == '\n' else code[at] == text[at]
  }

  lemma {:induction false} StrippedIsErased(text: string, code: string)
    requires IsStripped(text, Pieces(text), code)
    ensures IsErasedFrom(text, code, 0, Pieces(text))
  {
    PiecesArePieces(text, 0, None, Pieces(text));
    forall at | 0 <= at < |text| && IsSwallowed(Pieces(text), at) ensures Covers(SpansOf(Pieces(text)), at) {
      SwallowedIsCovered(text, Pieces(text), at);
    }
  }

  lemma {:induction false} SwallowedIsCovered(text: string, pieces: seq<Piece>, at: nat)
    requires ArePieces(text, pieces, 0) && IsSwallowed(pieces, at) && at < |text|
    ensures Covers(SpansOf(pieces), at)
  {
    var k :| 0 <= k < |pieces| && pieces[k].kind == Unterminated && pieces[k].span.start <= at;
    assert SpansOf(pieces)[k] == pieces[k].span;
  }

  lemma {:induction false} NothingCoveredBefore(text: string, index: nat, quote: Option<char>, pieces: seq<Piece>,
                                                at: nat)
    requires pieces == PiecesFrom(text, index, quote) && at < index
    ensures !Covers(SpansOf(pieces), at)
  {
    PiecesArePieces(text, index, quote, pieces);
  }

  /** A turn that takes nothing out leaves the characters it passes as they were. */
  lemma {:induction false} TurnIsCopied(text: string, code: string, index: nat, next: nat, quote: Option<char>,
                                        pieces: seq<Piece>)
    requires IsErasedFrom(text, code, index, pieces) && index < next && pieces == PiecesFrom(text, next, quote)
    ensures forall at :: index <= at < next && at < |text| ==> code[at] == text[at]
  {
    forall at | index <= at < next && at < |text| ensures code[at] == text[at] {
      NothingCoveredBefore(text, next, quote, pieces, at);
    }
  }

  /** Spaces and newlines outside a quote are no pieces. */
  lemma {:induction false} SpaceIsNoPiece(code: string, index: nat, stop: nat)
    requires index <= stop <= |code| && forall at :: index <= at < stop ==> code[at] == ' ' || code[at] == '\n'
    ensures PiecesFrom(code, index, None) == PiecesFrom(code, stop, None)
    decreases stop - index
  {
    if index < stop {
      HasPairAt(code, '*', '/', index);
      HasPairAt(code, '/', '*', index);
      SpaceIsNoPiece(code, index + 1, stop);
    }
  }

  /** A character that began no piece begins none beside an erased neighbour. */
  lemma {:induction false} PlainStaysPlain(text: string, code: string, index: nat, pieces: seq<Piece>)
    requires index < |text| && PieceAt(text, index) == None
    requires IsErasedFrom(text, code, index, pieces) && code[index] == text[index]
    ensures PieceAt(code, index) == None
  {
    HasPairAt(text, '*', '/', index);
    HasPairAt(text, '/', '*', index);
    HasPairAt(code, '*', '/', index);
    HasPairAt(code, '/', '*', index);
  }

  lemma {:induction false} PastThePiece(text: string, code: string, piece: Piece, left: seq<Piece>)
    requires IsPiece(text, piece) && IsErasedFrom(text, code, piece.span.start, [piece] + left)
    requires left == PiecesFrom(text, piece.span.stop, None)
    ensures IsErasedFrom(text, code, piece.span.stop, left)
    ensures forall at :: piece.span.start <= at < piece.span.stop ==> code[at] == ' ' || code[at] == '\n'
  {
    forall at | piece.span.start <= at < |text|
      ensures at < piece.span.stop ==> code[at] == ' ' || code[at] == '\n'
      ensures at >= piece.span.stop ==>
                if Covers(SpansOf(left), at) then code[at] == ' ' || code[at] == '\n' else code[at] == text[at]
    {
      assert SpansOf([piece] + left) == [piece.span] + SpansOf(left);
      CoversJoined([piece.span], SpansOf(left), at);
      assert at < piece.span.stop ==> [piece.span][0].start <= at < [piece.span][0].stop;
    }
  }

  lemma {:induction false} NothingLeftFrom(text: string, code: string, index: nat, quote: Option<char>,
                                           pieces: seq<Piece>)
    requires pieces == PiecesFrom(text, index, quote) && IsErasedFrom(text, code, index, pieces)
    ensures PiecesFrom(code, index, quote) == []
    decreases |text| - index
  {
    if index < |text| {
      var found := PieceAt(text, index);
      if quote == None && !IsQuote(text[index]) && found.Some? {
        PieceAtIsPiece(text, index);
        PastThePiece(text, code, found.value, pieces[1..]);
        NothingLeftFrom(text, code, found.value.span.stop, None, pieces[1..]);
        SpaceIsNoPiece(code, index, found.value.span.stop);
      } else {
        NothingLeftAfterTurn(text, code, index, quote, pieces);
      }
    }
  }

  lemma {:induction false} NothingLeftAfterTurn(text: string, code: string, index: nat, quote: Option<char>,
                                                pieces: seq<Piece>)
    requires index < |text|
    requires pieces == PiecesFrom(text, index, quote) && IsErasedFrom(text, code, index, pieces)
    requires quote == None && !IsQuote(text[index]) ==> PieceAt(text, index) == None
    ensures PiecesFrom(code, index, quote) == []
    decreases |text| - index, 0
  {
    var next := if quote != None && text[index] == '\\' then index + 2 else index + 1;
    var still :=
      match quote
      case Some(open) =>
        if text[index] == '\\' || (text[index] != open && text[index] != '\n') then quote else None
      case None => if IsQuote(text[index]) then Some(text[index]) else None;
    TurnIsCopied(text, code, index, next, still, pieces);
    NothingLeftFrom(text, code, next, still, pieces);
    if quote == None && !IsQuote(text[index]) {
      PlainStaysPlain(text, code, index, pieces);
    }
  }

  /** A second pass finds nothing to take out and nothing wrong, and changes nothing. */
  lemma {:induction false} SecondPassFindsNothing(text: string, code: string, again: string, said: seq<CommentText>,
                                                  problems: seq<Problem>)
    requires IsStripped(text, Pieces(text), code)
    requires IsScan(code, again, said, problems)
    ensures again == code && said == [] && problems == []
  {
    StrippedIsErased(text, code);
    NothingLeftFrom(text, code, 0, None, Pieces(text));
  }

  // ---- Where things are ----

  /** Stripping keeps every newline in its place exactly when no opener without a closer has one after it. */
  lemma {:induction false} NewlinesAreKept(text: string, code: string)
    requires IsStripped(text, Pieces(text), code)
    ensures (forall at :: 0 <= at < |text| ==> (code[at] == '\n' <==> text[at] == '\n')) <==>
            (forall at :: 0 <= at < |text| && IsSwallowed(Pieces(text), at) ==> text[at] != '\n')
  {
    if forall at :: 0 <= at < |text| ==> (code[at] == '\n' <==> text[at] == '\n') {
      forall at | 0 <= at < |text| && IsSwallowed(Pieces(text), at) ensures text[at] != '\n' {
        assert code[at] == ' ';
      }
    }
  }

  /** Whatever stands before the first opener without a closer is reported where the source has it. */
  lemma {:induction false} PositionsAreKept(text: string, code: string, offset: nat)
    requires IsStripped(text, Pieces(text), code)
    requires forall at :: 0 <= at < offset ==> !IsSwallowed(Pieces(text), at)
    ensures Located(code, offset) == Located(text, offset)
  {
    forall i | 0 <= i < offset ensures IsBreak(code, i) <==> IsBreak(text, i) {
      if i < |text| {
        assert !IsSwallowed(Pieces(text), i);
        assert code[i] == Blank(text, SpansOf(Pieces(text)), i);
      }
    }
    SameBreaksSamePosition(code, text, offset);
  }

  // ---- What is reported ----

  /** A problem is reported of a place exactly when a piece that is no whole comment stands there. */
  lemma {:induction false} ProblemsAreReported(text: string, pieces: seq<Piece>, offset: nat, message: Message)
    ensures Problem(Located(text, offset), message) in ProblemsOf(text, pieces) <==>
            exists k :: 0 <= k < |pieces| && pieces[k].span.start == offset &&
                        pieces[k].kind == if message == CloserWithNoOpener then Stray else Unterminated
    decreases |pieces|
  {
    if pieces != [] {
      var wanted := Problem(Located(text, offset), message);
      var kind := if message == CloserWithNoOpener then Stray else Unterminated;
      ProblemsAreReported(text, pieces[1..], offset, message);
      if Located(text, pieces[0].span.start) == Located(text, offset) {
        PositionsAreDistinct(text, pieces[0].span.start, offset);
      }
      assert wanted in ProblemsOf(text, pieces) <==>
             wanted in ProblemOf(text, pieces[0]) || wanted in ProblemsOf(text, pieces[1..]);
      if k: nat :| k < |pieces[1..]| && pieces[1..][k].span.start == offset && pieces[1..][k].kind == kind {
        assert pieces[k + 1] == pieces[1..][k];
      }
      if k: nat :| 0 < k < |pieces| && pieces[k].span.start == offset && pieces[k].kind == kind {
        assert pieces[1..][k - 1] == pieces[k];
      }
    }
  }

  // ---- Beside the other scanners ----

  /** A stylesheet with no backtick, no double slash and no stray closer has the same comments for every scanner. */
  lemma {:induction false} CssHasJsComments(text: string, index: nat, quote: Option<char>, pieces: seq<Piece>,
                                            comments: seq<Span>)
    requires pieces == PiecesFrom(text, index, quote) && comments == J.CommentsFrom(text, index, quote)
    requires quote.Some? ==> IsQuote(quote.value)
    requires forall at :: 0 <= at < |text| ==> text[at] != '`' && !HasAt(text, "//", at)
    requires forall k :: 0 <= k < |pieces| ==> pieces[k].kind != Stray
    ensures SpansOf(pieces) == comments
    decreases |text| - index
  {
    if index < |text| {
      match quote
      case Some(open) =>
        if text[index] == '\\' {
          CssHasJsComments(text, index + 2, quote, pieces, comments);
        } else {
          CssHasJsComments(text, index + 1, if J.Closes(text[index], open) then None else quote, pieces, comments);
        }
      case None =>
        var found := PieceAt(text, index);
        if IsQuote(text[index]) {
          CssHasJsComments(text, index + 1, Some(text[index]), pieces, comments);
        } else if found.Some? {
          assert pieces[0] == found.value;
          HasPairAt(text, '/', '*', index);
          assert J.BlockStop(text, index) == found.value.span.stop;
          CssHasJsComments(text, found.value.span.stop, None, pieces[1..], comments[1..]);
        } else {
          CssHasJsComments(text, index + 1, None, pieces, comments);
        }
    }
  }

  /** So it has the same comments for all three scanners: the stylesheet's own, the TypeScript one and the Python
      reader. */
  lemma {:induction false} StylesheetsAgree(text: string)
    requires forall at :: 0 <= at < |text| ==> text[at] != '`' && !HasAt(text, "//", at)
    requires forall k :: 0 <= k < |Pieces(text)| ==> Pieces(text)[k].kind != Stray
    ensures SpansOf(Pieces(text)) == J.Comments(text)
    ensures ScannerLaws.SameComments(P.Read(text, P.SLASH), SpansOf(Pieces(text)))
  {
    CssHasJsComments(text, 0, None, Pieces(text), J.Comments(text));
    ScannerLaws.ScannersAgreeFrom(text, 0, 1, P.Read(text, P.SLASH), J.Comments(text));
  }
}
