// frontend/scripts/lib/css-scan.ts: the comments of a stylesheet, and the ones that are broken.
module CssScan {
  import opened Wrappers
  import opened Spans
  import opened Lines

  /** What the scan takes out of a text: a whole comment, a closer on its own, or an opener that nothing ends. */
  datatype Kind = Comment | Stray | Unterminated

  datatype Piece = Piece(kind: Kind, span: Span)

  datatype CommentText = CommentText(text: string, offset: nat)

  datatype Message = CloserWithNoOpener | UnterminatedComment

  datatype Problem = Problem(position: Position, message: Message)

  predicate IsQuote(character: char) {
    character == '"' || character == '\''
  }

  /** The piece that starts at an offset outside a quote, if one does. */
  function PieceAt(text: string, index: nat): (piece: Option<Piece>)
    ensures piece.Some? ==> index == piece.value.span.start && index + 2 <= piece.value.span.stop <= |text|
  {
    if HasAt(text, "*/", index) then Some(Piece(Stray, Span(index, index + 2)))
    else if HasAt(text, "/*", index) then
      match Find(text, "*/", index + 2)
      case Some(end) => Some(Piece(Comment, Span(index, end + 2)))
      case None => Some(Piece(Unterminated, Span(index, |text|)))
    else None
  }

  /** Every piece from an offset on, inside a quote or outside one. */
  function PiecesFrom(text: string, index: nat, quote: Option<char>): seq<Piece>
    decreases |text| - index
  {
    if index >= |text| then []
    else match quote
      case Some(open) =>
        if text[index] == '\\' then PiecesFrom(text, index + 2, quote)
        else PiecesFrom(text, index + 1, if text[index] == open || text[index] == '\n' then None else quote)
      case None =>
        if IsQuote(text[index]) then PiecesFrom(text, index + 1, Some(text[index]))
        else match PieceAt(text, index)
          case Some(piece) => [piece] + PiecesFrom(text, piece.span.stop, None)
          case None => PiecesFrom(text, index + 1, None)
  }

  function Pieces(text: string): seq<Piece> {
    PiecesFrom(text, 0, None)
  }

  function SpansOf(pieces: seq<Piece>): (spans: seq<Span>)
    ensures |spans| == |pieces| && forall k :: 0 <= k < |pieces| ==> spans[k] == pieces[k].span
  {
    if pieces == [] then [] else [pieces[0].span] + SpansOf(pieces[1..])
  }

  predicate IsSwallowed(pieces: seq<Piece>, at: nat) {
    exists k :: 0 <= k < |pieces| && pieces[k].kind == Unterminated && pieces[k].span.start <= at
  }

  /** Blanked where a piece stands; and from an opener that nothing ends, newlines and all. */
  ghost predicate IsStripped(text: string, pieces: seq<Piece>, code: string) {
    && |code| == |text|
    && forall at :: 0 <= at < |text| ==>
         code[at] == if IsSwallowed(pieces, at) then ' ' else Blank(text, SpansOf(pieces), at)
  }

  // ---- What a piece is ----

  ghost predicate IsPiece(text: string, piece: Piece) {
    var span := piece.span;
    && span.start + 2 <= span.stop <= |text|
    && match piece.kind
       case Stray => HasAt(text, "*/", span.start) && span.stop == span.start + 2
       case Comment =>
         && HasAt(text, "/*", span.start) && span.start + 4 <= span.stop && HasAt(text, "*/", span.stop - 2)
         && forall k :: span.start + 2 <= k < span.stop - 2 ==> !HasAt(text, "*/", k)
       case Unterminated =>
         && HasAt(text, "/*", span.start) && span.stop == |text|
         && forall k :: span.start + 2 <= k ==> !HasAt(text, "*/", k)
  }

  /** Pieces, one after another from an offset on; only the last can run to the end of the text. */
  ghost predicate ArePieces(text: string, pieces: seq<Piece>, from: nat) {
    && InOrder(SpansOf(pieces), from)
    && (forall k :: 0 <= k < |pieces| ==> IsPiece(text, pieces[k]))
    && forall k :: 0 <= k < |pieces| - 1 ==> pieces[k].kind != Unterminated
  }

  lemma {:induction false} OneMorePiece(text: string, piece: Piece, pieces: seq<Piece>)
    requires IsPiece(text, piece) && ArePieces(text, pieces, piece.span.stop)
    ensures ArePieces(text, [piece] + pieces, piece.span.start)
  {
    var all := [piece] + pieces;
    assert forall k :: 0 < k < |all| ==> all[k] == pieces[k - 1] && SpansOf(all)[k] == SpansOf(pieces)[k - 1];
    assert pieces != [] ==> IsPiece(text, pieces[0]) && SpansOf(pieces)[0].start >= piece.span.stop;
  }

  lemma {:induction false} PieceAtIsPiece(text: string, index: nat)
    ensures PieceAt(text, index).Some? ==> IsPiece(text, PieceAt(text, index).value)
  {
    HasPairAt(text, '*', '/', index);
    HasPairAt(text, '/', '*', index);
  }

  /** Every piece found is one: a closer outside any comment, an opener up to the first closer after it, or an opener no
      closer follows. */
  lemma {:induction false} PiecesArePieces(text: string, index: nat, quote: Option<char>, pieces: seq<Piece>)
    requires pieces == PiecesFrom(text, index, quote)
    ensures ArePieces(text, pieces, index)
    decreases |text| - index
  {
    if index < |text| {
      match quote
      case Some(open) =>
        if text[index] == '\\' {
          PiecesArePieces(text, index + 2, quote, pieces);
        } else {
          PiecesArePieces(text, index + 1, if text[index] == open || text[index] == '\n' then None else quote, pieces);
        }
      case None =>
        PieceAtIsPiece(text, index);
        var piece := PieceAt(text, index);
        if IsQuote(text[index]) {
          PiecesArePieces(text, index + 1, Some(text[index]), pieces);
        } else if piece.Some? {
          PiecesArePieces(text, piece.value.span.stop, None, pieces[1..]);
          OneMorePiece(text, piece.value, pieces[1..]);
        } else {
          PiecesArePieces(text, index + 1, None, pieces);
        }
    }
  }

  // ---- Stripping ----

  /** What the comments say, for whoever looks for markers in them. */
  ghost function TextsOf(text: string, pieces: seq<Piece>): seq<CommentText>
    requires forall k :: 0 <= k < |pieces| ==> IsPiece(text, pieces[k])
  {
    if pieces == [] then [] else TextOf(text, pieces[0]) + TextsOf(text, pieces[1..])
  }

  ghost function TextOf(text: string, piece: Piece): seq<CommentText>
    requires IsPiece(text, piece)
  {
    var said := piece.span.start + 2;
    match piece.kind
    case Comment => [CommentText(text[said..piece.span.stop - 2], said)]
    case Stray => []
    case Unterminated => [CommentText(text[said..], said)]
  }

  ghost function ProblemsOf(text: string, pieces: seq<Piece>): seq<Problem> {
    if pieces == [] then [] else ProblemOf(text, pieces[0]) + ProblemsOf(text, pieces[1..])
  }

  function ProblemOf(text: string, piece: Piece): seq<Problem> {
    match piece.kind
    case Comment => []
    case Stray => [Problem(Located(text, piece.span.start), CloserWithNoOpener)]
    case Unterminated => [Problem(Located(text, piece.span.start), UnterminatedComment)]
  }

  // ---- Stripping ----

  /** One turn that takes nothing out: inside a quote, at one, or at a character that is neither. */
  method CopyOn(text: string, index: nat, open: Option<char>) returns (copied: string, next: nat, quote: Option<char>)
    requires index < |text| && (open == None && !IsQuote(text[index]) ==> PieceAt(text, index) == None)
    ensures index < next && copied == text[index..if next < |text| then next else |text|]
    ensures PiecesFrom(text, index, open) == PiecesFrom(text, next, quote)
  {
    var character := text[index];
    if open != None && character == '\\' {
      return text[index..if index + 2 < |text| then index + 2 else |text|], index + 2, open;
    }
    if open != None {
      quote := if character == open.value || character == '\n' then None else open;
    } else {
      quote := if IsQuote(character) then Some(character) else None;
    }
    copied, next := [character], index + 1;
    assert copied == text[index..index + 1];
  }

  /** One piece, if one stands here: what goes in its place, what it says, and what is wrong with it. */
  method OnePiece(text: string, starts: seq<nat>, index: nat)
    returns (piece: Option<Piece>, blanked: string, said: seq<CommentText>, problems: seq<Problem>)
    requires IsTable(text, starts, |text|) && index < |text|
    ensures piece == PieceAt(text, index)
    ensures piece.Some? ==> IsPiece(text, piece.value)
    ensures piece.Some? ==> said == TextOf(text, piece.value) && problems == ProblemOf(text, piece.value)
    ensures piece.Some? && piece.value.kind != Unterminated ==>
              blanked == Spaced(text[index..piece.value.span.stop])
    ensures piece.Some? && piece.value.kind == Unterminated ==> blanked == seq(|text| - index, _ => ' ')
  {
    said, problems := [], [];
    HasPairAt(text, '*', '/', index);
    HasPairAt(text, '/', '*', index);
    if text[index] == '*' && index + 1 < |text| && text[index + 1] == '/' {
      var position := At(text, starts, index);
      assert "  " == Spaced(text[index..index + 2]);
      return Some(Piece(Stray, Span(index, index + 2))), "  ", [], [Problem(position, CloserWithNoOpener)];
    }
    if text[index] == '/' && index + 1 < |text| && text[index + 1] == '*' {
      var end := Find(text, "*/", index + 2);
      if end == None {
        var position := At(text, starts, index);
        return Some(Piece(Unterminated, Span(index, |text|))), seq(|text| - index, _ => ' '),
          [CommentText(text[index + 2..], index + 2)], [Problem(position, UnterminatedComment)];
      }
      return Some(Piece(Comment, Span(index, end.value + 2))), Spaced(text[index..end.value + 2]),
        [CommentText(text[index + 2..end.value], index + 2)], [];
    }
    return None, "", [], [];
  }

  /** What is found so far and what is left to find make up what there is. */
  ghost predicate AddsUp(text: string, found: seq<Piece>, left: seq<Piece>, said: seq<CommentText>,
                         problems: seq<Problem>)
  {
    && found + left == Pieces(text)
    && (forall k :: 0 <= k < |found| ==> IsPiece(text, found[k]) && found[k].kind != Unterminated)
    && said == TextsOf(text, found)
    && problems == ProblemsOf(text, found)
  }

  lemma {:induction false} OneMoreText(text: string, found: seq<Piece>, piece: Piece)
    requires forall k :: 0 <= k < |found| ==> IsPiece(text, found[k])
    requires IsPiece(text, piece)
    ensures TextsOf(text, found + [piece]) == TextsOf(text, found) + TextOf(text, piece)
    decreases |found|
  {
    if found == [] {
      assert found + [piece] == [piece];
    } else {
      OneMoreText(text, found[1..], piece);
      assert (found + [piece])[1..] == found[1..] + [piece];
    }
  }

  lemma {:induction false} OneMoreProblem(text: string, found: seq<Piece>, piece: Piece)
    ensures ProblemsOf(text, found + [piece]) == ProblemsOf(text, found) + ProblemOf(text, piece)
    decreases |found|
  {
    if found == [] {
      assert found + [piece] == [piece];
    } else {
      OneMoreProblem(text, found[1..], piece);
      assert (found + [piece])[1..] == found[1..] + [piece];
    }
  }

  lemma {:induction false} OneMoreAddsUp(text: string, found: seq<Piece>, piece: Piece, left: seq<Piece>,
                                         said: seq<CommentText>, problems: seq<Problem>)
    requires AddsUp(text, found, [piece] + left, said, problems)
    requires IsPiece(text, piece) && piece.kind != Unterminated
    ensures AddsUp(text, found + [piece], left, said + TextOf(text, piece), problems + ProblemOf(text, piece))
  {
    OneMoreText(text, found, piece);
    OneMoreProblem(text, found, piece);
    JoinOneMore(found, piece, left);
  }

  lemma {:induction false} SpansOfJoined(found: seq<Piece>, piece: Piece)
    ensures SpansOf(found + [piece]) == SpansOf(found) + [piece.span]
  {
  }

  /** Stripped up to an opener that nothing ends, and spaces from there on. */
  lemma {:induction false} SwallowTheRest(text: string, found: seq<Piece>, code: string, piece: Piece)
    requires IsBlankedUpTo(text, SpansOf(found), code, piece.span.start)
    requires forall k :: 0 <= k < |found| ==> found[k].kind != Unterminated
    requires IsPiece(text, piece) && piece.kind == Unterminated
    ensures IsStripped(text, found + [piece], code + seq(|text| - piece.span.start, _ => ' '))
  {
    var pieces, stripped := found + [piece], code + seq(|text| - piece.span.start, _ => ' ');
    SpansOfJoined(found, piece);
    assert pieces[|found|] == piece;
    forall at | 0 <= at < |text|
      ensures stripped[at] == if IsSwallowed(pieces, at) then ' ' else Blank(text, SpansOf(pieces), at)
    {
      CoversJoined(SpansOf(found), [piece.span], at);
    }
  }

  lemma {:induction false} NothingSwallowed(text: string, found: seq<Piece>, code: string, index: nat)
    requires IsBlankedUpTo(text, SpansOf(found), code, index) && index >= |text|
    requires forall k :: 0 <= k < |found| ==> found[k].kind != Unterminated
    ensures IsStripped(text, found, code)
  {
  }

  /** What a scan of a whole text gives. */
  ghost predicate IsScan(text: string, code: string, said: seq<CommentText>, problems: seq<Problem>) {
    && ArePieces(text, Pieces(text), 0)
    && IsStripped(text, Pieces(text), code)
    && said == TextsOf(text, Pieces(text))
    && problems == ProblemsOf(text, Pieces(text))
  }

  lemma {:induction false} ScanIsDone(text: string, found: seq<Piece>, code: string, index: nat, said: seq<CommentText>,
                                      problems: seq<Problem>)
    requires IsBlankedUpTo(text, SpansOf(found), code, index) && index >= |text|
    requires AddsUp(text, found, [], said, problems)
    ensures IsScan(text, code, said, problems)
  {
    PiecesArePieces(text, 0, None, Pieces(text));
    NothingSwallowed(text, found, code, index);
    assert found + [] == found;
  }

  lemma {:induction false} ScanIsCutShort(text: string, found: seq<Piece>, piece: Piece, code: string,
                                          said: seq<CommentText>, problems: seq<Problem>)
    requires IsBlankedUpTo(text, SpansOf(found), code, piece.span.start)
    requires IsPiece(text, piece) && piece.kind == Unterminated
    requires AddsUp(text, found, [piece], said, problems)
    ensures IsScan(text, code + seq(|text| - piece.span.start, _ => ' '), said + TextOf(text, piece),
                   problems + ProblemOf(text, piece))
  {
    PiecesArePieces(text, 0, None, Pieces(text));
    SwallowTheRest(text, found, code, piece);
    OneMoreText(text, found, piece);
    OneMoreProblem(text, found, piece);
  }

  /** One pass gives the stripped code, the text of each whole comment and a problem for each of the other pieces. */
  method StripComments(text: string, starts: seq<nat>)
    returns (code: string, said: seq<CommentText>, problems: seq<Problem>)
    requires IsTable(text, starts, |text|)
    ensures IsScan(text, code, said, problems)
  {
    code, said, problems := "", [], [];
    var index, quote := 0, None;
    ghost var found: seq<Piece> := [];
    while index < |text|
      invariant IsBlankedUpTo(text, SpansOf(found), code, index)
      invariant AddsUp(text, found, PiecesFrom(text, index, quote), said, problems)
    {
      if quote == None && !IsQuote(text[index]) {
        var piece, blanked, saying, wrong := OnePiece(text, starts, index);
        if piece != None && piece.value.kind == Unterminated {
          assert PiecesFrom(text, index, quote) == [piece.value] + PiecesFrom(text, |text|, None);
          ScanIsCutShort(text, found, piece.value, code, said, problems);
          return code + blanked, said + saying, problems + wrong;
        }
        if piece != None {
          OneMoreAddsUp(text, found, piece.value, PiecesFrom(text, piece.value.span.stop, None), said, problems);
          SpansOfJoined(found, piece.value);
          BlankOneMore(text, SpansOf(found), code, piece.value.span, blanked);
          found := found + [piece.value];
          code, index := code + blanked, piece.value.span.stop;
          said, problems := said + saying, problems + wrong;
          continue;
        }
      }
      var copied, next, still := CopyOn(text, index, quote);
      CopyKeepsBlanked(text, SpansOf(found), code, index, next, copied);
      code, index, quote := code + copied, next, still;
    }
    ScanIsDone(text, found, code, index, said, problems);
  }

  method CodeWithoutComments(text: string) returns (code: string)
    ensures IsStripped(text, Pieces(text), code)
  {
    var starts := LineStarts(text);
    var said, problems;
    code, said, problems := StripComments(text, starts);
  }
}
