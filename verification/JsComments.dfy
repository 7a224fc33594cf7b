// frontend/scripts/lib/comments.ts: blanking the comments of TypeScript source.
module JsComments {
  import opened Wrappers
  import opened Spans

  const QUOTES := {'"', '\'', '`'}

  /** Past the end of a quoted character, does the quote stand open still? A newline closes all but a template. */
  predicate Closes(character: char, quote: char) {
    character == quote || (quote != '`' && character == '\n')
  }

  /** Where a `//` comment stops: at its newline, or with the text. */
  function LineStop(text: string, index: nat): (stop: nat)
    requires index < |text|
    ensures index <= stop <= |text|
    ensures forall k :: index <= k < stop ==> text[k] != '\n'
    ensures stop < |text| ==> text[stop] == '\n'
  {
    HasOneAtAll(text, '\n');
    match Find(text, "\n", index)
    case Some(at) => at
    case None => |text|
  }

  lemma {:induction false} HasOneAtAll(text: string, only: char)
    ensures forall at: nat :: HasAt(text, [only], at) <==> at < |text| && text[at] == only
  {
    forall at: nat ensures HasAt(text, [only], at) <==> at < |text| && text[at] == only {
      HasOneAt(text, only, at);
    }
  }

  /** Where a block comment stops: past its closer, or at the end of the text. */
  function BlockStop(text: string, index: nat): (stop: nat)
    requires HasAt(text, "/*", index)
    ensures index + 2 <= stop <= |text|
    ensures stop < |text| ==> HasAt(text, "*/", stop - 2)
  {
    match Find(text, "*/", index + 2)
    case Some(at) => at + 2
    case None => |text|
  }

  /** The comments from an offset on, inside a quote or outside one. */
  function CommentsFrom(text: string, index: nat, quote: Option<char>): seq<Span>
    decreases |text| - index
  {
    if index >= |text| then []
    else match quote
      case Some(open) =>
        if text[index] == '\\' then CommentsFrom(text, index + 2, quote)
        else CommentsFrom(text, index + 1, if Closes(text[index], open) then None else quote)
      case None =>
        if text[index] in QUOTES then CommentsFrom(text, index + 1, Some(text[index]))
        else if HasAt(text, "//", index) then
          [Span(index, LineStop(text, index))] + CommentsFrom(text, LineStop(text, index), None)
        else if HasAt(text, "/*", index) then
          [Span(index, BlockStop(text, index))] + CommentsFrom(text, BlockStop(text, index), None)
        else CommentsFrom(text, index + 1, None)
  }

  function Comments(text: string): seq<Span> {
    CommentsFrom(text, 0, None)
  }

  /** One turn inside a quote: how far to copy, and whether the quote still stands open. */
  method InsideQuote(source: string, index: nat, open: char) returns (copied: string, next: nat, quote: Option<char>)
    requires index < |source|
    ensures index < next && copied == source[index..if next < |source| then next else |source|]
    ensures CommentsFrom(source, index, Some(open)) == CommentsFrom(source, next, quote)
  {
    var character := source[index];
    if character == '\\' {
      return source[index..if index + 2 < |source| then index + 2 else |source|], index + 2, Some(open);
    }
    quote := if Closes(character, open) then None else Some(open);
    copied, next := [character], index + 1;
    assert copied == source[index..index + 1];
  }

  /** One comment: where it stops, and what stands in its place. */
  method OneComment(source: string, index: nat) returns (comment: Option<Span>, spaced: string)
    requires index < |source| && source[index] !in QUOTES
    ensures comment.None? ==> CommentsFrom(source, index, None) == CommentsFrom(source, index + 1, None)
    ensures comment.Some? ==> index == comment.value.start < comment.value.stop <= |source|
    ensures comment.Some? ==> spaced == Spaced(source[index..comment.value.stop])
    ensures comment.Some? ==>
              CommentsFrom(source, index, None) == [comment.value] + CommentsFrom(source, comment.value.stop, None)
  {
    HasPairAt(source, '/', '/', index);
    HasPairAt(source, '/', '*', index);
    HasOneAtAll(source, '\n');
    if source[index] == '/' && index + 1 < |source| && source[index + 1] == '/' {
      var end := Find(source, "\n", index);
      var stop := if end == None then |source| else end.value;
      assert stop == LineStop(source, index);
      spaced := seq(stop - index, _ => ' ');
      return Some(Span(index, stop)), spaced;
    }
    if source[index] == '/' && index + 1 < |source| && source[index + 1] == '*' {
      var end := Find(source, "*/", index + 2);
      var stop := if end == None then |source| else end.value + 2;
      assert stop == BlockStop(source, index);
      return Some(Span(index, stop)), Spaced(source[index..stop]);
    }
    return None, "";
  }

  /** Spaces stand where the comments were; everything else is where it was. */
  method BlankJsComments(source: string) returns (blanked: string)
    ensures IsBlanked(source, Comments(source), blanked)
  {
    blanked := "";
    var index, quote := 0, None;
    ghost var comments: seq<Span> := [];
    while index < |source|
      invariant IsBlankedUpTo(source, comments, blanked, index)
      invariant comments + CommentsFrom(source, index, quote) == Comments(source)
    {
      if quote != None {
        var copied, next, still := InsideQuote(source, index, quote.value);
        CopyKeepsBlanked(source, comments, blanked, index, next, copied);
        blanked, index, quote := blanked + copied, next, still;
      } else if source[index] in QUOTES {
        CopyKeepsBlanked(source, comments, blanked, index, index + 1, [source[index]]);
        blanked, index, quote := blanked + [source[index]], index + 1, Some(source[index]);
      } else {
        var comment, spaced := OneComment(source, index);
        if comment.Some? {
          BlankOneMore(source, comments, blanked, comment.value, spaced);
          JoinOneMore(comments, comment.value, CommentsFrom(source, comment.value.stop, None));
          comments := comments + [comment.value];
          blanked, index := blanked + spaced, comment.value.stop;
        } else {
          CopyKeepsBlanked(source, comments, blanked, index, index + 1, [source[index]]);
          blanked, index := blanked + [source[index]], index + 1;
        }
      }
    }
    assert comments == Comments(source);
  }
}
