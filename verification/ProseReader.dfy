// tools/comments.py: reading the comments of any language whose comments and quotes have a spelling.
module ProseReader {
  import opened Wrappers
  import opened Spans
  import opened Lines

  datatype Markers = Markers(opener: string, closer: string)

  datatype Spelling = Spelling(line: string, block: Option<Markers>, quotes: string)

  const HASH := Spelling("#", None, "'\"")
  const SLASH := Spelling("//", Some(Markers("/*", "*/")), "'\"`")

  /** A block spelled with two empty markers would read in place for ever. */
  predicate Moves(spelling: Spelling) {
    spelling.block.Some? ==> spelling.block.value.opener != "" || spelling.block.value.closer != ""
  }

  /** A comment: the line it is said to start on, and the text it takes up. */
  datatype Prose = Prose(number: nat, span: Span)

  /** How many newlines a stretch holds. */
  function Breaks(text: string, from: nat, upTo: nat): nat
    requires from <= upTo
  {
    NewlinesNeverDrop(text, from, upTo);
    Newlines(text, upTo) - Newlines(text, from)
  }

  // ---- Quoted values ----

  /** Just past a value: past its quote, past the newline that ends any value but a backtick's, or past the text. */
  function ValueEnd(text: string, index: nat, quote: char): (end: nat)
    ensures end >= index
    decreases |text| - index
  {
    if index >= |text| then index
    else if text[index] == '\\' then ValueEnd(text, index + 2, quote)
    else if text[index] == quote || (text[index] == '\n' && quote != '`') then index + 1
    else ValueEnd(text, index + 1, quote)
  }

  /** The newlines a value counts: all that no backslash stands before. */
  function LinesInValue(text: string, index: nat, quote: char): nat
    decreases |text| - index
  {
    if index >= |text| then 0
    else if text[index] == '\\' then LinesInValue(text, index + 2, quote)
    else if text[index] == quote then 0
    else if text[index] == '\n' then if quote != '`' then 1 else 1 + LinesInValue(text, index + 1, quote)
    else LinesInValue(text, index + 1, quote)
  }

  method PastTheValue(text: string, from: nat, line: nat, quote: char) returns (index: nat, number: nat)
    requires quote != '\n'
    ensures index == ValueEnd(text, from + 1, quote)
    ensures number == line + LinesInValue(text, from + 1, quote)
  {
    index, number := from + 1, line;
    while index < |text|
      invariant ValueEnd(text, index, quote) == ValueEnd(text, from + 1, quote)
      invariant number + LinesInValue(text, index, quote) == line + LinesInValue(text, from + 1, quote)
      decreases |text| - index
    {
      var character := text[index];
      if character == '\\' {
        index := index + 2;
        continue;
      }
      if character == quote {
        return index + 1, number;
      }
      if character == '\n' {
        number := number + 1;
        if quote != '`' {
          return index + 1, number;
        }
      }
      index := index + 1;
    }
  }

  // ---- Reading ----

  /** Where a line comment stops. */
  function LineStop(text: string, index: nat): (stop: nat)
    requires index < |text|
    ensures index <= stop <= |text|
    ensures forall k :: index <= k < stop ==> text[k] != '\n'
    ensures stop < |text| ==> text[stop] == '\n'
  {
    HasBreakAt(text);
    match Find(text, "\n", index)
    case Some(at) => at
    case None => |text|
  }

  lemma {:induction false} HasBreakAt(text: string)
    ensures forall at: nat :: HasAt(text, "\n", at) <==> at < |text| && text[at] == '\n'
  {
    forall at: nat ensures HasAt(text, "\n", at) <==> at < |text| && text[at] == '\n' {
      HasOneAt(text, '\n', at);
    }
  }

  /** Where a block comment stops. */
  function BlockStop(text: string, index: nat, block: Markers): (stop: nat)
    requires HasAt(text, block.opener, index)
    ensures index + |block.opener| <= stop <= |text|
  {
    match Find(text, block.closer, index + |block.opener|)
    case Some(at) => at + |block.closer|
    case None => |text|
  }

  predicate OpensBlock(text: string, index: nat, spelling: Spelling) {
    spelling.block.Some? && HasAt(text, spelling.block.value.opener, index)
  }

  lemma {:induction false} BlockMoves(text: string, index: nat, spelling: Spelling)
    requires Moves(spelling) && index < |text| && OpensBlock(text, index, spelling)
    ensures BlockStop(text, index, spelling.block.value) > index
  {
  }

  /** Every comment from an offset on, when the offset is on line `number`. */
  function ReadFrom(text: string, index: nat, number: nat, spelling: Spelling): seq<Prose>
    requires Moves(spelling)
    decreases |text| - index
  {
    if index >= |text| then []
    else if text[index] == '\n' then ReadFrom(text, index + 1, number + 1, spelling)
    else if HasAt(text, spelling.line, index) then
      [Prose(number, Span(index, LineStop(text, index)))] + ReadFrom(text, LineStop(text, index), number, spelling)
    else if OpensBlock(text, index, spelling) then
      var stop := BlockStop(text, index, spelling.block.value);
      BlockMoves(text, index, spelling);
      [Prose(number, Span(index, stop))] + ReadFrom(text, stop, number + Breaks(text, index, stop), spelling)
    else if text[index] in spelling.quotes then
      ReadFrom(text, ValueEnd(text, index + 1, text[index]),
               number + LinesInValue(text, index + 1, text[index]), spelling)
    else ReadFrom(text, index + 1, number, spelling)
  }

  function Read(text: string, spelling: Spelling): seq<Prose>
    requires Moves(spelling)
  {
    ReadFrom(text, 0, 1, spelling)
  }

  method CountBreaks(text: string, from: nat, upTo: nat) returns (count: nat)
    requires from <= upTo <= |text|
    ensures count == Breaks(text, from, upTo)
  {
    count := 0;
    for index := from to upTo
      invariant count == Breaks(text, from, index)
    {
      count := count + if text[index] == '\n' then 1 else 0;
    }
  }

  /** One comment, if one opens here: where it stands, and the line the reading goes on from. */
  method OneComment(text: string, index: nat, number: nat, spelling: Spelling)
    returns (comment: Option<Prose>, line: nat)
    requires Moves(spelling) && index < |text| && text[index] != '\n'
    ensures comment.None? <==> !HasAt(text, spelling.line, index) && !OpensBlock(text, index, spelling)
    ensures comment.Some? ==> index < comment.value.span.stop
    ensures comment.Some? ==>
              ReadFrom(text, index, number, spelling) ==
              [comment.value] + ReadFrom(text, comment.value.span.stop, line, spelling)
  {
    line := number;
    if HasAt(text, spelling.line, index) {
      HasBreakAt(text);
      var found := Find(text, "\n", index);
      var end := if found == None then |text| else found.value;
      assert end == LineStop(text, index);
      return Some(Prose(number, Span(index, end))), line;
    }
    if OpensBlock(text, index, spelling) {
      var block := spelling.block.value;
      BlockMoves(text, index, spelling);
      var found := Find(text, block.closer, index + |block.opener|);
      var end := if found == None then |text| else found.value + |block.closer|;
      assert end == BlockStop(text, index, block);
      var breaks := CountBreaks(text, index, end);
      return Some(Prose(number, Span(index, end))), number + breaks;
    }
    return None, line;
  }

  /** The reader a spelling makes. */
  method ReadComments(text: string, spelling: Spelling) returns (prose: seq<Prose>)
    requires Moves(spelling)
    ensures prose == Read(text, spelling)
  {
    prose := [];
    var index, number := 0, 1;
    while index < |text|
      invariant prose + ReadFrom(text, index, number, spelling) == Read(text, spelling)
      decreases |text| - index
    {
      var character := text[index];
      if character == '\n' {
        index, number := index + 1, number + 1;
        continue;
      }
      var comment, line := OneComment(text, index, number, spelling);
      if comment.Some? {
        JoinOneMore(prose, comment.value, ReadFrom(text, comment.value.span.stop, line, spelling));
        prose := prose + [comment.value];
        index, number := comment.value.span.stop, line;
      } else if character in spelling.quotes {
        index, number := PastTheValue(text, index, number, character);
      } else {
        index := index + 1;
      }
    }
    assert prose == Read(text, spelling);
  }
}
