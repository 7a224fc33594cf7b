// Which characters are comment, told one character at a time from the left: what a scanner that searches and skips
// ahead comes to, for both spellings.
module ScannerStates {
  import opened Wrappers
  import opened Spans
  import opened Lines
  import J = JsComments
  import P = ProseReader
  import L = ScannerLaws

  /** What the character about to be read is part of. */
  datatype Mode =
    | Code
    | InQuote(quote: char)
    | Escaped(quote: char)
    | InLine
    | OpensBlock
    | InBlock
    | ClosesBlock

  predicate ArePair(text: string, at: nat, first: char, second: char) {
    at + 1 < |text| && text[at] == first && text[at + 1] == second
  }

  /** A comment opens here: a `#` in a shell's spelling, and two slashes or a slash and a star in the other. */
  predicate Opens(text: string, at: nat, hash: bool)
    requires at < |text|
  {
    if hash then text[at] == '#' else ArePair(text, at, '/', '/') || ArePair(text, at, '/', '*')
  }

  predicate IsQuote(c: char, hash: bool) {
    c == '"' || c == '\'' || (c == '`' && !hash)
  }

  /** What the character after one is part of. */
  function Next(text: string, at: nat, mode: Mode, hash: bool): Mode
    requires at < |text|
  {
    match mode
    case Code =>
      if !hash && ArePair(text, at, '/', '*') then OpensBlock
      else if Opens(text, at, hash) then InLine
      else if IsQuote(text[at], hash) then InQuote(text[at])
      else Code
    case InQuote(quote) =>
      if text[at] == '\\' then Escaped(quote)
      else if text[at] == quote || (text[at] == '\n' && quote != '`') then Code
      else mode
    case Escaped(quote) => InQuote(quote)
    case InLine => if text[at] == '\n' then Code else InLine
    case OpensBlock => InBlock
    case InBlock => if ArePair(text, at, '*', '/') then ClosesBlock else InBlock
    case ClosesBlock => Code
  }

  /** What the character at an offset is part of. */
  function ModeAt(text: string, at: nat, hash: bool): Mode
    requires at <= |text|
  {
    if at == 0 then Code else Next(text, at - 1, ModeAt(text, at - 1, hash), hash)
  }

  predicate IsComment(text: string, at: nat, hash: bool)
    requires at < |text|
  {
    match ModeAt(text, at, hash)
    case Code => Opens(text, at, hash)
    case InLine => text[at] != '\n'
    case OpensBlock => true
    case InBlock => true
    case ClosesBlock => true
    case InQuote(_) => false
    case Escaped(_) => false
  }

  function SpellingOf(hash: bool): (spelling: P.Spelling)
    ensures P.Moves(spelling)
  {
    if hash then P.HASH else P.SLASH
  }

  // ---- Through each stretch ----

  lemma {:induction false} NextMode(text: string, at: nat, hash: bool)
    requires at < |text|
    ensures ModeAt(text, at + 1, hash) == Next(text, at, ModeAt(text, at, hash), hash)
  {
  }

  lemma {:induction false} ThroughALine(text: string, index: nat, at: nat, hash: bool)
    requires index < at <= |text| && ModeAt(text, index + 1, hash) == InLine
    requires forall k :: index <= k < at ==> text[k] != '\n'
    ensures ModeAt(text, at, hash) == InLine
    decreases at
  {
    hide ModeAt;
    if at > index + 1 {
      ThroughALine(text, index, at - 1, hash);
      NextMode(text, at - 1, hash);
    }
  }

  lemma {:induction false} ThroughABlock(text: string, index: nat, at: nat, hash: bool)
    requires index + 2 <= at <= |text| && ModeAt(text, index + 2, hash) == InBlock
    requires forall k :: index + 2 <= k < at ==> !HasAt(text, "*/", k)
    ensures ModeAt(text, at, hash) == InBlock
    decreases at
  {
    hide ModeAt;
    if at > index + 2 {
      ThroughABlock(text, index, at - 1, hash);
      NextMode(text, at - 1, hash);
      HasPairAt(text, '*', '/', at - 1);
    }
  }

  /** Nothing in a quoted value is a comment, and code goes on behind it. */
  lemma {:induction false} ThroughAValue(text: string, index: nat, quote: char, hash: bool, at: nat)
    requires index <= |text| && ModeAt(text, index, hash) == InQuote(quote)
    ensures index <= at < P.ValueEnd(text, index, quote) && at < |text| ==> !IsComment(text, at, hash)
    ensures P.ValueEnd(text, index, quote) < |text| ==> ModeAt(text, P.ValueEnd(text, index, quote), hash) == Code
    decreases |text| - index
  {
    hide ModeAt;
    if index < |text| {
      NextMode(text, index, hash);
      if text[index] == '\\' {
        if index + 1 < |text| {
          NextMode(text, index + 1, hash);
          ThroughAValue(text, index + 2, quote, hash, at);
        }
      } else if text[index] != quote && !(text[index] == '\n' && quote != '`') {
        ThroughAValue(text, index + 1, quote, hash, at);
      }
    }
  }

  // ---- The scanners come to this ----

  /** Between comments and quoted values; or at the newline that ends a comment, or the end of the text. */
  predicate IsBetween(text: string, index: nat, hash: bool)
    requires index <= |text|
  {
    || ModeAt(text, index, hash) == Code
    || (ModeAt(text, index, hash) == InLine && (index == |text| || text[index] == '\n'))
  }

  lemma {:induction false} ReadsOn(text: string, index: nat, number: nat, hash: bool, at: nat)
    requires at < index
    ensures !L.IsRead(P.ReadFrom(text, index, number, SpellingOf(hash)), at)
  {
    var prose := P.ReadFrom(text, index, number, SpellingOf(hash));
    if k :| 0 <= k < |prose| && prose[k].span.start <= at < prose[k].span.stop {
      L.ReadsOnwards(text, index, number, SpellingOf(hash), k);
    }
  }

  lemma {:induction false} ReadFirst(first: P.Prose, rest: seq<P.Prose>, at: nat)
    ensures L.IsRead([first] + rest, at) <==> first.span.start <= at < first.span.stop || L.IsRead(rest, at)
  {
    var all := [first] + rest;
    assert all[0] == first;
    if L.IsRead(rest, at) {
      var k :| 0 <= k < |rest| && rest[k].span.start <= at < rest[k].span.stop;
      assert all[k + 1] == rest[k];
    }
    if L.IsRead(all, at) {
      var k :| 0 <= k < |all| && all[k].span.start <= at < all[k].span.stop;
      assert k > 0 ==> all[k] == rest[k - 1];
    }
  }

  lemma {:induction false} OpenersAre(text: string, index: nat, hash: bool)
    requires index < |text|
    ensures HasAt(text, SpellingOf(hash).line, index) <==>
            if hash then text[index] == '#' else ArePair(text, index, '/', '/')
    ensures P.OpensBlock(text, index, SpellingOf(hash)) <==> !hash && ArePair(text, index, '/', '*')
    ensures text[index] in SpellingOf(hash).quotes <==> IsQuote(text[index], hash)
  {
    HasOneAt(text, '#', index);
    HasPairAt(text, '/', '/', index);
    HasPairAt(text, '/', '*', index);
  }

  /** A line comment from where it opens. */
  lemma {:induction false} LineAgrees(text: string, index: nat, hash: bool, at: nat)
    requires index < |text| && ModeAt(text, index, hash) == Code
    requires if hash then text[index] == '#' else ArePair(text, index, '/', '/')
    ensures var stop := P.LineStop(text, index);
            && index < stop && IsBetween(text, stop, hash)
            && (index <= at < stop ==> IsComment(text, at, hash))
  {
    hide ModeAt;
    var stop := P.LineStop(text, index);
    NextMode(text, index, hash);
    ThroughALine(text, index, stop, hash);
    if index < at < stop {
      ThroughALine(text, index, at, hash);
    }
  }

  /** A block from where it opens. */
  lemma {:induction false} BlockAgrees(text: string, index: nat, at: nat)
    requires index < |text| && ModeAt(text, index, false) == Code && ArePair(text, index, '/', '*')
    requires HasAt(text, "/*", index)
    ensures var stop := P.BlockStop(text, index, P.SLASH.block.value);
            && index < stop && (stop < |text| ==> ModeAt(text, stop, false) == Code)
            && (index <= at < stop ==> IsComment(text, at, false))
  {
    hide ModeAt;
    var stop := P.BlockStop(text, index, P.SLASH.block.value);
    NextMode(text, index, false);
    NextMode(text, index + 1, false);
    var found := Find(text, "*/", index + 2);
    if found.Some? {
      var closer := found.value;
      ThroughABlock(text, index, closer, false);
      HasPairAt(text, '*', '/', closer);
      NextMode(text, closer, false);
      NextMode(text, closer + 1, false);
      if index + 2 <= at < closer {
        ThroughABlock(text, index, at, false);
      }
    } else if index + 2 <= at < stop {
      ThroughABlock(text, index, at, false);
    }
  }

  lemma {:induction false} StatesAgree(text: string, index: nat, number: nat, hash: bool, at: nat)
    requires index <= at < |text| && IsBetween(text, index, hash)
    ensures L.IsRead(P.ReadFrom(text, index, number, SpellingOf(hash)), at) <==> IsComment(text, at, hash)
    decreases |text| - index
  {
    hide ModeAt, HasAt, P.LineStop, P.BlockStop, P.ValueEnd, P.LinesInValue, P.Breaks, P.OpensBlock, L.IsRead;
    var spelling := SpellingOf(hash);
    OpenersAre(text, index, hash);
    NextMode(text, index, hash);
    if text[index] == '\n' {
      if at > index {
        StatesAgree(text, index + 1, number + 1, hash, at);
      } else {
        ReadsOn(text, index + 1, number + 1, hash, at);
      }
    } else if HasAt(text, spelling.line, index) {
      var stop := P.LineStop(text, index);
      LineAgrees(text, index, hash, at);
      ReadFirst(P.Prose(number, Span(index, stop)), P.ReadFrom(text, stop, number, spelling), at);
      if at >= stop {
        StatesAgree(text, stop, number, hash, at);
      }
    } else if P.OpensBlock(text, index, spelling) {
      BlockTurn(text, index, number, at);
      var stop := P.BlockStop(text, index, P.SLASH.block.value);
      if at >= stop {
        StatesAgree(text, stop, number + P.Breaks(text, index, stop), hash, at);
      }
    } else if text[index] in spelling.quotes {
      var end := P.ValueEnd(text, index + 1, text[index]);
      var line := number + P.LinesInValue(text, index + 1, text[index]);
      ThroughAValue(text, index + 1, text[index], hash, at);
      if at >= end {
        StatesAgree(text, end, line, hash, at);
      } else {
        ReadsOn(text, end, line, hash, at);
      }
    } else if at > index {
      StatesAgree(text, index + 1, number, hash, at);
    } else {
      ReadsOn(text, index + 1, number, hash, at);
    }
  }

  lemma {:induction false} BlockTurn(text: string, index: nat, number: nat, at: nat)
    requires index <= at < |text| && ModeAt(text, index, false) == Code && ArePair(text, index, '/', '*')
    ensures var stop := P.BlockStop(text, index, P.SLASH.block.value);
            && HasAt(text, "/*", index) && index < stop && (stop < |text| ==> ModeAt(text, stop, false) == Code)
            && (L.IsRead(P.ReadFrom(text, index, number, P.SLASH), at) <==>
                at < stop ||
                L.IsRead(P.ReadFrom(text, stop, number + P.Breaks(text, index, stop), P.SLASH), at))
            && (at < stop ==> IsComment(text, at, false))
  {
    hide ModeAt, P.BlockStop, P.Breaks, L.IsRead;
    HasPairAt(text, '/', '*', index);
    OpenersAre(text, index, false);
    BlockAgrees(text, index, at);
    var stop := P.BlockStop(text, index, P.SLASH.block.value);
    P.BlockMoves(text, index, P.SLASH);
    ReadFirst(P.Prose(number, Span(index, stop)),
              P.ReadFrom(text, stop, number + P.Breaks(text, index, stop), P.SLASH), at);
  }

  /** Both scanners, in both spellings, take for comment exactly the characters that are, read one at a time. */
  lemma {:induction false} CommentsAreExactly(text: string, at: nat)
    requires at < |text|
    ensures L.IsRead(P.Read(text, P.HASH), at) <==> IsComment(text, at, true)
    ensures L.IsRead(P.Read(text, P.SLASH), at) <==> IsComment(text, at, false)
    ensures Covers(J.Comments(text), at) <==> IsComment(text, at, false)
  {
    hide IsComment;
    assert ModeAt(text, 0, true) == Code && ModeAt(text, 0, false) == Code;
    StatesAgree(text, 0, 1, true, at);
    StatesAgree(text, 0, 1, false, at);
    var prose, comments := P.Read(text, P.SLASH), J.Comments(text);
    L.ScannersAgreeFrom(text, 0, 1, prose, comments);
    if L.IsRead(prose, at) {
      var k :| 0 <= k < |prose| && prose[k].span.start <= at < prose[k].span.stop;
      assert comments[k] == prose[k].span;
    }
    if Covers(comments, at) {
      var k :| 0 <= k < |comments| && comments[k].start <= at < comments[k].stop;
      assert prose[k].span == comments[k];
    }
  }
}
