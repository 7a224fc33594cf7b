// What the scanners share: finding text in text, stretches of a text, and blanking them where they stand.
module Spans {
  import opened Wrappers

  predicate HasAt(text: string, needle: string, at: nat) {
    at + |needle| <= |text| && text[at..at + |needle|] == needle
  }

  lemma {:induction false} HasPairAt(text: string, first: char, second: char, at: nat)
    ensures HasAt(text, [first, second], at) <==> at + 1 < |text| && text[at] == first && text[at + 1] == second
  {
    if at + 1 < |text| {
      assert text[at..at + 2] == [text[at], text[at + 1]];
    }
  }

  lemma {:induction false} HasOneAt(text: string, only: char, at: nat)
    ensures HasAt(text, [only], at) <==> at < |text| && text[at] == only
  {
    if at < |text| {
      assert text[at..at + 1] == [text[at]];
    }
  }

  /** The first place at or after `from` where a text holds another. */
  function Find(text: string, needle: string, from: nat): (found: Option<nat>)
    ensures found.Some? ==> from <= found.value && HasAt(text, needle, found.value)
    ensures found.Some? ==> forall k :: from <= k < found.value ==> !HasAt(text, needle, k)
    ensures found.None? ==> forall k :: from <= k ==> !HasAt(text, needle, k)
    decreases |text| - from
  {
    if HasAt(text, needle, from) then Some(from)
    else if from >= |text| then None
    else Find(text, needle, from + 1)
  }

  datatype Span = Span(start: nat, stop: nat)

  predicate Covers(spans: seq<Span>, at: nat) {
    exists k :: 0 <= k < |spans| && spans[k].start <= at < spans[k].stop
  }

  /** The spans lie one after another from an offset on. */
  ghost predicate InOrder(spans: seq<Span>, from: nat) {
    && (forall k :: 0 <= k < |spans| ==> from <= spans[k].start <= spans[k].stop)
    && forall j, k :: 0 <= j < k < |spans| ==> spans[j].stop <= spans[k].start
  }

  lemma {:induction false} CoversJoined(few: seq<Span>, more: seq<Span>, at: nat)
    ensures Covers(few + more, at) <==> Covers(few, at) || Covers(more, at)
  {
    var all := few + more;
    if Covers(few, at) {
      var k :| 0 <= k < |few| && few[k].start <= at < few[k].stop;
      assert all[k] == few[k];
    }
    if Covers(more, at) {
      var k :| 0 <= k < |more| && more[k].start <= at < more[k].stop;
      assert all[|few| + k] == more[k];
    }
    if Covers(all, at) {
      var k :| 0 <= k < |all| && all[k].start <= at < all[k].stop;
      assert k < |few| ==> all[k] == few[k];
      assert k >= |few| ==> all[k] == more[k - |few|];
    }
  }

  /** A character as it stands after blanking: a space where a span covers it, unless it is a newline. */
  function Blank(text: string, spans: seq<Span>, at: nat): char
    requires at < |text|
  {
    if Covers(spans, at) && text[at] != '\n' then ' ' else text[at]
  }

  /** Blanking replaces what the spans cover by spaces, keeps newlines, and moves nothing. */
  ghost predicate IsBlanked(text: string, spans: seq<Span>, blanked: string) {
    |blanked| == |text| && forall at :: 0 <= at < |text| ==> blanked[at] == Blank(text, spans, at)
  }

  /** The same, for the part of the text read so far. */
  ghost predicate IsBlankedUpTo(text: string, spans: seq<Span>, blanked: string, upTo: nat) {
    && |blanked| == (if upTo < |text| then upTo else |text|)
    && (forall k :: 0 <= k < |spans| ==> spans[k].stop <= upTo)
    && forall at :: 0 <= at < |blanked| ==> blanked[at] == Blank(text, spans, at)
  }

  /** Every character but the newlines becomes a space. */
  function Spaced(text: string): (spaced: string)
    ensures |spaced| == |text|
    ensures forall i :: 0 <= i < |text| ==> spaced[i] == if text[i] == '\n' then '\n' else ' '
  {
    seq(|text|, i requires 0 <= i < |text| => if text[i] == '\n' then '\n' else ' ')
  }

  /** Copying a stretch that no span covers. */
  lemma {:induction false} CopyKeepsBlanked(text: string, spans: seq<Span>, blanked: string, index: nat, upTo: nat,
                                            copied: string)
    requires IsBlankedUpTo(text, spans, blanked, index) && index < |text| && index <= upTo
    requires copied == text[index..if upTo < |text| then upTo else |text|]
    ensures IsBlankedUpTo(text, spans, blanked + copied, upTo)
  {
    var longer := blanked + copied;
    forall at | 0 <= at < |longer| ensures longer[at] == Blank(text, spans, at) {
      if at >= index {
        assert longer[at] == copied[at - index] == text[at];
      }
    }
  }

  /** Blanking one more span. */
  lemma {:induction false} BlankOneMore(text: string, spans: seq<Span>, blanked: string, span: Span, spaced: string)
    requires IsBlankedUpTo(text, spans, blanked, span.start) && span.start <= span.stop <= |text|
    requires spaced == Spaced(text[span.start..span.stop])
    ensures IsBlankedUpTo(text, spans + [span], blanked + spaced, span.stop)
  {
    var longer := blanked + spaced;
    forall at | 0 <= at < |longer| ensures longer[at] == Blank(text, spans + [span], at) {
      CoversJoined(spans, [span], at);
      if at >= span.start {
        assert [span][0] == span;
        assert longer[at] == spaced[at - span.start];
      }
    }
  }

  lemma {:induction false} JoinOneMore<T>(few: seq<T>, one: T, rest: seq<T>)
    ensures few + ([one] + rest) == (few + [one]) + rest
  {
  }
}
