// Exactly what resolving a token returns: which tokens, and which entries in which order, on every graph of references.
module ResolutionWalks {
  import opened Wrappers
  import opened Resolution
  import opened ResolutionLaws

  predicate IsLoneAlias(held: Held, name: Name) {
    name in held && |held[name]| == 1 && !held[name][0].isHex && IsAlias(held[name][0])
  }

  // ---- One name ----

  lemma {:induction false} FollowingReturns(held: Held, references: seq<Name>, walked: set<Name>, token: Name)
    ensures token in FollowAll(held, references, walked).tokens <==> ComesFrom(held, references, walked, token)
    decreases |references|
  {
    if references != [] {
      var rest := references[..|references| - 1];
      FollowingReturns(held, rest, walked, token);
      if ComesFrom(held, rest, walked, token) {
        var k :| 0 <= k < |rest| && token in ColoursOf(held, rest[k], walked).tokens;
        assert references[k] == rest[k];
      }
      if ComesFrom(held, references, walked, token) {
        var k :| 0 <= k < |references| && token in ColoursOf(held, references[k], walked).tokens;
        assert k < |rest| ==> rest[k] == references[k];
      }
    }
  }

  /** A value that the resolution follows refers to a name that returns the token. */
  ghost predicate IsReturnedFrom(held: Held, values: seq<Value>, alone: bool, walked: set<Name>, token: Name) {
    exists i, k :: 0 <= i < |values| && SendsOn(values[i], alone) && 0 <= k < |values[i].references| &&
                   token in ColoursOf(held, values[i].references[k], walked).tokens
  }

  lemma {:induction false} ManyReturn(held: Held, name: Name, values: seq<Value>, walked: set<Name>, token: Name)
    ensures token in FromMany(held, name, values, walked).tokens <==>
            (token == name && HoldsAHex(values)) || IsReturnedFrom(held, values, false, walked, token)
    decreases |values|
  {
    if values != [] {
      var rest, value := values[..|values| - 1], values[|values| - 1];
      ManyReturn(held, name, rest, walked, token);
      FollowingReturns(held, value.references, walked, token);
      OneMoreReturns(held, rest, value, walked, token);
      assert values == rest + [value];
    }
  }

  lemma {:induction false} OneMoreReturns(held: Held, rest: seq<Value>, value: Value, walked: set<Name>, token: Name)
    ensures HoldsAHex(rest + [value]) <==> HoldsAHex(rest) || value.isHex
    ensures IsReturnedFrom(held, rest + [value], false, walked, token) <==>
            || IsReturnedFrom(held, rest, false, walked, token)
            || (SendsOn(value, false) && ComesFrom(held, value.references, walked, token))
  {
    var values := rest + [value];
    assert values[|rest|] == value && forall i :: 0 <= i < |rest| ==> values[i] == rest[i];
    if IsReturnedFrom(held, rest, false, walked, token) {
      var i, k :| 0 <= i < |rest| && SendsOn(rest[i], false) && 0 <= k < |rest[i].references| &&
                  token in ColoursOf(held, rest[i].references[k], walked).tokens;
      assert values[i] == rest[i];
    }
  }

  /** Exactly which tokens a name returns. An alias is returned in place of the one colour it leads to, and otherwise
      returns what its reference returns. Any other name returns itself if it holds a six-digit hex, and all that the
      references of every value it follows return, with this name added to the names not to be entered again. */
  lemma {:induction false} TokensAreExactly(held: Held, name: Name, seen: set<Name>, token: Name)
    ensures token in ColoursOf(held, name, seen).tokens <==>
            && name in held && name !in seen
            && if IsLoneAlias(held, name) then
                 var found := ColoursOf(held, held[name][0].references[0], seen + {name}).tokens;
                 if |found| == 1 then token == name else token in found
               else
                 || (token == name && HoldsAHex(held[name]))
                 || IsReturnedFrom(held, held[name], |held[name]| == 1, seen + {name}, token)
  {
    if name in held && name !in seen {
      var values, walked := held[name], seen + {name};
      if |values| == 1 {
        OneReturns(held, name, walked, token);
      } else {
        ManyReturn(held, name, values, walked, token);
      }
    }
  }

  lemma {:induction false} OneReturns(held: Held, name: Name, walked: set<Name>, token: Name)
    requires name in held && |held[name]| == 1
    ensures token in FromOne(held, name, held[name][0], walked).tokens <==>
            if IsLoneAlias(held, name) then
              var found := ColoursOf(held, held[name][0].references[0], walked).tokens;
              if |found| == 1 then token == name else token in found
            else
              || (token == name && HoldsAHex(held[name]))
              || IsReturnedFrom(held, held[name], true, walked, token)
  {
    hide ColoursOf, FollowAll;
    var value := held[name][0];
    FollowingReturns(held, value.references, walked, token);
    assert HoldsAHex(held[name]) <==> value.isHex;
    assert IsReturnedFrom(held, held[name], true, walked, token) <==>
           SendsOn(value, true) && ComesFrom(held, value.references, walked, token);
  }

  // ---- Over walks ----

  /** A walk along followed references that repeats no name and keeps off those already entered. */
  ghost predicate IsTrail(held: Held, walk: seq<Name>, seen: set<Name>)
    decreases |walk|
  {
    && walk != [] && walk[0] in held && walk[0] !in seen
    && (|walk| > 1 ==> LeadsOn(held, walk[0], walk[1]) && IsTrail(held, walk[1..], seen + {walk[0]}))
  }

  /** What a reference comes to when it is followed from a name on the way. */
  function ColoursBeyond(held: Held, name: Name, seen: set<Name>): set<Name>
    requires IsLoneAlias(held, name)
  {
    ColoursOf(held, held[name][0].references[0], seen + {name}).tokens
  }

  /** The last name of a trail is a colour of its own, or an alias of one; no alias before it leads to only one. */
  ghost predicate BringsItsEnd(held: Held, walk: seq<Name>, seen: set<Name>)
    requires IsTrail(held, walk, seen)
    decreases |walk|
  {
    if |walk| == 1 then
      if IsLoneAlias(held, walk[0]) then |ColoursBeyond(held, walk[0], seen)| == 1 else HoldsAHex(held[walk[0]])
    else
      && (IsLoneAlias(held, walk[0]) ==> |ColoursBeyond(held, walk[0], seen)| != 1)
      && BringsItsEnd(held, walk[1..], seen + {walk[0]})
  }

  ghost predicate Brings(held: Held, walk: seq<Name>, name: Name, seen: set<Name>, token: Name) {
    IsTrail(held, walk, seen) && walk[0] == name && walk[|walk| - 1] == token && BringsItsEnd(held, walk, seen)
  }

  lemma {:induction false} LongerTrail(held: Held, walk: seq<Name>, name: Name, reference: Name, seen: set<Name>,
                                       token: Name)
    requires name in held && name !in seen && LeadsOn(held, name, reference)
    requires IsLoneAlias(held, name) ==> |ColoursBeyond(held, name, seen)| != 1
    requires Brings(held, walk, reference, seen + {name}, token)
    ensures Brings(held, [name] + walk, name, seen, token)
  {
    var longer := [name] + walk;
    assert longer[1..] == walk && longer[1] == reference;
  }

  lemma {:induction false} ReturnedIsBrought(held: Held, name: Name, seen: set<Name>, token: Name)
    returns (walk: seq<Name>)
    requires token in ColoursOf(held, name, seen).tokens
    ensures Brings(held, walk, name, seen, token)
    decreases held.Keys - seen
  {
    TokensAreExactly(held, name, seen, token);
    hide ColoursOf;
    var walked := seen + {name};
    if IsLoneAlias(held, name) {
      if token == name && |ColoursBeyond(held, name, seen)| == 1 {
        walk := [name];
      } else {
        var reference := held[name][0].references[0];
        walk := ReturnedIsBrought(held, reference, walked, token);
        LongerTrail(held, walk, name, reference, seen, token);
        walk := [name] + walk;
      }
    } else if token == name && HoldsAHex(held[name]) {
      walk := [name];
    } else {
      var i, k :| 0 <= i < |held[name]| && SendsOn(held[name][i], |held[name]| == 1) &&
                  0 <= k < |held[name][i].references| &&
                  token in ColoursOf(held, held[name][i].references[k], walked).tokens;
      var reference := held[name][i].references[k];
      walk := ReturnedIsBrought(held, reference, walked, token);
      LongerTrail(held, walk, name, reference, seen, token);
      walk := [name] + walk;
    }
  }

  lemma {:induction false} BroughtIsReturned(held: Held, walk: seq<Name>, name: Name, seen: set<Name>, token: Name)
    requires Brings(held, walk, name, seen, token)
    ensures token in ColoursOf(held, name, seen).tokens
    decreases |walk|
  {
    TokensAreExactly(held, name, seen, token);
    hide ColoursOf;
    if |walk| > 1 {
      BroughtIsReturned(held, walk[1..], walk[1], seen + {name}, token);
      var i, k :| 0 <= i < |held[name]| && SendsOn(held[name][i], |held[name]| == 1) &&
                  0 <= k < |held[name][i].references| && held[name][i].references[k] == walk[1];
    }
  }

  /** Exactly which tokens a resolution returns, over walks: those that end a trail from the name asked for and are
      colours of their own, unless an alias on the way is returned in their place. */
  lemma {:induction false} TokensAreBrought(held: Held, name: Name, seen: set<Name>, token: Name)
    ensures token in ColoursOf(held, name, seen).tokens <==> exists walk :: Brings(held, walk, name, seen, token)
  {
    if token in ColoursOf(held, name, seen).tokens {
      var walk := ReturnedIsBrought(held, name, seen, token);
    }
    if walk :| Brings(held, walk, name, seen, token) {
      BroughtIsReturned(held, walk, name, seen, token);
    }
  }

  /** A walk off the names entered can be cut to a trail with the same ends. */
  lemma {:induction false} CutToATrail(held: Held, walk: seq<Name>, seen: set<Name>) returns (trail: seq<Name>)
    requires IsWalk(held, walk) && walk[|walk| - 1] in held && forall i :: 0 <= i < |walk| ==> walk[i] !in seen
    ensures IsTrail(held, trail, seen) && trail[0] == walk[0] && trail[|trail| - 1] == walk[|walk| - 1]
    decreases |walk|
  {
    var name := walk[0];
    if i :| 0 < i < |walk| && walk[i] == name {
      trail := CutToATrail(held, walk[i..], seen);
    } else if |walk| == 1 {
      trail := walk;
    } else {
      trail := CutToATrail(held, walk[1..], seen + {name});
      assert ([name] + trail)[1..] == trail;
      trail := [name] + trail;
    }
  }

  lemma {:induction false} TrailIsAWalk(held: Held, walk: seq<Name>, seen: set<Name>)
    requires IsTrail(held, walk, seen)
    ensures IsWalk(held, walk)
    decreases |walk|
  {
    if |walk| > 1 {
      TrailIsAWalk(held, walk[1..], seen + {walk[0]});
      forall i | 0 < i < |walk| ensures LeadsOn(held, walk[i - 1], walk[i]) {
        assert i > 1 ==> walk[i - 1] == walk[1..][i - 2] && walk[i] == walk[1..][i - 1];
      }
    }
  }

  lemma {:induction false} NoAliasOnTheWay(held: Held, walk: seq<Name>, seen: set<Name>)
    requires IsTrail(held, walk, seen) && forall each :: !IsLoneAlias(held, each)
    ensures BringsItsEnd(held, walk, seen) <==>
            walk[|walk| - 1] in held && HoldsAHex(held[walk[|walk| - 1]])
    decreases |walk|
  {
    if |walk| > 1 {
      NoAliasOnTheWay(held, walk[1..], seen + {walk[0]});
    }
  }

  /** Where no name is an alias, a resolution returns every name with a six-digit hex that can be got to, and no other:
      a carrier of twelve colours returns all twelve. */
  lemma {:induction false} CarriersReturnAll(held: Held, name: Name, token: Name)
    requires forall each :: !IsLoneAlias(held, each)
    ensures token in ColoursOf(held, name, {}).tokens <==>
            LeadsTo(held, name, token) && token in held && HoldsAHex(held[token])
  {
    hide ColoursOf;
    TokensAreBrought(held, name, {}, token);
    if walk :| Brings(held, walk, name, {}, token) {
      TrailIsAWalk(held, walk, {});
      NoAliasOnTheWay(held, walk, {});
    }
    if LeadsTo(held, name, token) && token in held && HoldsAHex(held[token]) {
      var walk :| IsWalk(held, walk) && walk[0] == name && walk[|walk| - 1] == token;
      var trail := CutToATrail(held, walk, {});
      NoAliasOnTheWay(held, trail, {});
      assert Brings(held, trail, name, {}, token);
    }
  }

  // ---- Entries ----

  function Joined(pieces: seq<seq<Unmeasurable>>): seq<Unmeasurable> {
    if pieces == [] then [] else Joined(pieces[..|pieces| - 1]) + pieces[|pieces| - 1]
  }

  /** What each of several references reports. */
  ghost predicate AreReported(held: Held, references: seq<Name>, walked: set<Name>, parts: seq<seq<Unmeasurable>>) {
    |parts| == |references| &&
    forall k :: 0 <= k < |references| ==> parts[k] == ColoursOf(held, references[k], walked).unmeasurable
  }

  lemma {:induction false} FollowingReports(held: Held, references: seq<Name>, walked: set<Name>)
    returns (parts: seq<seq<Unmeasurable>>)
    ensures AreReported(held, references, walked, parts)
    ensures FollowAll(held, references, walked).unmeasurable == Joined(parts)
    decreases |references|
  {
    parts := [];
    if references != [] {
      var rest, last := references[..|references| - 1], references[|references| - 1];
      var before := FollowingReports(held, rest, walked);
      parts := before + [ColoursOf(held, last, walked).unmeasurable];
      assert parts[..|before|] == before;
      assert forall k :: 0 <= k < |rest| ==> references[k] == rest[k];
    }
  }

  /** What one value of a name adds to the report: nothing for a colour, itself if no ratio describes it, and else what
      its references report, in order. */
  ghost predicate IsReportOf(held: Held, name: Name, value: Value, walked: set<Name>, piece: seq<Unmeasurable>) {
    if value.isHex then piece == []
    else match value.reason
      case Some(reason) => piece == [Unmeasurable(name, value.text, reason)]
      case None => exists parts :: AreReported(held, value.references, walked, parts) && piece == Joined(parts)
  }

  lemma {:induction false} ManyReport(held: Held, name: Name, values: seq<Value>, walked: set<Name>)
    returns (pieces: seq<seq<Unmeasurable>>)
    ensures FromMany(held, name, values, walked).unmeasurable == Joined(pieces) && |pieces| == |values|
    ensures forall i :: 0 <= i < |values| ==> IsReportOf(held, name, values[i], walked, pieces[i])
    decreases |values|
  {
    pieces := [];
    if values != [] {
      var rest, value := values[..|values| - 1], values[|values| - 1];
      var before := ManyReport(held, name, rest, walked);
      var piece: seq<Unmeasurable> := [];
      if !value.isHex {
        if value.reason != None {
          piece := [Unmeasurable(name, value.text, value.reason.value)];
        } else {
          var parts := FollowingReports(held, value.references, walked);
          piece := Joined(parts);
        }
      }
      assert IsReportOf(held, name, value, walked, piece);
      pieces := before + [piece];
      assert pieces[..|before|] == before;
      assert before + [[]] == pieces ==> Joined(pieces) == Joined(before);
      hide IsReportOf;
      assert forall i :: 0 <= i < |rest| ==> values[i] == rest[i] && pieces[i] == before[i];
    }
  }

  /** The entries reported under another name, one for one. */
  ghost predicate IsUnder(found: seq<Unmeasurable>, token: Name, under: seq<Unmeasurable>) {
    |under| == |found| &&
    forall i :: 0 <= i < |found| ==> under[i] == Unmeasurable(token, found[i].value, found[i].reason)
  }

  /** Exactly what a name reports, in order: an alias what its reference reports, under its own name; any other name the
      reports of its values, one after the other. */
  lemma {:induction false} EntriesAreExactly(held: Held, name: Name, seen: set<Name>)
    returns (pieces: seq<seq<Unmeasurable>>)
    ensures var entries := ColoursOf(held, name, seen).unmeasurable;
            if name !in held || name in seen then entries == []
            else if IsLoneAlias(held, name) then
              IsUnder(ColoursOf(held, held[name][0].references[0], seen + {name}).unmeasurable, name, entries)
            else
              && entries == Joined(pieces) && |pieces| == |held[name]|
              && forall i :: 0 <= i < |held[name]| ==>
                   IsReportOf(held, name, held[name][i], seen + {name}, pieces[i])
  {
    pieces := [];
    if name in held && name !in seen {
      var values, walked := held[name], seen + {name};
      if |values| != 1 {
        pieces := ManyReport(held, name, values, walked);
      } else if !IsLoneAlias(held, name) {
        pieces := OneReports(held, name, walked);
      }
    }
  }

  lemma {:induction false} OneReports(held: Held, name: Name, walked: set<Name>)
    returns (pieces: seq<seq<Unmeasurable>>)
    requires name in held && |held[name]| == 1 && !IsLoneAlias(held, name)
    ensures FromOne(held, name, held[name][0], walked).unmeasurable == Joined(pieces) && |pieces| == 1
    ensures IsReportOf(held, name, held[name][0], walked, pieces[0])
  {
    hide ColoursOf;
    var value := held[name][0];
    var piece := FromOne(held, name, value, walked).unmeasurable;
    if !value.isHex && value.reason == None {
      var parts := FollowingReports(held, value.references, walked);
    }
    pieces := [piece];
    assert pieces[..0] == [];
    assert Joined(pieces) == Joined([]) + piece == piece;
  }

  // ---- Entries over walks ----

  /** The name an entry found at the end of a walk is put under: the first alias on it, or the holder itself. */
  function ReportedUnder(held: Held, walk: seq<Name>): Name
    requires walk != []
    decreases |walk|
  {
    if |walk| == 1 || IsLoneAlias(held, walk[0]) then walk[0] else ReportedUnder(held, walk[1..])
  }

  ghost predicate HoldsIt(held: Held, holder: Name, entry: Unmeasurable) {
    exists i :: HoldsStop(held, holder, i, entry)
  }

  /** A trail ends at a name that holds a value no ratio describes, for the reason given. */
  ghost predicate Reports(held: Held, walk: seq<Name>, name: Name, seen: set<Name>, entry: Unmeasurable) {
    && IsTrail(held, walk, seen) && walk[0] == name && entry.token == ReportedUnder(held, walk)
    && HoldsIt(held, walk[|walk| - 1], entry)
  }

  lemma {:induction false} JoinedHolds(pieces: seq<seq<Unmeasurable>>, entry: Unmeasurable)
    ensures entry in Joined(pieces) <==> exists i :: 0 <= i < |pieces| && entry in pieces[i]
    decreases |pieces|
  {
    if pieces != [] {
      var rest := pieces[..|pieces| - 1];
      JoinedHolds(rest, entry);
      if i :| 0 <= i < |rest| && entry in rest[i] {
        assert entry in pieces[i];
      }
      if i :| 0 <= i < |pieces| && entry in pieces[i] {
        assert i < |rest| ==> entry in rest[i];
      }
    }
  }

  /** One value's report holds an entry exactly when the value is the one meant, or one it refers to reports it. */
  lemma {:induction false} ReportHolds(held: Held, name: Name, value: Value, walked: set<Name>,
                                       piece: seq<Unmeasurable>, entry: Unmeasurable)
    requires IsReportOf(held, name, value, walked, piece)
    ensures entry in piece <==>
            || (!value.isHex && value.reason.Some? && entry == Unmeasurable(name, value.text, value.reason.value))
            || (SendsOn(value, false) &&
                exists k :: 0 <= k < |value.references| &&
                            entry in ColoursOf(held, value.references[k], walked).unmeasurable)
  {
    hide ColoursOf;
    if !value.isHex && value.reason == None {
      var parts :| AreReported(held, value.references, walked, parts) && piece == Joined(parts);
      JoinedHolds(parts, entry);
    }
  }

  ghost predicate IsReportedFrom(held: Held, name: Name, seen: set<Name>, entry: Unmeasurable)
    requires name in held
  {
    exists i, k :: 0 <= i < |held[name]| && SendsOn(held[name][i], |held[name]| == 1) &&
                   0 <= k < |held[name][i].references| &&
                   entry in ColoursOf(held, held[name][i].references[k], seen + {name}).unmeasurable
  }

  /** A name that is no alias reports an entry exactly when it holds the value meant, or a name it leads on to reports
      it. */
  lemma {:induction false} ReportedHereOrFurther(held: Held, name: Name, seen: set<Name>, entry: Unmeasurable)
    requires name in held && name !in seen && !IsLoneAlias(held, name)
    ensures entry in ColoursOf(held, name, seen).unmeasurable <==>
            (entry.token == name && HoldsIt(held, name, entry)) ||
            IsReportedFrom(held, name, seen, entry)
  {
    var pieces := EntriesAreExactly(held, name, seen);
    var values, walked, entries := held[name], seen + {name}, ColoursOf(held, name, seen).unmeasurable;
    hide ColoursOf, IsReportOf;
    JoinedHolds(pieces, entry);
    forall i | 0 <= i < |values|
      ensures entry in pieces[i] <==>
              || (entry.token == name && HoldsStop(held, name, i, entry))
              || (SendsOn(values[i], |values| == 1) &&
                  exists k :: 0 <= k < |values[i].references| &&
                              entry in ColoursOf(held, values[i].references[k], walked).unmeasurable)
    {
      ReportHolds(held, name, values[i], walked, pieces[i], entry);
    }
  }

  lemma {:induction false} ReportedIsTrailed(held: Held, name: Name, seen: set<Name>, entry: Unmeasurable)
    returns (walk: seq<Name>)
    requires entry in ColoursOf(held, name, seen).unmeasurable
    ensures Reports(held, walk, name, seen, entry)
    decreases held.Keys - seen
  {
    var pieces := EntriesAreExactly(held, name, seen);
    if IsLoneAlias(held, name) {
      var reference := held[name][0].references[0];
      var found := ColoursOf(held, reference, seen + {name}).unmeasurable;
      var k :| 0 <= k < |ColoursOf(held, name, seen).unmeasurable| &&
               ColoursOf(held, name, seen).unmeasurable[k] == entry;
      hide ColoursOf;
      walk := ReportedIsTrailed(held, reference, seen + {name}, found[k]);
      var i :| HoldsStop(held, walk[|walk| - 1], i, found[k]);
      assert HoldsStop(held, walk[|walk| - 1], i, entry);
      assert ([name] + walk)[1..] == walk;
      walk := [name] + walk;
    } else {
      ReportedHereOrFurther(held, name, seen, entry);
      hide ColoursOf;
      if entry.token == name && HoldsIt(held, name, entry) {
        walk := [name];
      } else {
        var i, k :| 0 <= i < |held[name]| && SendsOn(held[name][i], |held[name]| == 1) &&
                    0 <= k < |held[name][i].references| &&
                    entry in ColoursOf(held, held[name][i].references[k], seen + {name}).unmeasurable;
        walk := ReportedIsTrailed(held, held[name][i].references[k], seen + {name}, entry);
        assert ([name] + walk)[1..] == walk;
        walk := [name] + walk;
      }
    }
  }

  lemma {:induction false} TrailedIsReported(held: Held, walk: seq<Name>, name: Name, seen: set<Name>,
                                             entry: Unmeasurable)
    requires Reports(held, walk, name, seen, entry)
    ensures entry in ColoursOf(held, name, seen).unmeasurable
    decreases |walk|
  {
    var pieces := EntriesAreExactly(held, name, seen);
    var i :| HoldsStop(held, walk[|walk| - 1], i, entry);
    if IsLoneAlias(held, name) {
      assert |walk| > 1;
      var reference := held[name][0].references[0];
      assert walk[1] == reference;
      var inner := entry.(token := ReportedUnder(held, walk[1..]));
      assert walk[1..][|walk| - 2] == walk[|walk| - 1];
      assert HoldsStop(held, walk[|walk| - 1], i, inner);
      TrailedIsReported(held, walk[1..], reference, seen + {name}, inner);
      var found := ColoursOf(held, reference, seen + {name}).unmeasurable;
      var k :| 0 <= k < |found| && found[k] == inner;
      assert ColoursOf(held, name, seen).unmeasurable[k] == entry;
    } else {
      ReportedHereOrFurther(held, name, seen, entry);
      if |walk| > 1 {
        TrailedIsReported(held, walk[1..], walk[1], seen + {name}, entry);
      }
    }
  }

  /** Exactly which entries a resolution reports, over walks: a trail from the name asked for ends at the value meant,
      and the entry is put under the first alias on the trail, or else under the name that holds the value. */
  lemma {:induction false} EntriesAreTrailed(held: Held, name: Name, seen: set<Name>, entry: Unmeasurable)
    ensures entry in ColoursOf(held, name, seen).unmeasurable <==>
            exists walk :: Reports(held, walk, name, seen, entry)
  {
    if entry in ColoursOf(held, name, seen).unmeasurable {
      var walk := ReportedIsTrailed(held, name, seen, entry);
    }
    if walk :| Reports(held, walk, name, seen, entry) {
      TrailedIsReported(held, walk, name, seen, entry);
    }
  }
}
