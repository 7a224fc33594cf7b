// What resolving a token promises, on every graph of references, with cycles or without.
module ResolutionLaws {
  import opened Wrappers
  import opened Resolution

  // ---- References that are followed ----

  /** A value sends the resolution on: it is no hex, and it is a lone value that is one reference, or a ratio could
      describe it. */
  predicate SendsOn(value: Value, alone: bool) {
    !value.isHex && ((alone && IsAlias(value)) || value.reason == None)
  }

  ghost predicate LeadsOn(held: Held, name: Name, reference: Name) {
    name in held && exists i, k :: 0 <= i < |held[name]| && SendsOn(held[name][i], |held[name]| == 1) &&
                                   0 <= k < |held[name][i].references| && held[name][i].references[k] == reference
  }

  /** What a resolution can be after: a colour, or a value no ratio describes. */
  datatype Goal = Colour | NoColour

  predicate IsGoal(value: Value, alone: bool, goal: Goal) {
    match goal
    case Colour => value.isHex
    case NoColour => !value.isHex && !SendsOn(value, alone)
  }

  ghost predicate HasGoal(held: Held, name: Name, goal: Goal) {
    name in held && exists i :: 0 <= i < |held[name]| && IsGoal(held[name][i], |held[name]| == 1, goal)
  }

  ghost predicate IsWalk(held: Held, walk: seq<Name>) {
    |walk| >= 1 && forall i :: 0 < i < |walk| ==> LeadsOn(held, walk[i - 1], walk[i])
  }

  /** A walk to a goal that keeps off the names already on the way. */
  ghost predicate IsWayTo(held: Held, walk: seq<Name>, name: Name, seen: set<Name>, goal: Goal) {
    && IsWalk(held, walk) && walk[0] == name
    && (forall i :: 0 <= i < |walk| ==> walk[i] !in seen)
    && HasGoal(held, walk[|walk| - 1], goal)
  }

  ghost predicate Reaches(held: Held, name: Name, seen: set<Name>, goal: Goal) {
    exists walk :: IsWayTo(held, walk, name, seen, goal)
  }

  predicate Found(resolved: Resolved, goal: Goal) {
    match goal
    case Colour => resolved.tokens != {}
    case NoColour => resolved.unmeasurable != []
  }

  // ---- Found is reached ----

  lemma {:induction false} FoundByFollowing(held: Held, references: seq<Name>, walked: set<Name>, goal: Goal)
    ensures Found(FollowAll(held, references, walked), goal) <==>
            exists k :: 0 <= k < |references| && Found(ColoursOf(held, references[k], walked), goal)
    decreases |references|
  {
    if references != [] {
      var rest := references[..|references| - 1];
      FoundByFollowing(held, rest, walked, goal);
      if k :| 0 <= k < |rest| && Found(ColoursOf(held, rest[k], walked), goal) {
        assert references[k] == rest[k];
      }
      if k :| 0 <= k < |references| && Found(ColoursOf(held, references[k], walked), goal) {
        assert k < |rest| ==> rest[k] == references[k];
      }
    }
  }

  /** A value of a name yields a goal itself, or a reference it sends the resolution on to does. */
  ghost predicate Yields(held: Held, value: Value, alone: bool, walked: set<Name>, goal: Goal) {
    || IsGoal(value, alone, goal)
    || (SendsOn(value, alone) && exists k :: 0 <= k < |value.references| &&
                                             Found(ColoursOf(held, value.references[k], walked), goal))
  }

  lemma {:induction false} FoundInMany(held: Held, name: Name, values: seq<Value>, walked: set<Name>, goal: Goal)
    ensures Found(FromMany(held, name, values, walked), goal) <==>
            exists i :: 0 <= i < |values| && Yields(held, values[i], false, walked, goal)
    decreases |values|
  {
    if values != [] {
      var rest, value := values[..|values| - 1], values[|values| - 1];
      FoundInMany(held, name, rest, walked, goal);
      FoundByFollowing(held, value.references, walked, goal);
      if i :| 0 <= i < |rest| && Yields(held, rest[i], false, walked, goal) {
        assert values[i] == rest[i];
      }
      if i :| 0 <= i < |values| && Yields(held, values[i], false, walked, goal) {
        assert i < |rest| ==> rest[i] == values[i];
      }
    }
  }

  lemma {:induction false} FoundInOne(held: Held, name: Name, value: Value, walked: set<Name>, goal: Goal)
    ensures Found(FromOne(held, name, value, walked), goal) <==> Yields(held, value, true, walked, goal)
  {
    FoundByFollowing(held, value.references, walked, goal);
    if IsAlias(value) {
      var followed := ColoursOf(held, value.references[0], walked);
      assert |followed.tokens| == 0 <==> followed.tokens == {};
    }
  }

  /** A name finds a goal exactly when one of its values yields one. */
  lemma {:induction false} FoundInAName(held: Held, name: Name, seen: set<Name>, goal: Goal)
    requires name in held && name !in seen
    ensures Found(ColoursOf(held, name, seen), goal) <==>
            exists i :: 0 <= i < |held[name]| && Yields(held, held[name][i], |held[name]| == 1, seen + {name}, goal)
  {
    if |held[name]| == 1 {
      FoundInOne(held, name, held[name][0], seen + {name}, goal);
    } else {
      FoundInMany(held, name, held[name], seen + {name}, goal);
    }
  }

  lemma {:induction false} WalkOn(held: Held, name: Name, reference: Name, seen: set<Name>, goal: Goal)
    requires name !in seen && LeadsOn(held, name, reference) && Reaches(held, reference, seen + {name}, goal)
    ensures Reaches(held, name, seen, goal)
  {
    var walk :| IsWayTo(held, walk, reference, seen + {name}, goal);
    var longer := [name] + walk;
    assert forall i :: 0 < i < |longer| ==> longer[i] == walk[i - 1];
    assert IsWayTo(held, longer, name, seen, goal);
  }

  lemma {:induction false} FoundIsReached(held: Held, name: Name, seen: set<Name>, goal: Goal)
    requires Found(ColoursOf(held, name, seen), goal)
    ensures Reaches(held, name, seen, goal)
    decreases held.Keys - seen
  {
    FoundInAName(held, name, seen, goal);
    var i :| 0 <= i < |held[name]| && Yields(held, held[name][i], |held[name]| == 1, seen + {name}, goal);
    var value := held[name][i];
    if IsGoal(value, |held[name]| == 1, goal) {
      assert IsWayTo(held, [name], name, seen, goal);
    } else {
      var k :| 0 <= k < |value.references| && Found(ColoursOf(held, value.references[k], seen + {name}), goal);
      FoundIsReached(held, value.references[k], seen + {name}, goal);
      WalkOn(held, name, value.references[k], seen, goal);
    }
  }

  // ---- Reached is found ----

  /** A way can be cut so that it never comes back to where it starts. */
  lemma {:induction false} CutTheLoop(held: Held, walk: seq<Name>, name: Name, seen: set<Name>, goal: Goal)
    returns (straight: seq<Name>)
    requires IsWayTo(held, walk, name, seen, goal)
    ensures IsWayTo(held, straight, name, seen, goal) && name !in straight[1..]
    decreases |walk|
  {
    if name !in walk[1..] {
      straight := walk;
    } else {
      var i :| 0 <= i < |walk[1..]| && walk[1..][i] == name;
      assert walk[i + 1] == name;
      assert IsWayTo(held, walk[i + 1..], name, seen, goal);
      straight := CutTheLoop(held, walk[i + 1..], name, seen, goal);
    }
  }

  lemma {:induction false} ReachedIsFound(held: Held, name: Name, seen: set<Name>, goal: Goal)
    requires Reaches(held, name, seen, goal)
    ensures Found(ColoursOf(held, name, seen), goal)
    decreases held.Keys - seen
  {
    var walk :| IsWayTo(held, walk, name, seen, goal);
    var straight := CutTheLoop(held, walk, name, seen, goal);
    assert name in held by {
      assert |straight| > 1 ==> LeadsOn(held, straight[0], straight[1]);
    }
    FoundInAName(held, name, seen, goal);
    if |straight| == 1 {
      assert HasGoal(held, name, goal);
    } else {
      var next, rest := straight[1], straight[1..];
      assert forall i :: 0 <= i < |rest| ==> rest[i] == straight[i + 1] && rest[i] != name;
      assert IsWayTo(held, rest, next, seen + {name}, goal);
      ReachedIsFound(held, next, seen + {name}, goal);
      assert LeadsOn(held, name, next);
    }
  }

  /** A token resolves to some colour exactly when a chain of followed references leads from it to a six-digit hex,
      and it is reported as unmeasurable exactly when one leads to a value no ratio describes: on every graph. */
  lemma {:induction false} ResolvesIffReachable(held: Held, name: Name, goal: Goal)
    ensures Found(ColoursOf(held, name, {}), goal) <==> Reaches(held, name, {}, goal)
  {
    if Reaches(held, name, {}, goal) {
      ReachedIsFound(held, name, {}, goal);
    } else if Found(ColoursOf(held, name, {}), goal) {
      FoundIsReached(held, name, {}, goal);
    }
  }

  // ---- Which tokens ----

  ghost predicate LeadsTo(held: Held, name: Name, token: Name) {
    exists walk :: IsWalk(held, walk) && walk[0] == name && walk[|walk| - 1] == token
  }

  lemma {:induction false} LeadsToItself(held: Held, name: Name)
    ensures LeadsTo(held, name, name)
  {
    assert IsWalk(held, [name]);
  }

  lemma {:induction false} LeadsFurther(held: Held, name: Name, reference: Name, token: Name)
    requires LeadsOn(held, name, reference) && LeadsTo(held, reference, token)
    ensures LeadsTo(held, name, token)
  {
    var walk :| IsWalk(held, walk) && walk[0] == reference && walk[|walk| - 1] == token;
    var longer := [name] + walk;
    assert forall i :: 0 < i < |longer| ==> longer[i] == walk[i - 1];
    assert IsWalk(held, longer);
  }

  /** What holds of a token a resolution returns. */
  ghost predicate IsSound(held: Held, name: Name, seen: set<Name>, token: Name) {
    token !in seen && LeadsTo(held, name, token) && Reaches(held, token, {}, Colour)
  }

  /** A token some reference of a value the resolution follows returns. */
  ghost predicate ComesFrom(held: Held, references: seq<Name>, walked: set<Name>, token: Name) {
    exists k :: 0 <= k < |references| && token in ColoursOf(held, references[k], walked).tokens
  }

  lemma {:induction false} TokensByFollowing(held: Held, references: seq<Name>, walked: set<Name>, token: Name)
    requires token in FollowAll(held, references, walked).tokens
    ensures ComesFrom(held, references, walked, token)
    decreases |references|
  {
    var rest := references[..|references| - 1];
    if token in FollowAll(held, rest, walked).tokens {
      TokensByFollowing(held, rest, walked, token);
      var k :| 0 <= k < |rest| && token in ColoursOf(held, rest[k], walked).tokens;
      assert references[k] == rest[k];
    } else {
      assert token in ColoursOf(held, references[|references| - 1], walked).tokens;
    }
  }

  lemma {:induction false} TokensOfMany(held: Held, name: Name, values: seq<Value>, walked: set<Name>, token: Name)
    requires token in FromMany(held, name, values, walked).tokens && token != name
    ensures exists i :: 0 <= i < |values| && SendsOn(values[i], false) &&
                        ComesFrom(held, values[i].references, walked, token)
    decreases |values|
  {
    var rest, value := values[..|values| - 1], values[|values| - 1];
    if token in FromMany(held, name, rest, walked).tokens {
      TokensOfMany(held, name, rest, walked, token);
      var i :| 0 <= i < |rest| && SendsOn(rest[i], false) && ComesFrom(held, rest[i].references, walked, token);
      assert values[i] == rest[i];
    } else {
      TokensByFollowing(held, value.references, walked, token);
    }
  }

  /** A token other than the name itself comes from a reference the name leads on to. */
  lemma {:induction false} OtherTokens(held: Held, name: Name, seen: set<Name>, token: Name) returns (reference: Name)
    requires token in ColoursOf(held, name, seen).tokens && token != name
    ensures name in held && name !in seen && LeadsOn(held, name, reference)
    ensures token in ColoursOf(held, reference, seen + {name}).tokens
  {
    var values, walked := held[name], seen + {name};
    if |values| == 1 {
      if !IsAlias(values[0]) {
        TokensByFollowing(held, values[0].references, walked, token);
      } else {
        assert ComesFrom(held, values[0].references, walked, token);
      }
      var k :| 0 <= k < |values[0].references| && token in ColoursOf(held, values[0].references[k], walked).tokens;
      reference := values[0].references[k];
    } else {
      TokensOfMany(held, name, values, walked, token);
      var i :| 0 <= i < |values| && SendsOn(values[i], false) && ComesFrom(held, values[i].references, walked, token);
      var k :| 0 <= k < |values[i].references| && token in ColoursOf(held, values[i].references[k], walked).tokens;
      reference := values[i].references[k];
    }
  }

  /** Leaving names on the way out of a walk only widens it. */
  lemma {:induction false} ReachesWithLess(held: Held, name: Name, seen: set<Name>, goal: Goal)
    requires Reaches(held, name, seen, goal)
    ensures Reaches(held, name, {}, goal)
  {
    var walk :| IsWayTo(held, walk, name, seen, goal);
    assert IsWayTo(held, walk, name, {}, goal);
  }

  /** Every token returned is off the way so far, is led to from the name asked for, and itself leads to a six-digit
      hex. */
  lemma {:induction false} TokensAreSound(held: Held, name: Name, seen: set<Name>, token: Name)
    requires token in ColoursOf(held, name, seen).tokens
    ensures IsSound(held, name, seen, token)
    decreases held.Keys - seen
  {
    if token == name {
      LeadsToItself(held, name);
      FoundIsReached(held, name, seen, Colour);
      ReachesWithLess(held, name, seen, Colour);
    } else {
      var reference := OtherTokens(held, name, seen, token);
      TokensAreSound(held, reference, seen + {name}, token);
      LeadsFurther(held, name, reference, token);
    }
  }

  /** So each token returned resolves to a colour when it is asked for by itself. */
  lemma {:induction false} TokensResolve(held: Held, name: Name, token: Name)
    requires token in ColoursOf(held, name, {}).tokens
    ensures LeadsTo(held, name, token) && ColoursOf(held, token, {}).tokens != {}
  {
    TokensAreSound(held, name, {}, token);
    ReachedIsFound(held, token, {}, Colour);
  }

  /** A name already on the way is not come back to. */
  lemma {:induction false} NotByFollowing(held: Held, references: seq<Name>, walked: set<Name>, name: Name)
    requires name in walked
    ensures name !in FollowAll(held, references, walked).tokens
  {
    if name in FollowAll(held, references, walked).tokens {
      TokensByFollowing(held, references, walked, name);
      var k :| 0 <= k < |references| && name in ColoursOf(held, references[k], walked).tokens;
      TokensAreSound(held, references[k], walked, name);
    }
  }

  predicate HoldsAHex(values: seq<Value>) {
    exists i :: 0 <= i < |values| && values[i].isHex
  }

  lemma {:induction false} ItselfAmongMany(held: Held, name: Name, values: seq<Value>, walked: set<Name>)
    requires name in walked
    ensures name in FromMany(held, name, values, walked).tokens <==> HoldsAHex(values)
    decreases |values|
  {
    if values != [] {
      var rest, value := values[..|values| - 1], values[|values| - 1];
      ItselfAmongMany(held, name, rest, walked);
      NotByFollowing(held, value.references, walked, name);
      if i :| 0 <= i < |rest| && rest[i].isHex {
        assert values[i].isHex;
      }
      if i :| 0 <= i < |values| && values[i].isHex {
        assert i < |rest| ==> rest[i].isHex;
      }
    }
  }

  /** Is what a name comes to its own: does it hold a colour, or one reference and nothing else? */
  predicate IsItsOwn(values: seq<Value>) {
    HoldsAHex(values) || (|values| == 1 && IsAlias(values[0]))
  }

  /** A name that comes to a single colour, whatever it holds and on every graph, is reported as itself exactly when one
      of its own values is a colour, or its lone value is one reference and nothing else. */
  lemma {:induction false} ReportedAsItself(held: Held, name: Name)
    requires |ColoursOf(held, name, {}).tokens| == 1
    ensures name in held
    ensures ColoursOf(held, name, {}).tokens == {name} <==> IsItsOwn(held[name])
  {
    var values, walked := held[name], {} + {name};
    var tokens := ColoursOf(held, name, {}).tokens;
    if |values| == 1 {
      NotByFollowing(held, values[0].references, walked, name);
    } else {
      ItselfAmongMany(held, name, values, walked);
    }
    assert tokens == {name} <==> name in tokens by {
      if name in tokens {
        assert |tokens - {name}| == 0;
      }
    }
  }

  const HEX := Value("#112233", true, [], false, None)
  const BARE := Value("var(--x)", false, ["--x"], true, None)
  const MIXED := Value("solid var(--x)", false, ["--x"], false, None)
  const CLEAR := Value("transparent", false, [], false, Some(Transparency))

  /** One token among other words, and a bare reference beside a value that is no colour, are each reported as the token
      referred to. */
  lemma {:induction false} ReportedAsAnother()
    ensures ColoursOf(map["--n" := [MIXED], "--x" := [HEX]], "--n", {}).tokens == {"--x"}
    ensures ColoursOf(map["--n" := [CLEAR, BARE], "--x" := [HEX]], "--n", {}).tokens == {"--x"}
  {
    var one: Held := map["--n" := [MIXED], "--x" := [HEX]];
    var two: Held := map["--n" := [CLEAR, BARE], "--x" := [HEX]];
    var walked := {} + {"--n"};
    assert ["--x"][..0] == [] && [CLEAR, BARE][..1] == [CLEAR] && [CLEAR][..0] == [];
    assert ColoursOf(one, "--x", walked).tokens == {"--x"} && ColoursOf(two, "--x", walked).tokens == {"--x"};
    assert FollowAll(one, [], walked) == NOTHING && FollowAll(two, [], walked) == NOTHING;
    assert FollowAll(one, ["--x"], walked).tokens == {"--x"} && FollowAll(two, ["--x"], walked).tokens == {"--x"};
    assert FromMany(two, "--n", [CLEAR], walked).tokens == {};
  }

  // ---- Which reasons ----

  /** What is said to be unmeasurable is: a value no ratio describes, of a name the reported one leads to. */
  ghost predicate IsReal(held: Held, name: Name, entry: Unmeasurable) {
    exists holder, i :: HoldsStop(held, holder, i, entry) && LeadsTo(held, name, entry.token) &&
                        LeadsTo(held, entry.token, holder)
  }

  /** A name holds the reported value, for the reported reason. */
  ghost predicate HoldsStop(held: Held, holder: Name, i: nat, entry: Unmeasurable) {
    && holder in held && i < |held[holder]| && IsGoal(held[holder][i], |held[holder]| == 1, NoColour)
    && held[holder][i].text == entry.value && held[holder][i].reason == Some(entry.reason)
  }

  lemma {:induction false} EntriesByFollowing(held: Held, references: seq<Name>, walked: set<Name>, entry: Unmeasurable)
    returns (k: nat)
    requires entry in FollowAll(held, references, walked).unmeasurable
    ensures k < |references| && entry in ColoursOf(held, references[k], walked).unmeasurable
    decreases |references|
  {
    var rest := references[..|references| - 1];
    if entry in FollowAll(held, rest, walked).unmeasurable {
      k := EntriesByFollowing(held, rest, walked, entry);
    } else {
      k := |references| - 1;
    }
  }

  /** An entry of a carrier is about a value of its own, or comes from a reference it follows. */
  lemma {:induction false} EntriesOfMany(held: Held, name: Name, values: seq<Value>, walked: set<Name>,
                                         entry: Unmeasurable)
    returns (i: nat)
    requires entry in FromMany(held, name, values, walked).unmeasurable
    ensures i < |values| && !values[i].isHex
    ensures match values[i].reason
            case Some(reason) => entry == Unmeasurable(name, values[i].text, reason)
            case None => entry in FollowAll(held, values[i].references, walked).unmeasurable
    decreases |values|
  {
    var rest := values[..|values| - 1];
    if entry in FromMany(held, name, rest, walked).unmeasurable {
      i := EntriesOfMany(held, name, rest, walked, entry);
    } else {
      i := |values| - 1;
    }
  }

  /** Every value reported unmeasurable is held by a name the resolution really gets to, for the reason given, and is
      reported under a name on the way: for a lone value the name asked for, whatever it was reached through. */
  lemma {:induction false} EntriesAreReal(held: Held, name: Name, seen: set<Name>, entry: Unmeasurable)
    requires entry in ColoursOf(held, name, seen).unmeasurable
    ensures IsReal(held, name, entry)
    decreases held.Keys - seen
  {
    LeadsToItself(held, name);
    var values, walked := held[name], seen + {name};
    var i := 0;
    if |values| != 1 {
      i := EntriesOfMany(held, name, values, walked, entry);
    }
    var value := values[i];
    if !SendsOn(value, |values| == 1) {
      assert HoldsStop(held, name, i, entry);
    } else if |values| == 1 && IsAlias(value) {
      EntryOfAlias(held, name, seen, entry);
    } else {
      var k := EntriesByFollowing(held, value.references, walked, entry);
      var reference := value.references[k];
      assert LeadsOn(held, name, reference);
      EntriesAreReal(held, reference, walked, entry);
      LeadsFurther(held, name, reference, entry.token);
    }
  }

  /** What an alias reports is what its one reference does, under its own name. */
  lemma {:induction false} EntryOfAlias(held: Held, name: Name, seen: set<Name>, entry: Unmeasurable)
    requires entry in ColoursOf(held, name, seen).unmeasurable
    requires |held[name]| == 1 && !held[name][0].isHex && IsAlias(held[name][0])
    ensures IsReal(held, name, entry) && entry.token == name
    decreases held.Keys - seen, 0
  {
    var reference := held[name][0].references[0];
    var found := ColoursOf(held, reference, seen + {name}).unmeasurable;
    assert LeadsOn(held, name, reference);
    var k :| 0 <= k < |found| && found[k].(token := name) == entry;
    EntriesAreReal(held, reference, seen + {name}, found[k]);
    var holder, i :| HoldsStop(held, holder, i, found[k]) && LeadsTo(held, reference, found[k].token) &&
                     LeadsTo(held, found[k].token, holder);
    LeadsThrough(held, reference, found[k].token, holder);
    LeadsFurther(held, name, reference, holder);
    LeadsToItself(held, name);
    assert HoldsStop(held, holder, i, entry);
  }

  lemma {:induction false} LeadsThrough(held: Held, name: Name, middle: Name, last: Name)
    requires LeadsTo(held, name, middle) && LeadsTo(held, middle, last)
    ensures LeadsTo(held, name, last)
  {
    var one :| IsWalk(held, one) && one[0] == name && one[|one| - 1] == middle;
    var other :| IsWalk(held, other) && other[0] == middle && other[|other| - 1] == last;
    var whole := one + other[1..];
    assert forall i :: |one| <= i < |whole| ==> whole[i] == other[i - |one| + 1];
    assert IsWalk(held, whole);
  }
}
