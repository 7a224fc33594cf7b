// frontend/scripts/audit-contrast/resolution.ts: the colours a custom property can end up as. What the regular
// expressions read of a value is given with it.
module Resolution {
  import opened Wrappers

  type Name = string

  datatype Reason = Inherited | Gradient | Transparency | Length

  /** A value as it is read: whether it is a six-digit hex, what it refers to, whether it is one reference and nothing
      else, and why no ratio describes it, if none does. */
  datatype Value = Value(text: string, isHex: bool, references: seq<Name>, isBare: bool, reason: Option<Reason>)

  type Held = map<Name, seq<Value>>

  datatype Unmeasurable = Unmeasurable(token: Name, value: string, reason: Reason)

  datatype Resolved = Resolved(tokens: set<Name>, unmeasurable: seq<Unmeasurable>)

  const NOTHING := Resolved({}, [])

  predicate IsAlias(value: Value) {
    |value.references| == 1 && value.isBare
  }

  // ---- What each name holds ----

  ghost predicate IsDeclared(declared: seq<(Name, Value)>, name: Name) {
    exists i :: 0 <= i < |declared| && declared[i].0 == name
  }

  /** One value is declared for a name before another one is. */
  ghost predicate ComesBefore(declared: seq<(Name, Value)>, name: Name, first: Value, second: Value) {
    exists i :: 0 <= i < |declared| && declared[i] == (name, first) && (name, second) !in declared[..i + 1]
  }

  /** The values declared for a name, each once, in the order they are first declared. */
  ghost predicate Holds(declared: seq<(Name, Value)>, held: Held) {
    && (forall name :: name in held <==> IsDeclared(declared, name))
    && (forall name :: name in held ==> AreDeclared(declared, name, held[name]))
    && forall name :: name in held ==> AreInOrder(declared, name, held[name])
  }

  ghost predicate AreDeclared(declared: seq<(Name, Value)>, name: Name, values: seq<Value>) {
    forall value :: value in values <==> (name, value) in declared
  }

  ghost predicate AreInOrder(declared: seq<(Name, Value)>, name: Name, values: seq<Value>) {
    forall j, k :: 0 <= j < k < |values| ==> ComesBefore(declared, name, values[j], values[k])
  }

  /** Gathers declarations by name: under each, every value declared for it, once. */
  method Assignments(declared: seq<(Name, Value)>) returns (held: Held)
    ensures Holds(declared, held)
  {
    held := map[];
    NothingHolds();
    hide Holds;
    for i := 0 to |declared|
      invariant Holds(declared[..i], held)
    {
      var (name, value) := declared[i];
      var values := if name in held then held[name] else [];
      ghost var before := held;
      if value !in values {
        values := values + [value];
      }
      held := held[name := values];
      OneMoreHolds(declared[..i], before, name, value, values, held);
      assert declared[..i + 1] == declared[..i] + [(name, value)];
    }
    assert declared[..|declared|] == declared;
  }

  lemma {:induction false} OneMoreHolds(declared: seq<(Name, Value)>, before: Held, name: Name, value: Value,
                                        values: seq<Value>, held: Held)
    requires Holds(declared, before) && held == before[name := values]
    requires var known := if name in before then before[name] else [];
             values == if value in known then known else known + [value]
    ensures Holds(declared + [(name, value)], held)
  {
    hide AreInOrder, IsDeclared, AreDeclared;
    forall each ensures each in held <==> IsDeclared(declared + [(name, value)], each) {
      OneMoreDeclared(declared, name, value, each);
    }
    forall each | each in held
      ensures AreDeclared(declared + [(name, value)], each, held[each])
      ensures AreInOrder(declared + [(name, value)], each, held[each])
    {
      var known := if each in before then before[each] else [];
      if each !in before {
        NoneDeclared(declared, each);
      }
      StillDeclared(declared, (name, value), each, known, held[each]);
      StillInOrder(declared, (name, value), each, known, held[each]);
    }
  }

  lemma {:induction false} NoneDeclared(declared: seq<(Name, Value)>, name: Name)
    requires !IsDeclared(declared, name)
    ensures AreDeclared(declared, name, []) && AreInOrder(declared, name, [])
  {
  }

  lemma {:induction false} StillDeclared(declared: seq<(Name, Value)>, more: (Name, Value), name: Name,
                                         known: seq<Value>, values: seq<Value>)
    requires AreDeclared(declared, name, known)
    requires values == if more.0 != name || more.1 in known then known else known + [more.1]
    ensures AreDeclared(declared + [more], name, values)
  {
  }

  lemma {:induction false} StillInOrder(declared: seq<(Name, Value)>, more: (Name, Value), name: Name,
                                        known: seq<Value>, values: seq<Value>)
    requires AreInOrder(declared, name, known) && AreDeclared(declared, name, known)
    requires values == if more.0 != name || more.1 in known then known else known + [more.1]
    ensures AreInOrder(declared + [more], name, values)
  {
    hide ComesBefore;
    forall j, k | 0 <= j < k < |values| ensures ComesBefore(declared + [more], name, values[j], values[k]) {
      if k < |known| {
        StillBefore(declared, more, name, known[j], known[k]);
      } else {
        NewComesLast(declared, name, known[j], more.1);
      }
    }
  }

  lemma {:induction false} StillBefore(declared: seq<(Name, Value)>, more: (Name, Value), name: Name, first: Value,
                                       second: Value)
    requires ComesBefore(declared, name, first, second)
    ensures ComesBefore(declared + [more], name, first, second)
  {
    var i :| 0 <= i < |declared| && declared[i] == (name, first) && (name, second) !in declared[..i + 1];
    assert (declared + [more])[..i + 1] == declared[..i + 1];
  }

  lemma {:induction false} NewComesLast(declared: seq<(Name, Value)>, name: Name, first: Value, value: Value)
    requires (name, first) in declared && (name, value) !in declared
    ensures ComesBefore(declared + [(name, value)], name, first, value)
  {
    var i :| 0 <= i < |declared| && declared[i] == (name, first);
    assert (declared + [(name, value)])[i] == (name, first);
    assert (declared + [(name, value)])[..i + 1] == declared[..i + 1];
  }

  lemma {:induction false} OneMoreDeclared(declared: seq<(Name, Value)>, name: Name, value: Value, each: Name)
    ensures IsDeclared(declared + [(name, value)], each) <==> IsDeclared(declared, each) || each == name
  {
    var longer := declared + [(name, value)];
    assert longer[|declared|] == (name, value);
    if IsDeclared(declared, each) {
      var i :| 0 <= i < |declared| && declared[i].0 == each;
      assert longer[i] == declared[i];
    }
  }

  lemma {:induction false} NothingHolds()
    ensures Holds([], map[])
  {
  }

  // ---- Resolving ----

  /** What a name comes to when the names in `seen` are already being resolved, and so are not entered again. */
  function ColoursOf(held: Held, name: Name, seen: set<Name>): Resolved
    decreases held.Keys - seen, 2, 0
  {
    if name in seen || name !in held then NOTHING
    else if |held[name]| == 1 then FromOne(held, name, held[name][0], seen + {name})
    else FromMany(held, name, held[name], seen + {name})
  }

  /** What several references resolve to, together. */
  function FollowAll(held: Held, references: seq<Name>, walked: set<Name>): Resolved
    decreases held.Keys - walked, 3, |references|
  {
    if references == [] then NOTHING
    else
      var first := ColoursOf(held, references[|references| - 1], walked);
      var rest := FollowAll(held, references[..|references| - 1], walked);
      Resolved(rest.tokens + first.tokens, rest.unmeasurable + first.unmeasurable)
  }

  /** A name with several values: the results of them all, in order, joined. */
  function FromMany(held: Held, name: Name, values: seq<Value>, walked: set<Name>): Resolved
    decreases held.Keys - walked, 4, |values|
  {
    if values == [] then NOTHING
    else
      var value := values[|values| - 1];
      var rest := FromMany(held, name, values[..|values| - 1], walked);
      if value.isHex then Resolved(rest.tokens + {name}, rest.unmeasurable)
      else match value.reason
        case Some(reason) => Resolved(rest.tokens, rest.unmeasurable + [Unmeasurable(name, value.text, reason)])
        case None =>
          var followed := FollowAll(held, value.references, walked);
          Resolved(rest.tokens + followed.tokens, rest.unmeasurable + followed.unmeasurable)
  }

  /** The same entries, in order, under another name. */
  function Renamed(found: seq<Unmeasurable>, token: Name): seq<Unmeasurable> {
    seq(|found|, k requires 0 <= k < |found| => found[k].(token := token))
  }

  method RenameAll(found: seq<Unmeasurable>, token: Name) returns (under: seq<Unmeasurable>)
    ensures under == Renamed(found, token)
  {
    under := [];
    for i := 0 to |found|
      invariant under == Renamed(found, token)[..i]
    {
      under := under + [Unmeasurable(token, found[i].value, found[i].reason)];
    }
  }

  /** A name with one value. An alias takes over what its reference comes to: one colour becomes the alias's own, and
      what could not be measured is put under the alias's name. */
  function FromOne(held: Held, name: Name, value: Value, walked: set<Name>): Resolved
    decreases held.Keys - walked, 4, 0
  {
    if value.isHex then Resolved({name}, [])
    else if IsAlias(value) then
      var followed := ColoursOf(held, value.references[0], walked);
      Resolved(if |followed.tokens| == 1 then {name} else followed.tokens, Renamed(followed.unmeasurable, name))
    else match value.reason
      case Some(reason) => Resolved({}, [Unmeasurable(name, value.text, reason)])
      case None => FollowAll(held, value.references, walked)
  }

  method Colours(held: Held, name: Name, seen: set<Name>) returns (resolved: Resolved)
    ensures resolved == ColoursOf(held, name, seen)
    decreases held.Keys - seen, 2, 0
  {
    if name in seen || name !in held {
      return NOTHING;
    }
    var walked := seen + {name};
    var values := held[name];
    if |values| == 1 {
      resolved := ColoursFromOne(held, name, values[0], walked);
      return;
    }
    resolved := NOTHING;
    for i := 0 to |values|
      invariant resolved == FromMany(held, name, values[..i], walked)
    {
      var value := values[i];
      ghost var before := values[..i + 1];
      assert before[..i] == values[..i] && before[i] == value;
      if value.isHex {
        resolved := resolved.(tokens := resolved.tokens + {name});
      } else if value.reason != None {
        var found := Unmeasurable(name, value.text, value.reason.value);
        resolved := resolved.(unmeasurable := resolved.unmeasurable + [found]);
      } else {
        var followed := Follow(held, value.references, walked);
        resolved := Resolved(resolved.tokens + followed.tokens, resolved.unmeasurable + followed.unmeasurable);
      }
    }
    assert values[..|values|] == values;
  }

  method Follow(held: Held, references: seq<Name>, walked: set<Name>) returns (resolved: Resolved)
    ensures resolved == FollowAll(held, references, walked)
    decreases held.Keys - walked, 3, 0
  {
    resolved := NOTHING;
    for i := 0 to |references|
      invariant resolved == FollowAll(held, references[..i], walked)
    {
      ghost var before := references[..i + 1];
      assert before[..i] == references[..i] && before[i] == references[i];
      var followed := Colours(held, references[i], walked);
      resolved := Resolved(resolved.tokens + followed.tokens, resolved.unmeasurable + followed.unmeasurable);
    }
    assert references[..|references|] == references;
  }

  method ColoursFromOne(held: Held, name: Name, value: Value, walked: set<Name>) returns (resolved: Resolved)
    ensures resolved == FromOne(held, name, value, walked)
    decreases held.Keys - walked, 4, 0
  {
    if value.isHex {
      return Resolved({name}, []);
    }
    if IsAlias(value) {
      var followed := Colours(held, value.references[0], walked);
      var under := RenameAll(followed.unmeasurable, name);
      return Resolved(if |followed.tokens| == 1 then {name} else followed.tokens, under);
    }
    if value.reason != None {
      return Resolved({}, [Unmeasurable(name, value.text, value.reason.value)]);
    }
    resolved := Follow(held, value.references, walked);
  }
}
