// frontend/scripts/check-imports/check.ts: what is found wrong with a kit file's imports. The source text, the
// imports in it and what each specifier resolves to are given, as one graph.
module CheckImports {
  import opened Wrappers
  import opened Zones

  type File = string

  /** One import as written: assembled at runtime, or a literal and the file it resolves to, if any. */
  datatype Site = Site(computed: bool, target: Option<File>)

  /** The files there are, what each imports, and where each is relative to `src/`. */
  datatype Tree = Tree(files: set<File>, sites: map<File, seq<Site>>, relative: map<File, string>)

  ghost predicate IsTree(tree: Tree) {
    && tree.sites.Keys == tree.files && tree.relative.Keys == tree.files
    && forall file, i :: file in tree.files && 0 <= i < |tree.sites[file]| && tree.sites[file][i].target.Some? ==>
         tree.sites[file][i].target.value in tree.files
  }

  function AreaOfFile(tree: Tree, file: File): Option<Area>
    requires file in tree.relative
  {
    AreaOf(tree.relative[file])
  }

  predicate IsConduit(tree: Tree, file: File) {
    file in tree.relative && AreaOfFile(tree, file).Some? && AreaOfFile(tree, file).value in CONDUITS
  }

  /** A package, or in an area the zone may reach. */
  predicate IsAllowed(tree: Tree, zone: Area, file: File)
    requires file in tree.relative && IsZone(zone)
  {
    match AreaOfFile(tree, file)
    case None => !IsUnderSourceRoot(tree.relative[file])
    case Some(area) => area in Reachable(zone).value
  }

  /** A literal import of one file by another. */
  ghost predicate Imports(tree: Tree, from: File, file: File) {
    from in tree.sites && Site(false, Some(file)) in tree.sites[from]
  }

  ghost predicate IsChain(tree: Tree, chain: seq<File>) {
    && (forall i :: 0 <= i < |chain| ==> chain[i] in tree.files)
    && forall i :: 0 < i < |chain| ==> Imports(tree, chain[i - 1], chain[i])
  }

  /** Every file but the last is a conduit. */
  ghost predicate RunsThroughConduits(tree: Tree, chain: seq<File>) {
    forall i :: 0 <= i < |chain| - 1 ==> IsConduit(tree, chain[i])
  }

  datatype Denial = Denial(resolved: File, chain: seq<File>)

  /** A chain of conduits from an entry, none of them seen before, to a file the zone may not reach. */
  ghost predicate IsAstray(tree: Tree, zone: Area, entry: File, seen: set<File>, chain: seq<File>)
    requires IsTree(tree) && IsZone(zone)
  {
    && |chain| >= 2 && chain[0] == entry && IsChain(tree, chain) && RunsThroughConduits(tree, chain)
    && (forall i :: 0 <= i < |chain| - 1 ==> chain[i] !in seen)
    && !IsAllowed(tree, zone, chain[|chain| - 1])
  }

  /** A denied file, and a real chain of conduits from an entry to it: as short as any there is. */
  ghost predicate IsDenial(tree: Tree, zone: Area, entry: File, seen: set<File>, denial: Denial)
    requires IsTree(tree) && IsZone(zone)
  {
    && IsAstray(tree, zone, entry, seen, denial.chain) && denial.chain[|denial.chain| - 1] == denial.resolved
    && forall chain :: IsAstray(tree, zone, entry, seen, chain) ==> |denial.chain| <= |chain|
  }

  /** A chain of conduits from an entry, none of them seen before. */
  ghost predicate IsTrail(tree: Tree, entry: File, seen: set<File>, chain: seq<File>) {
    && |chain| >= 1 && chain[0] == entry && IsChain(tree, chain)
    && forall i :: 0 <= i < |chain| ==> IsConduit(tree, chain[i]) && chain[i] !in seen
  }

  /** The conduits to be got to from an entry through conduits not seen before, itself among them. */
  ghost predicate IsInReach(tree: Tree, entry: File, seen: set<File>, file: File) {
    exists chain :: IsTrail(tree, entry, seen, chain) && chain[|chain| - 1] == file
  }

  datatype Step = Step(file: File, chain: seq<File>)

  /** A queued conduit and the chain of conduits that got there, of which all before it were new. */
  ghost predicate IsStep(tree: Tree, entry: File, seen: set<File>, step: Step) {
    && |step.chain| >= 1 && step.chain[0] == entry && step.chain[|step.chain| - 1] == step.file
    && IsChain(tree, step.chain) && IsConduit(tree, step.file) && RunsThroughConduits(tree, step.chain)
    && forall i :: 0 <= i < |step.chain| - 1 ==> step.chain[i] !in seen
  }

  ghost predicate IsQueued(queue: seq<Step>, file: File, length: nat) {
    exists i :: 0 <= i < |queue| && queue[i].file == file && |queue[i].chain| <= length
  }

  /** Whatever a file imports is allowed, and each conduit among it is seen. */
  ghost predicate IsWalked(tree: Tree, zone: Area, file: File, seen: set<File>)
    requires IsTree(tree) && IsZone(zone)
  {
    forall target :: Imports(tree, file, target) ==>
      target in tree.files && IsAllowed(tree, zone, target) && (IsConduit(tree, target) ==> target in seen)
  }

  /** Of one file searched: what it imports is allowed, and the conduits among it are seen, searched or queued, within
      one import more. */
  ghost predicate IsSearched(tree: Tree, zone: Area, file: File, seen: set<File>, depth: map<File, nat>,
                             queue: seq<Step>)
    requires IsTree(tree) && IsZone(zone) && file in depth
  {
    forall target :: Imports(tree, file, target) ==>
      && target in tree.files && IsAllowed(tree, zone, target)
      && (IsConduit(tree, target) ==> IsCloseBy(target, seen, depth, queue, depth[file] + 1))
  }

  ghost predicate IsCloseBy(file: File, seen: set<File>, depth: map<File, nat>, queue: seq<Step>, length: nat) {
    file in seen || (file in depth && depth[file] <= length) || IsQueued(queue, file, length)
  }

  /** How a search stands: how far each file searched is from the entry, and a queue in order of how far each step is,
      none nearer than what was searched. */
  ghost predicate IsSearch(tree: Tree, zone: Area, entry: File, seen: set<File>, depth: map<File, nat>,
                           queue: seq<Step>)
    requires IsTree(tree) && IsZone(zone)
  {
    && (forall i :: 0 <= i < |queue| ==> IsStep(tree, entry, seen, queue[i]))
    && (forall i, j :: 0 <= i < j < |queue| ==> |queue[i].chain| <= |queue[j].chain| <= |queue[0].chain| + 1)
    && (forall file, i :: file in depth && 0 <= i < |queue| ==> depth[file] <= |queue[i].chain|)
    && (forall file :: file in depth ==> file !in seen && IsInReach(tree, entry, seen, file))
    && (forall file :: file in depth ==> IsSearched(tree, zone, file, seen, depth, queue))
    && IsCloseBy(entry, seen, depth, queue, 1)
  }

  lemma {:induction false} ImportedIsHeld(tree: Tree, from: File, file: File)
    requires IsTree(tree) && Imports(tree, from, file)
    ensures file in tree.files
  {
    var i :| 0 <= i < |tree.sites[from]| && tree.sites[from][i] == Site(false, Some(file));
  }

  lemma {:induction false} ChainGrows(tree: Tree, entry: File, seen: set<File>, step: Step, file: File)
    requires IsTree(tree) && IsStep(tree, entry, seen, step) && step.file !in seen && Imports(tree, step.file, file)
    ensures var chain := step.chain + [file];
            && IsChain(tree, chain) && RunsThroughConduits(tree, chain) && chain[0] == entry
            && forall i :: 0 <= i < |chain| - 1 ==> chain[i] !in seen
  {
    ImportedIsHeld(tree, step.file, file);
  }

  /** Along a chain of new conduits each file has been searched, no further from the entry than it stands; or a step is
      queued no longer than the chain. */
  lemma {:induction false} SearchedAlong(tree: Tree, zone: Area, entry: File, seen: set<File>, depth: map<File, nat>,
                                         queue: seq<Step>, chain: seq<File>)
    requires IsTree(tree) && IsZone(zone) && IsSearch(tree, zone, entry, seen, depth, queue)
    requires IsTrail(tree, entry, seen, chain)
    ensures (chain[|chain| - 1] in depth && depth[chain[|chain| - 1]] <= |chain|) ||
            (queue != [] && |queue[0].chain| <= |chain|)
    decreases |chain|
  {
    hide IsTree, IsStep, IsInReach, IsSearched, IsConduit, Imports, IsChain, IsAllowed;
    if |chain| > 1 {
      var rest, before, last := chain[..|chain| - 1], chain[|chain| - 2], chain[|chain| - 1];
      TrailWithoutLast(tree, entry, seen, chain);
      SearchedAlong(tree, zone, entry, seen, depth, queue, rest);
      if before in depth && depth[before] <= |rest| {
        SearchedAllows(tree, zone, entry, seen, depth, queue, before, last);
        FirstIsNearest(queue, last, depth[before] + 1);
      }
    } else {
      FirstIsNearest(queue, entry, 1);
    }
  }

  lemma {:induction false} FirstIsNearest(queue: seq<Step>, file: File, length: nat)
    requires forall i, j :: 0 <= i < j < |queue| ==> |queue[i].chain| <= |queue[j].chain|
    ensures IsQueued(queue, file, length) ==> queue != [] && |queue[0].chain| <= length
  {
  }

  /** So no chain astray is shorter than the next step and one import more; and with nothing queued there is none. */
  lemma {:induction false} NoneIsShorter(tree: Tree, zone: Area, entry: File, seen: set<File>, depth: map<File, nat>,
                                         queue: seq<Step>, chain: seq<File>)
    requires IsTree(tree) && IsZone(zone) && IsSearch(tree, zone, entry, seen, depth, queue)
    requires IsAstray(tree, zone, entry, seen, chain)
    ensures queue != [] && |queue[0].chain| + 1 <= |chain|
  {
    var rest, last := chain[..|chain| - 1], chain[|chain| - 1];
    assert IsTrail(tree, entry, seen, rest);
    SearchedAlong(tree, zone, entry, seen, depth, queue, rest);
    var before := rest[|rest| - 1];
    assert Imports(tree, before, last) by { assert chain[|chain| - 2] == before; }
    if before in depth {
      SearchedAllows(tree, zone, entry, seen, depth, queue, before, last);
    }
  }

  lemma {:induction false} SearchedAllows(tree: Tree, zone: Area, entry: File, seen: set<File>, depth: map<File, nat>,
                                          queue: seq<Step>, file: File, target: File)
    requires IsTree(tree) && IsZone(zone) && IsSearch(tree, zone, entry, seen, depth, queue)
    requires file in depth && Imports(tree, file, target)
    ensures target in tree.files && IsAllowed(tree, zone, target)
    ensures IsConduit(tree, target) ==> IsCloseBy(target, seen, depth, queue, depth[file] + 1)
  {
    hide IsStep, IsInReach;
    assert IsSearched(tree, zone, file, seen, depth, queue);
  }

  lemma {:induction false} TrailWithoutLast(tree: Tree, entry: File, seen: set<File>, chain: seq<File>)
    requires IsTrail(tree, entry, seen, chain) && |chain| > 1
    ensures IsTrail(tree, entry, seen, chain[..|chain| - 1])
    ensures Imports(tree, chain[|chain| - 2], chain[|chain| - 1])
    ensures IsConduit(tree, chain[|chain| - 1]) && chain[|chain| - 1] !in seen
  {
    hide IsConduit, Imports;
  }

  /** One file's imports, in order: the first denied one ends the walk, and conduits among the others are queued. */
  method WalkSites(tree: Tree, zone: Area, ghost entry: File, ghost seen: set<File>, step: Step, queue: seq<Step>)
    returns (denial: Option<Denial>, longer: seq<Step>)
    requires IsTree(tree) && IsZone(zone) && IsStep(tree, entry, seen, step) && step.file !in seen
    ensures queue <= longer
    ensures forall i :: |queue| <= i < |longer| ==>
              IsStep(tree, entry, seen, longer[i]) && longer[i].chain == step.chain + [longer[i].file]
    ensures denial.Some? ==> IsFirstDenied(tree, zone, tree.sites[step.file], denial.value.resolved)
    ensures denial.Some? ==> IsAstray(tree, zone, entry, seen, denial.value.chain) &&
                             denial.value.chain == step.chain + [denial.value.resolved]
    ensures denial.None? ==> forall target :: Imports(tree, step.file, target) ==>
              && target in tree.files && IsAllowed(tree, zone, target)
              && (IsConduit(tree, target) ==> IsQueued(longer, target, |step.chain| + 1))
  {
    longer := queue;
    var sites := tree.sites[step.file];
    for i := 0 to |sites|
      invariant queue <= longer
      invariant forall k :: |queue| <= k < |longer| ==>
                  IsStep(tree, entry, seen, longer[k]) && longer[k].chain == step.chain + [longer[k].file]
      invariant forall k :: 0 <= k < i && !sites[k].computed && sites[k].target.Some? ==>
                  && sites[k].target.value in tree.files && IsAllowed(tree, zone, sites[k].target.value)
                  && (IsConduit(tree, sites[k].target.value) ==>
                        IsQueued(longer, sites[k].target.value, |step.chain| + 1))
    {
      var site := sites[i];
      if !site.computed && site.target.Some? {
        var resolved := site.target.value;
        assert site == Site(false, Some(resolved)) && Imports(tree, step.file, resolved);
        ChainGrows(tree, entry, seen, step, resolved);
        var chain := step.chain + [resolved];
        if !IsAllowed(tree, zone, resolved) {
          return Some(Denial(resolved, chain)), longer;
        }
        if IsConduit(tree, resolved) {
          ghost var before := longer;
          longer := longer + [Step(resolved, chain)];
          QueueGrows(before, Step(resolved, chain));
        }
      }
    }
    forall target | Imports(tree, step.file, target)
      ensures target in tree.files && IsAllowed(tree, zone, target)
      ensures IsConduit(tree, target) ==> IsQueued(longer, target, |step.chain| + 1)
    {
      var k :| 0 <= k < |sites| && sites[k] == Site(false, Some(target));
    }
    denial := None;
  }

  /** Of a file's imports, the first one denied. */
  ghost predicate IsFirstDenied(tree: Tree, zone: Area, sites: seq<Site>, resolved: File)
    requires IsTree(tree) && IsZone(zone)
  {
    exists k :: 0 <= k < |sites| && sites[k] == Site(false, Some(resolved)) && IsDenied(tree, zone, sites[k]) &&
                forall j :: 0 <= j < k ==> !IsDenied(tree, zone, sites[j])
  }

  ghost predicate IsDenied(tree: Tree, zone: Area, site: Site)
    requires IsTree(tree) && IsZone(zone)
  {
    && !site.computed && site.target.Some? && site.target.value in tree.relative
    && !IsAllowed(tree, zone, site.target.value)
  }

  lemma {:induction false} QueueGrows(queue: seq<Step>, step: Step)
    ensures forall file, length: nat :: IsQueued(queue, file, length) ==> IsQueued(queue + [step], file, length)
    ensures IsQueued(queue + [step], step.file, |step.chain|)
  {
    assert (queue + [step])[|queue|] == step;
    forall file, length: nat | IsQueued(queue, file, length) ensures IsQueued(queue + [step], file, length) {
      var i :| 0 <= i < |queue| && queue[i].file == file && |queue[i].chain| <= length;
      assert (queue + [step])[i].file == file;
    }
  }

  lemma {:induction false} QueueLengthens(queue: seq<Step>, longer: seq<Step>, file: File, length: nat)
    requires queue <= longer && IsQueued(queue, file, length)
    ensures IsQueued(longer, file, length)
  {
    var i :| 0 <= i < |queue| && queue[i].file == file && |queue[i].chain| <= length;
    assert longer[i] == queue[i];
  }

  lemma {:induction false} QueueShifts(queue: seq<Step>, file: File, length: nat)
    requires queue != [] && IsQueued(queue, file, length) && (file != queue[0].file || length < |queue[0].chain|)
    ensures IsQueued(queue[1..], file, length)
  {
    var i :| 0 <= i < |queue| && queue[i].file == file && |queue[i].chain| <= length;
    assert queue[1..][i - 1].file == file;
  }

  /** The first step leads to a file searched already. */
  lemma {:induction false} StepIsDropped(tree: Tree, zone: Area, entry: File, seen: set<File>, depth: map<File, nat>,
                                         queue: seq<Step>)
    requires IsTree(tree) && IsZone(zone) && IsSearch(tree, zone, entry, seen, depth, queue) && queue != []
    requires queue[0].file in seen || queue[0].file in depth
    ensures IsSearch(tree, zone, entry, seen, depth, queue[1..])
  {
    hide IsStep, IsInReach, IsTree;
    var rest := queue[1..];
    forall file, length: nat | IsCloseBy(file, seen, depth, queue, length)
      ensures IsCloseBy(file, seen, depth, rest, length)
    {
      StaysCloseBy(seen, depth, queue, depth, rest, file, length);
    }
    forall file | file in depth ensures IsSearched(tree, zone, file, seen, depth, rest) {
      assert IsSearched(tree, zone, file, seen, depth, queue);
    }
  }

  lemma {:induction false} StaysCloseBy(seen: set<File>, depth: map<File, nat>, queue: seq<Step>,
                                        deeper: map<File, nat>, rest: seq<Step>, file: File, length: nat)
    requires queue != [] && rest == queue[1..] && IsCloseBy(file, seen, depth, queue, length)
    requires forall other :: other in depth ==> other in deeper && deeper[other] == depth[other]
    requires queue[0].file in seen || (queue[0].file in deeper && deeper[queue[0].file] <= |queue[0].chain|)
    ensures IsCloseBy(file, seen, deeper, rest, length)
  {
    if file !in seen && !(file in depth && depth[file] <= length) {
      if file != queue[0].file || length < |queue[0].chain| {
        QueueShifts(queue, file, length);
      }
    }
  }

  lemma {:induction false} StepIsInReach(tree: Tree, entry: File, seen: set<File>, step: Step)
    requires IsStep(tree, entry, seen, step) && step.file !in seen
    ensures IsInReach(tree, entry, seen, step.file)
  {
    assert IsTrail(tree, entry, seen, step.chain);
  }

  /** The first step's file is searched, its imports queued behind the others. */
  lemma {:induction false} StepIsTaken(tree: Tree, zone: Area, entry: File, seen: set<File>, depth: map<File, nat>,
                                       queue: seq<Step>, deeper: map<File, nat>, longer: seq<Step>)
    requires IsTree(tree) && IsZone(zone) && IsSearch(tree, zone, entry, seen, depth, queue) && queue != []
    requires var step := queue[0];
             && step.file !in seen && step.file !in depth && deeper == depth[step.file := |step.chain|]
             && queue[1..] <= longer
             && (forall i :: |queue| - 1 <= i < |longer| ==>
                   IsStep(tree, entry, seen, longer[i]) && longer[i].chain == step.chain + [longer[i].file])
             && forall target :: Imports(tree, step.file, target) ==>
                  && target in tree.files && IsAllowed(tree, zone, target)
                  && (IsConduit(tree, target) ==> IsQueued(longer, target, |step.chain| + 1))
    ensures IsSearch(tree, zone, entry, seen, deeper, longer)
  {
    hide IsTree, IsInReach, IsStep;
    var step, rest := queue[0], queue[1..];
    StepIsInReach(tree, entry, seen, step);
    forall file, length: nat | IsCloseBy(file, seen, depth, queue, length)
      ensures IsCloseBy(file, seen, deeper, longer, length)
    {
      StaysCloseBy(seen, depth, queue, deeper, rest, file, length);
      if IsQueued(rest, file, length) {
        QueueLengthens(rest, longer, file, length);
      }
    }
    forall file | file in deeper ensures IsSearched(tree, zone, file, seen, deeper, longer) {
      if file != step.file {
        assert IsSearched(tree, zone, file, seen, depth, queue);
      }
    }
    assert forall i :: 0 <= i < |rest| ==> longer[i] == rest[i] == queue[i + 1];
  }

  /** A denial if, and only if, a chain of new conduits leads from `entry` to a denied file: the first on a shortest
      such chain. With none, `more` is `seen` and all that such chains get to, so that a later walk of the same kit
      file need not go there again. */
  method DenialReachedThrough(tree: Tree, zone: Area, entry: File, seen: set<File>)
    returns (denial: Option<Denial>, more: set<File>)
    requires IsTree(tree) && IsZone(zone) && entry in tree.files && IsConduit(tree, entry) && seen <= tree.files
    ensures seen <= more <= tree.files
    ensures denial.Some? ==> IsDenial(tree, zone, entry, seen, denial.value)
    ensures denial.None? ==> forall chain :: !IsAstray(tree, zone, entry, seen, chain)
    ensures forall file :: file in more && file !in seen ==> IsInReach(tree, entry, seen, file)
    ensures denial.None? ==> forall file :: IsInReach(tree, entry, seen, file) ==> file in more
    ensures denial.None? ==> entry in more
    ensures denial.None? ==> forall file :: file in more && file !in seen ==> IsWalked(tree, zone, file, more)
  {
    var queue := [Step(entry, [entry])];
    more := seen;
    ghost var depth: map<File, nat> := map[];
    assert queue[0].file == entry && |queue[0].chain| == 1;
    hide IsSearch;
    SearchStarts(tree, zone, entry, seen);
    while queue != []
      invariant seen <= more <= tree.files && more == seen + depth.Keys
      invariant IsSearch(tree, zone, entry, seen, depth, queue)
      decreases tree.files - more, |queue|
    {
      var step := queue[0];
      ghost var before := queue;
      StepsAre(tree, zone, entry, seen, depth, queue);
      queue := queue[1..];
      if step.file in more {
        StepIsDropped(tree, zone, entry, seen, depth, before);
        continue;
      }
      assert step.chain[|step.chain| - 1] in tree.files;
      more := more + {step.file};
      denial, queue := WalkSites(tree, zone, entry, seen, step, queue);
      if denial.Some? {
        forall chain | IsAstray(tree, zone, entry, seen, chain) ensures |denial.value.chain| <= |chain| {
          NoneIsShorter(tree, zone, entry, seen, depth, before, chain);
        }
        StepIsInReach(tree, entry, seen, step);
        SearchedIsInReach(tree, zone, entry, seen, depth, before);
        return;
      }
      StepIsTaken(tree, zone, entry, seen, depth, before, depth[step.file := |step.chain|], queue);
      depth := depth[step.file := |step.chain|];
    }
    denial := None;
    SearchEnds(tree, zone, entry, seen, depth);
  }

  lemma {:induction false} SearchStarts(tree: Tree, zone: Area, entry: File, seen: set<File>)
    requires IsTree(tree) && IsZone(zone) && entry in tree.files && IsConduit(tree, entry)
    ensures IsSearch(tree, zone, entry, seen, map[], [Step(entry, [entry])])
  {
    var queue := [Step(entry, [entry])];
    assert queue[0].file == entry && |queue[0].chain| == 1;
    assert IsQueued(queue, entry, 1);
  }

  lemma {:induction false} StepsAre(tree: Tree, zone: Area, entry: File, seen: set<File>, depth: map<File, nat>,
                                    queue: seq<Step>)
    requires IsTree(tree) && IsZone(zone) && IsSearch(tree, zone, entry, seen, depth, queue)
    ensures forall i :: 0 <= i < |queue| ==> IsStep(tree, entry, seen, queue[i])
  {
  }

  lemma {:induction false} SearchedIsInReach(tree: Tree, zone: Area, entry: File, seen: set<File>,
                                             depth: map<File, nat>, queue: seq<Step>)
    requires IsTree(tree) && IsZone(zone) && IsSearch(tree, zone, entry, seen, depth, queue)
    ensures forall file :: file in depth ==> IsInReach(tree, entry, seen, file)
  {
  }

  lemma {:induction false} SearchEnds(tree: Tree, zone: Area, entry: File, seen: set<File>, depth: map<File, nat>)
    requires IsTree(tree) && IsZone(zone) && IsSearch(tree, zone, entry, seen, depth, [])
    ensures forall chain :: !IsAstray(tree, zone, entry, seen, chain)
    ensures forall file :: file in depth ==> IsInReach(tree, entry, seen, file)
    ensures forall file :: IsInReach(tree, entry, seen, file) ==> file in depth
    ensures entry in seen + depth.Keys
    ensures forall file :: file in depth ==> IsWalked(tree, zone, file, seen + depth.Keys)
  {
    hide IsAstray;
    forall chain ensures !IsAstray(tree, zone, entry, seen, chain) {
      if IsAstray(tree, zone, entry, seen, chain) {
        NoneIsShorter(tree, zone, entry, seen, depth, [], chain);
      }
    }
    forall file | IsInReach(tree, entry, seen, file) ensures file in depth {
      var chain :| IsTrail(tree, entry, seen, chain) && chain[|chain| - 1] == file;
      SearchedAlong(tree, zone, entry, seen, depth, [], chain);
    }
    forall file | file in depth ensures IsWalked(tree, zone, file, seen + depth.Keys) {
      assert IsSearched(tree, zone, file, seen, depth, []);
    }
  }

  datatype Finding =
    | UnmodelledZone(file: File)
    | ComputedSpecifier(file: File, site: nat)
    | UnresolvedImport(file: File, site: nat)
    | UnmodelledArea(file: File, site: nat, resolved: File)
    | ImportZone(file: File, site: nat, area: Area, resolved: File)
    | ThroughChain(file: File, site: nat, denial: Denial)

  /** What a finding says of the tree. A chain's finding names real imports, through conduits only. */
  ghost predicate IsTrue(tree: Tree, finding: Finding)
    requires IsTree(tree)
  {
    && finding.file in tree.files
    && var zone := AreaOfFile(tree, finding.file);
    if finding.UnmodelledZone? then zone.None? || !IsZone(zone.value)
    else
      && zone.Some? && IsZone(zone.value) && finding.site < |tree.sites[finding.file]|
      && var site := tree.sites[finding.file][finding.site];
      match finding
      case ComputedSpecifier(_, _) => site.computed
      case UnresolvedImport(_, _) => !site.computed && site.target.None?
      case UnmodelledArea(_, _, resolved) =>
        && site == Site(false, Some(resolved)) && resolved in tree.files
        && AreaOfFile(tree, resolved).None? && IsUnderSourceRoot(tree.relative[resolved])
      case ImportZone(_, _, area, resolved) =>
        && site == Site(false, Some(resolved)) && resolved in tree.files
        && AreaOfFile(tree, resolved) == Some(area) && area !in Reachable(zone.value).value
      case ThroughChain(file, _, denial) =>
        && !site.computed && site.target.Some? && IsAllowed(tree, zone.value, site.target.value)
        && IsAstray(tree, zone.value, site.target.value, {}, denial.chain) &&
           denial.chain[|denial.chain| - 1] == denial.resolved
      case UnmodelledZone(_) => false
  }

  /** What one import of a kit file has to be for no finding to name it. */
  ghost predicate IsCleanSite(tree: Tree, zone: Area, site: Site, seen: set<File>)
    requires IsTree(tree) && IsZone(zone)
  {
    && !site.computed && site.target.Some?
    && site.target.value in tree.files && IsAllowed(tree, zone, site.target.value)
    && (IsConduit(tree, site.target.value) ==> site.target.value in seen)
  }

  /** A set of files that a zone's walks have been all through. */
  ghost predicate IsClosed(tree: Tree, zone: Area, file: File, seen: set<File>)
    requires IsTree(tree) && IsZone(zone)
  {
    forall other :: other in seen && other != file ==> IsWalked(tree, zone, other, seen)
  }

  lemma {:induction false} ClosedGrows(tree: Tree, zone: Area, file: File, seen: set<File>, more: set<File>)
    requires IsTree(tree) && IsZone(zone) && IsClosed(tree, zone, file, seen) && seen <= more
    requires forall other :: other in more && other !in seen ==> IsWalked(tree, zone, other, more)
    ensures IsClosed(tree, zone, file, more)
  {
    forall other | other in more && other != file ensures IsWalked(tree, zone, other, more) {
      if other in seen {
        assert IsWalked(tree, zone, other, seen);
      }
    }
  }

  function Joined(reports: seq<seq<Finding>>): seq<Finding> {
    if reports == [] then [] else Joined(reports[..|reports| - 1]) + reports[|reports| - 1]
  }

  /** What is reported of one import, when the walks of the file have been through `seen`, and what they have been
      through afterwards. */
  ghost predicate IsSiteReport(tree: Tree, file: File, zone: Area, at: nat, seen: set<File>, more: set<File>,
                               report: seq<Finding>)
    requires IsTree(tree) && IsZone(zone) && file in tree.files && at < |tree.sites[file]|
  {
    var site := tree.sites[file][at];
    if site.computed then report == [ComputedSpecifier(file, at)] && more == seen
    else if site.target.None? then report == [UnresolvedImport(file, at)] && more == seen
    else
      var resolved := site.target.value;
      && resolved in tree.files
      && var area := AreaOfFile(tree, resolved);
      if !IsAllowed(tree, zone, resolved) then
        && more == seen
        && report == [if area.None? then UnmodelledArea(file, at, resolved)
                      else ImportZone(file, at, area.value, resolved)]
      else if !IsConduit(tree, resolved) then report == [] && more == seen
      else IsWalkReport(tree, file, zone, at, resolved, seen, more, report)
  }

  /** What is reported of a conduit that a kit file imports. */
  ghost predicate IsWalkReport(tree: Tree, file: File, zone: Area, at: nat, entry: File, seen: set<File>,
                               more: set<File>, report: seq<Finding>)
    requires IsTree(tree) && IsZone(zone)
  {
    && seen <= more && (forall other :: other in more && other !in seen ==> IsInReach(tree, entry, seen, other))
    && if exists chain :: IsAstray(tree, zone, entry, seen, chain) then
         |report| == 1 && report[0].ThroughChain? && report[0].file == file && report[0].site == at &&
         IsDenial(tree, zone, entry, seen, report[0].denial)
       else report == [] && forall other :: IsInReach(tree, entry, seen, other) ==> other in more
  }

  /** The findings of a kit file's imports, in order, where the walks have been through more and more files. */
  ghost predicate AreSiteReports(tree: Tree, file: File, zone: Area, upTo: nat, visits: seq<set<File>>,
                                 reports: seq<seq<Finding>>)
    requires IsTree(tree) && IsZone(zone) && file in tree.files && upTo <= |tree.sites[file]|
  {
    && |reports| == upTo && |visits| == upTo + 1 && visits[0] == {file}
    && forall i :: 0 <= i < upTo ==> IsSiteReport(tree, file, zone, i, visits[i], visits[i + 1], reports[i])
  }

  /** Exactly what is reported of one kit file. */
  ghost predicate IsFileReport(tree: Tree, file: File, findings: seq<Finding>)
    requires IsTree(tree) && file in tree.files
  {
    var zone := AreaOfFile(tree, file);
    if zone.None? || !IsZone(zone.value) then findings == [UnmodelledZone(file)]
    else exists visits, reports ::
           && AreSiteReports(tree, file, zone.value, |tree.sites[file]|, visits, reports)
           && findings == Joined(reports)
  }

  lemma {:induction false} OneMoreReport(tree: Tree, file: File, zone: Area, at: nat, visits: seq<set<File>>,
                                         reports: seq<seq<Finding>>, more: set<File>, report: seq<Finding>)
    requires IsTree(tree) && IsZone(zone) && file in tree.files && at < |tree.sites[file]|
    requires AreSiteReports(tree, file, zone, at, visits, reports)
    requires IsSiteReport(tree, file, zone, at, visits[at], more, report)
    ensures AreSiteReports(tree, file, zone, at + 1, visits + [more], reports + [report])
    ensures Joined(reports + [report]) == Joined(reports) + report
  {
    hide IsSiteReport;
    assert (reports + [report])[..at] == reports;
  }

  /** One import of a kit file that has a zone. */
  method CheckSite(tree: Tree, file: File, zone: Area, at: nat, visited: set<File>)
    returns (report: seq<Finding>, more: set<File>)
    requires IsTree(tree) && file in tree.files && AreaOfFile(tree, file) == Some(zone) && IsZone(zone)
    requires at < |tree.sites[file]| && visited <= tree.files
    ensures IsSiteReport(tree, file, zone, at, visited, more, report) && more <= tree.files
    ensures forall i :: 0 <= i < |report| ==> IsTrue(tree, report[i]) && report[i].file == file
    ensures report == [] ==> IsCleanSite(tree, zone, tree.sites[file][at], more)
    ensures report == [] ==> visited <= more &&
                             forall other :: other in more && other !in visited ==> IsWalked(tree, zone, other, more)
  {
    hide IsDenial, IsInReach;
    var site := tree.sites[file][at];
    report, more := [], visited;
    if site.computed {
      report := [ComputedSpecifier(file, at)];
    } else if site.target.None? {
      report := [UnresolvedImport(file, at)];
    } else {
      var resolved := site.target.value;
      var area := AreaOfFile(tree, resolved);
      if area.None? {
        if IsUnderSourceRoot(tree.relative[resolved]) {
          report := [UnmodelledArea(file, at, resolved)];
        }
      } else if area.value !in Reachable(zone).value {
        report := [ImportZone(file, at, area.value, resolved)];
      } else if area.value in CONDUITS {
        var denial;
        denial, more := DenialReachedThrough(tree, zone, resolved, visited);
        if denial.Some? {
          report := [ThroughChain(file, at, denial.value)];
          DenialIsAstray(tree, zone, resolved, visited, denial.value);
        }
      }
    }
  }

  lemma {:induction false} DenialIsAstray(tree: Tree, zone: Area, entry: File, seen: set<File>, denial: Denial)
    requires IsTree(tree) && IsZone(zone) && IsDenial(tree, zone, entry, seen, denial)
    ensures IsAstray(tree, zone, entry, seen, denial.chain) && IsAstray(tree, zone, entry, {}, denial.chain)
    ensures denial.chain[|denial.chain| - 1] == denial.resolved
  {
  }

  /** The imports of one kit file that has a zone. */
  method CheckKitFile(tree: Tree, file: File, zone: Area) returns (findings: seq<Finding>, ghost seen: set<File>)
    requires IsTree(tree) && file in tree.files && AreaOfFile(tree, file) == Some(zone) && IsZone(zone)
    ensures IsFileReport(tree, file, findings)
    ensures forall i :: 0 <= i < |findings| ==> IsTrue(tree, findings[i]) && findings[i].file == file
    ensures findings == [] ==> IsClosed(tree, zone, file, seen)
    ensures findings == [] ==>
              forall i :: 0 <= i < |tree.sites[file]| ==> IsCleanSite(tree, zone, tree.sites[file][i], seen)
  {
    hide IsTrue, IsSiteReport, AreSiteReports, IsWalked, IsAllowed;
    findings := [];
    var visited := {file};
    var sites := tree.sites[file];
    ghost var visits: seq<set<File>>, reports: seq<seq<Finding>> := [visited], [];
    NothingReported(tree, file, zone);
    for i := 0 to |sites|
      invariant visited <= tree.files && |visits| == i + 1 && visits[i] == visited
      invariant AreSiteReports(tree, file, zone, i, visits, reports) && findings == Joined(reports)
      invariant forall k :: 0 <= k < |findings| ==> IsTrue(tree, findings[k]) && findings[k].file == file
      invariant findings == [] ==> IsClosed(tree, zone, file, visited)
      invariant findings == [] ==> forall k :: 0 <= k < i ==> IsCleanSite(tree, zone, sites[k], visited)
    {
      var report, more := CheckSite(tree, file, zone, i, visited);
      OneMoreReport(tree, file, zone, i, visits, reports, more, report);
      if findings == [] && report == [] {
        ClosedGrows(tree, zone, file, visited, more);
      }
      visits, reports := visits + [more], reports + [report];
      findings, visited := findings + report, more;
    }
    seen := visited;
  }

  lemma {:induction false} NothingReported(tree: Tree, file: File, zone: Area)
    requires IsTree(tree) && IsZone(zone) && file in tree.files
    ensures AreSiteReports(tree, file, zone, 0, [{file}], []) && Joined([]) == []
  {
  }

  /** A chain of imports out of a file, through conduits. */
  ghost predicate IsChainFrom(tree: Tree, file: File, chain: seq<File>) {
    |chain| >= 2 && chain[0] == file && IsChain(tree, chain) && RunsThroughConduits(tree, chain[1..])
  }

  /** Nothing to report of one kit file: it has a zone, its imports are literals that resolve, and every chain from it
      through conduits ends somewhere its zone may reach. */
  ghost predicate IsClean(tree: Tree, file: File)
    requires IsTree(tree) && file in tree.files
  {
    var zone := AreaOfFile(tree, file);
    && zone.Some? && IsZone(zone.value)
    && (forall i :: 0 <= i < |tree.sites[file]| ==> !tree.sites[file][i].computed && tree.sites[file][i].target.Some?)
    && forall chain: seq<File> :: IsChainFrom(tree, file, chain) ==> IsAllowed(tree, zone.value, chain[|chain| - 1])
  }

  ghost predicate AllTrue(tree: Tree, findings: seq<Finding>, kitFiles: seq<File>)
    requires IsTree(tree)
  {
    forall i :: 0 <= i < |findings| ==> IsTrue(tree, findings[i]) && findings[i].file in kitFiles
  }

  /** The findings of one kit file, which is clean when there are none. */
  method CheckOne(tree: Tree, file: File) returns (findings: seq<Finding>)
    requires IsTree(tree) && file in tree.files
    ensures IsFileReport(tree, file, findings)
    ensures AllTrue(tree, findings, [file])
    ensures findings == [] <==> IsClean(tree, file)
  {
    var zone := AreaOfFile(tree, file);
    if zone.None? || Reachable(zone.value).None? {
      findings := [UnmodelledZone(file)];
    } else {
      ghost var seen;
      findings, seen := CheckKitFile(tree, file, zone.value);
      if findings == [] {
        ClosedIsClean(tree, file, zone.value, seen);
      }
    }
    if findings != [] {
      TrueFindingsAreUnclean(tree, findings[0]);
    }
  }

  lemma {:induction false} FindingsJoin(tree: Tree, some: seq<Finding>, more: seq<Finding>, file: File,
                                        kitFiles: seq<File>)
    requires IsTree(tree) && AllTrue(tree, some, kitFiles) && AllTrue(tree, more, [file]) && file in kitFiles
    ensures AllTrue(tree, some + more, kitFiles)
  {
    forall i | 0 <= i < |some + more| ensures IsTrue(tree, (some + more)[i]) && (some + more)[i].file in kitFiles {
      if i >= |some| {
        assert (some + more)[i] == more[i - |some|];
      }
    }
  }

  ghost predicate AllClean(tree: Tree, kitFiles: seq<File>, count: nat)
    requires IsTree(tree) && count <= |kitFiles| && forall i :: 0 <= i < |kitFiles| ==> kitFiles[i] in tree.files
  {
    forall i :: 0 <= i < count ==> IsClean(tree, kitFiles[i])
  }

  lemma {:induction false} OneMoreClean(tree: Tree, kitFiles: seq<File>, count: nat, some: seq<Finding>,
                                        more: seq<Finding>)
    requires IsTree(tree) && count < |kitFiles| && forall i :: 0 <= i < |kitFiles| ==> kitFiles[i] in tree.files
    requires some == [] <==> AllClean(tree, kitFiles, count)
    requires more == [] <==> IsClean(tree, kitFiles[count])
    ensures some + more == [] <==> AllClean(tree, kitFiles, count + 1)
  {
    var clean := IsClean(tree, kitFiles[count]);
    assert AllClean(tree, kitFiles, count + 1) <==> AllClean(tree, kitFiles, count) && clean;
    assert some + more == [] <==> some == [] && more == [];
  }

  /** The findings of the first kit files, file after file. */
  ghost predicate AreFileReports(tree: Tree, kitFiles: seq<File>, count: nat, reports: seq<seq<Finding>>)
    requires IsTree(tree) && count <= |kitFiles| && forall i :: 0 <= i < |kitFiles| ==> kitFiles[i] in tree.files
  {
    |reports| == count && forall i :: 0 <= i < count ==> IsFileReport(tree, kitFiles[i], reports[i])
  }

  /** Nothing is reported exactly when every kit file is clean; whatever is reported is true; and every kit file has its
      own report, in order. */
  method Check(tree: Tree, kitFiles: seq<File>) returns (findings: seq<Finding>, ghost reports: seq<seq<Finding>>)
    requires IsTree(tree) && forall i :: 0 <= i < |kitFiles| ==> kitFiles[i] in tree.files
    ensures AllTrue(tree, findings, kitFiles)
    ensures findings == [] <==> AllClean(tree, kitFiles, |kitFiles|)
    ensures AreFileReports(tree, kitFiles, |kitFiles|, reports) && findings == Joined(reports)
  {
    hide IsFileReport, IsTree, AllTrue, AllClean, IsClean;
    findings, reports := [], [];
    NoneIsClean(tree, kitFiles);
    for i := 0 to |kitFiles|
      invariant AllTrue(tree, findings, kitFiles)
      invariant findings == [] <==> AllClean(tree, kitFiles, i)
      invariant AreFileReports(tree, kitFiles, i, reports) && findings == Joined(reports)
    {
      var found := CheckOne(tree, kitFiles[i]);
      FindingsJoin(tree, findings, found, kitFiles[i], kitFiles);
      OneMoreClean(tree, kitFiles, i, findings, found);
      findings := findings + found;
      assert (reports + [found])[..i] == reports;
      reports := reports + [found];
    }
  }

  lemma {:induction false} NoneIsClean(tree: Tree, kitFiles: seq<File>)
    requires IsTree(tree) && forall i :: 0 <= i < |kitFiles| ==> kitFiles[i] in tree.files
    ensures AllTrue(tree, [], kitFiles) && AllClean(tree, kitFiles, 0)
  {
  }

  /** The walks closed everything a chain of conduits can reach from the file. */
  lemma {:induction false} ClosedIsClean(tree: Tree, file: File, zone: Area, seen: set<File>)
    requires IsTree(tree) && file in tree.files && AreaOfFile(tree, file) == Some(zone) && IsZone(zone)
    requires IsClosed(tree, zone, file, seen)
    requires forall i :: 0 <= i < |tree.sites[file]| ==> IsCleanSite(tree, zone, tree.sites[file][i], seen)
    ensures IsClean(tree, file)
  {
    forall chain: seq<File> | IsChainFrom(tree, file, chain)
      ensures IsAllowed(tree, zone, chain[|chain| - 1])
    {
      ChainStaysSeen(tree, file, zone, seen, chain, |chain| - 1);
    }
  }

  lemma {:induction false} ChainStaysSeen(tree: Tree, file: File, zone: Area, seen: set<File>, chain: seq<File>,
                                          at: nat)
    requires IsTree(tree) && file in tree.files && AreaOfFile(tree, file) == Some(zone) && IsZone(zone)
    requires IsClosed(tree, zone, file, seen)
    requires forall i :: 0 <= i < |tree.sites[file]| ==> IsCleanSite(tree, zone, tree.sites[file][i], seen)
    requires IsChainFrom(tree, file, chain)
    requires 1 <= at < |chain|
    ensures IsAllowed(tree, zone, chain[at]) && (IsConduit(tree, chain[at]) ==> chain[at] in seen)
    decreases at
  {
    assert Imports(tree, chain[at - 1], chain[at]);
    if at == 1 {
      var i :| 0 <= i < |tree.sites[file]| && tree.sites[file][i] == Site(false, Some(chain[1]));
      assert IsCleanSite(tree, zone, tree.sites[file][i], seen);
    } else {
      ChainStaysSeen(tree, file, zone, seen, chain, at - 1);
      assert IsConduit(tree, chain[1..][at - 2]);
      ZonesAreNotConduits(zone);
      assert IsWalked(tree, zone, chain[at - 1], seen);
    }
  }

  lemma {:induction false} TrueFindingsAreUnclean(tree: Tree, finding: Finding)
    requires IsTree(tree) && IsTrue(tree, finding)
    ensures !IsClean(tree, finding.file)
  {
    if finding.UnmodelledArea? || finding.ImportZone? {
      DeniedImportIsUnclean(tree, finding.file, finding.site, finding.resolved);
    } else if finding.ThroughChain? {
      ThroughChainIsUnclean(tree, finding.file, finding.site, finding.denial);
    }
  }

  lemma {:induction false} DeniedImportIsUnclean(tree: Tree, file: File, site: nat, resolved: File)
    requires IsTree(tree) && file in tree.files && resolved in tree.files && site < |tree.sites[file]|
    requires tree.sites[file][site] == Site(false, Some(resolved))
    requires AreaOfFile(tree, file).Some? && IsZone(AreaOfFile(tree, file).value)
    requires !IsAllowed(tree, AreaOfFile(tree, file).value, resolved)
    ensures !IsClean(tree, file)
  {
    var chain := [file, resolved];
    assert IsChainFrom(tree, file, chain);
    assert chain[|chain| - 1] == resolved;
  }

  lemma {:induction false} ThroughChainIsUnclean(tree: Tree, file: File, site: nat, denial: Denial)
    requires IsTree(tree) && IsTrue(tree, ThroughChain(file, site, denial))
    ensures !IsClean(tree, file)
  {
    var chain := [file] + denial.chain;
    assert tree.sites[file][site] == Site(false, Some(denial.chain[0]));
    assert chain[1..] == denial.chain;
    assert IsChainFrom(tree, file, chain);
    assert chain[|chain| - 1] == denial.resolved;
  }
}
