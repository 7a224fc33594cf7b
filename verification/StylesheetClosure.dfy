// frontend/scripts/lib/stylesheet-closure.ts: the sheets sure to be there whenever a given one is.
// Reading files and resolving specifiers are given, as the edges.
module StylesheetClosure {
  import opened Text

  type File = string

  type Edges = map<File, seq<File>>

  predicate IsSheet(file: File) {
    EndsWith(file, ".css")
  }

  function Targets(edges: Edges, file: File): seq<File> {
    if file in edges then edges[file] else []
  }

  /** A walk along the edges. */
  ghost predicate IsWalk(edges: Edges, walk: seq<File>) {
    |walk| >= 1 && forall i :: 0 < i < |walk| ==> walk[i] in Targets(edges, walk[i - 1])
  }

  ghost predicate Leads(edges: Edges, walk: seq<File>, from: File, file: File) {
    IsWalk(edges, walk) && walk[0] == from && walk[|walk| - 1] == file
  }

  /** In zero or more steps. */
  ghost predicate Reaches(edges: Edges, from: File, file: File) {
    exists walk :: Leads(edges, walk, from, file)
  }

  /** In one or more: `from` loads `file` through imports. */
  ghost predicate Loads(edges: Edges, from: File, file: File) {
    exists walk :: Leads(edges, walk, from, file) && |walk| >= 2
  }

  lemma {:induction false} ReachesItself(edges: Edges, file: File)
    ensures Reaches(edges, file, file)
  {
    assert Leads(edges, [file], file, file);
  }

  lemma {:induction false} ReachesNext(edges: Edges, from: File, file: File, target: File)
    requires Reaches(edges, from, file) && target in Targets(edges, file)
    ensures Reaches(edges, from, target) && Loads(edges, from, target)
  {
    var walk :| Leads(edges, walk, from, file);
    assert Leads(edges, walk + [target], from, target);
  }

  lemma {:induction false} ReachesOn(edges: Edges, from: File, middle: File, file: File)
    requires Reaches(edges, from, middle) && Reaches(edges, middle, file)
    ensures Reaches(edges, from, file)
  {
    var first :| Leads(edges, first, from, middle);
    var second :| Leads(edges, second, middle, file);
    assert Leads(edges, first + second[1..], from, file);
  }

  /** A set that follows its own edges holds whatever a walk out of it reaches. */
  lemma {:induction false} ClosedHoldsWalks(edges: Edges, closed: set<File>, walk: seq<File>, at: nat)
    requires forall file :: file in closed ==> IsFollowed(edges, closed, file)
    requires IsWalk(edges, walk) && walk[0] in closed && at < |walk|
    ensures walk[at] in closed
  {
    if at > 0 {
      ClosedHoldsWalks(edges, closed, walk, at - 1);
    }
  }

  /** Every file an edge can lead to, and the root: what the worklist can ever hold. */
  ghost function Universe(edges: Edges, root: File): set<File> {
    {root} + set from, i | from in edges && 0 <= i < |edges[from]| :: edges[from][i]
  }

  /** What the worklist keeps true: everything seen is reachable, and everything seen but the waiting has been
      followed. */
  ghost predicate IsSweep(edges: Edges, root: File, seen: set<File>, pending: seq<File>) {
    && root in seen && seen <= Universe(edges, root)
    && (forall file :: file in seen ==> Reaches(edges, root, file))
    && (forall i :: 0 <= i < |pending| ==> pending[i] in seen)
    && (forall file :: file in seen && file !in pending ==> IsFollowed(edges, seen, file))
  }

  ghost predicate IsFollowed(edges: Edges, seen: set<File>, file: File) {
    var targets := Targets(edges, file);
    forall i :: 0 <= i < |targets| ==> targets[i] in seen
  }

  lemma {:induction false} TargetsAreInUniverse(edges: Edges, root: File, file: File)
    ensures forall target :: target in Targets(edges, file) ==> target in Universe(edges, root)
  {
    if file in edges {
      forall target | target in edges[file] ensures target in Universe(edges, root) {
        var i :| 0 <= i < |edges[file]| && edges[file][i] == target;
      }
    }
  }

  /** Put each unseen target on the list, once. */
  method Follow(root: File, edges: Edges, next: File, held: set<File>, waiting: seq<File>)
    returns (seen: set<File>, pending: seq<File>)
    requires next in held && IsSweep(edges, root, held, waiting + [next])
    ensures IsSweep(edges, root, seen, pending)
    ensures held <= seen && (seen == held ==> pending == waiting)
  {
    hide Reaches;
    TargetsAreInUniverse(edges, root, next);
    seen, pending := held, waiting;
    assert forall k :: 0 <= k < |waiting| ==> waiting[k] == (waiting + [next])[k];
    var targets := Targets(edges, next);
    for i := 0 to |targets|
      invariant held <= seen <= Universe(edges, root) && waiting <= pending
      invariant seen == held ==> pending == waiting
      invariant forall file :: file in seen ==> Reaches(edges, root, file)
      invariant forall k :: 0 <= k < |pending| ==> pending[k] in seen
      invariant forall file :: file in seen ==> file in held || file in pending
      invariant forall k :: 0 <= k < i ==> targets[k] in seen
    {
      if targets[i] !in seen {
        ReachesNext(edges, root, next, targets[i]);
        seen := seen + {targets[i]};
        pending := pending + [targets[i]];
      }
    }
    FollowedKeepsSweep(edges, root, next, held, waiting, seen, pending);
  }

  lemma {:induction false} FollowedKeepsSweep(edges: Edges, root: File, next: File, held: set<File>, waiting: seq<File>,
                           seen: set<File>, pending: seq<File>)
    requires IsSweep(edges, root, held, waiting + [next]) && held <= seen && waiting <= pending
    requires IsFollowed(edges, seen, next)
    requires forall file :: file in seen ==> file in held || file in pending
    ensures forall file :: file in seen && file !in pending ==> IsFollowed(edges, seen, file)
  {
    forall file | file in seen && file !in pending ensures IsFollowed(edges, seen, file) {
      if file != next {
        assert file !in waiting + [next];
        assert IsFollowed(edges, held, file);
      }
    }
  }

  /** The worklist ends with exactly the files some walk from the root arrives at; the empty walk arrives at the root.
      */
  method ReachableFrom(root: File, edges: Edges) returns (seen: set<File>)
    ensures forall file :: file in seen <==> Reaches(edges, root, file)
  {
    seen := {root};
    var pending := [root];
    ReachesItself(edges, root);
    while pending != []
      invariant IsSweep(edges, root, seen, pending)
      decreases Universe(edges, root) - seen, |pending|
    {
      var next := pending[|pending| - 1];
      var waiting := pending[..|pending| - 1];
      assert pending == waiting + [next];
      seen, pending := Follow(root, edges, next, seen, waiting);
    }
    SweptIsReachable(edges, root, seen);
  }

  lemma {:induction false} SweptIsReachable(edges: Edges, root: File, seen: set<File>)
    requires IsSweep(edges, root, seen, [])
    ensures forall file :: file in seen <==> Reaches(edges, root, file)
  {
    forall file | Reaches(edges, root, file) ensures file in seen {
      var walk :| Leads(edges, walk, root, file);
      ClosedHoldsWalks(edges, seen, walk, |walk| - 1);
    }
  }

  // ---- One sheet's closure ----

  /** Every sheet that each of some files reaches. */
  ghost predicate IsLoadedByAll(edges: Edges, importers: seq<File>, file: File) {
    IsSheet(file) && forall i :: 0 <= i < |importers| ==> Reaches(edges, importers[i], file)
  }

  method SheetsReachedFrom(importer: File, edges: Edges) returns (sheets: set<File>)
    ensures forall file :: file in sheets <==> IsSheet(file) && Reaches(edges, importer, file)
  {
    var reached := ReachableFrom(importer, edges);
    sheets := set file | file in reached && IsSheet(file);
  }

  /** Drop what another importer does not reach, one file at a time. */
  method KeepReached(loaded: set<File>, reached: set<File>) returns (kept: set<File>)
    ensures kept == loaded * reached
  {
    kept := loaded;
    var left := loaded;
    while left != {}
      invariant left <= loaded && kept == loaded * (reached + left)
    {
      var file :| file in left;
      left := left - {file};
      if file !in reached {
        kept := kept - {file};
      }
    }
  }

  method LoadedWith(sheet: File, importers: seq<File>, edges: Edges) returns (loadedWith: set<File>)
    ensures importers == [] ==> loadedWith == {sheet}
    ensures importers != [] ==> forall file :: file in loadedWith <==> IsLoadedByAll(edges, importers, file)
  {
    if importers == [] {
      return {sheet};
    }
    loadedWith := SheetsReachedFrom(importers[0], edges);
    for i := 1 to |importers|
      invariant forall file :: file in loadedWith <==> IsLoadedByAll(edges, importers[..i], file)
    {
      var reached := SheetsReachedFrom(importers[i], edges);
      loadedWith := KeepReached(loadedWith, reached);
      forall file
        ensures IsLoadedByAll(edges, importers[..i + 1], file) <==>
                IsLoadedByAll(edges, importers[..i], file) && Reaches(edges, importers[i], file)
      {
        OneMoreImporter(edges, importers, i, file);
      }
    }
    assert importers[..|importers|] == importers;
  }

  lemma {:induction false} OneMoreImporter(edges: Edges, importers: seq<File>, i: nat, file: File)
    requires i < |importers|
    ensures IsLoadedByAll(edges, importers[..i + 1], file) <==>
            IsLoadedByAll(edges, importers[..i], file) && Reaches(edges, importers[i], file)
  {
    var more := importers[..i + 1];
    assert forall k :: 0 <= k < i ==> more[k] == importers[..i][k];
    assert more[i] == importers[i];
  }

  datatype Closure = Closure(loadedWith: set<File>, importers: seq<File>)

  /** The files, in order, that import a sheet directly. */
  function ImportersOf(files: seq<File>, edges: Edges, sheet: File): seq<File> {
    if files == [] then []
    else (if sheet in Targets(edges, files[0]) then [files[0]] else []) + ImportersOf(files[1..], edges, sheet)
  }

  lemma {:induction false} ImportersAre(files: seq<File>, edges: Edges, sheet: File, file: File)
    ensures file in ImportersOf(files, edges, sheet) <==> file in files && sheet in Targets(edges, file)
  {
    if files != [] {
      ImportersAre(files[1..], edges, sheet, file);
      assert files == [files[0]] + files[1..];
    }
  }

  ghost predicate AreDistinct(files: seq<File>) {
    forall i, j :: 0 <= i < j < |files| ==> files[i] != files[j]
  }

  /** The keys of a map filled from the files, in the order of first entry: a file entered again is there once. */
  function Entered(files: seq<File>): seq<File> {
    if files == [] then []
    else
      var most, last := files[..|files| - 1], files[|files| - 1];
      Entered(most) + if last in most then [] else [last]
  }

  lemma {:induction false} EnteredAre(files: seq<File>)
    ensures AreDistinct(Entered(files))
    ensures forall file :: file in Entered(files) <==> file in files
  {
    if files != [] {
      var most, last := files[..|files| - 1], files[|files| - 1];
      EnteredAre(most);
      assert forall file :: file in files <==> file in most || file == last;
      assert last in Entered(most) <==> last in most;
    }
  }

  /** A file that imports a sheet more than once is one importer of it. */
  lemma {:induction false} ImportersAreDistinct(files: seq<File>, edges: Edges, sheet: File)
    requires AreDistinct(files)
    ensures AreDistinct(ImportersOf(files, edges, sheet))
  {
    if files != [] {
      var rest := ImportersOf(files[1..], edges, sheet);
      ImportersAreDistinct(files[1..], edges, sheet);
      forall j | 0 <= j < |rest| ensures rest[j] != files[0] {
        ImportersAre(files[1..], edges, sheet, rest[j]);
      }
    }
  }

  /** What a closure of a sheet holds. */
  ghost predicate IsClosureOf(closure: Closure, files: seq<File>, edges: Edges, sheet: File) {
    && closure.importers == ImportersOf(Entered(files), edges, sheet) && AreDistinct(closure.importers)
    && (closure.importers == [] ==> closure.loadedWith == {sheet})
    && (closure.importers != [] ==> forall file :: file in closure.loadedWith <==>
          IsLoadedByAll(edges, closure.importers, file))
  }

  /** The sheets among the files, and nothing else, each get their closure, however often the files repeat one. */
  method StylesheetClosures(files: seq<File>, edges: Edges) returns (closures: map<File, Closure>)
    requires edges.Keys == set file | file in files
    ensures closures.Keys == set file | file in files && IsSheet(file)
    ensures forall sheet :: sheet in closures ==> IsClosureOf(closures[sheet], files, edges, sheet)
  {
    var entered := Entered(files);
    EnteredAre(files);
    closures := map[];
    for i := 0 to |files|
      invariant closures.Keys == set file | file in files[..i] && IsSheet(file)
      invariant forall sheet :: sheet in closures ==> IsClosureOf(closures[sheet], files, edges, sheet)
    {
      assert files[..i + 1] == files[..i] + [files[i]];
      if IsSheet(files[i]) {
        var importers := ImportersOf(entered, edges, files[i]);
        ImportersAreDistinct(entered, edges, files[i]);
        var loadedWith := LoadedWith(files[i], importers, edges);
        closures := closures[files[i] := Closure(loadedWith, importers)];
      }
    }
    assert files[..|files|] == files;
  }

  // ---- What a closure means ----

  /** Whatever loads a sheet through any chain of imports loads it through one of its direct importers. */
  lemma {:induction false} LoadersGoThroughImporters(files: seq<File>, edges: Edges, sheet: File,
                                                     from: File) returns (importer: File)
    requires edges.Keys == (set file | file in files) && Loads(edges, from, sheet)
    ensures importer in ImportersOf(files, edges, sheet) && Reaches(edges, from, importer)
  {
    var walk :| Leads(edges, walk, from, sheet) && |walk| >= 2;
    importer := walk[|walk| - 2];
    assert sheet in Targets(edges, importer);
    assert Leads(edges, walk[..|walk| - 1], from, importer);
    ImportersAre(files, edges, sheet, importer);
  }

  lemma {:induction false} ImportersLoad(files: seq<File>, edges: Edges, sheet: File, importer: File)
    requires importer in ImportersOf(files, edges, sheet)
    ensures Loads(edges, importer, sheet) && Reaches(edges, importer, sheet)
  {
    ImportersAre(files, edges, sheet, importer);
    ReachesItself(edges, importer);
    ReachesNext(edges, importer, importer, sheet);
  }

  /** For a sheet that something imports, looking at its direct importers is enough: the closure is exactly the sheets
      that every file loading it, through however many imports, also loads; so it holds in every context. */
  lemma {:induction false} ClosureHoldsInEveryContext(closure: Closure, files: seq<File>, edges: Edges, sheet: File,
                                                      file: File)
    requires edges.Keys == (set each | each in files) && IsClosureOf(closure, files, edges, sheet)
    requires closure.importers != []
    ensures file in closure.loadedWith <==>
            IsSheet(file) && forall from :: Loads(edges, from, sheet) ==> Reaches(edges, from, file)
  {
    var importers, entered := closure.importers, Entered(files);
    EnteredAre(files);
    assert (set each | each in entered) == set each | each in files;
    if file in closure.loadedWith {
      forall from | Loads(edges, from, sheet) ensures Reaches(edges, from, file) {
        var importer := LoadersGoThroughImporters(entered, edges, sheet, from);
        var i :| 0 <= i < |importers| && importers[i] == importer;
        ReachesOn(edges, from, importer, file);
      }
    } else if IsSheet(file) {
      var i :| 0 <= i < |importers| && !Reaches(edges, importers[i], file);
      ImportersLoad(entered, edges, sheet, importers[i]);
    }
  }

  /** A sheet is always in its own closure, imported or not, in a cycle or not. */
  lemma {:induction false} SheetIsInItsClosure(closure: Closure, files: seq<File>, edges: Edges, sheet: File)
    requires IsSheet(sheet) && IsClosureOf(closure, files, edges, sheet)
    ensures sheet in closure.loadedWith
  {
    forall i | 0 <= i < |closure.importers| ensures Reaches(edges, closure.importers[i], sheet) {
      ImportersLoad(Entered(files), edges, sheet, closure.importers[i]);
    }
  }
}
