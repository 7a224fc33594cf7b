// What a clean report of check-imports says of the whole module graph, not of one file's imports.
module ImportLaws {
  import opened Wrappers
  import opened Zones
  import opened CheckImports

  /** A file that a chain may run through: one of the kit files checked, or a conduit. */
  predicate IsKitOrConduit(tree: Tree, kitFiles: seq<File>, file: File) {
    file in kitFiles || IsConduit(tree, file)
  }

  /** Chains of literal imports that stay in the kit and the conduits until their last file. */
  ghost predicate IsKitChain(tree: Tree, kitFiles: seq<File>, chain: seq<File>) {
    && |chain| >= 2 && IsChain(tree, chain)
    && forall i :: 0 <= i < |chain| - 1 ==> IsKitOrConduit(tree, kitFiles, chain[i])
  }

  /** The last kit file a chain runs through, from which only conduits follow. */
  lemma {:induction false} LastKitFile(tree: Tree, kitFiles: seq<File>, chain: seq<File>, upTo: nat) returns (at: nat)
    requires IsKitChain(tree, kitFiles, chain) && chain[0] in kitFiles && upTo < |chain| - 1
    ensures at <= upTo && chain[at] in kitFiles
    ensures forall i :: at < i <= upTo ==> IsConduit(tree, chain[i])
    decreases upTo
  {
    if chain[upTo] in kitFiles {
      return upTo;
    }
    at := LastKitFile(tree, kitFiles, chain, upTo - 1);
    assert IsKitOrConduit(tree, kitFiles, chain[upTo]);
  }

  /** A file of the kit whose zone may be reached from another is bound by no more than that other is. */
  lemma {:induction false} ZonesNest(tree: Tree, zone: Area, inner: File, file: File)
    requires IsZone(zone) && inner in tree.relative && file in tree.relative
    requires AreaOfFile(tree, inner).Some? && IsZone(AreaOfFile(tree, inner).value)
    requires AreaOfFile(tree, inner).value in Reachable(zone).value
    requires IsAllowed(tree, AreaOfFile(tree, inner).value, file)
    ensures IsAllowed(tree, zone, file)
  {
    if AreaOfFile(tree, file).Some? {
      ReachableIsMonotone(zone, AreaOfFile(tree, inner).value, AreaOfFile(tree, file).value);
    }
  }

  /** Through conduits alone, a clean kit file's chain ends where its own zone may reach. */
  lemma {:induction false} TailIsAllowed(tree: Tree, chain: seq<File>, from: nat, upTo: nat)
    requires IsTree(tree) && IsChain(tree, chain) && from < upTo < |chain|
    requires IsClean(tree, chain[from]) && forall i :: from < i < upTo ==> IsConduit(tree, chain[i])
    ensures AreaOfFile(tree, chain[from]).Some? && IsZone(AreaOfFile(tree, chain[from]).value)
    ensures IsAllowed(tree, AreaOfFile(tree, chain[from]).value, chain[upTo])
  {
    var tail := TailIsChain(tree, chain, from, upTo);
    CleanAllows(tree, chain[from], tail, chain[upTo]);
  }

  lemma {:induction false} CleanAllows(tree: Tree, file: File, chain: seq<File>, last: File)
    requires IsTree(tree) && file in tree.files && IsClean(tree, file) && IsChainFrom(tree, file, chain)
    requires last == chain[|chain| - 1]
    ensures AreaOfFile(tree, file).Some? && IsZone(AreaOfFile(tree, file).value)
    ensures last in tree.relative && IsAllowed(tree, AreaOfFile(tree, file).value, last)
  {
  }

  /** Each file of a chain is allowed to the zone the chain starts in. */
  lemma {:induction false} ChainIsAllowed(tree: Tree, kitFiles: seq<File>, chain: seq<File>, at: nat)
    requires IsTree(tree) && (forall i :: 0 <= i < |kitFiles| ==> kitFiles[i] in tree.files)
    requires AllClean(tree, kitFiles, |kitFiles|)
    requires IsKitChain(tree, kitFiles, chain) && chain[0] in kitFiles && 1 <= at < |chain|
    ensures AreaOfFile(tree, chain[0]).Some? && IsZone(AreaOfFile(tree, chain[0]).value)
    ensures IsAllowed(tree, AreaOfFile(tree, chain[0]).value, chain[at])
    decreases at
  {
    var last := LastKitFile(tree, kitFiles, chain, at - 1);
    CleanMember(tree, kitFiles, chain[last]);
    TailIsAllowed(tree, chain, last, at);
    if last > 0 {
      ChainIsAllowed(tree, kitFiles, chain, last);
      ZonesNest(tree, AreaOfFile(tree, chain[0]).value, chain[last], chain[at]);
    }
  }

  lemma {:induction false} CleanMember(tree: Tree, kitFiles: seq<File>, file: File)
    requires IsTree(tree) && (forall i :: 0 <= i < |kitFiles| ==> kitFiles[i] in tree.files)
    requires AllClean(tree, kitFiles, |kitFiles|) && file in kitFiles
    ensures IsClean(tree, file)
  {
    var i :| 0 <= i < |kitFiles| && kitFiles[i] == file;
  }

  lemma {:induction false} TailIsChain(tree: Tree, chain: seq<File>, from: nat, upTo: nat) returns (tail: seq<File>)
    requires IsChain(tree, chain) && from < upTo < |chain|
    requires forall i :: from < i < upTo ==> IsConduit(tree, chain[i])
    ensures IsChainFrom(tree, chain[from], tail) && tail[|tail| - 1] == chain[upTo]
  {
    tail := chain[from..upTo + 1];
    forall i | 0 < i < |tail| ensures Imports(tree, tail[i - 1], tail[i]) {
      assert tail[i - 1] == chain[from + i - 1] && tail[i] == chain[from + i];
    }
    forall i | 0 <= i < |tail[1..]| - 1 ensures IsConduit(tree, tail[1..][i]) {
      assert tail[1..][i] == chain[from + 1 + i];
    }
  }

  /** When the check reports nothing over the kit files it is given, then whatever a chain of literal imports reaches
      from one of them, through those kit files and the conduits, is a package or lies in an area the first file's zone
      may reach: no detour through another zone or a shared module launders anything. */
  lemma {:induction false} CleanReportsHoldGlobally(tree: Tree, kitFiles: seq<File>, chain: seq<File>)
    requires IsTree(tree) && (forall i :: 0 <= i < |kitFiles| ==> kitFiles[i] in tree.files)
    requires AllClean(tree, kitFiles, |kitFiles|)
    requires IsKitChain(tree, kitFiles, chain) && chain[0] in kitFiles
    ensures AreaOfFile(tree, chain[0]).Some? && IsZone(AreaOfFile(tree, chain[0]).value)
    ensures IsAllowed(tree, AreaOfFile(tree, chain[0]).value, chain[|chain| - 1])
  {
    ChainIsAllowed(tree, kitFiles, chain, |chain| - 1);
  }
}
