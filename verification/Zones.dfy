// frontend/scripts/check-imports/zones.ts: the areas of `src/` and the table of which of them a zone's imports may
// lead to.
module Zones {
  import opened Wrappers
  import opened Text

  type Area = string

  /** Longest first, so that `ui/domain` would win over `ui`. */
  const AREAS: seq<Area> := [
    "ui/primitives", "ui/layout", "ui/domain", "api", "app", "routes", "contract", "lib", "testing", "tokens", "assets"
  ]

  /** The row of the table for a zone; `None` for an area that is no zone. */
  function Reachable(zone: Area): Option<seq<Area>> {
    if zone == "ui/primitives" then Some(["ui/primitives", "lib", "tokens"])
    else if zone == "ui/layout" then Some(["ui/primitives", "ui/layout", "lib", "tokens"])
    else if zone == "ui/domain" then
      Some(["ui/primitives", "ui/layout", "ui/domain", "contract", "lib", "tokens", "assets"])
    else None
  }

  predicate IsZone(area: Area) {
    Reachable(area).Some?
  }

  /** Areas whose own imports go unchecked, so that what a zone reads through them is followed. */
  const CONDUITS: seq<Area> := ["lib", "contract", "tokens"]

  const LEAVES: seq<Area> := ["assets"]

  predicate BelongsTo(relative: string, area: Area) {
    relative == area || StartsWith(relative, area + "/")
  }

  function FirstArea(relative: string, areas: seq<Area>): Option<Area> {
    if areas == [] then None
    else if BelongsTo(relative, areas[0]) then Some(areas[0])
    else FirstArea(relative, areas[1..])
  }

  /** The area a file belongs to, from its path relative to `src/`. */
  function AreaOf(relative: string): Option<Area> {
    FirstArea(relative, AREAS)
  }

  /** Inside `src/`, as the check decides it: a relative path that does not begin with two dots or a slash. */
  predicate IsUnderSourceRoot(relative: string) {
    relative != "" && !StartsWith(relative, "..") && !StartsWith(relative, "/")
  }

  /** Outside `src/`, as a path relative to it says: the root itself, a parent, or an absolute path. */
  predicate IsOutside(relative: string) {
    relative == "" || relative == ".." || StartsWith(relative, "../") || StartsWith(relative, "/")
  }

  /** The check takes a file for a package exactly when it is one, except in a directory whose own name begins with two
      dots: what lies there is inside, and is taken for a package. */
  lemma {:induction false} PackagesAreOutsideExactly(relative: string)
    ensures (!IsUnderSourceRoot(relative) <==> IsOutside(relative))
            <==> !(StartsWith(relative, "..") && relative != ".." && !StartsWith(relative, "../"))
  {
    if StartsWith(relative, "../") {
      assert relative[..2] == "..";
    }
    assert StartsWith(relative, "..") ==> relative[0] == '.';
  }

  lemma {:induction false} FirstAreaIs(relative: string, areas: seq<Area>)
    ensures match FirstArea(relative, areas)
            case None => forall area :: area in areas ==> !BelongsTo(relative, area)
            case Some(area) => area in areas && BelongsTo(relative, area)
  {
    if areas != [] {
      FirstAreaIs(relative, areas[1..]);
    }
  }

  lemma {:induction false} AreaIsNamed(relative: string)
    ensures AreaOf(relative).Some? ==> AreaOf(relative).value in AREAS && BelongsTo(relative, AreaOf(relative).value)
  {
    FirstAreaIs(relative, AREAS);
  }

  // ---- What the tables have to be for the walk to mean anything ----

  /** A zone may reach whatever the zones it may reach may reach. */
  lemma {:induction false} ReachableIsMonotone(zone: Area, inner: Area, area: Area)
    requires IsZone(zone) && IsZone(inner) && inner in Reachable(zone).value && area in Reachable(inner).value
    ensures area in Reachable(zone).value
  {
  }

  /** Each area in a zone's row is of one of the three kinds; and no zone is a conduit. */
  lemma {:induction false} ReachedAreasAreClassified(zone: Area, area: Area)
    requires IsZone(zone) && area in Reachable(zone).value
    ensures area in AREAS && (IsZone(area) || area in CONDUITS || area in LEAVES)
    ensures IsZone(area) ==> area !in CONDUITS && area !in LEAVES
  {
    assert AREAS[0] == "ui/primitives" && AREAS[1] == "ui/layout" && AREAS[2] == "ui/domain";
    assert AREAS[6] == "contract" && AREAS[7] == "lib" && AREAS[9] == "tokens" && AREAS[10] == "assets";
    assert CONDUITS[0] == "lib" && CONDUITS[1] == "contract" && CONDUITS[2] == "tokens" && LEAVES[0] == "assets";
  }

  lemma {:induction false} ZonesAreNotConduits(zone: Area)
    requires IsZone(zone)
    ensures zone !in CONDUITS
  {
  }

  // ---- What the tables say ----

  /** A path is a directory's own, or leads into it. */
  predicate LiesIn(relative: string, directory: string) {
    && |directory| <= |relative| && relative[..|directory|] == directory
    && (|relative| == |directory| || relative[|directory|] == '/')
  }

  lemma {:induction false} BelongingIsLyingIn(relative: string, area: Area)
    ensures BelongsTo(relative, area) <==> LiesIn(relative, area)
    ensures LiesIn(relative, area) ==>
              |relative| >= |area| && forall i :: 0 <= i < |area| ==> relative[i] == area[i]
  {
    if LiesIn(relative, area) {
      assert forall i :: 0 <= i < |area| ==> relative[i] == relative[..|area|][i];
      if |relative| > |area| {
        assert relative[..|area| + 1] == relative[..|area|] + ['/'];
        assert relative[..|area + "/"|] == area + "/";
      } else {
        assert relative[..|area|] == relative;
      }
    }
    if StartsWith(relative, area + "/") {
      assert relative[..|area|] == area;
    }
  }

  /** The areas there are. */
  predicate IsModelled(area: Area) {
    area in {"api", "app", "routes", "contract", "lib", "testing", "tokens", "assets"}
    || area in {"ui/primitives", "ui/layout", "ui/domain"}
  }

  lemma {:induction false} ModelledAreListed(area: Area)
    ensures area in AREAS <==> IsModelled(area)
  {
    assert AREAS[0] == "ui/primitives" && AREAS[1] == "ui/layout" && AREAS[2] == "ui/domain" && AREAS[3] == "api";
    assert AREAS[4] == "app" && AREAS[5] == "routes" && AREAS[6] == "contract" && AREAS[7] == "lib";
    assert AREAS[8] == "testing" && AREAS[9] == "tokens" && AREAS[10] == "assets";
  }

  /** No path lies in two of the areas. */
  lemma {:induction false} AreasAreApart(relative: string, one: Area, other: Area)
    requires IsModelled(one) && IsModelled(other) && LiesIn(relative, one) && LiesIn(relative, other)
    ensures one == other
  {
    BelongingIsLyingIn(relative, one);
    BelongingIsLyingIn(relative, other);
    hide LiesIn, BelongsTo;
    SignIs(relative, one);
    SignIs(relative, other);
  }

  /** What tells the areas apart: which letters a path begins with. */
  function Sign(area: Area): (char, char, char)
    requires IsModelled(area)
  {
    if area[0] == 'u' then ('u', 'i', area[3]) else (area[0], area[1], area[2])
  }

  lemma {:induction false} SignIs(relative: string, area: Area)
    requires IsModelled(area) && |relative| >= |area| && forall i :: 0 <= i < |area| ==> relative[i] == area[i]
    ensures Sign(area) == if relative[0] == 'u' then ('u', 'i', relative[3])
                          else (relative[0], relative[1], relative[2])
    ensures forall other :: IsModelled(other) && Sign(other) == Sign(area) ==> other == area
  {
  }

  /** A path is of an area exactly when it is the area's directory or leads into it: the order the areas are tried in
      decides nothing. */
  lemma {:induction false} AreaIsExactly(relative: string, area: Area)
    ensures AreaOf(relative) == Some(area) <==> IsModelled(area) && LiesIn(relative, area)
  {
    FirstAreaIs(relative, AREAS);
    ModelledAreListed(area);
    BelongingIsLyingIn(relative, area);
    if found :| AreaOf(relative) == Some(found) {
      ModelledAreListed(found);
      BelongingIsLyingIn(relative, found);
      hide LiesIn, BelongsTo, IsModelled, AREAS, FirstArea;
      if IsModelled(area) && LiesIn(relative, area) {
        AreasAreApart(relative, area, found);
      }
    }
  }

  /** The kit's zones, from the innermost out. */
  function Rank(area: Area): nat {
    if area == "ui/primitives" then 1 else if area == "ui/layout" then 2 else if area == "ui/domain" then 3 else 0
  }

  /** The whole table: a kit zone may lead to itself and the zones further in, to the library and the tokens; only the
      domain zone to the contract and the assets; and no zone to the fetching client, the shell, the routes or the
      tests. Imports are followed through the three that are neither zones nor assets. */
  lemma {:induction false} TableIsExactly(zone: Area, area: Area)
    ensures IsZone(zone) <==> Rank(zone) > 0
    ensures IsZone(zone) ==>
              (area in Reachable(zone).value <==>
               || 1 <= Rank(area) <= Rank(zone) || area == "lib" || area == "tokens"
               || (zone == "ui/domain" && (area == "contract" || area == "assets")))
    ensures area in CONDUITS <==> area == "lib" || area == "contract" || area == "tokens"
    ensures area in LEAVES <==> area == "assets"
  {
  }
}
