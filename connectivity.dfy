/**
 * Casino groups: the connected sets of built tiles of one brand. A group is defined here
 * by paths (the reference definition) and computed by a flood fill (CasinoAt) and by an
 * enumeration over the tile table (Casinos).
 */
module Connectivity {
  import opened Wrappers
  import opened Grid
  import opened Layout
  import opened Tiles

  /** One member of a casino group: where it is, who built it and its die. */
  datatype CasinoTile = CasinoTile(loc: Loc, player: nat, die: nat)

  /** A casino group: the brand and its tiles, in the order the flood fill found them. */
  datatype BoardCasino = BoardCasino(casino: Casino, tiles: seq<CasinoTile>)

  /** Location l holds a built tile of brand c. */
  predicate IsCasinoAt(m: TileMap, c: Casino, l: Loc) {
    l in m && m[l].Built? && m[l].casino == c
  }

  /** The set of locations of a list of casino tiles. */
  function LocsOf(ts: seq<CasinoTile>): set<Loc> {
    set t | t in ts :: t.loc
  }

  lemma LocsOfAppend(ts: seq<CasinoTile>, t: CasinoTile)
    ensures LocsOf(ts + [t]) == LocsOf(ts) + {t.loc}
  {
    assert forall u :: u in ts + [t] <==> u in ts || u == t;
  }

  /** A list that repeats no location has as many locations as tiles. */
  lemma {:induction false} DistinctLocsCount(ts: seq<CasinoTile>)
    requires forall i, j :: 0 <= i < j < |ts| ==> ts[i].loc != ts[j].loc
    ensures |LocsOf(ts)| == |ts|
    decreases |ts|
  {
    if ts != [] {
      var pre := ts[..|ts| - 1];
      var last := ts[|ts| - 1];
      DistinctLocsCount(pre);
      assert ts == pre + [last];
      LocsOfAppend(pre, last);
      forall t | t in pre
        ensures t.loc != last.loc
      {
        var i :| 0 <= i < |pre| && pre[i] == t;
        assert ts[i] == t;
      }
    }
  }

  /**
   * The tiles list, without repeating a location, built tiles of brand c exactly as the
   * board holds them (same player, same die).
   */
  ghost predicate Describes(m: TileMap, c: Casino, ts: seq<CasinoTile>) {
    && (forall t :: t in ts ==> t.loc in m && m[t.loc] == Built(t.player, c, t.die))
    && (forall i, j :: 0 <= i < j < |ts| ==> ts[i].loc != ts[j].loc)
  }

  /** A non-empty walk along adjacent lots, every one built with brand c. */
  ghost predicate IsPath(m: TileMap, c: Casino, p: seq<Loc>) {
    && |p| > 0
    && (forall i :: 0 <= i < |p| ==> IsCasinoAt(m, c, p[i]))
    && (forall i :: 0 < i < |p| ==> Adjacent(p[i - 1], p[i]))
  }

  /** b can be reached from a by a path of brand-c tiles. */
  ghost predicate Reachable(m: TileMap, c: Casino, a: Loc, b: Loc) {
    exists p :: IsPath(m, c, p) && p[0] == a && p[|p| - 1] == b
  }

  /**
   * The casino group containing seed: every location reachable from it through built
   * tiles of the seed's brand; empty when the seed is not built.
   */
  ghost function Component(m: TileMap, seed: Loc): set<Loc> {
    if seed in m && m[seed].Built? then
      set l | l in m && Reachable(m, m[seed].casino, seed, l)
    else
      {}
  }

  /** No brand-c tile adjacent to a member of s lies outside s. */
  ghost predicate Closed(m: TileMap, c: Casino, s: set<Loc>) {
    forall x, y :: x in s && Adjacent(x, y) && IsCasinoAt(m, c, y) ==> y in s
  }

  /** A set of locations is a whole casino group: non-empty, and the group of each of its members. */
  ghost predicate IsComponent(m: TileMap, k: set<Loc>) {
    k != {} && forall x :: x in k ==> Component(m, x) == k
  }

  /** The distinct casino groups seeded at built tiles of the table. */
  ghost function Components(m: TileMap, table: TileTable): set<set<Loc>> {
    set l | l in table && Get(m, l).Built? :: Component(m, l)
  }

  /** The location sets of a list of groups. */
  function GroupSets(groups: seq<BoardCasino>): set<set<Loc>> {
    set i | 0 <= i < |groups| :: LocsOf(groups[i].tiles)
  }

  lemma PathSingleton(m: TileMap, c: Casino, a: Loc)
    requires IsCasinoAt(m, c, a)
    ensures IsPath(m, c, [a]) && Reachable(m, c, a, a)
  {
    assert IsPath(m, c, [a]);
  }

  lemma PathExtend(m: TileMap, c: Casino, p: seq<Loc>, y: Loc)
    requires IsPath(m, c, p)
    requires Adjacent(p[|p| - 1], y) && IsCasinoAt(m, c, y)
    ensures IsPath(m, c, p + [y])
  {
  }

  /** Walking a path backwards is again a path, because adjacency is symmetric. */
  lemma ReachableSymmetric(m: TileMap, c: Casino, a: Loc, b: Loc)
    requires Reachable(m, c, a, b)
    ensures Reachable(m, c, b, a)
  {
    var p :| IsPath(m, c, p) && p[0] == a && p[|p| - 1] == b;
    var q := seq(|p|, i requires 0 <= i < |p| => p[|p| - 1 - i]);
    forall i | 0 < i < |q|
      ensures Adjacent(q[i - 1], q[i])
    {
      AdjacentSymmetric(p[|p| - 1 - i], p[|p| - i]);
    }
    assert IsPath(m, c, q);
  }

  /** Two paths that meet end to start join into one. */
  lemma ReachableTransitive(m: TileMap, c: Casino, a: Loc, b: Loc, d: Loc)
    requires Reachable(m, c, a, b) && Reachable(m, c, b, d)
    ensures Reachable(m, c, a, d)
  {
    var p :| IsPath(m, c, p) && p[0] == a && p[|p| - 1] == b;
    var q :| IsPath(m, c, q) && q[0] == b && q[|q| - 1] == d;
    var r := p + q[1..];
    forall i | 0 < i < |r|
      ensures Adjacent(r[i - 1], r[i])
    {
      if i >= |p| {
        assert r[i - 1] == q[i - |p|] && r[i] == q[i - |p| + 1];
      }
    }
    assert IsPath(m, c, r);
  }

  /** The last tile of a path is a brand-c tile. */
  lemma ReachableIsCasino(m: TileMap, c: Casino, a: Loc, b: Loc)
    requires Reachable(m, c, a, b)
    ensures IsCasinoAt(m, c, b) && IsCasinoAt(m, c, a)
  {
  }

  /** A path that starts inside a closed set never leaves it. */
  lemma {:induction false} ClosedContainsPath(m: TileMap, c: Casino, s: set<Loc>, p: seq<Loc>)
    requires IsPath(m, c, p) && p[0] in s && Closed(m, c, s)
    ensures p[|p| - 1] in s
    decreases |p|
  {
    if |p| > 1 {
      var q := p[..|p| - 1];
      assert IsPath(m, c, q);
      ClosedContainsPath(m, c, s, q);
      assert Adjacent(q[|q| - 1], p[|p| - 1]);
    }
  }

  /** A closed set holding a built seed holds the seed's whole group. */
  lemma ComponentWithin(m: TileMap, seed: Loc, s: set<Loc>)
    requires seed in m && m[seed].Built? && seed in s && Closed(m, m[seed].casino, s)
    ensures Component(m, seed) <= s
  {
    forall l | l in Component(m, seed)
      ensures l in s
    {
      var p :| IsPath(m, m[seed].casino, p) && p[0] == seed && p[|p| - 1] == l;
      ClosedContainsPath(m, m[seed].casino, s, p);
    }
  }

  /** Every member of a group holds a built tile of the seed's brand. */
  lemma ComponentMembers(m: TileMap, seed: Loc)
    ensures forall l :: l in Component(m, seed) ==> IsCasinoAt(m, m[seed].casino, l)
    ensures seed in m && m[seed].Built? ==> seed in Component(m, seed)
  {
    if seed in m && m[seed].Built? {
      PathSingleton(m, m[seed].casino, seed);
    }
  }

  /** Any member of a group has that same group: groups partition the built tiles. */
  lemma ComponentOfMember(m: TileMap, s: Loc, x: Loc)
    requires x in Component(m, s)
    ensures Component(m, x) == Component(m, s)
  {
    var c := m[s].casino;
    ReachableIsCasino(m, c, s, x);
    forall l
      ensures l in Component(m, x) <==> l in Component(m, s)
    {
      if l in Component(m, x) {
        ReachableTransitive(m, c, s, x, l);
      }
      if l in Component(m, s) {
        ReachableSymmetric(m, c, s, x);
        ReachableTransitive(m, c, x, s, l);
      }
    }
  }

  /** Two groups that share a location are the same group. */
  lemma ComponentsOverlap(m: TileMap, a: Loc, b: Loc, y: Loc)
    requires y in Component(m, a) && y in Component(m, b)
    ensures Component(m, a) == Component(m, b)
  {
    ComponentOfMember(m, a, y);
    ComponentOfMember(m, b, y);
  }

  /** Two groups are either the same group or share no location. */
  lemma ComponentsEqualOrDisjoint(m: TileMap, a: Loc, b: Loc)
    ensures Component(m, a) == Component(m, b) || Component(m, a) !! Component(m, b)
  {
    if y :| y in Component(m, a) && y in Component(m, b) {
      ComponentsOverlap(m, a, b, y);
    }
  }

  /**
   * What the flood fill knows when its queue runs dry: the tiles it found form a closed set
   * around the seed, each reached by a path from it, so they are exactly the seed's group.
   */
  lemma FloodFillComplete(m: TileMap, loc: Loc, found: set<Loc>, paths: map<Loc, seq<Loc>>)
    requires loc in m && m[loc].Built? && loc in found
    requires Closed(m, m[loc].casino, found)
    requires forall x :: x in found ==> x in m
    requires forall x :: x in found ==>
               x in paths && IsPath(m, m[loc].casino, paths[x]) && paths[x][0] == loc && paths[x][|paths[x]| - 1] == x
    ensures found == Component(m, loc)
  {
    ComponentWithin(m, loc, found);
    forall x | x in found
      ensures x in Component(m, loc)
    {
      assert IsPath(m, m[loc].casino, paths[x]);
    }
  }

  /**
   * The inner loop of the flood fill: queues each neighbour of next that has not been
   * visited yet.
   */
  method EnqueueNeighbours(next: Loc, visited: set<Loc>, queue: set<Loc>) returns (grown: set<Loc>)
    requires next.Valid()
    requires queue !! visited
    ensures queue <= grown && grown !! visited
    ensures forall y :: Adjacent(next, y) ==> y in visited + grown
    ensures forall q :: q in grown - queue ==> Adjacent(next, q)
  {
    var ns := Neighbours(next);
    grown := queue;
    for k := 0 to |ns|
      invariant queue <= grown && grown !! visited
      invariant forall j :: 0 <= j < k ==> ns[j] in visited + grown
      invariant forall q :: q in grown - queue ==> Adjacent(next, q)
    {
      if ns[k] !in visited {
        grown := grown + {ns[k]};
      }
    }
  }

  /** p is a path of brand-c tiles from a to b. */
  ghost predicate PathFromTo(m: TileMap, c: Casino, p: seq<Loc>, a: Loc, b: Loc) {
    IsPath(m, c, p) && p[0] == a && p[|p| - 1] == b
  }

  /**
   * The flood fill's loop invariant. The queue and the visited set are disjoint; the
   * tiles found so far are exactly the visited brand-c tiles, listed as the board holds
   * them and each reached by a recorded path from the seed; each queued location other
   * than the seed is next to a found tile; and every neighbour of a found tile has been
   * visited or queued.
   */
  ghost predicate FillInvariant(m: TileMap, c: Casino, loc: Loc, queue: set<Loc>, visited: set<Loc>,
                                tiles: seq<CasinoTile>, found: set<Loc>,
                                paths: map<Loc, seq<Loc>>, parent: map<Loc, Loc>)
  {
    && queue !! visited
    && loc in queue + visited
    && found == LocsOf(tiles)
    && Describes(m, c, tiles)
    && (forall x :: x in found <==> x in visited && IsCasinoAt(m, c, x))
    && (forall x :: x in found ==> x in paths && PathFromTo(m, c, paths[x], loc, x))
    && (forall q :: q in queue && q != loc ==> q in parent && parent[q] in found && Adjacent(parent[q], q))
    && (forall x, y :: x in found && Adjacent(x, y) ==> y in visited + queue)
  }

  /** Popping a location that is not a brand-c tile keeps the invariant. */
  lemma FillSkip(m: TileMap, c: Casino, loc: Loc, queue: set<Loc>, visited: set<Loc>,
                 tiles: seq<CasinoTile>, found: set<Loc>,
                 paths: map<Loc, seq<Loc>>, parent: map<Loc, Loc>, next: Loc)
    requires FillInvariant(m, c, loc, queue, visited, tiles, found, paths, parent)
    requires next in queue && !IsCasinoAt(m, c, next)
    ensures FillInvariant(m, c, loc, queue - {next}, visited + {next}, tiles, found, paths, parent)
  {
  }

  /**
   * Popping a brand-c tile, recording it with its path and queueing its unvisited
   * neighbours keeps the invariant.
   */
  lemma FillAdd(m: TileMap, c: Casino, loc: Loc, queue: set<Loc>, visited: set<Loc>,
                tiles: seq<CasinoTile>, found: set<Loc>,
                paths: map<Loc, seq<Loc>>, parent: map<Loc, Loc>, next: Loc, grown: set<Loc>)
    requires FillInvariant(m, c, loc, queue, visited, tiles, found, paths, parent)
    requires next in queue && IsCasinoAt(m, c, next)
    requires IsCasinoAt(m, c, loc)
    requires queue - {next} <= grown && grown !! visited + {next}
    requires forall y :: Adjacent(next, y) ==> y in visited + {next} + grown
    requires forall q :: q in grown - (queue - {next}) ==> Adjacent(next, q)
    ensures var t := CasinoTile(next, m[next].player, m[next].die);
            var p := if next == loc then [loc] else paths[parent[next]] + [next];
            FillInvariant(m, c, loc, grown, visited + {next}, tiles + [t], found + {next},
                          paths[next := p], parent + map q | q in grown - (queue - {next}) :: next)
  {
    var t := CasinoTile(next, m[next].player, m[next].die);
    LocsOfAppend(tiles, t);
    var p := if next == loc then [loc] else paths[parent[next]] + [next];
    if next == loc {
      PathSingleton(m, c, loc);
    } else {
      PathExtend(m, c, paths[parent[next]], next);
    }
    assert PathFromTo(m, c, p, loc, next);
  }

  /**
   * The group of built tiles of the same brand connected to loc, found by a flood fill
   * from loc that takes queued locations in an unspecified order; None when loc is not built.
   */
  method CasinoAt(m: TileMap, loc: Loc) returns (r: Option<BoardCasino>)
    requires WellFormed(m)
    ensures r.None? <==> !Get(m, loc).Built?
    ensures r.Some? ==> r.value.casino == Get(m, loc).casino
    ensures r.Some? ==> Describes(m, r.value.casino, r.value.tiles)
    ensures r.Some? ==> loc in LocsOf(r.value.tiles)
    ensures r.Some? ==> LocsOf(r.value.tiles) == Component(m, loc)
  {
    var seed := Get(m, loc);
    if !seed.Built? {
      return None;
    }
    var casino := seed.casino;
    var queue: set<Loc> := {loc};
    var visited: set<Loc> := {};
    var tiles: seq<CasinoTile> := [];
    ghost var found: set<Loc> := {};
    ghost var paths: map<Loc, seq<Loc>> := map[];
    ghost var parent: map<Loc, Loc> := map[];
    while queue != {}
      invariant FillInvariant(m, casino, loc, queue, visited, tiles, found, paths, parent)
      decreases m.Keys - visited, queue
    {
      var next :| next in queue;
      ghost var queue0, visited0, tiles0 := queue, visited, tiles;
      visited := visited + {next};
      queue := queue - {next};
      var t := Get(m, next);
      if t.Built? && t.casino == casino {
        tiles := tiles + [CasinoTile(next, t.player, t.die)];
        var grown := EnqueueNeighbours(next, visited, queue);
        FillAdd(m, casino, loc, queue0, visited0, tiles0, found, paths, parent, next, grown);
        paths := paths[next := if next == loc then [loc] else paths[parent[next]] + [next]];
        parent := parent + map q | q in grown - queue :: next;
        found := found + {next};
        queue := grown;
      } else {
        FillSkip(m, casino, loc, queue0, visited0, tiles, found, paths, parent, next);
      }
    }
    FloodFillComplete(m, loc, found, paths);
    return Some(BoardCasino(casino, tiles));
  }

  /** The groups seeded at the built tiles among some locations. */
  ghost function ComponentsAmong(m: TileMap, seeds: set<Loc>): set<set<Loc>> {
    set l | l in seeds && Get(m, l).Built? :: Component(m, l)
  }

  lemma ComponentsAmongAdd(m: TileMap, seeds: set<Loc>, l: Loc)
    ensures ComponentsAmong(m, seeds + {l}) ==
            ComponentsAmong(m, seeds) + (if Get(m, l).Built? then {Component(m, l)} else {})
  {
  }

  lemma GroupSetsAppend(groups: seq<BoardCasino>, bc: BoardCasino)
    ensures GroupSets(groups + [bc]) == GroupSets(groups) + {LocsOf(bc.tiles)}
  {
    var groups' := groups + [bc];
    assert forall i :: 0 <= i < |groups| ==> groups'[i] == groups[i];
    assert groups'[|groups|] == bc;
  }

  /** The locations held by the groups of a list are exactly `visited`. */
  ghost predicate CoveredBy(groups: seq<BoardCasino>, visited: set<Loc>) {
    forall x :: x in visited <==> exists i :: 0 <= i < |groups| && x in LocsOf(groups[i].tiles)
  }

  /** Every group of a list is a whole casino group, listed as the board holds it. */
  ghost predicate AllWhole(m: TileMap, groups: seq<BoardCasino>) {
    forall i :: 0 <= i < |groups| ==>
      Describes(m, groups[i].casino, groups[i].tiles) && IsComponent(m, LocsOf(groups[i].tiles))
  }

  /** No two groups of a list share a location. */
  ghost predicate PairwiseDisjoint(groups: seq<BoardCasino>) {
    forall i, j :: 0 <= i < j < |groups| ==> LocsOf(groups[i].tiles) !! LocsOf(groups[j].tiles)
  }

  /**
   * The enumeration's loop invariant: every group emitted so far is a whole casino group
   * listed as the board holds it, the groups are pairwise disjoint, the visited set is
   * their union, and they are exactly the groups of the built tiles scanned so far, each
   * emitted once.
   */
  ghost predicate EnumInvariant(m: TileMap, done: set<Loc>, visited: set<Loc>, groups: seq<BoardCasino>) {
    && AllWhole(m, groups)
    && PairwiseDisjoint(groups)
    && CoveredBy(groups, visited)
    && GroupSets(groups) == ComponentsAmong(m, done)
    && |GroupSets(groups)| == |groups|
  }

  /** Scanning a location that some emitted group already holds emits nothing and keeps the invariant. */
  lemma EnumSkip(m: TileMap, done: set<Loc>, visited: set<Loc>, groups: seq<BoardCasino>, l: Loc)
    requires EnumInvariant(m, done, visited, groups)
    requires l in visited
    ensures EnumInvariant(m, done + {l}, visited, groups)
  {
    var i :| 0 <= i < |groups| && l in LocsOf(groups[i].tiles);
    var t :| t in groups[i].tiles && t.loc == l;
    assert Get(m, l).Built?;
    assert Component(m, l) == LocsOf(groups[i].tiles);
    ComponentsAmongAdd(m, done, l);
  }

  /** Scanning a location that is not built emits nothing and keeps the invariant. */
  lemma EnumUnbuilt(m: TileMap, done: set<Loc>, visited: set<Loc>, groups: seq<BoardCasino>, l: Loc)
    requires EnumInvariant(m, done, visited, groups)
    requires !Get(m, l).Built?
    ensures EnumInvariant(m, done + {l}, visited, groups)
  {
    ComponentsAmongAdd(m, done, l);
  }

  /** The group found from a built seed is a whole casino group. */
  lemma SeedGroupIsComponent(m: TileMap, l: Loc)
    requires Get(m, l).Built?
    ensures IsComponent(m, Component(m, l))
  {
    ComponentMembers(m, l);
    forall x | x in Component(m, l)
      ensures Component(m, x) == Component(m, l)
    {
      ComponentOfMember(m, l, x);
    }
  }

  /** A new group seeded outside every emitted group shares no location with any of them. */
  lemma NewGroupDisjoint(m: TileMap, groups: seq<BoardCasino>, l: Loc, k: set<Loc>)
    requires forall i :: 0 <= i < |groups| ==> IsComponent(m, LocsOf(groups[i].tiles))
    requires forall i :: 0 <= i < |groups| ==> l !in LocsOf(groups[i].tiles)
    requires k == Component(m, l)
    ensures forall i :: 0 <= i < |groups| ==> LocsOf(groups[i].tiles) !! k
  {
    forall i | 0 <= i < |groups|
      ensures LocsOf(groups[i].tiles) !! k
    {
      var g := LocsOf(groups[i].tiles);
      var x :| x in g;
      ComponentsEqualOrDisjoint(m, x, l);
      ComponentMembers(m, l);
    }
  }

  /** Appending a whole group keeps every group whole. */
  lemma AllWholeAppend(m: TileMap, groups: seq<BoardCasino>, bc: BoardCasino)
    requires AllWhole(m, groups)
    requires Describes(m, bc.casino, bc.tiles) && IsComponent(m, LocsOf(bc.tiles))
    ensures AllWhole(m, groups + [bc])
  {
    var groups' := groups + [bc];
    assert forall i :: 0 <= i < |groups| ==> groups'[i] == groups[i];
    assert groups'[|groups|] == bc;
  }

  /** Appending a group disjoint from every other keeps the list pairwise disjoint. */
  lemma PairwiseDisjointAppend(groups: seq<BoardCasino>, bc: BoardCasino)
    requires PairwiseDisjoint(groups)
    requires forall i :: 0 <= i < |groups| ==> LocsOf(groups[i].tiles) !! LocsOf(bc.tiles)
    ensures PairwiseDisjoint(groups + [bc])
  {
    var groups' := groups + [bc];
    forall i, j | 0 <= i < j < |groups'|
      ensures LocsOf(groups'[i].tiles) !! LocsOf(groups'[j].tiles)
    {
      assert groups'[i] == groups[i];
      if j == |groups| {
        assert groups'[j] == bc;
      } else {
        assert groups'[j] == groups[j];
      }
    }
  }

  /** Appending a group adds its locations to the covered set. */
  lemma CoveredByAppend(groups: seq<BoardCasino>, visited: set<Loc>, bc: BoardCasino)
    requires CoveredBy(groups, visited)
    ensures CoveredBy(groups + [bc], visited + LocsOf(bc.tiles))
  {
    var groups' := groups + [bc];
    forall x
      ensures x in visited + LocsOf(bc.tiles) <==> exists i :: 0 <= i < |groups'| && x in LocsOf(groups'[i].tiles)
    {
      if x in visited {
        var i :| 0 <= i < |groups| && x in LocsOf(groups[i].tiles);
        assert groups'[i] == groups[i];
      } else if x in LocsOf(bc.tiles) {
        assert groups'[|groups|] == bc;
      }
      if i :| 0 <= i < |groups'| && x in LocsOf(groups'[i].tiles) {
        if i < |groups| {
          assert groups'[i] == groups[i];
        }
      }
    }
  }

  /** A group holding a location that no listed group holds is not among the listed groups. */
  lemma FreshGroup(groups: seq<BoardCasino>, l: Loc, k: set<Loc>)
    requires forall i :: 0 <= i < |groups| ==> l !in LocsOf(groups[i].tiles)
    requires l in k
    ensures k !in GroupSets(groups)
  {
    assert forall i :: 0 <= i < |groups| ==> LocsOf(groups[i].tiles) != k;
  }

  /** Scanning an unvisited built location emits its group, which is new and disjoint from the others. */
  lemma EnumAdd(m: TileMap, done: set<Loc>, visited: set<Loc>, groups: seq<BoardCasino>, l: Loc, bc: BoardCasino)
    requires EnumInvariant(m, done, visited, groups)
    requires l !in visited && Get(m, l).Built?
    requires Describes(m, bc.casino, bc.tiles) && LocsOf(bc.tiles) == Component(m, l)
    ensures EnumInvariant(m, done + {l}, visited + LocsOf(bc.tiles), groups + [bc])
  {
    var k := LocsOf(bc.tiles);
    assert forall i :: 0 <= i < |groups| ==> l !in LocsOf(groups[i].tiles);
    SeedGroupIsComponent(m, l);
    ComponentMembers(m, l);
    NewGroupDisjoint(m, groups, l, k);
    AllWholeAppend(m, groups, bc);
    PairwiseDisjointAppend(groups, bc);
    CoveredByAppend(groups, visited, bc);
    FreshGroup(groups, l, k);
    GroupSetsAppend(groups, bc);
    ComponentsAmongAdd(m, done, l);
  }

  /**
   * Every casino group on the board that has a tile at a location of the tile table, each
   * exactly once. Table locations are scanned in an unspecified order and a location that
   * an emitted group already holds is skipped.
   */
  method Casinos(m: TileMap, table: TileTable) returns (groups: seq<BoardCasino>)
    requires WellFormed(m)
    ensures forall i :: 0 <= i < |groups| ==>
              Describes(m, groups[i].casino, groups[i].tiles) && IsComponent(m, LocsOf(groups[i].tiles))
    ensures forall i, j :: 0 <= i < j < |groups| ==> LocsOf(groups[i].tiles) !! LocsOf(groups[j].tiles)
    ensures forall l :: l in table && Get(m, l).Built? ==>
              exists i :: 0 <= i < |groups| && l in LocsOf(groups[i].tiles)
    ensures GroupSets(groups) == Components(m, table)
    ensures |groups| == |Components(m, table)|
  {
    var visited: set<Loc> := {};
    groups := [];
    var rest := table.Keys;
    ghost var done: set<Loc> := {};
    assert ComponentsAmong(m, done) == {};
    while rest != {}
      invariant rest <= table.Keys && done == table.Keys - rest
      invariant EnumInvariant(m, done, visited, groups)
      decreases rest
    {
      var loc :| loc in rest;
      rest := rest - {loc};
      if loc in visited {
        EnumSkip(m, done, visited, groups, loc);
        done := done + {loc};
        continue;
      }
      var r := CasinoAt(m, loc);
      match r {
        case Some(bc) =>
          EnumAdd(m, done, visited, groups, loc, bc);
          visited := visited + LocsOf(bc.tiles);
          groups := groups + [bc];
        case None =>
          EnumUnbuilt(m, done, visited, groups, loc);
      }
      done := done + {loc};
    }
    assert ComponentsAmong(m, done) == Components(m, table);
    forall l | l in table && Get(m, l).Built?
      ensures exists i :: 0 <= i < |groups| && l in LocsOf(groups[i].tiles)
    {
      assert Component(m, l) in GroupSets(groups);
      var i :| 0 <= i < |groups| && LocsOf(groups[i].tiles) == Component(m, l);
      ComponentMembers(m, l);
    }
  }
}
