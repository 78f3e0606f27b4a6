/**
 * The board object: the tile store that the game updates in place, with the operations
 * that write to it (set a tile, reroll a die, settle boss ties).
 */
module BoardState {
  import opened Wrappers
  import opened Grid
  import opened Layout
  import opened Tiles
  import opened Connectivity
  import opened Bosses

  /** A face of the six-sided die the game rolls. */
  predicate IsDieFace(d: nat) {
    1 <= d <= 6
  }

  /**
   * m1 differs from m0 at most in the dice of built tiles: the same locations are stored,
   * and every tile keeps its kind, its player and its brand.
   */
  ghost predicate DiceOnly(m0: TileMap, m1: TileMap) {
    && m1.Keys == m0.Keys
    && forall l :: l in m0 ==>
         if m0[l].Built? then
           m1[l].Built? && m1[l].player == m0[l].player && m1[l].casino == m0[l].casino
         else
           m1[l] == m0[l]
  }

  /**
   * m1 is m0 with a new die face rolled on every location of s, each of which holds a
   * built tile in m0, and nothing else changed.
   */
  ghost predicate RerolledAt(m0: TileMap, m1: TileMap, s: set<Loc>) {
    && m1.Keys == m0.Keys
    && (forall l :: l in s ==> l in m0 && m0[l].Built?)
    && forall l :: l in m0 ==>
         if l in s then
           m1[l].Built? && m1[l].player == m0[l].player && m1[l].casino == m0[l].casino
           && IsDieFace(m1[l].die)
         else
           m1[l] == m0[l]
  }

  /**
   * The tiles a pass of tie resolution rerolls: every boss tile of a tied casino group
   * that has a tile at a location of the table.
   */
  ghost function TiedBosses(m: TileMap, table: TileTable): set<Loc> {
    set l | l in m && IsBossAt(m, l) && Tied(m, l) && Component(m, l) in Components(m, table)
  }

  lemma RerollStep(m0: TileMap, m1: TileMap, s: set<Loc>, l: Loc, d: nat)
    requires RerolledAt(m0, m1, s)
    requires l in m0 && m0[l].Built? && IsDieFace(d)
    ensures RerolledAt(m0, m1[l := Built(m0[l].player, m0[l].casino, d)], s + {l})
  {
  }

  /** Rerolling changes dice only. */
  lemma RerolledDiceOnly(m0: TileMap, m1: TileMap, s: set<Loc>)
    requires RerolledAt(m0, m1, s)
    ensures DiceOnly(m0, m1)
  {
  }

  lemma DiceOnlyTransitive(m0: TileMap, m1: TileMap, m2: TileMap)
    requires DiceOnly(m0, m1) && DiceOnly(m1, m2)
    ensures DiceOnly(m0, m2)
  {
  }

  /** Changing dice only keeps every path of every brand. */
  lemma DiceOnlyKeepsPaths(m0: TileMap, m1: TileMap, c: Casino, p: seq<Loc>)
    requires DiceOnly(m0, m1)
    ensures IsPath(m0, c, p) <==> IsPath(m1, c, p)
  {
    assert forall l :: IsCasinoAt(m0, c, l) <==> IsCasinoAt(m1, c, l);
  }

  /** Changing dice only never changes a casino group: rerolls cannot join or split casinos. */
  lemma DiceOnlyKeepsGroups(m0: TileMap, m1: TileMap, seed: Loc)
    requires DiceOnly(m0, m1)
    ensures Component(m0, seed) == Component(m1, seed)
  {
    if seed in m0 && m0[seed].Built? {
      var c := m0[seed].casino;
      forall l
        ensures Reachable(m0, c, seed, l) <==> Reachable(m1, c, seed, l)
      {
        if Reachable(m0, c, seed, l) {
          var p :| IsPath(m0, c, p) && p[0] == seed && p[|p| - 1] == l;
          DiceOnlyKeepsPaths(m0, m1, c, p);
        }
        if Reachable(m1, c, seed, l) {
          var p :| IsPath(m1, c, p) && p[0] == seed && p[|p| - 1] == l;
          DiceOnlyKeepsPaths(m0, m1, c, p);
        }
      }
    }
  }

  /** The boss tiles and the tie of a listed group, read on the board at any of its locations. */
  lemma GroupOnBoard(m: TileMap, bc: BoardCasino, l: Loc)
    requires Describes(m, bc.casino, bc.tiles) && IsComponent(m, LocsOf(bc.tiles))
    requires l in LocsOf(bc.tiles)
    ensures BossTie(bc) <==> Tied(m, l)
    ensures forall t :: t in bc.tiles ==> (t in TopTiles(bc.tiles) <==> IsBossAt(m, t.loc))
  {
    BossTieOnBoard(m, l, bc);
    forall t | t in bc.tiles
      ensures t in TopTiles(bc.tiles) <==> IsBossAt(m, t.loc)
    {
      TopTilesOnBoard(m, l, bc, t);
    }
  }

  /**
   * What a pass has rerolled after its first i groups: the boss tiles of those groups
   * that are tied on the board as it stood when the pass began.
   */
  ghost predicate RerolledSoFar(m: TileMap, groups: seq<BoardCasino>, i: nat, s: set<Loc>) {
    forall l :: l in s <==>
      (exists j :: 0 <= j < i && j < |groups| && l in LocsOf(groups[j].tiles)) && IsBossAt(m, l) && Tied(m, l)
  }

  /** Passing over an untied group rerolls nothing of it. */
  lemma PassSkip(m: TileMap, groups: seq<BoardCasino>, i: nat, s: set<Loc>)
    requires AllWhole(m, groups)
    requires i < |groups| && !BossTie(groups[i])
    requires RerolledSoFar(m, groups, i, s)
    ensures RerolledSoFar(m, groups, i + 1, s)
  {
    forall l | l in LocsOf(groups[i].tiles)
      ensures !Tied(m, l)
    {
      GroupOnBoard(m, groups[i], l);
    }
  }

  /** The locations of the boss tiles of a tied listed group are its tied boss tiles on the board. */
  lemma TiedGroupBosses(m: TileMap, g: BoardCasino)
    requires Describes(m, g.casino, g.tiles) && IsComponent(m, LocsOf(g.tiles))
    requires BossTie(g)
    ensures forall l :: l in LocsOf(TopTiles(g.tiles)) <==> l in LocsOf(g.tiles) && IsBossAt(m, l) && Tied(m, l)
  {
    forall l
      ensures l in LocsOf(TopTiles(g.tiles)) <==> l in LocsOf(g.tiles) && IsBossAt(m, l) && Tied(m, l)
    {
      if u :| u in TopTiles(g.tiles) && u.loc == l {
        GroupOnBoard(m, g, l);
      }
      if t :| t in g.tiles && t.loc == l {
        GroupOnBoard(m, g, l);
      }
    }
  }

  /** Passing over a tied group rerolls exactly its boss tiles. */
  lemma PassTied(m: TileMap, groups: seq<BoardCasino>, i: nat, before: set<Loc>, after: set<Loc>)
    requires i < |groups|
    requires forall l :: l in after - before <==> l in LocsOf(groups[i].tiles) && IsBossAt(m, l) && Tied(m, l)
    requires before <= after
    requires RerolledSoFar(m, groups, i, before)
    ensures RerolledSoFar(m, groups, i + 1, after)
  {
  }

  /** After the last group, a pass has rerolled exactly the tied bosses of the board. */
  lemma PassRerolledAll(m: TileMap, table: TileTable, groups: seq<BoardCasino>, s: set<Loc>)
    requires AllWhole(m, groups)
    requires GroupSets(groups) == Components(m, table)
    requires RerolledSoFar(m, groups, |groups|, s)
    ensures s == TiedBosses(m, table)
  {
    forall l
      ensures l in s <==> l in TiedBosses(m, table)
    {
      if l in s {
        var j :| 0 <= j < |groups| && l in LocsOf(groups[j].tiles);
        assert Component(m, l) == LocsOf(groups[j].tiles);
        assert LocsOf(groups[j].tiles) in GroupSets(groups);
      }
      if l in TiedBosses(m, table) {
        assert Component(m, l) in GroupSets(groups);
        var j :| 0 <= j < |groups| && LocsOf(groups[j].tiles) == Component(m, l);
        ComponentMembers(m, l);
      }
    }
  }

  /** A tied listed group is a tied group of the board. */
  lemma ListedTieOnBoard(m: TileMap, table: TileTable, groups: seq<BoardCasino>, j: nat)
    requires j < |groups|
    requires Describes(m, groups[j].casino, groups[j].tiles) && IsComponent(m, LocsOf(groups[j].tiles))
    requires LocsOf(groups[j].tiles) in Components(m, table)
    requires BossTie(groups[j])
    ensures !NoTies(m, table)
  {
    var k := LocsOf(groups[j].tiles);
    var s :| s in table && Get(m, s).Built? && Component(m, s) == k;
    ComponentMembers(m, s);
    GroupOnBoard(m, groups[j], s);
  }

  /** A tied group of the board is a tied listed group. */
  lemma BoardTieListed(m: TileMap, table: TileTable, groups: seq<BoardCasino>, s: Loc)
    requires AllWhole(m, groups)
    requires Components(m, table) <= GroupSets(groups)
    requires s in table && Get(m, s).Built? && Tied(m, s)
    ensures exists j :: 0 <= j < |groups| && BossTie(groups[j])
  {
    assert Component(m, s) in Components(m, table);
    var j :| 0 <= j < |groups| && LocsOf(groups[j].tiles) == Component(m, s);
    ComponentMembers(m, s);
    GroupOnBoard(m, groups[j], s);
  }

  /** One of the first i listed groups has a boss tie. */
  ghost predicate TieAmong(groups: seq<BoardCasino>, i: nat) {
    exists j :: 0 <= j < i && j < |groups| && BossTie(groups[j])
  }

  lemma TieAmongStep(groups: seq<BoardCasino>, i: nat)
    requires i < |groups|
    ensures TieAmong(groups, i + 1) <==> TieAmong(groups, i) || BossTie(groups[i])
  {
  }

  /** A pass finds a tie in its list of groups exactly when the board has a tied group. */
  lemma PassFindsTies(m: TileMap, table: TileTable, groups: seq<BoardCasino>)
    requires AllWhole(m, groups)
    requires GroupSets(groups) == Components(m, table)
    ensures TieAmong(groups, |groups|) <==> !NoTies(m, table)
  {
    if j :| 0 <= j < |groups| && BossTie(groups[j]) {
      assert LocsOf(groups[j].tiles) in GroupSets(groups);
      ListedTieOnBoard(m, table, groups, j);
    }
    if !NoTies(m, table) {
      var s :| s in table && Get(m, s).Built? && Tied(m, s);
      BoardTieListed(m, table, groups, s);
    }
  }

  /** A location rerolled by a pass belongs to a tied group of the board. */
  lemma TiedBossWitness(m: TileMap, table: TileTable, l: Loc)
    ensures l in TiedBosses(m, table) ==> !NoTies(m, table)
  {
    if l in TiedBosses(m, table) {
      var s :| s in table && Get(m, s).Built? && Component(m, s) == Component(m, l);
      assert Tied(m, s);
    }
  }

  /** A pass over a board without boss ties changes nothing. */
  lemma NothingTied(m0: TileMap, table: TileTable, m1: TileMap)
    requires NoTies(m0, table)
    requires RerolledAt(m0, m1, TiedBosses(m0, table))
    ensures m1 == m0
  {
    forall l
      ensures l !in TiedBosses(m0, table)
    {
      TiedBossWitness(m0, table, l);
    }
    assert forall l :: l in m0 ==> m1[l] == m0[l];
  }

  /** The board: a sparse map from location to tile, updated in place. */
  class Board {
    var tiles: TileMap

    /** The empty board: every lot unowned. */
    constructor()
      ensures tiles == map[]
    {
      tiles := map[];
    }

    /** Stores a tile at a location, replacing whatever was there. */
    method Set(loc: Loc, bt: BoardTile)
      modifies this
      ensures tiles == old(tiles)[loc := bt]
    {
      tiles := tiles[loc := bt];
    }

    /**
     * Rolls a new die for the built tile at loc and returns it; a lot that is not built
     * is left alone and gives None. The roll is an unspecified die face.
     */
    method RerollAt(loc: Loc) returns (r: Option<nat>)
      modifies this
      ensures !Get(old(tiles), loc).Built? ==> r.None? && tiles == old(tiles)
      ensures Get(old(tiles), loc).Built? ==>
                && r.Some? && IsDieFace(r.value)
                && tiles == old(tiles)[loc := Built(old(tiles)[loc].player, old(tiles)[loc].casino, r.value)]
    {
      match Get(tiles, loc) {
        case Built(player, casino, _) =>
          assert IsDieFace(1);
          var die: nat :| IsDieFace(die);
          Set(loc, Built(player, casino, die));
          r := Some(die);
        case _ =>
          r := None;
      }
    }

    /**
     * Rerolls each of the given tiles in turn; every other stored tile, including one
     * rerolled earlier in the same pass, keeps its state.
     */
    method RerollTiles(ghost m0: TileMap, ghost s: set<Loc>, ts: seq<CasinoTile>)
      requires RerolledAt(m0, tiles, s)
      requires forall t :: t in ts ==> t.loc in m0 && m0[t.loc].Built?
      modifies this
      ensures RerolledAt(m0, tiles, s + LocsOf(ts))
      ensures forall l :: l in old(tiles) && l !in LocsOf(ts) ==> l in tiles && tiles[l] == old(tiles)[l]
    {
      ghost var done := s;
      for k := 0 to |ts|
        invariant RerolledAt(m0, tiles, done)
        invariant done == s + LocsOf(ts[..k])
        invariant forall l :: l in old(tiles) && l !in LocsOf(ts[..k]) ==> l in tiles && tiles[l] == old(tiles)[l]
      {
        var l := ts[k].loc;
        assert ts[k] in ts;
        ghost var t0 := tiles;
        var r := RerollAt(l);
        RerollStep(m0, t0, done, l, r.value);
        assert ts[..k + 1] == ts[..k] + [ts[k]];
        LocsOfAppend(ts[..k], ts[k]);
        done := done + {l};
      }
      assert ts[..|ts|] == ts;
    }

    /**
     * One pass of tie resolution: lists the casino groups once, and rerolls every boss
     * tile of each group whose boss tiles belong to more than one player. Reports whether
     * any group was tied.
     */
    method ResolvePass(table: TileTable) returns (tie: bool)
      requires WellFormed(tiles)
      modifies this
      ensures tie <==> !NoTies(old(tiles), table)
      ensures RerolledAt(old(tiles), tiles, TiedBosses(old(tiles), table))
    {
      ghost var m0 := tiles;
      var groups := Casinos(tiles, table);
      tie := false;
      ghost var rerolled: set<Loc> := {};
      for i := 0 to |groups|
        invariant RerolledAt(m0, tiles, rerolled)
        invariant RerolledSoFar(m0, groups, i, rerolled)
        invariant tie == TieAmong(groups, i)
      {
        var bosses := BossTiles(groups[i]);
        if |PlayersOf(bosses)| <= 1 {
          TieAmongStep(groups, i);
          PassSkip(m0, groups, i, rerolled);
          continue;
        }
        TieAmongStep(groups, i);
        tie := true;
        ghost var before := rerolled;
        RerollTiles(m0, rerolled, bosses);
        rerolled := rerolled + LocsOf(bosses);
        TiedGroupBosses(m0, groups[i]);
        PassTied(m0, groups, i, before, rerolled);
      }
      PassRerolledAll(m0, table, groups, rerolled);
      PassFindsTies(m0, table, groups);
    }

    /**
     * Settles boss ties by running passes until one finds no tie. The result is None when
     * the first pass finds none, the board then being unchanged, and otherwise Some of an
     * empty log. At most `passes` passes follow the first; `settled` says whether the
     * last pass found no tie.
     */
    method ResolveBossTies(table: TileTable, passes: nat) returns (r: Option<seq<Log>>, settled: bool)
      requires WellFormed(tiles)
      modifies this
      ensures r.None? <==> NoTies(old(tiles), table)
      ensures r.None? ==> tiles == old(tiles)
      ensures r.Some? ==> r.value == []
      ensures settled ==> NoTies(tiles, table)
      ensures DiceOnly(old(tiles), tiles)
    {
      ghost var m0 := tiles;
      var tie := ResolvePass(table);
      RerolledDiceOnly(m0, tiles, TiedBosses(m0, table));
      if !tie {
        NothingTied(m0, table, tiles);
        return None, true;
      }
      settled := false;
      var k := 0;
      while k < passes && !settled
        invariant WellFormed(tiles) && DiceOnly(m0, tiles)
        invariant settled ==> NoTies(tiles, table)
      {
        ghost var before := tiles;
        var again := ResolvePass(table);
        RerolledDiceOnly(before, tiles, TiedBosses(before, table));
        DiceOnlyTransitive(m0, before, tiles);
        if !again {
          NothingTied(before, table, tiles);
        }
        settled := !again;
        k := k + 1;
      }
      r := Some([]);
    }
  }
}
