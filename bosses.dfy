/**
 * Casino bosses: the tiles of a group showing its highest die, and boss ties (the highest
 * die held by tiles of more than one player).
 */
module Bosses {
  import opened Grid
  import opened Tiles
  import opened Connectivity

  /** The highest die among some tiles; 0, the scan's starting value, when there are none. */
  function MaxDie(ts: seq<CasinoTile>): (d: nat)
    ensures forall t :: t in ts ==> t.die <= d
    ensures ts != [] ==> exists t :: t in ts && t.die == d
    ensures ts == [] ==> d == 0
  {
    if ts == [] then 0
    else
      var d := MaxDie(ts[..|ts| - 1]);
      if ts[|ts| - 1].die > d then ts[|ts| - 1].die else d
  }

  /** The tiles showing die d, in their original order. */
  function WithDie(ts: seq<CasinoTile>, d: nat): (r: seq<CasinoTile>)
    ensures forall t :: t in r <==> t in ts && t.die == d
    ensures |r| <= |ts|
  {
    if ts == [] then []
    else WithDie(ts[..|ts| - 1], d) + (if ts[|ts| - 1].die == d then [ts[|ts| - 1]] else [])
  }

  /** The boss tiles of a list: those showing the highest die, in their original order. */
  function TopTiles(ts: seq<CasinoTile>): seq<CasinoTile> {
    WithDie(ts, MaxDie(ts))
  }

  /** A tile is a boss tile exactly when no tile of the list shows a higher die. */
  lemma TopTilesAreHighest(ts: seq<CasinoTile>, t: CasinoTile)
    ensures t in TopTiles(ts) <==> t in ts && forall u :: u in ts ==> u.die <= t.die
  {
    if t in ts && forall u :: u in ts ==> u.die <= t.die {
      var w :| w in ts && w.die == MaxDie(ts);
      assert w.die <= t.die;
    }
  }

  /** A group with tiles has at least one boss tile. */
  lemma TopTilesNonEmpty(ts: seq<CasinoTile>)
    requires ts != []
    ensures TopTiles(ts) != []
  {
    var d := MaxDie(ts);
    assert exists t :: t in ts && t.die == d;
    var w :| w in ts && w.die == d;
    assert w in TopTiles(ts);
  }

  /** No tile shows a die above every die of the list. */
  lemma {:induction false} WithDieAbove(ts: seq<CasinoTile>, d: nat)
    requires forall t :: t in ts ==> t.die < d
    ensures WithDie(ts, d) == []
    decreases |ts|
  {
    if ts != [] {
      WithDieAbove(ts[..|ts| - 1], d);
    }
  }

  /** Keeping only the tiles of one die keeps the locations distinct. */
  lemma {:induction false} WithDieDistinct(ts: seq<CasinoTile>, d: nat)
    requires forall i, j :: 0 <= i < j < |ts| ==> ts[i].loc != ts[j].loc
    ensures forall i, j :: 0 <= i < j < |WithDie(ts, d)| ==> WithDie(ts, d)[i].loc != WithDie(ts, d)[j].loc
    decreases |ts|
  {
    if ts != [] {
      var pre := ts[..|ts| - 1];
      WithDieDistinct(pre, d);
      var r := WithDie(pre, d);
      forall t | t in r
        ensures t.loc != ts[|ts| - 1].loc
      {
        var i :| 0 <= i < |pre| && pre[i] == t;
        assert ts[i] == t;
      }
    }
  }

  /**
   * The boss scan over a group's tiles in order: a strictly higher die discards the bosses
   * found so far, an equal die joins them.
   */
  method BossTiles(bc: BoardCasino) returns (bosses: seq<CasinoTile>)
    ensures bosses == TopTiles(bc.tiles)
    ensures bc.tiles != [] ==> bosses != []
    ensures forall t :: t in bosses <==> t in bc.tiles && forall u :: u in bc.tiles ==> u.die <= t.die
  {
    var highest: nat := 0;
    bosses := [];
    for i := 0 to |bc.tiles|
      invariant highest == MaxDie(bc.tiles[..i])
      invariant bosses == WithDie(bc.tiles[..i], highest)
    {
      var t := bc.tiles[i];
      assert bc.tiles[..i + 1][..i] == bc.tiles[..i];
      if t.die > highest {
        WithDieAbove(bc.tiles[..i], t.die);
        highest := t.die;
        bosses := [];
      }
      if t.die == highest {
        bosses := bosses + [t];
      }
    }
    assert bc.tiles[..|bc.tiles|] == bc.tiles;
    if bc.tiles != [] {
      TopTilesNonEmpty(bc.tiles);
    }
    forall t
      ensures t in bosses <==> t in bc.tiles && forall u :: u in bc.tiles ==> u.die <= t.die
    {
      TopTilesAreHighest(bc.tiles, t);
    }
  }

  /** The players owning some tiles. */
  function PlayersOf(ts: seq<CasinoTile>): set<nat> {
    set t | t in ts :: t.player
  }

  /** A boss tie: the boss tiles of a group belong to more than one player. */
  predicate BossTie(bc: BoardCasino) {
    |PlayersOf(TopTiles(bc.tiles))| > 1
  }

  /** A set of players has more than one member exactly when two of its members differ. */
  lemma MoreThanOne(s: set<nat>)
    ensures |s| > 1 <==> exists a, b :: a in s && b in s && a != b
  {
    if |s| > 1 {
      var a :| a in s;
      assert |s - {a}| > 0;
      var b :| b in s - {a};
    }
    if a, b :| a in s && b in s && a != b {
      assert {a, b} <= s;
      assert |{a, b}| == 2;
      SubsetCard({a, b}, s);
    }
  }

  lemma SubsetCard(a: set<nat>, b: set<nat>)
    requires a <= b
    ensures |a| <= |b|
  {
    assert b == a + (b - a);
  }

  /** A group has a boss tie exactly when two of its boss tiles belong to different players. */
  lemma BossTieMeans(bc: BoardCasino)
    ensures BossTie(bc) <==>
            exists t, u :: t in TopTiles(bc.tiles) && u in TopTiles(bc.tiles) && t.player != u.player
  {
    var top := TopTiles(bc.tiles);
    MoreThanOne(PlayersOf(top));
    if a, b :| a in PlayersOf(top) && b in PlayersOf(top) && a != b {
      var t :| t in top && t.player == a;
      var u :| u in top && u.player == b;
    }
    if t, u :| t in top && u in top && t.player != u.player {
      assert t.player in PlayersOf(top) && u.player in PlayersOf(top);
    }
  }

  // Boss tiles on the board itself, independent of the order any scan visits tiles in.

  /** The built tile at l shows the highest die of its casino group. */
  ghost predicate IsBossAt(m: TileMap, l: Loc) {
    l in m && m[l].Built? && forall x :: x in Component(m, l) ==> m[x].die <= m[l].die
  }

  /** The casino group of l has boss tiles of two different players. */
  ghost predicate Tied(m: TileMap, l: Loc) {
    exists x, y :: x in Component(m, l) && y in Component(m, l) && IsBossAt(m, x) && IsBossAt(m, y)
                   && m[x].player != m[y].player
  }

  /** No casino group with a tile at a location of the table has a boss tie. */
  ghost predicate NoTies(m: TileMap, table: Layout.TileTable) {
    forall l :: l in table && Get(m, l).Built? ==> !Tied(m, l)
  }

  /** The boss tiles of the listed group of l are the board's boss tiles of that group. */
  lemma TopTilesOnBoard(m: TileMap, l: Loc, bc: BoardCasino, t: CasinoTile)
    requires Describes(m, bc.casino, bc.tiles) && LocsOf(bc.tiles) == Component(m, l)
    ensures t in TopTiles(bc.tiles) <==> t in bc.tiles && IsBossAt(m, t.loc)
  {
    TopTilesAreHighest(bc.tiles, t);
    if t in bc.tiles {
      ComponentOfMember(m, l, t.loc);
      if IsBossAt(m, t.loc) {
        forall u | u in bc.tiles
          ensures u.die <= t.die
        {
          assert u.loc in Component(m, t.loc);
        }
      }
      if forall u :: u in bc.tiles ==> u.die <= t.die {
        forall x | x in Component(m, t.loc)
          ensures m[x].die <= m[t.loc].die
        {
          var u :| u in bc.tiles && u.loc == x;
        }
      }
    }
  }

  /** The scan's tie test on a listed group agrees with the board's notion of a tie. */
  lemma BossTieOnBoard(m: TileMap, l: Loc, bc: BoardCasino)
    requires Describes(m, bc.casino, bc.tiles) && LocsOf(bc.tiles) == Component(m, l)
    ensures BossTie(bc) <==> Tied(m, l)
  {
    BossTieMeans(bc);
    var top := TopTiles(bc.tiles);
    if BossTie(bc) {
      var t, u :| t in top && u in top && t.player != u.player;
      TopTilesOnBoard(m, l, bc, t);
      TopTilesOnBoard(m, l, bc, u);
      assert t.loc in Component(m, l) && u.loc in Component(m, l);
    }
    if Tied(m, l) {
      var x, y :| x in Component(m, l) && y in Component(m, l) && IsBossAt(m, x) && IsBossAt(m, y)
                  && m[x].player != m[y].player;
      var t :| t in bc.tiles && t.loc == x;
      var u :| u in bc.tiles && u.loc == y;
      TopTilesOnBoard(m, l, bc, t);
      TopTilesOnBoard(m, l, bc, u);
    }
  }
}
