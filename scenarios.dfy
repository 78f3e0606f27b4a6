/**
 * Concrete boards and the facts the engine's own tests check about them: neighbour lists,
 * casino groups that a diagonal does not join and an adjacent tile does, boss tiles, and
 * boss ties.
 */
module Scenarios {
  import opened Grid
  import opened Layout
  import opened Tiles
  import opened Connectivity
  import opened Bosses

  const A1 := Loc(A, 1)
  const A2 := Loc(A, 2)
  const A3 := Loc(A, 3)
  const A4 := Loc(A, 4)
  const A5 := Loc(A, 5)
  const A6 := Loc(A, 6)

  /** The corner A1 touches A2 and A4 only. */
  lemma NeighboursOfA1()
    ensures forall y :: Adjacent(A1, y) <==> y == A2 || y == A4
  {
    forall y | Adjacent(A1, y)
      ensures y == A2 || y == A4
    {
      assert y.block == A && 1 <= y.lot <= 6;
    }
  }

  /** The top edge lot A2 touches A1, A3 and A5. */
  lemma NeighboursOfA2()
    ensures forall y :: Adjacent(A2, y) <==> y == A1 || y == A3 || y == A5
  {
    forall y | Adjacent(A2, y)
      ensures y == A1 || y == A3 || y == A5
    {
      assert y.block == A && 1 <= y.lot <= 6;
    }
  }

  /** The corner A3 touches A2 and A6 only. */
  lemma NeighboursOfA3()
    ensures forall y :: Adjacent(A3, y) <==> y == A2 || y == A6
  {
    forall y | Adjacent(A3, y)
      ensures y == A2 || y == A6
    {
      assert y.block == A && 1 <= y.lot <= 6;
    }
  }

  /** The inner lot C8 of the tall block C touches C5, C7, C9 and C11. */
  lemma NeighboursOfC8()
    ensures forall y :: Adjacent(Loc(C, 8), y) <==>
              y == Loc(C, 5) || y == Loc(C, 7) || y == Loc(C, 9) || y == Loc(C, 11)
  {
    forall y | Adjacent(Loc(C, 8), y)
      ensures y == Loc(C, 5) || y == Loc(C, 7) || y == Loc(C, 9) || y == Loc(C, 11)
    {
      assert y.block == C && 1 <= y.lot <= 12;
    }
  }

  /** A1 built alone. */
  function Single(c: Casino): TileMap {
    map[A1 := Built(0, c, 3)]
  }

  /** A1 and the diagonal A5 built with the same brand. */
  function Diagonal(c: Casino): TileMap {
    map[A1 := Built(0, c, 3), A5 := Built(0, c, 5)]
  }

  /** The diagonal joined by A2, built by another player. */
  function Joined(c: Casino): TileMap {
    map[A1 := Built(0, c, 3), A5 := Built(0, c, 5), A2 := Built(1, c, 2)]
  }

  /** The group of a built tile with no built neighbour is the tile alone. */
  lemma AloneGroup(m: TileMap, l: Loc)
    requires l in m && m[l].Built?
    requires forall y :: Adjacent(l, y) ==> !IsCasinoAt(m, m[l].casino, y)
    ensures Component(m, l) == {l}
  {
    ComponentWithin(m, l, {l});
    ComponentMembers(m, l);
  }

  /** A board with no tiles has no casino groups. */
  lemma EmptyBoardHasNoGroups(table: TileTable)
    ensures Components(map[], table) == {}
  {
  }

  /** The single A1 tile is a group of one, and it is its own boss. */
  lemma SingleGroup(c: Casino)
    ensures Component(Single(c), A1) == {A1}
    ensures TopTiles([CasinoTile(A1, 0, 3)]) == [CasinoTile(A1, 0, 3)]
  {
    AloneGroup(Single(c), A1);
  }

  /** A diagonal does not join two tiles: the board holds two groups. */
  lemma DiagonalGroups(c: Casino, table: TileTable)
    requires A1 in table && A5 in table
    ensures Component(Diagonal(c), A1) == {A1}
    ensures Component(Diagonal(c), A5) == {A5}
    ensures |Components(Diagonal(c), table)| == 2
  {
    var m := Diagonal(c);
    AloneGroup(m, A1);
    AloneGroup(m, A5);
    assert Components(m, table) == {{A1}, {A5}};
    assert {A1} != {A5};
  }

  /** A2 joins A1 and A5 into one group of three. */
  lemma JoinedGroup(c: Casino, table: TileTable)
    requires A1 in table
    ensures Component(Joined(c), A1) == {A1, A2, A5}
    ensures |Components(Joined(c), table)| == 1
  {
    var m := Joined(c);
    ComponentWithin(m, A1, {A1, A2, A5});
    assert IsPath(m, c, [A1, A2]);
    assert IsPath(m, c, [A1, A2, A5]);
    ComponentMembers(m, A1);
    forall l | l in table && Get(m, l).Built?
      ensures Component(m, l) == {A1, A2, A5}
    {
      ComponentOfMember(m, A1, l);
    }
    assert Components(m, table) == {{A1, A2, A5}};
  }

  /**
   * In the joined group only A5, with the highest die, is a boss tile, whatever order the
   * group's tiles are listed in.
   */
  lemma JoinedBoss(c: Casino, bc: BoardCasino)
    requires Describes(Joined(c), c, bc.tiles) && LocsOf(bc.tiles) == {A1, A2, A5}
    ensures TopTiles(bc.tiles) == [CasinoTile(A5, 0, 5)]
  {
    var ts := bc.tiles;
    var top := CasinoTile(A5, 0, 5);
    forall t | t in ts
      ensures t.die <= 5
    {
      assert t.loc in LocsOf(ts);
    }
    assert A5 in LocsOf(ts);
    var w :| w in ts && w.loc == A5;
    assert w == top;
    assert MaxDie(ts) == 5;
    var r := TopTiles(ts);
    forall t | t in r
      ensures t == top
    {
      assert t.loc in LocsOf(ts);
    }
    assert top in r;
    WithDieDistinct(ts, 5);
    assert LocsOf(r) == {A5};
    DistinctLocsCount(r);
    assert r == [r[0]];
  }

  /** Two tiles of different players showing the same highest die are a boss tie. */
  lemma TiedPair(c: Casino, table: TileTable)
    requires A1 in table
    ensures BossTie(BoardCasino(c, [CasinoTile(A1, 0, 4), CasinoTile(A2, 1, 4)]))
    ensures !NoTies(map[A1 := Built(0, c, 4), A2 := Built(1, c, 4)], table)
  {
    var m := map[A1 := Built(0, c, 4), A2 := Built(1, c, 4)];
    var bc := BoardCasino(c, [CasinoTile(A1, 0, 4), CasinoTile(A2, 1, 4)]);
    assert PlayersOf(TopTiles(bc.tiles)) == {0, 1};
    ComponentWithin(m, A1, {A1, A2});
    assert IsPath(m, c, [A1, A2]);
    ComponentMembers(m, A1);
    assert Component(m, A1) == {A1, A2};
    assert IsBossAt(m, A1) && IsBossAt(m, A2);
    assert Tied(m, A1);
  }

  /** The joined group has a single boss, so the board has no boss tie. */
  lemma JoinedNoTie(c: Casino, table: TileTable)
    ensures !BossTie(BoardCasino(c, [CasinoTile(A1, 0, 3), CasinoTile(A2, 1, 2), CasinoTile(A5, 0, 5)]))
    ensures NoTies(Joined(c), table)
  {
    var m := Joined(c);
    var bc := BoardCasino(c, [CasinoTile(A1, 0, 3), CasinoTile(A2, 1, 2), CasinoTile(A5, 0, 5)]);
    assert LocsOf(bc.tiles) == {A1, A2, A5} by {
      assert bc.tiles[0].loc == A1 && bc.tiles[1].loc == A2 && bc.tiles[2].loc == A5;
    }
    JoinedBoss(c, bc);
    assert PlayersOf([CasinoTile(A5, 0, 5)]) == {0};
    JoinedGroup(c, map[A1 := TileInfo(0, 0, 0)]);
    forall l | l in table && Get(m, l).Built?
      ensures !Tied(m, l)
    {
      ComponentOfMember(m, A1, l);
      forall x | x in Component(m, l) && IsBossAt(m, x)
        ensures x == A5
      {
        ComponentOfMember(m, A1, x);
        assert A5 in Component(m, x);
      }
    }
  }
}
