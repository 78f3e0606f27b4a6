/**
 * The tile store: a sparse map from location to tile state, where a missing key reads as
 * an unowned lot, and the counting queries over it.
 */
module Tiles {
  import opened Grid
  import opened Layout

  /** The state of one lot: nobody's, claimed by a player, or built into a casino. */
  datatype BoardTile =
    | Unowned
    | Owned(player: nat)
    | Built(player: nat, casino: Casino, die: nat)

  /** The sparse board: lots without an entry are unowned. */
  type TileMap = map<Loc, BoardTile>

  /** Every stored tile sits on a well-formed location. */
  ghost predicate WellFormed(m: TileMap) {
    forall l :: l in m ==> l.Valid()
  }

  /** The tile at a location, defaulting to Unowned for a missing key. */
  function Get(m: TileMap, loc: Loc): BoardTile {
    if loc in m then m[loc] else Unowned
  }

  /** Reading back a location right after writing it gives what was written; every other location reads as before. */
  lemma GetAfterSet(m: TileMap, loc: Loc, t: BoardTile)
    ensures Get(m[loc := t], loc) == t
    ensures forall l :: l != loc ==> Get(m[loc := t], l) == Get(m, l)
  {
  }

  /** An absent key reads as Unowned, the default tile. */
  lemma GetAbsent(m: TileMap, loc: Loc)
    requires loc !in m
    ensures Get(m, loc) == Unowned
  {
  }

  /** The locations a player has claimed but not built on, one owner token each. */
  function PlayerLocs(m: TileMap, p: nat): (locs: set<Loc>)
    ensures forall l :: l in locs <==> Get(m, l) == Owned(p)
  {
    set l | l in m && m[l] == Owned(p)
  }

  /** The locations a player has built on, one die each. */
  function BuiltLocs(m: TileMap, p: nat): (locs: set<Loc>)
    ensures forall l :: l in locs <==> Get(m, l).Built? && Get(m, l).player == p
  {
    set l | l in m && m[l].Built? && m[l].player == p
  }

  /** The locations built into casino c. */
  function CasinoLocs(m: TileMap, c: Casino): set<Loc> {
    set l | l in m && m[l].Built? && m[l].casino == c
  }

  /** Number of built tiles of casino c on the board. */
  function CasinoTileCount(m: TileMap, c: Casino): nat {
    |CasinoLocs(m, c)|
  }

  /** How many dice and owner tokens a player has on the board. */
  datatype UsedResources = UsedResources(dice: nat, tokens: nat)

  /**
   * Counts a player's dice and tokens in one pass over the stored tiles, visiting them in
   * an unspecified order.
   */
  method UsedResourcesOf(m: TileMap, p: nat) returns (used: UsedResources)
    ensures used.tokens == |PlayerLocs(m, p)|
    ensures used.dice == |BuiltLocs(m, p)|
  {
    used := UsedResources(0, 0);
    var rest := m.Keys;
    ghost var done: set<Loc> := {};
    while rest != {}
      invariant rest + done == m.Keys && rest !! done
      invariant used.tokens == |PlayerLocs(m, p) * done|
      invariant used.dice == |BuiltLocs(m, p) * done|
      decreases rest
    {
      var l :| l in rest;
      CountStep(PlayerLocs(m, p), done, l);
      CountStep(BuiltLocs(m, p), done, l);
      match m[l] {
        case Owned(player) =>
          if player == p {
            used := used.(tokens := used.tokens + 1);
          }
        case Built(player, _, _) =>
          if player == p {
            used := used.(dice := used.dice + 1);
          }
        case Unowned =>
      }
      rest := rest - {l};
      done := done + {l};
    }
    assert PlayerLocs(m, p) * done == PlayerLocs(m, p);
    assert BuiltLocs(m, p) * done == BuiltLocs(m, p);
  }

  /** Adding one unvisited element to the visited part raises the count of a subset by one exactly when it belongs to that subset. */
  lemma CountStep(s: set<Loc>, done: set<Loc>, l: Loc)
    requires l !in done
    ensures |s * (done + {l})| == |s * done| + (if l in s then 1 else 0)
  {
    if l in s {
      assert s * (done + {l}) == (s * done) + {l};
    } else {
      assert s * (done + {l}) == s * done;
    }
  }

  /**
   * Building on one's own claimed lot turns one owner token into one die, and leaves every
   * other player's counts alone.
   */
  lemma BuildTurnsTokenIntoDie(m: TileMap, loc: Loc, p: nat, c: Casino, d: nat)
    requires Get(m, loc) == Owned(p)
    ensures |PlayerLocs(m[loc := Built(p, c, d)], p)| + 1 == |PlayerLocs(m, p)|
    ensures |BuiltLocs(m[loc := Built(p, c, d)], p)| == |BuiltLocs(m, p)| + 1
    ensures forall q :: q != p ==> PlayerLocs(m[loc := Built(p, c, d)], q) == PlayerLocs(m, q)
    ensures forall q :: q != p ==> BuiltLocs(m[loc := Built(p, c, d)], q) == BuiltLocs(m, q)
  {
    var m' := m[loc := Built(p, c, d)];
    assert PlayerLocs(m', p) == PlayerLocs(m, p) - {loc};
    assert BuiltLocs(m', p) == BuiltLocs(m, p) + {loc};
  }

  /** Building casino c on a lot that was not built adds exactly one tile to c and none to any other brand. */
  lemma BuildAddsCasinoTile(m: TileMap, loc: Loc, p: nat, c: Casino, d: nat)
    requires !Get(m, loc).Built?
    ensures CasinoTileCount(m[loc := Built(p, c, d)], c) == CasinoTileCount(m, c) + 1
    ensures forall c' :: c' != c ==> CasinoTileCount(m[loc := Built(p, c, d)], c') == CasinoTileCount(m, c')
  {
    var m' := m[loc := Built(p, c, d)];
    assert CasinoLocs(m', c) == CasinoLocs(m, c) + {loc};
    forall c' | c' != c
      ensures CasinoTileCount(m', c') == CasinoTileCount(m, c')
    {
      assert CasinoLocs(m', c') == CasinoLocs(m, c');
    }
  }
}
