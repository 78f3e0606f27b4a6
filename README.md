# Lords of Vegas board engine in Dafny

This project models the board engine of a Lords of Vegas implementation and proves its
properties. The board is made of six blocks (A to F). Each block is a grid of lots three
wide. A lot is unowned, owned by a player, or built into a casino tile: a brand, a player
and a die. Built tiles of one brand that touch in a row or a column form a casino. Its
boss tiles are the tiles showing its highest die. When the boss tiles of a casino belong
to more than one player, the casino has a boss tie. The engine then rerolls all those
boss tiles and scans the board again until no tie is left. Above the board sits the game:
players' cash, whose turn it is, the player-count guard of a new game, and the build
command.

Modules, one per concern:

- `Grid`: blocks, locations, the neighbour relation and the `Neighbours` computation.
- `Layout`: the external data. Casino brands and log entries are abstract types. The
  printed tile table (build cost, starting die, starting cash) is a parameter.
- `Tiles`: the tile map, `Get` with its Unowned default, and the counting queries.
- `Connectivity`: casino groups. Paths define them; the `CasinoAt` flood fill and the
  `Casinos` enumeration compute them.
- `Bosses`: the boss scan and boss ties, on a listed group and on the board itself.
- `BoardState`: class `Board`, whose methods update the tile map in place: `Set`,
  `RerollAt` and tie resolution.
- `Game`: class `Game`, with `Build`, `CanBuild` and the player-count guard and list.
- `Scenarios`: the concrete boards of the engine's own tests.

The source's read-only `Board` queries become functions and methods over the tile map.
These are `get`, `used_resources`, `casino_tile_count`, `player_locs`, `casino_at` and
`casinos`. The operations that write the map are methods of `Board`.

Where the source iterates a hash map or a hash set, it visits elements in an unspecified
order. The model picks each element with `:|`, so every proof holds for every visiting
order. Results the source collects from such an iteration are specified as sets:

- the locations of `player_locs`;
- the membership of each casino group;
- the set of groups `casinos` returns.

Each group's tile list is in the order the flood fill found the tiles.

The model follows the code on these points, where one might expect otherwise:

- A well-formed location always has 2 to 4 neighbours. The smallest block has two rows of
  three lots, so no lot has fewer than two.
- `build` checks "already built" before "you don't own that location".
- A tie-resolution pass returns an empty log, not log entries for the rerolls.
- `casinos` scans only the locations of the tile table. Its coverage guarantee holds for
  built tiles at table locations.
- `boss_tiles` returns every tile at the highest die, including several tiles of one
  player. The tie test, whether the boss tiles belong to more than one player, happens in
  `resolve_boss_ties`.

## Model

| member | source | states |
|---|---|---|
| Grid.MaxLot | src/board.rs:28-34 | each block has 6, 9 or 12 lots, a whole number of rows of three |
| Grid.Neighbours | src/board.rs:69-84 | the four guarded pushes return exactly the locations adjacent in a row or a column within the block, without repeats, 2 to 4 of them |
| Grid.AdjacentSymmetric | src/board.rs:69-84 | y is a neighbour of x exactly when x is a neighbour of y |
| Grid.AdjacentStaysInBlock | src/board.rs:69-84 | a neighbour lies in the same block and within its lot range |
| Tiles.GetAfterSet | src/board.rs:124-130 | reading a location just written gives the written tile; every other location reads as before |
| Tiles.GetAbsent | src/board.rs:124-126 | `Tiles.Get` (`get`): a location with no entry reads as Unowned |
| Tiles.PlayerLocs | src/board.rs:151-159 | the returned locations are exactly those holding an owner token of the player |
| Tiles.BuiltLocs | src/board.rs:132-142 | the locations where the player has built, the ones `used_resources` counts as dice |
| Tiles.UsedResourcesOf | src/board.rs:132-142 | the loop counts one token per Owned tile of the player and one die per Built tile of the player |
| Tiles.BuildTurnsTokenIntoDie | src/lib.rs:252-260 | building on an owned lot takes one token from the builder and adds one die; other players' counts are unchanged |
| Tiles.BuildAddsCasinoTile | src/board.rs:144-149 | `Tiles.CasinoTileCount` (`casino_tile_count`): building brand c on an unbuilt lot raises c's tile count by one and leaves every other brand's count unchanged |
| Connectivity.ReachableSymmetric | src/board.rs:161-199 | two tiles of one brand reach each other along like tiles in either direction |
| Connectivity.ReachableTransitive | src/board.rs:161-199 | reachability along like tiles composes |
| Connectivity.ClosedContainsPath | src/board.rs:161-199 | a set closed under same-brand adjacency contains every path that starts in it (by induction on the path) |
| Connectivity.ComponentWithin | src/board.rs:161-199 | a closed set holding the seed holds its whole group |
| Connectivity.ComponentMembers | src/board.rs:161-199 | every member of a group is built with the seed's brand, and a built seed belongs to its own group |
| Connectivity.ComponentOfMember | src/board.rs:201-217 | every member of a group has that same group, so groups partition the built tiles |
| Connectivity.ComponentsEqualOrDisjoint | src/board.rs:201-217 | two groups are equal or share no location |
| Connectivity.FloodFillComplete | src/board.rs:172-198 | when the queue is empty, the found tiles are exactly the seed's group |
| Connectivity.EnqueueNeighbours | src/board.rs:189-193 | every neighbour of the popped tile ends up visited or queued, and only neighbours are added |
| Connectivity.CasinoAt | src/board.rs:161-199 | None exactly when the location is not built. Otherwise the seed's brand and its whole group: the seed is included, each tile is listed as the board holds it, no location repeats |
| Connectivity.SeedGroupIsComponent | src/board.rs:208-213 | the group found from a built seed is a whole group |
| Connectivity.NewGroupDisjoint | src/board.rs:204-213 | the group of an unvisited location shares nothing with the groups already emitted |
| Connectivity.EnumAdd | src/board.rs:208-213 | emitting the group of an unvisited built location keeps the enumeration invariant, and the group is new |
| Connectivity.EnumSkip | src/board.rs:204-206 | skipping a visited location keeps the enumeration invariant |
| Connectivity.Casinos | src/board.rs:201-217 | the groups are whole groups, listed as the board holds them and pairwise disjoint. Every built tile at a table location is in one of them. They are exactly the distinct groups seeded in the table, each emitted once |
| Bosses.MaxDie | src/board.rs:282-295 | the highest die of a list: no tile shows more, some tile shows it, and 0 for no tiles (the scan's start) |
| Bosses.WithDie | src/board.rs:282-295 | the tiles showing a given die, in list order |
| Bosses.WithDieAbove | src/board.rs:287-290 | no tile shows a die above the maximum so far, so a strictly higher die leaves nothing to keep |
| Bosses.BossTiles | src/board.rs:282-295 | the scan returns the tiles at the highest die in list order. These are exactly the tiles no other tile beats, and there is at least one when the group has tiles |
| Bosses.TopTilesAreHighest | src/board.rs:282-295 | a tile is a boss tile exactly when no tile of its group shows a higher die |
| Bosses.TopTilesNonEmpty | src/board.rs:282-295 | a group with tiles has a boss tile |
| Bosses.BossTieMeans | src/board.rs:243-245 | the set of boss players has more than one member exactly when two boss tiles belong to different players |
| Bosses.MoreThanOne | src/board.rs:243-245 | a set has more than one member exactly when it holds two different elements |
| Bosses.TopTilesOnBoard | src/board.rs:242 | the boss tiles of a listed group are the board's highest-die tiles of that group |
| Bosses.BossTieOnBoard | src/board.rs:242-245 | the scan's tie test on a listed group agrees with the board's own notion of a tied group |
| BoardState.DiceOnlyKeepsGroups | src/board.rs:219-236 | changing dice only never joins or splits a casino group |
| BoardState.RerolledDiceOnly | src/board.rs:219-236 | rerolling changes only dice of built tiles |
| BoardState.Board.constructor | src/board.rs:298-302 | a new board has no tiles |
| BoardState.Board.Set | src/board.rs:128-130 | the map afterwards is the old one with the tile stored at the location |
| BoardState.Board.RerollAt | src/board.rs:219-236 | on a lot that is not built: None, board unchanged. On a built lot: a die face, stored in place of the old die, player and brand kept, nothing else changed |
| BoardState.Board.RerollTiles | src/board.rs:250-252 | each listed boss tile gets a rerolled die, keeping player and brand; every other stored tile, including one rerolled earlier in the same pass, keeps its state |
| BoardState.PassFindsTies | src/board.rs:242-249 | a pass's tie flag is set exactly when some group of the board has a boss tie |
| BoardState.PassRerolledAll | src/board.rs:242-253 | a whole pass rerolls exactly the boss tiles of the tied groups |
| BoardState.NothingTied | src/board.rs:255-264 | a pass over a board without ties leaves it unchanged |
| BoardState.Board.ResolvePass | src/board.rs:238-253 | one pass reports a tie exactly when the board had one, and rerolls exactly the boss tiles of tied groups. Those keep player and brand; nothing else changes |
| BoardState.Board.ResolveBossTies | src/board.rs:238-265 | None exactly when the board had no tie, the board then unchanged; otherwise Some of an empty log. A pass that finds no tie leaves the board tie-free. Only dice ever change |
| Game.CheckPlayerCount | src/lib.rs:112-115 | a count from 2 to 6 is accepted; any other is refused with PlayerCount(2, 6, count) |
| Game.Range | src/lib.rs:224-226 | the numbers from lo up to but excluding hi, ascending |
| Game.PlayerCounts | src/lib.rs:224-226 | the supported counts are [2, 3, 4, 5, 6] |
| Game.PlayerCountsMatchGuard | src/lib.rs:112-115 | the advertised counts are exactly the counts a new game accepts |
| Game.Game.constructor | src/lib.rs:98-106 | a game holds the players, whose turn it is, the board and the finished flag, and starts valid (`Valid`, which `Build` needs): every stored tile on a lot of the board, every owner and builder seated, as setup's owner tokens are (src/lib.rs:121-126) |
| Game.OneBuilder | src/lib.rs:230-232 | `Game.Game.CanBuild` (`can_build`): the build permission follows the turn: the current player may build and no two different players both may, matching the single `whose_turn` entry of src/lib.rs:209-212 |
| Game.Game.Build | src/lib.rs:234-262 | the error for each failed check, in the source's order and with its exact message. A refused build changes nothing. On success: cost taken from cash without underflow, the lot now Built with the brand, the printed die and the builder, nothing else changed, result `([], true)` |
| Scenarios.NeighboursOfA1 | src/board.rs:321 | A1 neighbours exactly A2 and A4 |
| Scenarios.NeighboursOfA2 | src/board.rs:322 | A2 neighbours exactly A1, A3 and A5 |
| Scenarios.NeighboursOfA3 | src/board.rs:323 | A3 neighbours exactly A2 and A6 |
| Scenarios.NeighboursOfC8 | src/board.rs:327 | C8 neighbours exactly C5, C7, C9 and C11 |
| Scenarios.EmptyBoardHasNoGroups | src/board.rs:437-439 | an empty board has no casino groups |
| Scenarios.SingleGroup | src/board.rs:337-367 | a lone built A1 is a group of one and its own boss |
| Scenarios.DiagonalGroups | src/board.rs:369-390 | A1 and the diagonal A5 stay two separate groups, so the board has two |
| Scenarios.JoinedGroup | src/board.rs:392-423 | adding A2 joins A1, A2 and A5 into one group, so the board has one |
| Scenarios.JoinedBoss | src/board.rs:424-433 | whatever order the joined group's tiles are listed in, its boss list is exactly the A5 tile at die 5 |
| Scenarios.JoinedNoTie | src/board.rs:242-248 | the joined board has no boss tie |
| Scenarios.TiedPair | src/board.rs:243-249 | two tiles of different players at the same highest die are a boss tie on the board |

## Left out

- Randomness. `roll` is not part of this model, so `RerollAt` takes any die face from 1
  to 6 for it. The deck, the shuffling and the random choice of the starting player are
  left out too.
- Game setup beyond the player-count guard. Dealing cards, claiming the dealt lots and
  starting cash, and the setup log need the random deck. `CheckPlayerCount` models only
  the guard.
- BoardState.Board.ResolveBossTies: the source repeats passes until one finds no tie. It
  ends with probability 1, but no step count bounds it. The model runs at most `passes`
  further passes and reports in `settled` whether the last one found no tie.
- Iteration order of hash maps and hash sets. Results are specified for every order, so
  the order of the groups `casinos` returns is not pinned down.
- Tiles.PlayerLocs: the source returns a vector in map order; the model returns a set.
- The tile table and the casino brands. Their contents (the `tile` and `casino` modules)
  are not part of this model. The table is a parameter and brands are an abstract type
  with equality.
- Log contents. The engine here only ever returns empty logs, so `Log` is abstract.
- Integer width. Counts, lots and cash are unbounded naturals. Cash minus build cost is
  guarded exactly as in the source, so it cannot wrap. The subtractions of `neighbours`
  (src/board.rs:72, 75 and 80) stay in range only for a lot of the board: `lot - 1`
  underflows for lot 0, and the source never calls it on such a lot. The model therefore
  asks for well-formed locations, as the next lines say.
- Grid.Neighbours: requires `l.Valid()` (a lot from 1 to the block's last lot); the source
  would underflow or return lots off the board for any other location.
- Connectivity.CasinoAt, Connectivity.Casinos, BoardState.Board.ResolvePass and
  BoardState.Board.ResolveBossTies: require `WellFormed` of the tile map (every stored
  tile on a lot of the board), since they call `neighbours` on stored locations.
  `Game.Valid` includes it, the constructor requires it of the initial board, and `Build`
  keeps it.
- Game.Game.Build: requires every key of the tile table to be a lot of the board. The
  source's table is a fixed constant whose keys all are; the model takes the table as a
  parameter, so it states this instead.
- Game.Game.Build: the index `players[p]` cannot fail under `Game.Valid` (every owner on
  the board has a seat). The source would panic for an owner without a seat.
- Turn checking. The command parser refuses commands from anyone but the current player,
  and `build` itself does not check turns, so `Build` does not either.
- Rendering, serialization, command parsing, the CLI and fuzzing binaries, and the
  remaining `Gamer` trait methods (public and player state, status, command dispatch).
