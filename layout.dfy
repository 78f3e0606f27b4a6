/**
 * The static data the board engine consults: the casino brands and the table of tiles
 * printed on the board, and the log entry type of the game framework. All are defined
 * outside the engine; here the brands and log entries are abstract types and the table
 * is a parameter.
 */
module Layout {
  import opened Grid

  /** A casino brand. Only equality between brands matters to the engine. */
  type Casino(==, 0)

  /** What the board prints on one lot: its build cost, its starting die and its starting cash. */
  datatype TileInfo = TileInfo(buildCost: nat, die: nat, startingCash: nat)

  /** The table of printed tiles, keyed by location. */
  type TileTable = map<Loc, TileInfo>

  /** An entry of the game log. The engine returns only empty logs, so entries carry nothing here. */
  type Log(==)
}
