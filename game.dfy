/**
 * The game: the players' purses, whose turn it is and the board, the player-count guard
 * of a new game, and the build command, which checks the location, the owner and the
 * purse before it spends the build cost and raises a casino tile.
 */
module Game {
  import opened Wrappers
  import opened Grid
  import opened Layout
  import opened Tiles
  import opened BoardState

  /** The fewest players a game can seat. */
  const MinPlayers: nat := 2

  /** The most players a game can seat. */
  const MaxPlayers: nat := 6

  /** A player's purse and score. */
  datatype Player = Player(cash: nat, points: nat)

  /** Why a game could not be created or a command was refused. */
  datatype GameError =
    | PlayerCount(min: nat, max: nat, given: nat)
    | InvalidInput(message: string)

  /**
   * The guard a new game applies to its player count before it deals anything: the count
   * is accepted when it lies in 2 to 6, and refused with the bounds and the count otherwise.
   */
  function CheckPlayerCount(players: nat): (r: Result<nat, GameError>)
    ensures r.Ok? <==> MinPlayers <= players <= MaxPlayers
    ensures r.Ok? ==> r.value == players
    ensures r.Err? ==> r.error == PlayerCount(MinPlayers, MaxPlayers, players)
  {
    if players < MinPlayers || players > MaxPlayers then
      Err(PlayerCount(MinPlayers, MaxPlayers, players))
    else
      Ok(players)
  }

  /** The numbers from lo up to, but not including, hi in ascending order. */
  function Range(lo: nat, hi: nat): (r: seq<nat>)
    ensures |r| == if lo <= hi then hi - lo else 0
    ensures forall i :: 0 <= i < |r| ==> r[i] == lo + i
    decreases hi - lo
  {
    if lo >= hi then [] else [lo] + Range(lo + 1, hi)
  }

  /** The player counts the game supports, two up to six. */
  function PlayerCounts(): (r: seq<nat>)
    ensures r == [2, 3, 4, 5, 6]
  {
    Range(2, 7)
  }

  /** The advertised player counts are exactly the counts a new game accepts. */
  lemma PlayerCountsMatchGuard(n: nat)
    ensures n in PlayerCounts() <==> CheckPlayerCount(n).Ok?
  {
  }

  /** A game in progress. */
  class Game {
    var players: seq<Player>
    var currentPlayer: nat
    var board: Board
    var finished: bool

    /**
     * Every stored tile sits on a lot of the board, and every player recorded on the board,
     * as owner or builder, has a seat.
     */
    ghost predicate Valid()
      reads this, board
    {
      && WellFormed(board.tiles)
      && forall l :: l in board.tiles && !board.tiles[l].Unowned? ==> board.tiles[l].player < |players|
    }

    /**
     * A game in the given state. Setup hands owner tokens only to seated players and only
     * on lots of the tile table, so the state it starts from is valid.
     */
    constructor(players: seq<Player>, currentPlayer: nat, board: Board, finished: bool)
      requires WellFormed(board.tiles)
      requires forall l :: l in board.tiles && !board.tiles[l].Unowned? ==> board.tiles[l].player < |players|
      ensures Valid()
      ensures this.players == players && this.currentPlayer == currentPlayer
      ensures this.board == board && this.finished == finished
    {
      this.players := players;
      this.currentPlayer := currentPlayer;
      this.board := board;
      this.finished := finished;
    }

    /** Only the player whose turn it is may build. */
    function CanBuild(player: nat): bool
      reads this
    {
      player == currentPlayer
    }

    /**
     * Player p builds a tile of brand casino at loc. The checks run in this order: the
     * location is on the board, it is not built yet, p owns it, p can pay its build cost.
     * A refused build changes nothing; an accepted one charges the cost and puts a built
     * tile with the location's printed die in place of p's owner token.
     */
    method Build(table: TileTable, p: nat, loc: Loc, casino: Casino)
      returns (r: Result<(seq<Log>, bool), GameError>)
      requires forall l :: l in table ==> l.Valid()
      requires Valid()
      modifies this, board
      ensures Valid()
      ensures board == old(board) && currentPlayer == old(currentPlayer) && finished == old(finished)
      ensures loc !in table ==> r == Err(InvalidInput("not a valid location"))
      ensures loc in table && Get(old(board.tiles), loc).Built? ==>
                r == Err(InvalidInput("that location has already been built"))
      ensures loc in table && !Get(old(board.tiles), loc).Built? && Get(old(board.tiles), loc) != Owned(p) ==>
                r == Err(InvalidInput("you don't own that location"))
      ensures loc in table && Get(old(board.tiles), loc) == Owned(p) && old(players[p].cash) < table[loc].buildCost ==>
                r == Err(InvalidInput("you don't have enough cash"))
      ensures r.Err? ==> players == old(players) && board.tiles == old(board.tiles)
      ensures r.Ok? <==>
                loc in table && Get(old(board.tiles), loc) == Owned(p) && table[loc].buildCost <= old(players[p].cash)
      ensures r.Ok? ==>
                && r.value == ([], true)
                && players == old(players)[p := Player(old(players[p].cash) - table[loc].buildCost, old(players[p].points))]
                && board.tiles == old(board.tiles)[loc := Built(p, casino, table[loc].die)]
    {
      if loc !in table {
        return Err(InvalidInput("not a valid location"));
      }
      match Get(board.tiles, loc) {
        case Owned(player) =>
          if player != p {
            return Err(InvalidInput("you don't own that location"));
          }
        case Built(_, _, _) =>
          return Err(InvalidInput("that location has already been built"));
        case Unowned =>
          return Err(InvalidInput("you don't own that location"));
      }
      if players[p].cash < table[loc].buildCost {
        return Err(InvalidInput("you don't have enough cash"));
      }
      players := players[p := players[p].(cash := players[p].cash - table[loc].buildCost)];
      board.Set(loc, Built(p, casino, table[loc].die));
      return Ok(([], true));
    }
  }

  /**
   * While a game runs exactly one player is on turn: the current player may build, and
   * no two different players both may.
   */
  lemma OneBuilder(g: Game)
    ensures g.CanBuild(g.currentPlayer)
    ensures forall p, q :: g.CanBuild(p) && g.CanBuild(q) ==> p == q
  {
  }
}
