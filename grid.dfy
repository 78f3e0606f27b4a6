/**
 * The board's geometry: six blocks, each a grid of lots three wide, and the orthogonal
 * neighbour relation inside a block. There is no adjacency between blocks.
 */
module Grid {

  /** Every block is laid out in rows of this many lots. */
  const BlockWidth: nat := 3

  datatype Block = A | B | C | D | E | F

  /** Number of lots in a block; lots are numbered 1..MaxLot(b). */
  function MaxLot(b: Block): (n: nat)
    ensures n % BlockWidth == 0
    ensures 2 * BlockWidth <= n <= 4 * BlockWidth
  {
    match b
    case A | B | E => 6
    case C => 12
    case D | F => 9
  }

  /** A location on the board: a block and a lot number within it. */
  datatype Loc = Loc(block: Block, lot: nat) {
    /** A well-formed location names an existing lot of its block. */
    predicate Valid() {
      1 <= lot <= MaxLot(block)
    }
  }

  /** Zero-based row of a lot inside its block. */
  function Row(l: Loc): nat
    requires 1 <= l.lot
  {
    (l.lot - 1) / BlockWidth
  }

  /** Zero-based column of a lot inside its block. */
  function Col(l: Loc): nat
    requires 1 <= l.lot
  {
    (l.lot - 1) % BlockWidth
  }

  /**
   * Reference definition of adjacency, stated on grid coordinates: two well-formed
   * locations of the same block that are next to each other in a row or in a column.
   */
  predicate Adjacent(x: Loc, y: Loc) {
    && x.Valid() && y.Valid() && x.block == y.block
    && ((Row(x) == Row(y) && (Col(x) + 1 == Col(y) || Col(y) + 1 == Col(x)))
        || (Col(x) == Col(y) && (Row(x) + 1 == Row(y) || Row(y) + 1 == Row(x))))
  }

  /**
   * The neighbours of a well-formed location, built by the same four guarded pushes as
   * the game: the lot above, to the left, to the right and below.
   */
  method Neighbours(l: Loc) returns (n: seq<Loc>)
    requires l.Valid()
    ensures forall y :: y in n <==> Adjacent(l, y)
    ensures forall i, j :: 0 <= i < j < |n| ==> n[i] != n[j]
    ensures 2 <= |n| <= 4
  {
    n := [];
    if l.lot > BlockWidth {
      n := n + [Loc(l.block, l.lot - BlockWidth)];
    }
    if l.lot % BlockWidth != 1 {
      n := n + [Loc(l.block, l.lot - 1)];
    }
    if l.lot % BlockWidth != 0 {
      n := n + [Loc(l.block, l.lot + 1)];
    }
    if l.lot <= MaxLot(l.block) - BlockWidth {
      n := n + [Loc(l.block, l.lot + BlockWidth)];
    }
  }

  /** Adjacency is symmetric: y neighbours x exactly when x neighbours y. */
  lemma AdjacentSymmetric(x: Loc, y: Loc)
    ensures Adjacent(x, y) <==> Adjacent(y, x)
  {
  }

  /** A neighbour stays in its block and within the block's lot range. */
  lemma AdjacentStaysInBlock(x: Loc, y: Loc)
    requires Adjacent(x, y)
    ensures y.block == x.block && 1 <= y.lot <= MaxLot(x.block)
  {
  }
}
