/** Shared vocabulary of the Othello engine: the failure wrappers, the pawn
    identifiers, the player identifiers, the 8x8 grid and its coordinates. */
module Wrappers {

  datatype Option<+T> = None | Some(value: T)

  /** The outcome of an operation that can fail with a `require` violation. */
  datatype Result<+T> = Success(value: T) | Failure(error: Error)

  datatype Error = AlreadyOccupied(position: (int, int))
}

module Othello {

  /** Player identifiers, as the players' `getIdentifier()` reports them. */
  const BLACK: int := 0
  const WHITE: int := 1
  const NumbersOfPlayers: int := 2

  /** The board is a grid of Width columns and Height rows. */
  const Width: int := 8
  const Height: int := 8
  const CellCount: int := 64

  /** What a board cell holds: no pawn, or the pawn of one of the two players. */
  datatype Cell = NoPawn | BlackPawn | WhitePawn

  /** The pawn identifier a player moves with: the White identifier gets the
      white pawn, every other identifier the black pawn. */
  function GetPawnID(identifier: int): (pawn: Cell)
    ensures pawn != NoPawn
    ensures pawn == WhitePawn <==> identifier == WHITE
  {
    if identifier == WHITE then WhitePawn else BlackPawn
  }

  /** The rival's pawn, as the tasks and the referee compute it from the mover's. */
  function RivalOf(playerPawn: Cell): (rival: Cell)
    ensures rival != NoPawn
    ensures playerPawn != NoPawn ==> rival != playerPawn
  {
    if playerPawn == BlackPawn then WhitePawn else BlackPawn
  }

  /** A 0-indexed (row, column) position; it may lie off the board. */
  datatype Coord = Coord(row: int, column: int)

  predicate OnBoard(c: Coord) {
    0 <= c.row < Height && 0 <= c.column < Width
  }

  /** Row-major position of an on-board cell in the board's storage. */
  function Index(c: Coord): int {
    Width * c.row + c.column
  }

  function CoordOf(j: int): Coord {
    Coord(j / Width, j % Width)
  }

  lemma IndexRoundTrip(c: Coord)
    requires OnBoard(c)
    ensures 0 <= Index(c) < CellCount && CoordOf(Index(c)) == c
  {
  }

  lemma CoordOfRoundTrip(j: int)
    requires 0 <= j < CellCount
    ensures OnBoard(CoordOf(j)) && Index(CoordOf(j)) == j
  {
  }

  /** A board snapshot: the 64 cells, row-major. */
  type Grid = g: seq<Cell> | |g| == CellCount witness seq(CellCount, _ => NoPawn)

  function At(g: Grid, c: Coord): Cell
    requires OnBoard(c)
  {
    g[Index(c)]
  }

  /** Letter/digit addressing: column letter 'A' + column, row digit '1' + row.
      Positions one step off the board are encodable too ('@', '0', 'I', '9'). */
  function ColumnLetter(column: int): char
    requires -1 <= column <= Width
  {
    (column + 'A' as int) as char
  }

  function RowDigit(row: int): char
    requires -1 <= row <= Height
  {
    (row + '1' as int) as char
  }

  /** The `Coordinate(letter, digit)` factory. */
  function Coordinate(letter: char, digit: char): (c: Coord)
    ensures c.column == letter as int - 'A' as int && c.row == digit as int - '1' as int
  {
    Coord(digit as int - '1' as int, letter as int - 'A' as int)
  }

  /** Encoding a cursor as letter and digit and decoding it gives the cursor back. */
  lemma CoordinateRoundTrip(row: int, column: int)
    requires -1 <= row <= Height && -1 <= column <= Width
    ensures Coordinate(ColumnLetter(column), RowDigit(row)) == Coord(row, column)
  {
  }

  /** A move: a pass, or a placement at a destination. */
  datatype Ply = Pass | Place(destination: Coord)

  /** How many cells of `g` hold `cell`. */
  function Count(g: seq<Cell>, cell: Cell): nat {
    multiset(g)[cell]
  }

  /** How many positions of two equally long cell sequences differ. */
  function Changed(a: seq<Cell>, b: seq<Cell>): nat
    requires |a| == |b|
  {
    if a == [] then 0 else (if a[0] != b[0] then 1 else 0) + Changed(a[1..], b[1..])
  }

  /** When every change from `a` to `b` turns a `from` pawn into a `to` pawn,
      `to` gains exactly the changed cells, `from` loses them, and every other
      kind of cell keeps its count. */
  lemma {:induction false} FlipCounts(a: seq<Cell>, b: seq<Cell>, from: Cell, to: Cell)
    requires |a| == |b| && from != to
    requires forall i :: 0 <= i < |a| ==> b[i] == a[i] || (a[i] == from && b[i] == to)
    ensures Count(b, to) == Count(a, to) + Changed(a, b)
    ensures Count(b, from) + Changed(a, b) == Count(a, from)
    ensures forall other :: other != from && other != to ==> Count(b, other) == Count(a, other)
  {
    if a != [] {
      assert a == [a[0]] + a[1..];
      assert b == [b[0]] + b[1..];
      FlipCounts(a[1..], b[1..], from, to);
      assert multiset(a) == multiset{a[0]} + multiset(a[1..]);
      assert multiset(b) == multiset{b[0]} + multiset(b[1..]);
      forall other | other != from && other != to
        ensures Count(b, other) == Count(a, other)
      {
        assert b[0] == other <==> a[0] == other;
        assert Count(b[1..], other) == Count(a[1..], other);
        assert Count(b, other) == multiset{b[0]}[other] + Count(b[1..], other);
        assert Count(a, other) == multiset{a[0]}[other] + Count(a[1..], other);
      }
    }
  }
}
