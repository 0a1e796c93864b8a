/** The Othello board: an 8x8 grid of cells, stored row-major in an array that
    the game updates in place (placing, flipping) on private clones. Both
    accessor styles of the engine are offered: by (row, column) and by
    letter and digit. */
module OthelloBoard {
  import opened Othello

  /** The empty grid with the four pawns of the centre cross written by
      `initializeBoard`: D4 and E5 white, E4 and D5 black. */
  function InitialGrid(): Grid {
    seq(CellCount, _ => NoPawn)
      [Index(Coordinate('D', '4')) := WhitePawn]
      [Index(Coordinate('D', '5')) := BlackPawn]
      [Index(Coordinate('E', '4')) := BlackPawn]
      [Index(Coordinate('E', '5')) := WhitePawn]
  }

  /** The centre cross: (3,3) and (4,4) white, (3,4) and (4,3) black, every
      other cell empty (diagonal pairs share a colour). */
  lemma InitialPosition()
    ensures At(InitialGrid(), Coord(3, 3)) == WhitePawn && At(InitialGrid(), Coord(4, 4)) == WhitePawn
    ensures At(InitialGrid(), Coord(3, 4)) == BlackPawn && At(InitialGrid(), Coord(4, 3)) == BlackPawn
    ensures forall c :: OnBoard(c) && !(3 <= c.row <= 4 && 3 <= c.column <= 4) ==> At(InitialGrid(), c) == NoPawn
  {
    var e := seq(CellCount, _ => NoPawn);
    assert InitialGrid() == e[27 := WhitePawn][35 := BlackPawn][28 := BlackPawn][36 := WhitePawn];
    forall c | OnBoard(c) && !(3 <= c.row <= 4 && 3 <= c.column <= 4)
      ensures At(InitialGrid(), c) == NoPawn
    {
      var j := Index(c);
      assert j != 27 && j != 28 && j != 35 && j != 36;
    }
  }

  /** The initial position holds two pawns of each colour and 60 empty cells. */
  lemma InitialCounts()
    ensures Count(InitialGrid(), WhitePawn) == 2 && Count(InitialGrid(), BlackPawn) == 2
    ensures Count(InitialGrid(), NoPawn) == CellCount - 4
  {
    var e := seq(CellCount, _ => NoPawn);
    EmptyCounts(e);
    var g1 := e[27 := WhitePawn];
    PlaceOnEmpty(e, 27, WhitePawn);
    var g2 := g1[35 := BlackPawn];
    PlaceOnEmpty(g1, 35, BlackPawn);
    var g3 := g2[28 := BlackPawn];
    PlaceOnEmpty(g2, 28, BlackPawn);
    var g4 := g3[36 := WhitePawn];
    PlaceOnEmpty(g3, 36, WhitePawn);
    assert InitialGrid() == g4;
  }

  /** A sequence of empty cells holds no pawn. */
  lemma {:induction false} EmptyCounts(e: seq<Cell>)
    requires forall i :: 0 <= i < |e| ==> e[i] == NoPawn
    ensures multiset(e)[NoPawn] == |e| && multiset(e)[WhitePawn] == 0 && multiset(e)[BlackPawn] == 0
  {
    if e != [] {
      EmptyCounts(e[1..]);
      assert e == [e[0]] + e[1..];
    }
  }

  /** Putting a pawn on an empty cell takes one from the empty cells and adds
      one to that pawn's colour. */
  lemma PlaceOnEmpty(s: seq<Cell>, i: int, v: Cell)
    requires 0 <= i < |s| && s[i] == NoPawn && v != NoPawn
    ensures multiset(s[i := v])[NoPawn] == multiset(s)[NoPawn] - 1
    ensures multiset(s[i := v])[v] == multiset(s)[v] + 1
    ensures multiset(s[i := v])[RivalOf(v)] == multiset(s)[RivalOf(v)]
  {
    UpdateMultiset(s, i, v);
  }

  /** Writing one cell moves one unit of multiplicity from the old value to the new. */
  lemma UpdateMultiset(s: seq<Cell>, i: int, v: Cell)
    requires 0 <= i < |s|
    ensures multiset(s[i := v]) == multiset(s) - multiset{s[i]} + multiset{v}
  {
    assert s == s[..i] + [s[i]] + s[i + 1..];
    assert s[i := v] == s[..i] + [v] + s[i + 1..];
  }

  class Board {
    /** The cells, row-major: cell (row, column) is cells[8 * row + column]. */
    const cells: array<Cell>

    predicate Valid() {
      cells.Length == CellCount
    }

    /** A new board: an 8-column by 8-row grid holding the centre cross. */
    constructor ()
      ensures Valid() && fresh(cells)
      ensures cells[..] == InitialGrid()
    {
      cells := new Cell[CellCount](_ => NoPawn);
      new;
      InitializeBoard();
    }

    /** A deep copy of `other`: same cells, fresh storage. */
    constructor Clone(other: Board)
      requires other.Valid()
      ensures Valid() && fresh(cells)
      ensures cells[..] == other.cells[..]
    {
      var copy := new Cell[CellCount];
      for i := 0 to CellCount
        invariant forall j :: 0 <= j < i ==> copy[j] == other.cells[j]
      {
        copy[i] := other.cells[i];
      }
      cells := copy;
    }

    /** Writes the four centre cells through the letter/digit accessor. */
    method InitializeBoard()
      requires Valid()
      modifies cells
      ensures cells[..] == old(cells[..])
        [Index(Coordinate('D', '4')) := WhitePawn]
        [Index(Coordinate('D', '5')) := BlackPawn]
        [Index(Coordinate('E', '4')) := BlackPawn]
        [Index(Coordinate('E', '5')) := WhitePawn]
    {
      SetPawn('D', '4', WhitePawn);
      SetPawn('D', '5', BlackPawn);
      SetPawn('E', '4', BlackPawn);
      SetPawn('E', '5', WhitePawn);
    }

    /** The cell at (row, column). */
    function GetCase(row: int, column: int): Cell
      reads cells
      requires Valid() && OnBoard(Coord(row, column))
    {
      cells[Index(Coord(row, column))]
    }

    function GetPawnID(position: Coord): Cell
      reads cells
      requires Valid() && OnBoard(position)
    {
      GetCase(position.row, position.column)
    }

    function IsAt(position: Coord, pawn: Cell): bool
      reads cells
      requires Valid() && OnBoard(position)
    {
      GetPawnID(position) == pawn
    }

    /** `getCase(row, column).setPawnID(pawn)`. */
    method SetPawnID(row: int, column: int, pawn: Cell)
      requires Valid() && OnBoard(Coord(row, column))
      modifies cells
      ensures cells[..] == old(cells[..])[Index(Coord(row, column)) := pawn]
    {
      cells[Index(Coord(row, column))] := pawn;
    }

    /** `setPawn(coordinate, pawn)`. */
    method SetPawnAt(position: Coord, pawn: Cell)
      requires Valid() && OnBoard(position)
      modifies cells
      ensures cells[..] == old(cells[..])[Index(position) := pawn]
    {
      SetPawnID(position.row, position.column, pawn);
    }

    /** `setPawn(letter, digit, pawn)`: column letter - 'A', row digit - '1'. */
    method SetPawn(letter: char, digit: char, pawn: Cell)
      requires Valid() && OnBoard(Coordinate(letter, digit))
      modifies cells
      ensures cells[..] == old(cells[..])
        [Width * (digit as int - '1' as int) + (letter as int - 'A' as int) := pawn]
    {
      SetPawnAt(Coordinate(letter, digit), pawn);
    }
  }
}
