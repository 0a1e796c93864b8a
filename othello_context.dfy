/** The game context's verdict on a position: whether the game goes on, and
    otherwise how it ended for the player whose turn it is. */
module OthelloContext {
  import opened Othello
  import opened OthelloBoard

  datatype GameState = NotYetFinish | Win | Lose | Draw

  /** On a board without an empty cell every cell holds one of the two pawns,
      so the two counts add up to the number of cells. */
  lemma {:induction false} FullBoardCounts(g: seq<Cell>)
    requires NoPawn !in g
    ensures Count(g, BlackPawn) + Count(g, WhitePawn) == |g|
  {
    if g != [] {
      var n := |g| - 1;
      assert g == g[..n] + [g[n]];
      assert g[n] in g;
      FullBoardCounts(g[..n]);
      assert Count(g, BlackPawn) == Count(g[..n], BlackPawn) + if g[n] == BlackPawn then 1 else 0;
      assert Count(g, WhitePawn) == Count(g[..n], WhitePawn) + if g[n] == WhitePawn then 1 else 0;
    }
  }

  /** A full board is a draw exactly when each colour holds half of it. */
  lemma FullBoardDraw(g: Grid)
    requires NoPawn !in g
    ensures Count(g, BlackPawn) == Count(g, WhitePawn) <==> Count(g, BlackPawn) == CellCount / 2
  {
    FullBoardCounts(g);
  }

  /** `getState`. The players are compared by identity: `active` is the player
      whose turn it is, `blackPlayer` and `whitePlayer` the players seated at
      the Black and White places. The scan stops at the first empty cell: the
      game only ends on a full board. */
  method GetState(currentBoard: Board, active: int, blackPlayer: int, whitePlayer: int) returns (state: GameState)
    requires currentBoard.Valid()
    ensures state == NotYetFinish <==> NoPawn in currentBoard.cells[..]
    ensures NoPawn !in currentBoard.cells[..] ==>
      var black, white := Count(currentBoard.cells[..], BlackPawn), Count(currentBoard.cells[..], WhitePawn);
      (black > white ==> state == if active == blackPlayer then Win else Lose) &&
      (white > black ==> state == if active == whitePlayer then Win else Lose) &&
      (black == white ==> state == Draw)
  {
    var blackCount, whiteCount := 0, 0;
    for j := 0 to CellCount
      invariant NoPawn !in currentBoard.cells[..j]
      invariant blackCount == Count(currentBoard.cells[..j], BlackPawn)
      invariant whiteCount == Count(currentBoard.cells[..j], WhitePawn)
    {
      assert currentBoard.cells[..j + 1] == currentBoard.cells[..j] + [currentBoard.cells[j]];
      var pawnID := currentBoard.cells[j];
      if pawnID == NoPawn {
        return NotYetFinish;
      } else if pawnID == BlackPawn {
        blackCount := blackCount + 1;
      } else if pawnID == WhitePawn {
        whiteCount := whiteCount + 1;
      }
    }
    assert currentBoard.cells[..CellCount] == currentBoard.cells[..];
    if blackCount > whiteCount {
      if active == blackPlayer {
        return Win;
      } else {
        return Lose;
      }
    } else if whiteCount > blackCount {
      if active == whitePlayer {
        return Win;
      } else {
        return Lose;
      }
    } else {
      return Draw;
    }
  }
}
