/** The Othello rules as the game loop consults them: the legal moves of the
    active player and the board a ply leads to. Both are computed by the walk
    tasks, one per direction; the executor that runs them is modelled by
    running them one after the other. */
module Rules {
  import opened Wrappers
  import opened Othello
  import opened LineTraversor
  import opened OthelloBoard
  import opened LegalMoveTask
  import opened ReversePawnTask

  /** The eight walks from one cell, in the declaration order of the
      directions. */
  function WalksFrom(origin: Coord): (tasks: seq<(Direction, Coord)>)
    ensures |tasks| == 8
  {
    seq(8, i requires 0 <= i < 8 => (AllDirections[i], origin))
  }

  /** The walks from one cell start there, and go in distinct directions
      that together cover all eight. */
  lemma WalksFromCover(origin: Coord)
    ensures forall i :: 0 <= i < 8 ==> WalksFrom(origin)[i].1 == origin
    ensures forall i, j :: 0 <= i < j < 8 ==> WalksFrom(origin)[i].0 != WalksFrom(origin)[j].0
    ensures forall d :: (d, origin) in WalksFrom(origin)
  {
    forall d
      ensures (d, origin) in WalksFrom(origin)
    {
      AllDirectionsComplete(d);
      var i :| 0 <= i < 8 && AllDirections[i] == d;
      assert WalksFrom(origin)[i] == (d, origin);
    }
  }

  /** The board with the mover's pawn put down at the destination. */
  function Placed(g: Grid, destination: Coord, playerPawn: Cell): Grid
    requires OnBoard(destination)
  {
    g[Index(destination) := playerPawn]
  }

  /** The board a placement of `playerPawn` at `destination` leads to: the
      pawn is put down, then the eight capture walks run from it. */
  function PlyOutcome(g: Grid, destination: Coord, playerPawn: Cell): Grid
    requires OnBoard(destination)
  {
    Capture(Placed(g, destination, playerPawn), playerPawn, WalksFrom(destination))
  }

  /** Cell by cell: the destination holds the mover's pawn; any other cell is
      turned to it exactly when, in some direction from the destination, it
      holds a rival pawn with the mover's pawn farther along the ray; every
      other cell keeps its value. */
  lemma PlyOutcomeAt(g: Grid, destination: Coord, playerPawn: Cell, c: Coord)
    requires OnBoard(destination) && OnBoard(c) && playerPawn != NoPawn
    ensures At(PlyOutcome(g, destination, playerPawn), c) ==
      if c == destination || exists d :: TurnedBy(Placed(g, destination, playerPawn), d, destination, playerPawn, c)
      then playerPawn else At(g, c)
  {
    WalksFromCover(destination);
    CaptureAllDirections(Placed(g, destination, playerPawn), destination, playerPawn, WalksFrom(destination), c);
    if c != destination {
      IndexRoundTrip(c);
      IndexRoundTrip(destination);
    }
  }

  /** A placement on an empty cell fills exactly one empty cell, adds the
      placed pawn to the mover's count, and only moves further pawns from the
      rival to the mover. */
  lemma PlyOutcomeCounts(g: Grid, destination: Coord, playerPawn: Cell)
    requires OnBoard(destination) && At(g, destination) == NoPawn && playerPawn != NoPawn
    ensures var r := PlyOutcome(g, destination, playerPawn);
      Count(r, NoPawn) + 1 == Count(g, NoPawn) &&
      Count(r, playerPawn) + Count(r, RivalOf(playerPawn)) == Count(g, playerPawn) + Count(g, RivalOf(playerPawn)) + 1 &&
      Count(r, playerPawn) > Count(g, playerPawn)
  {
    var placed: Grid := g[Index(destination) := playerPawn];
    UpdateMultiset(g, Index(destination), playerPawn);
    CaptureCounts(placed, playerPawn, WalksFrom(destination));
  }

  /** `doPly`. A pass keeps the board; a placement on an occupied cell fails
      the `require`; otherwise a clone of the board gets the pawn and the
      eight capture walks. The board passed in is never changed. */
  method DoPly(oldBoard: Board, activePlayer: int, ply: Ply) returns (result: Result<Board>)
    requires oldBoard.Valid()
    requires ply.Place? ==> OnBoard(ply.destination)
    ensures ply.Pass? ==> result == Success(oldBoard)
    ensures ply.Place? && !oldBoard.IsAt(ply.destination, NoPawn) ==>
      result == Failure(AlreadyOccupied((ply.destination.row, ply.destination.column)))
    ensures ply.Place? && oldBoard.IsAt(ply.destination, NoPawn) ==>
      result.Success? && result.value.Valid() && fresh(result.value.cells) &&
      result.value.cells[..] == PlyOutcome(oldBoard.cells[..], ply.destination, GetPawnID(activePlayer))
  {
    if ply.Pass? {
      return Success(oldBoard);
    }
    var newPawnPosition := ply.destination;
    if !oldBoard.IsAt(newPawnPosition, NoPawn) {
      return Failure(AlreadyOccupied((newPawnPosition.row, newPawnPosition.column)));
    }
    var subGame := new Board.Clone(oldBoard);
    var playerPawn := GetPawnID(activePlayer);
    subGame.SetPawnAt(newPawnPosition, playerPawn);
    ghost var placed: Grid := subGame.cells[..];
    ghost var tasks := WalksFrom(newPawnPosition);
    for i := 0 to 8
      invariant subGame.cells[..] == Capture(placed, playerPawn, tasks[..i])
    {
      var task := new ReversePawn(subGame, AllDirections[i], newPawnPosition, activePlayer);
      task.Run();
      assert tasks[..i + 1][..i] == tasks[..i];
    }
    assert tasks[..8] == tasks;
    return Success(subGame);
  }

  /** The legality walks `legalMoves` has queued once its iteration over the
      board has passed the first n cells (row-major): the eight directions
      from every cell holding the mover's pawn. */
  function OwnPawnWalks(g: Grid, playerPawn: Cell, n: int): (tasks: seq<(Direction, Coord)>)
    requires 0 <= n <= CellCount
    ensures forall i :: 0 <= i < |tasks| ==> OnBoard(tasks[i].1) && At(g, tasks[i].1) == playerPawn
  {
    if n == 0 then []
    else
      OwnPawnWalks(g, playerPawn, n - 1) +
      (if g[n - 1] == playerPawn then (CoordOfRoundTrip(n - 1); WalksFrom(CoordOf(n - 1))) else [])
  }

  /** Passing one more cell queues its eight walks when it holds the mover's pawn. */
  lemma OwnPawnWalksNext(g: Grid, playerPawn: Cell, j: int)
    requires 0 <= j < CellCount
    ensures OnBoard(CoordOf(j)) && Index(CoordOf(j)) == j
    ensures OwnPawnWalks(g, playerPawn, j + 1) ==
      OwnPawnWalks(g, playerPawn, j) + if g[j] == playerPawn then WalksFrom(CoordOf(j)) else []
  {
    CoordOfRoundTrip(j);
    assert j + 1 - 1 == j;
  }

  /** Every walk `legalMoves` queues starts on the mover's own pawn, and such a
      walk registers nothing: the set of legal moves is always empty. */
  lemma OwnPawnWalksFindNothing(g: Grid, playerPawn: Cell, n: int)
    requires 0 <= n <= CellCount && playerPawn != NoPawn
    ensures forall i :: 0 <= i < |OwnPawnWalks(g, playerPawn, n)| ==>
      Walkable(OwnPawnWalks(g, playerPawn, n)[i].0, OwnPawnWalks(g, playerPawn, n)[i].1)
    ensures Found(g, playerPawn, OwnPawnWalks(g, playerPawn, n)) == {}
  {
    var tasks := OwnPawnWalks(g, playerPawn, n);
    forall ply | ply in Found(g, playerPawn, tasks)
      ensures false
    {
      FoundMembers(g, playerPawn, tasks, ply);
      var i :| 0 <= i < |tasks| && Registered(g, tasks[i].0, tasks[i].1, playerPawn) == Some(ply);
      RegisteredFromOwnPawn(g, tasks[i].0, tasks[i].1, playerPawn);
    }
  }

  /** `legalMoves`: for every cell holding the mover's pawn, queue its eight
      walks on the one task list (which is never cleared), run the whole list
      and add every ply found. */
  method LegalMoves(currentBoard: Board, activePlayer: int) returns (legalPlys: set<Ply>)
    requires currentBoard.Valid()
    ensures legalPlys == Found(currentBoard.cells[..], GetPawnID(activePlayer),
                               OwnPawnWalks(currentBoard.cells[..], GetPawnID(activePlayer), CellCount))
    ensures legalPlys == {}
  {
    ghost var g: Grid := currentBoard.cells[..];
    var playerPawn := GetPawnID(activePlayer);
    legalPlys := {};
    var taskList: seq<LegalMoveRegistration> := [];
    for j := 0 to CellCount
      invariant Runnable(taskList, currentBoard, playerPawn)
      invariant TaskSpecs(taskList) == OwnPawnWalks(g, playerPawn, j)
      invariant legalPlys == Found(g, playerPawn, OwnPawnWalks(g, playerPawn, j))
    {
      var location := CoordOf(j);
      OwnPawnWalksNext(g, playerPawn, j);
      if currentBoard.IsAt(location, playerPawn) {
        ghost var before := TaskSpecs(taskList);
        taskList := Queue(currentBoard, activePlayer, taskList, WalksFrom(location));
        legalPlys := CollectAll(currentBoard, playerPawn, taskList, legalPlys);
        FoundAppend(g, playerPawn, before, WalksFrom(location));
      }
    }
    OwnPawnWalksFindNothing(g, playerPawn, CellCount);
  }

  /** `PlayerHasRemainingPlies.call`: whether `legalMoves` is non-empty, so
      never. */
  method PlayerHasRemainingPlies(board: Board, activePlayer: int) returns (remaining: bool)
    requires board.Valid()
    ensures remaining == (Found(board.cells[..], GetPawnID(activePlayer),
                                OwnPawnWalks(board.cells[..], GetPawnID(activePlayer), CellCount)) != {})
    ensures !remaining
  {
    var moves := LegalMoves(board, activePlayer);
    remaining := |moves| > 0;
  }
}
