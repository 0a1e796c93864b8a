/** The second revision of the rules: the referee. Its legality walks start at
    the neighbour of each own pawn (so they do find the usual moves), and its
    placement runs the capture walks from the neighbours of the destination,
    in reverse declaration order. */
module Referee {
  import opened Wrappers
  import opened Othello
  import opened LineTraversor
  import opened OthelloBoard
  import opened LegalMoveTask
  import opened ReversePawnTask
  import Rules

  /** The neighbour of `start` in direction `d`, written as the referee writes
      it: a column letter and a row digit shifted by one. It is the next cell
      of the walk, on the board or one step off it. */
  function Neighbour(d: Direction, start: Coord): (c: Coord)
    requires OnBoard(start)
    ensures c == Next(d, start)
    ensures Walkable(d, c) && Next(Opposite(d), c) == start
  {
    AdvanceNext(d, start, 0);
    match d
    case North => Coordinate(ColumnLetter(start.column), RowDigit(start.row - 1))
    case NorthEast => Coordinate(ColumnLetter(start.column + 1), RowDigit(start.row - 1))
    case East => Coordinate(ColumnLetter(start.column + 1), RowDigit(start.row))
    case SouthEast => Coordinate(ColumnLetter(start.column + 1), RowDigit(start.row + 1))
    case South => Coordinate(ColumnLetter(start.column), RowDigit(start.row + 1))
    case SouthWest => Coordinate(ColumnLetter(start.column - 1), RowDigit(start.row + 1))
    case West => Coordinate(ColumnLetter(start.column - 1), RowDigit(start.row))
    case NorthWest => Coordinate(ColumnLetter(start.column - 1), RowDigit(start.row - 1))
  }

  /** The order in which `getLegalMoves` queues the directions. */
  const Clockwise: seq<Direction> :=
    [North, NorthEast, East, SouthEast, South, SouthWest, West, NorthWest]

  /** The eight legality walks queued for one own pawn. */
  function NeighbourWalks(origin: Coord): (tasks: seq<(Direction, Coord)>)
    requires OnBoard(origin)
    ensures |tasks| == 8
  {
    seq(8, i requires 0 <= i < 8 => (Clockwise[i], Neighbour(Clockwise[i], origin)))
  }

  /** Every direction has its walk among the eight. */
  lemma NeighbourWalksCover(origin: Coord, d: Direction)
    requires OnBoard(origin)
    ensures (d, Next(d, origin)) in NeighbourWalks(origin)
  {
    var i := match d
      case North => 0 case NorthEast => 1 case East => 2 case SouthEast => 3
      case South => 4 case SouthWest => 5 case West => 6 case NorthWest => 7;
    assert NeighbourWalks(origin)[i] == (d, Next(d, origin));
  }

  /** The legality walks queued once the iteration over the board has passed
      its first n cells (row-major). Each starts one step from a cell holding
      the mover's pawn, in its own direction. */
  function RefereeWalks(g: Grid, playerPawn: Cell, n: int): (tasks: seq<(Direction, Coord)>)
    requires 0 <= n <= CellCount
    ensures forall i :: 0 <= i < |tasks| ==>
      Walkable(tasks[i].0, tasks[i].1) &&
      OnBoard(Next(Opposite(tasks[i].0), tasks[i].1)) &&
      At(g, Next(Opposite(tasks[i].0), tasks[i].1)) == playerPawn &&
      tasks[i].1 == Next(tasks[i].0, Next(Opposite(tasks[i].0), tasks[i].1))
  {
    if n == 0 then []
    else
      RefereeWalks(g, playerPawn, n - 1) +
      (if g[n - 1] == playerPawn then (CoordOfRoundTrip(n - 1); NeighbourWalks(CoordOf(n - 1))) else [])
  }

  /** Passing one more cell queues the walks from its neighbours when it holds
      the mover's pawn. */
  lemma RefereeWalksNext(g: Grid, playerPawn: Cell, j: int)
    requires 0 <= j < CellCount
    ensures OnBoard(CoordOf(j)) && Index(CoordOf(j)) == j
    ensures RefereeWalks(g, playerPawn, j + 1) ==
      RefereeWalks(g, playerPawn, j) + if g[j] == playerPawn then NeighbourWalks(CoordOf(j)) else []
  {
    CoordOfRoundTrip(j);
    assert j + 1 - 1 == j;
  }

  /** Every own pawn among the first n cells has all its walks queued. */
  lemma {:induction false} RefereeWalksComplete(g: Grid, playerPawn: Cell, n: int, origin: Coord, d: Direction)
    requires 0 <= n <= CellCount && OnBoard(origin) && At(g, origin) == playerPawn && Index(origin) < n
    ensures (d, Next(d, origin)) in RefereeWalks(g, playerPawn, n)
  {
    IndexRoundTrip(origin);
    if Index(origin) == n - 1 {
      NeighbourWalksCover(origin, d);
    } else {
      RefereeWalksComplete(g, playerPawn, n - 1, origin, d);
    }
  }

  /** What the legality walk along `d` from the neighbour of `origin` returns. */
  function WalkFromNeighbour(g: Grid, d: Direction, origin: Coord, playerPawn: Cell): Option<Ply>
    requires OnBoard(origin)
  {
    Registered(g, d, Neighbour(d, origin), playerPawn)
  }

  /** The moves the referee offers on a board. */
  function RefereeMoves(g: Grid, playerPawn: Cell): set<Ply> {
    Found(g, playerPawn, RefereeWalks(g, playerPawn, CellCount))
  }

  /** Every ply the referee's walks find comes from the walk along some
      direction from the neighbour of some own pawn. */
  lemma RefereeMoveFrom(g: Grid, playerPawn: Cell, ply: Ply)
    requires ply in RefereeMoves(g, playerPawn)
    ensures exists origin, d ::
      OnBoard(origin) && At(g, origin) == playerPawn && WalkFromNeighbour(g, d, origin, playerPawn) == Some(ply)
  {
    var tasks := RefereeWalks(g, playerPawn, CellCount);
    FoundMembers(g, playerPawn, tasks, ply);
    var i :| 0 <= i < |tasks| && Registered(g, tasks[i].0, tasks[i].1, playerPawn) == Some(ply);
    var origin := Next(Opposite(tasks[i].0), tasks[i].1);
    assert WalkFromNeighbour(g, tasks[i].0, origin, playerPawn) == Some(ply);
  }

  /** Every ply the walk along some direction from the neighbour of some own
      pawn returns is among the referee's moves. */
  lemma RefereeMoveTo(g: Grid, playerPawn: Cell, ply: Ply, origin: Coord, d: Direction)
    requires OnBoard(origin) && At(g, origin) == playerPawn
    requires WalkFromNeighbour(g, d, origin, playerPawn) == Some(ply)
    ensures ply in RefereeMoves(g, playerPawn)
  {
    var tasks := RefereeWalks(g, playerPawn, CellCount);
    IndexRoundTrip(origin);
    RefereeWalksComplete(g, playerPawn, CellCount, origin, d);
    var i :| 0 <= i < |tasks| && tasks[i] == (d, Next(d, origin));
    assert Registered(g, tasks[i].0, tasks[i].1, playerPawn) == Some(ply);
    FoundMembers(g, playerPawn, tasks, ply);
  }

  /** The referee's moves are exactly the plies some walk from the neighbour
      of some own pawn returns. */
  lemma RefereeMovesAre(g: Grid, playerPawn: Cell, ply: Ply)
    ensures ply in RefereeMoves(g, playerPawn) <==>
      exists origin, d :: OnBoard(origin) && At(g, origin) == playerPawn &&
        WalkFromNeighbour(g, d, origin, playerPawn) == Some(ply)
  {
    if ply in RefereeMoves(g, playerPawn) {
      RefereeMoveFrom(g, playerPawn, ply);
    }
    if exists origin, d :: OnBoard(origin) && At(g, origin) == playerPawn &&
        WalkFromNeighbour(g, d, origin, playerPawn) == Some(ply) {
      var origin, d :| OnBoard(origin) && At(g, origin) == playerPawn &&
        WalkFromNeighbour(g, d, origin, playerPawn) == Some(ply);
      RefereeMoveTo(g, playerPawn, ply, origin, d);
    }
  }

  /** `c` lies two or more steps from an own pawn at `origin` along `d`, and
      every cell strictly between the two holds a rival pawn. */
  predicate Flanks(g: Grid, playerPawn: Cell, origin: Coord, d: Direction, c: Coord) {
    OnBoard(origin) && At(g, origin) == playerPawn &&
    Reaches(d, origin, c) && StepsTo(d, origin, c) >= 2 &&
    forall i :: 1 <= i < StepsTo(d, origin, c) ==>
      OnBoard(Advance(d, origin, i)) && At(g, Advance(d, origin, i)) == RivalOf(playerPawn)
  }

  /** The walk from the neighbour of an own pawn returns the placement at `c`
      exactly when `c` is an empty cell flanking a run of rival pawns that
      starts next to the pawn. */
  lemma WalkFromNeighbourFlanks(g: Grid, d: Direction, origin: Coord, playerPawn: Cell, c: Coord)
    requires OnBoard(origin) && At(g, origin) == playerPawn && playerPawn != NoPawn
    ensures WalkFromNeighbour(g, d, origin, playerPawn) == Some(Place(c)) <==>
      OnBoard(c) && At(g, c) == NoPawn && Flanks(g, playerPawn, origin, d, c)
  {
    var s := Neighbour(d, origin);
    RegisteredFinds(g, d, s, playerPawn, c);
    ReachesNext(d, origin, c);
    var k := StepsTo(d, origin, c);
    forall i | 0 <= i
      ensures Advance(d, s, i) == Advance(d, origin, i + 1)
    {
      AdvanceNext(d, origin, i);
    }
    if WalkFromNeighbour(g, d, origin, playerPawn) == Some(Place(c)) {
      forall i | 1 <= i < k
        ensures OnBoard(Advance(d, origin, i)) && At(g, Advance(d, origin, i)) == RivalOf(playerPawn)
      {
        assert Advance(d, s, i - 1) == Advance(d, origin, i);
      }
    }
    if OnBoard(c) && At(g, c) == NoPawn && Flanks(g, playerPawn, origin, d, c) {
      forall i | 0 <= i < StepsTo(d, s, c)
        ensures OnBoard(Advance(d, s, i)) && At(g, Advance(d, s, i)) == RivalOf(playerPawn)
      {
        assert Advance(d, s, i) == Advance(d, origin, i + 1);
      }
    }
  }

  /** The referee's moves are the textbook Othello moves: an empty cell `c`
      is offered exactly when, in some direction, it lies beyond an unbroken
      run of one or more rival pawns that starts next to one of the mover's
      pawns. */
  lemma RefereeMovesFlank(g: Grid, playerPawn: Cell, c: Coord)
    requires playerPawn != NoPawn
    ensures Place(c) in RefereeMoves(g, playerPawn) <==>
      OnBoard(c) && At(g, c) == NoPawn && exists origin, d :: Flanks(g, playerPawn, origin, d, c)
  {
    RefereeMovesAre(g, playerPawn, Place(c));
    if Place(c) in RefereeMoves(g, playerPawn) {
      var origin, d :| OnBoard(origin) && At(g, origin) == playerPawn &&
        WalkFromNeighbour(g, d, origin, playerPawn) == Some(Place(c));
      WalkFromNeighbourFlanks(g, d, origin, playerPawn, c);
    }
    if OnBoard(c) && At(g, c) == NoPawn && exists origin, d :: Flanks(g, playerPawn, origin, d, c) {
      var origin, d :| Flanks(g, playerPawn, origin, d, c);
      WalkFromNeighbourFlanks(g, d, origin, playerPawn, c);
    }
  }

  /** Every move the referee offers places a pawn on an empty board cell. */
  lemma RefereeMovesAreEmptyCells(g: Grid, playerPawn: Cell, ply: Ply)
    requires playerPawn != NoPawn && ply in RefereeMoves(g, playerPawn)
    ensures ply.Place? && OnBoard(ply.destination) && At(g, ply.destination) == NoPawn
  {
    FoundEmptyCells(g, playerPawn, RefereeWalks(g, playerPawn, CellCount), ply);
  }

  /** A mover with no pawn on the board is offered no move. */
  lemma NoPawnNoMove(g: Grid, playerPawn: Cell)
    requires Count(g, playerPawn) == 0
    ensures RefereeMoves(g, playerPawn) == {}
  {
    forall ply | ply in RefereeMoves(g, playerPawn)
      ensures false
    {
      RefereeMovesAre(g, playerPawn, ply);
    }
  }

  /** `getLegalMoves`: for every cell holding the mover's pawn, queue the walks
      from its eight neighbours on the one task list (never cleared), run the
      whole list and add every ply found. */
  method GetLegalMoves(currentBoard: Board, activePlayer: int) returns (legalPlys: set<Ply>)
    requires currentBoard.Valid()
    ensures legalPlys == RefereeMoves(currentBoard.cells[..], GetPawnID(activePlayer))
  {
    ghost var g: Grid := currentBoard.cells[..];
    var playerPawn := GetPawnID(activePlayer);
    legalPlys := {};
    var taskList: seq<LegalMoveRegistration> := [];
    for j := 0 to CellCount
      invariant Runnable(taskList, currentBoard, playerPawn)
      invariant TaskSpecs(taskList) == RefereeWalks(g, playerPawn, j)
      invariant legalPlys == Found(g, playerPawn, RefereeWalks(g, playerPawn, j))
    {
      var area := CoordOf(j);
      RefereeWalksNext(g, playerPawn, j);
      if currentBoard.GetPawnID(area) == playerPawn {
        ghost var before := TaskSpecs(taskList);
        taskList := Queue(currentBoard, activePlayer, taskList, NeighbourWalks(area));
        legalPlys := CollectAll(currentBoard, playerPawn, taskList, legalPlys);
        FoundAppend(g, playerPawn, before, NeighbourWalks(area));
      }
    }
  }

  /** The walks of the capture tasks of `generateNewContextFrom`, indexed by
      the ordinal of their direction, each from the destination's neighbour. */
  function OrdinalWalks(destination: Coord): (tasks: seq<(Direction, Coord)>)
    requires OnBoard(destination)
    ensures |tasks| == 8
    ensures forall i :: 0 <= i < 8 ==> Walkable(tasks[i].0, tasks[i].1)
  {
    seq(8, k requires 0 <= k < 8 => (AllDirections[k], Neighbour(AllDirections[k], destination)))
  }

  /** A sequence read from its last element to its first. */
  function Reversed<T>(s: seq<T>): (r: seq<T>)
    ensures |r| == |s|
    ensures forall k :: 0 <= k < |s| ==> r[k] == s[|s| - 1 - k]
  {
    if s == [] then [] else Reversed(s[1..]) + [s[0]]
  }

  /** The capture walks in the order they are submitted: by descending ordinal. */
  function RefereeCaptureWalks(destination: Coord): (tasks: seq<(Direction, Coord)>)
    requires OnBoard(destination)
    ensures |tasks| == 8
    ensures forall i :: 0 <= i < 8 ==> Walkable(tasks[i].0, tasks[i].1)
  {
    Reversed(OrdinalWalks(destination))
  }

  /** The board `generateNewContextFrom` produces for a placement on an empty cell. */
  function RefereeOutcome(g: Grid, destination: Coord, playerPawn: Cell): Grid
    requires OnBoard(destination)
  {
    Capture(Rules.Placed(g, destination, playerPawn), playerPawn, RefereeCaptureWalks(destination))
  }

  /** The same walks, each started at the cell it steps away from. */
  function Recentred(tasks: seq<(Direction, Coord)>, s: Coord): (r: seq<(Direction, Coord)>)
    ensures |r| == |tasks|
    ensures forall i :: 0 <= i < |r| ==> r[i] == (tasks[i].0, s)
  {
    seq(|tasks|, i requires 0 <= i < |tasks| => (tasks[i].0, s))
  }

  /** Capture walks that start one step from a cell holding the mover's pawn
      turn the same pawns as walks started on that cell. */
  lemma {:induction false} CaptureFromNeighbours(h: Grid, s: Coord, playerPawn: Cell, tasks: seq<(Direction, Coord)>)
    requires OnBoard(s) && At(h, s) == playerPawn && playerPawn != NoPawn
    requires forall i :: 0 <= i < |tasks| ==> tasks[i].1 == Next(tasks[i].0, s)
    ensures forall i :: 0 <= i < |tasks| ==> Walkable(tasks[i].0, tasks[i].1)
    ensures Capture(h, playerPawn, tasks) == Capture(h, playerPawn, Recentred(tasks, s))
    decreases |tasks|
  {
    forall i | 0 <= i < |tasks|
      ensures Walkable(tasks[i].0, tasks[i].1)
    {
      AdvanceNext(tasks[i].0, s, 0);
    }
    if tasks != [] {
      var n := |tasks| - 1;
      var d := tasks[n].0;
      CaptureFromNeighbours(h, s, playerPawn, tasks[..n]);
      assert Recentred(tasks, s)[..n] == Recentred(tasks[..n], s);
      var before := Capture(h, playerPawn, Recentred(tasks[..n], s));
      CaptureUntouched(h, s, playerPawn, Recentred(tasks[..n], s), s);
      ReverseFromOwnPawn(before, d, s, playerPawn);
    }
  }

  /** The referee's capture walks, each moved back to the destination, start
      there, go in distinct directions and cover all eight. */
  lemma RefereeWalksCentred(destination: Coord)
    requires OnBoard(destination)
    ensures var centred := Recentred(RefereeCaptureWalks(destination), destination);
      (forall i :: 0 <= i < |centred| ==> centred[i].1 == destination) &&
      (forall i, j :: 0 <= i < j < |centred| ==> centred[i].0 != centred[j].0) &&
      (forall d :: (d, destination) in centred)
  {
    var centred := Recentred(RefereeCaptureWalks(destination), destination);
    assert forall i :: 0 <= i < 8 ==> centred[i] == (AllDirections[7 - i], destination);
    AllDirectionsDistinct();
    forall d
      ensures (d, destination) in centred
    {
      AllDirectionsComplete(d);
      var i :| 0 <= i < 8 && AllDirections[i] == d;
      assert centred[7 - i] == (d, destination);
    }
  }

  /** Cell by cell, the referee's placement leaves what `Rules.doPly` leaves. */
  lemma RefereeAgreesAt(g: Grid, destination: Coord, playerPawn: Cell, c: Coord)
    requires OnBoard(destination) && OnBoard(c) && playerPawn != NoPawn
    ensures At(RefereeOutcome(g, destination, playerPawn), c) == At(Rules.PlyOutcome(g, destination, playerPawn), c)
  {
    var placed := Rules.Placed(g, destination, playerPawn);
    IndexRoundTrip(destination);
    var walks := RefereeCaptureWalks(destination);
    CaptureFromNeighbours(placed, destination, playerPawn, walks);
    RefereeWalksCentred(destination);
    Rules.WalksFromCover(destination);
    CaptureAllDirections(placed, destination, playerPawn, Recentred(walks, destination), c);
    CaptureAllDirections(placed, destination, playerPawn, Rules.WalksFrom(destination), c);
  }

  /** The referee's placement turns the same pawns as `Rules.doPly`: walks from
      the neighbours in reverse order give the same board as walks from the
      destination in declaration order. */
  lemma RefereeAgreesWithRules(g: Grid, destination: Coord, playerPawn: Cell)
    requires OnBoard(destination) && playerPawn != NoPawn
    ensures RefereeOutcome(g, destination, playerPawn) == Rules.PlyOutcome(g, destination, playerPawn)
  {
    forall j | 0 <= j < CellCount
      ensures RefereeOutcome(g, destination, playerPawn)[j] == Rules.PlyOutcome(g, destination, playerPawn)[j]
    {
      CoordOfRoundTrip(j);
      RefereeAgreesAt(g, destination, playerPawn, CoordOf(j));
    }
  }

  /** `generateNewContextFrom`: a placement on an occupied cell fails the
      `require`; otherwise a clone of the board gets the pawn, the eight
      capture tasks are built by ordinal and run from the last to the first.
      The board passed in is never changed. */
  method GenerateNewContextFrom(oldBoard: Board, activePlayer: int, ply: Ply) returns (result: Result<Board>)
    requires oldBoard.Valid() && ply.Place? && OnBoard(ply.destination)
    ensures oldBoard.GetPawnID(ply.destination) != NoPawn ==>
      result == Failure(AlreadyOccupied((ply.destination.row, ply.destination.column)))
    ensures oldBoard.GetPawnID(ply.destination) == NoPawn ==>
      result.Success? && result.value.Valid() && fresh(result.value.cells) &&
      result.value.cells[..] == RefereeOutcome(oldBoard.cells[..], ply.destination, GetPawnID(activePlayer))
  {
    if oldBoard.GetPawnID(ply.destination) != NoPawn {
      return Failure(AlreadyOccupied((ply.destination.row, ply.destination.column)));
    }
    var subGame := new Board.Clone(oldBoard);
    var newPawnPosition := ply.destination;
    var playerPawn := GetPawnID(activePlayer);
    subGame.SetPawnID(newPawnPosition.row, newPawnPosition.column, playerPawn);
    ghost var placed: Grid := subGame.cells[..];
    ghost var ordinal := OrdinalWalks(newPawnPosition);

    var taskList := CaptureTasks(subGame, newPawnPosition, activePlayer);
    var i := |taskList|;
    assert ordinal[8..] == [];
    while i > 0
      invariant 0 <= i <= 8
      invariant subGame.cells[..] == Capture(placed, playerPawn, Reversed(ordinal[i..]))
    {
      i := i - 1;
      RunCaptureTask(taskList[i], placed, ordinal, i);
    }
    assert ordinal[0..] == ordinal;
    return Success(subGame);
  }

  /** One capture task of `generateNewContextFrom`: running the task of
      ordinal i extends the captures already run by one more walk. */
  method RunCaptureTask(task: ReversePawn, ghost placed: Grid, ghost ordinal: seq<(Direction, Coord)>, ghost i: int)
    requires 0 <= i < |ordinal|
    requires forall k :: 0 <= k < |ordinal| ==> Walkable(ordinal[k].0, ordinal[k].1)
    requires task.Valid() && task.direction == ordinal[i].0 && task.start == ordinal[i].1
    requires task.board.cells[..] == Capture(placed, task.playerPawn, Reversed(ordinal[i + 1..]))
    modifies task.board.cells
    ensures task.board.cells[..] == Capture(placed, task.playerPawn, Reversed(ordinal[i..]))
  {
    assert ordinal[i..][1..] == ordinal[i + 1..];
    CaptureSnoc(placed, task.playerPawn, Reversed(ordinal[i + 1..]), ordinal[i]);
    task.Run();
  }

  /** The capture tasks of `generateNewContextFrom`, indexed by the ordinal
      of their direction, each starting at the destination's neighbour. */
  method CaptureTasks(subGame: Board, newPawnPosition: Coord, activePlayer: int) returns (taskList: seq<ReversePawn>)
    requires subGame.Valid() && OnBoard(newPawnPosition)
    ensures |taskList| == 8
    ensures forall i :: 0 <= i < 8 ==>
      taskList[i].Valid() && taskList[i].board == subGame && taskList[i].playerPawn == GetPawnID(activePlayer) &&
      taskList[i].direction == AllDirections[i] &&
      taskList[i].start == Neighbour(AllDirections[i], newPawnPosition)
  {
    taskList := [];
    for k := 0 to 8
      invariant |taskList| == k
      invariant forall i :: 0 <= i < k ==>
        taskList[i].Valid() && taskList[i].board == subGame && taskList[i].playerPawn == GetPawnID(activePlayer) &&
        taskList[i].direction == AllDirections[i] &&
        taskList[i].start == Neighbour(AllDirections[i], newPawnPosition)
    {
      var direction := AllDirections[k];
      var task := new ReversePawn(subGame, direction, Neighbour(direction, newPawnPosition), activePlayer);
      taskList := taskList + [task];
    }
  }

  /** The unused static `reversePawn`: walk from `startPosition` toward
      `endPosition`, the end excluded, turning every rival pawn met. When the
      goal guard fails at the start the loop does nothing, wherever the start
      lies; otherwise every cell it reads must be on the board. */
  method ReversePawnBetween(subGame: Board, player: int, traversor: Direction, startPosition: Coord, endPosition: Coord)
    requires subGame.Valid()
    requires GoalSteps(traversor, startPosition, endPosition) == 0 ||
      (Walkable(traversor, startPosition) &&
       GoalSteps(traversor, startPosition, endPosition) <= Reach(traversor, startPosition))
    modifies subGame.cells
    ensures GoalSteps(traversor, startPosition, endPosition) == 0 ==> subGame.cells[..] == old(subGame.cells[..])
    ensures (Walkable(traversor, startPosition) &&
             GoalSteps(traversor, startPosition, endPosition) <= Reach(traversor, startPosition)) ==>
      subGame.cells[..] == FlipToward(old(subGame.cells[..]), traversor, startPosition, endPosition, GetPawnID(player))
  {
    var playerPawn := GetPawnID(player);
    var rivalPawn := if playerPawn == BlackPawn then WhitePawn else BlackPawn;
    ghost var h: Grid := subGame.cells[..];
    ghost var n := GoalSteps(traversor, startPosition, endPosition);
    ghost var walks := Walkable(traversor, startPosition) && n <= Reach(traversor, startPosition);
    AdvanceNext(traversor, startPosition, 0);
    var i, j := startPosition.row, startPosition.column;
    ghost var m := 0;
    while Verify(traversor, i, j, Some(endPosition))
      invariant 0 <= m <= n
      invariant Coord(i, j) == Advance(traversor, startPosition, m)
      invariant walks ==> subGame.cells[..] == FlipSteps(h, traversor, startPosition, playerPawn, m)
      invariant !walks ==> subGame.cells[..] == h
      decreases n - m
    {
      VerifyBefore(traversor, startPosition, endPosition, m);
      TurnAtCursor(subGame, i, j, playerPawn, rivalPawn, h, traversor, startPosition, endPosition, m);
      i, j := UpdateRow(traversor, i), UpdateColumn(traversor, j);
      m := m + 1;
    }
    if walks {
      FlipDone(h, traversor, startPosition, endPosition, playerPawn, m);
    }
  }

  /** One turn of `reversePawn`'s loop, at the m-th cell of a walk on the
      board: the board moves from m turns to m + 1. */
  method TurnAtCursor(subGame: Board, i: int, j: int, playerPawn: Cell, rivalPawn: Cell,
                      ghost h: Grid, traversor: Direction, startPosition: Coord, endPosition: Coord, ghost m: int)
    requires subGame.Valid() && rivalPawn == RivalOf(playerPawn) && 0 <= m
    requires Walkable(traversor, startPosition) &&
      GoalSteps(traversor, startPosition, endPosition) <= Reach(traversor, startPosition)
    requires Coord(i, j) == Advance(traversor, startPosition, m) && Verify(traversor, i, j, Some(endPosition))
    requires subGame.cells[..] == FlipSteps(h, traversor, startPosition, playerPawn, m)
    modifies subGame.cells
    ensures m < GoalSteps(traversor, startPosition, endPosition)
    ensures Coord(UpdateRow(traversor, i), UpdateColumn(traversor, j)) == Advance(traversor, startPosition, m + 1)
    ensures subGame.cells[..] == FlipSteps(h, traversor, startPosition, playerPawn, m + 1)
  {
    FlipCursor(h, traversor, startPosition, endPosition, playerPawn, m);
    TurnIfRival(subGame, i, j, playerPawn, rivalPawn);
  }
}
