/** The per-ray legality walk: from a start cell, skip rival pawns and report
    the first empty cell if at least one rival pawn was passed; stop on an own
    pawn, on an empty cell met before any rival, or at the board edge. The
    board is only read. */
module LegalMoveTask {
  import opened Wrappers
  import opened Othello
  import opened LineTraversor
  import opened OthelloBoard

  /** The walk over the cells of a line: the position of the empty cell the walk
      stops on with a legal ply, if any. `rivalSeen` says whether a rival pawn
      was passed before the line starts. */
  function ScanLine(line: seq<Cell>, playerPawn: Cell, rivalSeen: bool): (found: Option<nat>)
    ensures found.Some? ==> found.value < |line| && line[found.value] == NoPawn
    ensures found.Some? && found.value == 0 ==> rivalSeen
  {
    if line == [] then None
    else if line[0] == NoPawn then (if rivalSeen then Some(0) else None)
    else if line[0] == playerPawn then None
    else Shifted(ScanLine(line[1..], playerPawn, true))
  }

  /** The scan finds position k exactly when k is the first cell that is not a
      rival pawn, that cell is empty, and a rival pawn was passed before it. */
  lemma {:induction false} ScanLineFinds(line: seq<Cell>, playerPawn: Cell, rivalSeen: bool, k: int)
    requires playerPawn != NoPawn
    ensures ScanLine(line, playerPawn, rivalSeen) == Some(k) <==>
      (0 <= k < |line| && line[k] == NoPawn && (rivalSeen || k > 0) &&
       forall i :: 0 <= i < k ==> line[i] == RivalOf(playerPawn))
  {
    if line != [] && line[0] != NoPawn && line[0] != playerPawn {
      ScanLineFinds(line[1..], playerPawn, true, k - 1);
      if 0 <= k < |line| && line[k] == NoPawn && forall i :: 0 <= i < k ==> line[i] == RivalOf(playerPawn) {
        assert forall i :: 0 <= i < k - 1 ==> line[1..][i] == line[i + 1];
      }
      if ScanLine(line, playerPawn, rivalSeen) == Some(k) {
        forall i | 0 <= i < k
          ensures line[i] == RivalOf(playerPawn)
        {
          if i > 0 {
            assert line[i] == line[1..][i - 1];
          }
        }
      }
    }
  }

  /** The ply at the cell `offset + k` steps along the ray, if the scan found k. */
  function PlyAt(d: Direction, s: Coord, found: Option<nat>, offset: int): Option<Ply> {
    match found
    case None => None
    case Some(k) => Some(Place(Advance(d, s, offset + k)))
  }

  /** What `call` returns for a walk from `s` in direction `d` by the owner of `playerPawn`. */
  function Registered(g: Grid, d: Direction, s: Coord, playerPawn: Cell): Option<Ply>
    requires Walkable(d, s)
  {
    PlyAt(d, s, ScanLine(Line(g, d, s), playerPawn, false), 0)
  }

  /** A walk returns the placement at c exactly when c lies k >= 1 steps along the
      ray, c is an empty board cell, and the k cells before it are rival pawns. */
  lemma RegisteredFinds(g: Grid, d: Direction, s: Coord, playerPawn: Cell, c: Coord)
    requires Walkable(d, s) && playerPawn != NoPawn
    ensures Registered(g, d, s, playerPawn) == Some(Place(c)) <==>
      (Reaches(d, s, c) && StepsTo(d, s, c) >= 1 && OnBoard(c) && At(g, c) == NoPawn &&
       forall i :: 0 <= i < StepsTo(d, s, c) ==>
         OnBoard(Advance(d, s, i)) && At(g, Advance(d, s, i)) == RivalOf(playerPawn))
  {
    var line := Line(g, d, s);
    LineLength(g, d, s);
    var k := StepsTo(d, s, c);
    ScanLineFinds(line, playerPawn, false, k);
    if Registered(g, d, s, playerPawn) == Some(Place(c)) {
      var found := ScanLine(line, playerPawn, false).value;
      ReachesAdvance(d, s, found);
      assert k == found;
      LineAt(g, d, s, k);
      forall i | 0 <= i < k
        ensures OnBoard(Advance(d, s, i)) && At(g, Advance(d, s, i)) == RivalOf(playerPawn)
      {
        LineAt(g, d, s, i);
      }
    }
    if Reaches(d, s, c) && k >= 1 && OnBoard(c) && At(g, c) == NoPawn &&
       forall i :: 0 <= i < k ==> OnBoard(Advance(d, s, i)) && At(g, Advance(d, s, i)) == RivalOf(playerPawn)
    {
      WalkOnBoard(d, s, k);
      LineAt(g, d, s, k);
      forall i | 0 <= i < k
        ensures line[i] == RivalOf(playerPawn)
      {
        WalkOnBoard(d, s, i);
        LineAt(g, d, s, i);
      }
    }
  }

  /** Every ply a walk returns is a placement on an empty board cell. */
  lemma RegisteredIsEmptyCell(g: Grid, d: Direction, s: Coord, playerPawn: Cell)
    requires Walkable(d, s) && playerPawn != NoPawn
    ensures Registered(g, d, s, playerPawn).Some? ==>
      var ply := Registered(g, d, s, playerPawn).value;
      ply.Place? && OnBoard(ply.destination) && At(g, ply.destination) == NoPawn
  {
    if Registered(g, d, s, playerPawn).Some? {
      RegisteredFinds(g, d, s, playerPawn, Registered(g, d, s, playerPawn).value.destination);
    }
  }

  /** A walk that starts on the mover's own pawn stops at once with no ply. */
  lemma RegisteredFromOwnPawn(g: Grid, d: Direction, s: Coord, playerPawn: Cell)
    requires OnBoard(s) && At(g, s) == playerPawn && playerPawn != NoPawn
    ensures Walkable(d, s)
    ensures Registered(g, d, s, playerPawn) == None
  {
    WalkOnBoard(d, s, 0);
    AdvanceNext(d, s, 0);
    LineTail(g, d, s);
  }

  /** A walk whose first cell is empty has passed no rival pawn: no ply. */
  lemma RegisteredFromEmptyCell(g: Grid, d: Direction, s: Coord, playerPawn: Cell)
    requires OnBoard(s) && At(g, s) == NoPawn
    ensures Walkable(d, s)
    ensures Registered(g, d, s, playerPawn) == None
  {
    WalkOnBoard(d, s, 0);
    AdvanceNext(d, s, 0);
    LineTail(g, d, s);
  }

  /** A walk that starts off the board reads nothing: no ply. */
  lemma RegisteredOffBoard(g: Grid, d: Direction, s: Coord, playerPawn: Cell)
    requires Walkable(d, s) && !OnBoard(s)
    ensures Registered(g, d, s, playerPawn) == None
  {
    WalkOnBoard(d, s, 0);
    LineLength(g, d, s);
  }

  /** One rival pawn followed by an empty cell: the ply at that empty cell. */
  lemma RegisteredRivalThenEmpty(g: Grid, d: Direction, s: Coord, playerPawn: Cell)
    requires OnBoard(s) && OnBoard(Next(d, s)) && playerPawn != NoPawn
    requires At(g, s) == RivalOf(playerPawn) && At(g, Next(d, s)) == NoPawn
    ensures Walkable(d, s)
    ensures Registered(g, d, s, playerPawn) == Some(Place(Next(d, s)))
  {
    AdvanceNext(d, s, 0);
    ReachesAdvance(d, s, 1);
    RegisteredFinds(g, d, s, playerPawn, Next(d, s));
  }

  /** One rival pawn followed by the mover's own pawn: the walk stops there with no ply. */
  lemma RegisteredRivalThenOwn(g: Grid, d: Direction, s: Coord, playerPawn: Cell)
    requires OnBoard(s) && OnBoard(Next(d, s)) && playerPawn != NoPawn
    requires At(g, s) == RivalOf(playerPawn) && At(g, Next(d, s)) == playerPawn
    ensures Walkable(d, s)
    ensures Registered(g, d, s, playerPawn) == None
  {
    AdvanceNext(d, s, 0);
    WalkOnBoard(d, s, 0);
    assert Advance(d, s, 1) == Next(d, s);
    RegisteredIsEmptyCell(g, d, s, playerPawn);
    forall c
      ensures Registered(g, d, s, playerPawn) != Some(Place(c))
    {
      RegisteredFinds(g, d, s, playerPawn, c);
    }
  }

  /** The plies a walk result contributes to a set: none for the source's null. */
  function PlySet(found: Option<Ply>): set<Ply> {
    if found.Some? then {found.value} else {}
  }

  /** The set of plies the walks of `tasks` return; each task is a direction
      and a start cell. */
  function Found(g: Grid, playerPawn: Cell, tasks: seq<(Direction, Coord)>): set<Ply>
    requires forall i :: 0 <= i < |tasks| ==> Walkable(tasks[i].0, tasks[i].1)
    decreases |tasks|
  {
    if tasks == [] then {}
    else
      var last := tasks[|tasks| - 1];
      Found(g, playerPawn, tasks[..|tasks| - 1]) + PlySet(Registered(g, last.0, last.1, playerPawn))
  }

  /** A ply is found exactly when one of the walks returns it. */
  lemma {:induction false} FoundMembers(g: Grid, playerPawn: Cell, tasks: seq<(Direction, Coord)>, ply: Ply)
    requires forall i :: 0 <= i < |tasks| ==> Walkable(tasks[i].0, tasks[i].1)
    ensures ply in Found(g, playerPawn, tasks) <==>
      exists i :: 0 <= i < |tasks| && Registered(g, tasks[i].0, tasks[i].1, playerPawn) == Some(ply)
    decreases |tasks|
  {
    if tasks != [] {
      var n := |tasks| - 1;
      FoundMembers(g, playerPawn, tasks[..n], ply);
      assert forall i :: 0 <= i < n ==> tasks[..n][i] == tasks[i];
    }
  }

  /** Running more walks never loses a ply. */
  lemma FoundPrefix(g: Grid, playerPawn: Cell, tasks: seq<(Direction, Coord)>, m: int)
    requires forall i :: 0 <= i < |tasks| ==> Walkable(tasks[i].0, tasks[i].1)
    requires 0 <= m <= |tasks|
    ensures Found(g, playerPawn, tasks[..m]) <= Found(g, playerPawn, tasks)
  {
    forall ply | ply in Found(g, playerPawn, tasks[..m])
      ensures ply in Found(g, playerPawn, tasks)
    {
      FoundMembers(g, playerPawn, tasks[..m], ply);
      FoundMembers(g, playerPawn, tasks, ply);
      var i :| 0 <= i < m && Registered(g, tasks[..m][i].0, tasks[..m][i].1, playerPawn) == Some(ply);
      assert tasks[..m][i] == tasks[i];
    }
  }

  /** Walks queued after others keep every ply the earlier walks found. */
  lemma FoundAppend(g: Grid, playerPawn: Cell, before: seq<(Direction, Coord)>, walks: seq<(Direction, Coord)>)
    requires forall i :: 0 <= i < |before| ==> Walkable(before[i].0, before[i].1)
    requires forall i :: 0 <= i < |walks| ==> Walkable(walks[i].0, walks[i].1)
    ensures forall i :: 0 <= i < |before + walks| ==> Walkable((before + walks)[i].0, (before + walks)[i].1)
    ensures Found(g, playerPawn, before) <= Found(g, playerPawn, before + walks)
  {
    FoundPrefix(g, playerPawn, before + walks, |before|);
    assert (before + walks)[..|before|] == before;
  }

  /** Every ply found is a placement on an empty board cell. */
  lemma FoundEmptyCells(g: Grid, playerPawn: Cell, tasks: seq<(Direction, Coord)>, ply: Ply)
    requires forall i :: 0 <= i < |tasks| ==> Walkable(tasks[i].0, tasks[i].1)
    requires playerPawn != NoPawn && ply in Found(g, playerPawn, tasks)
    ensures ply.Place? && OnBoard(ply.destination) && At(g, ply.destination) == NoPawn
  {
    FoundMembers(g, playerPawn, tasks, ply);
    var i :| 0 <= i < |tasks| && Registered(g, tasks[i].0, tasks[i].1, playerPawn) == Some(ply);
    RegisteredIsEmptyCell(g, tasks[i].0, tasks[i].1, playerPawn);
  }

  /** What the walk still returns once it has passed i cells, `rivalSeen`
      saying whether one of them was a rival pawn. */
  ghost function Remaining(g: Grid, d: Direction, s: Coord, playerPawn: Cell, i: int, rivalSeen: bool): Option<Ply>
    requires Walkable(d, s) && 0 <= i <= Reach(d, s)
  {
    LineLength(g, d, s);
    PlyAt(d, s, ScanLine(Line(g, d, s)[i..], playerPawn, rivalSeen), i)
  }

  /** Before the first cell, what remains is the whole walk. */
  lemma RemainingStart(g: Grid, d: Direction, s: Coord, playerPawn: Cell)
    requires Walkable(d, s)
    ensures Remaining(g, d, s, playerPawn, 0, false) == Registered(g, d, s, playerPawn)
  {
    LineLength(g, d, s);
    assert Line(g, d, s)[0..] == Line(g, d, s);
  }

  /** One step of the walk at its i-th cell: the cell it reads, and how the
      rest of the walk depends on it. */
  lemma ScanStep(g: Grid, d: Direction, s: Coord, playerPawn: Cell, i: int, rivalSeen: bool)
    requires Walkable(d, s) && 0 <= i && playerPawn != NoPawn
    requires Verify(d, Advance(d, s, i).row, Advance(d, s, i).column, None)
    ensures i < Reach(d, s) && OnBoard(Advance(d, s, i))
    ensures Next(d, Advance(d, s, i)) == Advance(d, s, i + 1)
    ensures At(g, Advance(d, s, i)) == NoPawn ==>
      Remaining(g, d, s, playerPawn, i, rivalSeen) == (if rivalSeen then Some(Place(Advance(d, s, i))) else None)
    ensures At(g, Advance(d, s, i)) == playerPawn ==>
      Remaining(g, d, s, playerPawn, i, rivalSeen) == None
    ensures At(g, Advance(d, s, i)) != NoPawn && At(g, Advance(d, s, i)) != playerPawn ==>
      Remaining(g, d, s, playerPawn, i, rivalSeen) == Remaining(g, d, s, playerPawn, i + 1, true)
  {
    VerifyAlong(d, s, i);
    LineAt(g, d, s, i);
    AdvanceNext(d, s, i);
    var line := Line(g, d, s);
    ScanAt(line, i, playerPawn, rivalSeen);
    PlyAtShifted(d, s, ScanLine(line[i + 1..], playerPawn, true), i);
  }

  /** Where the edge guard fails, the walk has read its whole line and found nothing. */
  lemma ScanEnd(g: Grid, d: Direction, s: Coord, playerPawn: Cell, i: int, rivalSeen: bool)
    requires Walkable(d, s) && 0 <= i <= Reach(d, s)
    requires !Verify(d, Advance(d, s, i).row, Advance(d, s, i).column, None)
    ensures Remaining(g, d, s, playerPawn, i, rivalSeen) == None
  {
    VerifyAlong(d, s, i);
    LineLength(g, d, s);
    assert Line(g, d, s)[i..] == [];
  }

  function Shifted(found: Option<nat>): Option<nat> {
    match found
    case None => None
    case Some(k) => Some(k + 1)
  }

  /** A position found one cell later is the same cell of the ray. */
  lemma PlyAtShifted(d: Direction, s: Coord, found: Option<nat>, offset: int)
    ensures PlyAt(d, s, Shifted(found), offset) == PlyAt(d, s, found, offset + 1)
  {
    if found.Some? {
      assert offset + (found.value + 1) == (offset + 1) + found.value;
    }
  }

  /** The scan of a suffix, unfolded at its first cell. */
  lemma ScanAt(line: seq<Cell>, i: int, playerPawn: Cell, rivalSeen: bool)
    requires 0 <= i < |line|
    ensures ScanLine(line[i..], playerPawn, rivalSeen) ==
      if line[i] == NoPawn then (if rivalSeen then Some(0) else None)
      else if line[i] == playerPawn then None
      else Shifted(ScanLine(line[i + 1..], playerPawn, true))
  {
    assert line[i..][0] == line[i];
    assert line[i..][1..] == line[i + 1..];
  }

  /** The legality task for one direction from one start cell. */
  class LegalMoveRegistration {
    const board: Board
    const direction: Direction
    const start: Coord
    const playerPawn: Cell
    const rivalPawn: Cell

    predicate Valid() {
      board.Valid() && playerPawn != NoPawn && rivalPawn == RivalOf(playerPawn)
    }

    constructor (board: Board, direction: Direction, start: Coord, currentPlayer: int)
      requires board.Valid()
      ensures Valid()
      ensures this.board == board && this.direction == direction && this.start == start
      ensures playerPawn == GetPawnID(currentPlayer) && rivalPawn == RivalOf(playerPawn)
    {
      this.board := board;
      this.direction := direction;
      this.start := start;
      var pawn := GetPawnID(currentPlayer);
      this.playerPawn := pawn;
      this.rivalPawn := if pawn == BlackPawn then WhitePawn else BlackPawn;
    }

    /** The walk: the placement found, or None (the source's null). */
    method Call() returns (ply: Option<Ply>)
      requires Valid() && Walkable(direction, start)
      ensures ply == Registered(board.cells[..], direction, start, playerPawn)
    {
      ghost var g: Grid := board.cells[..];
      var rivalPawnEncountered := false;
      var rowCursor, columnCursor := start.row, start.column;
      ghost var i := 0;
      AdvanceNext(direction, start, 0);
      RemainingStart(g, direction, start, playerPawn);
      WalkOnBoard(direction, start, 0);
      while Verify(direction, rowCursor, columnCursor, None)
        invariant 0 <= i <= Reach(direction, start)
        invariant Coord(rowCursor, columnCursor) == Advance(direction, start, i)
        invariant rivalPawnEncountered == (i > 0)
        invariant Remaining(g, direction, start, playerPawn, i, rivalPawnEncountered)
          == Registered(g, direction, start, playerPawn)
        decreases Reach(direction, start) - i
      {
        ScanStep(g, direction, start, playerPawn, i, rivalPawnEncountered);
        var pawnID := board.GetCase(rowCursor, columnCursor);
        if pawnID == NoPawn {
          if rivalPawnEncountered {
            CoordinateRoundTrip(rowCursor, columnCursor);
            return Some(Place(Coordinate(ColumnLetter(columnCursor), RowDigit(rowCursor))));
          } else {
            break;
          }
        } else if pawnID == playerPawn {
          break;
        } else if pawnID == rivalPawn {
          rivalPawnEncountered := true;
        }
        rowCursor, columnCursor := UpdateRow(direction, rowCursor), UpdateColumn(direction, columnCursor);
        i := i + 1;
      }
      if !Verify(direction, rowCursor, columnCursor, None) {
        ScanEnd(g, direction, start, playerPawn, i, rivalPawnEncountered);
      }
      return None;
    }
  }

  /** The direction and start cell of each task of a list. */
  function TaskSpecs(taskList: seq<LegalMoveRegistration>): (specs: seq<(Direction, Coord)>)
    ensures |specs| == |taskList|
  {
    seq(|taskList|, i requires 0 <= i < |taskList| => (taskList[i].direction, taskList[i].start))
  }

  /** Every task of the list walks `board` for `playerPawn`, from a start
      cell it can walk from. */
  predicate Runnable(taskList: seq<LegalMoveRegistration>, board: Board, playerPawn: Cell) {
    forall i :: 0 <= i < |taskList| ==>
      taskList[i].Valid() && taskList[i].board == board && taskList[i].playerPawn == playerPawn &&
      Walkable(taskList[i].direction, taskList[i].start)
  }

  /** Appends one new task per walk (a direction and a start cell) to the task
      list, in order. */
  method Queue(board: Board, activePlayer: int, taskList: seq<LegalMoveRegistration>, walks: seq<(Direction, Coord)>)
    returns (queued: seq<LegalMoveRegistration>)
    requires board.Valid() && Runnable(taskList, board, GetPawnID(activePlayer))
    requires forall i :: 0 <= i < |walks| ==> Walkable(walks[i].0, walks[i].1)
    ensures Runnable(queued, board, GetPawnID(activePlayer))
    ensures TaskSpecs(queued) == TaskSpecs(taskList) + walks
  {
    queued := taskList;
    for k := 0 to |walks|
      invariant Runnable(queued, board, GetPawnID(activePlayer))
      invariant TaskSpecs(queued) == TaskSpecs(taskList) + walks[..k]
    {
      var task := new LegalMoveRegistration(board, walks[k].0, walks[k].1, activePlayer);
      assert TaskSpecs(queued + [task]) == TaskSpecs(queued) + [(task.direction, task.start)];
      assert walks[..k + 1] == walks[..k] + [walks[k]];
      queued := queued + [task];
    }
    assert walks[..|walks|] == walks;
  }

  /** Runs every task of the list (the executor's `invokeAll`, one task after
      the other) and adds each non-null result to the plies gathered so far. */
  method CollectAll(board: Board, playerPawn: Cell, taskList: seq<LegalMoveRegistration>, legalPlys: set<Ply>)
    returns (collected: set<Ply>)
    requires board.Valid() && Runnable(taskList, board, playerPawn)
    ensures collected == legalPlys + Found(board.cells[..], playerPawn, TaskSpecs(taskList))
  {
    var specs := TaskSpecs(taskList);
    collected := legalPlys;
    for t := 0 to |taskList|
      invariant collected == legalPlys + Found(board.cells[..], playerPawn, specs[..t])
    {
      var result := taskList[t].Call();
      if result.Some? {
        collected := collected + {result.value};
      }
      assert specs[..t + 1][..t] == specs[..t];
    }
    assert specs[..|taskList|] == specs;
  }
}
