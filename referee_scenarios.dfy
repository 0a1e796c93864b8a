/** Two positions the referee's legality walks are checked on: the opening
    position, where Black has the four usual moves, and a position where the
    only white pawn sits in a ring of black pawns, where Black has none. The
    active player in both is the one whose identifier is Black's. */
module RefereeScenarios {
  import opened Wrappers
  import opened Othello
  import opened LineTraversor
  import opened OthelloBoard
  import opened LegalMoveTask
  import opened ReversePawnTask
  import opened Rules
  import opened Referee

  /** The four opening moves of each colour: D3, C4, E6 and F5 for Black,
      E3, F4, C5 and D6 for White. */
  function OpeningMoves(playerPawn: Cell): set<Ply> {
    if playerPawn == WhitePawn then
      {Place(Coordinate('E', '3')), Place(Coordinate('F', '4')),
       Place(Coordinate('C', '5')), Place(Coordinate('D', '6'))}
    else
      {Place(Coordinate('D', '3')), Place(Coordinate('C', '4')),
       Place(Coordinate('E', '6')), Place(Coordinate('F', '5'))}
  }

  /** The two opening pawns of a colour: (3, 4) and (4, 3) are black, (3, 3)
      and (4, 4) white. */
  predicate OpeningPawn(origin: Coord, playerPawn: Cell) {
    (playerPawn == BlackPawn && (origin == Coord(3, 4) || origin == Coord(4, 3))) ||
    (playerPawn == WhitePawn && (origin == Coord(3, 3) || origin == Coord(4, 4)))
  }

  /** From either pawn of a colour in the opening position, each walk from a
      neighbour returns nothing or one of that colour's four opening moves. */
  lemma OpeningWalk(origin: Coord, d: Direction, playerPawn: Cell)
    requires playerPawn != NoPawn && OnBoard(origin) && At(InitialGrid(), origin) == playerPawn
    ensures PlySet(WalkFromNeighbour(InitialGrid(), d, origin, playerPawn)) <= OpeningMoves(playerPawn)
  {
    InitialPosition();
    OpeningPawnWalk(origin, d, playerPawn);
  }

  /** The same, for each opening pawn by name. */
  lemma OpeningPawnWalk(origin: Coord, d: Direction, playerPawn: Cell)
    requires OpeningPawn(origin, playerPawn)
    ensures PlySet(WalkFromNeighbour(InitialGrid(), d, origin, playerPawn)) <= OpeningMoves(playerPawn)
  {
    var g := InitialGrid();
    InitialPosition();
    var s := Neighbour(d, origin);
    if At(g, s) == NoPawn {
      RegisteredFromEmptyCell(g, d, s, playerPawn);
    } else if At(g, s) == playerPawn {
      RegisteredFromOwnPawn(g, d, s, playerPawn);
    } else {
      RegisteredRivalThenEmpty(g, d, s, playerPawn);
    }
  }

  /** Every move the referee offers a colour in the opening position is one
      of its four. */
  lemma OpeningMovesWithin(playerPawn: Cell)
    requires playerPawn != NoPawn
    ensures RefereeMoves(InitialGrid(), playerPawn) <= OpeningMoves(playerPawn)
  {
    var g := InitialGrid();
    forall ply | ply in RefereeMoves(g, playerPawn)
      ensures ply in OpeningMoves(playerPawn)
    {
      RefereeMoveFrom(g, playerPawn, ply);
      var origin, d :| OnBoard(origin) && At(g, origin) == playerPawn &&
        WalkFromNeighbour(g, d, origin, playerPawn) == Some(ply);
      OpeningWalk(origin, d, playerPawn);
    }
  }

  /** An opening pawn with a rival pawn next to it and an empty cell behind
      that: the empty cell is offered. */
  lemma OpeningMoveOffered(origin: Coord, d: Direction, playerPawn: Cell)
    requires (playerPawn, origin, d) in
      {(BlackPawn, Coord(4, 3), North), (BlackPawn, Coord(3, 4), West),
       (BlackPawn, Coord(3, 4), South), (BlackPawn, Coord(4, 3), East),
       (WhitePawn, Coord(4, 4), North), (WhitePawn, Coord(3, 3), East),
       (WhitePawn, Coord(4, 4), West), (WhitePawn, Coord(3, 3), South)}
    ensures Place(Next(d, Next(d, origin))) in RefereeMoves(InitialGrid(), playerPawn)
  {
    var g := InitialGrid();
    InitialPosition();
    RegisteredRivalThenEmpty(g, d, Next(d, origin), playerPawn);
    RefereeMoveTo(g, playerPawn, Place(Next(d, Next(d, origin))), origin, d);
  }

  /** A set within four elements that holds all four is exactly them. */
  lemma SetOfFour(m: set<Ply>, a: Ply, b: Ply, c: Ply, d: Ply)
    requires m <= {a, b, c, d} && a in m && b in m && c in m && d in m
    ensures m == {a, b, c, d}
  {
  }

  /** In the opening position the referee offers Black exactly D3, C4, E6 and F5. */
  lemma OpeningMovesOfBlack()
    ensures RefereeMoves(InitialGrid(), BlackPawn) == OpeningMoves(BlackPawn)
  {
    assert OpeningMoves(BlackPawn) == {Place(Coord(2, 3)), Place(Coord(3, 2)), Place(Coord(5, 4)), Place(Coord(4, 5))};
    OpeningMovesWithin(BlackPawn);
    OpeningMoveOffered(Coord(4, 3), North, BlackPawn);
    OpeningMoveOffered(Coord(3, 4), West, BlackPawn);
    OpeningMoveOffered(Coord(3, 4), South, BlackPawn);
    OpeningMoveOffered(Coord(4, 3), East, BlackPawn);
    SetOfFour(RefereeMoves(InitialGrid(), BlackPawn), Place(Coord(2, 3)), Place(Coord(3, 2)), Place(Coord(5, 4)), Place(Coord(4, 5)));
  }

  /** In the opening position the referee offers White exactly E3, F4, C5 and
      D6: the same moves turned a quarter round the centre. */
  lemma OpeningMovesOfWhite()
    ensures RefereeMoves(InitialGrid(), WhitePawn) == OpeningMoves(WhitePawn)
  {
    assert OpeningMoves(WhitePawn) == {Place(Coord(2, 4)), Place(Coord(3, 5)), Place(Coord(4, 2)), Place(Coord(5, 3))};
    OpeningMovesWithin(WhitePawn);
    OpeningMoveOffered(Coord(4, 4), North, WhitePawn);
    OpeningMoveOffered(Coord(3, 3), East, WhitePawn);
    OpeningMoveOffered(Coord(4, 4), West, WhitePawn);
    OpeningMoveOffered(Coord(3, 3), South, WhitePawn);
    SetOfFour(RefereeMoves(InitialGrid(), WhitePawn), Place(Coord(2, 4)), Place(Coord(3, 5)), Place(Coord(4, 2)), Place(Coord(5, 3)));
  }

  /** The opening position after Black plays D3: D3 and D4 black. */
  function AfterBlackD3(): Grid {
    InitialGrid()[Index(Coord(2, 3)) := BlackPawn][Index(Coord(3, 3)) := BlackPawn]
  }

  /** The walk south from D3 turns D4: it holds a white pawn, and the black
      D5 lies beyond it. */
  lemma BlackD3TurnsD4()
    ensures TurnedBy(Placed(InitialGrid(), Coord(2, 3), BlackPawn), South, Coord(2, 3), BlackPawn, Coord(3, 3))
  {
    var placed := Placed(InitialGrid(), Coord(2, 3), BlackPawn);
    InitialPosition();
    IndexRoundTrip(Coord(3, 3));
    IndexRoundTrip(Coord(4, 3));
    assert Advance(South, Coord(2, 3), 2) == Coord(4, 3);
    assert At(placed, Advance(South, Coord(2, 3), 2)) == BlackPawn;
  }

  /** No walk from D3 turns any other cell: the only other white pawn, E5,
      lies on no ray from D3. */
  lemma BlackD3TurnsOnlyD4(d: Direction, c: Coord)
    requires OnBoard(c) && c != Coord(3, 3) && c != Coord(2, 3)
    ensures !TurnedBy(Placed(InitialGrid(), Coord(2, 3), BlackPawn), d, Coord(2, 3), BlackPawn, c)
  {
    InitialPosition();
    IndexRoundTrip(c);
    IndexRoundTrip(Coord(2, 3));
    assert At(Placed(InitialGrid(), Coord(2, 3), BlackPawn), c) == At(InitialGrid(), c);
    if c == Coord(4, 4) {
      assert !Reaches(d, Coord(2, 3), c);
    }
  }

  /** Cell by cell, Black's D3 leaves the board `AfterBlackD3` describes. */
  lemma BlackD3At(c: Coord)
    requires OnBoard(c)
    ensures At(PlyOutcome(InitialGrid(), Coord(2, 3), BlackPawn), c) == At(AfterBlackD3(), c)
  {
    PlyOutcomeAt(InitialGrid(), Coord(2, 3), BlackPawn, c);
    IndexRoundTrip(c);
    IndexRoundTrip(Coord(2, 3));
    IndexRoundTrip(Coord(3, 3));
    if c == Coord(3, 3) {
      BlackD3TurnsD4();
    } else if c != Coord(2, 3) {
      forall d
        ensures !TurnedBy(Placed(InitialGrid(), Coord(2, 3), BlackPawn), d, Coord(2, 3), BlackPawn, c)
      {
        BlackD3TurnsOnlyD4(d, c);
      }
    }
  }

  /** After D3 the board holds four black pawns and one white. */
  lemma AfterBlackD3Counts()
    ensures Count(AfterBlackD3(), BlackPawn) == 4 && Count(AfterBlackD3(), WhitePawn) == 1
  {
    var g := InitialGrid();
    InitialPosition();
    InitialCounts();
    IndexRoundTrip(Coord(2, 3));
    IndexRoundTrip(Coord(3, 3));
    var placed := g[Index(Coord(2, 3)) := BlackPawn];
    UpdateMultiset(g, Index(Coord(2, 3)), BlackPawn);
    UpdateMultiset(placed, Index(Coord(3, 3)), BlackPawn);
  }

  /** Black's D3 in the opening position, by `doPly` and by
      `generateNewContextFrom` alike: D4 is turned, nothing else, leaving
      four black pawns and one white. */
  lemma BlackD3()
    ensures PlyOutcome(InitialGrid(), Coordinate('D', '3'), BlackPawn) == AfterBlackD3()
    ensures RefereeOutcome(InitialGrid(), Coordinate('D', '3'), BlackPawn) == AfterBlackD3()
    ensures Count(AfterBlackD3(), BlackPawn) == 4 && Count(AfterBlackD3(), WhitePawn) == 1
  {
    var r := PlyOutcome(InitialGrid(), Coord(2, 3), BlackPawn);
    forall j | 0 <= j < CellCount
      ensures r[j] == AfterBlackD3()[j]
    {
      CoordOfRoundTrip(j);
      BlackD3At(CoordOf(j));
    }
    assert r == AfterBlackD3();
    RefereeAgreesWithRules(InitialGrid(), Coord(2, 3), BlackPawn);
    AfterBlackD3Counts();
  }

  /** The opening position with the 3x3 block of rows 3-5 and columns 3-5
      overwritten: black everywhere but the white centre (4, 4). */
  function RingGrid(): Grid {
    InitialGrid()
      [Index(Coord(3, 3)) := BlackPawn]
      [Index(Coord(3, 4)) := BlackPawn]
      [Index(Coord(3, 5)) := BlackPawn]
      [Index(Coord(4, 3)) := BlackPawn]
      [Index(Coord(4, 4)) := WhitePawn]
      [Index(Coord(4, 5)) := BlackPawn]
      [Index(Coord(5, 3)) := BlackPawn]
      [Index(Coord(5, 4)) := BlackPawn]
      [Index(Coord(5, 5)) := BlackPawn]
  }

  /** The ring position cell by cell. */
  lemma RingPosition(c: Coord)
    requires OnBoard(c)
    ensures At(RingGrid(), c) ==
      if c == Coord(4, 4) then WhitePawn
      else if 3 <= c.row <= 5 && 3 <= c.column <= 5 then BlackPawn
      else NoPawn
  {
    InitialPosition();
  }

  /** No walk from a neighbour of a black pawn of the ring position returns a
      ply: the walk starts on an empty cell, on a black pawn, or on the white
      centre with a black pawn right behind it. */
  lemma RingWalk(origin: Coord, d: Direction)
    requires OnBoard(origin) && At(RingGrid(), origin) == BlackPawn
    ensures WalkFromNeighbour(RingGrid(), d, origin, BlackPawn) == None
  {
    var g := RingGrid();
    var s := Neighbour(d, origin);
    RingPosition(origin);
    if !OnBoard(s) {
      RegisteredOffBoard(g, d, s, BlackPawn);
    } else {
      RingPosition(s);
      if At(g, s) == NoPawn {
        RegisteredFromEmptyCell(g, d, s, BlackPawn);
      } else if At(g, s) == BlackPawn {
        RegisteredFromOwnPawn(g, d, s, BlackPawn);
      } else {
        RingPosition(Next(d, s));
        RegisteredRivalThenOwn(g, d, s, BlackPawn);
      }
    }
  }

  /** In the ring position the referee offers Black no move. */
  lemma RingHasNoMove()
    ensures RefereeMoves(RingGrid(), BlackPawn) == {}
  {
    var g := RingGrid();
    forall ply | ply in RefereeMoves(g, BlackPawn)
      ensures false
    {
      RefereeMoveFrom(g, BlackPawn, ply);
      var origin, d :| OnBoard(origin) && At(g, origin) == BlackPawn &&
        WalkFromNeighbour(g, d, origin, BlackPawn) == Some(ply);
      RingWalk(origin, d);
    }
  }

  /** `testGetLegalMoves`: on a new board, the legal moves of the player with
      Black's identifier are D3, C4, E6 and F5. */
  method LegalMovesOnNewBoard() returns (legalMoves: set<Ply>)
    ensures legalMoves == OpeningMoves(BlackPawn)
  {
    var initialBoard := new Board();
    legalMoves := GetLegalMoves(initialBoard, BLACK);
    OpeningMovesOfBlack();
  }

  /** `testNoMoveAvailable`: with the white centre ringed by black pawns, the
      player with Black's identifier has no legal move. */
  method NoMoveAvailable() returns (moveCount: int)
    ensures moveCount == 0
  {
    var initialBoard := new Board();
    initialBoard.SetPawnID(3, 3, BlackPawn);
    initialBoard.SetPawnID(3, 4, BlackPawn);
    initialBoard.SetPawnID(3, 5, BlackPawn);
    initialBoard.SetPawnID(4, 3, BlackPawn);
    initialBoard.SetPawnID(4, 4, WhitePawn);
    initialBoard.SetPawnID(4, 5, BlackPawn);
    initialBoard.SetPawnID(5, 3, BlackPawn);
    initialBoard.SetPawnID(5, 4, BlackPawn);
    initialBoard.SetPawnID(5, 5, BlackPawn);
    var legalMoves := GetLegalMoves(initialBoard, BLACK);
    RingHasNoMove();
    moveCount := |legalMoves|;
  }
}
