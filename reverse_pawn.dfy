/** The per-ray capture task: walking from a start cell to the board edge, each
    time the walk meets the mover's pawn it turns every rival pawn between the
    start and that pawn into the mover's pawn. The walk stops neither at an
    empty cell nor at the first own pawn, so a rival pawn is turned exactly
    when the mover's pawn lies somewhere farther along the ray, gaps or not. */
module ReversePawnTask {
  import opened Wrappers
  import opened Othello
  import opened LineTraversor
  import opened OthelloBoard

  /** The cells of a walk after capture: a rival pawn becomes the mover's pawn
      when the mover's pawn occurs somewhere after it. */
  function ReverseLine(line: seq<Cell>, playerPawn: Cell): (reversed: seq<Cell>)
    ensures |reversed| == |line|
  {
    seq(|line|, i requires 0 <= i < |line| =>
      if line[i] == RivalOf(playerPawn) && playerPawn in line[i + 1..] then playerPawn else line[i])
  }

  /** `line` with the rival pawns among its first `m` cells turned into the mover's pawn. */
  function FlipBefore(line: seq<Cell>, playerPawn: Cell, m: int): (flipped: seq<Cell>)
    ensures |flipped| == |line|
  {
    seq(|line|, i requires 0 <= i < |line| =>
      if i < m && line[i] == RivalOf(playerPawn) then playerPawn else line[i])
  }

  /** Reading one more cell: an own pawn turns every remaining rival pawn before
      it; any other cell just joins the line. */
  lemma ReverseLineExtend(line: seq<Cell>, k: int, playerPawn: Cell)
    requires 0 <= k < |line| && playerPawn != NoPawn
    ensures ReverseLine(line[..k + 1], playerPawn) ==
      (if line[k] == playerPawn then FlipBefore(ReverseLine(line[..k], playerPawn), playerPawn, k)
       else ReverseLine(line[..k], playerPawn)) + [line[k]]
  {
    var longer := ReverseLine(line[..k + 1], playerPawn);
    var shorter := ReverseLine(line[..k], playerPawn);
    var expected := (if line[k] == playerPawn then FlipBefore(shorter, playerPawn, k) else shorter) + [line[k]];
    forall i | 0 <= i <= k
      ensures longer[i] == expected[i]
    {
      if i < k {
        assert line[..k + 1][i + 1..] == line[..k][i + 1..] + [line[k]];
      } else {
        assert line[..k + 1][k + 1..] == [];
      }
    }
  }

  /** The board after writing `x` onto the first |x| cells of the ray from `s`. */
  function Overlay(g: Grid, d: Direction, s: Coord, x: seq<Cell>): Grid {
    seq(CellCount, j requires 0 <= j < CellCount =>
      if Reaches(d, s, CoordOf(j)) && StepsTo(d, s, CoordOf(j)) < |x| then x[StepsTo(d, s, CoordOf(j))] else g[j])
  }

  lemma OverlayAt(g: Grid, d: Direction, s: Coord, x: seq<Cell>, m: int)
    requires 0 <= m && OnBoard(Advance(d, s, m))
    ensures Overlay(g, d, s, x)[Index(Advance(d, s, m))] == if m < |x| then x[m] else At(g, Advance(d, s, m))
  {
    IndexRoundTrip(Advance(d, s, m));
    ReachesAdvance(d, s, m);
  }

  lemma OverlayUpdate(g: Grid, d: Direction, s: Coord, x: seq<Cell>, m: int, v: Cell)
    requires 0 <= m < |x| && OnBoard(Advance(d, s, m))
    ensures Overlay(g, d, s, x)[Index(Advance(d, s, m)) := v] == Overlay(g, d, s, x[m := v])
  {
    IndexRoundTrip(Advance(d, s, m));
    ReachesAdvance(d, s, m);
    var updated := Overlay(g, d, s, x)[Index(Advance(d, s, m)) := v];
    var rewritten := Overlay(g, d, s, x[m := v]);
    forall j | 0 <= j < CellCount
      ensures updated[j] == rewritten[j]
    {
      CoordOfRoundTrip(j);
    }
  }

  /** Writing a cell's own value back changes nothing. */
  lemma OverlayExtend(g: Grid, d: Direction, s: Coord, x: seq<Cell>)
    requires OnBoard(Advance(d, s, |x|))
    ensures Overlay(g, d, s, x + [At(g, Advance(d, s, |x|))]) == Overlay(g, d, s, x)
  {
    IndexRoundTrip(Advance(d, s, |x|));
    forall j | 0 <= j < CellCount
      ensures Overlay(g, d, s, x + [At(g, Advance(d, s, |x|))])[j] == Overlay(g, d, s, x)[j]
    {
      CoordOfRoundTrip(j);
    }
  }

  lemma OverlayNothing(g: Grid, d: Direction, s: Coord)
    ensures Overlay(g, d, s, []) == g
  {
  }

  /** A board cell of the overlay: written if on the first |x| cells of the ray. */
  lemma OverlayCoord(g: Grid, d: Direction, s: Coord, x: seq<Cell>, c: Coord)
    requires OnBoard(c)
    ensures At(Overlay(g, d, s, x), c) ==
      if Reaches(d, s, c) && StepsTo(d, s, c) < |x| then x[StepsTo(d, s, c)] else At(g, c)
  {
    IndexRoundTrip(c);
  }

  /** Overlaying twice the same length of ray keeps only the second write. */
  lemma OverlayTwice(g: Grid, d: Direction, s: Coord, x: seq<Cell>, y: seq<Cell>)
    requires |x| == |y|
    ensures Overlay(Overlay(g, d, s, x), d, s, y) == Overlay(g, d, s, y)
  {
  }

  /** Writing a board cell's own value at the start of the ray is the same as
      writing the rest from the next cell. */
  lemma OverlayCons(g: Grid, d: Direction, s: Coord, x: seq<Cell>)
    requires OnBoard(s)
    ensures Overlay(g, d, s, [At(g, s)] + x) == Overlay(g, d, Next(d, s), x)
  {
    IndexRoundTrip(s);
    var left := Overlay(g, d, s, [At(g, s)] + x);
    var right := Overlay(g, d, Next(d, s), x);
    forall j | 0 <= j < CellCount
      ensures left[j] == right[j]
    {
      CoordOfRoundTrip(j);
      ReachesNext(d, s, CoordOf(j));
    }
  }

  /** The walk over an overlaid board reads back what was written. */
  lemma LineOverlay(g: Grid, d: Direction, s: Coord, x: seq<Cell>)
    requires Walkable(d, s) && |x| == Reach(d, s)
    ensures Line(Overlay(g, d, s, x), d, s) == x
  {
    var h := Overlay(g, d, s, x);
    LineLength(h, d, s);
    forall i | 0 <= i < |x|
      ensures Line(h, d, s)[i] == x[i]
    {
      LineAt(h, d, s, i);
      OverlayAt(g, d, s, x, i);
    }
  }

  /** Overlaying cells the walk reads gives the board back. */
  lemma OverlayPrefix(g: Grid, d: Direction, s: Coord, n: int)
    requires Walkable(d, s) && 0 <= n <= Reach(d, s)
    ensures |Line(g, d, s)| == Reach(d, s)
    ensures Overlay(g, d, s, Line(g, d, s)[..n]) == g
  {
    LineLength(g, d, s);
    forall j | 0 <= j < CellCount
      ensures Overlay(g, d, s, Line(g, d, s)[..n])[j] == g[j]
    {
      CoordOfRoundTrip(j);
      var c := CoordOf(j);
      if Reaches(d, s, c) && StepsTo(d, s, c) < n {
        LineAt(g, d, s, StepsTo(d, s, c));
      }
    }
  }

  /** What `run` leaves on the board: the walk's cells after capture. */
  function ReverseSpec(g: Grid, d: Direction, s: Coord, playerPawn: Cell): Grid
    requires Walkable(d, s)
  {
    Overlay(g, d, s, ReverseLine(Line(g, d, s), playerPawn))
  }

  /** The mover's pawn lies farther along the walk than its t-th cell. */
  lemma OwnPawnAhead(g: Grid, d: Direction, s: Coord, playerPawn: Cell, t: int)
    requires Walkable(d, s) && 0 <= t < Reach(d, s)
    ensures |Line(g, d, s)| == Reach(d, s)
    ensures playerPawn in Line(g, d, s)[t + 1..] <==>
      exists k :: t < k < Reach(d, s) && OnBoard(Advance(d, s, k)) && At(g, Advance(d, s, k)) == playerPawn
  {
    var line := Line(g, d, s);
    LineLength(g, d, s);
    if playerPawn in line[t + 1..] {
      var idx :| 0 <= idx < |line[t + 1..]| && line[t + 1..][idx] == playerPawn;
      LineAt(g, d, s, t + 1 + idx);
    }
    if exists k :: t < k < Reach(d, s) && OnBoard(Advance(d, s, k)) && At(g, Advance(d, s, k)) == playerPawn {
      var k :| t < k < Reach(d, s) && OnBoard(Advance(d, s, k)) && At(g, Advance(d, s, k)) == playerPawn;
      LineAt(g, d, s, k);
      assert line[t + 1..][k - t - 1] == playerPawn;
    }
  }

  /** Cell c is turned by the walk from `s` along `d`: it lies on the ray,
      holds the rival pawn, and the mover's pawn lies strictly farther along
      the walk, whatever lies in between. */
  predicate TurnedBy(g: Grid, d: Direction, s: Coord, playerPawn: Cell, c: Coord)
    requires OnBoard(c)
  {
    Reaches(d, s, c) && At(g, c) == RivalOf(playerPawn) &&
    exists k :: StepsTo(d, s, c) < k < Reach(d, s) && OnBoard(Advance(d, s, k)) &&
      At(g, Advance(d, s, k)) == playerPawn
  }

  /** Cell by cell: exactly the turned cells change, each into the mover's
      pawn; cells off the ray, empty cells and own pawns keep their value. */
  lemma ReverseSpecAt(g: Grid, d: Direction, s: Coord, playerPawn: Cell, c: Coord)
    requires Walkable(d, s) && playerPawn != NoPawn && OnBoard(c)
    ensures At(ReverseSpec(g, d, s, playerPawn), c) ==
      if TurnedBy(g, d, s, playerPawn, c) then playerPawn else At(g, c)
  {
    var line := Line(g, d, s);
    LineLength(g, d, s);
    OverlayCoord(g, d, s, ReverseLine(line, playerPawn), c);
    if Reaches(d, s, c) {
      var t := StepsTo(d, s, c);
      WalkOnBoard(d, s, t);
      LineAt(g, d, s, t);
      OwnPawnAhead(g, d, s, playerPawn, t);
    }
  }

  /** Every change turns a rival pawn into the mover's pawn, on the ray. */
  lemma ReverseOnlyFlips(g: Grid, d: Direction, s: Coord, playerPawn: Cell)
    requires Walkable(d, s) && playerPawn != NoPawn
    ensures forall j :: 0 <= j < CellCount ==>
      ReverseSpec(g, d, s, playerPawn)[j] == g[j] ||
      (g[j] == RivalOf(playerPawn) && ReverseSpec(g, d, s, playerPawn)[j] == playerPawn && Reaches(d, s, CoordOf(j)))
  {
    forall j | 0 <= j < CellCount
      ensures ReverseSpec(g, d, s, playerPawn)[j] == g[j] ||
        (g[j] == RivalOf(playerPawn) && ReverseSpec(g, d, s, playerPawn)[j] == playerPawn && Reaches(d, s, CoordOf(j)))
    {
      CoordOfRoundTrip(j);
      ReverseSpecAt(g, d, s, playerPawn, CoordOf(j));
    }
  }

  /** The mover gains exactly the turned pawns and the rival loses them; the
      number of empty cells, hence of pawns, stays the same. */
  lemma ReverseCounts(g: Grid, d: Direction, s: Coord, playerPawn: Cell)
    requires Walkable(d, s) && playerPawn != NoPawn
    ensures var h := ReverseSpec(g, d, s, playerPawn);
      Count(h, playerPawn) == Count(g, playerPawn) + Changed(g, h) &&
      Count(h, RivalOf(playerPawn)) + Changed(g, h) == Count(g, RivalOf(playerPawn)) &&
      Count(h, NoPawn) == Count(g, NoPawn)
  {
    ReverseOnlyFlips(g, d, s, playerPawn);
    FlipCounts(g, ReverseSpec(g, d, s, playerPawn), RivalOf(playerPawn), playerPawn);
  }

  /** With no own pawn on the walk, nothing changes. */
  lemma ReverseWithoutOwnPawn(g: Grid, d: Direction, s: Coord, playerPawn: Cell)
    requires Walkable(d, s) && playerPawn !in Line(g, d, s)
    ensures ReverseSpec(g, d, s, playerPawn) == g
  {
    var line := Line(g, d, s);
    assert ReverseLine(line, playerPawn) == line;
    OverlayPrefix(g, d, s, Reach(d, s));
    assert line[..Reach(d, s)] == line;
  }

  lemma ReverseLineIdempotent(line: seq<Cell>, playerPawn: Cell)
    requires playerPawn != NoPawn
    ensures ReverseLine(ReverseLine(line, playerPawn), playerPawn) == ReverseLine(line, playerPawn)
  {
    var r := ReverseLine(line, playerPawn);
    forall i | 0 <= i < |line|
      ensures ReverseLine(r, playerPawn)[i] == r[i]
    {
      if r[i] == RivalOf(playerPawn) {
        assert playerPawn !in line[i + 1..];
        forall t | i < t < |line|
          ensures r[t] != playerPawn
        {
          assert line[t] == line[i + 1..][t - i - 1];
          assert line[t + 1..] == line[i + 1..][t - i..];
        }
      }
    }
  }

  /** Running the task again on its own output changes nothing. */
  lemma ReverseIdempotent(g: Grid, d: Direction, s: Coord, playerPawn: Cell)
    requires Walkable(d, s) && playerPawn != NoPawn
    ensures ReverseSpec(ReverseSpec(g, d, s, playerPawn), d, s, playerPawn) == ReverseSpec(g, d, s, playerPawn)
  {
    var line := Line(g, d, s);
    LineLength(g, d, s);
    LineOverlay(g, d, s, ReverseLine(line, playerPawn));
    ReverseLineIdempotent(line, playerPawn);
  }

  lemma ReverseLineCons(line: seq<Cell>, playerPawn: Cell)
    requires playerPawn != NoPawn
    ensures ReverseLine([playerPawn] + line, playerPawn) == [playerPawn] + ReverseLine(line, playerPawn)
  {
    var l := [playerPawn] + line;
    forall i | 1 <= i < |l|
      ensures ReverseLine(l, playerPawn)[i] == ReverseLine(line, playerPawn)[i - 1]
    {
      assert l[i + 1..] == line[i..];
    }
  }

  /** Starting on the mover's own pawn, as `doPly` does from the destination,
      captures exactly what starting on the next cell does: the first own pawn
      met is the start itself, and turning the cells before it turns nothing. */
  lemma ReverseFromOwnPawn(g: Grid, d: Direction, s: Coord, playerPawn: Cell)
    requires OnBoard(s) && At(g, s) == playerPawn && playerPawn != NoPawn
    ensures Walkable(d, s) && Walkable(d, Next(d, s))
    ensures ReverseSpec(g, d, s, playerPawn) == ReverseSpec(g, d, Next(d, s), playerPawn)
  {
    WalkOnBoard(d, s, 0);
    AdvanceNext(d, s, 0);
    LineTail(g, d, s);
    ReverseLineCons(Line(g, d, Next(d, s)), playerPawn);
    OverlayCons(g, d, s, ReverseLine(Line(g, d, Next(d, s)), playerPawn));
  }

  /** One step of the outer walk at its k-th cell: the cell still holds its
      original value, and capturing up to it extends the captured prefix. */
  lemma ReverseStep(g: Grid, d: Direction, s: Coord, playerPawn: Cell, k: int)
    requires Walkable(d, s) && 0 <= k && playerPawn != NoPawn
    requires Verify(d, Advance(d, s, k).row, Advance(d, s, k).column, None)
    ensures k < Reach(d, s) && |Line(g, d, s)| == Reach(d, s) && OnBoard(Advance(d, s, k))
    ensures Next(d, Advance(d, s, k)) == Advance(d, s, k + 1)
    ensures Overlay(g, d, s, ReverseLine(Line(g, d, s)[..k], playerPawn))[Index(Advance(d, s, k))] == Line(g, d, s)[k]
    ensures Line(g, d, s)[k] == playerPawn ==>
      Overlay(g, d, s, FlipBefore(ReverseLine(Line(g, d, s)[..k], playerPawn), playerPawn, k)) ==
      Overlay(g, d, s, ReverseLine(Line(g, d, s)[..k + 1], playerPawn))
    ensures Line(g, d, s)[k] != playerPawn ==>
      Overlay(g, d, s, ReverseLine(Line(g, d, s)[..k], playerPawn)) ==
      Overlay(g, d, s, ReverseLine(Line(g, d, s)[..k + 1], playerPawn))
  {
    VerifyAlong(d, s, k);
    LineAt(g, d, s, k);
    AdvanceNext(d, s, k);
    var line := Line(g, d, s);
    var reversed := ReverseLine(line[..k], playerPawn);
    OverlayAt(g, d, s, reversed, k);
    ReverseLineExtend(line, k, playerPawn);
    OverlayExtend(g, d, s, reversed);
    OverlayExtend(g, d, s, FlipBefore(reversed, playerPawn, k));
  }

  /** The board with cell `c` turned to the mover's pawn when it holds the
      rival's pawn. */
  function TurnedIfRival(g: Grid, c: Coord, playerPawn: Cell): Grid
    requires OnBoard(c)
  {
    if At(g, c) == RivalOf(playerPawn) then g[Index(c) := playerPawn] else g
  }

  /** The body of the reversion loops: turn the cell if it holds the rival pawn. */
  method TurnIfRival(board: Board, row: int, column: int, playerPawn: Cell, rivalPawn: Cell)
    requires board.Valid() && OnBoard(Coord(row, column)) && rivalPawn == RivalOf(playerPawn)
    modifies board.cells
    ensures board.cells[..] == TurnedIfRival(old(board.cells[..]), Coord(row, column), playerPawn)
  {
    var area := board.GetCase(row, column);
    if area == rivalPawn {
      board.SetPawnID(row, column, playerPawn);
    }
  }

  /** The board after the first m turns of a reversion loop along `d` from
      `s`: each turn looks at the next cell of the walk. */
  function FlipSteps(h: Grid, d: Direction, s: Coord, playerPawn: Cell, m: int): Grid
    requires Walkable(d, s) && 0 <= m <= Reach(d, s)
    decreases m
  {
    if m == 0 then h
    else
      WalkOnBoard(d, s, m - 1);
      TurnedIfRival(FlipSteps(h, d, s, playerPawn, m - 1), Advance(d, s, m - 1), playerPawn)
  }

  /** One turn of the reversion loop toward the goal `e`: while the guard
      holds, the cursor is on the board before the goal, and the turn at it
      extends the turns made so far. */
  lemma FlipCursor(h: Grid, d: Direction, s: Coord, e: Coord, playerPawn: Cell, m: int)
    requires Walkable(d, s) && GoalSteps(d, s, e) <= Reach(d, s) && 0 <= m
    requires Verify(d, Advance(d, s, m).row, Advance(d, s, m).column, Some(e))
    ensures m < GoalSteps(d, s, e) && OnBoard(Advance(d, s, m))
    ensures Next(d, Advance(d, s, m)) == Advance(d, s, m + 1)
    ensures FlipSteps(h, d, s, playerPawn, m + 1) ==
      TurnedIfRival(FlipSteps(h, d, s, playerPawn, m), Advance(d, s, m), playerPawn)
  {
    VerifyBefore(d, s, e, m);
    WalkOnBoard(d, s, m);
    AdvanceNext(d, s, m);
  }

  /** One turn at the m-th cell of the ray, over the cells `x` written there:
      it turns the next cell of `x` when that holds the rival pawn. */
  lemma FlipStep(g: Grid, d: Direction, s: Coord, x: seq<Cell>, playerPawn: Cell, m: int)
    requires Walkable(d, s) && 0 <= m < |x| <= Reach(d, s)
    ensures OnBoard(Advance(d, s, m))
    ensures TurnedIfRival(Overlay(g, d, s, FlipBefore(x, playerPawn, m)), Advance(d, s, m), playerPawn) ==
      Overlay(g, d, s, FlipBefore(x, playerPawn, m + 1))
  {
    WalkOnBoard(d, s, m);
    var y := FlipBefore(x, playerPawn, m);
    OverlayAt(g, d, s, y, m);
    assert Overlay(g, d, s, y)[Index(Advance(d, s, m))] == x[m];
    if x[m] == RivalOf(playerPawn) {
      OverlayUpdate(g, d, s, y, m, playerPawn);
      assert y[m := playerPawn] == FlipBefore(x, playerPawn, m + 1);
    } else {
      assert FlipBefore(x, playerPawn, m + 1) == y;
    }
  }

  /** Before any turn, the board is the overlay of its own line. */
  lemma FlipStepsNone(h: Grid, d: Direction, s: Coord, playerPawn: Cell, n: int)
    requires Walkable(d, s) && 0 <= n <= Reach(d, s)
    ensures |Line(h, d, s)| == Reach(d, s)
    ensures FlipSteps(h, d, s, playerPawn, 0) == Overlay(h, d, s, FlipBefore(Line(h, d, s)[..n], playerPawn, 0))
  {
    OverlayPrefix(h, d, s, n);
    var x := Line(h, d, s)[..n];
    assert FlipBefore(x, playerPawn, 0) == x;
  }

  /** One more turn of the loop turns one more cell of the overlay. */
  lemma FlipStepsNext(h: Grid, d: Direction, s: Coord, playerPawn: Cell, x: seq<Cell>, m: int)
    requires Walkable(d, s) && 0 < m <= |x| <= Reach(d, s)
    requires FlipSteps(h, d, s, playerPawn, m - 1) == Overlay(h, d, s, FlipBefore(x, playerPawn, m - 1))
    ensures FlipSteps(h, d, s, playerPawn, m) == Overlay(h, d, s, FlipBefore(x, playerPawn, m))
  {
    var k := m - 1;
    FlipStep(h, d, s, x, playerPawn, k);
    assert k + 1 == m;
  }

  /** After m turns, the rival pawns among the first m cells of the walk are
      turned and nothing else has changed. */
  lemma {:induction false} FlipStepsOverlay(h: Grid, d: Direction, s: Coord, playerPawn: Cell, n: int, m: int)
    requires Walkable(d, s) && 0 <= m <= n <= Reach(d, s)
    ensures |Line(h, d, s)| == Reach(d, s)
    ensures FlipSteps(h, d, s, playerPawn, m) == Overlay(h, d, s, FlipBefore(Line(h, d, s)[..n], playerPawn, m))
    decreases m
  {
    if m == 0 {
      FlipStepsNone(h, d, s, playerPawn, n);
    } else {
      FlipStepsOverlay(h, d, s, playerPawn, n, m - 1);
      FlipStepsNext(h, d, s, playerPawn, Line(h, d, s)[..n], m);
    }
  }

  /** The board after turning the rival pawns on the cells a walk from `s`
      toward the goal `e` visits, the goal excluded. */
  function FlipToward(h: Grid, d: Direction, s: Coord, e: Coord, playerPawn: Cell): Grid
    requires Walkable(d, s) && GoalSteps(d, s, e) <= Reach(d, s)
  {
    LineLength(h, d, s);
    Overlay(h, d, s, FlipBefore(Line(h, d, s)[..GoalSteps(d, s, e)], playerPawn, GoalSteps(d, s, e)))
  }

  /** The turn-by-turn reversion loop, run until the guard toward the goal
      fails, leaves the board `FlipToward` describes. */
  lemma FlipTowardSteps(h: Grid, d: Direction, s: Coord, e: Coord, playerPawn: Cell)
    requires Walkable(d, s) && GoalSteps(d, s, e) <= Reach(d, s)
    ensures FlipSteps(h, d, s, playerPawn, GoalSteps(d, s, e)) == FlipToward(h, d, s, e, playerPawn)
  {
    FlipStepsOverlay(h, d, s, playerPawn, GoalSteps(d, s, e), GoalSteps(d, s, e));
  }

  /** Where the guard toward the goal fails, the loop has made all its turns. */
  lemma FlipDone(h: Grid, d: Direction, s: Coord, e: Coord, playerPawn: Cell, m: int)
    requires Walkable(d, s) && GoalSteps(d, s, e) <= Reach(d, s) && 0 <= m <= GoalSteps(d, s, e)
    requires !Verify(d, Advance(d, s, m).row, Advance(d, s, m).column, Some(e))
    ensures FlipSteps(h, d, s, playerPawn, m) == FlipToward(h, d, s, e, playerPawn)
  {
    VerifyBefore(d, s, e, m);
    FlipTowardSteps(h, d, s, e, playerPawn);
  }

  /** Cell by cell: only the rival pawns on the ray strictly before the goal
      change, each into the mover's pawn. */
  lemma FlipTowardAt(h: Grid, d: Direction, s: Coord, e: Coord, playerPawn: Cell, c: Coord)
    requires Walkable(d, s) && GoalSteps(d, s, e) <= Reach(d, s) && OnBoard(c)
    ensures At(FlipToward(h, d, s, e, playerPawn), c) ==
      if Reaches(d, s, c) && StepsTo(d, s, c) < GoalSteps(d, s, e) && At(h, c) == RivalOf(playerPawn)
      then playerPawn
      else At(h, c)
  {
    var n := GoalSteps(d, s, e);
    LineLength(h, d, s);
    OverlayCoord(h, d, s, FlipBefore(Line(h, d, s)[..n], playerPawn, n), c);
    if Reaches(d, s, c) && StepsTo(d, s, c) < n {
      LineAt(h, d, s, StepsTo(d, s, c));
    }
  }

  /** Flipping toward the k-th cell of a ray whose first k cells were
      overwritten turns the rival pawns among the written cells. */
  lemma FlipTowardOverlay(g: Grid, d: Direction, s: Coord, x: seq<Cell>, playerPawn: Cell)
    requires Walkable(d, s) && |x| <= Reach(d, s)
    ensures GoalSteps(d, s, Advance(d, s, |x|)) == |x|
    ensures FlipToward(Overlay(g, d, s, x), d, s, Advance(d, s, |x|), playerPawn) ==
      Overlay(g, d, s, FlipBefore(x, playerPawn, |x|))
  {
    ReachesAdvance(d, s, |x|);
    VerifyBefore(d, s, Advance(d, s, |x|), 0);
    var h := Overlay(g, d, s, x);
    LineLength(h, d, s);
    forall i | 0 <= i < |x|
      ensures Line(h, d, s)[i] == x[i]
    {
      LineAt(h, d, s, i);
      OverlayAt(g, d, s, x, i);
    }
    assert Line(h, d, s)[..|x|] == x;
    OverlayTwice(g, d, s, x, FlipBefore(x, playerPawn, |x|));
  }

  /** The k-th cell of a walk is on the board, and a walk toward it as the goal
      visits the k cells before it. */
  lemma CellAlong(d: Direction, s: Coord, k: int)
    requires Walkable(d, s) && 0 <= k < Reach(d, s)
    ensures OnBoard(Advance(d, s, k)) && GoalSteps(d, s, Advance(d, s, k)) == k
  {
    WalkOnBoard(d, s, k);
    ReachesAdvance(d, s, k);
    VerifyBefore(d, s, Advance(d, s, k), 0);
  }

  /** The board after the outer walk of `run` has read its first k cells:
      at each own pawn read, the reversion loop ran toward it. */
  function RunSteps(g: Grid, d: Direction, s: Coord, playerPawn: Cell, k: int): Grid
    requires Walkable(d, s) && 0 <= k <= Reach(d, s)
    decreases k
  {
    if k == 0 then g
    else
      var before := RunSteps(g, d, s, playerPawn, k - 1);
      var cursor := Advance(d, s, k - 1);
      CellAlong(d, s, k - 1);
      if At(before, cursor) == playerPawn then FlipToward(before, d, s, cursor, playerPawn) else before
  }

  /** One cell of the outer walk: while the edge guard holds, the cursor is on
      the board, and reading it extends what the walk has done so far. */
  lemma RunCursor(g: Grid, d: Direction, s: Coord, playerPawn: Cell, k: int)
    requires Walkable(d, s) && 0 <= k
    requires Verify(d, Advance(d, s, k).row, Advance(d, s, k).column, None)
    ensures k < Reach(d, s) && OnBoard(Advance(d, s, k))
    ensures Next(d, Advance(d, s, k)) == Advance(d, s, k + 1)
    ensures GoalSteps(d, s, Advance(d, s, k)) == k
    ensures RunSteps(g, d, s, playerPawn, k + 1) ==
      if At(RunSteps(g, d, s, playerPawn, k), Advance(d, s, k)) == playerPawn
      then FlipToward(RunSteps(g, d, s, playerPawn, k), d, s, Advance(d, s, k), playerPawn)
      else RunSteps(g, d, s, playerPawn, k)
  {
    VerifyAlong(d, s, k);
    WalkOnBoard(d, s, k);
    AdvanceNext(d, s, k);
    ReachesAdvance(d, s, k);
    VerifyBefore(d, s, Advance(d, s, k), 0);
  }

  /** Reading one more cell extends the capture along the line by that cell. */
  lemma RunStepsNext(g: Grid, d: Direction, s: Coord, playerPawn: Cell, k: int)
    requires Walkable(d, s) && 0 < k <= Reach(d, s) && playerPawn != NoPawn
    requires |Line(g, d, s)| == Reach(d, s)
    requires RunSteps(g, d, s, playerPawn, k - 1) == Overlay(g, d, s, ReverseLine(Line(g, d, s)[..k - 1], playerPawn))
    ensures RunSteps(g, d, s, playerPawn, k) == Overlay(g, d, s, ReverseLine(Line(g, d, s)[..k], playerPawn))
  {
    var j := k - 1;
    VerifyAlong(d, s, j);
    ReverseStep(g, d, s, playerPawn, j);
    FlipTowardOverlay(g, d, s, ReverseLine(Line(g, d, s)[..j], playerPawn), playerPawn);
    assert j + 1 == k;
  }

  /** After k cells the outer walk has captured along the first k cells of the
      line, as if the line ended there. */
  lemma {:induction false} RunStepsOverlay(g: Grid, d: Direction, s: Coord, playerPawn: Cell, k: int)
    requires Walkable(d, s) && 0 <= k <= Reach(d, s) && playerPawn != NoPawn
    ensures |Line(g, d, s)| == Reach(d, s)
    ensures RunSteps(g, d, s, playerPawn, k) == Overlay(g, d, s, ReverseLine(Line(g, d, s)[..k], playerPawn))
    decreases k
  {
    LineLength(g, d, s);
    if k == 0 {
      assert Line(g, d, s)[..0] == [];
      OverlayNothing(g, d, s);
    } else {
      RunStepsOverlay(g, d, s, playerPawn, k - 1);
      RunStepsNext(g, d, s, playerPawn, k);
    }
  }

  /** The outer walk, read to the end of the ray, leaves the board
      `ReverseSpec` describes. */
  lemma RunStepsSpec(g: Grid, d: Direction, s: Coord, playerPawn: Cell)
    requires Walkable(d, s) && playerPawn != NoPawn
    ensures RunSteps(g, d, s, playerPawn, Reach(d, s)) == ReverseSpec(g, d, s, playerPawn)
  {
    RunStepsOverlay(g, d, s, playerPawn, Reach(d, s));
    assert Line(g, d, s)[..Reach(d, s)] == Line(g, d, s);
  }

  /** Where the edge guard fails, the outer walk has read the whole ray. */
  lemma RunDone(g: Grid, d: Direction, s: Coord, playerPawn: Cell, k: int)
    requires Walkable(d, s) && playerPawn != NoPawn && 0 <= k <= Reach(d, s)
    requires !Verify(d, Advance(d, s, k).row, Advance(d, s, k).column, None)
    ensures RunSteps(g, d, s, playerPawn, k) == ReverseSpec(g, d, s, playerPawn)
  {
    VerifyAlong(d, s, k);
    RunStepsSpec(g, d, s, playerPawn);
  }

  /** Several capture walks run one after the other on the same board; each
      task is a direction and a start cell. */
  function Capture(h: Grid, playerPawn: Cell, tasks: seq<(Direction, Coord)>): Grid
    requires forall i :: 0 <= i < |tasks| ==> Walkable(tasks[i].0, tasks[i].1)
    decreases |tasks|
  {
    if tasks == [] then h
    else ReverseSpec(Capture(h, playerPawn, tasks[..|tasks| - 1]), tasks[|tasks| - 1].0, tasks[|tasks| - 1].1, playerPawn)
  }

  /** Running one more walk after a sequence of walks. */
  lemma CaptureSnoc(h: Grid, playerPawn: Cell, tasks: seq<(Direction, Coord)>, task: (Direction, Coord))
    requires forall i :: 0 <= i < |tasks| ==> Walkable(tasks[i].0, tasks[i].1)
    requires Walkable(task.0, task.1)
    ensures forall i :: 0 <= i < |tasks + [task]| ==> Walkable((tasks + [task])[i].0, (tasks + [task])[i].1)
    ensures Capture(h, playerPawn, tasks + [task]) == ReverseSpec(Capture(h, playerPawn, tasks), task.0, task.1, playerPawn)
  {
    assert (tasks + [task])[..|tasks|] == tasks;
  }

  /** Whether a cell is turned depends only on the ray beyond the start. */
  lemma TurnedBySameRay(h: Grid, h2: Grid, d: Direction, s: Coord, playerPawn: Cell, c: Coord)
    requires OnBoard(s) && OnBoard(c) && playerPawn != NoPawn
    requires At(h, s) == playerPawn && At(h2, s) == playerPawn
    requires forall k :: 1 <= k && OnBoard(Advance(d, s, k)) ==> At(h2, Advance(d, s, k)) == At(h, Advance(d, s, k))
    ensures TurnedBy(h2, d, s, playerPawn, c) == TurnedBy(h, d, s, playerPawn, c)
  {
    if Reaches(d, s, c) && StepsTo(d, s, c) == 0 {
      ReachesNext(d, s, c);
    }
  }

  /** Capture walks from a cell holding the mover's pawn leave that pawn, and
      every cell on none of their rays, as they were. */
  lemma {:induction false} CaptureUntouched(h: Grid, s: Coord, playerPawn: Cell, tasks: seq<(Direction, Coord)>, x: Coord)
    requires OnBoard(s) && At(h, s) == playerPawn && playerPawn != NoPawn && OnBoard(x)
    requires forall i :: 0 <= i < |tasks| ==> tasks[i].1 == s
    requires x == s || forall i :: 0 <= i < |tasks| ==> !Reaches(tasks[i].0, s, x)
    ensures At(Capture(h, playerPawn, tasks), x) == At(h, x)
    decreases |tasks|
  {
    if tasks != [] {
      var n := |tasks| - 1;
      CaptureUntouched(h, s, playerPawn, tasks[..n], x);
      CaptureUntouched(h, s, playerPawn, tasks[..n], s);
      ReverseSpecAt(Capture(h, playerPawn, tasks[..n]), tasks[n].0, s, playerPawn, x);
    }
  }

  /** Walks from `s` in directions other than `d` leave the cells beyond `s`
      on the ray along `d` as they were. */
  lemma CaptureOffRay(h: Grid, s: Coord, playerPawn: Cell, tasks: seq<(Direction, Coord)>, d: Direction, k: int)
    requires OnBoard(s) && At(h, s) == playerPawn && playerPawn != NoPawn
    requires forall i :: 0 <= i < |tasks| ==> tasks[i].1 == s && tasks[i].0 != d
    requires 1 <= k && OnBoard(Advance(d, s, k))
    ensures At(Capture(h, playerPawn, tasks), Advance(d, s, k)) == At(h, Advance(d, s, k))
  {
    var x := Advance(d, s, k);
    ReachesAdvance(d, s, k);
    ReachesNext(d, s, x);
    forall i | 0 <= i < |tasks|
      ensures !Reaches(tasks[i].0, s, x)
    {
      if Reaches(tasks[i].0, s, x) {
        RaysMeetAtStart(tasks[i].0, d, s, x);
      }
    }
    CaptureUntouched(h, s, playerPawn, tasks, x);
  }

  /** Capture walks from one cell holding the mover's pawn, in distinct
      directions, do not interfere: a cell ends up turned exactly when one of
      the walks, run alone on the original board, turns it. */
  lemma {:induction false} CaptureAt(h: Grid, s: Coord, playerPawn: Cell, tasks: seq<(Direction, Coord)>, c: Coord)
    requires OnBoard(s) && At(h, s) == playerPawn && playerPawn != NoPawn && OnBoard(c)
    requires forall i :: 0 <= i < |tasks| ==> tasks[i].1 == s
    requires forall i, j :: 0 <= i < j < |tasks| ==> tasks[i].0 != tasks[j].0
    ensures At(Capture(h, playerPawn, tasks), c) ==
      if exists i :: 0 <= i < |tasks| && TurnedBy(h, tasks[i].0, s, playerPawn, c) then playerPawn else At(h, c)
    decreases |tasks|
  {
    if tasks != [] {
      CaptureAt(h, s, playerPawn, tasks[..|tasks| - 1], c);
      CaptureAtNext(h, s, playerPawn, tasks, c);
    }
  }

  /** One more walk, in a direction none of the earlier walks took, turns
      what it turns when run alone on the original board. */
  lemma CaptureAtNext(h: Grid, s: Coord, playerPawn: Cell, tasks: seq<(Direction, Coord)>, c: Coord)
    requires OnBoard(s) && At(h, s) == playerPawn && playerPawn != NoPawn && OnBoard(c)
    requires forall i :: 0 <= i < |tasks| ==> tasks[i].1 == s
    requires forall i, j :: 0 <= i < j < |tasks| ==> tasks[i].0 != tasks[j].0
    requires tasks != []
    requires var previous := tasks[..|tasks| - 1];
      At(Capture(h, playerPawn, previous), c) ==
      if exists i :: 0 <= i < |previous| && TurnedBy(h, previous[i].0, s, playerPawn, c) then playerPawn else At(h, c)
    ensures At(Capture(h, playerPawn, tasks), c) ==
      if exists i :: 0 <= i < |tasks| && TurnedBy(h, tasks[i].0, s, playerPawn, c) then playerPawn else At(h, c)
  {
    var n := |tasks| - 1;
    var previous := tasks[..n];
    var d := tasks[n].0;
    var before := Capture(h, playerPawn, previous);
    CaptureUntouched(h, s, playerPawn, previous, s);
    ReverseSpecAt(before, d, s, playerPawn, c);
    forall k | 1 <= k && OnBoard(Advance(d, s, k))
      ensures At(before, Advance(d, s, k)) == At(h, Advance(d, s, k))
    {
      CaptureOffRay(h, s, playerPawn, previous, d, k);
    }
    TurnedBySameRay(h, before, d, s, playerPawn, c);
    assert forall i :: 0 <= i < n ==> previous[i] == tasks[i];
  }

  /** Capture walks from one cell holding the mover's pawn, one in each of the
      eight directions, in any order: a cell ends up turned exactly when the
      walk in some direction, run alone, turns it. */
  lemma CaptureAllDirections(h: Grid, s: Coord, playerPawn: Cell, tasks: seq<(Direction, Coord)>, c: Coord)
    requires OnBoard(s) && At(h, s) == playerPawn && playerPawn != NoPawn && OnBoard(c)
    requires forall i :: 0 <= i < |tasks| ==> tasks[i].1 == s
    requires forall i, j :: 0 <= i < j < |tasks| ==> tasks[i].0 != tasks[j].0
    requires forall d :: (d, s) in tasks
    ensures At(Capture(h, playerPawn, tasks), c) ==
      if exists d :: TurnedBy(h, d, s, playerPawn, c) then playerPawn else At(h, c)
  {
    CaptureAt(h, s, playerPawn, tasks, c);
    if exists d :: TurnedBy(h, d, s, playerPawn, c) {
      var d :| TurnedBy(h, d, s, playerPawn, c);
      assert (d, s) in tasks;
      var i :| 0 <= i < |tasks| && tasks[i] == (d, s);
      assert TurnedBy(h, tasks[i].0, s, playerPawn, c);
    }
  }

  /** A sequence of capture walks keeps the number of empty cells, only moves
      pawns from the rival to the mover, and never takes any from the mover. */
  lemma {:induction false} CaptureCounts(h: Grid, playerPawn: Cell, tasks: seq<(Direction, Coord)>)
    requires playerPawn != NoPawn
    requires forall i :: 0 <= i < |tasks| ==> Walkable(tasks[i].0, tasks[i].1)
    ensures var r := Capture(h, playerPawn, tasks);
      Count(r, NoPawn) == Count(h, NoPawn) &&
      Count(r, playerPawn) + Count(r, RivalOf(playerPawn)) == Count(h, playerPawn) + Count(h, RivalOf(playerPawn)) &&
      Count(r, playerPawn) >= Count(h, playerPawn)
    decreases |tasks|
  {
    if tasks != [] {
      var n := |tasks| - 1;
      CaptureCounts(h, playerPawn, tasks[..n]);
      ReverseCounts(Capture(h, playerPawn, tasks[..n]), tasks[n].0, tasks[n].1, playerPawn);
    }
  }

  /** The capture task for one direction from one start cell. */
  class ReversePawn {
    const board: Board
    const direction: Direction
    const start: Coord
    const playerPawn: Cell
    const rivalPawn: Cell

    predicate Valid() {
      board.Valid() && playerPawn != NoPawn && rivalPawn == RivalOf(playerPawn)
    }

    constructor (board: Board, direction: Direction, start: Coord, currentPlayer: int)
      requires board.Valid()
      ensures Valid()
      ensures this.board == board && this.direction == direction && this.start == start
      ensures playerPawn == GetPawnID(currentPlayer) && rivalPawn == RivalOf(playerPawn)
    {
      this.board := board;
      this.direction := direction;
      this.start := start;
      var pawn := GetPawnID(currentPlayer);
      this.playerPawn := pawn;
      this.rivalPawn := if pawn == BlackPawn then WhitePawn else BlackPawn;
    }

    /** The capture walk, in place on the board. */
    method Run()
      requires Valid() && Walkable(direction, start)
      modifies board.cells
      ensures board.cells[..] == ReverseSpec(old(board.cells[..]), direction, start, playerPawn)
    {
      ghost var g: Grid := board.cells[..];
      ghost var k := 0;
      AdvanceNext(direction, start, 0);
      var rowCursor, columnCursor := start.row, start.column;
      while Verify(direction, rowCursor, columnCursor, None)
        invariant 0 <= k <= Reach(direction, start)
        invariant Coord(rowCursor, columnCursor) == Advance(direction, start, k)
        invariant board.cells[..] == RunSteps(g, direction, start, playerPawn, k)
        decreases Reach(direction, start) - k
      {
        Visit(rowCursor, columnCursor, g, k);
        AdvanceNext(direction, start, k);
        rowCursor, columnCursor := UpdateRow(direction, rowCursor), UpdateColumn(direction, columnCursor);
        k := k + 1;
      }
      RunDone(g, direction, start, playerPawn, k);
    }

    /** One cell of the outer walk, the k-th: if the cursor holds the mover's
        pawn, turn the rival pawns from the start up to the cursor. */
    method Visit(rowCursor: int, columnCursor: int, ghost g: Grid, ghost k: int)
      requires Valid() && Walkable(direction, start) && 0 <= k
      requires Verify(direction, rowCursor, columnCursor, None)
      requires Coord(rowCursor, columnCursor) == Advance(direction, start, k)
      requires board.cells[..] == RunSteps(g, direction, start, playerPawn, k)
      modifies board.cells
      ensures k < Reach(direction, start)
      ensures board.cells[..] == RunSteps(g, direction, start, playerPawn, k + 1)
    {
      RunCursor(g, direction, start, playerPawn, k);
      var pawnID := board.GetCase(rowCursor, columnCursor);
      if pawnID == playerPawn {
        CoordinateRoundTrip(rowCursor, columnCursor);
        var target := Coordinate(ColumnLetter(columnCursor), RowDigit(rowCursor));
        ReverseBefore(target);
      }
    }

    /** The reversion loop of the walk: turn the rival pawns from the start up
        to, not including, the target. */
    method ReverseBefore(target: Coord)
      requires Valid() && Walkable(direction, start) && GoalSteps(direction, start, target) <= Reach(direction, start)
      modifies board.cells
      ensures board.cells[..] == FlipToward(old(board.cells[..]), direction, start, target, playerPawn)
    {
      ghost var h: Grid := board.cells[..];
      ghost var n := GoalSteps(direction, start, target);
      AdvanceNext(direction, start, 0);
      var rowReverse, columnReverse := start.row, start.column;
      ghost var m := 0;
      while Verify(direction, rowReverse, columnReverse, Some(target))
        invariant 0 <= m <= n
        invariant Coord(rowReverse, columnReverse) == Advance(direction, start, m)
        invariant board.cells[..] == FlipSteps(h, direction, start, playerPawn, m)
        decreases n - m
      {
        FlipCursor(h, direction, start, target, playerPawn, m);
        TurnIfRival(board, rowReverse, columnReverse, playerPawn, rivalPawn);
        rowReverse, columnReverse := UpdateRow(direction, rowReverse), UpdateColumn(direction, columnReverse);
        m := m + 1;
      }
      FlipDone(h, direction, start, target, playerPawn, m);
    }
  }
}
