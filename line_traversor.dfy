/** The direction walker shared by the legality and capture tasks: the eight
    grid directions, their loop guard `Verify` (against the board edge, or
    strictly before a goal) and their cursor updates. The per-direction
    iterator singletons become one function per operation, matched on the
    direction; the match is exhaustive, so the factory's "unknown direction"
    error has no counterpart. */
module LineTraversor {
  import opened Wrappers
  import opened Othello

  /** The closed set of directions, in the enum's declaration order. */
  datatype Direction = NorthWest | North | NorthEast | West | East | SouthWest | South | SouthEast

  const AllDirections: seq<Direction> :=
    [NorthWest, North, NorthEast, West, East, SouthWest, South, SouthEast]

  function UpdateRow(d: Direction, previous: int): int {
    match d
    case North | NorthEast | NorthWest => previous - 1
    case South | SouthEast | SouthWest => previous + 1
    case East | West => previous
  }

  function UpdateColumn(d: Direction, previous: int): int {
    match d
    case East | NorthEast | SouthEast => previous + 1
    case West | NorthWest | SouthWest => previous - 1
    case North | South => previous
  }

  /** The loop guard. Without a goal it bounds-checks only the coordinates that
      move in direction `d`; with a goal it holds only strictly before the goal. */
  function Verify(d: Direction, row: int, column: int, goal: Option<Coord>): bool {
    match d
    case North =>
      if goal.None? then row >= 0 else row > goal.value.row
    case NorthEast =>
      if goal.None? then row >= 0 && column < Width
      else row > goal.value.row && column < goal.value.column
    case East =>
      if goal.None? then column < Width else column < goal.value.column
    case SouthEast =>
      if goal.None? then row < Height && column < Width
      else row < goal.value.row && column < goal.value.column
    case South =>
      if goal.None? then row < Height else row < goal.value.row
    case SouthWest =>
      if goal.None? then row < Height && column >= 0
      else row < goal.value.row && column > goal.value.column
    case West =>
      if goal.None? then column >= 0 else column > goal.value.column
    case NorthWest =>
      if goal.None? then row >= 0 && column >= 0
      else row > goal.value.row && column > goal.value.column
  }

  function Next(d: Direction, c: Coord): Coord {
    Coord(UpdateRow(d, c.row), UpdateColumn(d, c.column))
  }

  /** The unit step of each direction, as (row delta, column delta). */
  function Step(d: Direction): (delta: (int, int))
    ensures -1 <= delta.0 <= 1 && -1 <= delta.1 <= 1 && delta != (0, 0)
    ensures forall c :: Next(d, c) == Coord(c.row + delta.0, c.column + delta.1)
  {
    match d
    case North => (-1, 0)
    case NorthEast => (-1, 1)
    case East => (0, 1)
    case SouthEast => (1, 1)
    case South => (1, 0)
    case SouthWest => (1, -1)
    case West => (0, -1)
    case NorthWest => (-1, -1)
  }

  /** Eight distinct directions have eight distinct unit steps. */
  lemma StepsDistinct(d1: Direction, d2: Direction)
    requires d1 != d2
    ensures Step(d1) != Step(d2)
  {
  }

  lemma AllDirectionsComplete(d: Direction)
    ensures d in AllDirections
    ensures |AllDirections| == 8
  {
  }

  /** No direction is declared twice. */
  lemma AllDirectionsDistinct()
    ensures forall a, b :: 0 <= a < b < |AllDirections| ==> AllDirections[a] != AllDirections[b]
  {
  }

  function Opposite(d: Direction): Direction {
    match d
    case North => South
    case NorthEast => SouthWest
    case East => West
    case SouthEast => NorthWest
    case South => North
    case SouthWest => NorthEast
    case West => East
    case NorthWest => SouthEast
  }

  /** The cell `n` steps from `c` in direction `d`. */
  function Advance(d: Direction, c: Coord, n: int): Coord {
    match d
    case North => Coord(c.row - n, c.column)
    case NorthEast => Coord(c.row - n, c.column + n)
    case East => Coord(c.row, c.column + n)
    case SouthEast => Coord(c.row + n, c.column + n)
    case South => Coord(c.row + n, c.column)
    case SouthWest => Coord(c.row + n, c.column - n)
    case West => Coord(c.row, c.column - n)
    case NorthWest => Coord(c.row - n, c.column - n)
  }

  lemma AdvanceNext(d: Direction, c: Coord, n: int)
    ensures Advance(d, c, 0) == c
    ensures Advance(d, Next(d, c), n) == Advance(d, c, n + 1)
    ensures Next(d, Advance(d, c, n)) == Advance(d, c, n + 1)
    ensures Next(Opposite(d), Next(d, c)) == c
  {
  }

  /** How many steps along `d` lead from `from` to `to` (meaningful when
      `Reaches(d, from, to)`). */
  function StepsTo(d: Direction, from: Coord, to: Coord): int {
    match d
    case North | NorthEast | NorthWest => from.row - to.row
    case South | SouthEast | SouthWest => to.row - from.row
    case East => to.column - from.column
    case West => from.column - to.column
  }

  /** `to` lies on the ray from `from` in direction `d` (`from` included). */
  predicate Reaches(d: Direction, from: Coord, to: Coord) {
    StepsTo(d, from, to) >= 0 && Advance(d, from, StepsTo(d, from, to)) == to
  }

  lemma ReachesAdvance(d: Direction, from: Coord, n: int)
    requires n >= 0
    ensures Reaches(d, from, Advance(d, from, n)) && StepsTo(d, from, Advance(d, from, n)) == n
  {
  }

  /** The ray from the next cell is the ray from `s` without `s` itself. */
  lemma ReachesNext(d: Direction, s: Coord, c: Coord)
    ensures Reaches(d, Next(d, s), c) <==> Reaches(d, s, c) && StepsTo(d, s, c) > 0
    ensures StepsTo(d, Next(d, s), c) == StepsTo(d, s, c) - 1
    ensures Reaches(d, s, c) && StepsTo(d, s, c) == 0 ==> c == s
  {
  }

  /** Rays from one cell in two different directions share only that cell. */
  lemma RaysMeetAtStart(d1: Direction, d2: Direction, s: Coord, c: Coord)
    requires d1 != d2 && Reaches(d1, s, c) && Reaches(d2, s, c)
    ensures c == s
  {
  }

  /** A walk may start on a board cell, or one step past the board in direction
      `d` from a board cell (the referee starts its walks at the neighbour). */
  predicate Walkable(d: Direction, c: Coord) {
    OnBoard(c) || OnBoard(Next(Opposite(d), c))
  }

  /** The number of cells for which the edge guard holds along `d` from `c`. */
  function Reach(d: Direction, c: Coord): nat {
    match d
    case North => Max0(c.row + 1)
    case NorthEast => Max0(Min(c.row + 1, Width - c.column))
    case East => Max0(Width - c.column)
    case SouthEast => Max0(Min(Height - c.row, Width - c.column))
    case South => Max0(Height - c.row)
    case SouthWest => Max0(Min(Height - c.row, c.column + 1))
    case West => Max0(c.column + 1)
    case NorthWest => Max0(Min(c.row + 1, c.column + 1))
  }

  function Max0(x: int): nat { if x < 0 then 0 else x }
  function Min(x: int, y: int): int { if x < y then x else y }

  /** The edge guard holds exactly for the first Reach(d, c) cells of the walk. */
  lemma VerifyAlong(d: Direction, c: Coord, i: int)
    requires i >= 0
    ensures Verify(d, Advance(d, c, i).row, Advance(d, c, i).column, None) <==> i < Reach(d, c)
  {
  }

  /** With a goal on the ray, the guard holds exactly strictly before the goal:
      the goal cell itself is never visited. */
  lemma VerifyGoal(d: Direction, s: Coord, i: int, k: int)
    ensures Verify(d, Advance(d, s, i).row, Advance(d, s, i).column, Some(Advance(d, s, k))) <==> i < k
  {
  }

  /** The number of cells a walk from `s` toward the goal `e` visits: the
      guard compares each moving coordinate with the goal's. */
  function GoalSteps(d: Direction, s: Coord, e: Coord): nat {
    match d
    case North => Max0(s.row - e.row)
    case NorthEast => Max0(Min(s.row - e.row, e.column - s.column))
    case East => Max0(e.column - s.column)
    case SouthEast => Max0(Min(e.row - s.row, e.column - s.column))
    case South => Max0(e.row - s.row)
    case SouthWest => Max0(Min(e.row - s.row, s.column - e.column))
    case West => Max0(s.column - e.column)
    case NorthWest => Max0(Min(s.row - e.row, s.column - e.column))
  }

  /** The goal guard holds exactly for the first GoalSteps(d, s, e) cells; for a
      goal k >= 0 steps along the ray that is k cells. */
  lemma VerifyBefore(d: Direction, s: Coord, e: Coord, i: int)
    requires i >= 0
    ensures Verify(d, Advance(d, s, i).row, Advance(d, s, i).column, Some(e)) <==> i < GoalSteps(d, s, e)
    ensures Reaches(d, s, e) ==> GoalSteps(d, s, e) == StepsTo(d, s, e)
  {
  }

  /** A walk from a walkable start visits only board cells and ends within 8
      steps; conversely every board cell of the ray is visited. */
  lemma WalkOnBoard(d: Direction, c: Coord, i: int)
    requires Walkable(d, c) && i >= 0
    ensures Reach(d, c) <= 8
    ensures i < Reach(d, c) <==> OnBoard(Advance(d, c, i))
  {
  }

  /** The cells a null-goal walk from `s` visits, in order. */
  function Line(g: Grid, d: Direction, s: Coord): (line: seq<Cell>)
    requires Walkable(d, s)
    decreases Reach(d, s)
  {
    if Verify(d, s.row, s.column, None) then
      WalkOnBoard(d, s, 0);
      AdvanceNext(d, s, 0);
      VerifyAlong(d, s, 0);
      VerifyAlong(d, Next(d, s), 0);
      [At(g, s)] + Line(g, d, Next(d, s))
    else []
  }

  /** A walk whose edge guard fails at once visits nothing. */
  lemma LineEnd(g: Grid, d: Direction, s: Coord)
    requires Walkable(d, s) && Reach(d, s) == 0
    ensures Line(g, d, s) == []
  {
    AdvanceNext(d, s, 0);
    VerifyAlong(d, s, 0);
  }

  /** Dropping the first cell of a walk leaves the walk from the next cell,
      one cell shorter. */
  lemma LineTail(g: Grid, d: Direction, s: Coord)
    requires Walkable(d, s) && Reach(d, s) > 0
    ensures OnBoard(s) && Walkable(d, Next(d, s)) && Reach(d, Next(d, s)) == Reach(d, s) - 1
    ensures Line(g, d, s) == [At(g, s)] + Line(g, d, Next(d, s))
  {
    AdvanceNext(d, s, 0);
    VerifyAlong(d, s, 0);
    WalkOnBoard(d, s, 0);
  }

  /** A walk from `s` visits Reach(d, s) cells. */
  lemma {:induction false} LineLength(g: Grid, d: Direction, s: Coord)
    requires Walkable(d, s)
    ensures |Line(g, d, s)| == Reach(d, s)
    decreases Reach(d, s)
  {
    if Reach(d, s) == 0 {
      LineEnd(g, d, s);
    } else {
      LineTail(g, d, s);
      LineLength(g, d, Next(d, s));
    }
  }

  /** The i-th cell a walk visits is the board cell i steps along the ray. */
  lemma {:induction false} LineAt(g: Grid, d: Direction, s: Coord, i: int)
    requires Walkable(d, s) && 0 <= i < Reach(d, s)
    ensures |Line(g, d, s)| == Reach(d, s)
    ensures OnBoard(Advance(d, s, i)) && Line(g, d, s)[i] == At(g, Advance(d, s, i))
    decreases i
  {
    LineTail(g, d, s);
    LineLength(g, d, Next(d, s));
    if i == 0 {
      AdvanceNext(d, s, 0);
    } else {
      LineAt(g, d, Next(d, s), i - 1);
      AdvanceNext(d, s, i - 1);
    }
  }

  /** Dropping the first i cells of a walk is the walk from the i-th cell. */
  lemma {:induction false} LineSuffix(g: Grid, d: Direction, s: Coord, i: int)
    requires Walkable(d, s) && 0 <= i <= Reach(d, s)
    ensures |Line(g, d, s)| == Reach(d, s)
    ensures Walkable(d, Advance(d, s, i))
    ensures Line(g, d, s)[i..] == Line(g, d, Advance(d, s, i))
    decreases i
  {
    LineLength(g, d, s);
    AdvanceNext(d, s, 0);
    if i > 0 {
      LineTail(g, d, s);
      LineSuffix(g, d, Next(d, s), i - 1);
      AdvanceNext(d, s, i - 1);
    }
  }
}
