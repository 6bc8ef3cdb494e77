/**
 * The scanning loops of `is_valid_move` and `make_move` walk a ray cell
 * by cell from a position (r, c). This module describes those walks by
 * position, and connects them to the distance-based description of runs
 * in `Rules` and `Flips`.
 */
module Scan {
  import opened Board
  import opened Rules
  import opened Flips

  /**
   * An upper bound on the steps a walk from (r, c) in direction (dr, dc)
   * can still take on the board (exact for rows and columns, not for
   * diagonals); it is the walks' termination measure.
   */
  function Room(r: int, c: int, dr: int, dc: int): nat {
    if !InBounds(r, c) then 0
    else if dr > 0 then Size - r
    else if dr < 0 then r + 1
    else if dc > 0 then Size - c
    else c + 1
  }

  /**
   * The cell where a walk from (r, c) in direction (dr, dc) that steps
   * over cells holding `q` stops.
   */
  function Skip(b: Grid, r: int, c: int, dr: int, dc: int, q: int): (s: (int, int))
    requires WellFormed(b) && IsDirection(dr, dc)
    ensures !Holds(b, s.0, s.1, q)
    decreases Room(r, c, dr, dc)
  {
    if Holds(b, r, c, q) then Skip(b, r + dr, c + dc, dr, dc, q) else (r, c)
  }

  /** Cell (i, j) is one of the cells holding `q` that a walk from (r, c) steps over. */
  predicate InRun(b: Grid, r: int, c: int, dr: int, dc: int, q: int, i: int, j: int)
    requires WellFormed(b) && IsDirection(dr, dc)
    decreases Room(r, c, dr, dc)
  {
    Holds(b, r, c, q) && ((i == r && j == c) || InRun(b, r + dr, c + dc, dr, dc, q, i, j))
  }

  /**
   * The flipping walk of `make_move`: from (r, c), turn each stone of the
   * opponent of `p` to `p` and step on, until the cell is off the board or
   * holds something else.
   */
  function TurnAll(b: Grid, r: int, c: int, dr: int, dc: int, p: int): (t: Grid)
    requires WellFormed(b) && IsDirection(dr, dc)
    ensures WellFormed(t)
    decreases Room(r, c, dr, dc)
  {
    if Holds(b, r, c, Opponent(p)) then TurnAll(b[r := b[r][c := p]], r + dr, c + dc, dr, dc, p) else b
  }

  /** Changing a cell behind a walk does not change what the walk steps over. */
  lemma {:induction false} InRunSame(b: Grid, x: int, y: int, v: int, r: int, c: int, dr: int, dc: int, q: int, i: int, j: int)
    requires WellFormed(b) && IsDirection(dr, dc) && InBounds(x, y) && Room(r, c, dr, dc) < Room(x, y, dr, dc)
    ensures InRun(b[x := b[x][y := v]], r, c, dr, dc, q, i, j) == InRun(b, r, c, dr, dc, q, i, j)
    decreases Room(r, c, dr, dc)
  {
    if Holds(b, r, c, q) {
      InRunSame(b, x, y, v, r + dr, c + dc, dr, dc, q, i, j);
    }
  }

  /** The flipping walk turns exactly the cells it steps over. */
  lemma {:induction false} TurnAllCell(b: Grid, r: int, c: int, dr: int, dc: int, p: int, i: int, j: int)
    requires WellFormed(b) && IsDirection(dr, dc) && InBounds(i, j)
    ensures TurnAll(b, r, c, dr, dc, p)[i][j] == if InRun(b, r, c, dr, dc, Opponent(p), i, j) then p else b[i][j]
    decreases Room(r, c, dr, dc)
  {
    if Holds(b, r, c, Opponent(p)) {
      var b' := b[r := b[r][c := p]];
      TurnAllCell(b', r + dr, c + dc, dr, dc, p, i, j);
      InRunSame(b, r, c, p, r + dr, c + dc, dr, dc, Opponent(p), i, j);
    }
  }

  /**
   * The cells of the ray from (row, col) at distances k .. m - 1 hold `q`
   * and the cell at distance m does not: the run from `k` ends at `m`.
   */
  predicate RunSpan(b: Grid, row: int, col: int, dr: int, dc: int, q: int, k: int, m: int)
    requires WellFormed(b)
  {
    k <= m &&
    (forall x :: k <= x < m ==> HoldsAt(b, row, col, dr, dc, q, x)) &&
    !HoldsAt(b, row, col, dr, dc, q, m)
  }

  /** The run counted by `RunFrom` from distance `k` ends `RunFrom` cells later. */
  lemma RunSpanOf(b: Grid, row: int, col: int, dr: int, dc: int, q: int, k: nat)
    requires WellFormed(b) && InBounds(row, col) && IsDirection(dr, dc)
    ensures RunSpan(b, row, col, dr, dc, q, k, k + RunFrom(b, row, col, dr, dc, q, k))
  {
    RunEnd(b, row, col, dr, dc, q, k);
    forall x | k <= x < k + RunFrom(b, row, col, dr, dc, q, k)
      ensures HoldsAt(b, row, col, dr, dc, q, x)
    {
      RunCell(b, row, col, dr, dc, q, k, x);
    }
  }

  /** The cell just past a run does not hold the run's colour. */
  lemma {:induction false} RunEnd(b: Grid, row: int, col: int, dr: int, dc: int, q: int, k: nat)
    requires WellFormed(b) && InBounds(row, col) && IsDirection(dr, dc)
    ensures !HoldsAt(b, row, col, dr, dc, q, k + RunFrom(b, row, col, dr, dc, q, k))
    decreases Size + 1 - k
  {
    RunNext(b, row, col, dr, dc, q, k);
    if k > Size {
      LeavesBoard(row, col, dr, dc, k);
    } else if HoldsAt(b, row, col, dr, dc, q, k) {
      RunEnd(b, row, col, dr, dc, q, k + 1);
    }
  }

  /**
   * A walk that starts at (r, c), `k` steps from (row, col), over a run
   * that ends `m` steps from (row, col), stops there.
   */
  lemma {:induction false} SkipFrom(b: Grid, row: int, col: int, dr: int, dc: int, q: int, k: int, m: int, r: int, c: int)
    requires WellFormed(b) && IsDirection(dr, dc) && RunSpan(b, row, col, dr, dc, q, k, m)
    requires r == row + Offset(k, dr) && c == col + Offset(k, dc)
    ensures Skip(b, r, c, dr, dc, q) == (row + Offset(m, dr), col + Offset(m, dc))
    decreases m - k
  {
    if k < m {
      assert HoldsAt(b, row, col, dr, dc, q, k);
      OffsetStep(k, dr);
      OffsetStep(k, dc);
      SkipFrom(b, row, col, dr, dc, q, k + 1, m, r + dr, c + dc);
    }
  }

  /** Cell (i, j) is one of the `n` cells a walk from (r, c) in direction (dr, dc) visits first. */
  predicate OnSteps(r: int, c: int, dr: int, dc: int, n: nat, i: int, j: int)
    decreases n
  {
    n > 0 && ((i == r && j == c) || OnSteps(r + dr, c + dc, dr, dc, n - 1, i, j))
  }

  /** A walk over a run that ends `n` cells later steps over exactly its first `n` cells. */
  lemma {:induction false} InRunSteps(b: Grid, row: int, col: int, dr: int, dc: int, q: int, k: int, m: int, r: int, c: int, i: int, j: int)
    requires WellFormed(b) && IsDirection(dr, dc) && RunSpan(b, row, col, dr, dc, q, k, m)
    requires r == row + Offset(k, dr) && c == col + Offset(k, dc)
    ensures InRun(b, r, c, dr, dc, q, i, j) <==> OnSteps(r, c, dr, dc, m - k, i, j)
    decreases m - k
  {
    if k < m {
      assert HoldsAt(b, row, col, dr, dc, q, k);
      OffsetStep(k, dr);
      OffsetStep(k, dc);
      InRunSteps(b, row, col, dr, dc, q, k + 1, m, r + dr, c + dc, i, j);
    }
  }

  /** The first `n` cells of a walk that starts `k` steps along a ray lie at distances k .. k + n - 1. */
  lemma {:induction false} StepsWithin(row: int, col: int, dr: int, dc: int, k: nat, n: nat, i: int, j: int)
    requires IsDirection(dr, dc) && k >= 1
    ensures OnSteps(row + Offset(k, dr), col + Offset(k, dc), dr, dc, n, i, j) <==>
      Within(row, col, dr, dc, k + n, i, j) && !Within(row, col, dr, dc, k, i, j)
    decreases n
  {
    WithinStep(row, col, dr, dc, k, i, j);
    if n > 0 {
      OffsetStep(k, dr);
      OffsetStep(k, dc);
      StepsWithin(row, col, dr, dc, k + 1, n - 1, i, j);
    }
  }

  /**
   * The cells a walk from (r, c), `k` steps from (row, col), steps over are
   * the cells of the ray at distances k .. m - 1, where `m` is where the
   * run ends.
   */
  lemma InRunFrom(b: Grid, row: int, col: int, dr: int, dc: int, q: int, k: nat, m: int, r: int, c: int, i: int, j: int)
    requires WellFormed(b) && IsDirection(dr, dc) && k >= 1 && RunSpan(b, row, col, dr, dc, q, k, m)
    requires r == row + Offset(k, dr) && c == col + Offset(k, dc)
    ensures InRun(b, r, c, dr, dc, q, i, j) <==> Within(row, col, dr, dc, m, i, j) && !Within(row, col, dr, dc, k, i, j)
  {
    InRunSteps(b, row, col, dr, dc, q, k, m, r, c, i, j);
    StepsWithin(row, col, dr, dc, k, m - k, i, j);
  }

  /** The walk from the adjacent cell: the run is non-empty when that cell holds `q`, and the walk stops just past it. */
  lemma {:induction false} SkipFirst(b: Grid, row: int, col: int, dr: int, dc: int, q: int)
    requires WellFormed(b) && InBounds(row, col) && IsDirection(dr, dc)
    ensures RunFrom(b, row, col, dr, dc, q, 1) >= 1 <==> Holds(b, row + dr, col + dc, q)
    ensures Skip(b, row + dr, col + dc, dr, dc, q).0 == row + Offset(RunFrom(b, row, col, dr, dc, q, 1) + 1, dr)
    ensures Skip(b, row + dr, col + dc, dr, dc, q).1 == col + Offset(RunFrom(b, row, col, dr, dc, q, 1) + 1, dc)
  {
    assert Offset(1, dr) == dr && Offset(1, dc) == dc;
    RunNext(b, row, col, dr, dc, q, 1);
    RunSpanOf(b, row, col, dr, dc, q, 1);
    SkipFrom(b, row, col, dr, dc, q, 1, RunFrom(b, row, col, dr, dc, q, 1) + 1, row + dr, col + dc);
  }

  /**
   * `Brackets`, read the way the scanning loop reads it: the adjacent cell
   * holds an opponent stone, and the walk over the opponent stones stops
   * on a stone of `p`.
   */
  lemma {:induction false} BracketsBySkip(b: Grid, row: int, col: int, p: int, dr: int, dc: int)
    requires WellFormed(b) && InBounds(row, col) && IsDirection(dr, dc)
    ensures Brackets(b, row, col, p, dr, dc) <==>
      Holds(b, row + dr, col + dc, Opponent(p)) &&
      Holds(b, Skip(b, row + dr, col + dc, dr, dc, Opponent(p)).0, Skip(b, row + dr, col + dc, dr, dc, Opponent(p)).1, p)
  {
    SkipFirst(b, row, col, dr, dc, Opponent(p));
    BracketsAtEnd(b, row, col, p, dr, dc, RunFrom(b, row, col, dr, dc, Opponent(p), 1), Skip(b, row + dr, col + dc, dr, dc, Opponent(p)));
  }

  /** `Brackets` once the run length `n` and the cell `s` just past the run are known. */
  lemma BracketsAtEnd(b: Grid, row: int, col: int, p: int, dr: int, dc: int, n: int, s: (int, int))
    requires WellFormed(b) && n == RunFrom(b, row, col, dr, dc, Opponent(p), 1)
    requires s.0 == row + Offset(n + 1, dr) && s.1 == col + Offset(n + 1, dc)
    requires n >= 1 <==> Holds(b, row + dr, col + dc, Opponent(p))
    ensures Brackets(b, row, col, p, dr, dc) <==> Holds(b, row + dr, col + dc, Opponent(p)) && Holds(b, s.0, s.1, p)
  {
    BracketsOfRun(b, row, col, p, dr, dc, n);
  }

  /** The run a walk from the adjacent cell steps over is the run `FlipCell` turns over. */
  lemma {:induction false} FlipCellByRun(b: Grid, row: int, col: int, p: int, dr: int, dc: int, i: int, j: int)
    requires WellFormed(b) && InBounds(row, col) && IsDirection(dr, dc) && InBounds(i, j)
    ensures FlipCell(b, row, col, p, dr, dc, i, j) ==
      if Brackets(b, row, col, p, dr, dc) && InRun(b, row + dr, col + dc, dr, dc, Opponent(p), i, j) then p else b[i][j]
  {
    var n := RunFrom(b, row, col, dr, dc, Opponent(p), 1);
    assert Offset(1, dr) == dr && Offset(1, dc) == dc;
    RunSpanOf(b, row, col, dr, dc, Opponent(p), 1);
    InRunFrom(b, row, col, dr, dc, Opponent(p), 1, n + 1, row + dr, col + dc, i, j);
    WithinStep(row, col, dr, dc, 1, i, j);
  }
}
