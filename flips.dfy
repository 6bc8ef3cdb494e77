/**
 * `make_move` works on the live board one direction at a time: the run
 * bracketed in an earlier direction is already turned over when the next
 * direction is scanned. This module states that order on board values and
 * proves that it ends in the same board as `Rules.Play`, which turns over
 * every bracketed run of the original board at once.
 */
module Flips {
  import opened Board
  import opened Rules

  /** Cell (i, j) lies on the ray from (row, col) in direction (dr, dc), fewer than `k` steps away. */
  predicate Within(row: int, col: int, dr: int, dc: int, k: int, i: int, j: int) {
    OnRay(i - row, j - col) && Sign(i - row) == dr && Sign(j - col) == dc && Distance(i - row, j - col) < k
  }

  /**
   * One direction of `make_move`, on the board `g` it sees, at cell (i, j):
   * when (dr, dc) brackets a run in `g`, the cells of the run turn to `p`;
   * every other cell keeps its stone.
   */
  function FlipCell(g: Grid, row: int, col: int, p: int, dr: int, dc: int, i: int, j: int): int
    requires WellFormed(g) && InBounds(i, j)
  {
    if Brackets(g, row, col, p, dr, dc) && Within(row, col, dr, dc, RunFrom(g, row, col, dr, dc, Opponent(p), 1) + 1, i, j) then p
    else g[i][j]
  }

  /** The first cell of a ray is one step away, and each step along the ray reaches one more cell. */
  lemma WithinStep(row: int, col: int, dr: int, dc: int, k: nat, i: int, j: int)
    requires IsDirection(dr, dc) && k >= 1
    ensures !Within(row, col, dr, dc, 1, i, j)
    ensures !Within(row, col, dr, dc, k, row + Offset(k, dr), col + Offset(k, dc))
    ensures Within(row, col, dr, dc, k + 1, i, j) <==>
      Within(row, col, dr, dc, k, i, j) || (i == row + Offset(k, dr) && j == col + Offset(k, dc))
  {
    RayGeometry(row, col, dr, dc, k);
    if OnRay(i - row, j - col) {
      DisplacementRay(i - row, j - col);
    }
  }

  /** The position in the scanning order of the ray through (i, j); 8 for a cell on no ray. */
  function RayRank(row: int, col: int, i: int, j: int): (u: int)
    ensures 0 <= u <= 8
  {
    if OnRay(i - row, j - col) then DirRank(Sign(i - row), Sign(j - col)) else 8
  }

  /** Cell (i, j) once the first `t` directions are processed: turned over when its ray comes before `t`. */
  function Swept(b: Grid, row: int, col: int, p: int, t: int, i: int, j: int): int
    requires WellFormed(b) && InBounds(i, j)
  {
    if (i == row && j == col) || (Flipped(b, row, col, p, i, j) && RayRank(row, col, i, j) < t) then p
    else b[i][j]
  }

  /** `g` is the board part-way through `make_move`: the stone placed and the first `t` directions processed. */
  ghost predicate SweptTo(g: Grid, b: Grid, row: int, col: int, p: int, t: int)
    requires WellFormed(g) && WellFormed(b)
  {
    forall i, j {:trigger Swept(b, row, col, p, t, i, j)} :: InBounds(i, j) ==> g[i][j] == Swept(b, row, col, p, t, i, j)
  }

  /** Processing direction `t`, that is (dr, dc), turns over exactly the cells of its bracketed run. */
  lemma SweptStep(b: Grid, row: int, col: int, p: int, t: int, dr: int, dc: int, i: int, j: int)
    requires WellFormed(b) && InBounds(i, j) && IsDirection(dr, dc) && DirRank(dr, dc) == t
    ensures Swept(b, row, col, p, t + 1, i, j) ==
      if Brackets(b, row, col, p, dr, dc) && Within(row, col, dr, dc, RunFrom(b, row, col, dr, dc, Opponent(p), 1) + 1, i, j) then p
      else Swept(b, row, col, p, t, i, j)
  {
    if Sign(i - row) == dr && Sign(j - col) == dc && OnRay(i - row, j - col) {
      SweptOnRay(b, row, col, p, t, dr, dc, i, j);
    } else {
      SweptOffRay(b, row, col, p, t, dr, dc, i, j);
    }
  }

  /** A cell off ray `t` is left alone by direction `t`. */
  lemma SweptOffRay(b: Grid, row: int, col: int, p: int, t: int, dr: int, dc: int, i: int, j: int)
    requires WellFormed(b) && InBounds(i, j) && IsDirection(dr, dc) && DirRank(dr, dc) == t
    requires !(Sign(i - row) == dr && Sign(j - col) == dc && OnRay(i - row, j - col))
    ensures Swept(b, row, col, p, t + 1, i, j) == Swept(b, row, col, p, t, i, j)
  {
    if OnRay(i - row, j - col) {
      DisplacementRay(i - row, j - col);
      assert Direction(DirRank(Sign(i - row), Sign(j - col))) != Direction(DirRank(dr, dc));
    }
  }

  /** A cell on ray `t` itself is turned over by direction `t` exactly when it lies within the bracketed run. */
  lemma SweptOnRay(b: Grid, row: int, col: int, p: int, t: int, dr: int, dc: int, i: int, j: int)
    requires WellFormed(b) && InBounds(i, j) && IsDirection(dr, dc) && DirRank(dr, dc) == t
    requires OnRay(i - row, j - col) && Sign(i - row) == dr && Sign(j - col) == dc
    ensures Swept(b, row, col, p, t + 1, i, j) ==
      if Brackets(b, row, col, p, dr, dc) && Distance(i - row, j - col) <= RunFrom(b, row, col, dr, dc, Opponent(p), 1) then p
      else b[i][j]
    ensures Swept(b, row, col, p, t, i, j) == b[i][j]
  {
    assert RayRank(row, col, i, j) == t;
    assert Flipped(b, row, col, p, i, j) <==>
      Brackets(b, row, col, p, dr, dc) && Distance(i - row, j - col) <= RunFrom(b, row, col, dr, dc, Opponent(p), 1);
  }

  /** Direction `t`, that is (dr, dc), has not touched its own ray before it is processed. */
  lemma RayUntouched(b: Grid, row: int, col: int, p: int, t: int, dr: int, dc: int, d: nat)
    requires WellFormed(b) && IsDirection(dr, dc) && DirRank(dr, dc) == t && d >= 1
    requires InBounds(row + Offset(d, dr), col + Offset(d, dc))
    ensures Swept(b, row, col, p, t, row + Offset(d, dr), col + Offset(d, dc)) == b[row + Offset(d, dr)][col + Offset(d, dc)]
  {
    RayGeometry(row, col, dr, dc, d);
  }

  /** Boards that agree along a run and on the cell past it bracket alike. */
  lemma BracketsAgree(g: Grid, b: Grid, row: int, col: int, p: int, dr: int, dc: int, n: nat)
    requires WellFormed(g) && WellFormed(b)
    requires RunFrom(g, row, col, dr, dc, Opponent(p), 1) == n && RunFrom(b, row, col, dr, dc, Opponent(p), 1) == n
    requires InBounds(row + Offset(n + 1, dr), col + Offset(n + 1, dc)) ==>
      g[row + Offset(n + 1, dr)][col + Offset(n + 1, dc)] == b[row + Offset(n + 1, dr)][col + Offset(n + 1, dc)]
    ensures Brackets(g, row, col, p, dr, dc) == Brackets(b, row, col, p, dr, dc)
  {
    BracketsOfRun(g, row, col, p, dr, dc, n);
    BracketsOfRun(b, row, col, p, dr, dc, n);
    assert HoldsAt(g, row, col, dr, dc, p, n + 1) == HoldsAt(b, row, col, dr, dc, p, n + 1);
  }

  /** Boards that agree on cell `k` of a ray and on its run from `k + 1` have the same run from `k`. */
  lemma RunAgree(g: Grid, b: Grid, row: int, col: int, dr: int, dc: int, q: int, k: nat)
    requires WellFormed(g) && WellFormed(b)
    requires RunFrom(g, row, col, dr, dc, q, k + 1) == RunFrom(b, row, col, dr, dc, q, k + 1)
    requires InBounds(row + Offset(k, dr), col + Offset(k, dc)) ==>
      g[row + Offset(k, dr)][col + Offset(k, dc)] == b[row + Offset(k, dr)][col + Offset(k, dc)]
    ensures RunFrom(g, row, col, dr, dc, q, k) == RunFrom(b, row, col, dr, dc, q, k)
  {
  }

  /** Part-way through, the cells of ray `t` still hold their original stones. */
  lemma CellUntouched(g: Grid, b: Grid, row: int, col: int, p: int, t: int, dr: int, dc: int, d: nat)
    requires WellFormed(g) && WellFormed(b) && SweptTo(g, b, row, col, p, t)
    requires IsDirection(dr, dc) && DirRank(dr, dc) == t && d >= 1
    ensures InBounds(row + Offset(d, dr), col + Offset(d, dc)) ==>
      g[row + Offset(d, dr)][col + Offset(d, dc)] == b[row + Offset(d, dr)][col + Offset(d, dc)]
  {
    var r, c := row + Offset(d, dr), col + Offset(d, dc);
    if InBounds(r, c) {
      RayUntouched(b, row, col, p, t, dr, dc, d);
      assert g[r][c] == Swept(b, row, col, p, t, r, c);
    }
  }

  /** Before direction `t` is processed, its runs are those of the original board. */
  lemma {:induction false} SweptRun(g: Grid, b: Grid, row: int, col: int, p: int, t: int, dr: int, dc: int, q: int, k: nat)
    requires WellFormed(g) && WellFormed(b) && SweptTo(g, b, row, col, p, t)
    requires IsDirection(dr, dc) && DirRank(dr, dc) == t && k >= 1
    ensures RunFrom(g, row, col, dr, dc, q, k) == RunFrom(b, row, col, dr, dc, q, k)
    decreases Size + 1 - k
  {
    if k <= Size {
      SweptRun(g, b, row, col, p, t, dr, dc, q, k + 1);
      CellUntouched(g, b, row, col, p, t, dr, dc, k);
      RunAgree(g, b, row, col, dr, dc, q, k);
    }
  }

  /** Before direction `t` is processed, it brackets what it brackets on the original board. */
  lemma SweptBrackets(g: Grid, b: Grid, row: int, col: int, p: int, t: int, dr: int, dc: int)
    requires WellFormed(g) && WellFormed(b) && SweptTo(g, b, row, col, p, t)
    requires IsDirection(dr, dc) && DirRank(dr, dc) == t
    ensures RunFrom(g, row, col, dr, dc, Opponent(p), 1) == RunFrom(b, row, col, dr, dc, Opponent(p), 1)
    ensures Brackets(g, row, col, p, dr, dc) == Brackets(b, row, col, p, dr, dc)
  {
    var n := RunFrom(b, row, col, dr, dc, Opponent(p), 1);
    SweptRun(g, b, row, col, p, t, dr, dc, Opponent(p), 1);
    CellUntouched(g, b, row, col, p, t, dr, dc, n + 1);
    BracketsAgree(g, b, row, col, p, dr, dc, n);
  }

  /** Processing direction `t` on the board left by the earlier directions gives the board after `t + 1` of them. */
  lemma FlipStep(g: Grid, b: Grid, row: int, col: int, p: int, t: int, dr: int, dc: int, i: int, j: int)
    requires WellFormed(g) && WellFormed(b) && InBounds(i, j)
    requires IsDirection(dr, dc) && DirRank(dr, dc) == t
    requires RunFrom(g, row, col, dr, dc, Opponent(p), 1) == RunFrom(b, row, col, dr, dc, Opponent(p), 1)
    requires Brackets(g, row, col, p, dr, dc) == Brackets(b, row, col, p, dr, dc)
    requires g[i][j] == Swept(b, row, col, p, t, i, j)
    ensures FlipCell(g, row, col, p, dr, dc, i, j) == Swept(b, row, col, p, t + 1, i, j)
  {
    SweptStep(b, row, col, p, t, dr, dc, i, j);
  }

  /** Before any direction is processed, only the origin has changed. */
  lemma SweptStart(b: Grid, row: int, col: int, p: int, i: int, j: int)
    requires WellFormed(b) && InBounds(i, j)
    ensures Swept(b, row, col, p, 0, i, j) == if i == row && j == col then p else b[i][j]
  {
  }

  /** Once all eight directions are processed, every cell is as `Play` describes it. */
  lemma SweptEnd(b: Grid, row: int, col: int, p: int, i: int, j: int)
    requires WellFormed(b) && InBounds(i, j)
    ensures Swept(b, row, col, p, 8, i, j) == Play(b, row, col, p)[i][j]
  {
    PlayAt(b, row, col, p, i, j);
    if Flipped(b, row, col, p, i, j) {
      DisplacementRay(i - row, j - col);
    }
  }
}
