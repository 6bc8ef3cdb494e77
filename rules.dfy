/**
 * The rules of Othello as the engine applies them, stated on board values:
 * the bracketing test behind a legal move, the cells a move turns over,
 * the row-major list of legal moves, the start position, the end-of-game
 * test and the scoring.
 */
module Rules {
  import opened Board

  /** A unit step (dr, dc) along a row, a column or a diagonal. */
  predicate IsDirection(dr: int, dc: int) {
    -1 <= dr <= 1 && -1 <= dc <= 1 && (dr != 0 || dc != 0)
  }

  /** The eight directions, in the order in which the engine scans them. */
  const Directions: seq<(int, int)> := [(-1, 0), (1, 0), (0, -1), (0, 1), (-1, -1), (-1, 1), (1, -1), (1, 1)]

  function Direction(t: int): (d: (int, int))
    requires 0 <= t < 8
    ensures IsDirection(d.0, d.1)
  {
    assert t == 0 || t == 1 || t == 2 || t == 3 || t == 4 || t == 5 || t == 6 || t == 7;
    Directions[t]
  }

  /** The position of a direction in `Directions`. */
  function DirRank(dr: int, dc: int): (t: int)
    requires IsDirection(dr, dc)
    ensures 0 <= t < 8 && Direction(t) == (dr, dc)
  {
    if dr == -1 then (if dc == 0 then 0 else if dc == -1 then 4 else 5)
    else if dr == 1 then (if dc == 0 then 1 else if dc == -1 then 6 else 7)
    else if dc == -1 then 2 else 3
  }

  /** `DirRank` inverts `Direction`. */
  lemma DirRankDirection(t: int)
    requires 0 <= t < 8
    ensures DirRank(Direction(t).0, Direction(t).1) == t
  {
  }

  function Abs(x: int): nat {
    if x < 0 then -x else x
  }

  /** The other player's colour (`3 - player`). */
  function Opponent(p: int): int {
    3 - p
  }

  function Sign(x: int): int {
    if x > 0 then 1 else if x < 0 then -1 else 0
  }

  /** `k` steps of the unit step `d` along one axis (that is, k * d). */
  function Offset(k: int, d: int): int {
    if d > 0 then k else if d < 0 then -k else 0
  }

  /** One more step along a unit direction. */
  lemma OffsetStep(k: int, d: int)
    requires -1 <= d <= 1
    ensures Offset(k, d) + d == Offset(k + 1, d)
  {
  }

  /** The cell (r, c) is on the board and holds `q`. */
  predicate Holds(b: Grid, r: int, c: int, q: int)
    requires WellFormed(b)
  {
    InBounds(r, c) && b[r][c] == q
  }

  /** The cell `k` steps from (row, col) in direction (dr, dc) is on the board and holds `q`. */
  predicate HoldsAt(b: Grid, row: int, col: int, dr: int, dc: int, q: int, k: int)
    requires WellFormed(b)
  {
    Holds(b, row + Offset(k, dr), col + Offset(k, dc), q)
  }

  /**
   * The number of consecutive cells holding `q` on the ray from (row, col)
   * in direction (dr, dc), starting `k` steps away.
   */
  function RunFrom(b: Grid, row: int, col: int, dr: int, dc: int, q: int, k: nat): nat
    requires WellFormed(b)
    decreases Size + 1 - k
  {
    if k <= Size && HoldsAt(b, row, col, dr, dc, q, k) then 1 + RunFrom(b, row, col, dr, dc, q, k + 1)
    else 0
  }

  /**
   * Direction (dr, dc) brackets a run for `p` played at (row, col): the
   * adjacent cell starts a run of n >= 1 opponent stones, and the cell just
   * past the run, n + 1 steps away, is on the board and holds a stone of `p`.
   */
  predicate Brackets(b: Grid, row: int, col: int, p: int, dr: int, dc: int)
    requires WellFormed(b)
  {
    var n := RunFrom(b, row, col, dr, dc, Opponent(p), 1);
    n >= 1 && HoldsAt(b, row, col, dr, dc, p, n + 1)
  }

  /** `Brackets` for a run of known length `n`. */
  lemma BracketsOfRun(b: Grid, row: int, col: int, p: int, dr: int, dc: int, n: int)
    requires WellFormed(b) && n == RunFrom(b, row, col, dr, dc, Opponent(p), 1)
    ensures Brackets(b, row, col, p, dr, dc) <==> n >= 1 && HoldsAt(b, row, col, dr, dc, p, n + 1)
  {
  }

  /**
   * `is_valid_move`: the target cell is empty and some direction brackets a
   * run. A legal move therefore has an opponent stone next to it.
   */
  predicate Legal(b: Grid, row: int, col: int, p: int)
    requires WellFormed(b) && InBounds(row, col)
    ensures Legal(b, row, col, p) ==> b[row][col] == 0
    ensures Legal(b, row, col, p) ==>
      exists t :: 0 <= t < 8 && HoldsAt(b, row, col, Direction(t).0, Direction(t).1, Opponent(p), 1)
  {
    b[row][col] == 0 &&
    exists t :: 0 <= t < 8 && Brackets(b, row, col, p, Direction(t).0, Direction(t).1)
  }

  /** The displacement (di, dj) runs along a row, a column or a diagonal. */
  predicate OnRay(di: int, dj: int) {
    (di != 0 || dj != 0) && (di == 0 || dj == 0 || Abs(di) == Abs(dj))
  }

  /** The number of steps that the displacement (di, dj) spans along its ray. */
  function Distance(di: int, dj: int): nat {
    if Abs(di) >= Abs(dj) then Abs(di) else Abs(dj)
  }

  /**
   * The cell (i, j) is turned over when `p` plays (row, col): it lies on a
   * ray from (row, col) whose direction brackets a run, within that run.
   */
  predicate Flipped(b: Grid, row: int, col: int, p: int, i: int, j: int)
    requires WellFormed(b)
  {
    var di, dj := i - row, j - col;
    OnRay(di, dj) &&
    Brackets(b, row, col, p, Sign(di), Sign(dj)) &&
    Distance(di, dj) <= RunFrom(b, row, col, Sign(di), Sign(dj), Opponent(p), 1)
  }

  /** The board after a successful `make_move`: the origin and every bracketed cell become `p`. */
  function Play(b: Grid, row: int, col: int, p: int): (r: Grid)
    requires WellFormed(b)
    ensures WellFormed(r)
    ensures InBounds(row, col) ==> r[row][col] == p
  {
    seq(Size, i requires 0 <= i < Size =>
      seq(Size, j requires 0 <= j < Size =>
        if (i == row && j == col) || Flipped(b, row, col, p, i, j) then p else b[i][j]))
  }

  /** The set of turned-over cells, as a mask. */
  function FlipMask(b: Grid, row: int, col: int, p: int): (m: seq<seq<bool>>)
    requires WellFormed(b)
    ensures |m| == Size && forall i :: 0 <= i < Size ==> |m[i]| == Size
  {
    seq(Size, i requires 0 <= i < Size => seq(Size, j requires 0 <= j < Size => Flipped(b, row, col, p, i, j)))
  }

  /** How many stones a move turns over. */
  function FlipCount(b: Grid, row: int, col: int, p: int): nat
    requires WellFormed(b)
  {
    GridMarks(FlipMask(b, row, col, p))
  }

  /** Every cell of a run holds the run's colour. */
  lemma {:induction false} RunCell(b: Grid, row: int, col: int, dr: int, dc: int, q: int, k: nat, x: nat)
    requires WellFormed(b)
    requires k <= x < k + RunFrom(b, row, col, dr, dc, q, k)
    ensures HoldsAt(b, row, col, dr, dc, q, x)
    decreases x - k
  {
    if x > k {
      RunCell(b, row, col, dr, dc, q, k + 1, x);
    }
  }

  /** A ray from a cell of the board leaves the board within eight steps. */
  lemma LeavesBoard(row: int, col: int, dr: int, dc: int, k: nat)
    requires InBounds(row, col) && IsDirection(dr, dc) && k >= Size
    ensures !InBounds(row + Offset(k, dr), col + Offset(k, dc))
  {
  }

  /** One step of a run: the run from `k` is one longer than the run from `k + 1` when cell `k` holds `q`, and empty otherwise. */
  lemma RunNext(b: Grid, row: int, col: int, dr: int, dc: int, q: int, k: nat)
    requires WellFormed(b) && InBounds(row, col) && IsDirection(dr, dc)
    ensures RunFrom(b, row, col, dr, dc, q, k) ==
      if HoldsAt(b, row, col, dr, dc, q, k) then 1 + RunFrom(b, row, col, dr, dc, q, k + 1) else 0
  {
    if k > Size {
      LeavesBoard(row, col, dr, dc, k);
    }
  }

  /** A run whose cells k..m-1 hold `q` and whose cell m does not has length m - k from k. */
  lemma {:induction false} RunExact(b: Grid, row: int, col: int, dr: int, dc: int, q: int, k: nat, m: nat)
    requires WellFormed(b) && InBounds(row, col) && IsDirection(dr, dc) && k <= m
    requires forall x: nat :: k <= x < m ==> HoldsAt(b, row, col, dr, dc, q, x)
    requires !HoldsAt(b, row, col, dr, dc, q, m)
    ensures RunFrom(b, row, col, dr, dc, q, k) == m - k
    decreases m - k
  {
    if k < m {
      assert HoldsAt(b, row, col, dr, dc, q, k);
      if k > Size {
        LeavesBoard(row, col, dr, dc, k);
      }
      RunExact(b, row, col, dr, dc, q, k + 1, m);
    }
  }

  /**
   * Some n >= 1 opponent stones lie at distances 1..n from (row, col) in
   * direction (dr, dc), and the cell at distance n + 1 is on the board and
   * holds a stone of `p`.
   */
  predicate BracketedRun(b: Grid, row: int, col: int, p: int, dr: int, dc: int, n: int)
    requires WellFormed(b)
  {
    n >= 1 &&
    (forall k: nat :: 1 <= k <= n ==> HoldsAt(b, row, col, dr, dc, Opponent(p), k)) &&
    HoldsAt(b, row, col, dr, dc, p, n + 1)
  }

  /** The bracketing test holds exactly when some run of opponent stones is closed by a stone of `p`. */
  lemma BracketsIffRun(b: Grid, row: int, col: int, p: int, dr: int, dc: int)
    requires WellFormed(b) && InBounds(row, col) && IsDirection(dr, dc) && IsPlayer(p)
    ensures Brackets(b, row, col, p, dr, dc) <==> exists n :: BracketedRun(b, row, col, p, dr, dc, n)
  {
    if Brackets(b, row, col, p, dr, dc) {
      BracketsRun(b, row, col, p, dr, dc);
    }
    if exists m :: BracketedRun(b, row, col, p, dr, dc, m) {
      var m :| BracketedRun(b, row, col, p, dr, dc, m);
      BracketedRunCloses(b, row, col, p, dr, dc, m);
    }
  }

  lemma BracketsRun(b: Grid, row: int, col: int, p: int, dr: int, dc: int)
    requires WellFormed(b) && Brackets(b, row, col, p, dr, dc)
    ensures BracketedRun(b, row, col, p, dr, dc, RunFrom(b, row, col, dr, dc, Opponent(p), 1))
  {
    var n := RunFrom(b, row, col, dr, dc, Opponent(p), 1);
    forall k | 1 <= k <= n
      ensures HoldsAt(b, row, col, dr, dc, Opponent(p), k)
    {
      RunCell(b, row, col, dr, dc, Opponent(p), 1, k);
    }
  }

  lemma BracketedRunCloses(b: Grid, row: int, col: int, p: int, dr: int, dc: int, m: int)
    requires WellFormed(b) && InBounds(row, col) && IsDirection(dr, dc) && IsPlayer(p)
    requires BracketedRun(b, row, col, p, dr, dc, m)
    ensures RunFrom(b, row, col, dr, dc, Opponent(p), 1) == m
    ensures Brackets(b, row, col, p, dr, dc)
  {
    BracketedRunLength(b, row, col, p, dr, dc, m);
  }

  /** A bracketed run of length `m` is exactly the maximal opponent run. */
  lemma BracketedRunLength(b: Grid, row: int, col: int, p: int, dr: int, dc: int, m: int)
    requires WellFormed(b) && InBounds(row, col) && IsDirection(dr, dc) && IsPlayer(p)
    requires BracketedRun(b, row, col, p, dr, dc, m)
    ensures RunFrom(b, row, col, dr, dc, Opponent(p), 1) == m
  {
    assert !HoldsAt(b, row, col, dr, dc, Opponent(p), m + 1);
    RunExact(b, row, col, dr, dc, Opponent(p), 1, m + 1);
  }

  /** The cell `k` steps along direction (dr, dc) is seen from the origin in that direction, at distance `k`. */
  lemma RayGeometry(row: int, col: int, dr: int, dc: int, k: nat)
    requires IsDirection(dr, dc) && k >= 1
    ensures var di, dj := Offset(k, dr), Offset(k, dc);
      OnRay(di, dj) && Sign(di) == dr && Sign(dj) == dc && Distance(di, dj) == k
  {
  }

  /** A displacement along a ray is `Distance` steps in its own direction. */
  lemma DisplacementRay(di: int, dj: int)
    requires OnRay(di, dj)
    ensures IsDirection(Sign(di), Sign(dj)) && Distance(di, dj) >= 1
    ensures di == Offset(Distance(di, dj), Sign(di)) && dj == Offset(Distance(di, dj), Sign(dj))
  {
  }

  /** The cell `k` steps from the origin, within the opponent run, holds an opponent stone. */
  lemma OpponentRunCell(b: Grid, row: int, col: int, p: int, dr: int, dc: int, k: nat)
    requires WellFormed(b) && IsDirection(dr, dc) && 1 <= k <= RunFrom(b, row, col, dr, dc, Opponent(p), 1)
    ensures HoldsAt(b, row, col, dr, dc, Opponent(p), k)
  {
    RunCell(b, row, col, dr, dc, Opponent(p), 1, k);
  }

  /** A turned-over cell is an opponent stone on the board, other than the origin. */
  lemma FlippedCell(b: Grid, row: int, col: int, p: int, i: int, j: int)
    requires WellFormed(b) && Flipped(b, row, col, p, i, j)
    ensures InBounds(i, j) && b[i][j] == Opponent(p) && (i, j) != (row, col)
  {
    var dr, dc, k := Sign(i - row), Sign(j - col), Distance(i - row, j - col);
    assert Holds(b, i, j, Opponent(p)) by {
      DisplacementRay(i - row, j - col);
      OpponentRunCell(b, row, col, p, dr, dc, k);
    }
  }

  lemma PlayAt(b: Grid, row: int, col: int, p: int, i: int, j: int)
    requires WellFormed(b) && InBounds(i, j)
    ensures Play(b, row, col, p)[i][j] == if (i == row && j == col) || Flipped(b, row, col, p, i, j) then p else b[i][j]
  {
  }

  /** The cell `k` steps along a direction is turned over exactly when it lies within a bracketed run. */
  lemma FlipRay(b: Grid, row: int, col: int, p: int, dr: int, dc: int, k: int)
    requires WellFormed(b) && IsDirection(dr, dc) && k >= 1
    ensures Flipped(b, row, col, p, row + Offset(k, dr), col + Offset(k, dc)) <==>
      Brackets(b, row, col, p, dr, dc) && k <= RunFrom(b, row, col, dr, dc, Opponent(p), 1)
  {
    RayGeometry(row, col, dr, dc, k);
  }

  /** Along direction `t`, the cell `k` steps away is turned over exactly when it lies within a bracketed run. */
  lemma PlayRay(b: Grid, row: int, col: int, p: int, t: int, k: int)
    requires WellFormed(b) && 0 <= t < 8 && k >= 1
    requires InBounds(row + Offset(k, Direction(t).0), col + Offset(k, Direction(t).1))
    ensures var (dr, dc) := Direction(t);
      Play(b, row, col, p)[row + Offset(k, dr)][col + Offset(k, dc)] ==
        if Brackets(b, row, col, p, dr, dc) && k <= RunFrom(b, row, col, dr, dc, Opponent(p), 1) then p
        else b[row + Offset(k, dr)][col + Offset(k, dc)]
  {
    var (dr, dc) := Direction(t);
    RayGeometry(row, col, dr, dc, k);
    PlayAt(b, row, col, p, row + Offset(k, dr), col + Offset(k, dc));
    FlipRay(b, row, col, p, dr, dc, k);
  }

  /** Apart from the origin, only opponent stones change, and they become `p`. */
  lemma PlayOnlyTurnsOpponents(b: Grid, row: int, col: int, p: int, i: int, j: int)
    requires WellFormed(b) && InBounds(i, j) && (i, j) != (row, col)
    requires Play(b, row, col, p)[i][j] != b[i][j]
    ensures b[i][j] == Opponent(p) && Play(b, row, col, p)[i][j] == p
  {
    FlippedCell(b, row, col, p, i, j);
  }

  /**
   * `make_move` on a legal move: the origin becomes `p`; in each of the eight
   * directions, the cell `k` steps away becomes `p` exactly when that
   * direction brackets a run and the cell lies within the run; and no cell
   * other than the origin changes unless it held an opponent stone; a cell
   * on none of the eight rays through the origin does not change at all.
   */
  lemma PlayFlipsExactly(b: Grid, row: int, col: int, p: int)
    requires WellFormed(b) && InBounds(row, col) && IsPlayer(p)
    ensures Play(b, row, col, p)[row][col] == p
    ensures forall t, k :: 0 <= t < 8 && 1 <= k && InBounds(row + Offset(k, Direction(t).0), col + Offset(k, Direction(t).1)) ==>
      Play(b, row, col, p)[row + Offset(k, Direction(t).0)][col + Offset(k, Direction(t).1)] ==
        if Brackets(b, row, col, p, Direction(t).0, Direction(t).1) &&
           k <= RunFrom(b, row, col, Direction(t).0, Direction(t).1, Opponent(p), 1) then p
        else b[row + Offset(k, Direction(t).0)][col + Offset(k, Direction(t).1)]
    ensures forall i, j :: InBounds(i, j) && (i, j) != (row, col) && Play(b, row, col, p)[i][j] != b[i][j] ==>
      b[i][j] == Opponent(p) && Play(b, row, col, p)[i][j] == p
    ensures forall i, j :: InBounds(i, j) && (i, j) != (row, col) && !OnRay(i - row, j - col) ==>
      Play(b, row, col, p)[i][j] == b[i][j]
  {
    forall t, k | 0 <= t < 8 && 1 <= k && InBounds(row + Offset(k, Direction(t).0), col + Offset(k, Direction(t).1)) {
      PlayRay(b, row, col, p, t, k);
    }
    forall i, j | InBounds(i, j) && (i, j) != (row, col) && Play(b, row, col, p)[i][j] != b[i][j] {
      PlayOnlyTurnsOpponents(b, row, col, p, i, j);
    }
  }

  /** The board with only the origin filled in by `p`. */
  function Placed(b: Grid, row: int, col: int, p: int): (r: Grid)
    requires WellFormed(b)
    ensures WellFormed(r)
  {
    seq(Size, i requires 0 <= i < Size =>
      seq(Size, j requires 0 <= j < Size => if i == row && j == col then p else b[i][j]))
  }

  /** Filling the empty origin: one empty cell fewer, one more stone of `p`. */
  lemma PlacedCounts(b: Grid, row: int, col: int, p: int)
    requires WellFormed(b) && InBounds(row, col) && IsPlayer(p) && b[row][col] == 0
    ensures Count(Placed(b, row, col, p), 0) + 1 == Count(b, 0)
    ensures Count(Placed(b, row, col, p), p) == Count(b, p) + 1
    ensures Count(Placed(b, row, col, p), Opponent(p)) == Count(b, Opponent(p))
  {
    var origin := seq(Size, i requires 0 <= i < Size =>
      seq(Size, j requires 0 <= j < Size => i == row && j == col));
    GridMarksSingle(origin, row, col);
    CountRecolor(b, Placed(b, row, col, p), origin, 0, p, Opponent(p));
  }

  /** Turning over the bracketed runs moves `FlipCount` stones from the opponent to `p`. */
  lemma FlipCounts(b: Grid, row: int, col: int, p: int)
    requires WellFormed(b) && InBounds(row, col) && IsPlayer(p)
    ensures Count(Play(b, row, col, p), Opponent(p)) + FlipCount(b, row, col, p) == Count(Placed(b, row, col, p), Opponent(p))
    ensures Count(Play(b, row, col, p), p) == Count(Placed(b, row, col, p), p) + FlipCount(b, row, col, p)
    ensures Count(Play(b, row, col, p), 0) == Count(Placed(b, row, col, p), 0)
  {
    var placed := Placed(b, row, col, p);
    var after := Play(b, row, col, p);
    var mask := FlipMask(b, row, col, p);
    forall i, j | 0 <= i < Size && 0 <= j < Size
      ensures if mask[i][j] then placed[i][j] == Opponent(p) && after[i][j] == p else after[i][j] == placed[i][j]
    {
      if mask[i][j] {
        FlippedCell(b, row, col, p, i, j);
      }
    }
    CountRecolor(placed, after, mask, Opponent(p), p, 0);
  }

  /** A legal move turns over at least the stone next to it in a bracketing direction. */
  lemma FlipCountPositive(b: Grid, row: int, col: int, p: int)
    requires WellFormed(b) && InBounds(row, col) && Legal(b, row, col, p)
    ensures FlipCount(b, row, col, p) >= 1
  {
    var t :| 0 <= t < 8 && Brackets(b, row, col, p, Direction(t).0, Direction(t).1);
    var (dr, dc) := Direction(t);
    RayGeometry(row, col, dr, dc, 1);
    assert Flipped(b, row, col, p, row + dr, col + dc);
    GridMarksSome(FlipMask(b, row, col, p), row + dr, col + dc);
  }

  /**
   * Stones are conserved: a legal move fills one empty cell and turns over
   * k >= 1 opponent stones, so the opponent loses k stones and the mover
   * gains k + 1.
   */
  lemma PlayConserves(b: Grid, row: int, col: int, p: int)
    requires WellFormed(b) && InBounds(row, col) && IsPlayer(p) && Legal(b, row, col, p)
    ensures FlipCount(b, row, col, p) >= 1
    ensures Count(Play(b, row, col, p), 0) + 1 == Count(b, 0)
    ensures Count(Play(b, row, col, p), Opponent(p)) + FlipCount(b, row, col, p) == Count(b, Opponent(p))
    ensures Count(Play(b, row, col, p), p) == Count(b, p) + 1 + FlipCount(b, row, col, p)
  {
    PlacedCounts(b, row, col, p);
    FlipCounts(b, row, col, p);
    FlipCountPositive(b, row, col, p);
  }

  /** The position of a cell in row-major order. */
  function Rank(m: Move): int {
    Size * m.0 + m.1
  }

  /** The cell at row-major position `k`. */
  function CellAt(k: int): (m: Move)
    requires 0 <= k < Size * Size
    ensures InBounds(m.0, m.1) && Rank(m) == k
  {
    (k / Size, k % Size)
  }

  /** Which of the 64 cells, in row-major order, are legal moves for `p`. */
  function LegalMask(b: Grid, p: int): (m: seq<bool>)
    requires WellFormed(b)
    ensures |m| == Size * Size
  {
    seq(Size * Size, k requires 0 <= k < Size * Size => Legal(b, CellAt(k).0, CellAt(k).1, p))
  }

  /** The cells among the first `k` in row-major order whose bit in `mask` is set, in that order. */
  function Select(mask: seq<bool>, k: int): (ms: seq<Move>)
    requires 0 <= k <= |mask| <= Size * Size
    ensures forall x :: 0 <= x < |ms| ==> InBounds(ms[x].0, ms[x].1) && Rank(ms[x]) < k
  {
    if k == 0 then []
    else Select(mask, k - 1) + (if mask[k - 1] then [CellAt(k - 1)] else [])
  }

  /** The list of legal moves for `p`, scanned row by row (row 0, col 0 first). */
  function ValidMoves(b: Grid, p: int): (ms: seq<Move>)
    requires WellFormed(b)
    ensures forall x :: 0 <= x < |ms| ==> InBounds(ms[x].0, ms[x].1)
  {
    Select(LegalMask(b, p), Size * Size)
  }

  /** A cell on the board is the cell at its own row-major position. */
  lemma CellAtRank(m: Move)
    requires InBounds(m.0, m.1)
    ensures 0 <= Rank(m) < Size * Size && CellAt(Rank(m)) == m
  {
  }

  /** Scanning one more cell, (row, col), appends it to the list exactly when it is a legal move. */
  lemma {:induction false} SelectNext(b: Grid, p: int, row: int, col: int)
    requires WellFormed(b) && InBounds(row, col)
    ensures Select(LegalMask(b, p), Size * row + col + 1) ==
      Select(LegalMask(b, p), Size * row + col) + (if Legal(b, row, col, p) then [(row, col)] else [])
  {
    var mask := LegalMask(b, p);
    var k := Size * row + col;
    assert CellAt(k) == (row, col) && mask[k] == Legal(b, row, col, p) by {
      CellAtRank((row, col));
    }
  }

  lemma {:induction false} SelectSpec(mask: seq<bool>, k: int)
    requires 0 <= k <= |mask| <= Size * Size
    ensures forall m: Move :: m in Select(mask, k) <==> InBounds(m.0, m.1) && Rank(m) < k && mask[Rank(m)]
    ensures forall x, y :: 0 <= x < y < |Select(mask, k)| ==> Rank(Select(mask, k)[x]) < Rank(Select(mask, k)[y])
  {
    if k > 0 {
      SelectSpec(mask, k - 1);
      forall m: Move | InBounds(m.0, m.1) && Rank(m) == k - 1
        ensures m == CellAt(k - 1)
      {
        CellAtRank(m);
      }
    }
  }

  /**
   * The legal-move list holds every legal cell and nothing else, in strictly
   * increasing row-major order (so each cell at most once).
   */
  lemma ValidMovesSpec(b: Grid, p: int)
    requires WellFormed(b)
    ensures forall m: Move :: m in ValidMoves(b, p) <==> InBounds(m.0, m.1) && Legal(b, m.0, m.1, p)
    ensures forall x, y :: 0 <= x < y < |ValidMoves(b, p)| ==> Rank(ValidMoves(b, p)[x]) < Rank(ValidMoves(b, p)[y])
  {
    SelectSpec(LegalMask(b, p), Size * Size);
    forall m: Move | InBounds(m.0, m.1)
      ensures LegalMask(b, p)[Rank(m)] == Legal(b, m.0, m.1, p)
    {
      CellAtRank(m);
    }
  }

  /** `initialize_board`: the four centre stones, black on the main diagonal, all else empty. */
  function InitialBoard(): (b: Grid)
    ensures WellFormed(b)
    ensures forall i, j :: InBounds(i, j) ==>
      b[i][j] == if (i == 3 && j == 3) || (i == 4 && j == 4) then 1
                 else if (i == 3 && j == 4) || (i == 4 && j == 3) then 2
                 else 0
  {
    var empty := seq(Size, _ => seq(Size, _ => 0));
    empty[3 := empty[3][3 := 1][4 := 2]][4 := empty[4][3 := 2][4 := 1]]
  }

  /** No cell of the board is empty, so no cell is a legal move for either side. */
  predicate Full(b: Grid)
    requires WellFormed(b)
    ensures Full(b) ==> forall p, i, j :: InBounds(i, j) ==> !Legal(b, i, j, p)
  {
    forall i, j :: 0 <= i < Size && 0 <= j < Size ==> b[i][j] != 0
  }

  /** When the game is over (the board is full), neither player has a legal move. */
  lemma FullNoMoves(b: Grid, p: int)
    requires WellFormed(b) && Full(b)
    ensures ValidMoves(b, p) == []
  {
    var mask := LegalMask(b, p);
    forall x | 0 <= x < Size * Size
      ensures !mask[x]
    {
      var m := CellAt(x);
    }
    SelectNone(mask, Size * Size);
  }

  /** Selecting from a mask with no bit set gives the empty list. */
  lemma {:induction false} SelectNone(mask: seq<bool>, k: int)
    requires 0 <= k <= |mask| <= Size * Size
    requires forall x :: 0 <= x < k ==> !mask[x]
    ensures Select(mask, k) == []
  {
    if k > 0 {
      SelectNone(mask, k - 1);
    }
  }

  /** `determine_winner`: the side with more stones on the board, or a draw. */
  function Winner(b: Grid): (w: string)
    ensures w == "Black" || w == "White" || w == "Draw"
    ensures w == "Black" <==> Count(b, 1) > Count(b, 2)
    ensures w == "White" <==> Count(b, 2) > Count(b, 1)
    ensures w == "Draw" <==> Count(b, 1) == Count(b, 2)
  {
    var black, white := Count(b, 1), Count(b, 2);
    if black > white then "Black"
    else if white > black then "White"
    else "Draw"
  }
}
