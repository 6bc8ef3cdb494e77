/**
 * What `AlphaBetaAI` computes, stated on board values: the leaf score
 * `evaluate`, the child boards the search visits, and the value of plain
 * depth-limited minimax over the same move generator. The alpha-beta loops
 * in `Agents` are proved against these definitions.
 */
module Search {
  import opened Board
  import opened Rules

  datatype Option<T> = None | Some(value: T)

  /**
   * Stands in for `math.inf`: every score lies in [-64, 64], so 65 is
   * larger than any score, as infinity is.
   */
  const Infinity: int := 65

  function Max(x: int, y: int): int {
    if x >= y then x else y
  }

  function Min(x: int, y: int): int {
    if x <= y then x else y
  }

  /**
   * `evaluate`: black stones minus white stones, whichever side the agent
   * plays. Its sign is the verdict of `determine_winner`.
   */
  function Evaluate(b: Grid): (v: int)
    requires WellFormed(b)
    ensures -Size * Size <= v <= Size * Size
    ensures v > 0 <==> Winner(b) == "Black"
    ensures v < 0 <==> Winner(b) == "White"
    ensures v == 0 <==> Winner(b) == "Draw"
  {
    CountPair(b, 1, 2);
    Count(b, 1) - Count(b, 2)
  }

  /** The colour whose stones a level of the search places: the agent on maximizing levels, its opponent on minimizing ones. */
  function Mover(maximizing: bool, player: int): int {
    if maximizing then player else Opponent(player)
  }

  /**
   * The board a candidate move leads to: a copy of `b` on which `make_move`
   * was called for `mover`. When the move is not legal for `mover`, the
   * copy stays as it was.
   */
  function Child(b: Grid, m: Move, mover: int): (c: Grid)
    requires WellFormed(b) && InBounds(m.0, m.1)
    ensures WellFormed(c)
    ensures Legal(b, m.0, m.1, mover) ==> b[m.0][m.1] == 0 && c[m.0][m.1] == mover
    ensures !Legal(b, m.0, m.1, mover) ==> c == b
  {
    if Legal(b, m.0, m.1, mover) then Play(b, m.0, m.1, mover) else b
  }

  /** Every move of the list is a cell of the board. */
  predicate OnBoard(ms: seq<Move>) {
    forall x :: 0 <= x < |ms| ==> InBounds(ms[x].0, ms[x].1)
  }

  /**
   * The best of the first `k` scores of `vs`, as the search loop keeps it:
   * the maximum on a maximizing level, the minimum on a minimizing one,
   * starting from the sentinel that stands for -∞ or +∞.
   */
  function BestOf(vs: seq<int>, maximizing: bool, k: nat): int
    requires k <= |vs|
  {
    if k == 0 then (if maximizing then -Infinity else Infinity)
    else if maximizing then Max(BestOf(vs, maximizing, k - 1), vs[k - 1])
    else Min(BestOf(vs, maximizing, k - 1), vs[k - 1])
  }

  /**
   * When every score lies strictly between the sentinels, `BestOf` is the
   * best of the first `k`: none of them beats it, and one of them attains it.
   */
  lemma {:induction false} BestOfIsBest(vs: seq<int>, maximizing: bool, k: nat)
    requires k <= |vs| && forall x :: 0 <= x < |vs| ==> -Infinity < vs[x] < Infinity
    ensures forall x :: 0 <= x < k ==> if maximizing then vs[x] <= BestOf(vs, maximizing, k) else BestOf(vs, maximizing, k) <= vs[x]
    ensures k >= 1 ==> exists x :: 0 <= x < k && vs[x] == BestOf(vs, maximizing, k)
  {
    if k >= 1 {
      BestOfIsBest(vs, maximizing, k - 1);
      if k == 1 {
        assert vs[0] == BestOf(vs, maximizing, 1);
      }
    }
  }

  /**
   * Plain depth-limited minimax as `minimax` defines it without cutoffs:
   * the candidates at every level are the legal moves of `player` (the
   * agent), a leaf is scored by `Evaluate`, and an inner node takes the
   * best of its children's values.
   */
  function MinimaxValue(b: Grid, depth: nat, maximizing: bool, player: int): (v: int)
    requires WellFormed(b)
    ensures -Size * Size <= v <= Size * Size
    decreases depth, 2
  {
    var ms := ValidMoves(b, player);
    if depth == 0 || |ms| == 0 then Evaluate(b)
    else
      var vs := ChildValues(b, depth, maximizing, player, ms);
      BestOfIsBest(vs, maximizing, |ms|);
      BestOf(vs, maximizing, |ms|)
  }

  /** The minimax values of the children that the moves `ms` lead to, in order. */
  function ChildValues(b: Grid, depth: nat, maximizing: bool, player: int, ms: seq<Move>): (vs: seq<int>)
    requires WellFormed(b) && depth >= 1 && OnBoard(ms)
    ensures |vs| == |ms|
    decreases depth, 1
  {
    seq(|ms|, x requires 0 <= x < |ms| => ChildValue(b, depth, maximizing, player, ms[x]))
  }

  /** The minimax value of the child that the move `m` leads to. */
  function ChildValue(b: Grid, depth: nat, maximizing: bool, player: int, m: Move): (v: int)
    requires WellFormed(b) && depth >= 1 && InBounds(m.0, m.1)
    ensures -Size * Size <= v <= Size * Size
    decreases depth, 0
  {
    MinimaxValue(Child(b, m, Mover(maximizing, player)), depth - 1, !maximizing, player)
  }

  /**
   * The minimax value of an inner node is the best value among the
   * children of `player`'s legal moves, each played by the level's mover:
   * no child beats it and one child attains it.
   */
  lemma MinimaxIsBest(b: Grid, depth: nat, maximizing: bool, player: int)
    requires WellFormed(b) && depth >= 1 && ValidMoves(b, player) != []
    ensures forall m :: m in ValidMoves(b, player) ==>
      if maximizing then ChildValue(b, depth, maximizing, player, m) <= MinimaxValue(b, depth, maximizing, player)
      else ChildValue(b, depth, maximizing, player, m) >= MinimaxValue(b, depth, maximizing, player)
    ensures exists m :: m in ValidMoves(b, player) && ChildValue(b, depth, maximizing, player, m) == MinimaxValue(b, depth, maximizing, player)
  {
    var ms := ValidMoves(b, player);
    var vs := ChildValues(b, depth, maximizing, player, ms);
    var best := MinimaxValue(b, depth, maximizing, player);
    assert best == BestOf(vs, maximizing, |ms|);
    BestOfIsBest(vs, maximizing, |ms|);
    forall m | m in ms
      ensures if maximizing then ChildValue(b, depth, maximizing, player, m) <= best
        else ChildValue(b, depth, maximizing, player, m) >= best
    {
      var x :| 0 <= x < |ms| && ms[x] == m;
      assert vs[x] == ChildValue(b, depth, maximizing, player, m);
    }
    var x :| 0 <= x < |ms| && vs[x] == best;
    assert ChildValue(b, depth, maximizing, player, ms[x]) == best;
  }

  /**
   * The fail-soft alpha-beta guarantee of a score `v` searched with the
   * window (alpha, beta) for a node whose true value is `m`: inside the
   * window it is exact; at or below alpha it bounds `m` from above; at or
   * above beta it bounds `m` from below.
   */
  predicate FailSoft(v: int, alpha: int, beta: int, m: int) {
    (alpha < v < beta ==> v == m) && (v <= alpha ==> m <= v) && (v >= beta ==> m >= v)
  }

  /** Searched with the root window (-∞, +∞), a fail-soft score is the exact value. */
  lemma RootWindowExact(v: int, m: int)
    requires -Size * Size <= v <= Size * Size && FailSoft(v, -Infinity, Infinity, m)
    ensures v == m
  {
  }
}
