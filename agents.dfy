/**
 * The two agents on the live board. `SimpleAI.make_move` picks some legal
 * move; `AlphaBetaAI` searches three levels deep with alpha-beta cutoffs,
 * each child on a fresh copy of the board. The search never writes to the
 * board it is given, and its scores are proved against the plain minimax
 * value of `Search`.
 */
module Agents {
  import opened Board
  import opened Rules
  import opened Engine
  import opened Search

  /**
   * `SimpleAI.make_move`: no move when `player` has none, otherwise one of
   * the legal moves (the random choice is left open).
   */
  method SimpleMove(a: array2<int>, player: int) returns (move: Option<Move>)
    requires Is8x8(a) && IsPlayer(player)
    ensures move.None? <==> ValidMoves(Snapshot(a), player) == []
    ensures move.Some? ==> move.value in ValidMoves(Snapshot(a), player)
    ensures move.Some? ==> InBounds(move.value.0, move.value.1) && Legal(Snapshot(a), move.value.0, move.value.1, player)
  {
    var moves := ValidMoveList(a, player);
    if |moves| == 0 {
      return None;
    }
    assert moves[0] in moves;
    var m :| m in moves;
    ValidMovesSpec(Snapshot(a), player);
    return Some(m);
  }

  /**
   * One iteration's child of `minimax`: copy the board row by row, call
   * `make_move` on the copy for the level's mover (ignoring whether it
   * succeeded) and search the copy one level shallower with the window
   * (alpha, beta).
   */
  method SearchChild(a: array2<int>, player: int, depth: nat, alpha: int, beta: int, maximizing: bool, m: Move) returns (v: int)
    requires Is8x8(a) && IsPlayer(player) && depth >= 1 && InBounds(m.0, m.1)
    requires -Infinity <= alpha < beta <= Infinity
    ensures -Size * Size <= v <= Size * Size
    ensures FailSoft(v, alpha, beta, ChildValue(Snapshot(a), depth, maximizing, player, m))
    decreases depth, 0
  {
    var copy := CopyBoard(a);
    var ok := MakeMove(copy, m.0, m.1, Mover(maximizing, player));
    var best;
    v, best := Minimax(copy, player, depth - 1, alpha, beta, !maximizing);
  }

  /**
   * `minimax`: at depth 0 or when `player` has no legal move, the board's
   * score and no move; otherwise the loop of the maximizing or the
   * minimizing level over `player`'s legal moves. The score meets the
   * fail-soft guarantee against the plain minimax value, and from the root
   * window the move is the first legal move whose child attains the best
   * value.
   */
  method Minimax(a: array2<int>, player: int, depth: nat, alpha: int, beta: int, maximizing: bool) returns (score: int, move: Option<Move>)
    requires Is8x8(a) && IsPlayer(player)
    requires -Infinity <= alpha < beta <= Infinity
    ensures -Size * Size <= score <= Size * Size
    ensures FailSoft(score, alpha, beta, MinimaxValue(Snapshot(a), depth, maximizing, player))
    ensures move.None? <==> depth == 0 || ValidMoves(Snapshot(a), player) == []
    ensures move.None? ==> score == Evaluate(Snapshot(a))
    ensures move.Some? ==> move.value in ValidMoves(Snapshot(a), player)
    ensures move.Some? && maximizing && alpha == -Infinity && beta == Infinity ==>
      exists i :: 0 <= i < |ValidMoves(Snapshot(a), player)| && move.value == ValidMoves(Snapshot(a), player)[i] &&
        ChildValue(Snapshot(a), depth, maximizing, player, move.value) == score &&
        forall j :: 0 <= j < i ==> ChildValue(Snapshot(a), depth, maximizing, player, ValidMoves(Snapshot(a), player)[j]) < score
    decreases depth, 2
  {
    var moves := ValidMoveList(a, player);
    if depth == 0 || |moves| == 0 {
      return Evaluate(Snapshot(a)), None;
    }
    ghost var b := Snapshot(a);
    ghost var vs := ChildValues(b, depth, maximizing, player, moves);
    assert MinimaxValue(b, depth, maximizing, player) == BestOf(vs, maximizing, |moves|);
    if maximizing {
      score, move := MaxLoop(a, player, depth, alpha, beta, moves, b, vs);
      if alpha == -Infinity && beta == Infinity {
        ghost var i :| 0 <= i < |moves| && move.value == moves[i] && vs[i] == score && forall j :: 0 <= j < i ==> vs[j] < score;
        assert forall j :: 0 <= j < i ==> ChildValue(b, depth, maximizing, player, moves[j]) < score;
      }
    } else {
      score, move := MinLoop(a, player, depth, alpha, beta, moves, b, vs);
    }
  }

  /**
   * One iteration of the maximizing loop, on the numbers alone: the child
   * searched with the window (lo, beta) returned `v` for a true value `m`;
   * `best` is the best true value of the earlier children. The new score
   * keeps the loop's fail-soft bookkeeping, and a cutoff only happens when
   * the score is at least beta and at most the true value.
   */
  lemma MaxStep(alpha: int, beta: int, score: int, lo: int, v: int, m: int, best: int)
    requires lo == Max(alpha, score) && lo < beta && -Infinity <= score
    requires score <= alpha ==> best <= score
    requires score > alpha ==> score == best
    requires -Size * Size <= v <= Size * Size && FailSoft(v, lo, beta, m)
    ensures var s := if v > score then v else score;
      (s <= alpha ==> Max(best, m) <= s) &&
      (s > alpha && Max(lo, s) < beta ==> s == Max(best, m)) &&
      (Max(lo, s) >= beta ==> s >= beta && m >= s)
    ensures beta == Infinity && lo == score ==> (v > score ==> v == m) && (v <= score ==> m <= score)
  {
  }

  /** One iteration of the minimizing loop, the mirror image of `MaxStep`. */
  lemma MinStep(alpha: int, beta: int, score: int, hi: int, v: int, m: int, best: int)
    requires hi == Min(beta, score) && alpha < hi && score <= Infinity
    requires score >= beta ==> best >= score
    requires score < beta ==> score == best
    requires -Size * Size <= v <= Size * Size && FailSoft(v, alpha, hi, m)
    ensures var s := if v < score then v else score;
      (s >= beta ==> Min(best, m) >= s) &&
      (s < beta && alpha < Min(hi, s) ==> s == Min(best, m)) &&
      (Min(hi, s) <= alpha ==> s <= alpha && m <= s)
  {
  }

  /** The loop of a maximizing level: raise alpha as better children appear, stop once beta <= alpha. */
  method MaxLoop(a: array2<int>, player: int, depth: nat, alpha: int, beta: int, moves: seq<Move>, ghost b: Grid, ghost vs: seq<int>) returns (score: int, move: Option<Move>)
    requires Is8x8(a) && IsPlayer(player) && depth >= 1
    requires -Infinity <= alpha < beta <= Infinity
    requires OnBoard(moves) && |moves| >= 1 && b == Snapshot(a) && |vs| == |moves|
    requires forall x :: 0 <= x < |vs| ==> -Infinity < vs[x] < Infinity
    requires forall x {:trigger ChildValue(b, depth, true, player, moves[x])} :: 0 <= x < |moves| ==> vs[x] == ChildValue(b, depth, true, player, moves[x])
    ensures -Size * Size <= score <= Size * Size
    ensures FailSoft(score, alpha, beta, BestOf(vs, true, |moves|))
    ensures move.Some? && move.value in moves
    ensures alpha == -Infinity && beta == Infinity ==>
      exists i :: 0 <= i < |moves| && move.value == moves[i] &&
        vs[i] == score && forall j :: 0 <= j < i ==> vs[j] < score
    decreases depth, 1
  {
    ghost var root := alpha == -Infinity && beta == Infinity;
    ghost var bi := 0;
    ghost var best := -Infinity;
    score, move := -Infinity, None;
    var lo := alpha;
    var i := 0;
    while i < |moves|
      invariant 0 <= i <= |moves| && best == BestOf(vs, true, i)
      invariant lo == Max(alpha, score) && lo < beta
      invariant i == 0 ==> score == -Infinity
      invariant i >= 1 ==> -Size * Size <= score <= Size * Size && 0 <= bi < i && move == Some(moves[bi])
      invariant score <= alpha ==> best <= score
      invariant score > alpha ==> score == best
      invariant root && i >= 1 ==> vs[bi] == score && forall j :: 0 <= j < bi ==> vs[j] < score
      invariant root ==> forall j :: 0 <= j < i ==> vs[j] <= score
    {
      var v := SearchChild(a, player, depth, lo, beta, true, moves[i]);
      MaxStep(alpha, beta, score, lo, v, vs[i], best);
      if v > score {
        score := v;
        move := Some(moves[i]);
        bi := i;
      }
      best := Max(best, vs[i]);
      lo := Max(lo, score);
      if beta <= lo {
        BestOfIsBest(vs, true, |moves|);
        break;
      }
      i := i + 1;
    }
  }

  /** The loop of a minimizing level: lower beta as worse children appear, stop once beta <= alpha. */
  method MinLoop(a: array2<int>, player: int, depth: nat, alpha: int, beta: int, moves: seq<Move>, ghost b: Grid, ghost vs: seq<int>) returns (score: int, move: Option<Move>)
    requires Is8x8(a) && IsPlayer(player) && depth >= 1
    requires -Infinity <= alpha < beta <= Infinity
    requires OnBoard(moves) && |moves| >= 1 && b == Snapshot(a) && |vs| == |moves|
    requires forall x :: 0 <= x < |vs| ==> -Infinity < vs[x] < Infinity
    requires forall x {:trigger ChildValue(b, depth, false, player, moves[x])} :: 0 <= x < |moves| ==> vs[x] == ChildValue(b, depth, false, player, moves[x])
    ensures -Size * Size <= score <= Size * Size
    ensures FailSoft(score, alpha, beta, BestOf(vs, false, |moves|))
    ensures move.Some? && move.value in moves
    decreases depth, 1
  {
    ghost var bi := 0;
    ghost var best := Infinity;
    score, move := Infinity, None;
    var hi := beta;
    var i := 0;
    while i < |moves|
      invariant 0 <= i <= |moves| && best == BestOf(vs, false, i)
      invariant hi == Min(beta, score) && alpha < hi
      invariant i == 0 ==> score == Infinity
      invariant i >= 1 ==> -Size * Size <= score <= Size * Size && 0 <= bi < i && move == Some(moves[bi])
      invariant score >= beta ==> best >= score
      invariant score < beta ==> score == best
    {
      var v := SearchChild(a, player, depth, alpha, hi, false, moves[i]);
      MinStep(alpha, beta, score, hi, v, vs[i], best);
      if v < score {
        score := v;
        move := Some(moves[i]);
        bi := i;
      }
      best := Min(best, vs[i]);
      hi := Min(hi, score);
      if hi <= alpha {
        BestOfIsBest(vs, false, |moves|);
        break;
      }
      i := i + 1;
    }
  }

  /**
   * `AlphaBetaAI.make_move`: search three levels from the root window and
   * return the move found. There is none exactly when `player` has no
   * legal move; otherwise the move is legal, its child attains the plain
   * minimax value of the position, and no legal move before it in the
   * row-major list does.
   */
  method AlphaBetaMove(a: array2<int>, player: int) returns (move: Option<Move>)
    requires Is8x8(a) && IsPlayer(player)
    ensures move.None? <==> ValidMoves(Snapshot(a), player) == []
    ensures move.Some? ==> InBounds(move.value.0, move.value.1) && Legal(Snapshot(a), move.value.0, move.value.1, player)
    ensures move.Some? ==> ChildValue(Snapshot(a), 3, true, player, move.value) == MinimaxValue(Snapshot(a), 3, true, player)
    ensures move.Some? ==>
      exists i :: 0 <= i < |ValidMoves(Snapshot(a), player)| && move.value == ValidMoves(Snapshot(a), player)[i] &&
        forall j :: 0 <= j < i ==> ChildValue(Snapshot(a), 3, true, player, ValidMoves(Snapshot(a), player)[j]) < MinimaxValue(Snapshot(a), 3, true, player)
  {
    var score;
    score, move := Minimax(a, player, 3, -Infinity, Infinity, true);
    if move.Some? {
      RootWindowExact(score, MinimaxValue(Snapshot(a), 3, true, player));
      ValidMovesSpec(Snapshot(a), player);
    }
  }
}
