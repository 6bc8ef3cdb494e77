/**
 * The engine as the game runs it: the board is a mutable 8×8 array, and
 * `is_valid_move`, `make_move`, `is_game_over` and the scan for legal moves
 * are loops over it. Each method is proved against the board-value
 * definitions of the `Rules` module.
 */
module Engine {
  import opened Board
  import opened Rules
  import opened Flips
  import opened Scan

  /** `initialize_board`: a fresh board holding the start position. */
  method InitializeBoard() returns (a: array2<int>)
    ensures fresh(a) && Is8x8(a)
    ensures Snapshot(a) == InitialBoard()
  {
    a := new int[Size, Size]((i, j) => 0);
    a[3, 3], a[4, 4] := 1, 1;
    a[3, 4], a[4, 3] := 2, 2;
    GridExt(Snapshot(a), InitialBoard());
  }

  /** `[row.copy() for row in board]`: a fresh board with the same cells. */
  method CopyBoard(a: array2<int>) returns (c: array2<int>)
    requires Is8x8(a)
    ensures fresh(c) && Is8x8(c)
    ensures Snapshot(c) == Snapshot(a)
  {
    c := new int[Size, Size]((i, j) requires 0 <= i < Size && 0 <= j < Size reads a => a[i, j]);
    GridExt(Snapshot(c), Snapshot(a));
  }

  /** The array holds the board value `g`. */
  ghost predicate Mirrors(a: array2<int>, g: Grid)
    reads a
  {
    Is8x8(a) && WellFormed(g) && forall i, j {:trigger a[i, j]} :: InBounds(i, j) ==> a[i, j] == g[i][j]
  }

  /** The inner `while` of the per-direction test: step over the cells holding `q`. */
  method WalkOver(a: array2<int>, ghost g: Grid, r0: int, c0: int, dr: int, dc: int, q: int) returns (r: int, c: int)
    requires Mirrors(a, g) && IsDirection(dr, dc)
    ensures (r, c) == Skip(g, r0, c0, dr, dc, q)
  {
    r, c := r0, c0;
    while 0 <= r < Size && 0 <= c < Size && a[r, c] == q
      invariant Skip(g, r, c, dr, dc, q) == Skip(g, r0, c0, dr, dc, q)
      decreases Room(r, c, dr, dc)
    {
      r, c := r + dr, c + dc;
    }
  }

  /**
   * The per-direction test shared by `is_valid_move` and `make_move`: step
   * onto the adjacent cell; if it holds an opponent stone, walk past the
   * run of opponent stones and report whether the cell reached holds a
   * stone of `player`.
   */
  method BracketsAt(a: array2<int>, ghost g: Grid, row: int, col: int, player: int, dr: int, dc: int) returns (closes: bool)
    requires Mirrors(a, g) && InBounds(row, col) && IsDirection(dr, dc) && IsPlayer(player)
    ensures closes == Brackets(g, row, col, player, dr, dc)
  {
    BracketsBySkip(g, row, col, player, dr, dc);
    var r, c := row + dr, col + dc;
    closes := false;
    if 0 <= r < Size && 0 <= c < Size && a[r, c] == Opponent(player) {
      r, c := WalkOver(a, g, r, c, dr, dc, Opponent(player));
      closes := 0 <= r < Size && 0 <= c < Size && a[r, c] == player;
    }
  }

  /** `is_valid_move`: the cell is empty and one of the eight directions brackets a run. */
  method IsValidMove(a: array2<int>, row: int, col: int, player: int) returns (valid: bool)
    requires Is8x8(a) && InBounds(row, col) && IsPlayer(player)
    ensures valid == Legal(Snapshot(a), row, col, player)
    ensures a[row, col] != 0 ==> !valid
  {
    if a[row, col] != 0 {
      return false;
    }
    ghost var g := Snapshot(a);
    var t := 0;
    while t < 8
      invariant 0 <= t <= 8
      invariant forall u :: 0 <= u < t ==> !Brackets(g, row, col, player, Direction(u).0, Direction(u).1)
    {
      var (dr, dc) := Direction(t);
      var closes := BracketsAt(a, g, row, col, player, dr, dc);
      if closes {
        return true;
      }
      t := t + 1;
    }
    return false;
  }

  /**
   * The flipping loop of `make_move` for one direction: from the adjacent
   * cell, turn each opponent stone to `player` until the run ends.
   */
  method TurnRun(a: array2<int>, ghost g: Grid, row: int, col: int, player: int, dr: int, dc: int)
    requires Mirrors(a, g) && IsDirection(dr, dc)
    modifies a
    ensures Mirrors(a, TurnAll(g, row + dr, col + dc, dr, dc, player))
  {
    var r, c := row + dr, col + dc;
    ghost var t := g;
    while 0 <= r < Size && 0 <= c < Size && a[r, c] == Opponent(player)
      invariant Mirrors(a, t) && TurnAll(t, r, c, dr, dc, player) == TurnAll(g, row + dr, col + dc, dr, dc, player)
      decreases Room(r, c, dr, dc)
    {
      a[r, c] := player;
      t := t[r := t[r][c := player]];
      r, c := r + dr, c + dc;
    }
  }

  /**
   * One direction of `make_move` on the live board: when (dr, dc) brackets
   * a run, walk the run again turning each stone to `player`. The array
   * ends as `FlipCell` describes the board `g` it held.
   */
  method FlipDirection(a: array2<int>, ghost g: Grid, row: int, col: int, player: int, dr: int, dc: int)
    requires Mirrors(a, g) && InBounds(row, col) && IsPlayer(player) && IsDirection(dr, dc)
    modifies a
    ensures forall i, j :: InBounds(i, j) ==> a[i, j] == FlipCell(g, row, col, player, dr, dc, i, j)
  {
    var closes := BracketsAt(a, g, row, col, player, dr, dc);
    if closes {
      TurnRun(a, g, row, col, player, dr, dc);
      forall i, j | InBounds(i, j)
        ensures a[i, j] == FlipCell(g, row, col, player, dr, dc, i, j)
      {
        TurnAllCell(g, row + dr, col + dc, dr, dc, player, i, j);
        FlipCellByRun(g, row, col, player, dr, dc, i, j);
      }
    }
  }

  /**
   * `make_move`: when the move is legal, place the stone and process the
   * eight directions in order, each on the board the previous ones left;
   * the result is the board `Play` describes. An illegal move leaves the
   * board as it was and returns false.
   */
  method MakeMove(a: array2<int>, row: int, col: int, player: int) returns (ok: bool)
    requires Is8x8(a) && InBounds(row, col) && IsPlayer(player)
    modifies a
    ensures ok == Legal(old(Snapshot(a)), row, col, player)
    ensures Snapshot(a) == if ok then Play(old(Snapshot(a)), row, col, player) else old(Snapshot(a))
  {
    ok := IsValidMove(a, row, col, player);
    if ok {
      ghost var b := Snapshot(a);
      a[row, col] := player;
      forall i, j | InBounds(i, j)
        ensures a[i, j] == Swept(b, row, col, player, 0, i, j)
      {
        SweptStart(b, row, col, player, i, j);
      }
      var t := 0;
      while t < 8
        invariant 0 <= t <= 8
        invariant forall i, j :: InBounds(i, j) ==> a[i, j] == Swept(b, row, col, player, t, i, j)
      {
        var (dr, dc) := Direction(t);
        DirRankDirection(t);
        ghost var g := Snapshot(a);
        assert SweptTo(g, b, row, col, player, t);
        SweptRun(g, b, row, col, player, t, dr, dc, Opponent(player), 1);
        SweptBrackets(g, b, row, col, player, t, dr, dc);
        FlipDirection(a, g, row, col, player, dr, dc);
        forall i, j | InBounds(i, j)
          ensures a[i, j] == Swept(b, row, col, player, t + 1, i, j)
        {
          FlipStep(g, b, row, col, player, t, dr, dc, i, j);
        }
        t := t + 1;
      }
      forall i, j | InBounds(i, j)
        ensures Snapshot(a)[i][j] == Play(b, row, col, player)[i][j]
      {
        SweptEnd(b, row, col, player, i, j);
      }
      GridExt(Snapshot(a), Play(b, row, col, player));
    }
  }

  /**
   * `is_game_over`: scans the board row by row and stops at the first empty
   * cell; on an occupied cell it also asks `is_valid_move` for both
   * players, which is never true there. So the game is over exactly when
   * the board is full.
   */
  method IsGameOver(a: array2<int>) returns (over: bool)
    requires Is8x8(a)
    ensures over <==> Full(Snapshot(a))
  {
    over := true;
    var row := 0;
    while row < Size && over
      invariant 0 <= row <= Size
      invariant over ==> forall i, j :: 0 <= i < row && 0 <= j < Size ==> a[i, j] != 0
      invariant !over ==> exists i, j :: InBounds(i, j) && a[i, j] == 0
    {
      var col := 0;
      while col < Size && over
        invariant 0 <= col <= Size
        invariant over ==> forall i, j :: ((0 <= i < row && 0 <= j < Size) || (i == row && 0 <= j < col)) ==> a[i, j] != 0
        invariant !over ==> exists i, j :: InBounds(i, j) && a[i, j] == 0
      {
        if a[row, col] == 0 {
          over := false;
        } else {
          var player := 1;
          while player <= 2 && over
            invariant 1 <= player <= 3 && over
          {
            var valid := IsValidMove(a, row, col, player);
            over := !valid;
            player := player + 1;
          }
        }
        col := col + 1;
      }
      row := row + 1;
    }
  }

  /** The moves of `SimpleAI.make_move` and of `minimax`: every legal cell for `player`, row by row. */
  method ValidMoveList(a: array2<int>, player: int) returns (moves: seq<Move>)
    requires Is8x8(a) && IsPlayer(player)
    ensures moves == ValidMoves(Snapshot(a), player)
  {
    ghost var b := Snapshot(a);
    moves := [];
    var row := 0;
    while row < Size
      invariant 0 <= row <= Size
      invariant moves == Select(LegalMask(b, player), Size * row)
    {
      var col := 0;
      while col < Size
        invariant 0 <= col <= Size
        invariant moves == Select(LegalMask(b, player), Size * row + col)
      {
        SelectNext(b, player, row, col);
        var valid := IsValidMove(a, row, col, player);
        if valid {
          moves := moves + [(row, col)];
        }
        col := col + 1;
      }
      row := row + 1;
    }
  }
}
