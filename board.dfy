/** The board model: an 8×8 grid of cells, 0 empty, 1 black, 2 white. */
module Board {

  /** The size of the board (BOARD_SIZE). */
  const Size: int := 8

  /** A board as a value: a sequence of rows, each a sequence of cells. */
  type Grid = seq<seq<int>>

  /** A row-major coordinate pair (row, col). */
  type Move = (int, int)

  predicate WellFormed(b: Grid) {
    |b| == Size && forall i :: 0 <= i < Size ==> |b[i]| == Size
  }

  predicate InBounds(r: int, c: int) {
    0 <= r < Size && 0 <= c < Size
  }

  predicate IsPlayer(p: int) {
    p == 1 || p == 2
  }

  /** The number of cells of `s` that hold `v` (Python's `row.count(v)`). */
  function CountRow(s: seq<int>, v: int): nat {
    if s == [] then 0 else (if s[0] == v then 1 else 0) + CountRow(s[1..], v)
  }

  /** The number of cells of `b` that hold `v` (`sum(row.count(v) for row in board)`). */
  function Count(b: Grid, v: int): nat {
    if b == [] then 0 else CountRow(b[0], v) + Count(b[1..], v)
  }

  /** The number of marked cells in a row of a mask. */
  function Marks(m: seq<bool>): nat {
    if m == [] then 0 else (if m[0] then 1 else 0) + Marks(m[1..])
  }

  /** The number of marked cells in a mask. */
  function GridMarks(m: seq<seq<bool>>): nat {
    if m == [] then 0 else Marks(m[0]) + GridMarks(m[1..])
  }

  /** Two distinct colours never account for more cells than the row has. */
  lemma {:induction false} CountRowPair(s: seq<int>, x: int, y: int)
    requires x != y
    ensures CountRow(s, x) + CountRow(s, y) <= |s|
  {
    if s != [] {
      CountRowPair(s[1..], x, y);
    }
  }

  /** Two distinct colours never account for more than the 64 cells of a board. */
  lemma {:induction false} CountPair(b: Grid, x: int, y: int)
    requires x != y
    requires forall i :: 0 <= i < |b| ==> |b[i]| == Size
    ensures Count(b, x) + Count(b, y) <= Size * |b|
  {
    if b != [] {
      CountRowPair(b[0], x, y);
      CountPair(b[1..], x, y);
    }
  }

  /**
   * Recolouring the marked cells of a row from `x` to `y`: `y` gains as many
   * cells as `x` loses, and every other colour keeps its count.
   */
  lemma {:induction false} CountRowRecolor(s: seq<int>, s': seq<int>, m: seq<bool>, x: int, y: int, v: int)
    requires x != y && |s| == |s'| == |m|
    requires forall j :: 0 <= j < |s| ==> if m[j] then s[j] == x && s'[j] == y else s'[j] == s[j]
    ensures CountRow(s', x) + Marks(m) == CountRow(s, x)
    ensures CountRow(s', y) == CountRow(s, y) + Marks(m)
    ensures v != x && v != y ==> CountRow(s', v) == CountRow(s, v)
  {
    if s != [] {
      assert forall j :: 0 <= j < |s| - 1 ==> s[1..][j] == s[j + 1] && s'[1..][j] == s'[j + 1] && m[1..][j] == m[j + 1];
      CountRowRecolor(s[1..], s'[1..], m[1..], x, y, v);
    }
  }

  /** `CountRowRecolor`, lifted to whole grids. */
  lemma {:induction false} CountRecolor(b: Grid, b': Grid, m: seq<seq<bool>>, x: int, y: int, v: int)
    requires x != y && |b| == |b'| == |m|
    requires forall i :: 0 <= i < |b| ==> |b[i]| == |b'[i]| == |m[i]|
    requires forall i, j :: 0 <= i < |b| && 0 <= j < |b[i]| ==>
      if m[i][j] then b[i][j] == x && b'[i][j] == y else b'[i][j] == b[i][j]
    ensures Count(b', x) + GridMarks(m) == Count(b, x)
    ensures Count(b', y) == Count(b, y) + GridMarks(m)
    ensures v != x && v != y ==> Count(b', v) == Count(b, v)
  {
    if b != [] {
      CountRowRecolor(b[0], b'[0], m[0], x, y, v);
      assert forall i :: 0 <= i < |b| - 1 ==> b[1..][i] == b[i + 1] && b'[1..][i] == b'[i + 1] && m[1..][i] == m[i + 1];
      CountRecolor(b[1..], b'[1..], m[1..], x, y, v);
    }
  }

  /** A row mask with one marked cell at `k` has exactly one mark. */
  lemma {:induction false} MarksSingle(m: seq<bool>, k: int)
    requires 0 <= k < |m|
    requires forall j :: 0 <= j < |m| ==> m[j] == (j == k)
    ensures Marks(m) == 1
  {
    if k == 0 {
      MarksNone(m[1..]);
    } else {
      MarksSingle(m[1..], k - 1);
    }
  }

  lemma {:induction false} MarksNone(m: seq<bool>)
    requires forall j :: 0 <= j < |m| ==> !m[j]
    ensures Marks(m) == 0
  {
    if m != [] {
      MarksNone(m[1..]);
    }
  }

  /** A row mask with a marked cell has at least one mark. */
  lemma {:induction false} MarksSome(m: seq<bool>, k: int)
    requires 0 <= k < |m| && m[k]
    ensures Marks(m) >= 1
  {
    if k > 0 {
      MarksSome(m[1..], k - 1);
    }
  }

  /** A mask with exactly one marked cell, at (r, c), has exactly one mark. */
  lemma {:induction false} GridMarksSingle(m: seq<seq<bool>>, r: int, c: int)
    requires 0 <= r < |m| && forall i :: 0 <= i < |m| ==> 0 <= c < |m[i]|
    requires forall i, j :: 0 <= i < |m| && 0 <= j < |m[i]| ==> m[i][j] == (i == r && j == c)
    ensures GridMarks(m) == 1
  {
    if r == 0 {
      MarksSingle(m[0], c);
      GridMarksNone(m[1..]);
    } else {
      MarksNone(m[0]);
      GridMarksSingle(m[1..], r - 1, c);
    }
  }

  lemma {:induction false} GridMarksNone(m: seq<seq<bool>>)
    requires forall i, j :: 0 <= i < |m| && 0 <= j < |m[i]| ==> !m[i][j]
    ensures GridMarks(m) == 0
  {
    if m != [] {
      MarksNone(m[0]);
      GridMarksNone(m[1..]);
    }
  }

  /** A mask with a marked cell at (r, c) has at least one mark. */
  lemma {:induction false} GridMarksSome(m: seq<seq<bool>>, r: int, c: int)
    requires 0 <= r < |m| && 0 <= c < |m[r]| && m[r][c]
    ensures GridMarks(m) >= 1
  {
    if r == 0 {
      MarksSome(m[0], c);
    } else {
      GridMarksSome(m[1..], r - 1, c);
    }
  }

  /** Two well-formed boards that agree on every cell are equal. */
  lemma GridExt(x: Grid, y: Grid)
    requires WellFormed(x) && WellFormed(y)
    requires forall i, j :: InBounds(i, j) ==> x[i][j] == y[i][j]
    ensures x == y
  {
    forall i | 0 <= i < Size
      ensures x[i] == y[i]
    {
      assert forall j :: 0 <= j < Size ==> x[i][j] == y[i][j];
    }
  }

  /** The live board is an 8×8 array; this is its value. */
  predicate Is8x8(a: array2<int>) {
    a.Length0 == Size && a.Length1 == Size
  }

  function Snapshot(a: array2<int>): (b: Grid)
    requires Is8x8(a)
    reads a
    ensures WellFormed(b)
    ensures forall i, j :: InBounds(i, j) ==> b[i][j] == a[i, j]
  {
    seq(Size, i requires 0 <= i < Size reads a => seq(Size, j requires 0 <= j < Size reads a => a[i, j]))
  }
}
