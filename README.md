# Othello rules engine and alpha-beta agent, in Dafny

This project models the core of a small Python Othello program. The board
is an 8×8 grid of integers: 0 is empty, 1 is black, 2 is white, and the
opponent of player `p` is `3 - p`. The core has two parts.

- The rules engine:
  - `initialize_board` sets up the start position.
  - `is_valid_move` is the eight-direction bracketing test.
  - `make_move` places a stone and turns over the bracketed runs in place.
  - `is_game_over` is the end-of-game test.
  - `determine_winner` scores the board.
- Two agents:
  - `SimpleAI` picks a random legal move.
  - `AlphaBetaAI` runs a depth-3 minimax with alpha-beta cutoffs. Its leaf
    score is `evaluate`, black stones minus white stones.

`alpha_vs_human.py` repeats `othello.py` line for line. Its lines 23-27 and
51-165 are `othello.py` lines 39-43 and 67-181, moved up by 16 lines. They
differ only in one comment. Every statement below therefore covers both
files. The rules rows cite `othello.py`; the `AlphaBetaAI` rows cite
`alpha_vs_human.py`.

The project has seven modules:

| module | contents |
|---|---|
| `Board` | the grid, stone counting, and the snapshot of a live `array2<int>` as a value |
| `Rules` | the rules on board values: bracketing (`Brackets`, `Legal`), the board after a move (`Play`), the legal-move list in row-major order, the start position, `Full` and `Winner`, and their lemmas (exact flip set, stone conservation, list contents and order) |
| `Flips` | `make_move` takes the eight directions one after another on the board the earlier ones left; this module shows that the result is still `Play` |
| `Scan` | the walks of the scanning `while` loops, described cell by cell from a position, and tied back to the distance-based definitions in `Rules` |
| `Engine` | the Python functions as imperative methods on a mutable `array2<int>`, each proved against the `Rules` definitions |
| `Search` | `evaluate`, the child boards the search visits, and plain depth-limited minimax as the reference value |
| `Agents` | `SimpleAI.make_move`, and `minimax` as recursive methods with the Python loop, cutoff and `break`, proved fail-soft against the reference value |

The search model follows the code as written, including three behaviours
that an idealised engine would not have:

- Every level of `minimax` builds its candidate list from `self.player`'s
  legal moves, minimizing levels included.
- A minimizing level plays each candidate for `3 - self.player`. When that
  `make_move` fails, the child is an unchanged copy of the parent.
  `Search.Child` states this.
- `evaluate` is black minus white, whichever colour the agent plays.
  `Search.Evaluate` has no player parameter.

`is_game_over` calls `is_valid_move` only on occupied cells, where the
answer is always false. So the game is over exactly when the board is full,
and `Engine.IsGameOver` proves that.

`math.inf` becomes the integer `Search.Infinity = 65`. Every score lies in
[-64, 64], so 65 compares with scores as infinity does.

## Model

| member | source | states |
|---|---|---|
| Rules.Direction | othello.py:71 | each of the eight scanned directions is a unit step along a row, a column or a diagonal |
| Rules.InitialBoard | othello.py:39-43 | the start position: (3,3) and (4,4) black, (3,4) and (4,3) white, every other cell empty |
| Rules.Legal | othello.py:67-80 | `is_valid_move` on board values: a legal move is on an empty cell and has an opponent stone next to it in one of the eight directions |
| Rules.BracketsIffRun | othello.py:72-78 | a direction brackets for `p` exactly when, for some n ≥ 1, the cells 1..n steps away hold opponent stones and the cell n + 1 steps away is on the board and holds `p` |
| Rules.BracketsRun | othello.py:74-78 | when a direction brackets, the maximal opponent run from the adjacent cell is one such closed run |
| Rules.BracketedRunCloses | othello.py:74-78 | a closed run of opponent stones is the maximal run, and its direction brackets |
| Rules.Play | othello.py:85-96 | the board after a successful `make_move`: a well-formed 8×8 board whose origin holds `p` (the rest is stated by `PlayFlipsExactly`) |
| Rules.FlippedCell | othello.py:93-96 | a cell that a move turns over is on the board, is not the origin, and held an opponent stone |
| Rules.PlayFlipsExactly | othello.py:85-96 | after a move the origin holds `p`; in each direction the cell k steps away becomes `p` exactly when the direction brackets and k lies within the run; no other cell changes unless it held an opponent stone, which then becomes `p`; a cell on none of the eight rays through the origin does not change |
| Rules.PlayOnlyTurnsOpponents | othello.py:85-96 | apart from the origin, a cell that a move changes held an opponent stone and now holds `p`, so no empty cell and no `p` stone changes |
| Rules.FlipCountPositive | othello.py:67-80 | a legal move turns over at least one stone |
| Rules.PlayConserves | othello.py:85-96 | stones are conserved: a legal move fills one empty cell, the opponent loses k ≥ 1 stones and the mover gains k + 1 |
| Rules.ValidMoves | othello.py:24-28 | the list of legal moves for a player, built row by row; every entry is a cell of the board (its contents and order are stated by `ValidMovesSpec`) |
| Rules.ValidMovesSpec | othello.py:24-28 | the legal-move list holds exactly the legal cells, in strictly increasing row-major order |
| Rules.SelectNext | othello.py:25-28 | scanning one more cell appends it to the move list exactly when it is a legal move |
| Rules.Full | othello.py:102-110 | what `is_game_over` decides: no cell is empty; on a full board no cell is a legal move for either side, since `is_valid_move` rejects an occupied cell (othello.py:68) |
| Rules.FullNoMoves | othello.py:102-110 | once the game is over, neither player's legal-move list has an entry |
| Rules.Winner | othello.py:113-122 | "Black" exactly when black has more stones, "White" exactly when white has more, "Draw" exactly when the counts are equal |
| Flips.SweptBrackets | othello.py:87-92 | the bracketing test of each direction, run on the board the earlier directions have already flipped, gives the same run length and the same answer as on the board before any flip |
| Flips.SweptEnd | othello.py:85-96 | taking the eight directions one after another ends on the board `Play` describes |
| Flips.FlipStep | othello.py:88-96 | one direction's flips on the partly flipped board give the next stage of the sweep |
| Scan.BracketsBySkip | othello.py:73-78 | the scanning loop's test (adjacent cell is an opponent stone, and the walk over opponent stones stops on a `p` stone) is exactly `Brackets` |
| Scan.TurnAllCell | othello.py:93-96 | the flipping walk turns exactly the opponent stones it steps over to `p` and leaves every other cell as it was |
| Scan.FlipCellByRun | othello.py:90-96 | the cells the flipping walk steps over are the run that `Brackets` measures |
| Scan.RunSpanOf | othello.py:75-76 | the run that `RunFrom` counts from distance k holds `q` in every cell up to its end, and the cell at its end does not |
| Scan.SkipFrom | othello.py:75-76 | a walk over cells holding `q`, started inside a run, stops at the cell just past the run |
| Scan.InRunFrom | othello.py:94-96 | the cells the walk steps over are the ray cells from distance k up to the end of the run |
| Engine.InitializeBoard | othello.py:39-43 | returns a fresh 8×8 board holding the start position |
| Engine.CopyBoard | othello.py:144 | `[row.copy() for row in board]`: a fresh board with the same cells |
| Engine.WalkOver | othello.py:75-76 | the inner `while` stops at the cell where the walk over `q` stones stops |
| Engine.BracketsAt | othello.py:73-78 | the per-direction scan returns true exactly when the direction brackets |
| Engine.IsValidMove | othello.py:67-80 | returns exactly `Legal`: the cell is empty and some direction brackets; false whenever the cell is occupied |
| Engine.TurnRun | othello.py:93-96 | the flipping loop leaves the array holding the board the flipping walk describes |
| Engine.FlipDirection | othello.py:88-96 | one direction of `make_move` flips exactly the bracketed run of the board it sees |
| Engine.MakeMove | othello.py:83-99 | returns whether the move is legal; if legal, the board becomes `Play` of the old board; if not, it returns false and the board is unchanged |
| Engine.IsGameOver | othello.py:102-110 | returns true exactly when no cell is empty |
| Engine.ValidMoveList | othello.py:24-28 | the double loop builds exactly the row-major legal-move list |
| Agents.SimpleMove | othello.py:23-32 | returns no move exactly when the player has no legal move; otherwise some element of the legal-move list, which is a legal move |
| Search.Evaluate | alpha_vs_human.py:161-165 | black minus white lies in [-64, 64]; it is positive, negative or zero exactly when `determine_winner` says "Black", "White" or "Draw"; it does not depend on the agent's colour |
| Search.Child | alpha_vs_human.py:147-148 | the board a candidate leads to, a copy on which `make_move` ran for the level's mover (`self.player` at lines 128-129, `3 - self.player` here): if the move is legal for the mover, the empty target cell now holds the mover's stone; if not, the copy is the parent board unchanged |
| Search.MinimaxValue | alpha_vs_human.py:117-159 | the plain minimax value of a position is a score in [-64, 64] |
| Search.BestOfIsBest | alpha_vs_human.py:132-134 | the running maximum (or minimum) from the sentinel is beaten by none of the scores seen and attained by one of them |
| Search.MinimaxIsBest | alpha_vs_human.py:123-159 | an inner node's plain minimax value is the best child value over `self.player`'s legal moves: no child beats it and one child attains it |
| Search.RootWindowExact | alpha_vs_human.py:114 | with the root window (-∞, +∞), a fail-soft score in [-64, 64] is the exact value |
| Agents.SearchChild | alpha_vs_human.py:128-130 | searching the copy on which the move was made returns a fail-soft score for that child's minimax value |
| Agents.MaxStep | alpha_vs_human.py:132-138 | one iteration of the maximizing loop keeps the fail-soft bookkeeping, and a cutoff happens only at a score that bounds the true value from below |
| Agents.MinStep | alpha_vs_human.py:151-157 | one iteration of the minimizing loop keeps the fail-soft bookkeeping, and a cutoff happens only at a score that bounds the true value from above |
| Agents.MaxLoop | alpha_vs_human.py:123-140 | the maximizing loop with its `break` returns a fail-soft score for the best child value and one of the candidates; from the root window, that candidate is the first whose child attains the score |
| Agents.MinLoop | alpha_vs_human.py:142-159 | the minimizing loop with its `break` returns a fail-soft score for the least child value and one of the candidates |
| Agents.Minimax | alpha_vs_human.py:117-159 | pruning is sound: the score is in [-64, 64] and fail-soft for the plain minimax value, so it is exact inside the window; at depth 0 or with no legal move it returns `evaluate` and no move; otherwise one of `self.player`'s legal moves; from the root window, the first legal move whose child attains the score; the input board is never written |
| Agents.AlphaBetaMove | alpha_vs_human.py:113-115 | no move exactly when `self.player` has no legal move; otherwise a legal move whose child attains the plain depth-3 minimax value, with no earlier move in the legal-move list attaining it |

## Left out

- The pygame interface is left out. This covers window creation, `draw_board`, event polling, pixel-to-cell mapping, text rendering and the waits (othello.py:16, 34-36, 46-64; alpha_vs_human.py:16-20, 30-48). It is input and output only.
- The game drivers are left out: `run_game`, `play_100_games` and the main loop of alpha_vs_human.py:168-220. They switch turns, handle passes and print results around the modelled functions.
- `random.choice` is not modelled. `Agents.SimpleMove` picks some element of the legal-move list, so no distribution is claimed.
- The Python classes `SimpleAI` and `AlphaBetaAI` become methods with a `player` parameter. The only field is set once by `__init__` and never updated.
- `math.inf` is modelled as the sentinel ±65 and not as a float. This is exact, because every score is an integer in [-64, 64].
- Python would wrap negative indices, but the callers only pass 0 ≤ row, col < 8 and a player of 1 or 2. These ranges are preconditions.
- The boards are Python lists of row lists, and copies are taken row by row, so no rows are shared. The model uses one `array2<int>`. This loses nothing, because nothing in the core aliases rows.
- Agents.Minimax: the first-best-move guarantee covers only a maximizing level searched with the root window (-∞, +∞). That is the one call whose move is used (`make_move`); at every other level the caller discards the move, and the model only shows it is one of `self.player`'s legal moves.
- Agents.MinLoop: states no first-best-move property, because a minimizing level's move is always discarded.
