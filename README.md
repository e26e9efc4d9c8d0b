# Tic-tac-toe game state, modelled in Dafny

This project models the game-state core of a browser tic-tac-toe game
(`src/index.js`). It covers two parts.

- The winner scan `calculateWinner` (module `Board`, file `board.dfy`). It
  checks eight fixed lines of a nine-square board: three rows, three columns
  and two diagonals. It reports the first line in list order whose three
  squares hold the same mark, together with that mark.
- The `Game` component's state (module `TicTacToe`, file `game.dfy`). The
  state is the history of board snapshots, the current step number, the turn
  flag `xIsNext` and the sort flag `ascendentOrder`. The handlers are
  `handleClick`, `jumpTo` and `changeOrder`. The derived views are the
  status line, the move-list labels and the position labels of
  `getPosition`.

Each React `setState` call is modelled as one synchronous, atomic update of
the fields of the `Game` class. `calculateWinner` is a method whose `for`
loop returns early, as the source does. It is proved equal to the recursive
specification `Board.Winner`, and the lemmas characterise that
specification. `handleClick` copies the current board into a fresh array, as
`slice()` does. It runs the scan on the copy, writes the mark into the copy
and appends it as a new history entry. History entries are immutable values,
so a later move cannot change an earlier snapshot.

The invariant `TicTacToe.ValidState` holds after the constructor and after
every handler. It says three things:

- the history starts with the empty board, and each later entry is one
  legal move from the entry before it;
- the step pointer lies inside the history;
- `xIsNext` holds exactly on even steps.

A legal move is made on a board that has no winner. It puts the mover's
mark on an empty square, with that square's position label and the entry's
own index as `stepNumber`.

Three details of the code that the model follows:

- A history entry stores `stepNumber`, its own index in the history
  (`history.length` at append time, src/index.js:109). It does not store the
  clicked square's index.
- A rejected click returns before `setState`. So it does not truncate the
  history, even when the current step is not the last.
- `changeOrder(asc)` sets the flag to `!asc`, where `asc` is what its caller
  passes. The sorting button passes the current flag, so that click flips it.

## Model

| member | source | states |
|---|---|---|
| `Board.CalculateWinner` | src/index.js:231-250 | The loop's result equals the winner specification for every board. The board is a value, so the scan cannot change it. |
| `Board.FirstWinFrom` | src/index.js:242-249 | The scan from line k finds no winner exactly when no line from k on is won. When a line wins, the scan returns the first won line from k and that line's mark, and only that. |
| `Board.WinnerIsFirstWinningLine` | src/index.js:232-247 | The result is winner p with row l exactly when l is the first won line in list order and its squares hold p's mark. |
| `Board.NoWinnerIff` | src/index.js:242-249 | `{winner: null, winnerRow: null}` is returned exactly when none of the eight lines has three equal, non-empty squares. |
| `Board.WinnerOwnsRow` | src/index.js:243-246 | A reported row is one of the eight lines, and all three of its squares hold the winner's mark. |
| `TicTacToe.GetPosition` | src/index.js:216-229 | Positions 0..8 get the label "row (i/3+1), col (i%3+1)". Any other position gets no label (JavaScript `undefined`). |
| `TicTacToe.GetPositionInjective` | src/index.js:216-229 | Different board positions never share a label. |
| `TicTacToe.Game.constructor` | src/index.js:82-92 | The history is one all-empty entry, the step is 0, X is next, and the order is ascending. The state invariant holds. |
| `TicTacToe.Game.HandleClick` | src/index.js:94-114 | When the current board has a winner or square i is taken, nothing changes. Otherwise the history becomes the old prefix up to the current step plus exactly one new entry. That entry is the current board with square i set from empty to the mover's mark, with square i's position label and step number old step + 1. The step becomes old step + 1, the new last index. The turn flips, the sort flag is unchanged, and the invariant is kept. |
| `TicTacToe.Game.JumpTo` | src/index.js:116-121 | The step becomes `step` and `xIsNext` becomes "step is even". The history and sort flag are untouched, and the invariant is kept. |
| `TicTacToe.Game.ChangeOrder` | src/index.js:123-127 | The sort flag becomes `!asc`. The history, step and turn are untouched. |
| `TicTacToe.AcceptedClickIsMove` | src/index.js:100-110 | A click on an empty square of a board with no winner, made at step k, produces exactly the entry that a legal move from step k is allowed to produce. |
| `TicTacToe.ClickKeepsValid` | src/index.js:95-112 | An accepted click keeps the state invariant: the kept prefix plus the new entry is a valid history, the step becomes k + 1, and the turn flips. |
| `TicTacToe.TruncateAppend` | src/index.js:95-111 | Cutting a valid history after step k and appending one legal move from entry k gives a valid history of length k + 2. |
| `TicTacToe.MarkCounts` | src/index.js:86-112 | Entry k of a valid history has 9 − k empty squares, (k+1)/2 X marks and k/2 O marks. |
| `TicTacToe.HistoryLengthBound` | src/index.js:95-111 | A valid history never has more than ten entries. |
| `TicTacToe.MarksPersist` | src/index.js:97-103 | Once a square holds a mark, every later entry holds the same mark there. No occupied square is ever overwritten. |
| `TicTacToe.NoMoveAfterWin` | src/index.js:100-102 | An entry that has a winner is always the last entry of the history. This is a corollary of the state invariant: `HandleClick` rejects a click on a won board, and every move in a valid history starts from a board with no winner. |
| `TicTacToe.StatusText` | src/index.js:184-193 | The text starts with "Winner: " exactly when the scan reports a winner, and then names that winner. It is the draw text exactly when nobody has won and the step is 9. Otherwise it is "Next player: X" when `xIsNext` holds and "Next player: O" when it does not. |
| `TicTacToe.Game.Status` | src/index.js:145-148 | The status of the current board, in terms of the board alone: the winner if there is one; the draw text exactly when nobody has won and no square is empty; otherwise the player with fewer marks is next, X when the counts are equal. |
| `TicTacToe.StatusInValidGame` | src/index.js:184-193 | In a valid state: "Winner: w" when the scan reports w; the draw text exactly when nobody has won and the board is full; otherwise "Next player: X" when X and O have equally many marks, and "Next player: O" when they do not. |
| `TicTacToe.MoveLabel` | src/index.js:151-152 | The label is "Go to game start" exactly for move 0. Any other move gets "Go to move " followed by the entry's position label, or "Go to move undefined" when the entry has no position. |
| `TicTacToe.MoveLabels` | src/index.js:150-152 | There is one label per history entry, and only the first one reads "Go to game start". |
| `TicTacToe.TopRowOpening` | src/index.js:94-114 | A client of the handlers: a new game followed by clicks on squares 0, 3 and 1 accepts all three, leaving X on 0 and 1, O on 3, step 3 and O to move. `TopRowScenario` continues this game to X's top-row win, then checks that a later click is ignored and that a jump to the start keeps the whole history. |
| `TicTacToe.MoveLabelNamesMove` | src/index.js:150-152 | In a valid history, entry 0's label is "Go to game start". Entry k > 0's label is "Go to move row r, col c", naming the square that became occupied between entries k − 1 and k. |

## Left out

- Rendering is not modelled: `Square`, `SortingButton`, `Board.renderSquare`/`renderBoard`, the markup of `Game.render` and the sorting button's text are presentation only.
- `ReactDOM.render` mounting and the CSS import are DOM and I/O plumbing.
- The highlight of the current move is cosmetic list rendering. So is `moves.reverse()` for descending order, which reverses a local array that `render` has just built, so it cannot change any game state.
- React's asynchronous batching of `setState` is not modelled. Each handler is one atomic state change.
- `TicTacToe.Game.HandleClick` requires `i < 9`. The board renders squares 0..8 only, and a larger index has no meaning on a nine-square board.
- `TicTacToe.Game.JumpTo` requires `step < |history|`. The move list only offers indices of existing history entries.
- Boards are immutable sequences once they are stored. The JavaScript arrays could in principle be aliased, but the source copies the board before writing. The model copies into a fresh array and stores its contents, so aliasing cannot be expressed.
