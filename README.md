# Tic-tac-toe game engine in Dafny

This project models the game engine of a React tic-tac-toe component
(`tic_tac_toe/src/components/TicTacToe/TicTacToe.js`). The game is a 3x3
board on which X and O take turns. A completed row, column or diagonal wins,
and a full board without one is a draw. Every move is kept as a board
snapshot, and the player can jump back to any earlier snapshot. A move made
after such a jump discards the later snapshots.

`TicTacToe.dfy` (module `TicTacToe`) holds:

- **Values.** `Player` (X, O), `Cell` (`Empty`, the component's `null`, or
  `Mark(p)`), `Board` (exactly nine cells, row-major) and `Status`
  (`InProgress | Winner(mark) | Draw`, the component's `'in-progress'`,
  `'winner-X'`/`'winner-O'` and `'draw'`).
- **Win and draw checks.** `WinningLines` lists the eight lines in the
  component's order. `FirstWinnerFrom` and `FirstWinner` are the
  specification of the win check. `CalculateWinner` is the component's
  indexed loop with its early return, proved to compute that specification.
  `IsBoardFull` is the `every` over the squares. `StatusOf` combines the two
  as the component does: a win is checked before a draw.
- **Status text.** `StatusMessage` maps a status and whose turn it is to the
  line shown above the board.
- **Game state.** A `Game` class has the component's five state cells as
  fields: `board`, `isXNext`, `history`, `currentStep` and `gameStatus`.
  `CheckGameStatus`, `HandleSquareClick`, `JumpToMove` and `ResetGame` are
  methods. Each handler is one atomic transition. In the component a
  handler's closure sees the state values of the render it belongs to, so
  its `set*` calls do not change what it reads later in the same call. The
  Dafny methods read no field after assigning it: `HandleSquareClick` builds
  the new board and the new history before assigning any field, and
  `JumpToMove` tests `gameStatus` and `history` before assigning either.
- **The invariant.** `Game.Valid` is preserved by every handler and
  established by the constructor. It requires:
  - the history is well formed (`WellFormedHistory`): it starts at the empty
    board, each snapshot is one move of the player on turn from the snapshot
    before it, and only the last snapshot can be won or full;
  - `currentStep` indexes the history and the board is the snapshot at that
    step;
  - `isXNext` holds exactly when the step is even;
  - `gameStatus` is the status `StatusOf` derives for the board.

  Lemmas over well-formed histories prove more. The snapshot at step `i`
  holds `i` marks, so a history has at most ten snapshots. Marks never
  disappear in later snapshots. All complete lines on a snapshot belong to
  one player, so the status is `Winner(p)` exactly when some line is all
  `p`.

`Scenarios.dfy` (module `Scenarios`) plays concrete games using only the
handlers' contracts:

- X wins the top row, and a later click is ignored;
- O wins the middle column;
- a full board ends in a draw;
- a click on a taken square does nothing;
- jumping back from a won game puts it back in progress, and jumping forward
  shows the win again;
- a move after a jump discards the later snapshots.

Three design choices of the model:

- The turn is stored, as in the component, in `isXNext`. `Valid` ties it to
  the parity of `currentStep`.
- The status is stored in `gameStatus`, as in the component.
  `checkGameStatus` leaves it unchanged when the board is neither a win nor a
  draw, and `jumpToMove` resets it to in-progress only when it leaves a
  finished game for an earlier step. The model keeps exactly these branches,
  and `Valid` proves that `gameStatus` always equals `StatusOf(board)`: no
  path leaves a stale win or draw behind.
- The component checks neither the square index nor the history step. Its
  callers pass only 0..8 (the nine squares of `Board.js`) and the indices of
  `history.map`, so both are preconditions.

## Model

| member | source | states |
|---|---|---|
| `TicTacToe.FirstWinnerFromSpec` | tic_tac_toe/src/components/TicTacToe/TicTacToe.js:88-96 | the search from line `i` finds nothing iff no line from `i` on is complete, and otherwise returns the owner of the first complete line from `i` on |
| `TicTacToe.FirstWinnerSpec` | tic_tac_toe/src/components/TicTacToe/TicTacToe.js:75-97 | the win check returns nothing iff no winning line is complete, and returns `p` iff the first complete line in the listed order holds `p`'s mark |
| `TicTacToe.CalculateWinner` | tic_tac_toe/src/components/TicTacToe/TicTacToe.js:75-97 | the loop over the eight lines, with its early return, computes exactly the win-check specification |
| `TicTacToe.FirstWinner` | tic_tac_toe/src/components/TicTacToe/TicTacToe.js:75-97 | the result of the win check: the owner of the first complete line in the listed order, or nothing; `FirstWinnerSpec` is its characterization and `CalculateWinner` computes it |
| `TicTacToe.IsBoardFull` | tic_tac_toe/src/components/TicTacToe/TicTacToe.js:105-107 | true iff every square is non-empty |
| `TicTacToe.StatusOf` | tic_tac_toe/src/components/TicTacToe/TicTacToe.js:59-67 | the status `checkGameStatus` derives for a board: a win for the win check's result, else a draw on a full board, else in progress; `StatusOfSpec` is its characterization |
| `TicTacToe.StatusOfSpec` | tic_tac_toe/src/components/TicTacToe/TicTacToe.js:59-67 | the derived status is a win iff some line is complete (and then it names the owner of the first complete line); a draw iff no line is complete and every square is taken; in progress iff no line is complete and some square is empty |
| `TicTacToe.StatusMessage` | tic_tac_toe/src/components/TicTacToe/TicTacToe.js:144-153 | `Winner(p)` maps to "Winner: " and `p`'s mark, `Draw` to "Game ended in a draw!", in progress to "Next player: " and the mark of the player to move; `StatusMessageIdentifies` is its contract |
| `TicTacToe.StatusMessageIdentifies` | tic_tac_toe/src/components/TicTacToe/TicTacToe.js:144-153 | two equal status texts come from the same status, and while in progress from the same next player: the text names the winner, a draw, or the player to move |
| `TicTacToe.MarkCountTake` | tic_tac_toe/src/components/TicTacToe/TicTacToe.js:38-39 | placing a mark on an empty square adds exactly one mark to the board |
| `TicTacToe.MarkCountIsStep` | tic_tac_toe/src/components/TicTacToe/TicTacToe.js:46-48 | in a well-formed history the snapshot at step `i` holds exactly `i` marks |
| `TicTacToe.HistoryBounded` | tic_tac_toe/src/components/TicTacToe/TicTacToe.js:46-48 | a well-formed history has at most ten snapshots |
| `TicTacToe.MarksPersist` | tic_tac_toe/src/components/TicTacToe/TicTacToe.js:38-48 | a mark in a snapshot is unchanged in every later snapshot of the same history |
| `TicTacToe.CompleteAfterMove` | tic_tac_toe/src/components/TicTacToe/TicTacToe.js:33-39 | after a move on a board with no complete line, every complete line holds the mover's mark |
| `TicTacToe.SingleOwner` | tic_tac_toe/src/components/TicTacToe/TicTacToe.js:31-51 | on any snapshot of a well-formed history, all complete lines hold the same player's mark |
| `TicTacToe.WinnerIff` | tic_tac_toe/src/components/TicTacToe/TicTacToe.js:59-67 | on a snapshot of a well-formed history the status is `Winner(p)` iff some winning line holds `p`'s mark in all three squares |
| `TicTacToe.HistoryExtend` | tic_tac_toe/src/components/TicTacToe/TicTacToe.js:46-48 | truncating after the current step of a well-formed history and appending one legal move of the player on turn gives a well-formed history |
| `TicTacToe.Game.constructor` | tic_tac_toe/src/components/TicTacToe/TicTacToe.js:13-20 | initial state: empty board, X to move, history holding only the empty board, step 0, in progress; the invariant holds |
| `TicTacToe.Game.CheckGameStatus` | tic_tac_toe/src/components/TicTacToe/TicTacToe.js:59-67 | sets the status to the board's win or draw when there is one; otherwise leaves the previous status; changes no other field |
| `TicTacToe.Game.HandleSquareClick` | tic_tac_toe/src/components/TicTacToe/TicTacToe.js:31-52 | on a taken square or a finished game nothing changes; otherwise the board gets the mover's mark at `index` only, the turn flips, history becomes the prefix up to the current step plus the new board, the step advances by one to the last index, and the status is the new board's; the invariant is preserved |
| `TicTacToe.Game.JumpToMove` | tic_tac_toe/src/components/TicTacToe/TicTacToe.js:114-126 | sets the step to `step`, the board to that snapshot and the turn to the step's parity; keeps the history; leaving a finished game for an earlier step puts it in progress, and otherwise the status is re-derived as `checkGameStatus` does; the status always equals the snapshot's derived status; the invariant is preserved |
| `TicTacToe.Game.ResetGame` | tic_tac_toe/src/components/TicTacToe/TicTacToe.js:131-137 | from any state: empty board, X to move, history holding only the empty board, step 0, in progress; the invariant holds |

## Left out

- Rendering: the JSX of the component, `Board.js` (three rows of squares
  that pass the indices 0..8 to the click handler) and `Square.js` (a button
  and a CSS class derived from its value). They are presentation only.
- React's `useState` scheduling, batching and re-rendering, and the unused
  `useEffect` import. Each handler is modelled as one atomic transition over
  the values it reads.
- The `'winner-X'` string and its `split('-')` parsing. The status is a
  datatype, and `StatusMessage` takes the status and the turn as parameters
  instead of reading them from the component's closure.
- Out-of-range square indices and history steps. The component never
  checks them and its callers never pass them, so they are preconditions.
