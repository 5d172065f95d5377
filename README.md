# Connect Four board and turn logic in Dafny

This project models the `Game` class of `connect4.js`. That class is the logic behind a two-player Connect Four page. Players take turns dropping pieces into the columns of a WIDTH×HEIGHT grid. A piece falls to the lowest empty row of its column. After each drop the game checks whether the mover has four in a row, then whether the board is full (a tie). If neither, the turn passes to the other player. The start button refuses boards of fewer than eight cells.

The model has three modules:

- `Wrappers` (`wrappers.dfy`): `Option` (the source's `null` return) and `Result`.
- `Board` (`board.dfy`): the grid as a value, `seq<seq<int>>`, with row 0 at the top and row HEIGHT-1 at the bottom. A cell holds `EMPTY` (0, the source's `undefined`) or a player id, 1 or 2. The module defines:
  - the tie test `Full` (the source's `board.every(row => row.every(cell => cell))`);
  - the inner `_win` test `AllOwned`;
  - the four candidate lines `Line`, anchored at a cell and pointing in one of the directions `Horiz`, `Vert`, `DiagDR`, `DiagDL`;
  - `HasWin`, the existential "some anchor and direction give a winning line";
  - the gravity invariant `Settled` (the filled cells of each column form one block at the bottom);
  - the drop-row function `ScanUp`/`DropRow`;
  - the single-cell write `Play`;
  - the lemmas about all of these.
- `Connect4` (`game.dfy`): the class `Game`. Its fields are `width`, `height`, `board`, `currPlayer` (the id of the player to move), `gameOver` and `message`. `gameOver` and `message` stand for what `endGame` does: after `endGame`, the page removes the clickable column tops, so no later click can arrive. The class has these methods:
  - `MakeBoard`: a loop that appends empty rows.
  - `FindSpotForCol`: a downward loop with an early return.
  - `CheckForWin`: nested row-major loops with `continue` and an early return.
  - `HandleClick`: the move state machine.
  - `EndGame`.

  The module also holds `OnStart`, the start-button handler with its dimension check.

The invariant `Game.Valid()` holds between clicks. It requires:
- the board is HEIGHT rows of WIDTH cells, each `EMPTY`, 1 or 2;
- every column is settled;
- `currPlayer` is 1 or 2;
- while the game is not over, neither player has a winning line.

The last point is why the source may check only the mover after each drop. A drop adds only a piece of the mover (`PlayKeepsOpponentWinless`), so the other player cannot gain a win from it.

One point differs from the prose around the code. The start button's message asks for a product "greater than 8". Its test, however, rejects only products below 8. The model follows the test: a 2×4 board is accepted.

## Model

| member | source | states |
|---|---|---|
| `Board.ScanUp` | connect4.js:70-77 | Scanning column x upward from row `below-1` gives an EMPTY row r below `below` with every row between r and `below` filled. It gives None exactly when every row below `below` is filled. |
| `Board.DropRow` | connect4.js:68-77 | The drop row is the largest EMPTY row of the column: every row below it is filled. It is None exactly when every cell of the column is filled. |
| `Board.SettledColumnSplits` | connect4.js:1-5 | In a settled grid, every cell of the column at or above the drop row is EMPTY. So the drop row splits the column into an empty top and a filled bottom. |
| `Board.Play` | connect4.js:114 | The result has the same shape as the grid. Cell (y, x) holds p, and every other cell is unchanged. |
| `Board.PlayKeepsRect` | connect4.js:114 | A write keeps the grid HEIGHT rows of WIDTH cells. |
| `Board.PlayKeepsPieces` | connect4.js:114 | Writing a player id into an EMPTY cell keeps every cell EMPTY, 1 or 2. No existing piece is removed or changed. |
| `Board.PlayKeepsSettled` | connect4.js:107-114 | Writing a player id at the drop row keeps the filled cells of every column one block at the bottom. |
| `Board.Owns` | connect4.js:142-146 | The per-cell test of `_win`: the coordinates are tested against the grid's bounds before the cell is read, so a cell off the grid is never owned. |
| `Board.AllOwned` | connect4.js:135-148 | The inner `_win`: every listed cell is on the grid and holds p. |
| `Board.WinsAt` | connect4.js:165 | `_boundWin` on one of the four lines anchored at (y, x): all four cells hold p. Its anchor is therefore a cell of p on the grid. |
| `Board.HasWin` | connect4.js:134-170 | What `checkForWin` decides: some anchor and direction give p a winning line. This holds exactly when such an anchor lies on the grid, which is why scanning the grid's cells is enough. |
| `Board.RowFilled` | connect4.js:124 | `row.every(cell => cell)`: every cell of the row holds a piece. Read by index, no cell is EMPTY. |
| `Board.Full` | connect4.js:124 | The tie test `board.every(row => row.every(cell => cell))`: every row is filled. Read by index, no cell of the grid is EMPTY. Cells hold only 0, 1 or 2, so "truthy" means "not EMPTY". |
| `Board.Line` | connect4.js:159-162 | A candidate line has four cells. It starts at the anchor, and each cell is one direction step from the one before it. |
| `Board.LineCells` | connect4.js:159-162 | Line k (for k = 0..3) is the anchor plus k times the direction's (row, column) step. |
| `Board.AnchorsOwned` | connect4.js:140-147 | The anchor of every winning line is on the grid and owned by the player. |
| `Board.FourInARowIsWin` | connect4.js:151-169 | Completeness. Four consecutive cells of p in any of the eight orientations give a win. The win is anchored at the line's top-most (then left-most) cell. That is the start cell when the line steps down or to the right, and otherwise the far end (y + 3·dy, x + 3·dx). For example, an up-right diagonal is found as `DiagDL` from its top cell. |
| `Board.WinIsFourInARow` | connect4.js:134-170 | Soundness. Every win is four consecutive on-grid cells of p along one of the eight unit steps. |
| `Board.EmptyHasNoWin` | connect4.js:31-35 | A board with every cell EMPTY has no winning line for any player. |
| `Board.WinNeedsRoom` | connect4.js:140-147 | A winning line needs at least four rows or four columns. This is because all four of its cells must be in bounds. |
| `Board.SmallGridHasNoWin` | connect4.js:140-162 | A grid with fewer than 4 rows and fewer than 4 columns has no winning line for any player. Together with the tie clause of `HandleClick`, a move that fills such a board therefore ends in "Tie!". |
| `Board.PlayKeepsOpponentWinless` | connect4.js:114-120 | Dropping a piece of p into an EMPTY cell cannot create a win for any other player. |
| `Connect4.Other` | connect4.js:129 | The turn passes to the other id: 1 leads to 2 and 2 leads to 1. |
| `Connect4.WinMessage` | connect4.js:120 | The win announcement is "Player ", the id's digit, then " won!". |
| `Connect4.Game.constructor` | connect4.js:17-24 | A new game stores its width and height. Player 1 moves first, the board is empty and the game is not over. |
| `Connect4.Game.MakeBoard` | connect4.js:31-35 | The board becomes exactly HEIGHT rows of WIDTH cells, all EMPTY. The game invariant holds afterwards. |
| `Connect4.Game.FindSpotForCol` | connect4.js:70-77 | The bottom-up scan returns the drop row of column x, or None when the column is full. |
| `Connect4.Game.CheckForWin` | connect4.js:134-170 | The scan returns true exactly when some anchor and direction give four in-bounds cells of the current player. It modifies nothing. |
| `Connect4.Game.EndGame` | connect4.js:94-99 | The game is over and the message is recorded. The board and the turn are untouched. |
| `Connect4.Game.HandleClick` | connect4.js:103-130 | A click after the game ends, or on a full column, changes nothing. Otherwise the mover's id is written at the drop row and nothing else on the board changes. On a win the game ends with "Player {id} won!" and the turn stays with the mover. Otherwise, on a full board it ends with "Tie!". Otherwise the turn passes to the other player. The game invariant is preserved in every case. |
| `Connect4.OnStart` | connect4.js:178-188 | A start is refused, with the source's message, exactly when width × height < 8. Otherwise it gives a fresh valid game with an all-EMPTY board, player 1 to move. |

## Left out

- Rendering: `makeHtmlBoard`, `placeInTable`, the removal of the `#column-top` row and the `alert` in `endGame` are browser DOM calls. `EndGame` models only "the game is over, with this message". `startGame` is `makeBoard` followed by `makeHtmlBoard`, so it appears only as the `MakeBoard` call in `OnStart`.
- Event wiring, the color pickers and the background-color handler (connect4.js:173-195) are page UI with no game logic.
- Players: the `Player` class pairs an id with a display color. The model keeps only the ids 1 and 2, and `currPlayer` is the id of the player to move rather than a reference to a `Player` object.
- Input coercion: the page reads width and height as strings and multiplies them, and it takes the column from `+evt.target.id`, which gives `NaN` when the row itself is clicked. The model takes natural-number dimensions and a column in `[0, width)`. A pair of negative dimensions, which the product test would let through, is not modelled.
- `makeBoard` on a board that already has rows: it would append more. Every game is a fresh `Game`, so `MakeBoard` requires an empty board.
- `checkForWin` returns `undefined` when nothing is found. The model returns `false`.
