# Tic-tac-toe game logic in Dafny

This project models the game logic of a pygame tic-tac-toe program
(`tictactoe.py`), separated from its window and event loop. It covers:

- the 3x3 board of `""`/`"X"`/`"O"` cells;
- win detection (`check_win_condition`);
- the outcome update (`check_winner`);
- the reset (`restart_game`);
- the computer opponent (`ai_move`: Easy, Medium and Hard);
- the exhaustive minimax scorer behind Hard (`minimax`);
- the steps the main loop takes when a cell is clicked and when the computer plays.

The project has four modules:

- `Board` (`board.dfy`):
  - Cells and players.
  - The board as a value: the nine cells in row-major order.
  - The win scan, and its equivalence with the table of eight lines.
  - The count of empty cells, which measures how far a game can still go.
  - The bridge from the mutable board (an `array2<Cell>`) to its value (`Snapshot`), and a one-cell write.
- `Opponent` (`opponent.dfy`):
  - The Medium priority rule.
  - The Easy random pick, with its random draws supplied as a parameter.
  - The minimax score as a pure specification (`MinimaxValue`, with `Scan` for the nested loops).
  - The in-place search `Minimax`. It marks a cell, recurses, and clears the cell again, and is proved to return `MinimaxValue` and to leave the board as it found it.
- `Session` (`session.dfy`):
  - The class `Game`, whose fields are the board, the player to move, the game-over flag and the winner.
  - `CheckWinner`, `Restart`, the click step, the opponent's reply and the computer's turn.
  - `CheckWinner` is proved against `Judge`, a pure function for the outcome check.
  - The constructor, `Restart`, `Click`, `Mark` and `ComputerTurn` also keep the predicate `Settled`: the stored outcome is what `Judge` makes of the board from a game in progress, and no board shows a line for both players. `Settled` is established by the constructor and `Restart`, and required and preserved by `Click`, `Mark` and `ComputerTurn`; it is not part of the class's `Valid()`.
  - `AiMove` leaves the board's value unchanged and does not touch the stored outcome.
- `Scenarios` (`scenarios.dfy`): concrete boards and the outcomes and Medium replies they get.

Behaviour of the code that the model keeps as written:

- **The turn passes after a game-ending mark.** After a mark is placed, lines 241-244, 258 and 265 flip the turn unconditionally, so the turn changes hands even when that mark ends the game (`Session.Game.Mark`).
- **Hard returns a score, not a cell.** The Hard level returns the bare minimax score of the board (line 115) where a `(row, col)` pair is expected. The game loop then unpacks that integer into a row and a column (line 261). That raises an uncaught TypeError, which ends the program. The model returns `Reply.Score` from the opponent. The computer's turn ends in `StepResult.NotAMove`, which stands for that crash: the board, turn and outcome are unchanged because nothing was written before it. `NotAMove(NoReply)` is also the result when the Easy draws supplied run out (see `Opponent.EasyMove` under Left out). No move-selecting search is added.
- **Medium signals a finished game with (-1, -1).** It returns `(-1, -1)` when the game is already over (lines 100-101); it is not a precondition.
- **Restart is unconditional.** `restart_game` resets whatever the state. Only the event dispatch restricts it to a finished game.
- **A full board with a line is a win.** The outcome check looks for X's line before O's and before a full board. A full board on which X holds a diagonal is therefore X's win, not a draw (`Scenarios.CornersAndCentreIsWin`).

Board and search details:

- The model's board value is flat: cell (row, col) is index `3 * row + col`.
- The search's terminal tests read the same board the search mutates. The source passes the global board to `minimax` and reads it again in `check_win_condition`. In the model the board is passed explicitly, so this aliasing becomes a single array.

## Model

| member | source | states |
|---|---|---|
| Board.Snapshot | tictactoe.py:32 | the value of a 3x3 array holds at (row, col) exactly what the array holds there |
| Board.BlankSnapshot | tictactoe.py:85 | an array whose every cell is empty holds the empty board |
| Board.Place | tictactoe.py:239 | writing one cell sets that cell and leaves the other eight as they were |
| Board.Write | tictactoe.py:141 | writing a cell of the array changes its board value exactly as `Place` does |
| Board.PlaceUndo | tictactoe.py:141-146 | marking an empty cell and then clearing it gives back the original board |
| Board.GridsEqual | tictactoe.py:32 | two boards with the same nine cells are the same board |
| Board.WinsIffSomeLine | tictactoe.py:160-173 | `Board.Wins`, the model of `check_win_condition` (a scan over rows, columns, the main diagonal and the anti-diagonal), holds for p exactly when p fills one of the eight lines |
| Board.WinningLine | tictactoe.py:160-171 | a win found by the scan names a line of the table that p fills |
| Board.LineWins | tictactoe.py:162-171 | a line of the table that p fills is found by the scan |
| Board.PlaceFills | tictactoe.py:138-146 | marking an empty cell lowers the number of empty cells by exactly one, so the recursion of the search ends |
| Board.FillCounts | tictactoe.py:140-141 | overwriting an empty entry of a run of cells removes exactly one empty entry |
| Opponent.FirstEmptyFrom | tictactoe.py:106-112 | the index found is the first empty cell of the list at or after i; nothing is found exactly when every cell from i on is taken |
| Opponent.FirstEmptyMove | tictactoe.py:106-112 | the move is the first empty cell of the list; NoReply exactly when every cell of the list is taken |
| Opponent.MediumMove | tictactoe.py:98-112 | (-1, -1) once the game is over; otherwise the centre if empty, else the first empty corner in the order (0,0), (0,2), (2,0), (2,2), else the first empty cell in row-major order; no reply exactly when the board is full; any cell returned is on the board and empty |
| Opponent.EasyMove | tictactoe.py:91-97 | the loop returns the first drawn cell that is empty, or NoReply when every draw names a taken cell |
| Opponent.MinimaxValue | tictactoe.py:121-156 | the score of every board is 10, -10 or 0 |
| Opponent.Scan | tictactoe.py:135-154 | after the nested loops visit the first k cells, a best score exists exactly when one of them was empty, and it is 10, -10 or 0 |
| Opponent.MinimaxTerminal | tictactoe.py:126-132 | a board where O holds a line scores 10 (checked first), else one where X does scores -10, else a full board scores 0 |
| Opponent.MinimaxUnfold | tictactoe.py:134-156 | on an unfinished board the score is the best score left by the loops over all nine cells |
| Opponent.ScanStep | tictactoe.py:138-154 | one iteration at (row, col) combines the child's score into the best so far if the cell is empty and otherwise changes nothing |
| Opponent.ScanBounds | tictactoe.py:148-154 | the best score so far is at least (O) or at most (X) the score of every empty cell visited |
| Opponent.ScanAttained | tictactoe.py:148-154 | the best score so far is the score of one of the empty cells visited |
| Opponent.MinimaxIsBestChild | tictactoe.py:121-156 | on an unfinished board the score is the maximum of the children's scores with O to move and the minimum with X to move, and some child attains it |
| Opponent.MarkKeepsNoLine | tictactoe.py:141 | a mark for one player cannot complete a line for the other |
| Opponent.ImmediateWin | tictactoe.py:121-156 | a player to move who can complete a line in one mark gets that line's score: 10 for O, -10 for X |
| Opponent.Minimax | tictactoe.py:121-156 | the in-place search returns the minimax score of the board and leaves the board exactly as it received it |
| Opponent.TryMove | tictactoe.py:140-146 | marking an empty cell, scoring the child with the other player to move, and clearing the cell returns the child's score and restores the board |
| Session.ClickedCell | tictactoe.py:235-237 | the cell's row and column are the 200-pixel bands containing y and x, and a pixel inside the 600x600 window maps to a cell on the board |
| Session.Judge | tictactoe.py:70-81 | the game is over after the check exactly when it was over before or X or O holds a line (`Board.Wins`) or the board is full (`Board.IsFull`, the no-empty-cell test of lines 80 and 131); the winner is X if X holds a line, else O if O does, else unchanged |
| Session.JudgeIdempotent | tictactoe.py:70-81 | checking the outcome a second time changes nothing |
| Session.SettledInProgress | tictactoe.py:70-81 | a settled game that is not over has no winner, no line for either player and an empty cell |
| Session.EmptyGridSettled | tictactoe.py:83-88 | the empty board has no line and a free cell, so the initial state is settled |
| Session.Game.constructor | tictactoe.py:32-35 | a new game has an empty board, X to move, is not over and has no winner |
| Session.Game.CheckWinner | tictactoe.py:70-81 | the stored game-over flag and winner become what `Judge` makes of the board and their previous values; the board and the turn are untouched and the class stays valid |
| Session.Game.Restart | tictactoe.py:83-88 | whatever the prior state: a new empty board, X to move, not over, no winner |
| Session.Game.Click | tictactoe.py:234-244 | a click inside the window is accepted exactly when its cell is empty; if accepted, that cell gets the mover's mark, the outcome is checked and the turn passes to the other player; if rejected, nothing changes; either way the outcome stays settled and no line shows for both players |
| Session.Game.Mark | tictactoe.py:238-244 | the mover's mark goes on the empty cell, the outcome is checked, the turn passes even when the game has just ended, and the stored outcome stays settled, so the board never shows a line for both players |
| Session.Game.AiMove | tictactoe.py:90-116 | Easy returns the first empty drawn cell, Medium the Medium rule's reply, Hard the bare minimax score of the board with O to move; the board is left unchanged |
| Session.Game.ComputerTurn | tictactoe.py:259-265 | on O's turn in a game in progress, Easy places on the first empty draw, Medium always places on the Medium rule's cell, and Hard's bare score is not a cell so nothing changes; a placement marks O, rechecks the outcome and hands the turn to X; the outcome stays settled and no line shows for both players |
| Scenarios.TopRowWins | tictactoe.py:70-81 | after X (0,0), O (1,1), X (0,1), O (1,0), X (0,2) the game is over with X the winner |
| Scenarios.DrawnGameIsDraw | tictactoe.py:70-81 | a full board with no line ends the game with no winner |
| Scenarios.CornersAndCentreIsWin | tictactoe.py:74-76 | a full board on which X holds a diagonal ends as X's win, not as a draw |
| Scenarios.MediumOpensInCentre | tictactoe.py:104-105 | on the empty board Medium takes the centre |
| Scenarios.MediumTakesFirstCorner | tictactoe.py:106-108 | with only the centre taken Medium takes the corner (0, 0) |

## Left out

- Rendering, fonts, the window and the menu screen (lines 1-29, 51-68, 176-209, 267-285) are display code with no game logic.
- The event dispatch is not modelled (lines 212-234, 245-251, 259-260). This covers the quit event, the menu keys that choose the mode and the difficulty, and the choice between restarting on a click after the game is over and placing a mark. The model offers `Restart`, `Click` and `ComputerTurn` as separate operations whose preconditions (`!gameOver`, X's or O's turn) state when the loop calls each one.
- The human's click in the computer mode (lines 252-258) is the same step as `Session.Game.Click` when it is X's turn. The code sets the turn to O there, which is `Other(X)`.
- Session.Game.Click: requires the pixel to lie inside the 600x600 window, because pygame reports only in-window positions; pixels outside it, which would index past the board or wrap to its far side, are not modelled.
- Opponent.EasyMove: `random.randint` and the unbounded `while True` loop become a finite sequence of draws supplied by the caller. When every draw names a taken cell the reply is NoReply, where the program would keep drawing.
- The fallback branch for an unknown difficulty (lines 117-119) cannot be reached with the three levels, and the difficulty prompt strings (lines 44-48) are display text.
- The Hard level never losing is not proved: the program's Hard level returns a score and never places a mark, so no game is ever played by it.
