# 4x4 tic-tac-toe against the computer: a verified model

This project models the game logic of `app/script.js`: a 4x4 board of
sixteen cells, ten winning lines (four rows, four columns, two diagonals),
the human playing X against a computer that answers with O on a randomly
chosen empty cell, a ten-second countdown for each of the human's turns,
and three score counters (player, computer, draw).

It has three modules:

- `Board` (`Board.dfy`) holds the pure board logic: the cell values, the
  winning-line table, the win test (`checkWin`), the "live line" draw test
  (`hasWinningPossibility`) and the list of empty cells with the random
  pick (`getRandomMove`). It also proves facts about them: the pick lands
  only on empty cells and can land on any of them, a new winning line
  always belongs to the mover and passes through the cell just played, and
  a draw can be declared with half the board still empty.
- `Rules` (`Rules.dfy`) holds the turn controller as pure transitions on a
  `State` value that mirrors the script's global variables: the click guard,
  `playerMove`, `computerMove`, `endGame`, `startTimer`, one tick of the
  countdown interval and `resetGame`. It also puts these together as a
  transition system driven by page events. The script as written has two
  defects, listed under Findings. The corrected system keeps an invariant
  over every run (X and O alternate, X first; a live game has no win and
  has a live line; exactly one computer reply is queued during O's turn),
  and every finished game moves exactly one score counter, the right one.
  The scoring property is also proved for the game as written, under a
  weaker invariant that the script keeps: a live game has no win and has a
  live line.
- `Game` (`Game.dfy`) holds the class `TicTacToe`. Its fields are the
  script's globals, and the board is an `array<Cell>` updated in place.
  Each method is proved to leave the object in exactly the state the
  matching `Rules` function gives. The scans over the board are loops with
  invariants, proved equal to the `Board` predicates.

The environment becomes explicit inputs:

- `Math.random()` becomes a parameter `rnd` with `0 <= rnd < 1`, and the
  move is `floor(rnd * n)`, as in the script.
- `setTimeout(computerMove, 100)` increments the counter
  `pendingComputerMoves`. The environment later fires the callback by
  calling `ComputerMove`, which consumes one queued callback.
- `setInterval` becomes the flag `timerRunning`. Each one-second firing is
  a call of `Tick`, and `clearInterval` clears the flag.
- `parseInt` of a cell's `data-index` becomes a `ParsedIndex`: a number or
  `NaN`. A NaN or off-board index reads `undefined` from the board array.
  That is not `''`, so the click is ignored.
- The scores read from cookies at start-up are constructor parameters.

Where the game's intended design and the code part ways, the model
follows the code:

- The board is always 16 cells.
- `difficulty` is never read, so the computer always plays the random move.
- Draws use only the live-line rule. No board-full test is involved.
- `resetScore`, `loadScoresFromCookies`, `updateScoreDisplay` and
  `handleDifficultyChange` are referenced but not defined in `app/script.js`.
  Those functions are not part of this model.
- A reset does not cancel a queued computer move (see Findings).

## Model

| member | source | states |
|---|---|---|
| Board.Blank | app/script.js:2 | the initial board is sixteen cells, all empty |
| Board.EmptyBoardHasNoMarks | app/script.js:273 | the board a new game starts from has 16 cells, no X, no O and an empty cell |
| Board.EmptyCellsBelow | app/script.js:245-250 | the collected indices are exactly the empty cells below the bound, in increasing board order, each empty |
| Board.Pick | app/script.js:254 | `Math.floor(Math.random() * n)` is a valid position among `n` candidates |
| Board.RandomMove | app/script.js:244-255 | `getRandomMove` returns -1 exactly when no cell is empty, and otherwise returns an empty cell of the board |
| Board.RandomMoveReachesEveryEmptyCell | app/script.js:244-255 | every empty cell is chosen by some random draw, so no empty cell is out of the computer's reach |
| Board.CountAfterPlace | app/script.js:71 | writing a mark on an empty cell adds exactly one of that mark and leaves the opponent's count unchanged |
| Board.NoWinWithOneMark | app/script.js:120-134 | a board with at most one marked cell has no winning line |
| Board.OneSidedBoardIsLive | app/script.js:222-234 | while one side has no mark on the board, some line is still open, so no draw is declared |
| Board.BlockedNeedsFourOfEach | app/script.js:222-234 | a draw by the live-line rule needs at least four X and four O on the board |
| Board.LiveBoardHasEmptyCell | app/script.js:222-234 | a board with no win and a live line has an empty cell, so the computer always finds a move during a live game |
| Board.WinnerIsMover | app/script.js:120-134 | after one mark on a board without a win, every winning line passes through the cell just played and belongs to the mover |
| Board.DrawBeforeBoardIsFull | app/script.js:222-234 | the draw rule can fire with 8 empty cells, equal X and O counts and no winner |
| Rules.EndGame | app/script.js:137-153 | `endGame` deactivates the game, clears the countdown, and moves exactly one score counter by one: the player's for 'X', the computer's for 'O', the draw counter otherwise |
| Rules.StartTimer | app/script.js:156-160 | `startTimer` resets the countdown to TIME_LIMIT and installs the interval, changing nothing else |
| Rules.PlayerMove | app/script.js:70-86 | `playerMove` writes X at the index only, then ends the game as an X win, or as a draw when no line is live, or hands the turn to O and queues one computer reply |
| Rules.ComputerMove | app/script.js:89-110 | a queued `computerMove` consumes itself; it does nothing else when the game is over or the board is full; otherwise it writes O on a previously empty cell and ends the game as an O win, or as a draw, or gives X the turn with a full countdown |
| Rules.Click | app/script.js:59-67 | `handleCellClick` changes the state exactly when the index is a board cell that is empty, the game is live and X is to move, and then acts as `playerMove` |
| Rules.Tick | app/script.js:161-175 | one interval firing counts down by one exactly when the interval is installed, X is to move and the game is live; at zero the interval is cleared and nothing else changes |
| Rules.TickForced | app/script.js:166-172 | the expiry as intended: a countdown that runs out on X's turn with an empty cell writes X on an empty cell and ends X's turn |
| Rules.ResetGame | app/script.js:272-285 | `resetGame` installs an empty board, X to move, a live game and a full countdown; scores and queued computer moves survive |
| Rules.ResetGameCancelling | app/script.js:272-285 | the reset as intended: the same new game with no computer move queued |
| Rules.Init | app/script.js:2-13 | the page starts on an empty board, X to move, a live game, the saved scores and a running full countdown, with nothing queued |
| Rules.EmptyBoardIsFresh | app/script.js:273 | the empty board has no marks, no win and a live line |
| Rules.InitSatisfiesInv | app/script.js:44-56 | the state at page load satisfies the game invariant |
| Rules.PlayerMoveKeepsInv | app/script.js:70-86 | X's move on an empty cell during X's turn keeps the invariant |
| Rules.ComputerMoveKeepsInv | app/script.js:89-110 | a queued computer reply keeps the invariant when it fires |
| Rules.TickForcedKeepsInv | app/script.js:161-175 | the countdown with its forced move keeps the invariant |
| Rules.NextFixedKeepsInv | app/script.js:59-110 | every page event of the corrected game keeps the invariant |
| Rules.RunFixedKeepsInv | app/script.js:44-56 | the invariant holds after any sequence of events from any state that satisfies it |
| Rules.FinishedGameIsFrozen | app/script.js:62 | after a game ends, no event except "new game" changes the board, the turn, the active flag or the scores |
| Rules.PlayerMoveScoresFairly | app/script.js:74-82 | in any live game without a win and with a live line (so also after the reset race), X's move raises the player's score only with an X line on the board, the draw score only when no line is live, and scores at most once |
| Rules.ComputerMoveScoresFairly | app/script.js:98-106 | in any state whose live game has no win and a live line (so also after the reset race), a queued reply raises the computer's score only with an O line on the board, the draw score only when no line is live, and scores at most once |
| Rules.TickForcedScoresFairly | app/script.js:166-172 | the forced timeout move scores fairly in the same sense |
| Rules.NextKeepsWF | app/script.js:59-110 | every event of the game as written keeps the weaker invariant: a live game has no win and has a live line |
| Rules.NextScoresFairly | app/script.js:137-153 | in the game as written, every event moves the total score by one exactly when it ends the game, and only the counter of the actual outcome |
| Rules.OneScorePerFinishedGame | app/script.js:137-153 | in the corrected game, every event moves the total score by one exactly when it ends the game, and only the counter of the actual outcome |
| Rules.ResetRaceLetsComputerMoveFirst | app/script.js:85 | as written, a click at cell 0 followed by "new game" before the reply lets the reply put an O on the fresh board with X to move, which breaks the invariant |
| Rules.FirstClickQueuesReply | app/script.js:84-85 | X's first move, on any cell of the empty board, writes X there, keeps the game live, gives O the turn and queues exactly one computer reply |
| Rules.ReplyOnEmptyBoard | app/script.js:89-110 | a queued reply that fires on an empty board during X's turn, for any draw, consumes itself, puts down one O and no X, and leaves X to move in a live game |
| Rules.OneMarkOnEmptyBoard | app/script.js:71 | a single mark on the empty board makes no win, leaves every line open and is counted once |
| Rules.TimeoutPlaysNoMove | app/script.js:166-172 | as written, the countdown reaching zero leaves the board, the turn and the game unchanged and stops the interval until X moves or a new game starts; further ticks change nothing |
| Rules.TimeoutForcesOneMove | app/script.js:166-172 | with the forced move, expiry on X's turn adds exactly one X on a previously empty cell, adds no O, and passes the turn to O with one reply queued |
| Game.TicTacToe.constructor | app/script.js:2-13 | the new object is the state `Rules.Init` gives, with a fresh board array |
| Game.TicTacToe.CheckWin | app/script.js:120-134 | the scan over the line table returns true exactly when some line holds four equal marks |
| Game.TicTacToe.HasWinningPossibility | app/script.js:222-234 | the scan returns true exactly when some line lacks an X or lacks an O |
| Game.TicTacToe.GetRandomMove | app/script.js:244-255 | the collected list and pick equal `Board.RandomMove` on the current board |
| Game.TicTacToe.HandleCellClick | app/script.js:59-67 | the object's new state is `Rules.Click` of its old state |
| Game.TicTacToe.PlayerMove | app/script.js:70-86 | the object's new state is `Rules.PlayerMove` of its old state |
| Game.TicTacToe.ComputerMove | app/script.js:89-110 | the object's new state is `Rules.ComputerMove` of its old state |
| Game.TicTacToe.EndGame | app/script.js:137-153 | the object's new state is `Rules.EndGame` of its old state |
| Game.TicTacToe.StartTimer | app/script.js:156-160 | the object's new state is `Rules.StartTimer` of its old state |
| Game.TicTacToe.Tick | app/script.js:161-175 | the object's new state is `Rules.Tick` of its old state |
| Game.TicTacToe.ResetGame | app/script.js:272-285 | the object holds a fresh board array and the state `Rules.ResetGame` gives |

## Left out

- Rendering is left out: `updateCell`, the status text, the winning-line highlight, `updateTimerDisplay` and `updateStatus` only touch the page.
- The helpers `loadScoresFromCookies`, `updateScoreDisplay`, `resetScore` and `handleDifficultyChange` are assumed to be defined by another script on the page. Without them, `init` would throw at app/script.js:46, before any listener or the countdown is installed, and no game would run at all. `Rules.Init` and the constructor rely on that assumption. The `makeMove` finding assumes the opposite of `makeMove`, which is why its confidence is only medium.
- Score persistence is left out. `loadScoresFromCookies`, `updateScoreDisplay` and `resetScore` are called but not defined in `app/script.js`. The saved scores are constructor parameters.
- `difficulty` and `handleDifficultyChange` are left out, because no function reads `difficulty`.
- `getMediumMove` is left out. Nothing calls it, and it calls `getBestMove`, which is commented out of `app/script.js`.
- `checkResult` and `resetTimer` are left out, because nothing calls them.
- Real time is left out. The 100 ms delay and the one-second period are not modelled; only the order of events is.
- The probability distribution of `Math.random()` is left out. The model proves which cells a draw can reach, not how likely each one is.
- Game.TicTacToe.Tick: the class implements the interval as written. The forced move exists only as `Rules.TickForced`, because as written it calls an undefined function.
- Game.TicTacToe.ResetGame: the class implements the reset as written. The cancelling reset exists only as `Rules.ResetGameCancelling`.
- Rules.Tick: the `ReferenceError` thrown by the call to `makeMove` is modelled as the handler ending at that point. Nothing had changed after the interval was cleared, so no later effect is lost.

## Findings

| source | as written | input that shows it | evidently intended | confidence | as-written member | corrected member |
|---|---|---|---|---|---|---|
| app/script.js:85, app/script.js:272-285 | `resetGame` does not cancel the `computerMove` that `playerMove` queued with `setTimeout` | click cell 0, then press "new game" within 100 ms; the queued reply puts an O on the fresh board and gives X the turn, so O leads by one mark | a new game cancels the queued reply and starts with X to move and no marks | high, not executed | Rules.ResetRaceLetsComputerMoveFirst | Rules.ResetGameCancelling |
| app/script.js:171 | on expiry the countdown calls `makeMove(randomIndex, 'X')`, which `app/script.js` does not define; the call throws, so no move is made and the cleared interval is not restarted for the rest of X's turn | X does nothing for ten seconds in a live game: the countdown reaches 0, stops, and X's turn goes on | the expiry plays X on the randomly chosen empty cell, as `playerMove` does | medium, not executed (another script on the page could define `makeMove`) | Rules.TimeoutPlaysNoMove | Rules.TimeoutForcesOneMove |
