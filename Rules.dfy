/**
 * The turn controller as pure transitions on a snapshot of the game's
 * global state: the click guard, the two moves, ending a game, the
 * countdown and starting a new game.  The class in module Game performs
 * the same steps in place and is proved equal to these functions.
 *
 * The browser's timers become explicit state: `timerRunning` says whether
 * the one-second interval is installed, and `pendingComputerMoves` counts
 * the `computerMove` callbacks that `setTimeout` has queued and that have
 * not fired yet.
 */
module Rules {
  import opened Board

  /** `TIME_LIMIT`: seconds the human gets per turn. */
  const TimeLimit: int := 10

  /** The argument of `endGame`: 'X', 'O' or 'draw'. */
  datatype Outcome = XWon | OWon | Drawn

  /** `parseInt` of a cell's data-index attribute: a number, or NaN. */
  datatype ParsedIndex = Index(n: int) | NaN

  datatype State = State(
    board: seq<Cell>,
    currentPlayer: Cell,
    gameActive: bool,
    playerScore: nat,
    computerScore: nat,
    drawScore: nat,
    timeLeft: int,
    timerRunning: bool,
    pendingComputerMoves: nat)

  function TotalScore(s: State): nat
  {
    s.playerScore + s.computerScore + s.drawScore
  }

  predicate SameScores(s: State, t: State)
  {
    t.playerScore == s.playerScore && t.computerScore == s.computerScore && t.drawScore == s.drawScore
  }

  /** `t` is `s` after a finished game with `result` was recorded. */
  predicate Finished(s: State, t: State, result: Outcome)
  {
    && !t.gameActive && !t.timerRunning
    && t.playerScore == s.playerScore + (if result == XWon then 1 else 0)
    && t.computerScore == s.computerScore + (if result == OWon then 1 else 0)
    && t.drawScore == s.drawScore + (if result == Drawn then 1 else 0)
    && t.board == s.board && t.currentPlayer == s.currentPlayer
    && t.timeLeft == s.timeLeft && t.pendingComputerMoves == s.pendingComputerMoves
  }

  /**
   * `endGame(result)`: freezes the game, clears the countdown, and moves
   * exactly one score counter, the one matching `result`, by one.
   */
  function EndGame(s: State, result: Outcome): (t: State)
    ensures TotalScore(t) == TotalScore(s) + 1
    ensures t.playerScore != s.playerScore <==> result == XWon
    ensures t.computerScore != s.computerScore <==> result == OWon
    ensures t.drawScore != s.drawScore <==> result == Drawn
    ensures Finished(s, t, result)
  {
    var frozen := s.(gameActive := false, timerRunning := false);
    match result
    case XWon => frozen.(playerScore := s.playerScore + 1)
    case OWon => frozen.(computerScore := s.computerScore + 1)
    case Drawn => frozen.(drawScore := s.drawScore + 1)
  }

  /** `startTimer`: the countdown restarts from the full limit with a fresh interval. */
  function StartTimer(s: State): (t: State)
    ensures t.timeLeft == TimeLimit && t.timerRunning
    ensures t.board == s.board && t.currentPlayer == s.currentPlayer && t.gameActive == s.gameActive
    ensures SameScores(s, t) && t.pendingComputerMoves == s.pendingComputerMoves
  {
    s.(timeLeft := TimeLimit, timerRunning := true)
  }

  /**
   * `playerMove(index)`: writes X at `index` only, then ends the game as a
   * win for X, or as a draw when no line is live, or hands the turn to O
   * and queues the computer's reply.
   */
  function PlayerMove(s: State, i: Index): (t: State)
    requires |s.board| == Size
    ensures t.board == s.board[i := X]
    ensures CheckWin(t.board) ==> Finished(s.(board := t.board), t, XWon)
    ensures !CheckWin(t.board) && !HasWinningPossibility(t.board) ==> Finished(s.(board := t.board), t, Drawn)
    ensures !CheckWin(t.board) && HasWinningPossibility(t.board) ==>
      && t.gameActive == s.gameActive && t.currentPlayer == O && SameScores(s, t)
      && t.timeLeft == s.timeLeft && t.timerRunning == s.timerRunning
      && t.pendingComputerMoves == s.pendingComputerMoves + 1
  {
    var b := s.board[i := X];
    if CheckWin(b) then EndGame(s.(board := b), XWon)
    else if !HasWinningPossibility(b) then EndGame(s.(board := b), Drawn)
    else s.(board := b, currentPlayer := O, pendingComputerMoves := s.pendingComputerMoves + 1)
  }

  /**
   * One queued `computerMove` callback fires.  Nothing but the queue
   * changes when the game is over or no cell is empty; otherwise one O is
   * written on a previously empty cell and the game ends as an O win or a
   * draw, or the turn goes back to X with a full countdown.
   */
  function ComputerMove(s: State, rnd: real): (t: State)
    requires |s.board| == Size && 0.0 <= rnd < 1.0 && s.pendingComputerMoves > 0
    ensures t.pendingComputerMoves == s.pendingComputerMoves - 1
    ensures !s.gameActive || Empty !in s.board ==> t == s.(pendingComputerMoves := s.pendingComputerMoves - 1)
    ensures s.gameActive && Empty in s.board ==>
      exists i: Index :: s.board[i] == Empty && t.board == s.board[i := O]
    ensures s.gameActive && Empty in s.board ==>
      var fired := s.(board := t.board, pendingComputerMoves := s.pendingComputerMoves - 1);
      && (CheckWin(t.board) ==> Finished(fired, t, OWon))
      && (!CheckWin(t.board) && !HasWinningPossibility(t.board) ==> Finished(fired, t, Drawn))
      && (!CheckWin(t.board) && HasWinningPossibility(t.board) ==>
            t.gameActive && t.currentPlayer == X && SameScores(s, t)
            && t.timeLeft == TimeLimit && t.timerRunning)
  {
    var fired := s.(pendingComputerMoves := s.pendingComputerMoves - 1);
    if !fired.gameActive then fired
    else
      var move := RandomMove(fired.board, rnd);
      if move == -1 then fired
      else
        var b := fired.board[move := O];
        if CheckWin(b) then EndGame(fired.(board := b), OWon)
        else if !HasWinningPossibility(b) then EndGame(fired.(board := b), Drawn)
        else StartTimer(fired.(board := b, currentPlayer := X))
  }

  /** The guard of `handleCellClick`: an empty cell, a live game, and X to move. */
  predicate Accepts(s: State, idx: ParsedIndex)
  {
    && idx.Index? && 0 <= idx.n < |s.board| && s.board[idx.n] == Empty
    && s.gameActive && s.currentPlayer == X
  }

  /**
   * `handleCellClick`: an index that is NaN or off the board reads
   * `undefined`, which is not '', so such clicks are ignored like clicks
   * on a taken cell, on a finished game or during O's turn.
   */
  function Click(s: State, idx: ParsedIndex): (t: State)
    requires |s.board| == Size
    ensures t == s <==> !Accepts(s, idx)
    ensures Accepts(s, idx) ==> t == PlayerMove(s, idx.n)
  {
    if Accepts(s, idx) then PlayerMove(s, idx.n) else s
  }

  /**
   * One firing of the countdown interval.  It counts down only while the
   * interval is installed, X is to move and the game is live; reaching
   * zero uninstalls the interval.  The forced move that follows calls
   * `makeMove`, which app/script.js does not define, so no cell changes.
   */
  function Tick(s: State): (t: State)
    ensures t.board == s.board && t.currentPlayer == s.currentPlayer && t.gameActive == s.gameActive
    ensures SameScores(s, t) && t.pendingComputerMoves == s.pendingComputerMoves
    ensures t.timeLeft != s.timeLeft <==> s.timerRunning && s.currentPlayer == X && s.gameActive
    ensures t.timeLeft != s.timeLeft ==> t.timeLeft == s.timeLeft - 1 && (t.timerRunning <==> t.timeLeft > 0)
    ensures t.timeLeft == s.timeLeft ==> t.timerRunning == s.timerRunning
  {
    if s.timerRunning && s.currentPlayer == X && s.gameActive then
      var left := s.timeLeft - 1;
      if left <= 0 then s.(timeLeft := left, timerRunning := false)
      else s.(timeLeft := left)
    else s
  }

  /**
   * The countdown as evidently intended: on reaching zero, X is made to
   * play the randomly chosen empty cell, exactly as a click there would.
   */
  function TickForced(s: State, rnd: real): (t: State)
    requires |s.board| == Size && 0.0 <= rnd < 1.0
    ensures !(s.timerRunning && s.currentPlayer == X && s.gameActive) ==> t == s
    ensures s.timerRunning && s.currentPlayer == X && s.gameActive && s.timeLeft > 1 ==>
      t == s.(timeLeft := s.timeLeft - 1)
    ensures s.timerRunning && s.currentPlayer == X && s.gameActive && s.timeLeft <= 1 && Empty in s.board ==>
      && (exists i: Index :: s.board[i] == Empty && t.board == s.board[i := X])
      && (t.gameActive ==> t.currentPlayer == O)
    ensures s.timerRunning && s.currentPlayer == X && s.gameActive && s.timeLeft <= 1 && Empty !in s.board ==>
      t == s.(timeLeft := s.timeLeft - 1, timerRunning := false)
  {
    var ticked := Tick(s);
    if ticked.timeLeft != s.timeLeft && ticked.timeLeft <= 0 then
      var move := RandomMove(ticked.board, rnd);
      if move == -1 then ticked else PlayerMove(ticked, move)
    else ticked
  }

  /** `resetGame` as written: a new empty board, X to move, a full countdown; scores and queued callbacks survive. */
  function ResetGame(s: State): (t: State)
    ensures t.board == EmptyBoard && t.currentPlayer == X && t.gameActive
    ensures t.timeLeft == TimeLimit && t.timerRunning
    ensures SameScores(s, t) && t.pendingComputerMoves == s.pendingComputerMoves
  {
    State(EmptyBoard, X, true, s.playerScore, s.computerScore, s.drawScore, TimeLimit, true, s.pendingComputerMoves)
  }

  /** `resetGame` as evidently intended: it also cancels any queued `computerMove`. */
  function ResetGameCancelling(s: State): (t: State)
    ensures t == ResetGame(s).(pendingComputerMoves := 0)
    ensures t.board == EmptyBoard && t.currentPlayer == X && t.gameActive && SameScores(s, t)
  {
    State(EmptyBoard, X, true, s.playerScore, s.computerScore, s.drawScore, TimeLimit, true, 0)
  }

  /** The state after the page's `init`, with the scores the cookie store supplied. */
  function Init(savedPlayer: nat, savedComputer: nat, savedDraw: nat): (s: State)
    ensures s.board == EmptyBoard && s.currentPlayer == X && s.gameActive
    ensures s.playerScore == savedPlayer && s.computerScore == savedComputer && s.drawScore == savedDraw
    ensures s.timeLeft == TimeLimit && s.timerRunning && s.pendingComputerMoves == 0
  {
    State(EmptyBoard, X, true, savedPlayer, savedComputer, savedDraw, TimeLimit, true, 0)
  }

  // ---------------------------------------------------------------------
  // The game as a transition system driven by the page's events

  datatype Event =
    | CellClicked(index: ParsedIndex)
    | ComputerMoveDue(rnd: real)
    | TimerFired(rnd: real)
    | NewGameClicked

  /** Events that can occur: a queued callback fires only if one is queued; draws lie in [0, 1). */
  predicate Enabled(s: State, e: Event)
  {
    match e
    case ComputerMoveDue(rnd) => s.pendingComputerMoves > 0 && 0.0 <= rnd < 1.0
    case TimerFired(rnd) => 0.0 <= rnd < 1.0
    case _ => true
  }

  /** One event, handled as app/script.js handles it. */
  function Next(s: State, e: Event): State
    requires |s.board| == Size && Enabled(s, e)
  {
    match e
    case CellClicked(idx) => Click(s, idx)
    case ComputerMoveDue(rnd) => ComputerMove(s, rnd)
    case TimerFired(_) => Tick(s)
    case NewGameClicked => ResetGame(s)
  }

  /** One event, with the forced timeout move and a reset that cancels the queued reply. */
  function NextFixed(s: State, e: Event): State
    requires |s.board| == Size && Enabled(s, e)
  {
    match e
    case CellClicked(idx) => Click(s, idx)
    case ComputerMoveDue(rnd) => ComputerMove(s, rnd)
    case TimerFired(rnd) => TickForced(s, rnd)
    case NewGameClicked => ResetGameCancelling(s)
  }

  /**
   * What holds in every state the corrected game reaches: X and O
   * alternate with X first, a live game has no win and a live line, X's
   * turn has nothing queued, O's turn has exactly its one reply queued, and
   * a finished game has no countdown and nothing queued.
   */
  ghost predicate Inv(s: State)
  {
    && |s.board| == Size && s.currentPlayer != Empty
    && Count(s.board, O) <= Count(s.board, X) <= Count(s.board, O) + 1
    && (s.gameActive ==> !CheckWin(s.board) && HasWinningPossibility(s.board))
    && (s.gameActive && s.currentPlayer == X ==> Count(s.board, X) == Count(s.board, O) && s.pendingComputerMoves == 0)
    && (s.gameActive && s.currentPlayer == O ==> Count(s.board, X) == Count(s.board, O) + 1 && s.pendingComputerMoves == 1)
    && (!s.gameActive ==> s.pendingComputerMoves == 0 && !s.timerRunning)
  }

  lemma EmptyBoardIsFresh()
    ensures |EmptyBoard| == Size && Count(EmptyBoard, X) == 0 && Count(EmptyBoard, O) == 0
    ensures !CheckWin(EmptyBoard) && HasWinningPossibility(EmptyBoard)
  {
    EmptyBoardHasNoMarks();
    CountZeroIffAbsent(EmptyBoard, X);
    NoWinWithOneMark(EmptyBoard);
    OneSidedBoardIsLive(EmptyBoard);
  }

  lemma InitSatisfiesInv(savedPlayer: nat, savedComputer: nat, savedDraw: nat)
    ensures Inv(Init(savedPlayer, savedComputer, savedDraw))
  {
    EmptyBoardIsFresh();
  }

  /** X's move on an empty cell during X's turn keeps the invariant. */
  lemma PlayerMoveKeepsInv(s: State, i: Index)
    requires Inv(s) && s.gameActive && s.currentPlayer == X && s.board[i] == Empty
    ensures Inv(PlayerMove(s, i))
  {
    CountAfterPlace(s.board, i, X);
  }

  /** The computer's queued reply, when it fires, keeps the invariant. */
  lemma ComputerMoveKeepsInv(s: State, rnd: real)
    requires Inv(s) && s.pendingComputerMoves > 0 && 0.0 <= rnd < 1.0
    ensures Inv(ComputerMove(s, rnd))
  {
    assert s.gameActive && s.currentPlayer == O;
    LiveBoardHasEmptyCell(s.board);
    var t := ComputerMove(s, rnd);
    var i: Index :| s.board[i] == Empty && t.board == s.board[i := O];
    CountAfterPlace(s.board, i, O);
  }

  /** The countdown with its forced move keeps the invariant. */
  lemma TickForcedKeepsInv(s: State, rnd: real)
    requires Inv(s) && 0.0 <= rnd < 1.0
    ensures Inv(TickForced(s, rnd))
  {
    var ticked := Tick(s);
    if ticked.timeLeft != s.timeLeft && ticked.timeLeft <= 0 {
      LiveBoardHasEmptyCell(s.board);
      var move := RandomMove(ticked.board, rnd);
      assert Inv(ticked);
      PlayerMoveKeepsInv(ticked, move);
    }
  }

  /** Every event of the corrected game keeps the invariant. */
  lemma NextFixedKeepsInv(s: State, e: Event)
    requires Inv(s) && Enabled(s, e)
    ensures Inv(NextFixed(s, e))
  {
    match e
    case CellClicked(idx) =>
      if Accepts(s, idx) {
        PlayerMoveKeepsInv(s, idx.n);
      }
    case ComputerMoveDue(rnd) =>
      ComputerMoveKeepsInv(s, rnd);
    case TimerFired(rnd) =>
      TickForcedKeepsInv(s, rnd);
    case NewGameClicked =>
      EmptyBoardIsFresh();
  }

  /** Runs a sequence of events through the corrected game; an event that cannot occur is skipped. */
  function RunFixed(s: State, es: seq<Event>): State
    requires |s.board| == Size
    decreases |es|
  {
    if es == [] then s
    else
      var t := if Enabled(s, es[0]) then NextFixed(s, es[0]) else s;
      if |t.board| == Size then RunFixed(t, es[1..]) else t
  }

  /** The invariant holds after any run of the corrected game from any state that has it. */
  lemma {:induction false} RunFixedKeepsInv(s: State, es: seq<Event>)
    requires Inv(s)
    ensures Inv(RunFixed(s, es))
    decreases |es|
  {
    if es != [] {
      var t := if Enabled(s, es[0]) then NextFixed(s, es[0]) else s;
      if Enabled(s, es[0]) {
        NextFixedKeepsInv(s, es[0]);
      }
      RunFixedKeepsInv(t, es[1..]);
    }
  }

  /** Once a game is over, no event but "new game" changes the board, the turn or the scores. */
  lemma FinishedGameIsFrozen(s: State, e: Event)
    requires |s.board| == Size && !s.gameActive && Enabled(s, e) && !e.NewGameClicked?
    ensures Next(s, e).board == s.board && NextFixed(s, e).board == s.board
    ensures !Next(s, e).gameActive && !NextFixed(s, e).gameActive
    ensures Next(s, e).currentPlayer == s.currentPlayer && SameScores(s, Next(s, e))
    ensures NextFixed(s, e).currentPlayer == s.currentPlayer && SameScores(s, NextFixed(s, e))
  {
  }

  /** Some line of `b` is won by `m`. */
  predicate WonBy(b: seq<Cell>, m: Cell)
    requires |b| == Size
  {
    exists k :: 0 <= k < |WinningConditions| && LineWon(b, WinningConditions[k]) && b[WinningConditions[k].a] == m
  }

  /**
   * From `s` to `t` the scores moved only if a game ended, and then exactly
   * one counter moved by one: the winner's, whose four in a row is on the
   * board, or the draw counter when no line is live.
   */
  predicate ScoredFairly(s: State, t: State)
    requires |t.board| == Size
  {
    && TotalScore(t) == TotalScore(s) + (if s.gameActive && !t.gameActive then 1 else 0)
    && t.playerScore >= s.playerScore && t.computerScore >= s.computerScore && t.drawScore >= s.drawScore
    && (t.playerScore > s.playerScore ==> WonBy(t.board, X))
    && (t.computerScore > s.computerScore ==> WonBy(t.board, O))
    && (t.drawScore > s.drawScore ==> !CheckWin(t.board) && !HasWinningPossibility(t.board))
  }

  /**
   * The weaker invariant the script as written does keep: a live game has
   * no win and a live line.  (The reset race breaks the alternation in
   * Inv, but not this.)
   */
  ghost predicate WF(s: State)
  {
    |s.board| == Size && (s.gameActive ==> !CheckWin(s.board) && HasWinningPossibility(s.board))
  }

  lemma PlayerMoveScoresFairly(s: State, i: Index)
    requires WF(s) && s.gameActive && s.board[i] == Empty
    ensures ScoredFairly(s, PlayerMove(s, i))
  {
    WinnerIsMover(s.board, i, X);
  }

  lemma ComputerMoveScoresFairly(s: State, rnd: real)
    requires WF(s) && s.pendingComputerMoves > 0 && 0.0 <= rnd < 1.0
    ensures ScoredFairly(s, ComputerMove(s, rnd))
  {
    var t := ComputerMove(s, rnd);
    if s.gameActive {
      LiveBoardHasEmptyCell(s.board);
      var i: Index :| s.board[i] == Empty && t.board == s.board[i := O];
      var fired := s.(board := t.board, pendingComputerMoves := s.pendingComputerMoves - 1);
      if CheckWin(t.board) {
        assert Finished(fired, t, OWon);
        WinnerIsMover(s.board, i, O);
        var k :| 0 <= k < |WinningConditions| && LineWon(t.board, WinningConditions[k]);
        assert WonBy(t.board, O);
      } else if !HasWinningPossibility(t.board) {
        assert Finished(fired, t, Drawn);
      } else {
        assert t.gameActive && SameScores(s, t);
      }
    }
  }

  lemma TickForcedScoresFairly(s: State, rnd: real)
    requires WF(s) && 0.0 <= rnd < 1.0
    ensures ScoredFairly(s, TickForced(s, rnd))
  {
    var ticked := Tick(s);
    if ticked.timeLeft != s.timeLeft && ticked.timeLeft <= 0 {
      var move := RandomMove(ticked.board, rnd);
      if move != -1 {
        assert WF(ticked);
        PlayerMoveScoresFairly(ticked, move);
      }
    }
  }

  /** In the corrected game every event scores fairly: one counter per finished game, for the right side. */
  lemma OneScorePerFinishedGame(s: State, e: Event)
    requires WF(s) && Enabled(s, e)
    ensures ScoredFairly(s, NextFixed(s, e))
  {
    match e
    case CellClicked(idx) =>
      if Accepts(s, idx) {
        PlayerMoveScoresFairly(s, idx.n);
      }
    case ComputerMoveDue(rnd) =>
      ComputerMoveScoresFairly(s, rnd);
    case TimerFired(rnd) =>
      TickForcedScoresFairly(s, rnd);
    case NewGameClicked =>
  }

  /** Every event of the game as written keeps the weaker invariant WF. */
  lemma NextKeepsWF(s: State, e: Event)
    requires WF(s) && Enabled(s, e)
    ensures WF(Next(s, e))
  {
    if e.NewGameClicked? {
      EmptyBoardIsFresh();
    }
  }

  /**
   * The scores stay fair in the game as written too, reset race included:
   * every event moves the total by one exactly when it ends the game, and
   * only the counter of the actual outcome.
   */
  lemma NextScoresFairly(s: State, e: Event)
    requires WF(s) && Enabled(s, e)
    ensures ScoredFairly(s, Next(s, e))
  {
    match e
    case CellClicked(idx) =>
      if Accepts(s, idx) {
        PlayerMoveScoresFairly(s, idx.n);
      }
    case ComputerMoveDue(rnd) =>
      ComputerMoveScoresFairly(s, rnd);
    case TimerFired(_) =>
    case NewGameClicked =>
  }

  /**
   * As written, "new game" does not cancel the computer's queued reply:
   * X plays cell 0, the player starts a new game before the reply fires,
   * and the reply then puts an O on the fresh board and gives the turn to
   * X, so O is a mark ahead of X.
   */
  lemma ResetRaceLetsComputerMoveFirst()
    ensures var s0 := Init(0, 0, 0);
      var s1 := Next(s0, CellClicked(Index(0)));
      var s2 := Next(s1, NewGameClicked);
      Enabled(s2, ComputerMoveDue(0.0)) &&
      var s3 := Next(s2, ComputerMoveDue(0.0));
      && s3.gameActive && s3.currentPlayer == X
      && Count(s3.board, O) == 1 && Count(s3.board, X) == 0
      && !Inv(s3)
  {
    var s0 := Init(0, 0, 0);
    var s1 := Next(s0, CellClicked(Index(0)));
    FirstClickQueuesReply(s0, 0);
    var s2 := Next(s1, NewGameClicked);
    assert s2 == ResetGame(s1);
    assert s2.board == EmptyBoard && s2.gameActive && s2.currentPlayer == X && s2.pendingComputerMoves == 1;
    ReplyOnEmptyBoard(s2, 0.0);
  }

  /** X's first move, on any cell of the empty board, queues the computer's reply and keeps the game live. */
  lemma FirstClickQueuesReply(s: State, i: Index)
    requires s.board == EmptyBoard && s.gameActive && s.currentPlayer == X && s.pendingComputerMoves == 0
    ensures var t := Click(s, Index(i));
      t.pendingComputerMoves == 1 && t.gameActive && t.currentPlayer == O && t.board == EmptyBoard[i := X]
  {
    OneMarkOnEmptyBoard(i, X);
  }

  /** A reply firing on an empty board during X's turn puts an O down and leaves X to move. */
  lemma ReplyOnEmptyBoard(s: State, rnd: real)
    requires s.board == EmptyBoard && s.gameActive && s.currentPlayer == X && s.pendingComputerMoves > 0
    requires 0.0 <= rnd < 1.0
    ensures var t := ComputerMove(s, rnd);
      && t.gameActive && t.currentPlayer == X && t.pendingComputerMoves == s.pendingComputerMoves - 1
      && Count(t.board, O) == 1 && Count(t.board, X) == 0
  {
    EmptyBoardHasNoMarks();
    var t := ComputerMove(s, rnd);
    var i: Index :| EmptyBoard[i] == Empty && t.board == EmptyBoard[i := O];
    OneMarkOnEmptyBoard(i, O);
  }

  /** A single mark on the empty board: no win, every line live, one mark counted. */
  lemma OneMarkOnEmptyBoard(i: Index, m: Cell)
    requires m == X || m == O
    ensures var b := EmptyBoard[i := m];
      && |b| == Size && !CheckWin(b) && HasWinningPossibility(b)
      && Count(b, m) == 1 && Count(b, Opponent(m)) == 0
  {
    var b := EmptyBoard[i := m];
    EmptyBoardHasNoMarks();
    CountAfterPlace(EmptyBoard, i, m);
    CountZeroIffAbsent(b, Opponent(m));
    NoWinWithOneMark(b);
    OneSidedBoardIsLive(b);
  }

  /**
   * As written, the countdown reaching zero plays no move: X's turn goes
   * on with an empty cell available and the countdown stopped, so the
   * player can stall forever.
   */
  lemma TimeoutPlaysNoMove(s: State)
    requires |s.board| == Size && s.timerRunning && s.currentPlayer == X && s.gameActive && s.timeLeft == 1
    ensures var t := Tick(s);
      t.board == s.board && t.currentPlayer == X && t.gameActive && t.timeLeft == 0 && !t.timerRunning
      && Tick(t) == t
  {
  }

  /**
   * With the forced move, a countdown that reaches zero on X's turn fills
   * exactly one empty cell with X and ends X's turn.
   */
  lemma TimeoutForcesOneMove(s: State, rnd: real)
    requires Inv(s) && s.timerRunning && s.currentPlayer == X && s.gameActive && s.timeLeft == 1
    requires 0.0 <= rnd < 1.0
    ensures var t := TickForced(s, rnd);
      && (exists i: Index :: s.board[i] == Empty && t.board == s.board[i := X])
      && Count(t.board, X) == Count(s.board, X) + 1 && Count(t.board, O) == Count(s.board, O)
      && (t.gameActive ==> t.currentPlayer == O && t.pendingComputerMoves == 1)
  {
    LiveBoardHasEmptyCell(s.board);
    var t := TickForced(s, rnd);
    var i: Index :| s.board[i] == Empty && t.board == s.board[i := X];
    CountAfterPlace(s.board, i, X);
    NextFixedKeepsInv(s, TimerFired(rnd));
  }
}
