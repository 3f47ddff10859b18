/**
 * The game object: the board array and the global fields that
 * app/script.js updates in place.  Every method is proved to leave the
 * object in exactly the state the matching transition of module Rules
 * gives, so what is proved there holds of this object.
 *
 * Rendering, the status text, the cookie store and the browser's timers
 * are outside: a `setTimeout(computerMove, 100)` only bumps
 * `pendingComputerMoves`, the environment later calls `ComputerMove`, and
 * each firing of the one-second interval is a call of `Tick`.
 */
module Game {
  import opened Board
  import opened Rules

  class TicTacToe {
    var board: array<Cell>
    var currentPlayer: Cell
    var gameActive: bool
    var playerScore: nat
    var computerScore: nat
    var drawScore: nat
    var timeLeft: int
    /** The countdown interval is installed. */
    var timerRunning: bool
    /** `computerMove` callbacks queued by `setTimeout` that have not fired yet. */
    var pendingComputerMoves: nat

    ghost predicate Valid()
      reads this
    {
      board.Length == Size
    }

    /** The object's state as a value of Rules.State. */
    ghost function Snapshot(): State
      reads this, board
    {
      State(board[..], currentPlayer, gameActive, playerScore, computerScore, drawScore,
            timeLeft, timerRunning, pendingComputerMoves)
    }

    /** Page load: the initial globals, the scores the cookie store supplied, then `startTimer`. */
    constructor (savedPlayer: nat, savedComputer: nat, savedDraw: nat)
      ensures Valid() && fresh(board)
      ensures Snapshot() == Init(savedPlayer, savedComputer, savedDraw)
    {
      board := new Cell[Size](_ => Empty);
      currentPlayer := X;
      gameActive := true;
      playerScore, computerScore, drawScore := savedPlayer, savedComputer, savedDraw;
      timeLeft := TimeLimit;
      timerRunning := false;
      pendingComputerMoves := 0;
      new;
      StartTimer();
      assert board[..] == EmptyBoard;
    }

    /** `checkWin`: scans the table in order and stops at the first won line. */
    method CheckWin() returns (won: bool)
      requires Valid()
      ensures won == Board.CheckWin(board[..])
    {
      var i := 0;
      while i < |WinningConditions|
        invariant 0 <= i <= |WinningConditions|
        invariant forall j :: 0 <= j < i ==> !LineWon(board[..], WinningConditions[j])
      {
        var l := WinningConditions[i];
        if board[l.a] != Empty && board[l.a] == board[l.b] && board[l.a] == board[l.c] && board[l.a] == board[l.d] {
          assert LineWon(board[..], WinningConditions[i]);
          return true;
        }
        i := i + 1;
      }
      return false;
    }

    /** `hasWinningPossibility`: stops at the first line that lacks an X or lacks an O. */
    method HasWinningPossibility() returns (live: bool)
      requires Valid()
      ensures live == Board.HasWinningPossibility(board[..])
    {
      var i := 0;
      while i < |WinningConditions|
        invariant 0 <= i <= |WinningConditions|
        invariant forall j :: 0 <= j < i ==> Blocked(board[..], WinningConditions[j])
      {
        var l := WinningConditions[i];
        var cells := [board[l.a], board[l.b], board[l.c], board[l.d]];
        if X !in cells || O !in cells {
          assert cells == CellsOf(board[..], l);
          return true;
        }
        assert cells == CellsOf(board[..], l);
        i := i + 1;
      }
      return false;
    }

    /** `getRandomMove`: collects the empty indices in board order and picks one with the draw `rnd`. */
    method GetRandomMove(rnd: real) returns (move: int)
      requires Valid() && 0.0 <= rnd < 1.0
      ensures move == RandomMove(board[..], rnd)
    {
      var availableMoves: seq<nat> := [];
      var i := 0;
      while i < board.Length
        invariant 0 <= i <= board.Length
        invariant availableMoves == EmptyCellsBelow(board[..], i)
      {
        if board[i] == Empty {
          availableMoves := availableMoves + [i];
        }
        i := i + 1;
      }
      if |availableMoves| == 0 {
        return -1;
      }
      return availableMoves[Pick(rnd, |availableMoves|)];
    }

    /** `handleCellClick` on a cell whose data-index parsed to `cellIndex`. */
    method HandleCellClick(cellIndex: ParsedIndex)
      requires Valid()
      modifies this, board
      ensures Valid() && board == old(board)
      ensures Snapshot() == Click(old(Snapshot()), cellIndex)
    {
      var onEmptyCell := cellIndex.Index? && 0 <= cellIndex.n < board.Length && board[cellIndex.n] == Empty;
      if !onEmptyCell || !gameActive || currentPlayer != X {
        return;
      }
      PlayerMove(cellIndex.n);
    }

    /** `playerMove(index)`. */
    method PlayerMove(index: Index)
      requires Valid()
      modifies this, board
      ensures Valid() && board == old(board)
      ensures Snapshot() == Rules.PlayerMove(old(Snapshot()), index)
    {
      board[index] := X;
      assert board[..] == old(board[..])[index := X];
      var won := CheckWin();
      if won {
        EndGame(XWon);
        return;
      }
      var live := HasWinningPossibility();
      if !live {
        EndGame(Drawn);
        return;
      }
      currentPlayer := O;
      pendingComputerMoves := pendingComputerMoves + 1;
    }

    /** A queued `computerMove` fires, with `rnd` the value `Math.random()` returns. */
    method ComputerMove(rnd: real)
      requires Valid() && 0.0 <= rnd < 1.0 && pendingComputerMoves > 0
      modifies this, board
      ensures Valid() && board == old(board)
      ensures Snapshot() == Rules.ComputerMove(old(Snapshot()), rnd)
    {
      ghost var s := Snapshot();
      pendingComputerMoves := pendingComputerMoves - 1;
      ghost var fired := Snapshot();
      assert fired == s.(pendingComputerMoves := s.pendingComputerMoves - 1);
      if !gameActive {
        return;
      }
      var move := GetRandomMove(rnd);
      if move == -1 {
        return;
      }
      board[move] := O;
      ghost var b := board[..];
      assert b == fired.board[move := O];
      ghost var placed := fired.(board := b);
      assert Snapshot() == placed;
      var won := CheckWin();
      if won {
        EndGame(OWon);
        assert Snapshot() == Rules.EndGame(placed, OWon);
        return;
      }
      var live := HasWinningPossibility();
      if !live {
        EndGame(Drawn);
        assert Snapshot() == Rules.EndGame(placed, Drawn);
        return;
      }
      currentPlayer := X;
      StartTimer();
      assert Snapshot() == Rules.StartTimer(placed.(currentPlayer := X));
    }

    /** `endGame(result)`. */
    method EndGame(result: Outcome)
      requires Valid()
      modifies this
      ensures Valid() && board == old(board)
      ensures Snapshot() == Rules.EndGame(old(Snapshot()), result)
    {
      gameActive := false;
      timerRunning := false;
      match result
      case XWon => playerScore := playerScore + 1;
      case OWon => computerScore := computerScore + 1;
      case Drawn => drawScore := drawScore + 1;
    }

    /** `startTimer`: full countdown, the old interval cleared and a new one installed. */
    method StartTimer()
      requires Valid()
      modifies this
      ensures Valid() && board == old(board)
      ensures Snapshot() == Rules.StartTimer(old(Snapshot()))
    {
      timeLeft := TimeLimit;
      timerRunning := true;
    }

    /** One firing of the countdown interval, as written (the forced move calls an undefined function). */
    method Tick()
      requires Valid()
      modifies this
      ensures Valid() && board == old(board)
      ensures Snapshot() == Rules.Tick(old(Snapshot()))
    {
      if !timerRunning {
        return;
      }
      if currentPlayer == X && gameActive {
        timeLeft := timeLeft - 1;
        if timeLeft <= 0 {
          timerRunning := false;
        }
      }
    }

    /** `resetGame`: a fresh board array, X to move, the game live and the countdown restarted. */
    method ResetGame()
      modifies this
      ensures Valid() && fresh(board)
      ensures Snapshot() == Rules.ResetGame(old(Snapshot()))
    {
      board := new Cell[Size](_ => Empty);
      currentPlayer := X;
      gameActive := true;
      StartTimer();
      assert board[..] == EmptyBoard;
    }
  }
}
