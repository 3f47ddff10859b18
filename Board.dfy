/**
 * The 4x4 board of the game: sixteen cells, the fixed table of ten
 * winning lines, and the read-only scans the game runs over the board
 * (the win test, the "live line" draw test and the list of empty cells
 * the computer picks from).
 */
module Board {

  /** A cell holds '' (Empty), 'X' (the human) or 'O' (the computer). */
  datatype Cell = Empty | X | O

  /** The board always has 16 cells. */
  const Size: nat := 16

  type Index = i: nat | i < Size

  /** Four cell indices, read as `const [a, b, c, d] = condition`. */
  datatype Quad = Quad(a: nat, b: nat, c: nat, d: nat)

  /** A winning line: four distinct cells of the board, in increasing order. */
  type Line = q: Quad | q.a < q.b < q.c < q.d < Size witness Quad(0, 1, 2, 3)

  /** The winning-line table: 4 rows, then 4 columns, then the 2 diagonals. */
  const WinningConditions: seq<Line> := [
    Quad(0, 1, 2, 3), Quad(4, 5, 6, 7), Quad(8, 9, 10, 11), Quad(12, 13, 14, 15),
    Quad(0, 4, 8, 12), Quad(1, 5, 9, 13), Quad(2, 6, 10, 14), Quad(3, 7, 11, 15),
    Quad(0, 5, 10, 15), Quad(3, 6, 9, 12)
  ]

  /** `n` empty cells. */
  function Blank(n: nat): (r: seq<Cell>)
    ensures |r| == n && forall j :: 0 <= j < n ==> r[j] == Empty
  {
    if n == 0 then [] else Blank(n - 1) + [Empty]
  }

  /** `Array(16).fill('')`. */
  const EmptyBoard: seq<Cell> := Blank(Size)

  /** The four cells of line `l`, in the order the table lists them. */
  function CellsOf(b: seq<Cell>, l: Line): seq<Cell>
    requires |b| == Size
  {
    [b[l.a], b[l.b], b[l.c], b[l.d]]
  }

  predicate OnLine(i: nat, l: Line)
  {
    i == l.a || i == l.b || i == l.c || i == l.d
  }

  /** The line holds four equal, non-empty marks. */
  predicate LineWon(b: seq<Cell>, l: Line)
    requires |b| == Size
  {
    b[l.a] != Empty && b[l.a] == b[l.b] && b[l.a] == b[l.c] && b[l.a] == b[l.d]
  }

  /** Some line of the table is won (the value `checkWin` returns). */
  predicate CheckWin(b: seq<Cell>)
    requires |b| == Size
  {
    exists i :: 0 <= i < |WinningConditions| && LineWon(b, WinningConditions[i])
  }

  /** The line already holds both an X and an O, so nobody can complete it. */
  predicate Blocked(b: seq<Cell>, l: Line)
    requires |b| == Size
  {
    X in CellsOf(b, l) && O in CellsOf(b, l)
  }

  /**
   * Some line is still open for one side (the value `hasWinningPossibility`
   * returns); the game is declared a draw as soon as this is false.
   */
  predicate HasWinningPossibility(b: seq<Cell>)
    requires |b| == Size
  {
    exists i :: 0 <= i < |WinningConditions| && !Blocked(b, WinningConditions[i])
  }

  /** Number of cells holding `c`. */
  function Count(b: seq<Cell>, c: Cell): nat
  {
    if b == [] then 0 else (if b[0] == c then 1 else 0) + Count(b[1..], c)
  }

  /** A mark is absent exactly when its count is zero. */
  lemma {:induction false} CountZeroIffAbsent(b: seq<Cell>, c: Cell)
    ensures Count(b, c) == 0 <==> c !in b
  {
    if b != [] {
      CountZeroIffAbsent(b[1..], c);
      assert b == [b[0]] + b[1..];
    }
  }

  /** Counting distributes over concatenation. */
  lemma {:induction false} CountConcat(a: seq<Cell>, b: seq<Cell>, c: Cell)
    ensures Count(a + b, c) == Count(a, c) + Count(b, c)
  {
    if a == [] {
      assert a + b == b;
    } else {
      CountConcat(a[1..], b, c);
      assert (a + b)[1..] == a[1..] + b;
    }
  }

  function Indicator(x: Cell, c: Cell): nat
  {
    if x == c then 1 else 0
  }

  /** The count over four cells, written out. */
  lemma CountOfFour(w: Cell, x: Cell, y: Cell, z: Cell, c: Cell)
    ensures Count([w, x, y, z], c) == Indicator(w, c) + Indicator(x, c) + Indicator(y, c) + Indicator(z, c)
  {
    assert [z][1..] == [];
    assert Count([z], c) == Indicator(z, c);
    assert [y, z][1..] == [z];
    assert Count([y, z], c) == Indicator(y, c) + Count([z], c);
    assert [x, y, z][1..] == [y, z];
    assert Count([x, y, z], c) == Indicator(x, c) + Count([y, z], c);
    assert [w, x, y, z][1..] == [x, y, z];
  }

  function Opponent(m: Cell): Cell
  {
    match m
    case X => O
    case O => X
    case Empty => Empty
  }

  /**
   * The indices below `n` whose cell is empty, in increasing order: the
   * list `getRandomMove` builds by pushing each empty index in board order.
   */
  function EmptyCellsBelow(b: seq<Cell>, n: nat): (r: seq<nat>)
    requires n <= |b|
    ensures forall k: nat :: k in r <==> k < n && b[k] == Empty
    ensures forall p :: 0 <= p < |r| ==> r[p] < n && b[r[p]] == Empty
    ensures forall p, q :: 0 <= p < q < |r| ==> r[p] < r[q]
    decreases n
  {
    if n == 0 then []
    else
      var r := EmptyCellsBelow(b, n - 1);
      if b[n - 1] == Empty then r + [n - 1]
      else r
  }

  function EmptyCells(b: seq<Cell>): seq<nat>
    requires |b| == Size
  {
    EmptyCellsBelow(b, |b|)
  }

  /** `Math.floor(rnd * n)` for a draw `rnd` of `Math.random()` in [0, 1). */
  function Pick(rnd: real, n: nat): (k: nat)
    requires 0.0 <= rnd < 1.0 && n > 0
    ensures k < n
  {
    var x := rnd * n as real;
    assert 0.0 <= x < n as real by {
      assert n as real - x == (1.0 - rnd) * n as real;
    }
    x.Floor
  }

  /**
   * `getRandomMove`: -1 when no cell is empty, otherwise the empty cell at
   * position `floor(rnd * count)` of the empty-cell list.
   */
  function RandomMove(b: seq<Cell>, rnd: real): (r: int)
    requires |b| == Size && 0.0 <= rnd < 1.0
    ensures r == -1 <==> Empty !in b
    ensures r != -1 ==> 0 <= r < Size && b[r] == Empty
  {
    var moves := EmptyCells(b);
    if |moves| == 0 then
      -1
    else
      moves[Pick(rnd, |moves|)]
  }

  /** Every empty cell is the outcome of some draw: the choice can land anywhere empty. */
  lemma RandomMoveReachesEveryEmptyCell(b: seq<Cell>, k: Index)
    requires |b| == Size && b[k] == Empty
    ensures exists rnd: real :: 0.0 <= rnd < 1.0 && RandomMove(b, rnd) == k
  {
    var moves := EmptyCells(b);
    assert k in moves;
    var j :| 0 <= j < |moves| && moves[j] == k;
    var rnd := PickInverse(j, |moves|);
    assert RandomMove(b, rnd) == k;
  }

  /** The draw that makes `Pick` choose position `j` of `n`. */
  lemma PickInverse(j: nat, n: nat) returns (rnd: real)
    requires j < n
    ensures 0.0 <= rnd < 1.0 && Pick(rnd, n) == j
  {
    rnd := j as real / n as real;
    assert rnd * n as real == j as real;
  }

  /** Writing mark `m` on an empty cell adds one `m` and leaves the other mark's count alone. */
  lemma CountAfterPlace(b: seq<Cell>, i: nat, m: Cell)
    requires i < |b| && b[i] == Empty && m != Empty
    ensures Count(b[i := m], m) == Count(b, m) + 1
    ensures Count(b[i := m], Opponent(m)) == Count(b, Opponent(m))
  {
    var pre, post := b[..i], b[i + 1..];
    assert b == pre + [Empty] + post;
    assert b[i := m] == pre + [m] + post;
    assert [m][1..] == [] && [Empty][1..] == [];
    forall c | c == m || c == Opponent(m)
      ensures Count(b[i := m], c) == Count(b, c) + Indicator(m, c)
    {
      CountConcat(pre + [Empty], post, c);
      CountConcat(pre, [Empty], c);
      CountConcat(pre + [m], post, c);
      CountConcat(pre, [m], c);
    }
  }

  lemma EmptyBoardHasNoMarks()
    ensures |EmptyBoard| == Size
    ensures Count(EmptyBoard, X) == 0 && Count(EmptyBoard, O) == 0
    ensures Empty in EmptyBoard
  {
    assert EmptyBoard[0] == Empty;
    CountZeroIffAbsent(EmptyBoard, X);
    CountZeroIffAbsent(EmptyBoard, O);
  }

  /** A board with at most one mark has no winning line: a line needs four marked cells. */
  lemma NoWinWithOneMark(b: seq<Cell>)
    requires |b| == Size
    requires forall j, k :: 0 <= j < k < Size ==> b[j] == Empty || b[k] == Empty
    ensures !CheckWin(b)
  {
  }

  /** While one side has no mark at all, every line is still open (true on the empty board and after one move). */
  lemma OneSidedBoardIsLive(b: seq<Cell>)
    requires |b| == Size && (X !in b || O !in b)
    ensures HasWinningPossibility(b)
  {
    assert !Blocked(b, WinningConditions[0]);
  }

  /**
   * The draw test can fire only once each side has at least four marks:
   * the four rows are disjoint and each must hold an X and an O.
   */
  lemma BlockedNeedsFourOfEach(b: seq<Cell>)
    requires |b| == Size && !HasWinningPossibility(b)
    ensures Count(b, X) >= 4 && Count(b, O) >= 4
  {
    var w := WinningConditions;
    assert Blocked(b, w[0]) && Blocked(b, w[1]) && Blocked(b, w[2]) && Blocked(b, w[3]);
    RowsHoldingMark(b, X);
    RowsHoldingMark(b, O);
  }

  /** A mark present in each of the four (disjoint) rows occurs at least four times. */
  lemma RowsHoldingMark(b: seq<Cell>, c: Cell)
    requires |b| == Size
    requires c in CellsOf(b, WinningConditions[0]) && c in CellsOf(b, WinningConditions[1])
    requires c in CellsOf(b, WinningConditions[2]) && c in CellsOf(b, WinningConditions[3])
    ensures Count(b, c) >= 4
  {
    var r0, r1, r2, r3 := b[0..4], b[4..8], b[8..12], b[12..16];
    assert b == r0 + r1 + r2 + r3;
    CountConcat(r0 + r1 + r2, r3, c);
    CountConcat(r0 + r1, r2, c);
    CountConcat(r0, r1, c);
    assert r0 == CellsOf(b, WinningConditions[0]);
    assert r1 == CellsOf(b, WinningConditions[1]);
    assert r2 == CellsOf(b, WinningConditions[2]);
    assert r3 == CellsOf(b, WinningConditions[3]);
    CountZeroIffAbsent(r0, c);
    CountZeroIffAbsent(r1, c);
    CountZeroIffAbsent(r2, c);
    CountZeroIffAbsent(r3, c);
  }

  /** A full board without a win is always declared a draw, so a live board still has an empty cell. */
  lemma LiveBoardHasEmptyCell(b: seq<Cell>)
    requires |b| == Size && !CheckWin(b) && HasWinningPossibility(b)
    ensures Empty in b
  {
  }

  /**
   * Placing `m` on an empty cell of a board with no win can only create
   * lines won by `m` that pass through that cell: the mover is the winner.
   */
  lemma WinnerIsMover(b: seq<Cell>, i: Index, m: Cell)
    requires |b| == Size && b[i] == Empty && m != Empty && !CheckWin(b)
    ensures forall k :: 0 <= k < |WinningConditions| && LineWon(b[i := m], WinningConditions[k]) ==>
      OnLine(i, WinningConditions[k]) && b[i := m][WinningConditions[k].a] == m
  {
    var b' := b[i := m];
    forall k | 0 <= k < |WinningConditions| && LineWon(b', WinningConditions[k])
      ensures OnLine(i, WinningConditions[k]) && b'[WinningConditions[k].a] == m
    {
      var l := WinningConditions[k];
      assert !LineWon(b, l);
    }
  }

  /** A board on which the live-line rule declares a draw with half the cells still empty. */
  const EarlyDrawBoard: seq<Cell> :=
    [X, O, Empty, Empty] +
    [Empty, Empty, X, O] +
    [Empty, X, O, Empty] +
    [O, Empty, Empty, X]

  /** The draw can come before the board is full: 8 cells are empty, nobody has won, and every line is blocked. */
  lemma DrawBeforeBoardIsFull()
    ensures |EarlyDrawBoard| == Size
    ensures Count(EarlyDrawBoard, Empty) == 8 && Count(EarlyDrawBoard, X) == Count(EarlyDrawBoard, O)
    ensures !CheckWin(EarlyDrawBoard) && !HasWinningPossibility(EarlyDrawBoard)
  {
    EarlyDrawBoardCounts();
    var b := EarlyDrawBoard;
    var w := WinningConditions;
    assert Blocked(b, w[0]) && Blocked(b, w[1]) && Blocked(b, w[2]) && Blocked(b, w[3]) && Blocked(b, w[4]);
    assert Blocked(b, w[5]) && Blocked(b, w[6]) && Blocked(b, w[7]) && Blocked(b, w[8]) && Blocked(b, w[9]);
    forall i | 0 <= i < |w|
      ensures Blocked(b, w[i]) && !LineWon(b, w[i])
    {
      assert i == 0 || i == 1 || i == 2 || i == 3 || i == 4 || i == 5 || i == 6 || i == 7 || i == 8 || i == 9;
    }
  }

  lemma EarlyDrawBoardCounts()
    ensures |EarlyDrawBoard| == Size
    ensures Count(EarlyDrawBoard, Empty) == 8 && Count(EarlyDrawBoard, X) == 4 && Count(EarlyDrawBoard, O) == 4
  {
    var r0, r1, r2, r3 := [X, O, Empty, Empty], [Empty, Empty, X, O], [Empty, X, O, Empty], [O, Empty, Empty, X];
    CountOfRows(r0, r1, r2, r3, X);
    CountOfRows(r0, r1, r2, r3, O);
    CountOfRows(r0, r1, r2, r3, Empty);
  }

  lemma CountOfRows(r0: seq<Cell>, r1: seq<Cell>, r2: seq<Cell>, r3: seq<Cell>, c: Cell)
    requires |r0| == |r1| == |r2| == |r3| == 4
    ensures Count(r0 + r1 + r2 + r3, c)
         == Indicator(r0[0], c) + Indicator(r0[1], c) + Indicator(r0[2], c) + Indicator(r0[3], c)
          + Indicator(r1[0], c) + Indicator(r1[1], c) + Indicator(r1[2], c) + Indicator(r1[3], c)
          + Indicator(r2[0], c) + Indicator(r2[1], c) + Indicator(r2[2], c) + Indicator(r2[3], c)
          + Indicator(r3[0], c) + Indicator(r3[1], c) + Indicator(r3[2], c) + Indicator(r3[3], c)
  {
    CountOfFour(r0[0], r0[1], r0[2], r0[3], c);
    CountOfFour(r1[0], r1[1], r1[2], r1[3], c);
    CountOfFour(r2[0], r2[1], r2[2], r2[3], c);
    CountOfFour(r3[0], r3[1], r3[2], r3[3], c);
    CountConcat(r0 + r1 + r2, r3, c);
    CountConcat(r0 + r1, r2, c);
    CountConcat(r0, r1, c);
    assert r0 == [r0[0], r0[1], r0[2], r0[3]] && r1 == [r1[0], r1[1], r1[2], r1[3]];
    assert r2 == [r2[0], r2[1], r2[2], r2[3]] && r3 == [r3[0], r3[1], r3[2], r3[3]];
  }
}
