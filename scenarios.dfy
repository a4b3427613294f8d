/**
 * The positions of the project's own test suite, and what the model says
 * about each of them.
 */
module Scenarios {
  import opened Wrappers
  import opened Board
  import opened Search
  import opened Render
  import opened Ttt

  const EMPTY_BOARD: seq<Cell> := [Empty, Empty, Empty, Empty, Empty, Empty, Empty, Empty, Empty]

  /** x x - / - - - / - o o: either side wins in one. */
  const TWO_THREATS: seq<Cell> := [X, X, Empty, Empty, Empty, Empty, Empty, O, O]

  /** o x o / o x - / x o x: no line can be completed, one cell left. */
  const BLOCKED_LIVE: seq<Cell> := [O, X, O, O, X, Empty, X, O, X]

  // ---------------------------------------------------------------------
  // Positions without search
  // ---------------------------------------------------------------------

  /** The initial position offers every cell, in order. */
  lemma EmptyBoardMoves()
    ensures PossibleMoves(EMPTY_BOARD) == [0, 1, 2, 3, 4, 5, 6, 7, 8]
  {
    EmptyFromAllEmpty(EMPTY_BOARD, 0);
  }

  /** In the initial position nobody has won, nothing is blocked and the game goes on. */
  lemma EmptyBoardOpen()
    ensures !Win(EMPTY_BOARD, X) && !Win(EMPTY_BOARD, O) && !Blocked(EMPTY_BOARD)
    ensures EvaluateLeaf(EMPTY_BOARD) == None && !End(EMPTY_BOARD)
  {
    WinExplicit(EMPTY_BOARD, X);
    WinExplicit(EMPTY_BOARD, O);
    BlockedIff(EMPTY_BOARD);
    assert !Touches(EMPTY_BOARD, 0, X);
    LiveLeafHasMoves(EMPTY_BOARD);
  }

  /** `Position.new.move(3)`: x in the middle of the left column. */
  const AFTER_THREE: seq<Cell> := [Empty, Empty, Empty, X, Empty, Empty, Empty, Empty, Empty]

  lemma AfterThreeTail()
    ensures EmptyFrom(AFTER_THREE, 3) == [4, 5, 6, 7, 8]
  {
    EmptyFromAllEmpty(AFTER_THREE, 4);
  }

  lemma AfterThreeFromZero()
    ensures EmptyFrom(AFTER_THREE, 0) == [0, 1, 2, 4, 5, 6, 7, 8]
  {
    AfterThreeTail();
    assert EmptyFrom(AFTER_THREE, 2) == [2] + [4, 5, 6, 7, 8];
    assert EmptyFrom(AFTER_THREE, 1) == [1] + ([2] + [4, 5, 6, 7, 8]);
    assert EmptyFrom(AFTER_THREE, 0) == [0] + ([1] + ([2] + [4, 5, 6, 7, 8]));
  }

  /** After the move at 3 every other cell is still a possible move. */
  lemma MovesAfterThree()
    ensures PossibleMoves(AFTER_THREE) == [0, 1, 2, 4, 5, 6, 7, 8]
  {
    AfterThreeFromZero();
  }

  /** On a board whose cells are their own indices, the lines are the index triples. */
  lemma LinesOfIndexBoard()
    ensures WinLines(seq(SIZE, k => k)) == LINES
  {
    var ls := WinLines(seq(SIZE, k => k));
    forall i | 0 <= i < |LINES|
      ensures ls[i] == LINES[i]
    {
      assert i == 0 || i == 1 || i == 2 || i == 3 || i == 4 || i == 5 || i == 6 || i == 7;
    }
  }

  /** x x x / - - - / - o o is a win for X; x x - / - - - / o o o is a win for O. */
  lemma WinBoards()
    ensures Win([X, X, X, Empty, Empty, Empty, Empty, O, O], X)
    ensures Win([X, X, Empty, Empty, Empty, Empty, O, O, O], O)
  {
    WinExplicit([X, X, X, Empty, Empty, Empty, Empty, O, O], X);
    WinExplicit([X, X, Empty, Empty, Empty, Empty, O, O, O], O);
  }

  /** x o x / o x x / o x o: full, nobody has a line, blocked, worth 0 and over. */
  lemma BlockedBoard()
    ensures var b := [X, O, X, O, X, X, O, X, O];
      !Win(b, X) && !Win(b, O) && Blocked(b) && EvaluateLeaf(b) == Some(0) && End(b)
  {
    var b := [X, O, X, O, X, X, O, X, O];
    WinExplicit(b, X);
    WinExplicit(b, O);
    BlockedExplicit(b);
    CountZero(b, Empty);
  }

  /** x - - / o x - / o - x is worth 100, o x - / o x - / o - x is worth -100. */
  lemma WonLeaves()
    ensures EvaluateLeaf([X, Empty, Empty, O, X, Empty, O, Empty, X]) == Some(100)
    ensures EvaluateLeaf([O, X, Empty, O, X, Empty, O, Empty, X]) == Some(-100)
  {
    WinExplicit([X, Empty, Empty, O, X, Empty, O, Empty, X], X);
    WinExplicit([O, X, Empty, O, X, Empty, O, Empty, X], X);
    WinExplicit([O, X, Empty, O, X, Empty, O, Empty, X], O);
  }

  /**
   * o x o / o x - / x o x is blocked and worth 0 although a cell is still
   * empty, so `end?` is false there: a leaf value does not mean the game is
   * over.
   */
  lemma LeafValueBeforeEnd()
    ensures EvaluateLeaf(BLOCKED_LIVE) == Some(0) && !End(BLOCKED_LIVE)
  {
    BlockedLiveLines();
    CountZero(BLOCKED_LIVE, Empty);
    assert BLOCKED_LIVE[5] == Empty;
  }

  /** Every line of o x o / o x - / x o x holds both pieces, and neither side has a line. */
  lemma BlockedLiveLines()
    ensures !Win(BLOCKED_LIVE, X) && !Win(BLOCKED_LIVE, O) && Blocked(BLOCKED_LIVE)
  {
    WinExplicit(BLOCKED_LIVE, X);
    WinExplicit(BLOCKED_LIVE, O);
    BlockedExplicit(BLOCKED_LIVE);
  }

  /** The three finished games of the test suite. */
  lemma EndedBoards()
    ensures End([Empty, Empty, X, Empty, Empty, X, O, O, X])
    ensures End([Empty, Empty, X, Empty, Empty, X, O, O, O])
    ensures End([X, O, X, X, O, X, O, X, O])
  {
    WinExplicit([Empty, Empty, X, Empty, Empty, X, O, O, X], X);
    WinExplicit([Empty, Empty, X, Empty, Empty, X, O, O, O], O);
    CountZero([X, O, X, X, O, X, O, X, O], Empty);
  }

  lemma BlankRow()
    ensures RowText([Empty, Empty, Empty]) == "   |   |   "
  {
    var cs := seq(3, k requires 0 <= k < 3 => [CellChar([Empty, Empty, Empty][k])]);
    assert cs == [" ", " ", " "];
    JoinThree(cs[0], cs[1], cs[2], " | ");
  }

  lemma MiddleRow()
    ensures RowText([X, O, Empty]) == " x | o |   "
  {
    var cs := seq(3, k requires 0 <= k < 3 => [CellChar([X, O, Empty][k])]);
    assert cs == ["x", "o", " "];
    JoinThree(cs[0], cs[1], cs[2], " | ");
  }

  /** `Position.new.move(3).move(4).to_s`, line by line. */
  lemma DrawnPosition()
    ensures ToString(EMPTY_BOARD[3 := X][4 := O])
      == "   |   |   " + "\n-----------\n" + " x | o |   " + "\n-----------\n" + "   |   |   " + "\n"
  {
    var b := EMPTY_BOARD[3 := X][4 := O];
    assert b[0..3] == [Empty, Empty, Empty] && b[3..6] == [X, O, Empty] && b[6..9] == [Empty, Empty, Empty];
    BlankRow();
    MiddleRow();
    ToStringRows(b);
  }

  /** x x - / x o o / x o o is already won by X, so the search returns 100. */
  lemma AlreadyWon()
    ensures MinimaxValue(Snapshot([X, X, Empty, X, O, O, X, O, O], X, [])) == 100
  {
    WinExplicit([X, X, Empty, X, O, O, X, O, O], X);
  }

  // ---------------------------------------------------------------------
  // x x - / - - - / - o o
  // ---------------------------------------------------------------------

  lemma TwoThreatsLive()
    ensures EvaluateLeaf(TWO_THREATS) == None
  {
    WinExplicit(TWO_THREATS, X);
    WinExplicit(TWO_THREATS, O);
    BlockedIff(TWO_THREATS);
    assert !Touches(TWO_THREATS, 1, X);
  }

  /** X completes the top row at 2, the lowest empty cell. */
  lemma TwoThreatsXWins()
    ensures Win(TWO_THREATS[2 := X], X)
    ensures forall c :: 0 <= c < 2 ==> TWO_THREATS[c] != Empty
  {
  }

  /** O completes the bottom row at 6; no lower empty cell completes a line for O. */
  lemma TwoThreatsOWins()
    ensures Win(TWO_THREATS[6 := O], O)
    ensures forall c :: 0 <= c < 6 && TWO_THREATS[c] == Empty ==> !Win(TWO_THREATS[c := O], O)
  {
    WinExplicit(TWO_THREATS[6 := O], O);
    WinExplicit(TWO_THREATS[2 := O], O);
    WinExplicit(TWO_THREATS[3 := O], O);
    WinExplicit(TWO_THREATS[4 := O], O);
    WinExplicit(TWO_THREATS[5 := O], O);
    forall c | 0 <= c < 6 && TWO_THREATS[c] == Empty
      ensures !Win(TWO_THREATS[c := O], O)
    {
      assert c == 2 || c == 3 || c == 4 || c == 5;
    }
  }

  /** Five cells are empty. */
  lemma TwoThreatsCount()
    ensures Count(TWO_THREATS, Empty) == 5
  {
  }

  // The four lemmas below are about one position each, but take it as a
  // parameter `s` pinned by their preconditions: a literal snapshot would let
  // the solver unfold the whole search from it.

  /** X to move on x x - / - - - / - o o, no moves made, wins in one: 100 less one ply. */
  lemma WinInOneForX(s: Snapshot)
    requires s.board == TWO_THREATS && s.turn == X && s.history == []
    ensures MinimaxValue(s) == 99
  {
    TwoThreatsLive();
    TwoThreatsCount();
    TwoThreatsXWins();
    WinInOneValue(s, 2);
  }

  /** The first best move for X there is 2. */
  lemma BestForX(s: Snapshot)
    requires s.board == TWO_THREATS && s.turn == X && s.history == []
    ensures var ms := PossibleMoves(s.board); |ms| > 0 && ms[BestIndex(X, ChildValues(s, ms))] == 2
  {
    TwoThreatsCount();
    TwoThreatsXWins();
    WinExplicit(TWO_THREATS, O);
    FirstWinIsBest(s, 2);
  }

  /** O to move on the same board wins in one the other way: -100 plus one ply. */
  lemma WinInOneForO(s: Snapshot)
    requires s.board == TWO_THREATS && s.turn == O && s.history == []
    ensures MinimaxValue(s) == -99
  {
    TwoThreatsLive();
    TwoThreatsCount();
    TwoThreatsOWins();
    WinInOneValue(s, 6);
  }

  /** The first best move for O there is 6. */
  lemma BestForO(s: Snapshot)
    requires s.board == TWO_THREATS && s.turn == O && s.history == []
    ensures var ms := PossibleMoves(s.board); |ms| > 0 && ms[BestIndex(O, ChildValues(s, ms))] == 6
  {
    TwoThreatsCount();
    TwoThreatsOWins();
    WinExplicit(TWO_THREATS, X);
    FirstWinIsBest(s, 6);
  }

  // ---------------------------------------------------------------------
  // The same positions, on the class
  // ---------------------------------------------------------------------

  /** `Position.new.move(0)` and `Position.new.move(1).unmove`. */
  method MoveAndUnmove() returns (moved: seq<Cell>, movedTurn: Side, undone: seq<Cell>, undoneTurn: Side, undoneMoves: seq<int>)
    ensures moved == EMPTY_BOARD[0 := X] && movedTurn == O
    ensures undone == EMPTY_BOARD && undoneTurn == X && undoneMoves == []
  {
    var p := new Position();
    p.Move(0);
    moved, movedTurn := p.board[..], p.turn;
    var q := new Position();
    q.Move(1);
    q.Unmove();
    undone, undoneTurn, undoneMoves := q.board[..], q.turn, q.movelist;
  }

  /** A fresh array holding x x - / - - - / - o o. */
  method TwoThreatsArray() returns (a: array<Cell>)
    ensures fresh(a) && a.Length == SIZE && a[..] == TWO_THREATS
  {
    a := new Cell[SIZE];
    a[0], a[1], a[2], a[3], a[4] := X, X, Empty, Empty, Empty;
    a[5], a[6], a[7], a[8] := Empty, Empty, O, O;
  }

  /** `minimax` and `best_move` for X on x x - / - - - / - o o. */
  method SearchForX() returns (value: int, best: Option<int>)
    ensures value == 99 && best == Some(2)
  {
    var a := TwoThreatsArray();
    var p := new Position.FromBoard(a, X);
    WinInOneForX(p.State());
    BestForX(p.State());
    value := p.Minimax(None);
    best := p.BestMove();
  }

  /** `minimax` and `best_move` for O on x x - / - - - / - o o. */
  method SearchForO() returns (value: int, best: Option<int>)
    ensures value == -99 && best == Some(6)
  {
    var a := TwoThreatsArray();
    var p := new Position.FromBoard(a, O);
    WinInOneForO(p.State());
    BestForO(p.State());
    value := p.Minimax(None);
    best := p.BestMove();
  }
}
