/**
 * The game-tree search of class Position, on values: a snapshot of a
 * position, the move and undo transitions, and the value that `minimax`
 * computes by backtracking, defined by its recurrence.
 */
module Search {
  import opened Wrappers
  import opened Board

  /** A position: the nine cells, the side to move and the moves made on it so far. */
  datatype Snapshot = Snapshot(board: seq<Cell>, turn: Side, history: seq<int>)

  /** Nine cells, and every recorded move names one of them. */
  predicate WellFormed(s: Snapshot)
  {
    |s.board| == SIZE && forall k :: 0 <= k < |s.history| ==> 0 <= s.history[k] < SIZE
  }

  /**
   * `move(idx)` on an empty cell: the mover's piece lands on `idx`, the turn
   * passes and `idx` is pushed. One empty cell fewer remains.
   */
  function ApplyMove(s: Snapshot, idx: int): (r: Snapshot)
    requires WellFormed(s) && 0 <= idx < SIZE && s.board[idx] == Empty
    ensures WellFormed(r)
    ensures r.board[idx] == s.turn && r.turn != s.turn && r.history == s.history + [idx]
    ensures |r.board| == SIZE && forall k :: 0 <= k < SIZE && k != idx ==> r.board[k] == s.board[k]
    ensures Count(r.board, Empty) == Count(s.board, Empty) - 1
  {
    CountPlace(s.board, idx, s.turn);
    var r := Snapshot(s.board[idx := s.turn], Other(s.turn), s.history + [idx]);
    assert r.history[..|s.history|] == s.history;
    r
  }

  /**
   * `unmove`: pops the last move, clears its cell and passes the turn back.
   * The history must not be empty.
   */
  function UndoMove(s: Snapshot): (r: Snapshot)
    requires WellFormed(s) && |s.history| > 0
    ensures WellFormed(r)
    ensures r.history == s.history[..|s.history| - 1] && r.turn != s.turn
    ensures r.board[s.history[|s.history| - 1]] == Empty
    ensures |r.board| == SIZE &&
      forall k :: 0 <= k < SIZE && k != s.history[|s.history| - 1] ==> r.board[k] == s.board[k]
  {
    var last := s.history[|s.history| - 1];
    Snapshot(s.board[last := Empty], Other(s.turn), s.history[..|s.history| - 1])
  }

  /**
   * The ply adjustment of a child's score at a node whose history has
   * `plies` moves: X's node subtracts `plies + 1`, O's node adds it.
   */
  function Adjust(t: Side, plies: nat, v: int): int
  {
    if t == X then v - (plies + 1) else v + (plies + 1)
  }

  function Adjusted(t: Side, plies: nat, vs: seq<int>): seq<int>
  {
    seq(|vs|, k requires 0 <= k < |vs| => Adjust(t, plies, vs[k]))
  }

  /** `Array#max` of a non-empty sequence. */
  function Max(s: seq<int>): (m: int)
    requires |s| > 0
    ensures m in s
    ensures forall k :: 0 <= k < |s| ==> s[k] <= m
  {
    if |s| == 1 then s[0]
    else
      var rest := Max(s[1..]);
      if s[0] >= rest then s[0] else rest
  }

  /** `Array#min` of a non-empty sequence. */
  function Min(s: seq<int>): (m: int)
    requires |s| > 0
    ensures m in s
    ensures forall k :: 0 <= k < |s| ==> m <= s[k]
  {
    if |s| == 1 then s[0]
    else
      var rest := Min(s[1..]);
      if s[0] <= rest then s[0] else rest
  }

  /** Moves `ms` can all be made on `s`. */
  predicate Playable(s: Snapshot, ms: seq<int>)
    requires WellFormed(s)
  {
    forall k :: 0 <= k < |ms| ==> 0 <= ms[k] < SIZE && s.board[ms[k]] == Empty
  }

  /**
   * The value of `minimax` at position `s` (the trial move, if any, already
   * made): the leaf value when there is one; otherwise the largest (X to
   * move) or smallest (O to move) of the children's values, each adjusted by
   * the length of this node's history plus one.
   */
  function MinimaxValue(s: Snapshot): int
    requires WellFormed(s)
    decreases Count(s.board, Empty), 1
  {
    match EvaluateLeaf(s.board)
    case Some(v) => v
    case None =>
      LiveLeafHasMoves(s.board);
      var scores := Adjusted(s.turn, |s.history|, ChildValues(s, PossibleMoves(s.board)));
      if s.turn == X then Max(scores) else Min(scores)
  }

  /** `minimax(c)` for each move `c` of `ms`: the value after that trial move. */
  function ChildValues(s: Snapshot, ms: seq<int>): (vs: seq<int>)
    requires WellFormed(s) && Playable(s, ms)
    ensures |vs| == |ms|
    decreases Count(s.board, Empty), 0, |ms|
  {
    if ms == [] then []
    else
      var init := ms[..|ms| - 1];
      assert forall k :: 0 <= k < |init| ==> init[k] == ms[k];
      ChildValues(s, init) + [MinimaxValue(ApplyMove(s, ms[|ms| - 1]))]
  }

  /** Entry `k` of `ChildValues(s, ms)` is the value after the trial move `ms[k]`. */
  lemma {:induction false} ChildValuesAt(s: Snapshot, ms: seq<int>, k: nat)
    requires WellFormed(s) && Playable(s, ms) && k < |ms|
    ensures ChildValues(s, ms)[k] == MinimaxValue(ApplyMove(s, ms[k]))
    decreases |ms|
  {
    var init := ms[..|ms| - 1];
    if k < |init| {
      ChildValuesAt(s, init, k);
    }
  }

  /** `a` is strictly preferable to `b` for side `t`: larger for X, smaller for O. */
  predicate Better(t: Side, a: int, b: int)
  {
    if t == X then a > b else a < b
  }

  /**
   * `max_by` (X) or `min_by` (O) on positions: the index of the first
   * extremum of `vs` for side `t`. Nothing is better than it, and everything
   * before it is worse.
   */
  function BestIndex(t: Side, vs: seq<int>): (j: nat)
    requires |vs| > 0
    ensures j < |vs|
    ensures forall k :: 0 <= k < |vs| ==> !Better(t, vs[k], vs[j])
    ensures forall k :: 0 <= k < j ==> Better(t, vs[j], vs[k])
    decreases |vs|
  {
    if |vs| == 1 then 0
    else
      var i := BestIndex(t, vs[..|vs| - 1]);
      if Better(t, vs[|vs| - 1], vs[i]) then |vs| - 1 else i
  }

  /**
   * The first extremum is unique: an index that nothing beats and that beats
   * everything before it is the one `BestIndex` picks.
   */
  lemma BestIndexUnique(t: Side, vs: seq<int>, i: nat)
    requires i < |vs|
    requires forall k :: 0 <= k < |vs| ==> !Better(t, vs[k], vs[i])
    requires forall k :: 0 <= k < i ==> Better(t, vs[i], vs[k])
    ensures BestIndex(t, vs) == i
  {
    var j := BestIndex(t, vs);
    assert !Better(t, vs[i], vs[j]) && !Better(t, vs[j], vs[i]);
  }

  /** Any sequence that agrees with the children's values move by move is `ChildValues`. */
  lemma ChildValuesPointwise(s: Snapshot, ms: seq<int>, vs: seq<int>)
    requires WellFormed(s) && Playable(s, ms) && |vs| == |ms|
    requires forall i :: 0 <= i < |ms| ==> vs[i] == MinimaxValue(ApplyMove(s, ms[i]))
    ensures vs == ChildValues(s, ms)
  {
    forall k | 0 <= k < |ms| ensures vs[k] == ChildValues(s, ms)[k] {
      ChildValuesAt(s, ms, k);
    }
  }

  /**
   * Away from a leaf, the minimax value is the largest (X) or smallest (O)
   * of any list holding, for each possible move in order, the child's value
   * with the ply adjustment applied.
   */
  lemma NodeValue(s: Snapshot, scores: seq<int>)
    requires WellFormed(s) && EvaluateLeaf(s.board) == None
    requires |scores| == |PossibleMoves(s.board)| > 0
    requires forall i :: 0 <= i < |scores| ==>
      scores[i] == Adjust(s.turn, |s.history|, MinimaxValue(ApplyMove(s, PossibleMoves(s.board)[i])))
    ensures MinimaxValue(s) == if s.turn == X then Max(scores) else Min(scores)
  {
    var ms := PossibleMoves(s.board);
    var adjusted := Adjusted(s.turn, |s.history|, ChildValues(s, ms));
    assert MinimaxValue(s) == if s.turn == X then Max(adjusted) else Min(adjusted);
    forall k | 0 <= k < |ms| ensures scores[k] == adjusted[k] {
      ChildValuesAt(s, ms, k);
    }
    assert scores == adjusted;
  }

  /** A trial move followed by its undo leaves the position exactly as it was. */
  lemma UndoAfterMove(s: Snapshot, idx: int)
    requires WellFormed(s) && 0 <= idx < SIZE && s.board[idx] == Empty
    ensures UndoMove(ApplyMove(s, idx)) == s
  {
  }

  /** At a leaf, minimax returns the leaf value itself. */
  lemma LeafValue(s: Snapshot)
    requires WellFormed(s) && EvaluateLeaf(s.board).Some?
    ensures MinimaxValue(s) == EvaluateLeaf(s.board).value
  {
  }

  /**
   * Away from a leaf, X's minimax value is attained by some move and is at
   * least every move's adjusted value; O's likewise with "at most".
   */
  lemma Recurrence(s: Snapshot)
    requires WellFormed(s) && EvaluateLeaf(s.board).None?
    ensures var ms := PossibleMoves(s.board);
      |ms| > 0 &&
      (exists k :: 0 <= k < |ms| &&
         MinimaxValue(s) == Adjust(s.turn, |s.history|, MinimaxValue(ApplyMove(s, ms[k])))) &&
      (forall k :: 0 <= k < |ms| ==>
         if s.turn == X
         then Adjust(s.turn, |s.history|, MinimaxValue(ApplyMove(s, ms[k]))) <= MinimaxValue(s)
         else MinimaxValue(s) <= Adjust(s.turn, |s.history|, MinimaxValue(ApplyMove(s, ms[k]))))
  {
    LiveLeafHasMoves(s.board);
    var ms := PossibleMoves(s.board);
    var vs := ChildValues(s, ms);
    var scores := Adjusted(s.turn, |s.history|, vs);
    var v := MinimaxValue(s);
    assert v == if s.turn == X then Max(scores) else Min(scores);
    var k :| 0 <= k < |scores| && scores[k] == v;
    ChildValuesAt(s, ms, k);
    assert scores[k] == Adjust(s.turn, |s.history|, vs[k]);
    forall k | 0 <= k < |ms|
      ensures if s.turn == X
         then Adjust(s.turn, |s.history|, MinimaxValue(ApplyMove(s, ms[k]))) <= v
         else v <= Adjust(s.turn, |s.history|, MinimaxValue(ApplyMove(s, ms[k])))
    {
      ChildValuesAt(s, ms, k);
      assert scores[k] == Adjust(s.turn, |s.history|, vs[k]);
    }
  }

  /** A move by one side never completes a line for the other. */
  lemma MoveKeepsLineless(s: Snapshot, idx: int, p: Side)
    requires WellFormed(s) && 0 <= idx < SIZE && s.board[idx] == Empty
    requires s.turn != p && !Win(s.board, p)
    ensures !Win(ApplyMove(s, idx).board, p)
  {
    var after := ApplyMove(s, idx).board;
    WinIff(s.board, p);
    WinIff(after, p);
    if Win(after, p) {
      var i :| 0 <= i < |LINES| && Completes(after, i, p);
      assert LINES[i][0] != idx && LINES[i][1] != idx && LINES[i][2] != idx;
      assert Completes(s.board, i, p);
    }
  }

  /** A leaf value is 100, -100 or 0. */
  lemma LeafRange(b: seq<Cell>)
    requires |b| == SIZE && EvaluateLeaf(b).Some?
    ensures EvaluateLeaf(b).value in {100, -100, 0}
    ensures !Win(b, X) ==> EvaluateLeaf(b).value <= 0
    ensures !Win(b, O) ==> EvaluateLeaf(b).value >= 0
  {
  }

  /**
   * No minimax value exceeds 100. Once X has to move without a line of its
   * own, the best X can get is 99 less the plies already played: every win
   * found by searching loses one point per ply of the path to it. With O to
   * move and no X line, the value is at most 99.
   */
  lemma {:induction false} ValueUpperBound(s: Snapshot)
    requires WellFormed(s) && |s.history| + Count(s.board, Empty) <= SIZE
    ensures MinimaxValue(s) <= 100
    ensures s.turn == X && !Win(s.board, X) ==> MinimaxValue(s) <= 99 - |s.history|
    ensures s.turn == O && !Win(s.board, X) ==> MinimaxValue(s) <= 99
    decreases Count(s.board, Empty)
  {
    if EvaluateLeaf(s.board).Some? {
      LeafRange(s.board);
    } else {
      Recurrence(s);
      var ms := PossibleMoves(s.board);
      var h := |s.history|;
      if s.turn == X {
        var k :| 0 <= k < |ms| && MinimaxValue(s) == Adjust(X, h, MinimaxValue(ApplyMove(s, ms[k])));
        ValueUpperBound(ApplyMove(s, ms[k]));
      } else {
        var c := ApplyMove(s, ms[0]);
        MoveKeepsLineless(s, ms[0], X);
        ValueUpperBound(c);
        assert MinimaxValue(s) <= Adjust(O, h, MinimaxValue(c));
      }
    }
  }

  /**
   * No minimax value is below -100. Once O has to move without a line of its
   * own, the best O can get is -99 plus the plies already played. With X to
   * move and no O line, the value is at least -99.
   */
  lemma {:induction false} ValueLowerBound(s: Snapshot)
    requires WellFormed(s) && |s.history| + Count(s.board, Empty) <= SIZE
    ensures MinimaxValue(s) >= -100
    ensures s.turn == O && !Win(s.board, O) ==> MinimaxValue(s) >= -99 + |s.history|
    ensures s.turn == X && !Win(s.board, O) ==> MinimaxValue(s) >= -99
    decreases Count(s.board, Empty)
  {
    if EvaluateLeaf(s.board).Some? {
      LeafRange(s.board);
    } else {
      Recurrence(s);
      var ms := PossibleMoves(s.board);
      var h := |s.history|;
      if s.turn == O {
        var k :| 0 <= k < |ms| && MinimaxValue(s) == Adjust(O, h, MinimaxValue(ApplyMove(s, ms[k])));
        ValueLowerBound(ApplyMove(s, ms[k]));
      } else {
        var c := ApplyMove(s, ms[0]);
        MoveKeepsLineless(s, ms[0], O);
        ValueLowerBound(c);
        assert Adjust(X, h, MinimaxValue(c)) <= MinimaxValue(s);
      }
    }
  }

  /** What the bounds say about the value after one move, seen from the mover. */
  lemma ChildValueRange(s: Snapshot, idx: int)
    requires WellFormed(s) && |s.history| + Count(s.board, Empty) <= SIZE
    requires 0 <= idx < SIZE && s.board[idx] == Empty
    ensures var c := ApplyMove(s, idx);
      -100 <= MinimaxValue(c) <= 100 &&
      (s.turn == X && !Win(c.board, X) ==> MinimaxValue(c) <= 99) &&
      (s.turn == O && !Win(c.board, O) ==> MinimaxValue(c) >= -99) &&
      (s.turn == X && Win(c.board, X) ==> MinimaxValue(c) == 100) &&
      (s.turn == O && !Win(s.board, X) && Win(c.board, O) ==> MinimaxValue(c) == -100)
  {
    var c := ApplyMove(s, idx);
    ValueUpperBound(c);
    ValueLowerBound(c);
    if s.turn == O && !Win(s.board, X) {
      MoveKeepsLineless(s, idx, X);
    }
  }

  /**
   * A move that completes a line for the side to move is worth a full win
   * less one ply at this node: 99 less the plies played for X, -99 plus the
   * plies played for O.
   */
  lemma WinInOneValue(s: Snapshot, m: int)
    requires WellFormed(s) && |s.history| + Count(s.board, Empty) <= SIZE
    requires EvaluateLeaf(s.board) == None
    requires 0 <= m < SIZE && s.board[m] == Empty && Win(s.board[m := s.turn], s.turn)
    ensures MinimaxValue(s) == if s.turn == X then 99 - |s.history| else -99 + |s.history|
  {
    var ms := PossibleMoves(s.board);
    var h := |s.history|;
    PossibleMovesExact(s.board);
    var i :| 0 <= i < |ms| && ms[i] == m;
    Recurrence(s);
    ChildValueRange(s, m);
    var k :| 0 <= k < |ms| && MinimaxValue(s) == Adjust(s.turn, h, MinimaxValue(ApplyMove(s, ms[k])));
    ChildValueRange(s, ms[k]);
  }

  /**
   * `best_move` takes the lowest cell that completes a line for the side to
   * move, provided the other side has no line yet: no other move is worth
   * more and every lower one is worth less.
   */
  lemma FirstWinIsBest(s: Snapshot, m: int)
    requires WellFormed(s) && |s.history| + Count(s.board, Empty) <= SIZE
    requires !Win(s.board, Other(s.turn))
    requires 0 <= m < SIZE && s.board[m] == Empty && Win(s.board[m := s.turn], s.turn)
    requires forall c :: 0 <= c < m && s.board[c] == Empty ==> !Win(s.board[c := s.turn], s.turn)
    ensures |PossibleMoves(s.board)| > 0
    ensures PossibleMoves(s.board)[BestIndex(s.turn, ChildValues(s, PossibleMoves(s.board)))] == m
  {
    var ms := PossibleMoves(s.board);
    var vs := ChildValues(s, ms);
    PossibleMovesExact(s.board);
    var i :| 0 <= i < |ms| && ms[i] == m;
    ChildValuesAt(s, ms, i);
    ChildValueRange(s, m);
    forall k | 0 <= k < |vs|
      ensures !Better(s.turn, vs[k], vs[i])
      ensures k < i ==> Better(s.turn, vs[i], vs[k])
    {
      ChildValuesAt(s, ms, k);
      ChildValueRange(s, ms[k]);
    }
    BestIndexUnique(s.turn, vs, i);
  }
}
