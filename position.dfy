/**
 * Class Position: the board array, the side to move and the move stack,
 * changed in place by `move` and `unmove`, and the backtracking search that
 * makes and undoes trial moves on this one instance.
 */
module Ttt {
  import opened Wrappers
  import opened Board
  import opened Search

  class Position {
    const board: array<Cell>
    var turn: Side
    var movelist: seq<int>

    /** The position as a value. */
    function State(): Snapshot
      reads this, board
    {
      Snapshot(board[..], turn, movelist)
    }

    ghost predicate Valid()
      reads this, board
    {
      WellFormed(State())
    }

    /** `Position.new`: nine empty cells, X to move, no moves made. */
    constructor ()
      ensures Valid() && fresh(board)
      ensures State() == Snapshot(seq(SIZE, _ => Empty), X, [])
    {
      board := new Cell[SIZE](_ => Empty);
      turn := X;
      movelist := [];
    }

    /**
     * `Position.new(board, turn)`: the given array itself becomes the board;
     * the move stack starts empty whatever the board holds.
     */
    constructor FromBoard(b: array<Cell>, t: Side)
      requires b.Length == SIZE
      ensures Valid()
      ensures board == b && turn == t && movelist == []
    {
      board := b;
      turn := t;
      movelist := [];
    }

    /** `move(idx)` on an empty cell. */
    method Move(idx: int)
      requires Valid()
      requires 0 <= idx < SIZE && board[idx] == Empty
      modifies this, board
      ensures Valid()
      ensures State() == ApplyMove(old(State()), idx)
    {
      board[idx] := turn;
      turn := Other(turn);
      movelist := movelist + [idx];
    }

    /** `unmove`: only after at least one `move` on this instance. */
    method Unmove()
      requires Valid() && |movelist| > 0
      modifies this, board
      ensures Valid()
      ensures State() == UndoMove(old(State()))
    {
      var last := movelist[|movelist| - 1];
      movelist := movelist[..|movelist| - 1];
      board[last] := Empty;
      turn := Other(turn);
    }

    /**
     * `minimax(idx)`: makes the trial move `idx` if there is one, searches,
     * and undoes the trial move, so the position is left as it was found.
     * The result is the minimax value of the position after the trial move.
     * With a trial move, what happens between the move and its undo is what
     * `minimax` without one does on the new position, and this is how the
     * body below is arranged.
     */
    method Minimax(idx: Option<int>) returns (v: int)
      requires Valid()
      requires idx.Some? ==> 0 <= idx.value < SIZE && board[idx.value] == Empty
      modifies this, board
      ensures Valid() && State() == old(State())
      ensures v == MinimaxValue(if idx.Some? then ApplyMove(old(State()), idx.value) else old(State()))
      decreases Count(board[..], Empty), if idx.None? then 1 else 0
    {
      ghost var entry := State();
      if idx.Some? {
        Move(idx.value);
        v := Minimax(None);
        Unmove();
        UndoAfterMove(entry, idx.value);
        return;
      }
      var leaf := EvaluateLeaf(board[..]);
      if leaf.Some? {
        return leaf.value;
      }
      var moves := PossibleMoves(board[..]);
      LiveLeafHasMoves(board[..]);
      var scores := [];
      var k := 0;
      while k < |moves|
        invariant 0 <= k <= |moves|
        invariant Valid() && State() == entry
        invariant |scores| == k
        invariant forall i :: 0 <= i < k ==>
          scores[i] == Adjust(turn, |movelist|, MinimaxValue(ApplyMove(entry, moves[i])))
      {
        var c := Minimax(Some(moves[k]));
        scores := scores + [Adjust(turn, |movelist|, c)];
        k := k + 1;
      }
      NodeValue(entry, scores);
      v := if turn == X then Max(scores) else Min(scores);
    }

    /**
     * `best_move`: of the possible moves, the first whose trial value is the
     * largest (X to move) or the smallest (O to move); no move when the board
     * is full. The position is left as it was found. The trial values are
     * gathered first and the first extremum picked from them, which is what
     * `max_by` and `min_by` return.
     */
    method BestMove() returns (best: Option<int>)
      requires Valid()
      modifies this, board
      ensures Valid() && State() == old(State())
      ensures var ms := PossibleMoves(old(board[..]));
        if ms == [] then best == None
        else best == Some(ms[BestIndex(old(turn), ChildValues(old(State()), ms))])
      ensures best.Some? ==> 0 <= best.value < SIZE && old(board[best.value]) == Empty
    {
      ghost var start := State();
      var moves := PossibleMoves(board[..]);
      if moves == [] {
        return None;
      }
      var values := [];
      var k := 0;
      while k < |moves|
        invariant 0 <= k <= |moves|
        invariant Valid() && State() == start
        invariant |values| == k
        invariant forall i :: 0 <= i < k ==> values[i] == MinimaxValue(ApplyMove(start, moves[i]))
      {
        var v := Minimax(Some(moves[k]));
        values := values + [v];
        k := k + 1;
      }
      ChildValuesPointwise(start, moves, values);
      best := Some(moves[BestIndex(turn, values)]);
    }
  }
}
