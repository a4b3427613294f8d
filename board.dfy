/**
 * The read-only half of class Position: everything that only looks at the
 * nine cells. A board is a row-major sequence of nine cells; cell `i` is at
 * row `i / 3`, column `i % 3`.
 */
module Board {
  import opened Wrappers

  /** A cell: `-`, `x` or `o`. */
  datatype Cell = Empty | X | O

  /** The side to move, or a piece: never Empty. */
  type Side = c: Cell | c != Empty witness X

  const DIM: nat := 3
  const SIZE: nat := DIM * DIM

  /** The eight lines of a 3x3 board, as index triples. */
  const LINES: seq<seq<int>> :=
    [[0, 1, 2], [3, 4, 5], [6, 7, 8],
     [0, 3, 6], [1, 4, 7], [2, 5, 8],
     [0, 4, 8],
     [2, 4, 6]]

  /** `other_turn`: the side that is not `t`. */
  function Other(t: Side): (r: Side)
    ensures r != t
  {
    if t == X then O else X
  }

  // ---------------------------------------------------------------------
  // Counting cells and listing the empty ones
  // ---------------------------------------------------------------------

  /** The number of cells of `b` equal to `c` (`Array#count`). */
  function Count(b: seq<Cell>, c: Cell): (n: nat)
    ensures n <= |b|
  {
    if b == [] then 0 else (if b[0] == c then 1 else 0) + Count(b[1..], c)
  }

  /** `Count` is the multiplicity of `c` among the cells. */
  lemma {:induction false} CountIsMultiplicity(b: seq<Cell>, c: Cell)
    ensures Count(b, c) == multiset(b)[c]
  {
    if b != [] {
      assert b == [b[0]] + b[1..];
      CountIsMultiplicity(b[1..], c);
    }
  }

  /** No cell equals `c` exactly when `c` is counted zero times. */
  lemma {:induction false} CountZero(b: seq<Cell>, c: Cell)
    ensures Count(b, c) == 0 <==> forall k :: 0 <= k < |b| ==> b[k] != c
  {
    if b != [] {
      CountZero(b[1..], c);
      assert forall k :: 1 <= k < |b| ==> b[k] == b[1..][k - 1];
    }
  }

  lemma {:induction false} CountConcat(a: seq<Cell>, b: seq<Cell>, c: Cell)
    ensures Count(a + b, c) == Count(a, c) + Count(b, c)
  {
    if a != [] {
      assert (a + b)[1..] == a[1..] + b;
      CountConcat(a[1..], b, c);
    } else {
      assert a + b == b;
    }
  }

  /** Writing a piece into an empty cell leaves one empty cell fewer. */
  lemma CountPlace(b: seq<Cell>, i: nat, p: Side)
    requires i < |b| && b[i] == Empty
    ensures Count(b[i := p], Empty) == Count(b, Empty) - 1
  {
    assert b == b[..i] + [b[i]] + b[i + 1..];
    assert b[i := p] == b[..i] + [p] + b[i + 1..];
    CountConcat(b[..i] + [b[i]], b[i + 1..], Empty);
    CountConcat(b[..i], [b[i]], Empty);
    CountConcat(b[..i] + [p], b[i + 1..], Empty);
    CountConcat(b[..i], [p], Empty);
  }

  /** Every cell is Empty, X or O. */
  lemma {:induction false} CountPartition(b: seq<Cell>)
    ensures Count(b, Empty) + Count(b, X) + Count(b, O) == |b|
  {
    if b != [] {
      CountPartition(b[1..]);
    }
  }

  /** The indices `>= i` of the empty cells of `b`, in ascending order. */
  function EmptyFrom(b: seq<Cell>, i: nat): (r: seq<nat>)
    requires i <= |b|
    ensures forall k :: 0 <= k < |r| ==> i <= r[k] < |b| && b[r[k]] == Empty
    decreases |b| - i
  {
    if i == |b| then [] else (if b[i] == Empty then [i] else []) + EmptyFrom(b, i + 1)
  }

  /** `EmptyFrom` lists as many indices as there are empty cells from `i` on. */
  lemma {:induction false} EmptyFromCount(b: seq<Cell>, i: nat)
    requires i <= |b|
    ensures |EmptyFrom(b, i)| == Count(b[i..], Empty)
    decreases |b| - i
  {
    if i < |b| {
      assert b[i..][1..] == b[i + 1..];
      EmptyFromCount(b, i + 1);
    }
  }

  /** `EmptyFrom` misses no empty cell at or after `i`. */
  lemma {:induction false} EmptyFromComplete(b: seq<Cell>, i: nat)
    requires i <= |b|
    ensures forall j :: i <= j < |b| && b[j] == Empty ==> j in EmptyFrom(b, i)
    decreases |b| - i
  {
    if i < |b| {
      EmptyFromComplete(b, i + 1);
      var rest := EmptyFrom(b, i + 1);
      var head: seq<nat> := if b[i] == Empty then [i] else [];
      assert EmptyFrom(b, i) == head + rest;
      forall j | i <= j < |b| && b[j] == Empty
        ensures j in head + rest
      {
        if j == i {
          assert (head + rest)[0] == i;
        } else {
          assert j in rest;
        }
      }
    }
  }

  /** Putting an index below all of an ascending list in front keeps it ascending. */
  lemma AscendingCons(i: nat, rest: seq<nat>)
    requires forall k :: 0 <= k < |rest| ==> i < rest[k]
    requires forall k, l :: 0 <= k < l < |rest| ==> rest[k] < rest[l]
    ensures forall k, l :: 0 <= k < l < |[i] + rest| ==> ([i] + rest)[k] < ([i] + rest)[l]
  {
    var r := [i] + rest;
    forall k, l | 0 <= k < l < |r|
      ensures r[k] < r[l]
    {
      assert r[l] == rest[l - 1];
      if k > 0 {
        assert r[k] == rest[k - 1];
      }
    }
  }

  /** `EmptyFrom` lists its indices strictly ascending. */
  lemma {:induction false} EmptyFromAscending(b: seq<Cell>, i: nat)
    requires i <= |b|
    ensures forall k, l :: 0 <= k < l < |EmptyFrom(b, i)| ==> EmptyFrom(b, i)[k] < EmptyFrom(b, i)[l]
    decreases |b| - i
  {
    if i < |b| {
      EmptyFromAscending(b, i + 1);
      var rest := EmptyFrom(b, i + 1);
      if b[i] == Empty {
        assert EmptyFrom(b, i) == [i] + rest;
        AscendingCons(i, rest);
      } else {
        assert EmptyFrom(b, i) == rest;
      }
    }
  }

  /** From an index on which every cell is empty, `EmptyFrom` lists every index. */
  lemma {:induction false} EmptyFromAllEmpty(b: seq<Cell>, i: nat)
    requires i <= |b|
    requires forall k :: i <= k < |b| ==> b[k] == Empty
    ensures EmptyFrom(b, i) == seq(|b| - i, k => i + k)
    decreases |b| - i
  {
    if i < |b| {
      EmptyFromAllEmpty(b, i + 1);
    }
  }

  /**
   * `possible_moves`: indices of empty cells, as many as there are empty
   * cells.
   */
  function PossibleMoves(b: seq<Cell>): (r: seq<nat>)
    ensures forall k :: 0 <= k < |r| ==> r[k] < |b| && b[r[k]] == Empty
    ensures |r| == Count(b, Empty)
  {
    assert b[0..] == b;
    EmptyFromCount(b, 0);
    EmptyFrom(b, 0)
  }

  /**
   * An index is a possible move exactly when its cell is empty, and the
   * possible moves are strictly ascending.
   */
  lemma PossibleMovesExact(b: seq<Cell>)
    ensures forall j :: 0 <= j < |b| ==> (j in PossibleMoves(b) <==> b[j] == Empty)
    ensures forall k, l :: 0 <= k < l < |PossibleMoves(b)| ==> PossibleMoves(b)[k] < PossibleMoves(b)[l]
  {
    EmptyFromComplete(b, 0);
    EmptyFromAscending(b, 0);
  }

  /** Of the nine cells, those not offered as moves are exactly the occupied ones. */
  lemma MovesPlusOccupied(b: seq<Cell>)
    requires |b| == SIZE
    ensures |PossibleMoves(b)| + Count(b, X) + Count(b, O) == SIZE
  {
    CountPartition(b);
  }

  // ---------------------------------------------------------------------
  // The eight lines
  // ---------------------------------------------------------------------

  /** `(lo..hi).step(step).to_a`: lo, lo + step, ... up to hi inclusive. */
  function StepRange(lo: int, hi: int, step: nat): seq<int>
    requires step > 0
    decreases hi - lo
  {
    if lo > hi then [] else [lo] + StepRange(lo + step, hi, step)
  }

  /** `each_slice(n).to_a`: consecutive pieces of length `n`, the last possibly shorter. */
  function EachSlice<T>(s: seq<T>, n: nat): seq<seq<T>>
    requires n > 0
    decreases |s|
  {
    if s == [] then []
    else if |s| <= n then [s]
    else [s[..n]] + EachSlice(s[n..], n)
  }

  /** Nine elements fall into three slices of three. */
  lemma SliceNine<T>(s: seq<T>)
    requires |s| == 9
    ensures EachSlice(s, 3) == [s[..3], s[3..6], s[6..]]
  {
    assert s[3..][..3] == s[3..6] && s[3..][3..] == s[6..];
    assert EachSlice(s[6..], 3) == [s[6..]];
  }

  /** `transpose` of a rectangular, non-empty matrix. */
  function Transpose<T>(m: seq<seq<T>>): seq<seq<T>>
    requires |m| > 0 && forall i :: 0 <= i < |m| ==> |m[i]| == |m[0]|
  {
    seq(|m[0]|, j requires 0 <= j < |m[0]| => seq(|m|, i requires 0 <= i < |m| => m[i][j]))
  }

  /** The rows of the board as index triples: `(0..8).each_slice(3)`. */
  function RowIndices(): seq<seq<int>>
  {
    EachSlice(StepRange(0, SIZE - 1, 1), DIM)
  }

  /**
   * The index lines exactly as `win_lines` builds them: the rows, their
   * transpose, the diagonal `(0..8).step(4)` and the anti-diagonal
   * `(2..6).step(2)`.
   */
  function BuiltLines(): seq<seq<int>>
  {
    var rows := RowIndices();
    if |rows| > 0 && forall i :: 0 <= i < |rows| ==> |rows[i]| == |rows[0]|
    then rows + Transpose(rows) + [StepRange(0, SIZE - 1, DIM + 1)] + [StepRange(DIM - 1, SIZE - DIM, DIM - 1)]
    else []
  }

  /** The construction of `win_lines` yields the eight canonical lines, in order. */
  lemma BuiltLinesCanonical()
    ensures BuiltLines() == LINES
  {
    var cells := StepRange(0, SIZE - 1, 1);
    assert cells == [0, 1, 2, 3, 4, 5, 6, 7, 8];
    SliceNine(cells);
    assert cells[..3] == [0, 1, 2] && cells[3..6] == [3, 4, 5] && cells[6..] == [6, 7, 8];
    var rows := RowIndices();
    assert rows == [[0, 1, 2], [3, 4, 5], [6, 7, 8]];
    var columns := Transpose(rows);
    assert columns[0] == [0, 3, 6] && columns[1] == [1, 4, 7] && columns[2] == [2, 5, 8];
    assert columns == [[0, 3, 6], [1, 4, 7], [2, 5, 8]];
    assert StepRange(0, SIZE - 1, DIM + 1) == [0, 4, 8];
    assert StepRange(DIM - 1, SIZE - DIM, DIM - 1) == [2, 4, 6];
  }

  /**
   * `win_lines`: the cells of the board along each of the canonical lines,
   * which `BuiltLinesCanonical` shows are the lines the source constructs.
   * Whatever the board holds there are eight lines of three cells.
   */
  function WinLines<T>(b: seq<T>): (ls: seq<seq<T>>)
    requires |b| == SIZE
    ensures |ls| == 8 && forall i :: 0 <= i < |ls| ==> |ls[i]| == 3
  {
    seq(|LINES|, i requires 0 <= i < |LINES| =>
      seq(|LINES[i]|, j requires 0 <= j < |LINES[i]| => b[LINES[i][j]]))
  }

  /** True when all three cells of canonical line `i` hold `p`. */
  predicate Completes(b: seq<Cell>, i: nat, p: Cell)
    requires |b| == SIZE && i < |LINES|
  {
    b[LINES[i][0]] == p && b[LINES[i][1]] == p && b[LINES[i][2]] == p
  }

  /** True when canonical line `i` holds at least one `p`. */
  predicate Touches(b: seq<Cell>, i: nat, p: Cell)
    requires |b| == SIZE && i < |LINES|
  {
    b[LINES[i][0]] == p || b[LINES[i][1]] == p || b[LINES[i][2]] == p
  }

  /** `line.all? { |piece| piece == p }` */
  predicate AllPiece(line: seq<Cell>, p: Cell)
  {
    forall j :: 0 <= j < |line| ==> line[j] == p
  }

  /** `line.any? { |piece| piece == p }` */
  predicate HasPiece(line: seq<Cell>, p: Cell)
  {
    exists j :: 0 <= j < |line| && line[j] == p
  }

  lemma AllPieceThree(line: seq<Cell>, p: Cell)
    requires |line| == 3
    ensures AllPiece(line, p) <==> line[0] == p && line[1] == p && line[2] == p
  {
  }

  lemma HasPieceThree(line: seq<Cell>, p: Cell)
    requires |line| == 3
    ensures HasPiece(line, p) <==> line[0] == p || line[1] == p || line[2] == p
  {
  }

  /** `lines.any? { |line| line.all? { |piece| piece == p } }` */
  predicate AnyFilled(lines: seq<seq<Cell>>, p: Cell)
    decreases |lines|
  {
    lines != [] && (AllPiece(lines[0], p) || AnyFilled(lines[1..], p))
  }

  /** `lines.all? { |line| line.any? x && line.any? o }` */
  predicate AllMixed(lines: seq<seq<Cell>>)
    decreases |lines|
  {
    lines == [] || (HasPiece(lines[0], X) && HasPiece(lines[0], O) && AllMixed(lines[1..]))
  }

  lemma {:induction false} AnyFilledIff(lines: seq<seq<Cell>>, p: Cell)
    ensures AnyFilled(lines, p) <==> exists i :: 0 <= i < |lines| && AllPiece(lines[i], p)
    decreases |lines|
  {
    if lines != [] {
      AnyFilledIff(lines[1..], p);
      assert forall i :: 1 <= i < |lines| ==> lines[i] == lines[1..][i - 1];
    }
  }

  lemma {:induction false} AllMixedIff(lines: seq<seq<Cell>>)
    ensures AllMixed(lines) <==> forall i :: 0 <= i < |lines| ==> HasPiece(lines[i], X) && HasPiece(lines[i], O)
    decreases |lines|
  {
    if lines != [] {
      AllMixedIff(lines[1..]);
      assert forall i :: 1 <= i < |lines| ==> lines[i] == lines[1..][i - 1];
    }
  }

  /** `win?(p)`: some line consists of three `p`. */
  predicate Win(b: seq<Cell>, p: Side)
    requires |b| == SIZE
  {
    AnyFilled(WinLines(b), p)
  }

  /** `blocked?`: every line holds at least one X and at least one O. */
  predicate Blocked(b: seq<Cell>)
    requires |b| == SIZE
  {
    AllMixed(WinLines(b))
  }

  /** `p` wins exactly when it fills one of the eight canonical lines. */
  lemma WinIff(b: seq<Cell>, p: Side)
    requires |b| == SIZE
    ensures Win(b, p) <==> exists i :: 0 <= i < |LINES| && Completes(b, i, p)
  {
    var ls := WinLines(b);
    AnyFilledIff(ls, p);
    forall i | 0 <= i < |ls|
      ensures AllPiece(ls[i], p) <==> Completes(b, i, p)
    {
      AllPieceThree(ls[i], p);
      assert ls[i][0] == b[LINES[i][0]] && ls[i][1] == b[LINES[i][1]] && ls[i][2] == b[LINES[i][2]];
    }
  }

  /** `p` wins exactly when one of the eight lines, written out, holds three `p`. */
  lemma WinExplicit(b: seq<Cell>, p: Side)
    requires |b| == SIZE
    ensures Win(b, p) <==>
      (b[0] == p && b[1] == p && b[2] == p) || (b[3] == p && b[4] == p && b[5] == p) ||
      (b[6] == p && b[7] == p && b[8] == p) || (b[0] == p && b[3] == p && b[6] == p) ||
      (b[1] == p && b[4] == p && b[7] == p) || (b[2] == p && b[5] == p && b[8] == p) ||
      (b[0] == p && b[4] == p && b[8] == p) || (b[2] == p && b[4] == p && b[6] == p)
  {
    WinIff(b, p);
    if Win(b, p) {
      var i :| 0 <= i < |LINES| && Completes(b, i, p);
      assert i == 0 || i == 1 || i == 2 || i == 3 || i == 4 || i == 5 || i == 6 || i == 7;
    } else {
      assert !Completes(b, 0, p) && !Completes(b, 1, p) && !Completes(b, 2, p) && !Completes(b, 3, p);
      assert !Completes(b, 4, p) && !Completes(b, 5, p) && !Completes(b, 6, p) && !Completes(b, 7, p);
    }
  }

  /** The board is blocked exactly when each canonical line touches both an X and an O. */
  lemma BlockedIff(b: seq<Cell>)
    requires |b| == SIZE
    ensures Blocked(b) <==> forall i :: 0 <= i < |LINES| ==> Touches(b, i, X) && Touches(b, i, O)
  {
    var ls := WinLines(b);
    AllMixedIff(ls);
    forall i | 0 <= i < |ls|
      ensures (HasPiece(ls[i], X) <==> Touches(b, i, X)) && (HasPiece(ls[i], O) <==> Touches(b, i, O))
    {
      HasPieceThree(ls[i], X);
      HasPieceThree(ls[i], O);
      assert ls[i][0] == b[LINES[i][0]] && ls[i][1] == b[LINES[i][1]] && ls[i][2] == b[LINES[i][2]];
    }
  }

  /** The three cells hold both an X and an O. */
  predicate Mixed(c0: Cell, c1: Cell, c2: Cell)
  {
    (c0 == X || c1 == X || c2 == X) && (c0 == O || c1 == O || c2 == O)
  }

  /** `blocked?` written out line by line over the cell indices. */
  lemma BlockedExplicit(b: seq<Cell>)
    requires |b| == SIZE
    ensures Blocked(b) <==>
      Mixed(b[0], b[1], b[2]) && Mixed(b[3], b[4], b[5]) && Mixed(b[6], b[7], b[8]) &&
      Mixed(b[0], b[3], b[6]) && Mixed(b[1], b[4], b[7]) && Mixed(b[2], b[5], b[8]) &&
      Mixed(b[0], b[4], b[8]) && Mixed(b[2], b[4], b[6])
  {
    BlockedIff(b);
    forall i | 0 <= i < |LINES|
      ensures Touches(b, i, X) && Touches(b, i, O) <==> Mixed(b[LINES[i][0]], b[LINES[i][1]], b[LINES[i][2]])
    {
    }
    if !Blocked(b) {
      var i :| 0 <= i < |LINES| && !(Touches(b, i, X) && Touches(b, i, O));
      assert i == 0 || i == 1 || i == 2 || i == 3 || i == 4 || i == 5 || i == 6 || i == 7;
    }
    if Blocked(b) {
      assert Mixed(b[LINES[0][0]], b[LINES[0][1]], b[LINES[0][2]]);
      assert Mixed(b[LINES[1][0]], b[LINES[1][1]], b[LINES[1][2]]);
      assert Mixed(b[LINES[2][0]], b[LINES[2][1]], b[LINES[2][2]]);
      assert Mixed(b[LINES[3][0]], b[LINES[3][1]], b[LINES[3][2]]);
      assert Mixed(b[LINES[4][0]], b[LINES[4][1]], b[LINES[4][2]]);
      assert Mixed(b[LINES[5][0]], b[LINES[5][1]], b[LINES[5][2]]);
      assert Mixed(b[LINES[6][0]], b[LINES[6][1]], b[LINES[6][2]]);
      assert Mixed(b[LINES[7][0]], b[LINES[7][1]], b[LINES[7][2]]);
    }
  }

  // ---------------------------------------------------------------------
  // Outcome
  // ---------------------------------------------------------------------

  /**
   * `evaluate_leaf`: 100 when X has a line; otherwise -100 when O has one;
   * otherwise 0 when the board is blocked; otherwise no value.
   */
  function EvaluateLeaf(b: seq<Cell>): (r: Option<int>)
    requires |b| == SIZE
    ensures r == Some(100) <==> Win(b, X)
    ensures r == Some(-100) <==> !Win(b, X) && Win(b, O)
    ensures r == Some(0) <==> !Win(b, X) && !Win(b, O) && Blocked(b)
    ensures r == None <==> !Win(b, X) && !Win(b, O) && !Blocked(b)
  {
    if Win(b, X) then Some(100)
    else if Win(b, O) then Some(-100)
    else if Blocked(b) then Some(0)
    else None
  }

  /** `end?`: one side has a line, or no cell is empty. */
  predicate End(b: seq<Cell>)
    requires |b| == SIZE
  {
    Win(b, X) || Win(b, O) || Count(b, Empty) == 0
  }

  /** The game is over exactly when a side has a line or every cell is taken. */
  lemma EndIff(b: seq<Cell>)
    requires |b| == SIZE
    ensures End(b) <==> Win(b, X) || Win(b, O) || forall k :: 0 <= k < |b| ==> b[k] != Empty
  {
    CountZero(b, Empty);
  }

  /** A full board on which nobody has a line is blocked. */
  lemma FullNoWinBlocked(b: seq<Cell>)
    requires |b| == SIZE
    requires forall k :: 0 <= k < |b| ==> b[k] != Empty
    requires !Win(b, X) && !Win(b, O)
    ensures Blocked(b)
  {
    WinIff(b, X);
    WinIff(b, O);
    BlockedIff(b);
    forall i | 0 <= i < |LINES|
      ensures Touches(b, i, X) && Touches(b, i, O)
    {
      assert !Completes(b, i, X) && !Completes(b, i, O);
      assert b[LINES[i][0]] != Empty && b[LINES[i][1]] != Empty && b[LINES[i][2]] != Empty;
    }
  }

  /**
   * A position without a leaf value is not over and offers at least one
   * move, so minimax never takes a maximum or minimum of nothing.
   */
  lemma LiveLeafHasMoves(b: seq<Cell>)
    requires |b| == SIZE
    requires EvaluateLeaf(b) == None
    ensures !End(b)
    ensures |PossibleMoves(b)| > 0
  {
    CountZero(b, Empty);
    if Count(b, Empty) == 0 {
      FullNoWinBlocked(b);
    }
  }

  /** A finished game always has a leaf value. */
  lemma EndedHasLeafValue(b: seq<Cell>)
    requires |b| == SIZE
    requires End(b)
    ensures EvaluateLeaf(b).Some?
  {
    if !Win(b, X) && !Win(b, O) {
      CountZero(b, Empty);
      FullNoWinBlocked(b);
    }
  }
}
