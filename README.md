# Tic-tac-toe position and minimax search, in Dafny

This project models class `Position` of a small Ruby tic-tac-toe engine
(`lib/ttt.rb`). A position holds:

- a board of nine cells, each empty (`"-"`), `"x"` or `"o"`;
- the side to move;
- a stack of the cells played on this instance.

`move` places the mover's piece and passes the turn. `unmove` pops the
last move and clears its cell. `win?`, `blocked?`, `evaluate_leaf` and
`end?` judge the board through its eight lines. `minimax` scores a
position by backtracking, making and undoing trial moves on the one
instance. `best_move` picks the first move with the best trial score.
`to_s` draws the board as text.

The model is laid out as follows:

- `Board` (board.dfy): the pure board functions. These are the cells,
  `other_turn`, cell counting, `possible_moves`, the construction of
  `win_lines`, `win?`, `blocked?`, `evaluate_leaf` and `end?`.
- `Search` (search.dfy): the search on values. A `Snapshot` holds the
  board, the turn and the history. `ApplyMove` and `UndoMove` are the
  transitions. `MinimaxValue` is the value `minimax` computes, defined by
  its recurrence. `BestIndex` is the first extremum that `max_by` and
  `min_by` return. The module also proves the bounds on minimax values
  and the win-in-one results.
- `Ttt` (position.dfy): class `Position` itself. The board is an
  `array<Cell>` that `Move` and `Unmove` change in place. `turn` and
  `movelist` are fields. `Move` and `Unmove` are proved to change the
  state exactly as `ApplyMove` and `UndoMove` say. `Minimax` and
  `BestMove` make and undo trial moves on the instance; they are proved
  to return `MinimaxValue` and the `BestIndex` choice, and to restore the
  position they started from.
- `Render` (render.dfy): `to_s`.
- `Scenarios` (scenarios.dfy): the boards of the repository's own
  examples (`spec/lib/ttt_spec.rb`), stated as lemmas about the
  functions. The two searches, for X and for O, are also stated as
  methods that call the class.
- `Wrappers` (wrappers.dfy): `Option`, which stands for Ruby's `nil`
  result of `evaluate_leaf` and `best_move`.

A leaf value does not mean the game is over. The blocked board of
`spec/lib/ttt_spec.rb:104-108` still has an empty cell and has leaf value
0, yet `end?` is false there; `Scenarios.LeafValueBeforeEnd` states this.
Only the converse holds: a finished game always has a leaf value
(`Board.EndedHasLeafValue`).

## Model

| member | source | states |
|---|---|---|
| Board.Other | lib/ttt.rb:12-14 | `other_turn` never returns the side it is given |
| Board.Count | lib/ttt.rb:67 | `board.count(c)` is at most the board length |
| Board.CountIsMultiplicity | lib/ttt.rb:67 | `board.count(c)` is the number of occurrences of c on the board, its multiplicity in the board's multiset |
| Board.CountZero | lib/ttt.rb:67 | `count("-") == 0` holds exactly when no cell is empty |
| Board.CountPlace | lib/ttt.rb:16 | writing a piece into an empty cell leaves one empty cell fewer |
| Board.CountPartition | lib/ttt.rb:67 | every cell is empty, x or o: the three counts add up to the board length |
| Board.EmptyFrom | lib/ttt.rb:27 | the `map.with_index ... compact` listing from index i: every entry is an index at or after i whose cell is empty |
| Board.EmptyFromCount | lib/ttt.rb:27 | the empty-cell listing from index i has as many entries as there are empty cells from i on |
| Board.EmptyFromComplete | lib/ttt.rb:27 | the listing from index i contains every empty cell at or after i |
| Board.EmptyFromAscending | lib/ttt.rb:27 | the listing is strictly ascending, as `map.with_index ... compact` keeps board order |
| Board.EmptyFromAllEmpty | lib/ttt.rb:27 | where every cell from i on is empty, the listing is i, i+1, ... in order |
| Board.PossibleMoves | lib/ttt.rb:26-28 | every possible move is an in-range empty cell, and there are as many as there are empty cells |
| Board.PossibleMovesExact | lib/ttt.rb:26-28 | an index is a possible move if and only if its cell is empty, and the moves are strictly ascending |
| Board.MovesPlusOccupied | lib/ttt.rb:26-28 | possible moves plus occupied cells make exactly nine |
| Board.StepRange | lib/ttt.rb:33-34 | `(lo..hi).step(n).to_a`: lo, lo + n, ... up to hi inclusive, empty when lo > hi; the two diagonals are evaluated in `Board.BuiltLinesCanonical` |
| Board.EachSlice | lib/ttt.rb:31 | `each_slice(n).to_a`: consecutive pieces of length n, the last possibly shorter; nine elements in threes are `Board.SliceNine` |
| Board.Transpose | lib/ttt.rb:32 | `transpose` of a rectangular matrix: entry (j, i) is entry (i, j) of the input; the columns it yields are in `Board.BuiltLinesCanonical` |
| Board.RowIndices | lib/ttt.rb:31 | `(0..8).each_slice(3)`: the index rows, which `Board.BuiltLinesCanonical` shows are 012, 345, 678 |
| Board.SliceNine | lib/ttt.rb:31 | `each_slice(3)` of nine elements is three consecutive triples |
| Board.BuiltLines | lib/ttt.rb:29-34 | the index lines as the source constructs them: `each_slice` rows, their `transpose`, and the two `step` diagonals; what they are is `Board.BuiltLinesCanonical` |
| Board.BuiltLinesCanonical | lib/ttt.rb:29-34 | rows, their transpose, `(0..8).step(4)` and `(2..6).step(2)` are the eight lines 012, 345, 678, 036, 147, 258, 048, 246, in that order |
| Board.WinLines | lib/ttt.rb:29-35 | `win_lines` yields eight lines of three cells whatever the board holds |
| Board.AllPiece | lib/ttt.rb:39 | `line.all? { piece == p }`: every cell of the line is p; for three cells `Board.AllPieceThree` |
| Board.HasPiece | lib/ttt.rb:44-45 | `line.any? { piece == p }`: some cell of the line is p; for three cells `Board.HasPieceThree` |
| Board.AllPieceThree | lib/ttt.rb:39 | a three-cell line is all p if and only if each of its three cells is p |
| Board.HasPieceThree | lib/ttt.rb:44-45 | a three-cell line holds p if and only if one of its three cells is p |
| Board.AnyFilled | lib/ttt.rb:38-40 | `lines.any? { line.all? == p }` as a fold over the lines; characterised by `Board.AnyFilledIff` |
| Board.AllMixed | lib/ttt.rb:43-46 | `lines.all? { any? x && any? o }` as a fold over the lines; characterised by `Board.AllMixedIff` |
| Board.AnyFilledIff | lib/ttt.rb:38-40 | `lines.any? { line.all? == p }` holds if and only if some line is all p |
| Board.AllMixedIff | lib/ttt.rb:43-46 | `lines.all? { any? x && any? o }` holds if and only if every line holds both an x and an o |
| Board.Win | lib/ttt.rb:37-41 | `win?(p)`: some line of `win_lines` is all p; characterised by `Board.WinIff` and `Board.WinExplicit` |
| Board.WinIff | lib/ttt.rb:37-41 | `win?(p)` holds if and only if p fills one of the eight canonical lines |
| Board.WinExplicit | lib/ttt.rb:37-41 | `win?(p)` holds if and only if one of the eight index triples, written out, holds three p |
| Board.Blocked | lib/ttt.rb:42-47 | `blocked?`: every line of `win_lines` holds an x and an o; characterised by `Board.BlockedIff` and `Board.BlockedExplicit` |
| Board.BlockedIff | lib/ttt.rb:42-47 | `blocked?` holds if and only if every canonical line holds both an x and an o |
| Board.BlockedExplicit | lib/ttt.rb:42-47 | `blocked?` holds if and only if each of the eight index triples, written out, holds both an x and an o |
| Board.EvaluateLeaf | lib/ttt.rb:48-52 | `evaluate_leaf`: 100 if and only if x has a line; -100 if and only if o has one and x none; 0 if and only if neither has a line and the board is blocked; no value if and only if none of these |
| Board.End | lib/ttt.rb:66-68 | `end?`: x wins, o wins, or no cell is empty; characterised by `Board.EndIff` |
| Board.EndIff | lib/ttt.rb:66-68 | `end?` holds if and only if a side has a line or every cell is taken |
| Board.FullNoWinBlocked | lib/ttt.rb:42-47 | a full board on which neither side has a line is blocked |
| Board.LiveLeafHasMoves | lib/ttt.rb:55-59 | a position without a leaf value is not over and has at least one move, so `max`/`min` is never taken of nothing |
| Board.EndedHasLeafValue | lib/ttt.rb:48-52 | a finished game (`end?`) always has a leaf value |
| Search.ApplyMove | lib/ttt.rb:15-20 | `move(idx)` on an empty cell puts the mover's piece there, leaves the other eight cells as they were, passes the turn, pushes `idx` and leaves one empty cell fewer |
| Search.UndoMove | lib/ttt.rb:21-25 | `unmove` pops the last move, clears its cell, leaves the other eight cells as they were and passes the turn back |
| Search.Adjust | lib/ttt.rb:58 | `send(:- or :+, @movelist.count+1)`: X's node subtracts the history length plus one from a child's value, O's node adds it |
| Search.Adjusted | lib/ttt.rb:57-58 | the `map` of the adjustment over the children's values, entry by entry, keeping their order |
| Search.MinimaxValue | lib/ttt.rb:53-62 | the value `minimax` computes: the leaf value at a leaf, otherwise the `max` (x) or `min` (o) of the adjusted values of the children in possible-move order; its properties are `Search.LeafValue`, `Search.Recurrence`, `Search.NodeValue`, the bounds and the win-in-one lemmas |
| Search.UndoAfterMove | lib/ttt.rb:15-25 | `move(idx)` followed by `unmove` restores board, turn and move stack exactly |
| Search.Max | lib/ttt.rb:59 | `max` of a non-empty list is one of its elements and no element exceeds it |
| Search.Min | lib/ttt.rb:59 | `min` of a non-empty list is one of its elements and no element is below it |
| Search.ChildValues | lib/ttt.rb:57-58 | one trial value per possible move |
| Search.ChildValuesAt | lib/ttt.rb:57-58 | entry k is the minimax value after trial move k |
| Search.ChildValuesPointwise | lib/ttt.rb:57-58 | any list agreeing move by move with the trial values is the list of trial values |
| Search.LeafValue | lib/ttt.rb:55-56 | at a leaf, minimax returns the leaf value |
| Search.Recurrence | lib/ttt.rb:57-59 | away from a leaf, the value is attained by some move's value adjusted by `movelist.count + 1` (subtracted for x, added for o), and bounds every such adjusted value from above (x) or below (o) |
| Search.NodeValue | lib/ttt.rb:57-59 | away from a leaf, the value is the `max` (x) or `min` (o) of the adjusted trial values in possible-move order |
| Search.BestIndex | lib/ttt.rb:64 | `max_by`/`min_by`: no value is better than the chosen one and every earlier value is strictly worse |
| Search.BestIndexUnique | lib/ttt.rb:64 | an index that nothing beats and that beats everything before it is the one `max_by`/`min_by` picks |
| Search.MoveKeepsLineless | lib/ttt.rb:15-17 | a move by one side never completes a line for the other |
| Search.LeafRange | lib/ttt.rb:48-52 | a leaf value is 100, -100 or 0; it is not positive without an x line and not negative without an o line |
| Search.ValueUpperBound | lib/ttt.rb:53-62 | for a position whose move count plus empty cells is at most nine, no minimax value exceeds 100; with x to move and no x line it is at most 99 less the moves played; with o to move and no x line it is at most 99 |
| Search.ValueLowerBound | lib/ttt.rb:53-62 | for a position whose move count plus empty cells is at most nine, no minimax value is below -100; with o to move and no o line it is at least -99 plus the moves played; with x to move and no o line it is at least -99 |
| Search.ChildValueRange | lib/ttt.rb:53-62 | for a position whose move count plus empty cells is at most nine, the value after one move lies in [-100, 100]; after a move by x it is 100 when x just completed a line and at most 99 otherwise; after a move by o it is at least -99 when o did not complete a line, and -100 when o did and x had no line before the move (an earlier x line is worth 100, since x is checked first) |
| Search.WinInOneValue | lib/ttt.rb:53-62 | for a position without a leaf value, whose move count plus empty cells is at most nine, in which the mover can complete a line with one move, the value is 99 less the moves played (x) or -99 plus them (o) |
| Search.FirstWinIsBest | lib/ttt.rb:63-65 | for a position whose move count plus empty cells is at most nine, when the opponent has no line, `best_move` is the lowest empty cell that completes a line for the mover |
| Ttt.Position.constructor | lib/ttt.rb:5-11 | `Position.new`: nine empty cells, x to move, empty move stack |
| Ttt.Position.FromBoard | lib/ttt.rb:5-11 | `Position.new(board, turn)`: the given array becomes the board, the given side moves, the move stack is empty |
| Ttt.Position.Move | lib/ttt.rb:15-20 | `move(idx)` changes the instance to `ApplyMove` of its old state |
| Ttt.Position.Unmove | lib/ttt.rb:21-25 | `unmove` changes the instance to `UndoMove` of its old state |
| Ttt.Position.Minimax | lib/ttt.rb:53-62 | `minimax(idx)` returns the minimax value of the position after the optional trial move, and leaves board, turn and move stack as it found them |
| Ttt.Position.BestMove | lib/ttt.rb:63-65 | `best_move` is nil exactly when there is no move, and otherwise the first possible move with the best trial value for the side to move; the position is restored and the move is a legal empty cell |
| Render.CellChar | lib/ttt.rb:71 | `piece == "-" ? " " : piece`: a blank for an empty cell, x or o otherwise |
| Render.Join | lib/ttt.rb:71-72 | `parts.join(sep)`: the parts with sep between each two; three parts are `Render.JoinThree` |
| Render.RowText | lib/ttt.rb:71 | one row: a blank, the drawn cells joined by a bar with a blank on each side, and a blank; its exact text is `Render.RowTextShape` |
| Render.JoinThree | lib/ttt.rb:72 | `[a, b, c].join(sep)` is a + sep + b + sep + c |
| Render.RowTextShape | lib/ttt.rb:71 | one text row of three cells is exactly blank, cell, blank, bar, blank, cell, blank, bar, blank, cell, blank: 11 characters with the cells at columns 1, 5 and 9 |
| Render.RowTexts | lib/ttt.rb:70-71 | there are three text rows, row r drawing cells 3r to 3r+2 |
| Render.ToString | lib/ttt.rb:69-73 | `to_s`: the three text rows joined by the dashed rule, with a final newline; its layout is `Render.ToStringLayout` |
| Render.ToStringRows | lib/ttt.rb:69-73 | `to_s` is the top, middle and bottom text rows separated by a newline, eleven dashes and a newline, and followed by a newline |
| Render.ToStringLayout | lib/ttt.rb:69-73 | `to_s` is 60 characters and the cell at row r, column c is drawn at offset 24r + 1 + 4c, blank when empty |
| Scenarios.MoveAndUnmove | spec/lib/ttt_spec.rb:23-39 | `Position.new.move(0)` has x in cell 0 with o to move; `Position.new.move(1).unmove` has the new position's board and turn (all empty, x to move) and an empty move stack |
| Scenarios.EmptyBoardMoves | spec/lib/ttt_spec.rb:41-43 | the new position offers moves 0 to 8 |
| Scenarios.MovesAfterThree | spec/lib/ttt_spec.rb:44-46 | after `move(3)` the moves are 0, 1, 2, 4, 5, 6, 7, 8 |
| Scenarios.LinesOfIndexBoard | spec/lib/ttt_spec.rb:48-62 | on a board whose cells are their own indices, `win_lines` yields the eight index triples |
| Scenarios.EmptyBoardOpen | spec/lib/ttt_spec.rb:63-142 | the new-position examples of lines 63-67 (`win?`), 81-83 (`blocked?`), 91-93 (`evaluate_leaf`) and 140-142 (`end?`): neither side wins, it is not blocked, it has no leaf value and it is not over |
| Scenarios.WinBoards | spec/lib/ttt_spec.rb:68-78 | x x x / - - - / - o o is a win for x and x x - / - - - / o o o a win for o |
| Scenarios.BlockedBoard | spec/lib/ttt_spec.rb:84-88 | x o x / o x x / o x o has no line, is blocked, is worth 0 and is over |
| Scenarios.WonLeaves | spec/lib/ttt_spec.rb:94-103 | x - - / o x - / o - x is worth 100 and o x - / o x - / o - x is worth -100 |
| Scenarios.BlockedLiveLines | spec/lib/ttt_spec.rb:104-108 | o x o / o x - / x o x has no line and is blocked |
| Scenarios.LeafValueBeforeEnd | spec/lib/ttt_spec.rb:104-108 | that board is worth 0 while `end?` is false |
| Scenarios.EndedBoards | spec/lib/ttt_spec.rb:139-157 | the two won boards and the full board of the example are over |
| Scenarios.DrawnPosition | spec/lib/ttt_spec.rb:159-168 | `Position.new.move(3).move(4).to_s` is a blank row, the row drawing x and o in its first two cells, and a blank row, joined by rules of eleven dashes, with a final newline |
| Scenarios.AlreadyWon | spec/lib/ttt_spec.rb:111-115 | x x - / x o o / x o o is worth 100 |
| Scenarios.WinInOneForX | spec/lib/ttt_spec.rb:116-120 | x x - / - - - / - o o with x to move is worth 99 |
| Scenarios.WinInOneForO | spec/lib/ttt_spec.rb:121-125 | the same board with o to move is worth -99 |
| Scenarios.BestForX | spec/lib/ttt_spec.rb:128-132 | the best move for x there is 2 |
| Scenarios.BestForO | spec/lib/ttt_spec.rb:133-137 | the best move for o there is 6 |
| Scenarios.SearchForX | spec/lib/ttt_spec.rb:116-132 | `minimax` and `best_move` called on the class for x return 99 and 2 |
| Scenarios.SearchForO | spec/lib/ttt_spec.rb:121-137 | `minimax` and `best_move` called on the class for o return -99 and 6 |

## Left out

- The `TTT` class (`lib/ttt.rb:76` onwards) and its examples: console input and output, which is outside a pure model.
- Turns other than x and o: Ruby accepts any string as `turn`, and `other_turn` maps every value other than `"x"` to `"x"`. The model's `Side` type holds only x and o.
- Reassigning `board` or `turn` from outside (`attr_accessor`), boards of a length other than nine, and cell values other than `"-"`, `"x"` and `"o"`. The board is a `const` array of nine `Cell`s. `WinLines` is generic in the cell type, so the index-board example is stated over integers instead of strings.
- `Ttt.Position.Move`: requires an in-range empty cell. Ruby would overwrite an occupied cell, grow the array past index 8, or count a negative index from the end. `Search.ApplyMove` and `Ttt.Position.Minimax` require the same of their move.
- `Ttt.Position.Unmove`: requires a non-empty move stack. In Ruby, `pop` on an empty stack gives `nil` and the board assignment then raises.
- The defaults of `initialize board=nil, turn="x"`: `Position.new` is the anonymous constructor; `Position.new(board)` is written `FromBoard(b, X)`, with the default turn passed explicitly.
- `move` and `unmove` return `self` for chaining; the methods return nothing, and a chain is written as consecutive calls.
- Exceptions raised inside `minimax`: the `ensure` clause is modelled only for a normal return, which is the only kind that can happen on the domain above.
- The value of the empty board (0, a draw under perfect play) is not proved: it needs a search of the full game tree, which is beyond what the verifier can evaluate here.
- Render.ToString: carries no `ensures` of its own; its full text for every board is stated by `Render.ToStringRows` with `Render.RowTextShape`, its layout by `Render.ToStringLayout`, and the example rendering by `Scenarios.DrawnPosition`.
- Search.MinimaxValue: carries no `ensures` of its own; the recurrence, the bounds and the win-in-one results are the lemmas `Search.Recurrence`, `Search.ValueUpperBound`, `Search.ValueLowerBound` and `Search.WinInOneValue`.
- Board.WinLines: its `ensures` gives only the shape (eight lines of three); which cells each line holds is stated by `Board.BuiltLinesCanonical` together with `Board.WinIff` and `Board.BlockedIff`.
- Integer widths: Ruby integers are unbounded, so no wrap-around is modelled.
