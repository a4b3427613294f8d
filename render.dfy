/** `to_s`: the board drawn as three text rows separated by rules of dashes. */
module Render {
  import opened Board

  /** How `to_s` shows a cell: a blank for an empty one. */
  function CellChar(c: Cell): char
  {
    match c
    case Empty => ' '
    case X => 'x'
    case O => 'o'
  }

  /** `parts.join(sep)`. */
  function Join(parts: seq<string>, sep: string): string
    decreases |parts|
  {
    if parts == [] then ""
    else if |parts| == 1 then parts[0]
    else parts[0] + sep + Join(parts[1..], sep)
  }

  lemma JoinThree(a: string, b: string, c: string, sep: string)
    ensures Join([a, b, c], sep) == a + sep + (b + sep + c)
  {
    assert [a, b, c][1..] == [b, c] && [b, c][1..] == [c];
    assert Join([c], sep) == c;
    assert Join([b, c], sep) == b + sep + c;
  }

  /** One row of `to_s`: the cells separated by " | ", padded by a blank on each side. */
  function RowText(line: seq<Cell>): string
  {
    " " + Join(seq(|line|, k requires 0 <= k < |line| => [CellChar(line[k])]), " | ") + " "
  }

  const RULE: string := "\n-----------\n"

  /**
   * A row of three cells is eleven characters: the cells at columns 1, 5 and
   * 9, blanks around them and a bar between each two.
   */
  lemma RowTextShape(line: seq<Cell>)
    requires |line| == 3
    ensures RowText(line) ==
      [' ', CellChar(line[0]), ' ', '|', ' ', CellChar(line[1]), ' ', '|', ' ', CellChar(line[2]), ' ']
    ensures var t := RowText(line);
      |t| == 11 && t[1] == CellChar(line[0]) && t[5] == CellChar(line[1]) && t[9] == CellChar(line[2])
  {
    var cs := seq(|line|, k requires 0 <= k < |line| => [CellChar(line[k])]);
    assert cs == [cs[0], cs[1], cs[2]];
    JoinThree(cs[0], cs[1], cs[2], " | ");
  }

  /** The text rows of `to_s`, one per row of the board. */
  function RowTexts(b: seq<Cell>): (ts: seq<string>)
    requires |b| == SIZE
    ensures |ts| == DIM
    ensures forall row :: 0 <= row < DIM ==> ts[row] == RowText(b[DIM * row..DIM * row + DIM])
  {
    SliceNine(b);
    var rows := EachSlice(b, DIM);
    assert rows[0] == b[0..3] && rows[1] == b[3..6] && rows[2] == b[6..9];
    seq(|rows|, k requires 0 <= k < |rows| => RowText(rows[k]))
  }

  /** `to_s`: the three rows joined by a line of dashes, with a final newline. */
  function ToString(b: seq<Cell>): string
    requires |b| == SIZE
  {
    Join(RowTexts(b), RULE) + "\n"
  }

  /**
   * `to_s` is the text rows of the top, middle and bottom row of cells,
   * separated by the eleven-dash rule and followed by a newline.
   */
  lemma ToStringRows(b: seq<Cell>)
    requires |b| == SIZE
    ensures ToString(b) == RowText(b[0..3]) + RULE + RowText(b[3..6]) + RULE + RowText(b[6..9]) + "\n"
  {
    var ts := RowTexts(b);
    assert ts == [RowText(b[0..3]), RowText(b[3..6]), RowText(b[6..9])];
    JoinThree(ts[0], ts[1], ts[2], RULE);
  }

  /** Three rows of 11 characters joined by 13-character rules start at offsets 0, 24 and 48. */
  lemma ThreeRows(a: string, b: string, c: string, sep: string, tail: string)
    requires |a| == 11 && |b| == 11 && |c| == 11 && |sep| == 13 && |tail| == 1
    ensures var r := a + sep + (b + sep + c) + tail;
      |r| == 60 && r[0..11] == a && r[24..35] == b && r[48..59] == c
  {
  }

  /**
   * The text of `to_s` is 60 characters long; the cell in row `row`, column
   * `col` is drawn at offset `1 + 4 * col` of text row `row`, each text row
   * with its rule taking 24 characters.
   */
  lemma ToStringLayout(b: seq<Cell>)
    requires |b| == SIZE
    ensures |ToString(b)| == 60
    ensures forall row, col :: 0 <= row < DIM && 0 <= col < DIM ==>
      ToString(b)[24 * row + 1 + 4 * col] == CellChar(b[DIM * row + col])
  {
    var ts := RowTexts(b);
    forall row | 0 <= row < DIM
      ensures |ts[row]| == 11
      ensures forall col :: 0 <= col < DIM ==> ts[row][1 + 4 * col] == CellChar(b[DIM * row + col])
    {
      RowTextShape(b[DIM * row..DIM * row + DIM]);
    }
    assert ts == [ts[0], ts[1], ts[2]];
    JoinThree(ts[0], ts[1], ts[2], RULE);
    ThreeRows(ts[0], ts[1], ts[2], RULE, "\n");
    var r := ToString(b);
    forall row, col | 0 <= row < DIM && 0 <= col < DIM
      ensures r[24 * row + 1 + 4 * col] == CellChar(b[DIM * row + col])
    {
      var t := r[24 * row..24 * row + 11];
      assert t == ts[row];
      assert r[24 * row + 1 + 4 * col] == t[1 + 4 * col];
    }
  }
}
