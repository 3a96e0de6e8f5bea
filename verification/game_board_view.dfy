/** The board component: which callback a click on a gem fires, and which
    cell is drawn as selected. */
module GameBoardView {
  import opened Wrappers
  import opened JsMath
  import opened GameTypes
  import opened Grid
  import opened Counting

  /** The two callbacks the board can fire. */
  datatype Callback =
    | GemSwap(from: Position, to: Position)
    | GemClick(at: Position)

  /** One step up, down, left or right. */
  predicate IsAdjacent(a: Position, b: Position)
    ensures IsAdjacent(a, b) ==> a != b
    ensures IsAdjacent(a, b) ==> Abs(a.row - b.row) + Abs(a.col - b.col) == 1
  {
    (Abs(a.row - b.row) == 1 && a.col == b.col) || (Abs(a.col - b.col) == 1 && a.row == b.row)
  }

  /** Adjacency is Manhattan distance exactly 1; hence it is symmetric and
      no cell is adjacent to itself. */
  lemma AdjacencyIsUnitDistance(a: Position, b: Position)
    ensures IsAdjacent(a, b) <==> Abs(a.row - b.row) + Abs(a.col - b.col) == 1
    ensures IsAdjacent(a, b) <==> IsAdjacent(b, a)
    ensures !IsAdjacent(a, a)
  {
  }

  /** A click on the gem at (row, col): with a selected gem next to it, ask
      for a swap from the selection; in every other case (no selection, a
      distant cell, the selected cell itself) report the click. */
  function HandleGemClick(selected: Option<Position>, row: int, col: int): (cb: Callback)
    ensures cb.GemSwap? <==> selected.Some? && IsAdjacent(selected.value, Position(row, col))
    ensures cb.GemSwap? ==> cb.from == selected.value && cb.to == Position(row, col)
    ensures cb.GemClick? ==> cb.at == Position(row, col)
  {
    var pos := Position(row, col);
    if selected.Some? && IsAdjacent(selected.value, pos) then GemSwap(selected.value, pos)
    else GemClick(pos)
  }

  /** A click on cell (row, col) of the rendered board: only cells holding
      a gem render a clickable gem, so empty cells fire nothing. */
  function ClickCell(board: Board, selected: Option<Position>, row: int, col: int): (cb: Option<Callback>)
    ensures cb.Some? <==> CellAt(board, row, col).Some?
    ensures cb.Some? ==> cb.value == HandleGemClick(selected, row, col)
  {
    if CellAt(board, row, col).Some? then Some(HandleGemClick(selected, row, col)) else None
  }

  /** Cell (row, col) is drawn selected. */
  predicate IsSelected(selected: Option<Position>, row: int, col: int) {
    selected.Some? && selected.value.row == row && selected.value.col == col
  }

  /** The selection marks drawn on row `r` of the board: only a cell that
      holds a gem draws a gem, so only such a cell can look selected. */
  function RowSelection(board: Board, selected: Option<Position>, r: int): (marks: seq<bool>)
    requires 0 <= r < |board|
    ensures |marks| == |board[r]|
    ensures forall col :: 0 <= col < |marks| ==>
      (marks[col] <==> board[r][col].Some? && IsSelected(selected, r, col))
  {
    seq(|board[r]|, col requires 0 <= col < |board[r]| => board[r][col].Some? && IsSelected(selected, r, col))
  }

  /** How many cells of the first `rows` rows are drawn selected. */
  function SelectedCount(board: Board, selected: Option<Position>, rows: nat): nat
    requires rows <= |board|
  {
    if rows == 0 then 0
    else SelectedCount(board, selected, rows - 1) + CountTrue(RowSelection(board, selected, rows - 1))
  }

  /** Among the first `rows` rows, exactly one cell is drawn selected when
      the selection is a gem of those rows, and none otherwise; over the
      whole board (`rows == |board|`): one cell iff the selection holds a
      gem. */
  lemma {:induction false} SelectedCellIsUnique(board: Board, selected: Option<Position>, rows: nat)
    requires rows <= |board|
    ensures SelectedCount(board, selected, rows) ==
      if selected.Some? && selected.value.row < rows && CellAt(board, selected.value.row, selected.value.col).Some?
      then 1 else 0
  {
    if rows > 0 {
      SelectedCellIsUnique(board, selected, rows - 1);
      var r := rows - 1;
      if selected.Some? && selected.value.row == r && CellAt(board, r, selected.value.col).Some? {
        assert RowSelection(board, selected, r) == Marked(|board[r]|, selected.value.col);
        CountMarked(|board[r]|, selected.value.col);
      } else {
        assert RowSelection(board, selected, r) == Below(|board[r]|, 0);
        CountBelow(|board[r]|, 0);
      }
    }
  }

  /** Clicking the selected gem again never asks for a swap: it is reported
      as a plain click on that cell. */
  lemma ReclickingSelectionIsAClick(board: Board, p: Position)
    requires CellAt(board, p.row, p.col).Some?
    ensures ClickCell(board, Some(p), p.row, p.col) == Some(GemClick(p))
  {
  }
}
