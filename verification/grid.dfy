/** Reading and writing board cells, and the shape predicates of a board. */
module Grid {
  import opened Wrappers
  import opened GameTypes

  /** The JavaScript lookup `board[r]` yields a row. */
  predicate RowExists(b: Board, r: int) {
    0 <= r < |b|
  }

  /** The lookup `board[r][c]` yields a cell. */
  predicate InBounds(b: Board, r: int, c: int) {
    0 <= r < |b| && 0 <= c < |b[r]|
  }

  /** `board[r][c]`, where a missing column reads as empty (`undefined`). */
  function CellAt(b: Board, r: int, c: int): (x: Cell)
    ensures x.Some? ==> InBounds(b, r, c)
  {
    if InBounds(b, r, c) then b[r][c] else None
  }

  /** `b` and `b'` have the same number of rows and equally long rows. */
  predicate SameShape(b: Board, b': Board) {
    |b| == |b'| && forall r :: 0 <= r < |b| ==> |b[r]| == |b'[r]|
  }

  /** `b` is an `n` by `n` grid. */
  predicate IsGrid(b: Board, n: int) {
    |b| == n && forall r :: 0 <= r < |b| ==> |b[r]| == n
  }

  /** Every gem records the cell it sits in. */
  ghost predicate Consistent(b: Board) {
    forall r, c :: InBounds(b, r, c) && b[r][c].Some? ==>
      b[r][c].value.row == r && b[r][c].value.col == c
  }

  /** `b'` agrees with `b` everywhere except possibly at the given cells. */
  ghost predicate AgreesExcept(b: Board, b': Board, cells: set<Position>) {
    SameShape(b, b') &&
    forall r, c :: InBounds(b, r, c) && Position(r, c) !in cells ==> b'[r][c] == b[r][c]
  }

  /** The board with cell (r, c) replaced by `v`. */
  function SetCell(b: Board, r: int, c: int, v: Cell): (b': Board)
    requires InBounds(b, r, c)
    ensures AgreesExcept(b, b', {Position(r, c)})
    ensures b'[r][c] == v
  {
    b[r := b[r][c := v]]
  }
}
