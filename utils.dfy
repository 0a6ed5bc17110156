/** Board helpers shared by the engine and the reducer. */
module Utils {
  import opened Types
  import opened Rules

  /** Every row is as long as the board is tall. */
  predicate IsBoard(board: Board) {
    forall i :: 0 <= i < |board| ==> |board[i]| == |board|
  }

  /** Whether `at` names a cell of a board with `boardSize` rows of `boardSize` cells. */
  function IsMoveInBounds(boardSize: int, at: Position): (r: bool)
    ensures r ==> boardSize > 0
    ensures r <==> 0 <= at.y < boardSize && 0 <= at.x < boardSize
  {
    0 <= at.x < boardSize && 0 <= at.y < boardSize
  }

  /** The data invariant of a board: a piece's own coordinates name the square that holds it. */
  predicate WellFormed(board: Board)
    requires IsBoard(board)
  {
    forall y, x :: 0 <= y < |board| && 0 <= x < |board| && board[y][x].Some? ==>
      board[y][x].value.Pos() == Position(x, y)
  }

  /** The cell at `at`; callers establish the bounds first. */
  function GetPiece(board: Board, at: Position): (cell: Cell)
    requires IsBoard(board) && IsMoveInBounds(|board|, at)
    ensures cell == board[at.y][at.x]
    ensures WellFormed(board) && cell.Some? ==> cell.value.Pos() == at
  {
    board[at.y][at.x]
  }

  /** Kings move along every diagonal, men only forward. */
  function GetOffsetsFor(piece: Piece): (r: seq<Position>)
    ensures piece.isKing ==> r == KingMovementOffsets()
    ensures !piece.isKing ==> |r| == 2 && forall i :: 0 <= i < |r| ==> r[i].y == ForwardRow(piece.color)
    ensures forall i :: 0 <= i < |r| ==> IsUnitDiagonal(r[i])
  {
    if piece.isKing then KingMovementOffsets() else ForwardMovementOffsets(piece.color)
  }

  function Equals(a: Position, b: Position): (r: bool)
    ensures r <==> a == b
  {
    a.x == b.x && a.y == b.y
  }

  /** A copy of the board, row by row. */
  function CloneBoard(board: Board): (r: Board)
    ensures |r| == |board|
    ensures forall i :: 0 <= i < |board| ==> r[i] == board[i]
  {
    seq(|board|, i requires 0 <= i < |board| => board[i][..])
  }

  /** The board with one cell replaced (`board[at.y][at.x] = cell`). */
  function SetCell(board: Board, at: Position, cell: Cell): (r: Board)
    requires IsBoard(board) && IsMoveInBounds(|board|, at)
    ensures |r| == |board| && IsBoard(r)
    ensures forall y, x :: 0 <= y < |board| && 0 <= x < |board| ==>
      r[y][x] == (if Position(x, y) == at then cell else board[y][x])
  {
    board[at.y := board[at.y][at.x := cell]]
  }

  /** Two square boards of one size with equal cells are equal. */
  lemma SameCells(a: Board, b: Board)
    requires IsBoard(a) && IsBoard(b) && |a| == |b|
    requires forall y, x :: 0 <= y < |a| && 0 <= x < |a| ==> a[y][x] == b[y][x]
    ensures a == b
  {
    forall y | 0 <= y < |a| ensures a[y] == b[y] {
      assert forall x :: 0 <= x < |a| ==> a[y][x] == b[y][x];
    }
  }

  function CreateEmptyBoard(): (r: Board)
    ensures |r| == BOARD_SIZE && IsBoard(r)
    ensures forall y, x :: 0 <= y < BOARD_SIZE && 0 <= x < BOARD_SIZE ==> r[y][x] == None
  {
    seq(BOARD_SIZE, _ => seq(BOARD_SIZE, _ => None))
  }

  /** selectRandom: an arbitrary element of the list, or None for an empty list. */
  method SelectRandom<T>(items: seq<T>) returns (r: Option<T>)
    ensures r.None? <==> |items| == 0
    ensures r.Some? ==> r.value in items
  {
    if |items| == 0 {
      return None;
    }
    var index :| 0 <= index < |items|;
    r := Some(items[index]);
  }
}
