/** Geometry and movement constants of 8x8 checkers. */
module Rules {
  import opened Types

  const BOARD_SIZE: int := 8

  /** A unit diagonal: both components are +1 or -1. */
  predicate IsUnitDiagonal(d: Position) {
    (d.x == 1 || d.x == -1) && (d.y == 1 || d.y == -1)
  }

  /** The row direction in which a man of `color` moves: light towards higher rows, dark towards row 0. */
  function ForwardRow(color: Color): int {
    if color == Light then 1 else -1
  }

  /** The four diagonals, in the order in which moves are generated for a king. */
  function KingMovementOffsets(): (r: seq<Position>)
    ensures |r| == 4
    ensures forall i :: 0 <= i < |r| ==> IsUnitDiagonal(r[i])
    ensures forall i, j :: 0 <= i < j < |r| ==> r[i] != r[j]
    ensures forall d :: IsUnitDiagonal(d) ==> d in r
  {
    [Position(-1, 1), Position(1, 1), Position(-1, -1), Position(1, -1)]
  }

  /** The two forward diagonals of a man of the given colour. */
  function ForwardMovementOffsets(color: Color): (r: seq<Position>)
    ensures |r| == 2 && r[0] != r[1]
    ensures forall i :: 0 <= i < |r| ==> r[i].y == ForwardRow(color) && r[i] in KingMovementOffsets()
    ensures forall d :: IsUnitDiagonal(d) && d.y == ForwardRow(color) ==> d in r
  {
    match color
    case Light => [Position(-1, 1), Position(1, 1)]
    case Dark => [Position(-1, -1), Position(1, -1)]
  }

  /** The king's table lists the light man's two offsets first and the dark man's two after them,
      so a king tries its forward-for-light diagonals first. */
  lemma KingOffsetsOrder()
    ensures KingMovementOffsets() == ForwardMovementOffsets(Light) + ForwardMovementOffsets(Dark)
    ensures ForwardMovementOffsets(Light)[0].x == -1 && ForwardMovementOffsets(Dark)[0].x == -1
  {
  }

  /** Playable squares have an even coordinate sum. */
  predicate IsDarkSquare(at: Position) {
    (at.x + at.y) % 2 == 0
  }

  /** The starting squares: the playable squares of the three rows nearest each side's own edge. */
  predicate IsStartingSquareFor(color: Color, at: Position) {
    IsDarkSquare(at) &&
    match color
    case Light => 0 <= at.y < 3
    case Dark => BOARD_SIZE - 3 <= at.y < BOARD_SIZE
  }

  /** The row on which a man of `color` is crowned. */
  function KingRow(color: Color): int {
    if color == Light then BOARD_SIZE - 1 else 0
  }
}
