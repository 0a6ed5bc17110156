/** The value types shared by the engine, the reducer and the computer player:
    positions, pieces, boards, moves, move catalogues, statistics and the game state. */
module Types {

  datatype Option<+T> = None | Some(value: T)

  datatype Color = Dark | Light

  /** A square of the board, or a movement offset: column `x`, row `y`. */
  datatype Position = Position(x: int, y: int)

  /** One checker. Its `x`/`y` are meant to match the square that holds it. */
  datatype Piece = Piece(x: int, y: int, color: Color, isKing: bool) {
    function Pos(): Position { Position(x, y) }
  }

  type Cell = Option<Piece>

  /** Rows indexed by `y`, cells by `x`. */
  type Board = seq<seq<Cell>>

  datatype Step = Step(from: Position, to: Position)

  datatype Capture = Capture(from: Position, over: Position, to: Position)

  /** The per-turn catalogue, keyed by position keys ("x:y"). */
  datatype MoveSet = MoveSet(steps: map<string, seq<Step>>, captures: map<string, seq<Capture>>)

  const EmptyMoves: MoveSet := MoveSet(map[], map[])

  datatype Tally = Tally(moves: int, captures: int)

  datatype Stats = Stats(dark: Tally, light: Tally)

  /** A partial change of a tally; a missing field counts as zero. */
  datatype TallyChange = TallyChange(moves: Option<int>, captures: Option<int>)

  datatype Winner = Won(color: Color) | Draw

  datatype GameMode = PlayerVsPlayer | PlayerVsComputer

  datatype GameState = GameState(
    board: Board,
    currentPlayer: Color,
    selectedPiece: Option<Piece>,
    forcedCaptureKey: Option<string>,
    winner: Option<Winner>,
    stats: Stats,
    mode: Option<GameMode>)

  datatype InteractiveState = InteractiveState(disabled: set<string>, selectable: set<string>)

  datatype AiMove = AiMove(piece: Position, target: Position)
}
