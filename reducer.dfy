/** The game reducer: the initial state and the transition `(state, action) -> state`.

    The reducer drives the store copy of the engine (landing on any empty square), except for the
    end-of-game test, which exists only in the canonical copy; `StoreRule` names that choice.
    The reducer never mutates its input and is modelled as a function; only the construction of
    the starting board is a loop. */
module Reducer {
  import opened Types
  import opened Rules
  import opened Utils
  import opened Engine
  import opened EngineProperties
  import opened EngineOutcomes
  import opened Actions
  import PositionKey

  /** The landing test of the engine copy the reducer imports. */
  const StoreRule: LandingRule := AnyEmptySquare

  // ---------------------------------------------------------------- the initial state

  /** The starting contents of a square. Light is written after dark, so light would win a
      square that started both sides; no square does. */
  function InitialCell(x: int, y: int): Cell {
    if IsStartingSquareFor(Light, Position(x, y)) then Some(Piece(x, y, Light, false))
    else if IsStartingSquareFor(Dark, Position(x, y)) then Some(Piece(x, y, Dark, false))
    else None
  }

  function InitialBoard(): (r: Board)
    ensures |r| == BOARD_SIZE && IsBoard(r)
    ensures forall y, x :: 0 <= y < BOARD_SIZE && 0 <= x < BOARD_SIZE ==> r[y][x] == InitialCell(x, y)
  {
    seq(BOARD_SIZE, y requires 0 <= y < BOARD_SIZE => seq(BOARD_SIZE, x requires 0 <= x < BOARD_SIZE => InitialCell(x, y)))
  }

  const ZeroStats: Stats := Stats(Tally(0, 0), Tally(0, 0))

  /** createInitialGameState() and createInitialGameState({ mode: null }), the only two calls. */
  function InitialGameState(): (r: GameState)
    ensures r.board == InitialBoard() && r.currentPlayer == Dark
    ensures r.selectedPiece.None? && r.forcedCaptureKey.None? && r.winner.None? && r.mode.None?
    ensures TallyOf(r.stats, Dark) == Tally(0, 0) && TallyOf(r.stats, Light) == Tally(0, 0)
  {
    GameState(InitialBoard(), Dark, None, None, None, ZeroStats, None)
  }

  /** The cells of the board being filled, row-major, up to column x of row y. */
  predicate FilledUpTo(board: Board, y: int, x: int)
    requires IsBoard(board) && |board| == BOARD_SIZE
  {
    forall j, i :: 0 <= j < BOARD_SIZE && 0 <= i < BOARD_SIZE ==>
      board[j][i] == (if j < y || (j == y && i < x) then InitialCell(i, j) else None)
  }

  /** The starting board, filled square by square as createInitialGameState does. */
  method CreateInitialBoard() returns (board: Board)
    ensures board == InitialBoard()
  {
    board := CreateEmptyBoard();
    for row := 0 to BOARD_SIZE
      invariant IsBoard(board) && |board| == BOARD_SIZE && FilledUpTo(board, row, 0)
    {
      for col := 0 to BOARD_SIZE
        invariant IsBoard(board) && |board| == BOARD_SIZE && FilledUpTo(board, row, col)
      {
        var square := Position(col, row);
        if IsStartingSquareFor(Dark, square) {
          board := SetCell(board, square, Some(Piece(col, row, Dark, false)));
        }
        if IsStartingSquareFor(Light, square) {
          board := SetCell(board, square, Some(Piece(col, row, Light, false)));
        }
      }
    }
    SameCells(board, InitialBoard());
  }

  method CreateInitialGameState() returns (state: GameState)
    ensures state == InitialGameState()
  {
    var board := CreateInitialBoard();
    state := GameState(board, Dark, None, None, None, Stats(Tally(0, 0), Tally(0, 0)), None);
  }

  // ---------------------------------------------------------------- the transition

  /** SELECT_PIECE: picks up the piece on `at` when the interactivity state lets it be picked. */
  function SelectPieceStep(state: GameState, at: Position): (r: GameState)
    requires IsBoard(state.board)
    ensures r == state || (IsMoveInBounds(|state.board|, at) && state.board[at.y][at.x].Some? &&
      PositionKey.Get(at) in Interactivity(StoreRule, state).selectable &&
      r == state.(selectedPiece := state.board[at.y][at.x]))
  {
    if !IsMoveInBounds(|state.board|, at) then state
    else
      var matchingPiece := GetPiece(state.board, at);
      var activePlayerPieces := Interactivity(StoreRule, state);
      if matchingPiece.Some? && PositionKey.Get(at) in activePlayerPieces.selectable
      then state.(selectedPiece := matchingPiece)
      else state
  }

  /** DESELECT_PIECE: drops the selection when it is on `at`, except during a forced capture chain. */
  function DeselectPieceStep(state: GameState, at: Position): (r: GameState)
    ensures r == state || (state.selectedPiece.Some? && state.selectedPiece.value.Pos() == at &&
      r == state.(selectedPiece := None))
    ensures (KeyPresent(state.forcedCaptureKey) && state.selectedPiece.Some? &&
      PositionKey.Get(state.selectedPiece.value.Pos()) == state.forcedCaptureKey.value) ==> r == state
  {
    if KeyPresent(state.forcedCaptureKey) && state.selectedPiece.Some? &&
       PositionKey.Get(state.selectedPiece.value.Pos()) == state.forcedCaptureKey.value
    then state
    else if state.selectedPiece.Some? && Equals(state.selectedPiece.value.Pos(), at)
    then state.(selectedPiece := None)
    else state
  }

  /** The capture the selected piece makes onto `target` leaves the board's squares. */
  lemma CaptureTargetOnBoard(board: Board, player: Color, selected: Piece, target: Position)
    requires IsBoard(board) && WellFormed(board)
    requires CaptureMoveResult(board, AllMoves(StoreRule, board, player), selected, target).Some?
    ensures IsMoveInBounds(|board|, target)
  {
    var moves := AllMoves(StoreRule, board, player);
    var key := PositionKey.Get(selected.Pos());
    CatalogueShape(StoreRule, board, player);
    var c :| c in CapturesFor(moves, key) && c.to == target;
    var i :| 0 <= i < |moves.captures[key]| && moves.captures[key][i] == c;
  }

  /** The capture branch of APPLY_MOVE once the engine has produced `res`. */
  function AfterCapture(state: GameState, res: CaptureResult): (r: GameState)
    requires IsBoard(res.newBoard) && IsMoveInBounds(|res.newBoard|, res.destination)
    ensures r.board == res.newBoard && r.mode == state.mode
    ensures TallyOf(r.stats, state.currentPlayer).captures == TallyOf(state.stats, state.currentPlayer).captures + 1
    ensures TallyOf(r.stats, OpponentOf(state.currentPlayer)) == TallyOf(state.stats, OpponentOf(state.currentPlayer))
    ensures WinnerOf(res.newBoard).Some? ==>
      r.winner == WinnerOf(res.newBoard) && r.currentPlayer == state.currentPlayer && r.selectedPiece.None?
    ensures r.currentPlayer != state.currentPlayer ==> r.selectedPiece.None? && r.forcedCaptureKey.None?
    ensures r.forcedCaptureKey.Some? ==>
      r.forcedCaptureKey == Some(PositionKey.Get(res.destination)) && r.currentPlayer == state.currentPlayer &&
      r.selectedPiece == res.newBoard[res.destination.y][res.destination.x] && r.selectedPiece.Some?
  {
    var player := state.currentPlayer;
    var nextState := state.(board := res.newBoard);
    var winner := WinnerOf(res.newBoard);
    if winner.Some? then
      nextState.(selectedPiece := None, forcedCaptureKey := None, currentPlayer := player,
                 stats := IncrementStatsFor(state.stats, player, TallyChange(Some(1), Some(1))), winner := winner)
    else
      var destinationKey := PositionKey.Get(res.destination);
      var pieceAtDestination := GetPiece(res.newBoard, res.destination);
      var subsequentCaptures := CapturesFor(AllMoves(StoreRule, res.newBoard, player), destinationKey);
      if |subsequentCaptures| > 0 && pieceAtDestination.Some? then
        nextState.(stats := IncrementStatsFor(state.stats, player, TallyChange(None, Some(1))),
                   selectedPiece := pieceAtDestination, forcedCaptureKey := Some(destinationKey), currentPlayer := player)
      else
        nextState.(selectedPiece := None, forcedCaptureKey := None, currentPlayer := GetNextPlayer(player),
                   stats := IncrementStatsFor(state.stats, player, TallyChange(Some(1), Some(1))))
  }

  /** The step branch of APPLY_MOVE once the engine has produced `res`. */
  function AfterStep(state: GameState, res: StepResult): (r: GameState)
    requires IsBoard(res.newBoard)
    ensures r.board == res.newBoard && r.mode == state.mode
    ensures r.selectedPiece.None? && r.forcedCaptureKey.None?
    ensures TallyOf(r.stats, state.currentPlayer) ==
      Tally(TallyOf(state.stats, state.currentPlayer).moves + 1, TallyOf(state.stats, state.currentPlayer).captures)
    ensures TallyOf(r.stats, OpponentOf(state.currentPlayer)) == TallyOf(state.stats, OpponentOf(state.currentPlayer))
    ensures r.currentPlayer == state.currentPlayer <==> WinnerOf(res.newBoard).Some?
  {
    var nextState := state.(board := res.newBoard, selectedPiece := None, forcedCaptureKey := None,
                            stats := IncrementStatsFor(state.stats, state.currentPlayer, TallyChange(Some(1), None)));
    var winner := WinnerOf(res.newBoard);
    if winner.Some? then nextState.(winner := winner)
    else nextState.(currentPlayer := GetNextPlayer(state.currentPlayer))
  }

  /** The capture path of APPLY_MOVE: the engine's capture onto `target`, if there is one. */
  function CaptureBranch(state: GameState, selected: Piece, target: Position): (r: GameState)
    requires IsBoard(state.board) && WellFormed(state.board)
    ensures var res := CaptureMoveResult(state.board, AllMoves(StoreRule, state.board, state.currentPlayer), selected, target);
      if res.None? then r == state
      else (r.board == res.value.newBoard &&
        TallyOf(r.stats, state.currentPlayer).captures == TallyOf(state.stats, state.currentPlayer).captures + 1)
  {
    match CaptureMoveResult(state.board, AllMoves(StoreRule, state.board, state.currentPlayer), selected, target)
    case None => state
    case Some(res) =>
      CaptureTargetOnBoard(state.board, state.currentPlayer, selected, target);
      AfterCapture(state, res)
  }

  /** The step path of APPLY_MOVE: the engine's step onto `target`, if there is one. */
  function StepBranch(state: GameState, selected: Piece, target: Position): (r: GameState)
    requires IsBoard(state.board)
    ensures var res := SimpleMoveResult(state.board, AllMoves(StoreRule, state.board, state.currentPlayer), selected, target);
      if res.None? then r == state
      else (r.board == res.value.newBoard && r.selectedPiece.None? &&
        TallyOf(r.stats, state.currentPlayer).moves == TallyOf(state.stats, state.currentPlayer).moves + 1)
  {
    match SimpleMoveResult(state.board, AllMoves(StoreRule, state.board, state.currentPlayer), selected, target)
    case None => state
    case Some(res) => AfterStep(state, res)
  }

  /** APPLY_MOVE: moves the selected piece onto `target` when `target` is one of its move targets. */
  function ApplyMoveStep(state: GameState, target: Position): (r: GameState)
    requires IsBoard(state.board) && WellFormed(state.board)
    ensures r != state ==> (state.selectedPiece.Some? &&
      PositionKey.Get(target) in MoveTargets(state.selectedPiece.value, AllMoves(StoreRule, state.board, state.currentPlayer)))
    ensures r.mode == state.mode
  {
    if state.selectedPiece.None? then state
    else
      var selected := state.selectedPiece.value;
      var moves := AllMoves(StoreRule, state.board, state.currentPlayer);
      var mustCapture := HasCaptures(moves);
      if !IsInMoveTargets(Some(MoveTargets(selected, moves)), target) then state
      else if mustCapture then CaptureBranch(state, selected, target)
      else StepBranch(state, selected, target)
  }

  /** gameReducer of src/store/game-logic/reducer.ts (and its copy, reducer of src/components/App/App.tsx). */
  function GameReducer(state: GameState, action: GameAction): (r: GameState)
    requires IsBoard(state.board) && WellFormed(state.board)
    ensures state.winner.Some? && !action.NewGameAction? ==> r == state
    ensures action.NewGameAction? ==> r == InitialGameState()
    ensures !action.ApplyMoveAction? && !action.NewGameAction? ==>
      r.board == state.board && r.currentPlayer == state.currentPlayer && r.stats == state.stats && r.winner == state.winner
    ensures action.SetModeAction? && state.winner.None? ==> r.mode == Some(action.mode) && r.forcedCaptureKey.None?
  {
    if state.winner.Some? && !action.NewGameAction? then state
    else
      match action
      case SelectPieceAction(at) => SelectPieceStep(state, at)
      case DeselectPieceAction(at) => DeselectPieceStep(state, at)
      case ApplyMoveAction(target) => ApplyMoveStep(state, target)
      case SetModeAction(mode) => state.(mode := Some(mode), forcedCaptureKey := None)
      case NewGameAction => InitialGameState()
  }
}
