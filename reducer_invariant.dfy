/** What APPLY_MOVE does once it accepts a target, the statistics it keeps, and the invariant
    every action preserves, so that every state reached from the new game satisfies it. */
module ReducerInvariant {
  import opened Types
  import opened Rules
  import opened Utils
  import opened Engine
  import opened EngineProperties
  import opened EngineOutcomes
  import opened Actions
  import opened Reducer
  import opened ReducerProperties
  import PositionKey

  // ---------------------------------------------------------------- statistics

  /** `after` adds `moves` and `captures` to `player`'s tally and keeps the opponent's. */
  predicate Counted(before: Stats, after: Stats, player: Color, moves: int, captures: int) {
    TallyOf(after, player) == Tally(TallyOf(before, player).moves + moves, TallyOf(before, player).captures + captures) &&
    TallyOf(after, OpponentOf(player)) == TallyOf(before, OpponentOf(player))
  }

  // ---------------------------------------------------------------- APPLY_MOVE outcomes

  /** The piece that moved stands on the target of an accepted capture. */
  lemma CaptureLands(state: GameState, target: Position)
    requires ValidState(state) && state.selectedPiece.Some?
    requires CaptureMoveResult(state.board, AllMoves(StoreRule, state.board, state.currentPlayer), state.selectedPiece.value, target).Some?
    ensures var res := CaptureMoveResult(state.board, AllMoves(StoreRule, state.board, state.currentPlayer), state.selectedPiece.value, target).value;
      IsMoveInBounds(|res.newBoard|, target) && res.destination == target &&
      GetPiece(res.newBoard, target) == Some(AfterMove(state.selectedPiece.value, target))
  {
    CaptureIsLegal(state, target);
    var res := CaptureMoveResult(state.board, AllMoves(StoreRule, state.board, state.currentPlayer), state.selectedPiece.value, target).value;
    assert target !in {state.selectedPiece.value.Pos(), res.captured};
  }

  /** The three ways AfterCapture can end, for an engine result whose piece stands on the target. */
  lemma AfterCaptureCases(state: GameState, res: CaptureResult, moved: Piece)
    requires IsBoard(res.newBoard) && IsMoveInBounds(|res.newBoard|, res.destination)
    requires GetPiece(res.newBoard, res.destination) == Some(moved)
    ensures var r := AfterCapture(state, res);
      r.mode == state.mode && r.winner == (if WinnerOf(r.board).Some? then WinnerOf(r.board) else state.winner)
    ensures var r := AfterCapture(state, res);
      WinnerOf(r.board).Some? ==> (r.currentPlayer == state.currentPlayer && r.selectedPiece.None? && r.forcedCaptureKey.None? &&
        Counted(state.stats, r.stats, state.currentPlayer, 1, 1))
    ensures var r := AfterCapture(state, res);
      var further := CapturesFor(AllMoves(StoreRule, r.board, state.currentPlayer), PositionKey.Get(res.destination));
      WinnerOf(r.board).None? && |further| > 0 ==>
        r.currentPlayer == state.currentPlayer && r.selectedPiece == Some(moved) &&
        r.forcedCaptureKey == Some(PositionKey.Get(res.destination)) && Counted(state.stats, r.stats, state.currentPlayer, 0, 1)
    ensures var r := AfterCapture(state, res);
      var further := CapturesFor(AllMoves(StoreRule, r.board, state.currentPlayer), PositionKey.Get(res.destination));
      WinnerOf(r.board).None? && |further| == 0 ==>
        r.currentPlayer == OpponentOf(state.currentPlayer) && r.selectedPiece.None? && r.forcedCaptureKey.None? &&
        Counted(state.stats, r.stats, state.currentPlayer, 1, 1)
  {
  }

  /** A capture either ends the game, goes on as a chain with the same piece, or passes the turn.
      The game ends when the board has a winner; the capture counts as a move only then or when
      the turn passes, and a chain keeps the capturing piece selected under a forced key. */
  lemma CaptureOutcome(state: GameState, target: Position)
    requires ValidState(state) && state.winner.None? && state.selectedPiece.Some?
    requires HasCaptures(AllMoves(StoreRule, state.board, state.currentPlayer))
    requires PositionKey.Get(target) in MoveTargets(state.selectedPiece.value, AllMoves(StoreRule, state.board, state.currentPlayer))
    ensures var r := GameReducer(state, ApplyMoveAction(target));
      r.mode == state.mode && r.winner == WinnerOf(r.board)
    ensures var r := GameReducer(state, ApplyMoveAction(target));
      r.winner.Some? ==> (r.currentPlayer == state.currentPlayer && r.selectedPiece.None? && r.forcedCaptureKey.None? &&
        Counted(state.stats, r.stats, state.currentPlayer, 1, 1))
    ensures var r := GameReducer(state, ApplyMoveAction(target));
      var further := CapturesFor(AllMoves(StoreRule, r.board, state.currentPlayer), PositionKey.Get(target));
      r.winner.None? && |further| > 0 ==>
        r.currentPlayer == state.currentPlayer && r.selectedPiece == Some(AfterMove(state.selectedPiece.value, target)) &&
        r.forcedCaptureKey == Some(PositionKey.Get(target)) && Counted(state.stats, r.stats, state.currentPlayer, 0, 1)
    ensures var r := GameReducer(state, ApplyMoveAction(target));
      var further := CapturesFor(AllMoves(StoreRule, r.board, state.currentPlayer), PositionKey.Get(target));
      r.winner.None? && |further| == 0 ==>
        r.currentPlayer == OpponentOf(state.currentPlayer) && r.selectedPiece.None? && r.forcedCaptureKey.None? &&
        Counted(state.stats, r.stats, state.currentPlayer, 1, 1)
  {
    var moves := AllMoves(StoreRule, state.board, state.currentPlayer);
    TargetsMatchApply(state.board, moves, state.selectedPiece.value, target);
    ApplyCaptureStep(state, target);
    CaptureLands(state, target);
    var res := CaptureMoveResult(state.board, moves, state.selectedPiece.value, target).value;
    AfterCaptureCases(state, res, AfterMove(state.selectedPiece.value, target));
  }

  /** A step passes the turn unless it ends the game, and counts as a move either way. */
  lemma StepOutcome(state: GameState, target: Position)
    requires ValidState(state) && state.winner.None? && state.selectedPiece.Some?
    requires !HasCaptures(AllMoves(StoreRule, state.board, state.currentPlayer))
    requires PositionKey.Get(target) in MoveTargets(state.selectedPiece.value, AllMoves(StoreRule, state.board, state.currentPlayer))
    ensures var r := GameReducer(state, ApplyMoveAction(target));
      r.mode == state.mode && r.winner == WinnerOf(r.board) &&
      r.selectedPiece.None? && r.forcedCaptureKey.None? &&
      Counted(state.stats, r.stats, state.currentPlayer, 1, 0)
    ensures var r := GameReducer(state, ApplyMoveAction(target));
      r.currentPlayer == if r.winner.Some? then state.currentPlayer else OpponentOf(state.currentPlayer)
  {
    TargetsMatchApply(state.board, AllMoves(StoreRule, state.board, state.currentPlayer), state.selectedPiece.value, target);
    ApplySimpleStep(state, target);
  }

  // ---------------------------------------------------------------- the invariant

  /** Emptying squares and putting a piece on a playable square keeps every piece on a playable
      square. */
  lemma BoardAfterPlayable(board: Board, vacated: set<Position>, to: Position, moved: Piece)
    requires IsBoard(board) && OnPlayableSquares(board) && IsDarkSquare(to) && moved.Pos() == to
    ensures OnPlayableSquares(BoardAfter(board, vacated, to, moved))
  {
    var r := BoardAfter(board, vacated, to, moved);
    forall j | 0 <= j < |r| ensures RowOnPlayableSquares(r[j]) {
      forall i | 0 <= i < |r[j]| && r[j][i].Some? ensures IsDarkSquare(r[j][i].value.Pos()) {
        assert RowOnPlayableSquares(board[j]);
      }
    }
  }

  /** Moving a piece onto an empty playable square of a valid board gives a valid board. */
  lemma MovedBoardValid(board: Board, vacated: set<Position>, selected: Piece, target: Position)
    requires IsBoard(board) && |board| == BOARD_SIZE && WellFormed(board) && OnPlayableSquares(board)
    requires IsMoveInBounds(|board|, target) && IsDarkSquare(target) && target !in vacated
    ensures var b := BoardAfter(board, vacated, target, AfterMove(selected, target));
      IsBoard(b) && |b| == BOARD_SIZE && WellFormed(b) && OnPlayableSquares(b) &&
      b[target.y][target.x] == Some(AfterMove(selected, target))
  {
    BoardAfterWellFormed(board, vacated, selected, target);
    BoardAfterPlayable(board, vacated, target, AfterMove(selected, target));
  }

  /** A piece on a playable square stands on a dark one. */
  lemma SelectedOnDarkSquare(state: GameState)
    requires ValidState(state) && state.selectedPiece.Some?
    ensures IsDarkSquare(state.selectedPiece.value.Pos())
  {
    assert RowOnPlayableSquares(state.board[state.selectedPiece.value.y]);
  }

  /** A legal capture lands on a square of the same colour as the one it leaves. */
  lemma CaptureKeepsParity(board: Board, selected: Piece, over: Position, target: Position)
    requires IsBoard(board)
    requires Capture(selected.Pos(), over, target) in LegalCaptures(StoreRule, board, selected)
    ensures IsDarkSquare(target) <==> IsDarkSquare(selected.Pos())
  {
    LegalCapturesExactly(StoreRule, board, selected, Capture(selected.Pos(), over, target));
    DiagonalKeepsParity(selected.Pos(), Delta(selected.Pos(), over));
  }

  /** A legal step lands on a square of the same colour as the one it leaves. */
  lemma StepKeepsParity(board: Board, selected: Piece, target: Position)
    requires IsBoard(board)
    requires Step(selected.Pos(), target) in LegalSteps(StoreRule, board, selected)
    ensures IsDarkSquare(target) <==> IsDarkSquare(selected.Pos())
  {
    LegalStepsExactly(StoreRule, board, selected, Step(selected.Pos(), target));
    DiagonalKeepsParity(selected.Pos(), Delta(selected.Pos(), target));
    assert Adjacent(selected.Pos(), Delta(selected.Pos(), target)) == target;
  }

  /** The board after an accepted capture is valid, with the capturing piece on the target. */
  lemma CaptureBoardValid(state: GameState, target: Position)
    requires ValidState(state) && state.selectedPiece.Some?
    requires CaptureMoveResult(state.board, AllMoves(StoreRule, state.board, state.currentPlayer), state.selectedPiece.value, target).Some?
    ensures var b := CaptureMoveResult(state.board, AllMoves(StoreRule, state.board, state.currentPlayer), state.selectedPiece.value, target).value.newBoard;
      IsBoard(b) && |b| == BOARD_SIZE && WellFormed(b) && OnPlayableSquares(b) &&
      IsMoveInBounds(|b|, target) && b[target.y][target.x] == Some(AfterMove(state.selectedPiece.value, target))
  {
    var selected := state.selectedPiece.value;
    var res := CaptureMoveResult(state.board, AllMoves(StoreRule, state.board, state.currentPlayer), selected, target).value;
    CaptureIsLegal(state, target);
    SelectedOnDarkSquare(state);
    CaptureKeepsParity(state.board, selected, res.captured, target);
    MovedBoardValid(state.board, {selected.Pos(), res.captured}, selected, target);
  }

  /** The board after an accepted step is valid, with the moving piece on the target. */
  lemma StepBoardValid(state: GameState, target: Position)
    requires ValidState(state) && state.selectedPiece.Some?
    requires SimpleMoveResult(state.board, AllMoves(StoreRule, state.board, state.currentPlayer), state.selectedPiece.value, target).Some?
    ensures var b := SimpleMoveResult(state.board, AllMoves(StoreRule, state.board, state.currentPlayer), state.selectedPiece.value, target).value.newBoard;
      IsBoard(b) && |b| == BOARD_SIZE && WellFormed(b) && OnPlayableSquares(b) &&
      IsMoveInBounds(|b|, target) && b[target.y][target.x] == Some(AfterMove(state.selectedPiece.value, target))
  {
    var selected := state.selectedPiece.value;
    StepIsLegal(state, target);
    SelectedOnDarkSquare(state);
    StepKeepsParity(state.board, selected, target);
    MovedBoardValid(state.board, {selected.Pos()}, selected, target);
  }

  /** The board after an accepted move is again a well-formed 8 by 8 board with every piece on
      a playable square, and the moved piece stands on the target. */
  lemma AcceptedBoardValid(state: GameState, target: Position)
    requires ValidState(state) && state.winner.None? && state.selectedPiece.Some?
    requires PositionKey.Get(target) in MoveTargets(state.selectedPiece.value, AllMoves(StoreRule, state.board, state.currentPlayer))
    ensures var b := GameReducer(state, ApplyMoveAction(target)).board;
      IsBoard(b) && |b| == BOARD_SIZE && WellFormed(b) && OnPlayableSquares(b) &&
      IsMoveInBounds(|b|, target) && b[target.y][target.x] == Some(AfterMove(state.selectedPiece.value, target))
  {
    ApplyMoveBoard(state, target);
    if HasCaptures(AllMoves(StoreRule, state.board, state.currentPlayer)) {
      CaptureBoardValid(state, target);
    } else {
      StepBoardValid(state, target);
    }
  }

  lemma ApplyMoveKeepsValid(state: GameState, target: Position)
    requires ValidState(state)
    ensures ValidState(GameReducer(state, ApplyMoveAction(target)))
  {
    if state.winner.None? && state.selectedPiece.Some? &&
       PositionKey.Get(target) in MoveTargets(state.selectedPiece.value, AllMoves(StoreRule, state.board, state.currentPlayer)) {
      AcceptedBoardValid(state, target);
      if HasCaptures(AllMoves(StoreRule, state.board, state.currentPlayer)) {
        CaptureOutcome(state, target);
      } else {
        StepOutcome(state, target);
      }
    } else if state.winner.None? {
      ApplyMoveRejected(state, target);
    }
  }

  lemma SelectKeepsValid(state: GameState, at: Position)
    requires ValidState(state)
    ensures ValidState(GameReducer(state, SelectPieceAction(at)))
  {
    if state.winner.None? && IsMoveInBounds(|state.board|, at) && SelectableSquare(state, at) {
      SelectPieceOutcome(state, at);
      SelectableSquares(StoreRule, state, at);
      if state.forcedCaptureKey.Some? {
        assert PositionKey.Get(state.selectedPiece.value.Pos()) != "";
        PositionKey.GetInjective(at, state.selectedPiece.value.Pos());
      } else {
        InteractivityExactly(StoreRule, state);
        OwnKeysExactly(state.board, state.currentPlayer);
      }
    } else if state.winner.None? {
      SelectPieceOutcome(state, at);
    }
  }

  lemma DeselectKeepsValid(state: GameState, at: Position)
    requires ValidState(state)
    ensures ValidState(GameReducer(state, DeselectPieceAction(at)))
  {
    if state.winner.None? {
      DeselectPieceOutcome(state, at);
    }
  }

  /** Every action keeps the invariant. */
  lemma ReducerKeepsValid(state: GameState, action: GameAction)
    requires ValidState(state)
    ensures ValidState(GameReducer(state, action))
  {
    match action
    case SelectPieceAction(at) => SelectKeepsValid(state, at);
    case DeselectPieceAction(at) => DeselectKeepsValid(state, at);
    case ApplyMoveAction(target) => ApplyMoveKeepsValid(state, target);
    case SetModeAction(mode) =>
    case NewGameAction => NewGameRestarts(state);
  }

  /** The state the application reaches from the new game by dispatching `actions` in order;
      every such state satisfies the invariant. */
  function Run(actions: seq<GameAction>): (s: GameState)
    ensures ValidState(s)
    decreases |actions|
  {
    if actions == [] then
      InitialStateValid();
      InitialGameState()
    else
      var before := Run(actions[..|actions| - 1]);
      ReducerKeepsValid(before, actions[|actions| - 1]);
      GameReducer(before, actions[|actions| - 1])
  }

  /** Only APPLY_MOVE changes the statistics (apart from NEW_GAME, which zeroes them); it adds at
      most one move and one capture to the side that moved and leaves the other side's tally. */
  lemma StatsGrowByMoves(state: GameState, action: GameAction)
    requires ValidState(state) && !action.NewGameAction?
    ensures var r := GameReducer(state, action);
      !action.ApplyMoveAction? ==> r.stats == state.stats
    ensures var r := GameReducer(state, action);
      exists moves, captures :: 0 <= moves <= 1 && 0 <= captures <= 1 &&
        Counted(state.stats, r.stats, state.currentPlayer, moves, captures)
  {
    var r := GameReducer(state, action);
    if action.ApplyMoveAction? && state.winner.None? && state.selectedPiece.Some? &&
       PositionKey.Get(action.position) in MoveTargets(state.selectedPiece.value, AllMoves(StoreRule, state.board, state.currentPlayer)) {
      var target := action.position;
      if HasCaptures(AllMoves(StoreRule, state.board, state.currentPlayer)) {
        CaptureOutcome(state, target);
        var further := CapturesFor(AllMoves(StoreRule, r.board, state.currentPlayer), PositionKey.Get(target));
        if r.winner.None? && |further| > 0 {
          assert Counted(state.stats, r.stats, state.currentPlayer, 0, 1);
        } else {
          assert Counted(state.stats, r.stats, state.currentPlayer, 1, 1);
        }
      } else {
        StepOutcome(state, target);
        assert Counted(state.stats, r.stats, state.currentPlayer, 1, 0);
      }
    } else {
      if action.ApplyMoveAction? && state.winner.None? {
        ApplyMoveRejected(state, action.position);
      } else if action.SelectPieceAction? && state.winner.None? {
        SelectPieceOutcome(state, action.position);
      } else if action.DeselectPieceAction? && state.winner.None? {
        DeselectPieceOutcome(state, action.position);
      }
      assert r.stats == state.stats;
      assert Counted(state.stats, r.stats, state.currentPlayer, 0, 0);
    }
  }
}
