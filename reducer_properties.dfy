/** What the reducer guarantees: the invariant every reachable state keeps, the starting
    position, and the outcome of each action. */
module ReducerProperties {
  import opened Types
  import opened Rules
  import opened Utils
  import opened Engine
  import opened EngineProperties
  import opened EngineOutcomes
  import opened Actions
  import opened Reducer
  import PositionKey

  // ---------------------------------------------------------------- the state invariant

  /** The selected piece stands on its square and belongs to the side to move. */
  predicate SelectionOnBoard(state: GameState)
    requires IsBoard(state.board) && state.selectedPiece.Some?
  {
    var piece := state.selectedPiece.value;
    IsMoveInBounds(|state.board|, piece.Pos()) && state.board[piece.y][piece.x] == Some(piece) &&
    piece.color == state.currentPlayer
  }

  /** A forced-capture key names the selected piece, which still has a capture. */
  predicate ForcedKeyLive(state: GameState)
    requires IsBoard(state.board) && state.forcedCaptureKey.Some?
  {
    state.selectedPiece.Some? &&
    state.forcedCaptureKey.value == PositionKey.Get(state.selectedPiece.value.Pos()) &&
    state.forcedCaptureKey.value in AllMoves(StoreRule, state.board, state.currentPlayer).captures
  }

  /** The invariant of every state the reducer produces from the initial one. */
  predicate ValidState(state: GameState) {
    IsBoard(state.board) && |state.board| == BOARD_SIZE && WellFormed(state.board) &&
    OnPlayableSquares(state.board) &&
    (state.selectedPiece.Some? ==> SelectionOnBoard(state)) &&
    (state.forcedCaptureKey.Some? ==> ForcedKeyLive(state))
  }

  /** On the states the reducer reaches, the store copy of the engine the reducer uses and the
      canonical copy build the same catalogue, and so offer the same pieces and targets. */
  lemma EnginesAgree(state: GameState, player: Color)
    requires ValidState(state)
    ensures AllMoves(StoreRule, state.board, player) == AllMoves(PlayableSquaresOnly, state.board, player)
    ensures Interactivity(StoreRule, state) == Interactivity(PlayableSquaresOnly, state)
  {
    AllMovesAgree(state.board, player);
    AllMovesAgree(state.board, state.currentPlayer);
  }

  // ---------------------------------------------------------------- the starting position

  /** Dark men fill the playable squares of rows 5 to 7, light men those of rows 0 to 2;
      every other square is empty. */
  lemma InitialPosition()
    ensures forall y, x :: 0 <= y < BOARD_SIZE && 0 <= x < BOARD_SIZE ==>
      (InitialBoard()[y][x].Some? <==> IsDarkSquare(Position(x, y)) && (y < 3 || 5 <= y))
    ensures forall y, x :: 0 <= y < BOARD_SIZE && 0 <= x < BOARD_SIZE && InitialBoard()[y][x].Some? ==>
      !InitialBoard()[y][x].value.isKing && (InitialBoard()[y][x].value.color == Light <==> y < 3)
  {
  }

  /** The new game: dark to move, nothing selected, no winner, no mode, zeroed statistics,
      and the invariant holds. */
  lemma InitialStateValid()
    ensures ValidState(InitialGameState())
    ensures InitialGameState().currentPlayer == Dark && InitialGameState().selectedPiece.None? &&
      InitialGameState().forcedCaptureKey.None? && InitialGameState().winner.None? && InitialGameState().mode.None?
    ensures TallyOf(InitialGameState().stats, Dark) == Tally(0, 0) && TallyOf(InitialGameState().stats, Light) == Tally(0, 0)
  {
    var board := InitialBoard();
    forall j | 0 <= j < |board| ensures RowOnPlayableSquares(board[j]) {
      forall i | 0 <= i < |board[j]| && board[j][i].Some? ensures IsDarkSquare(board[j][i].value.Pos()) {
        assert board[j][i] == InitialCell(i, j);
      }
    }
  }

  /** A piece with an open square in one of its directions can move. */
  lemma StepAvailable(board: Board, p: Position, to: Position)
    requires IsBoard(board) && IsMoveInBounds(|board|, p) && board[p.y][p.x].Some?
    requires board[p.y][p.x].value.Pos() == p
    requires MayMoveToward(board[p.y][p.x].value, Delta(p, to)) && IsValidLandingSpot(PlayableSquaresOnly, board, to)
    ensures Movable(PlayableSquaresOnly, board, p)
  {
    LegalStepsExactly(PlayableSquaresOnly, board, board[p.y][p.x].value, Step(p, to));
  }

  /** A dark man can step forward from the starting position, from (1, 5) to (0, 4). */
  lemma InitialDarkManCanStep()
    ensures HoldsOwn(InitialBoard(), Dark, Position(1, 5)) && Movable(PlayableSquaresOnly, InitialBoard(), Position(1, 5))
  {
    var board := InitialBoard();
    assert board[5][1] == InitialCell(1, 5) == Some(Piece(1, 5, Dark, false));
    assert board[4][0] == InitialCell(0, 4) == None;
    assert IsValidLandingSpot(PlayableSquaresOnly, board, Position(0, 4));
    StepAvailable(board, Position(1, 5), Position(0, 4));
  }

  /** A light man can step forward from the starting position, from (0, 2) to (1, 3). */
  lemma InitialLightManCanStep()
    ensures HoldsOwn(InitialBoard(), Light, Position(0, 2)) && Movable(PlayableSquaresOnly, InitialBoard(), Position(0, 2))
  {
    var board := InitialBoard();
    assert board[2][0] == InitialCell(0, 2) == Some(Piece(0, 2, Light, false));
    assert board[3][1] == InitialCell(1, 3) == None;
    assert IsValidLandingSpot(PlayableSquaresOnly, board, Position(1, 3));
    StepAvailable(board, Position(0, 2), Position(1, 3));
  }

  /** Both sides can move in the starting position, so the game is not over. */
  lemma InitialNoWinner()
    ensures WinnerOf(InitialBoard()) == None
  {
    var board := InitialBoard();
    InitialStateValid();
    InitialDarkManCanStep();
    InitialLightManCanStep();
    CanMoveExactly(board, Dark);
    CanMoveExactly(board, Light);
    WinnerExactly(board);
  }

  // ---------------------------------------------------------------- actions other than APPLY_MOVE

  /** Once the game is decided every action but NEW_GAME leaves the state as it is. */
  lemma WinnerFreezes(state: GameState, action: GameAction)
    requires IsBoard(state.board) && WellFormed(state.board)
    requires state.winner.Some? && !action.NewGameAction?
    ensures GameReducer(state, action) == state
  {
  }

  /** NEW_GAME restarts from the starting position whatever the state, decided or not. */
  lemma NewGameRestarts(state: GameState)
    requires IsBoard(state.board) && WellFormed(state.board)
    ensures GameReducer(state, NewGameAction) == InitialGameState()
    ensures ValidState(GameReducer(state, NewGameAction)) && GameReducer(state, NewGameAction).winner.None?
  {
    InitialStateValid();
  }

  /** SET_MODE sets the mode and drops the forced-capture key, and changes nothing else. */
  lemma SetModeOutcome(state: GameState, mode: GameMode)
    requires IsBoard(state.board) && WellFormed(state.board) && state.winner.None?
    ensures GameReducer(state, SetModeAction(mode)).mode == Some(mode)
    ensures GameReducer(state, SetModeAction(mode)).forcedCaptureKey.None?
    ensures GameReducer(state, SetModeAction(mode)).(mode := state.mode, forcedCaptureKey := state.forcedCaptureKey) == state
  {
  }

  /** The squares whose piece SELECT_PIECE picks up: the forced piece while its chain goes on;
      otherwise a piece of the side to move that has a capture, or, when no piece of that side
      has one, a step. */
  predicate SelectableSquare(state: GameState, at: Position)
    requires IsBoard(state.board) && IsMoveInBounds(|state.board|, at)
  {
    if ForcedCaptureApplies(StoreRule, state) then PositionKey.Get(at) == state.forcedCaptureKey.value
    else (HoldsOwn(state.board, state.currentPlayer, at) &&
      var piece := state.board[at.y][at.x].value;
      if HasCaptures(AllMoves(StoreRule, state.board, state.currentPlayer))
      then |LegalCaptures(StoreRule, state.board, piece)| > 0
      else |LegalSteps(StoreRule, state.board, piece)| > 0)
  }

  /** SELECT_PIECE picks up the piece on a selectable square and otherwise changes nothing. */
  lemma SelectPieceOutcome(state: GameState, at: Position)
    requires ValidState(state) && state.winner.None?
    ensures GameReducer(state, SelectPieceAction(at)) ==
      if IsMoveInBounds(|state.board|, at) && SelectableSquare(state, at)
      then state.(selectedPiece := state.board[at.y][at.x]) else state
  {
    if IsMoveInBounds(|state.board|, at) {
      SelectableSquares(StoreRule, state, at);
      if SelectableSquare(state, at) && ForcedCaptureApplies(StoreRule, state) {
        PositionKey.GetInjective(at, state.selectedPiece.value.Pos());
      }
    }
  }

  /** DESELECT_PIECE drops the selection when the square given is the selected piece's, unless a
      forced capture chain is under way, and otherwise changes nothing. */
  lemma DeselectPieceOutcome(state: GameState, at: Position)
    requires ValidState(state) && state.winner.None?
    ensures GameReducer(state, DeselectPieceAction(at)) ==
      if state.forcedCaptureKey.None? && state.selectedPiece.Some? && state.selectedPiece.value.Pos() == at
      then state.(selectedPiece := None) else state
  {
    if state.forcedCaptureKey.Some? {
      assert PositionKey.Get(state.selectedPiece.value.Pos()) != "";
    }
  }

  /** While a forced capture chain is under way neither SELECT_PIECE nor DESELECT_PIECE can move
      the selection away from the capturing piece. */
  lemma ForcedChainLocksSelection(state: GameState, action: GameAction)
    requires ValidState(state) && state.winner.None? && state.forcedCaptureKey.Some?
    requires action.SelectPieceAction? || action.DeselectPieceAction?
    ensures GameReducer(state, action).selectedPiece == state.selectedPiece
    ensures GameReducer(state, action).forcedCaptureKey == state.forcedCaptureKey
  {
    assert PositionKey.Get(state.selectedPiece.value.Pos()) != "";
    if action.SelectPieceAction? {
      SelectPieceOutcome(state, action.position);
      var at := action.position;
      if IsMoveInBounds(|state.board|, at) && SelectableSquare(state, at) {
        PositionKey.GetInjective(at, state.selectedPiece.value.Pos());
      }
    } else {
      DeselectPieceOutcome(state, action.position);
    }
  }

  // ---------------------------------------------------------------- APPLY_MOVE

  /** The catalogue's entries for the selected piece are its own steps and captures. */
  lemma SelectedEntry(state: GameState)
    requires ValidState(state) && state.selectedPiece.Some?
    ensures var moves := AllMoves(StoreRule, state.board, state.currentPlayer);
      var key := PositionKey.Get(state.selectedPiece.value.Pos());
      (key in moves.captures ==> moves.captures[key] == LegalCaptures(StoreRule, state.board, state.selectedPiece.value)) &&
      (key in moves.steps ==> moves.steps[key] == LegalSteps(StoreRule, state.board, state.selectedPiece.value))
  {
    AllMovesCatalogue(StoreRule, state.board, state.currentPlayer);
    assert EntryOf(StoreRule, state.board, state.currentPlayer, AllMoves(StoreRule, state.board, state.currentPlayer),
      state.selectedPiece.value.Pos());
  }

  /** APPLY_MOVE does nothing without a selection or with a square that is not a target of the
      selected piece. */
  lemma ApplyMoveRejected(state: GameState, target: Position)
    requires IsBoard(state.board) && WellFormed(state.board) && state.winner.None?
    requires state.selectedPiece.None? ||
      PositionKey.Get(target) !in MoveTargets(state.selectedPiece.value, AllMoves(StoreRule, state.board, state.currentPlayer))
    ensures GameReducer(state, ApplyMoveAction(target)) == state
  {
  }

  /** Once APPLY_MOVE accepts a target, the new board is the one the engine produced. */
  lemma ApplyMoveBoard(state: GameState, target: Position)
    requires IsBoard(state.board) && WellFormed(state.board) && state.winner.None? && state.selectedPiece.Some?
    requires PositionKey.Get(target) in MoveTargets(state.selectedPiece.value, AllMoves(StoreRule, state.board, state.currentPlayer))
    ensures var moves := AllMoves(StoreRule, state.board, state.currentPlayer);
      HasCaptures(moves) ==> (CaptureMoveResult(state.board, moves, state.selectedPiece.value, target).Some? &&
        GameReducer(state, ApplyMoveAction(target)).board ==
        CaptureMoveResult(state.board, moves, state.selectedPiece.value, target).value.newBoard)
    ensures var moves := AllMoves(StoreRule, state.board, state.currentPlayer);
      !HasCaptures(moves) ==> (SimpleMoveResult(state.board, moves, state.selectedPiece.value, target).Some? &&
        GameReducer(state, ApplyMoveAction(target)).board ==
        SimpleMoveResult(state.board, moves, state.selectedPiece.value, target).value.newBoard)
  {
    TargetsMatchApply(state.board, AllMoves(StoreRule, state.board, state.currentPlayer), state.selectedPiece.value, target);
    if HasCaptures(AllMoves(StoreRule, state.board, state.currentPlayer)) {
      ApplyCaptureStep(state, target);
    } else {
      ApplySimpleStep(state, target);
    }
  }

  /** The capture the engine finds for the selected piece is one of its legal captures, onto an
      empty square distinct from the jumped one. */
  lemma CaptureIsLegal(state: GameState, target: Position)
    requires ValidState(state) && state.selectedPiece.Some?
    requires CaptureMoveResult(state.board, AllMoves(StoreRule, state.board, state.currentPlayer), state.selectedPiece.value, target).Some?
    ensures var selected := state.selectedPiece.value;
      var res := CaptureMoveResult(state.board, AllMoves(StoreRule, state.board, state.currentPlayer), selected, target).value;
      Capture(selected.Pos(), res.captured, target) in LegalCaptures(StoreRule, state.board, selected) &&
      IsMoveInBounds(|state.board|, target) && state.board[target.y][target.x].None? &&
      target != selected.Pos() && target != res.captured
  {
    var selected := state.selectedPiece.value;
    var moves := AllMoves(StoreRule, state.board, state.currentPlayer);
    var res := CaptureMoveResult(state.board, moves, selected, target).value;
    SelectedEntry(state);
    var c :| c in CapturesFor(moves, PositionKey.Get(selected.Pos())) && c.to == target && c.over == res.captured;
    LegalCapturesExactly(StoreRule, state.board, selected, c);
    assert c == Capture(selected.Pos(), res.captured, target);
  }

  /** The step the engine finds for the selected piece is one of its legal steps, onto an empty
      square. */
  lemma StepIsLegal(state: GameState, target: Position)
    requires ValidState(state) && state.selectedPiece.Some?
    requires SimpleMoveResult(state.board, AllMoves(StoreRule, state.board, state.currentPlayer), state.selectedPiece.value, target).Some?
    ensures var selected := state.selectedPiece.value;
      Step(selected.Pos(), target) in LegalSteps(StoreRule, state.board, selected) &&
      IsMoveInBounds(|state.board|, target) && state.board[target.y][target.x].None? && target != selected.Pos()
  {
    var selected := state.selectedPiece.value;
    var moves := AllMoves(StoreRule, state.board, state.currentPlayer);
    SelectedEntry(state);
    var s :| s in StepsFor(moves, PositionKey.Get(selected.Pos())) && s.to == target;
    LegalStepsExactly(StoreRule, state.board, selected, s);
    assert s == Step(selected.Pos(), target);
  }

  /** A target APPLY_MOVE accepts is always carried out, as one of the selected piece's legal
      captures (while the side has any) or steps: the piece leaves its square for the target,
      which was empty, a captured piece's square is emptied, and no other square changes. */
  lemma ApplyMoveAccepted(state: GameState, target: Position)
    requires ValidState(state) && state.winner.None? && state.selectedPiece.Some?
    requires PositionKey.Get(target) in MoveTargets(state.selectedPiece.value, AllMoves(StoreRule, state.board, state.currentPlayer))
    ensures var selected := state.selectedPiece.value;
      var r := GameReducer(state, ApplyMoveAction(target));
      HasCaptures(AllMoves(StoreRule, state.board, state.currentPlayer)) ==>
      exists over :: Capture(selected.Pos(), over, target) in LegalCaptures(StoreRule, state.board, selected) &&
        r.board == BoardAfter(state.board, {selected.Pos(), over}, target, AfterMove(selected, target))
    ensures var selected := state.selectedPiece.value;
      var r := GameReducer(state, ApplyMoveAction(target));
      !HasCaptures(AllMoves(StoreRule, state.board, state.currentPlayer)) ==>
      Step(selected.Pos(), target) in LegalSteps(StoreRule, state.board, selected) &&
      r.board == BoardAfter(state.board, {selected.Pos()}, target, AfterMove(selected, target))
  {
    var moves := AllMoves(StoreRule, state.board, state.currentPlayer);
    ApplyMoveBoard(state, target);
    if HasCaptures(moves) {
      CaptureIsLegal(state, target);
      var res := CaptureMoveResult(state.board, moves, state.selectedPiece.value, target).value;
      assert Capture(state.selectedPiece.value.Pos(), res.captured, target) in LegalCaptures(StoreRule, state.board, state.selectedPiece.value);
    } else {
      StepIsLegal(state, target);
    }
  }

  /** Before a verdict, APPLY_MOVE is handled by ApplyMoveStep. */
  lemma ApplyMoveDispatch(state: GameState, target: Position)
    requires IsBoard(state.board) && WellFormed(state.board) && state.winner.None?
    ensures GameReducer(state, ApplyMoveAction(target)) == ApplyMoveStep(state, target)
  {
  }

  /** A target the engine's apply accepts passes the reducer's target test, so APPLY_MOVE takes
      the branch of the required kind. */
  lemma ApplyMoveTakesBranch(state: GameState, target: Position)
    requires IsBoard(state.board) && WellFormed(state.board) && state.selectedPiece.Some?
    requires var moves := AllMoves(StoreRule, state.board, state.currentPlayer);
      if HasCaptures(moves) then CaptureMoveResult(state.board, moves, state.selectedPiece.value, target).Some?
      else SimpleMoveResult(state.board, moves, state.selectedPiece.value, target).Some?
    ensures ApplyMoveStep(state, target) ==
      if HasCaptures(AllMoves(StoreRule, state.board, state.currentPlayer))
      then CaptureBranch(state, state.selectedPiece.value, target)
      else StepBranch(state, state.selectedPiece.value, target)
  {
    var moves := AllMoves(StoreRule, state.board, state.currentPlayer);
    TargetsMatchApply(state.board, moves, state.selectedPiece.value, target);
    assert IsInMoveTargets(Some(MoveTargets(state.selectedPiece.value, moves)), target);
  }

  /** An accepted capture continues as AfterCapture with the engine's result. */
  lemma ApplyCaptureStep(state: GameState, target: Position)
    requires IsBoard(state.board) && WellFormed(state.board) && state.winner.None? && state.selectedPiece.Some?
    requires HasCaptures(AllMoves(StoreRule, state.board, state.currentPlayer))
    requires CaptureMoveResult(state.board, AllMoves(StoreRule, state.board, state.currentPlayer), state.selectedPiece.value, target).Some?
    ensures IsMoveInBounds(|state.board|, target)
    ensures GameReducer(state, ApplyMoveAction(target)) ==
      AfterCapture(state, CaptureMoveResult(state.board, AllMoves(StoreRule, state.board, state.currentPlayer), state.selectedPiece.value, target).value)
  {
    ApplyMoveDispatch(state, target);
    ApplyMoveTakesBranch(state, target);
    CaptureTargetOnBoard(state.board, state.currentPlayer, state.selectedPiece.value, target);
  }

  /** An accepted step continues as AfterStep with the engine's result. */
  lemma ApplySimpleStep(state: GameState, target: Position)
    requires IsBoard(state.board) && WellFormed(state.board) && state.winner.None? && state.selectedPiece.Some?
    requires !HasCaptures(AllMoves(StoreRule, state.board, state.currentPlayer))
    requires SimpleMoveResult(state.board, AllMoves(StoreRule, state.board, state.currentPlayer), state.selectedPiece.value, target).Some?
    ensures GameReducer(state, ApplyMoveAction(target)) ==
      AfterStep(state, SimpleMoveResult(state.board, AllMoves(StoreRule, state.board, state.currentPlayer), state.selectedPiece.value, target).value)
  {
    ApplyMoveDispatch(state, target);
    ApplyMoveTakesBranch(state, target);
  }
}
