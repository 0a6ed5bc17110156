/** The computer player: a random move with strict priority — the forced capture chain's piece
    first, then any piece with a capture, then any piece with a step.

    The random picks are nondeterministic choices; the contract says which picks are possible. */
module AiPlayer {
  import opened Types
  import opened Utils
  import opened Engine
  import opened EngineProperties
  import opened EngineOutcomes
  import opened Actions
  import opened Reducer
  import opened ReducerProperties
  import PositionKey

  /** A forced-capture key is set and has captures listed under it. */
  predicate ForcedPick(moves: MoveSet, forcedCaptureKey: Option<string>) {
    KeyPresent(forcedCaptureKey) && |CapturesFor(moves, forcedCaptureKey.value)| > 0
  }

  /** `pick` moves the piece whose key is `key` along one of its listed captures. */
  predicate PicksCapture(moves: MoveSet, key: string, pick: AiMove) {
    key in moves.captures && PositionKey.Parse(key) == Some(pick.piece) &&
    exists c :: c in moves.captures[key] && c.to == pick.target
  }

  /** `pick` moves the piece whose key is `key` along one of its listed steps. */
  predicate PicksStep(moves: MoveSet, key: string, pick: AiMove) {
    key in moves.steps && PositionKey.Parse(key) == Some(pick.piece) &&
    exists s :: s in moves.steps[key] && s.to == pick.target
  }

  /** The moves the computer may answer with: the forced piece's captures, else any listed
      capture, else (only when no capture is listed) any listed step. */
  ghost predicate Choosable(moves: MoveSet, forcedCaptureKey: Option<string>, pick: AiMove) {
    if ForcedPick(moves, forcedCaptureKey) then PicksCapture(moves, forcedCaptureKey.value, pick)
    else if |moves.captures| > 0 then exists key :: PicksCapture(moves, key, pick)
    else exists key :: PicksStep(moves, key, pick)
  }

  /** Every listed key is the text of a square. */
  predicate KeysParse(moves: MoveSet) {
    (forall k :: k in moves.captures ==> PositionKey.Parse(k).Some?) &&
    (forall k :: k in moves.steps ==> PositionKey.Parse(k).Some?)
  }

  /** pickAiMove of src/store/game-logic/ai-player.ts. */
  method PickAiMove(moves: MoveSet, forcedCaptureKey: Option<string>) returns (r: Option<AiMove>)
    requires KeysParse(moves)
    ensures r.Some? ==> Choosable(moves, forcedCaptureKey, r.value)
    ensures r.None? ==> (!ForcedPick(moves, forcedCaptureKey) &&
      ((|moves.captures| == 0 && |moves.steps| == 0) ||
       (exists k :: k in moves.captures && |moves.captures[k]| == 0) ||
       (|moves.captures| == 0 && exists k :: k in moves.steps && |moves.steps[k]| == 0)))
    ensures |moves.captures| == 0 && |moves.steps| == 0 ==> r.None?
  {
    if ForcedPick(moves, forcedCaptureKey) {
      var key := forcedCaptureKey.value;
      var capture := SelectRandom(moves.captures[key]);
      var c := capture.value;
      return Some(AiMove(PositionKey.Parse(key).value, c.to));
    }

    if |moves.captures| > 0 {
      var key :| key in moves.captures;
      var capture := SelectRandom(moves.captures[key]);
      if capture.None? {
        return None;
      }
      var c := capture.value;
      r := Some(AiMove(PositionKey.Parse(key).value, c.to));
      assert PicksCapture(moves, key, r.value);
      return;
    }

    if |moves.steps| > 0 {
      var key :| key in moves.steps;
      var step := SelectRandom(moves.steps[key]);
      if step.None? {
        return None;
      }
      var s := step.value;
      r := Some(AiMove(PositionKey.Parse(key).value, s.to));
      assert PicksStep(moves, key, r.value);
      return;
    }

    return None;
  }

  // ---------------------------------------------------------------- on the engine's catalogue

  /** The engine's keys all parse, and its lists are never empty, so on a catalogue the computer
      finds a move exactly when the side to move has one. */
  lemma CatalogueKeysParse(rule: LandingRule, board: Board, player: Color)
    requires IsBoard(board) && WellFormed(board)
    ensures KeysParse(AllMoves(rule, board, player))
    ensures forall k :: k in AllMoves(rule, board, player).captures ==> |AllMoves(rule, board, player).captures[k]| > 0
    ensures forall k :: k in AllMoves(rule, board, player).steps ==> |AllMoves(rule, board, player).steps[k]| > 0
  {
    var m := AllMoves(rule, board, player);
    CatalogueShape(rule, board, player);
    forall k | k in m.captures || k in m.steps ensures PositionKey.Parse(k).Some? {
      var p := CatalogueEntry(rule, board, player, k);
      PositionKey.ParseGet(p);
    }
  }

  /** A listed capture picked for key k moves the piece on the square named k along one of its
      legal captures. */
  lemma PickedCaptureIsLegal(rule: LandingRule, board: Board, player: Color, key: string, pick: AiMove)
    requires IsBoard(board) && WellFormed(board)
    requires PicksCapture(AllMoves(rule, board, player), key, pick)
    ensures PositionKey.Get(pick.piece) == key
    ensures IsMoveInBounds(|board|, pick.piece) && HoldsOwn(board, player, pick.piece)
    ensures exists c :: c in LegalCaptures(rule, board, board[pick.piece.y][pick.piece.x].value) && c.to == pick.target
  {
    var p := CatalogueEntry(rule, board, player, key);
    PositionKey.ParseGet(p);
  }

  /** A listed step picked for key k moves the piece on the square named k along one of its legal
      steps. */
  lemma PickedStepIsLegal(rule: LandingRule, board: Board, player: Color, key: string, pick: AiMove)
    requires IsBoard(board) && WellFormed(board)
    requires PicksStep(AllMoves(rule, board, player), key, pick)
    ensures PositionKey.Get(pick.piece) == key
    ensures IsMoveInBounds(|board|, pick.piece) && HoldsOwn(board, player, pick.piece)
    ensures Step(pick.piece, pick.target) in LegalSteps(rule, board, board[pick.piece.y][pick.piece.x].value)
  {
    var p := CatalogueEntry(rule, board, player, key);
    PositionKey.ParseGet(p);
    var piece := board[p.y][p.x].value;
    var s :| s in LegalSteps(rule, board, piece) && s.to == pick.target;
    LegalStepsExactly(rule, board, piece, s);
  }

  /** On the engine's catalogue every possible answer is a legal move of the side to move:
      a capture whenever the side has one, a step otherwise. */
  lemma AiPickIsLegal(rule: LandingRule, board: Board, player: Color, forcedCaptureKey: Option<string>, pick: AiMove)
    requires IsBoard(board) && WellFormed(board)
    requires Choosable(AllMoves(rule, board, player), forcedCaptureKey, pick)
    ensures IsMoveInBounds(|board|, pick.piece) && HoldsOwn(board, player, pick.piece)
    ensures HasCaptures(AllMoves(rule, board, player)) ==>
      exists c :: c in LegalCaptures(rule, board, board[pick.piece.y][pick.piece.x].value) && c.to == pick.target
    ensures !HasCaptures(AllMoves(rule, board, player)) ==>
      Step(pick.piece, pick.target) in LegalSteps(rule, board, board[pick.piece.y][pick.piece.x].value)
  {
    var moves := AllMoves(rule, board, player);
    if ForcedPick(moves, forcedCaptureKey) {
      PickedCaptureIsLegal(rule, board, player, forcedCaptureKey.value, pick);
    } else if |moves.captures| > 0 {
      var key :| PicksCapture(moves, key, pick);
      PickedCaptureIsLegal(rule, board, player, key, pick);
    } else {
      var key :| PicksStep(moves, key, pick);
      PickedStepIsLegal(rule, board, player, key, pick);
    }
  }

  /** The computer's answer to a state the reducer reached, dispatched as SELECT_PIECE of its
      piece, selects that piece, and its target is then one of the selected piece's targets —
      so the APPLY_MOVE that follows is accepted and carried out. */
  lemma AiPickIsPlayable(state: GameState, pick: AiMove)
    requires ValidState(state) && state.winner.None?
    requires Choosable(AllMoves(StoreRule, state.board, state.currentPlayer), state.forcedCaptureKey, pick)
    ensures var selected := GameReducer(state, SelectPieceAction(pick.piece));
      IsMoveInBounds(|state.board|, pick.piece) && state.board[pick.piece.y][pick.piece.x].Some? &&
      selected == state.(selectedPiece := state.board[pick.piece.y][pick.piece.x]) &&
      PositionKey.Get(pick.target) in MoveTargets(state.board[pick.piece.y][pick.piece.x].value,
        AllMoves(StoreRule, selected.board, selected.currentPlayer))
  {
    var board, player := state.board, state.currentPlayer;
    var moves := AllMoves(StoreRule, board, player);
    AiPickIsLegal(StoreRule, board, player, state.forcedCaptureKey, pick);
    CatalogueShape(StoreRule, board, player);
    var p := pick.piece;
    var piece := board[p.y][p.x].value;
    assert piece.Pos() == p;
    AllMovesCatalogue(StoreRule, board, player);
    assert EntryOf(StoreRule, board, player, moves, p);
    SelectPieceOutcome(state, p);
    SelectableSquares(StoreRule, state, p);
    if ForcedCaptureApplies(StoreRule, state) {
      assert PositionKey.Get(state.selectedPiece.value.Pos()) != "";
      PickedCaptureIsLegal(StoreRule, board, player, state.forcedCaptureKey.value, pick);
    }
    MoveTargetsExactly(piece, moves, pick.target);
    if HasCaptures(moves) {
      var c :| c in LegalCaptures(StoreRule, board, piece) && c.to == pick.target;
    } else {
      assert Step(p, pick.target) in StepsFor(moves, PositionKey.Get(p));
    }
  }
}
