# Checkers rules engine and turn reducer

A Dafny model of the game logic of an 8x8 checkers application: the rules engine that
generates steps and captures, builds the per-turn move catalogue, decides which pieces may be
picked up and where they may go, applies moves with king promotion, keeps statistics and
detects the end of the game; the turn reducer that drives it from the user interface; the
action constructors; and the computer player's random move picker.

Boards are values (`seq<seq<Option<Piece>>>`, rows indexed by `y`), positions are keyed by the
text `"x:y"`, and the move catalogue is a pair of maps from keys to move lists. Every loop of
the engine is a Dafny method whose postcondition ties its result to a specification function
(a recursive fold, or for the move targets a set comprehension); the properties are proved
about those functions.

- `types.dfy` (`Types`): positions, pieces, boards, steps, captures, the move catalogue,
  statistics, winners, modes and the game state.
- `rules.dfy` (`Rules`): the board size, the movement offset tables, the playable-square
  test and the starting squares.
- `utils.dfy` (`Utils`): bounds, cell access, offsets, position equality, board cloning, the
  empty board and the random pick.
- `position_key.dfy` (`PositionKey`): the `"x:y"` key, with integer printing and parsing.
- `engine.dfy` (`Engine`): the engine. The repository holds two copies that differ only in
  the landing test: `src/game-logic/engine.ts` requires a playable square, while
  `src/store/game-logic/engine.ts` accepts any empty square. The parameter
  `LandingRule = PlayableSquaresOnly | AnyEmptySquare` selects the copy.
- `engine_properties.dfy` (`EngineProperties`): exact characterisations of the legal steps
  and captures of a piece and of every entry of the move catalogue.
- `engine_outcomes.dfy` (`EngineOutcomes`): the catalogue's shape, the interactivity
  partition, move targets, the end-of-game verdict, and the agreement of the two landing
  rules on boards whose pieces stand on playable squares.
- `actions.dfy` (`Actions`): the action datatype, its type tags and the five constructors.
- `reducer.dfy` (`Reducer`): the initial state (a loop that fills the starting board) and
  the transition function `GameReducer(state, action)`.
- `reducer_properties.dfy` (`ReducerProperties`): the state invariant, the starting
  position, and the outcome of every action.
- `reducer_invariant.dfy` (`ReducerInvariant`): what an accepted move does to the turn, the
  selection, the forced-capture key and the statistics. It also proves that every action
  keeps the invariant, so every state reachable from a new game satisfies it.
- `ai_player.dfy` (`AiPlayer`): the computer's move picker and the proof that every move
  it may pick is legal and accepted by the reducer.

Both reducer copies call the store engine, which lands on any empty square, so the reducer
uses `StoreRule := AnyEmptySquare`. For the end-of-game test they import `evaluateWinner`
from the store engine, but only `src/game-logic/engine.ts:291-339` defines it, so `WinnerOf`
follows that definition and its playable-square rule. `ReducerProperties.EnginesAgree`
proves that on every state the reducer reaches, the two copies build the same catalogue.
The choice of copy therefore makes no difference to the game.

The reducer of `src/components/App/App.tsx:79-210` is the reducer of
`src/store/game-logic/reducer.ts:71-202` line for line up to names (the store's `gameReducer`
and `GameAction` are called `reducer` and `Action` in `App.tsx`), 8 lines lower in the file. Its
`createInitialGameState` differs only in the type of its parameter. One model covers both,
and both are cited below.

## Model

| member | source | states |
|---|---|---|
| Rules.KingMovementOffsets | src/store/game-logic/rules.ts:8-13 | four distinct offsets, each a unit diagonal, and every unit diagonal is among them |
| Rules.ForwardMovementOffsets | src/store/game-logic/rules.ts:15-24 | two distinct offsets per colour, both among the king offsets, with dy = +1 for light and dy = -1 for dark; every unit diagonal in that row direction is one of them |
| Rules.KingOffsetsOrder | src/store/game-logic/rules.ts:8-24 | the king table is the light pair followed by the dark pair, each pair listing the x = -1 diagonal first |
| Utils.IsMoveInBounds | src/game-logic/utils.ts:12-14 | true exactly when both coordinates index a row and a cell of a board of that size, so never on an empty board; the copy at `src/store/game-logic/utils.ts:14-16` is the same code |
| Utils.GetPiece | src/game-logic/utils.ts:4-6 | the cell is `board[y][x]`, and on a well-formed board a piece found there carries that square's coordinates |
| Utils.GetOffsetsFor | src/game-logic/utils.ts:8-10 | a king gets the king offsets; a man gets two offsets in its colour's forward row direction; all are unit diagonals; the copy at `src/store/game-logic/utils.ts:10-12` is the same code |
| Utils.Equals | src/game-logic/utils.ts:16 | true exactly when both coordinates match; the copy at `src/store/game-logic/utils.ts:18` is the same code |
| Utils.CloneBoard | src/game-logic/utils.ts:18-20 | the copy has the same number of rows and every row equal to the original's; the copy at `src/store/game-logic/utils.ts:20-22` is the same code |
| Utils.CreateEmptyBoard | src/game-logic/utils.ts:38-39 | an 8x8 board with every cell empty |
| Utils.SelectRandom | src/game-logic/utils.ts:31-35 | None exactly for the empty list, otherwise some element of the list |
| PositionKey.Get | src/game-logic/utils.ts:24 | the key is never the empty string, which the source's `forcedCaptureKey` tests would read as no key; `ParseGet` and `GetInjective` state its round trip and injectivity |
| PositionKey.Parse | src/game-logic/utils.ts:25-28 | a key without a separator gives no position, and a key that gives one has a non-empty first field and at least three characters |
| PositionKey.ParseGet | src/game-logic/utils.ts:22-29 | parsing the key of any integer position gives back that position; the copy at `src/store/game-logic/utils.ts:24-31` is the same code |
| PositionKey.GetInjective | src/game-logic/utils.ts:24 | two positions have the same key exactly when they are equal |
| PositionKey.GetExample | src/game-logic/utils.ts:24 | the key of (6, 2) is `"6:2"` |
| PositionKey.ParseIntText | src/game-logic/utils.ts:26 | the decimal text of any integer parses back to it |
| Engine.OpponentOf | src/game-logic/engine.ts:18-20 | the opponent's colour differs from the player's |
| Engine.GetNextPlayer | src/game-logic/engine.ts:214-216 | the next player is the opponent |
| Engine.IsValidLandingSpot | src/game-logic/engine.ts:22-24 | under both rules a landing square is on the board and empty; the canonical rule also demands a playable square, while the copy at `src/store/game-logic/engine.ts:20-22` accepts any empty on-board square |
| Engine.LegalStepsPerPiece | src/game-logic/engine.ts:28-54 | the loop returns `LegalSteps`, the steps along the piece's offsets in offset order |
| Engine.LegalCapturesPerPiece | src/game-logic/engine.ts:62-98 | the loop returns `LegalCaptures`, the single jumps along the piece's offsets in offset order |
| Engine.SelectAllMovesPerTurn | src/game-logic/engine.ts:102-126 | the nested loops build `AllMoves`, the row-major catalogue of the side to move |
| Engine.SelectInteractivityState | src/game-logic/engine.ts:131-181 | the result is `Interactivity`: the forced piece alone while its chain goes on, otherwise a split of the side's pieces by whether their key is a candidate |
| Engine.DisableAllBut | src/game-logic/engine.ts:139-149 | the sweep disables exactly the side's own keys other than the forced one |
| Engine.SplitByMoves | src/game-logic/engine.ts:158-175 | the sweep makes the side's keys with a move of the required kind selectable and the rest disabled |
| Engine.SweepRow | src/game-logic/engine.ts:160-174 | one row of that sweep equals the fold `SplitRow` |
| Engine.SplitRowsPartition | src/game-logic/engine.ts:158-175 | the fold adds own keys that are candidates to `selectable` and the other own keys to `disabled` |
| Engine.Interactivity | src/game-logic/engine.ts:131-181 | the selectable and disabled sets are disjoint |
| Engine.SelectMoveTargetsFor | src/game-logic/engine.ts:186-203 | the loop returns `MoveTargets`: the keys of the piece's capture landings while any capture exists, else of its step destinations |
| Engine.IsInMoveTargets | src/game-logic/engine.ts:206-208 | false for a missing target set |
| Engine.HasCaptures | src/game-logic/engine.ts:210-212 | true exactly when the capture map is not empty |
| Engine.PromoteToKing | src/game-logic/engine.ts:219-228 | a moved piece is crowned exactly when it is already a king or stands on its colour's crowning row (row 7 for light, row 0 for dark) |
| Engine.AfterMove | src/game-logic/engine.ts:219-228 | the moved piece stands on the target and keeps its colour; it is a king exactly when it was one or it reached its crowning row, so a king is never demoted |
| Engine.Find | src/game-logic/engine.ts:234 | `find` over a move list: None exactly when no listed move ends on the target, otherwise the first listed move that does (every earlier one ends elsewhere); the same search serves captures at line 256 |
| Engine.BoardAfter | src/game-logic/engine.ts:237-248 | the vacated squares become empty, the target holds the moved piece, every other cell is unchanged |
| Engine.SimpleMoveResult | src/game-logic/engine.ts:232-250 | null exactly when no step of the piece ends on the target; otherwise only the origin and the target change |
| Engine.CaptureMoveResult | src/game-logic/engine.ts:254-273 | null exactly when no capture of the piece ends on the target; otherwise the result reports the jumped square of the first listed capture that ends on the target, and only the origin, that jumped square and the target change |
| Engine.ApplySimpleMove | src/game-logic/engine.ts:232-250 | the copy-and-write implementation returns `SimpleMoveResult`; the copy at `src/store/game-logic/engine.ts:209-227` is the same code |
| Engine.ApplyCaptureMove | src/game-logic/engine.ts:254-273 | the copy-and-write implementation returns `CaptureMoveResult`; the copy at `src/store/game-logic/engine.ts:229-248` is the same code |
| Engine.IncrementStatsFor | src/game-logic/engine.ts:276-289 | adds the deltas (missing counts as zero) to the given colour's tally and leaves the other colour's tally identical; the copy at `src/store/game-logic/engine.ts:250-263` is the same code |
| Engine.WinnerOf | src/game-logic/engine.ts:291-339 | no verdict exactly when both colours have pieces and can move; a winner has pieces while the loser has none or cannot move; a draw means neither has pieces or neither can move |
| Engine.EvaluateWinner | src/game-logic/engine.ts:291-339 | the counting loop and the verdict equal `WinnerOf`, which depends on the board alone |
| EngineProperties.OffsetsAreDirections | src/game-logic/utils.ts:8-10 | an offset is in a piece's list exactly when it is a unit diagonal, and for a man also forward |
| EngineProperties.StepsAlongExactly | src/game-logic/engine.ts:33-51 | the steps along an offset list are exactly the open adjacent squares in those directions, at most one per offset |
| EngineProperties.CapturesAlongExactly | src/game-logic/engine.ts:67-95 | the captures along an offset list are exactly the jumps those directions allow, at most one per offset |
| EngineProperties.StepsAlongOrdered | src/game-logic/engine.ts:30-51 | steps come out in offset order: of two steps, the earlier one's direction stands earlier in the offset list |
| EngineProperties.CapturesAlongOrdered | src/game-logic/engine.ts:67-95 | captures come out in offset order: of two captures, the earlier one's direction stands earlier in the offset list |
| EngineProperties.LegalStepsExactly | src/game-logic/engine.ts:22-54 | a step is legal exactly when it starts on the piece's square and goes one square in a direction the piece may move to an in-bounds, empty (and under the canonical rule playable) square; at most four steps |
| EngineProperties.LegalCapturesExactly | src/game-logic/engine.ts:62-98 | a capture is legal exactly when it jumps from the piece's square over an adjacent opposing piece in one of its directions onto the in-bounds, empty (and under the canonical rule playable) square beyond; at most four captures; at `src/store/game-logic/engine.ts:52-88`, the same under the store rule, which does not require a playable landing square |
| EngineProperties.AllMovesCatalogue | src/game-logic/engine.ts:102-126 | for every square, the catalogue lists the piece's captures under its key if it is the side's and has any; otherwise its steps if it has any; otherwise nothing |
| EngineOutcomes.CatalogueEntry | src/game-logic/engine.ts:102-126 | every catalogue key is the key of a square holding one of the side's pieces, with that piece's entry |
| EngineOutcomes.CatalogueShape | src/game-logic/engine.ts:102-126 | no key is in both maps, no list is empty, every key is an own piece's key, and every listed square is on the board; the copy at `src/store/game-logic/engine.ts:90-113` is the same code |
| EngineOutcomes.OwnKeysExactly | src/game-logic/engine.ts:139-172 | a square's key is among the swept own keys exactly when it holds a piece of the side |
| EngineOutcomes.OwnKeySquare | src/game-logic/engine.ts:139-172 | every swept own key names an on-board square holding a piece of the side |
| EngineOutcomes.InteractivityExactly | src/game-logic/engine.ts:131-181 | selectable and disabled are disjoint and together are exactly the side's pieces. With a live forced key, selectable is exactly that key; otherwise it is the capture keys when any capture exists, else the step keys; the copy at `src/store/game-logic/engine.ts:115-167` is the same code |
| EngineOutcomes.SelectableSquares | src/game-logic/engine.ts:131-181 | square by square: selectable exactly when it is the live forced key, or, without one, it holds an own piece with captures (when the side has any) or steps (when it has none) |
| EngineOutcomes.MoveTargetsExactly | src/game-logic/engine.ts:186-203 | a square is a target exactly when a listed capture (while any capture exists) or step (otherwise) of the piece ends there; a piece without an entry has no targets |
| EngineOutcomes.FirstCaptureApplied | src/game-logic/engine.ts:254-273 | with two listed captures of one piece onto one square, the first is applied: its jumped square is reported, and the second's jumped piece stays on the board |
| EngineOutcomes.TargetsMatchApply | src/game-logic/engine.ts:206-273 | a target passes the target test exactly when the move the reducer then applies succeeds, so an accepted target is never rejected with null |
| EngineOutcomes.BoardAfterWellFormed | src/game-logic/engine.ts:237-248 | after a move every piece still carries its own square's coordinates |
| EngineOutcomes.CountPositive | src/game-logic/engine.ts:294-305 | a colour's count is positive exactly when it has a piece on the board |
| EngineOutcomes.CanMoveExactly | src/game-logic/engine.ts:321-324 | a side can move exactly when one of its pieces has a capture or a step |
| EngineOutcomes.CanMoveHasPieces | src/game-logic/engine.ts:306-324 | a side that can move has a piece |
| EngineOutcomes.WinnerExactly | src/game-logic/engine.ts:291-339 | no winner exactly when both sides can move; a draw when neither side has pieces, or both have pieces and neither can move; a side wins when it has pieces and the other cannot move, and either it can move or the other has no pieces |
| EngineOutcomes.LandingRulesDiffer | src/store/game-logic/engine.ts:20-22 | on the empty board the store rule accepts (1, 0), the canonical rule rejects it, and both accept (0, 0) |
| EngineOutcomes.DiagonalKeepsParity | src/game-logic/engine.ts:22-24 | one or two diagonal offsets away keeps a square's colour |
| EngineOutcomes.LegalMovesAgree | src/store/game-logic/engine.ts:24-88 | for a piece on a playable square the two copies generate the same steps and captures |
| EngineOutcomes.AllMovesAgree | src/store/game-logic/engine.ts:90-113 | on a board whose pieces all stand on playable squares the two copies build the same catalogue |
| Actions.SelectPiece | src/game-logic/state.actions.ts:11-14 | the action has type SELECT_PIECE and the given payload |
| Actions.DeselectPiece | src/game-logic/state.actions.ts:16-19 | the action has type DESELECT_PIECE and the given payload |
| Actions.ApplyMove | src/game-logic/state.actions.ts:21-24 | the action has type APPLY_MOVE and the given payload |
| Actions.SetMode | src/game-logic/state.actions.ts:26-29 | the action has type SET_MODE and the given mode |
| Actions.NewGame | src/game-logic/state.actions.ts:31-33 | the action has type NEW_GAME and no payload |
| Actions.ActionTypeIdentifiesKind | src/game-logic/state.actions.ts:3-9 | two actions have the same type tag exactly when they are of the same kind |
| Reducer.InitialBoard | src/store/game-logic/reducer.ts:25-50 | an 8x8 board whose every cell holds the starting contents of its square |
| Reducer.CreateInitialBoard | src/store/game-logic/reducer.ts:25-50 | the nested loops produce exactly the starting board |
| Reducer.InitialGameState | src/store/game-logic/reducer.ts:52-66 | the starting board, dark to move, no selection, no forced key, no winner, no mode and zero tallies for both colours; the copy at `src/components/App/App.tsx:60-74` is the same code |
| Reducer.SelectPieceStep | src/store/game-logic/reducer.ts:77-90 | the state is unchanged, or only the selection changes, to the on-board piece on the payload square, and only when that square's key is selectable; the copy at `src/components/App/App.tsx:85-98` is the same code |
| Reducer.DeselectPieceStep | src/store/game-logic/reducer.ts:92-106 | the state is unchanged, or only the selection is cleared and it stood on the payload square; a selection under the forced key is never cleared; the copy at `src/components/App/App.tsx:100-114` is the same code |
| Reducer.ApplyMoveStep | src/store/game-logic/reducer.ts:108-185 | the state changes only when a piece is selected and the target's key is among its move targets, and the mode never changes; the copy at `src/components/App/App.tsx:116-193` is the same code |
| Reducer.CaptureBranch | src/store/game-logic/reducer.ts:115-160 | a capture the engine rejects leaves the state unchanged; an accepted one installs the engine's board and adds one capture to the mover's tally |
| Reducer.AfterCapture | src/store/game-logic/reducer.ts:119-160 | the engine's board is installed and the mode kept; the mover gains one capture and the opponent's tally is untouched; a verdict is recorded with the same player and no selection; the turn passes only with the selection and forced key cleared; a forced key is the landing square's key, with the same player and the landed piece selected |
| Reducer.StepBranch | src/store/game-logic/reducer.ts:163-184 | a step the engine rejects leaves the state unchanged; an accepted one installs the engine's board, clears the selection and adds one move to the mover's tally |
| Reducer.AfterStep | src/store/game-logic/reducer.ts:165-184 | the engine's board is installed, the mode kept, the selection and forced key cleared; the mover gains one move and no capture, the opponent's tally is untouched, and the turn stays with the mover exactly when the board has a verdict |
| Reducer.GameReducer | src/store/game-logic/reducer.ts:71-202 | a decided game is frozen except for NEW_GAME, which returns the initial state; no action but APPLY_MOVE changes the board, the player, the statistics or the verdict; SET_MODE sets the mode and clears the forced key; the copy at `src/components/App/App.tsx:79-210` is the same code |
| Reducer.CreateInitialGameState | src/store/game-logic/reducer.ts:24-67 | the constructed state is the initial state; the copy at `src/components/App/App.tsx:32-75` differs only in its parameter type |
| ReducerProperties.EnginesAgree | src/store/game-logic/engine.ts:90-167 | on a valid state both engine copies build the same catalogue and the same interactivity sets |
| ReducerProperties.InitialPosition | src/store/game-logic/reducer.ts:29-50 | the starting board has men on the playable squares of rows 0-2 (light) and 5-7 (dark), no kings, and nothing else |
| ReducerProperties.InitialStateValid | src/store/game-logic/reducer.ts:24-67 | the new game satisfies the invariant: dark to move, no selection, no forced key, no winner, no mode, zero statistics |
| ReducerProperties.StepAvailable | src/game-logic/engine.ts:28-54 | a piece with an open playable square in one of its directions can move |
| ReducerProperties.InitialDarkManCanStep | src/store/game-logic/reducer.ts:29-50 | in the starting position the dark man on (1, 5) can move |
| ReducerProperties.InitialLightManCanStep | src/store/game-logic/reducer.ts:29-50 | in the starting position the light man on (0, 2) can move |
| ReducerProperties.InitialNoWinner | src/game-logic/engine.ts:291-339 | the starting position has no winner |
| ReducerProperties.WinnerFreezes | src/store/game-logic/reducer.ts:72-74 | with a winner set every action but NEW_GAME returns the state unchanged; the copy at `src/components/App/App.tsx:80-82` is the same code |
| ReducerProperties.NewGameRestarts | src/store/game-logic/reducer.ts:195-197 | NEW_GAME returns the initial state, valid and undecided, from any state; the copy at `src/components/App/App.tsx:203-205` is the same code |
| ReducerProperties.SetModeOutcome | src/store/game-logic/reducer.ts:187-193 | SET_MODE sets the mode, clears the forced key and changes nothing else |
| ReducerProperties.SelectPieceOutcome | src/store/game-logic/reducer.ts:77-90 | SELECT_PIECE selects the piece on an on-board selectable square and otherwise changes nothing; the copy at `src/components/App/App.tsx:85-98` is the same code |
| ReducerProperties.DeselectPieceOutcome | src/store/game-logic/reducer.ts:92-106 | DESELECT_PIECE clears the selection exactly when no forced chain is under way and the square is the selected piece's, and otherwise changes nothing; the copy at `src/components/App/App.tsx:100-114` is the same code |
| ReducerProperties.ForcedChainLocksSelection | src/store/game-logic/reducer.ts:77-106 | during a forced chain neither SELECT_PIECE nor DESELECT_PIECE changes the selection or the forced key |
| ReducerProperties.SelectedEntry | src/store/game-logic/reducer.ts:110-112 | the catalogue's entries for the selected piece are its own legal captures and steps |
| ReducerProperties.ApplyMoveRejected | src/store/game-logic/reducer.ts:109-113 | APPLY_MOVE without a selection, or onto a square that is not a target, returns the state unchanged |
| ReducerProperties.ApplyMoveBoard | src/store/game-logic/reducer.ts:115-171 | an accepted APPLY_MOVE succeeds in the engine (capture while any capture exists, step otherwise) and installs the engine's new board |
| ReducerProperties.CaptureIsLegal | src/store/game-logic/reducer.ts:116 | the capture the engine applies is a legal capture of the selected piece onto an empty in-bounds square distinct from the origin and the jumped square |
| ReducerProperties.StepIsLegal | src/store/game-logic/reducer.ts:163 | the step the engine applies is a legal step of the selected piece onto an empty in-bounds square distinct from the origin |
| ReducerProperties.ApplyMoveAccepted | src/store/game-logic/reducer.ts:108-185 | an accepted target is carried out as a legal capture or step: the origin (and jumped square) empty, the crowned-if-due piece on the target, no other cell changed |
| ReducerProperties.ApplyCaptureStep | src/store/game-logic/reducer.ts:115-160 | an accepted capture continues with the capture branch applied to the engine's result |
| ReducerProperties.ApplySimpleStep | src/store/game-logic/reducer.ts:163-184 | an accepted step continues with the step branch applied to the engine's result |
| ReducerInvariant.CaptureLands | src/store/game-logic/reducer.ts:137-138 | after a capture the moved piece stands on the destination |
| ReducerInvariant.CaptureOutcome | src/store/game-logic/reducer.ts:115-160 | a capture keeps the mode and records the board's verdict. A decisive capture keeps the player, clears the selection and counts +1 move +1 capture. A capture with more captures from the landing square keeps the player, selects the landed piece, sets the forced key to its square and counts +1 capture only. Otherwise it passes the turn, clears the selection and counts +1/+1; the copy at `src/components/App/App.tsx:123-168` is the same code |
| ReducerInvariant.StepOutcome | src/store/game-logic/reducer.ts:163-184 | a step keeps the mode, records the board's verdict, clears the selection and forced key, counts +1 move for the mover, and passes the turn unless the game is decided; the copy at `src/components/App/App.tsx:171-192` is the same code |
| ReducerInvariant.BoardAfterPlayable | src/game-logic/engine.ts:237-248 | emptying squares and placing a piece on a playable square keeps every piece on a playable square |
| ReducerInvariant.MovedBoardValid | src/game-logic/engine.ts:237-248 | moving onto an empty in-bounds playable square keeps the board 8x8, well-formed and on playable squares |
| ReducerInvariant.SelectedOnDarkSquare | src/store/game-logic/reducer.ts:82-86 | the selected piece of a valid state stands on a playable square |
| ReducerInvariant.CaptureKeepsParity | src/store/game-logic/engine.ts:52-88 | a legal capture lands on a square of the same colour as its origin |
| ReducerInvariant.StepKeepsParity | src/store/game-logic/engine.ts:24-50 | a legal step lands on a square of the same colour as its origin |
| ReducerInvariant.CaptureBoardValid | src/store/game-logic/reducer.ts:116-122 | the board after an accepted capture is valid and holds the moved piece on the target |
| ReducerInvariant.StepBoardValid | src/store/game-logic/reducer.ts:163-167 | the board after an accepted step is valid and holds the moved piece on the target |
| ReducerInvariant.AcceptedBoardValid | src/store/game-logic/reducer.ts:108-185 | the board after any accepted move is valid and holds the moved piece on the target |
| ReducerInvariant.ApplyMoveKeepsValid | src/store/game-logic/reducer.ts:108-185 | APPLY_MOVE keeps the state invariant |
| ReducerInvariant.SelectKeepsValid | src/store/game-logic/reducer.ts:77-90 | SELECT_PIECE keeps the state invariant |
| ReducerInvariant.DeselectKeepsValid | src/store/game-logic/reducer.ts:92-106 | DESELECT_PIECE keeps the state invariant |
| ReducerInvariant.ReducerKeepsValid | src/store/game-logic/reducer.ts:71-202 | every action keeps the state invariant |
| ReducerInvariant.Run | src/store/game-logic/reducer.ts:69-202 | every state reached from the new game by any sequence of actions satisfies the invariant |
| ReducerInvariant.StatsGrowByMoves | src/store/game-logic/reducer.ts:71-193 | apart from NEW_GAME, which resets them, only APPLY_MOVE changes the statistics, adding at most one move and one capture to the side to move and leaving the other side's tally |
| AiPlayer.PickAiMove | src/store/game-logic/ai-player.ts:6-47 | a pick is the forced piece's capture when its chain has captures; otherwise any listed capture when one exists; otherwise any listed step. No pick is possible only without a forced capture and with an empty catalogue or an empty chosen list; an empty catalogue gives no pick |
| AiPlayer.CatalogueKeysParse | src/store/game-logic/ai-player.ts:13 | every key of the engine's catalogue parses, and no list is empty |
| AiPlayer.PickedCaptureIsLegal | src/store/game-logic/ai-player.ts:20-29 | a capture picked under a key moves the side's piece on that square along one of its legal captures |
| AiPlayer.PickedStepIsLegal | src/store/game-logic/ai-player.ts:34-43 | a step picked under a key moves the side's piece on that square along one of its legal steps |
| AiPlayer.AiPickIsLegal | src/store/game-logic/ai-player.ts:6-47 | on the engine's catalogue every possible pick is a legal move of the side to move: a capture whenever the side has one, a step otherwise |
| AiPlayer.AiPickIsPlayable | src/store/game-logic/ai-player.ts:6-47 | on a reachable undecided state, dispatching SELECT_PIECE for the picked piece selects it, and the picked target is one of its move targets, so the following APPLY_MOVE is carried out |

## Left out

- The null-piece guards at the top of `legalStepsPerPiece` and `legalCapturesPerPiece` are
  left out: the model passes a piece value, never a missing one.
- `Reducer.SelectPieceStep`: a SELECT_PIECE payload off the board leaves the state
  unchanged. In the source, a row index outside the board throws, and a column index outside
  it reads `undefined`, which is then treated as no piece.
- `Reducer.InitialGameState`: `createInitialGameState` is modelled only for its two calls,
  with no overrides and with `{ mode: null }`. Both give the same state; other override
  objects are not modelled.
- `PositionKey.Parse`: keys whose first two fields are not optionally negated runs of decimal
  digits give None. The source's `Number` conversion gives NaN for some of these and 0 for an
  empty field, but it also accepts surrounding whitespace, a `+` sign, radix prefixes such as
  `0x`, fractions and exponents (`" 3:1"`, `"+3:1"`, `"0x3:1"`, `"3.5:1"`, `"1e1:1"`), all of
  which the model rejects. Every key the engine
  builds comes from `positionKey.get`, and `AiPlayer.PickAiMove` requires that all the
  catalogue's keys parse, which `AiPlayer.CatalogueKeysParse` proves for the engine's
  catalogue.
- `Utils.SelectRandom` and `AiPlayer.PickAiMove`: `Math.random` and the iteration order of
  `Map` entries are replaced by a nondeterministic choice. The contracts say which picks
  are possible, not how likely each one is.
- The checks for an empty chosen list in `pickAiMove` (lines 11, 25 and 39 of
  `ai-player.ts`) are modelled, in `AiPlayer.PickAiMove`. On the engine's catalogue they never fire, because no list is
  empty. On the forced path the list is known to be non-empty, so that check is dead code.
- Boards are required to be square (`IsBoard`) wherever the source indexes them; ragged boards are
  not modelled.
- `src/game-logic/rules.ts` and `src/game-logic/types.ts` are not part of this model. The
  board size (8), the playable-square test (even `x + y`) and the starting squares are taken
  as constants, and the starting squares are the playable squares of each side's three home
  rows.
- The React components, `useComputerTurn` (timer scheduling), the test helpers
  `createBaseState` and `createMoves`, and the store's type declarations are not modelled;
  they hold no rules logic. The unused `Piece.moves` field is dropped.
- JavaScript numbers are modelled as unbounded integers. Coordinates and counters stay far
  below 2^53, so no rounding occurs.
