/** The actions the reducer accepts, their type tags, and the constructors that build them. */
module Actions {
  import opened Types

  /** An action: its constructor is the tag, its field the payload. */
  datatype GameAction =
    | SelectPieceAction(position: Position)
    | DeselectPieceAction(position: Position)
    | ApplyMoveAction(position: Position)
    | SetModeAction(mode: GameMode)
    | NewGameAction

  const SELECT_PIECE: string := "SELECT_PIECE"
  const DESELECT_PIECE: string := "DESELECT_PIECE"
  const APPLY_MOVE: string := "APPLY_MOVE"
  const SET_MODE: string := "SET_MODE"
  const NEW_GAME: string := "NEW_GAME"

  /** The `type` field of an action. */
  function ActionType(action: GameAction): string {
    match action
    case SelectPieceAction(_) => SELECT_PIECE
    case DeselectPieceAction(_) => DESELECT_PIECE
    case ApplyMoveAction(_) => APPLY_MOVE
    case SetModeAction(_) => SET_MODE
    case NewGameAction => NEW_GAME
  }

  function SelectPiece(position: Position): (a: GameAction)
    ensures ActionType(a) == SELECT_PIECE && a.SelectPieceAction? && a.position == position
  {
    SelectPieceAction(position)
  }

  function DeselectPiece(position: Position): (a: GameAction)
    ensures ActionType(a) == DESELECT_PIECE && a.DeselectPieceAction? && a.position == position
  {
    DeselectPieceAction(position)
  }

  function ApplyMove(position: Position): (a: GameAction)
    ensures ActionType(a) == APPLY_MOVE && a.ApplyMoveAction? && a.position == position
  {
    ApplyMoveAction(position)
  }

  function SetMode(mode: GameMode): (a: GameAction)
    ensures ActionType(a) == SET_MODE && a.SetModeAction? && a.mode == mode
  {
    SetModeAction(mode)
  }

  function NewGame(): (a: GameAction)
    ensures ActionType(a) == NEW_GAME && a.NewGameAction?
  {
    NewGameAction
  }

  /** The tag identifies the kind of action: actions of different kinds carry different tags,
      so a switch on the tag reaches exactly one case. */
  lemma ActionTypeIdentifiesKind(a: GameAction, b: GameAction)
    ensures ActionType(a) == ActionType(b) <==> (
      (a.SelectPieceAction? && b.SelectPieceAction?) || (a.DeselectPieceAction? && b.DeselectPieceAction?) ||
      (a.ApplyMoveAction? && b.ApplyMoveAction?) || (a.SetModeAction? && b.SetModeAction?) ||
      (a.NewGameAction? && b.NewGameAction?))
  {
    assert SELECT_PIECE[0] == 'S' && SET_MODE[0] == 'S' && SELECT_PIECE[2] != SET_MODE[2];
    assert DESELECT_PIECE[0] == 'D' && APPLY_MOVE[0] == 'A' && NEW_GAME[0] == 'N';
  }
}
