/** The rules engine: move generation, the per-turn move catalogue, which pieces may be
    picked up, move application with promotion, statistics and the end-of-game test.

    The repository holds two copies of the engine that differ only in the landing test;
    `LandingRule` selects between them. Each loop of the source is a method proved equal to a
    specification function; the properties are proved about the functions (see engine_properties.dfy). */
module Engine {
  import opened Types
  import opened Rules
  import opened Utils
  import PositionKey

  /** PlayableSquaresOnly: src/game-logic/engine.ts. AnyEmptySquare: src/store/game-logic/engine.ts,
      whose landing test omits the playable-square check. */
  datatype LandingRule = PlayableSquaresOnly | AnyEmptySquare

  function OpponentOf(player: Color): (r: Color)
    ensures r != player
  {
    if player == Light then Dark else Light
  }

  function GetNextPlayer(currentPlayer: Color): (r: Color)
    ensures r == OpponentOf(currentPlayer)
  {
    if currentPlayer == Light then Dark else Light
  }

  /** The landing test: an empty square of the board, and in the canonical copy a playable one. */
  function IsValidLandingSpot(rule: LandingRule, board: Board, at: Position): (r: bool)
    requires IsBoard(board)
    ensures r ==> IsMoveInBounds(|board|, at) && board[at.y][at.x].None?
    ensures rule == AnyEmptySquare ==> (r <==> IsMoveInBounds(|board|, at) && board[at.y][at.x].None?)
    ensures rule == PlayableSquaresOnly ==>
      (r <==> IsMoveInBounds(|board|, at) && board[at.y][at.x].None? && IsDarkSquare(at))
  {
    IsMoveInBounds(|board|, at) && GetPiece(board, at) == None &&
    (rule == PlayableSquaresOnly ==> IsDarkSquare(at))
  }

  /** The square one offset away. */
  function Adjacent(from: Position, d: Position): Position {
    Position(from.x + d.x, from.y + d.y)
  }

  /** The square two offsets away. */
  function Landing(from: Position, d: Position): Position {
    Position(from.x + d.x * 2, from.y + d.y * 2)
  }

  function StepToward(piece: Piece, d: Position): Step {
    Step(piece.Pos(), Adjacent(piece.Pos(), d))
  }

  function JumpToward(piece: Piece, d: Position): Capture {
    Capture(piece.Pos(), Adjacent(piece.Pos(), d), Landing(piece.Pos(), d))
  }

  predicate CanStep(rule: LandingRule, board: Board, piece: Piece, d: Position)
    requires IsBoard(board)
  {
    IsValidLandingSpot(rule, board, Adjacent(piece.Pos(), d))
  }

  /** The jump test of the source, in its order: both squares on the board, an open landing
      square, and an opposing piece in between. */
  predicate CanJump(rule: LandingRule, board: Board, piece: Piece, d: Position)
    requires IsBoard(board)
  {
    var over := Adjacent(piece.Pos(), d);
    var to := Landing(piece.Pos(), d);
    IsMoveInBounds(|board|, over) && IsMoveInBounds(|board|, to) &&
    IsValidLandingSpot(rule, board, to) &&
    GetPiece(board, over).Some? && GetPiece(board, over).value.color == OpponentOf(piece.color)
  }

  // ---------------------------------------------------------------- steps and captures

  /** The steps along the given offsets, one at most per offset, in offset order. */
  function StepsAlong(rule: LandingRule, board: Board, piece: Piece, offsets: seq<Position>): seq<Step>
    requires IsBoard(board)
    decreases |offsets|
  {
    if offsets == [] then []
    else
      var d := offsets[|offsets| - 1];
      StepsAlong(rule, board, piece, offsets[..|offsets| - 1]) +
      (if CanStep(rule, board, piece, d) then [StepToward(piece, d)] else [])
  }

  function LegalSteps(rule: LandingRule, board: Board, piece: Piece): seq<Step>
    requires IsBoard(board)
  {
    StepsAlong(rule, board, piece, GetOffsetsFor(piece))
  }

  /** The single-hop captures along the given offsets, one at most per offset, in offset order. */
  function CapturesAlong(rule: LandingRule, board: Board, piece: Piece, offsets: seq<Position>): seq<Capture>
    requires IsBoard(board)
    decreases |offsets|
  {
    if offsets == [] then []
    else
      var d := offsets[|offsets| - 1];
      CapturesAlong(rule, board, piece, offsets[..|offsets| - 1]) +
      (if CanJump(rule, board, piece, d) then [JumpToward(piece, d)] else [])
  }

  function LegalCaptures(rule: LandingRule, board: Board, piece: Piece): seq<Capture>
    requires IsBoard(board)
  {
    CapturesAlong(rule, board, piece, GetOffsetsFor(piece))
  }

  lemma StepsAlongNext(rule: LandingRule, board: Board, piece: Piece, offsets: seq<Position>, i: int)
    requires IsBoard(board) && 0 <= i < |offsets|
    ensures StepsAlong(rule, board, piece, offsets[..i + 1]) ==
      StepsAlong(rule, board, piece, offsets[..i]) +
      (if CanStep(rule, board, piece, offsets[i]) then [StepToward(piece, offsets[i])] else [])
  {
    assert offsets[..i + 1][..i] == offsets[..i];
  }

  lemma CapturesAlongNext(rule: LandingRule, board: Board, piece: Piece, offsets: seq<Position>, i: int)
    requires IsBoard(board) && 0 <= i < |offsets|
    ensures CapturesAlong(rule, board, piece, offsets[..i + 1]) ==
      CapturesAlong(rule, board, piece, offsets[..i]) +
      (if CanJump(rule, board, piece, offsets[i]) then [JumpToward(piece, offsets[i])] else [])
  {
    assert offsets[..i + 1][..i] == offsets[..i];
  }

  method LegalStepsPerPiece(rule: LandingRule, board: Board, piece: Piece) returns (steps: seq<Step>)
    requires IsBoard(board)
    ensures steps == LegalSteps(rule, board, piece)
  {
    var movementOffsets := GetOffsetsFor(piece);
    steps := [];
    for i := 0 to |movementOffsets|
      invariant steps == StepsAlong(rule, board, piece, movementOffsets[..i])
    {
      var from := Position(piece.x, piece.y);
      var offset := movementOffsets[i];
      var adjacentPosition := Position(from.x + offset.x, from.y + offset.y);
      StepsAlongNext(rule, board, piece, movementOffsets, i);
      assert adjacentPosition == Adjacent(piece.Pos(), offset);
      if IsValidLandingSpot(rule, board, adjacentPosition) {
        steps := steps + [Step(from, adjacentPosition)];
      }
    }
    assert movementOffsets[..|movementOffsets|] == movementOffsets;
  }

  method LegalCapturesPerPiece(rule: LandingRule, board: Board, piece: Piece) returns (captures: seq<Capture>)
    requires IsBoard(board)
    ensures captures == LegalCaptures(rule, board, piece)
  {
    var movementOffsets := GetOffsetsFor(piece);
    captures := [];
    for i := 0 to |movementOffsets|
      invariant captures == CapturesAlong(rule, board, piece, movementOffsets[..i])
    {
      var from := Position(piece.x, piece.y);
      var offset := movementOffsets[i];
      var adjacentPosition := Position(from.x + offset.x, from.y + offset.y);
      var landingPosition := Position(from.x + offset.x * 2, from.y + offset.y * 2);
      CapturesAlongNext(rule, board, piece, movementOffsets, i);
      assert adjacentPosition == Adjacent(piece.Pos(), offset) && landingPosition == Landing(piece.Pos(), offset);
      if IsMoveInBounds(|board|, adjacentPosition) && IsMoveInBounds(|board|, landingPosition) &&
         IsValidLandingSpot(rule, board, landingPosition)
      {
        var over := GetPiece(board, adjacentPosition);
        if over.Some? && over.value.color == OpponentOf(piece.color) {
          captures := captures + [Capture(from, adjacentPosition, landingPosition)];
        }
      }
    }
    assert movementOffsets[..|movementOffsets|] == movementOffsets;
  }

  // ---------------------------------------------------------------- the per-turn catalogue

  /** Records one piece: its captures if it has any, otherwise its steps if it has any. */
  function WithPiece(rule: LandingRule, board: Board, m: MoveSet, piece: Piece): MoveSet
    requires IsBoard(board)
  {
    var key := PositionKey.Get(piece.Pos());
    var captures := LegalCaptures(rule, board, piece);
    if |captures| > 0 then m.(captures := m.captures[key := captures])
    else
      var steps := LegalSteps(rule, board, piece);
      if |steps| > 0 then m.(steps := m.steps[key := steps]) else m
  }

  function WithCell(rule: LandingRule, board: Board, player: Color, m: MoveSet, cell: Cell): MoveSet
    requires IsBoard(board)
  {
    if cell.Some? && cell.value.color == player then WithPiece(rule, board, m, cell.value) else m
  }

  function WithRow(rule: LandingRule, board: Board, player: Color, m: MoveSet, row: seq<Cell>): MoveSet
    requires IsBoard(board)
    decreases |row|
  {
    if row == [] then m
    else WithCell(rule, board, player, WithRow(rule, board, player, m, row[..|row| - 1]), row[|row| - 1])
  }

  function WithRows(rule: LandingRule, board: Board, player: Color, m: MoveSet, rows: seq<seq<Cell>>): MoveSet
    requires IsBoard(board)
    decreases |rows|
  {
    if rows == [] then m
    else WithRow(rule, board, player, WithRows(rule, board, player, m, rows[..|rows| - 1]), rows[|rows| - 1])
  }

  /** The catalogue of `player`'s moves, built in row-major order as the source does. */
  function AllMoves(rule: LandingRule, board: Board, player: Color): MoveSet
    requires IsBoard(board)
  {
    WithRows(rule, board, player, EmptyMoves, board)
  }

  method SelectAllMovesPerTurn(rule: LandingRule, state: GameState) returns (moves: MoveSet)
    requires IsBoard(state.board)
    ensures moves == AllMoves(rule, state.board, state.currentPlayer)
  {
    moves := EmptyMoves;
    var board, currentPlayer := state.board, state.currentPlayer;
    for y := 0 to |board|
      invariant moves == WithRows(rule, board, currentPlayer, EmptyMoves, board[..y])
    {
      var row := board[y];
      for x := 0 to |row|
        invariant moves == WithRow(rule, board, currentPlayer, WithRows(rule, board, currentPlayer, EmptyMoves, board[..y]), row[..x])
      {
        assert row[..x + 1][..x] == row[..x];
        var cell := row[x];
        if cell.None? { continue; }
        var piece := cell.value;
        if piece.color != currentPlayer { continue; }
        var validCaptures := LegalCapturesPerPiece(rule, board, piece);
        if |validCaptures| > 0 {
          moves := moves.(captures := moves.captures[PositionKey.Get(Position(piece.x, piece.y)) := validCaptures]);
        } else {
          var validMoves := LegalStepsPerPiece(rule, board, piece);
          if |validMoves| > 0 {
            moves := moves.(steps := moves.steps[PositionKey.Get(Position(piece.x, piece.y)) := validMoves]);
          }
        }
      }
      assert row[..|row|] == row;
      assert board[..y + 1][..y] == board[..y];
    }
    assert board[..|board|] == board;
  }

  /** Whether some piece of the catalogue has a capture, which makes capturing compulsory. */
  function HasCaptures(moves: MoveSet): (r: bool)
    ensures r <==> moves.captures != map[]
  {
    |moves.captures| > 0
  }

  function CapturesFor(moves: MoveSet, key: string): seq<Capture> {
    if key in moves.captures then moves.captures[key] else []
  }

  function StepsFor(moves: MoveSet, key: string): seq<Step> {
    if key in moves.steps then moves.steps[key] else []
  }

  // ---------------------------------------------------------------- interactivity

  /** A forced-capture key the source treats as set (the empty string is falsy there). */
  predicate KeyPresent(key: Option<string>) {
    key.Some? && key.value != ""
  }

  /** The key of the cell's piece when it is one of `player`'s. */
  function OwnKeyOf(player: Color, cell: Cell): set<string> {
    if cell.Some? && cell.value.color == player then {PositionKey.Get(cell.value.Pos())} else {}
  }

  function OwnKeysOfRow(player: Color, row: seq<Cell>): set<string>
    decreases |row|
  {
    if row == [] then {}
    else OwnKeysOfRow(player, row[..|row| - 1]) + OwnKeyOf(player, row[|row| - 1])
  }

  lemma OwnKeysOfRowNext(player: Color, row: seq<Cell>, x: int)
    requires 0 <= x < |row|
    ensures OwnKeysOfRow(player, row[..x + 1]) == OwnKeysOfRow(player, row[..x]) + OwnKeyOf(player, row[x])
  {
    assert row[..x + 1][..x] == row[..x];
  }

  function OwnKeysOfRows(player: Color, rows: seq<seq<Cell>>): set<string>
    decreases |rows|
  {
    if rows == [] then {}
    else OwnKeysOfRows(player, rows[..|rows| - 1]) + OwnKeysOfRow(player, rows[|rows| - 1])
  }

  /** The keys of all of `player`'s pieces. */
  function OwnKeys(board: Board, player: Color): set<string> {
    OwnKeysOfRows(player, board)
  }

  /** The keys a piece needs in order to be picked up, when no forced capture applies. */
  function Candidates(moves: MoveSet): set<string> {
    if HasCaptures(moves) then moves.captures.Keys else moves.steps.Keys
  }

  /** Which of the current player's pieces may be picked up, and which are dimmed. */
  function Interactivity(rule: LandingRule, state: GameState): (r: InteractiveState)
    requires IsBoard(state.board)
    ensures r.selectable !! r.disabled
  {
    var moves := AllMoves(rule, state.board, state.currentPlayer);
    var own := OwnKeys(state.board, state.currentPlayer);
    var forced := state.forcedCaptureKey;
    if KeyPresent(forced) && forced.value in moves.captures then
      InteractiveState(own - {forced.value}, {forced.value})
    else
      InteractiveState(own - Candidates(moves), own * Candidates(moves))
  }

  method SelectInteractivityState(rule: LandingRule, state: GameState) returns (r: InteractiveState)
    requires IsBoard(state.board)
    ensures r == Interactivity(rule, state)
  {
    var moves := SelectAllMovesPerTurn(rule, state);
    var mustCapture := HasCaptures(moves);
    var forcedCaptureKey := state.forcedCaptureKey;
    if KeyPresent(forcedCaptureKey) && forcedCaptureKey.value in moves.captures {
      var disabled := DisableAllBut(state.board, state.currentPlayer, forcedCaptureKey.value);
      return InteractiveState(disabled, {forcedCaptureKey.value});
    }
    var disabled, selectable := SplitByMoves(state.board, state.currentPlayer, moves, mustCapture);
    r := InteractiveState(disabled, selectable);
  }

  /** The sweep of the forced-capture branch: every own piece but the forced one is disabled. */
  method DisableAllBut(board: Board, currentPlayer: Color, forced: string) returns (disabled: set<string>)
    ensures disabled == OwnKeys(board, currentPlayer) - {forced}
  {
    disabled := {};
    for y := 0 to |board|
      invariant disabled == OwnKeysOfRows(currentPlayer, board[..y]) - {forced}
    {
      var row := board[y];
      for x := 0 to |row|
        invariant disabled == (OwnKeysOfRows(currentPlayer, board[..y]) + OwnKeysOfRow(currentPlayer, row[..x])) - {forced}
      {
        OwnKeysOfRowNext(currentPlayer, row, x);
        var cell := row[x];
        if cell.None? { continue; }
        if cell.value.color != currentPlayer { continue; }
        var pieceKey := PositionKey.Get(Position(cell.value.x, cell.value.y));
        if pieceKey != forced {
          disabled := disabled + {pieceKey};
        }
      }
      assert row[..|row|] == row;
      assert board[..y + 1][..y] == board[..y];
    }
    assert board[..|board|] == board;
  }

  /** The sweep of the normal branch: own pieces with a move of the required kind are
      selectable, the other own pieces disabled. */
  method SplitByMoves(board: Board, currentPlayer: Color, moves: MoveSet, mustCapture: bool)
    returns (disabled: set<string>, selectable: set<string>)
    requires mustCapture == HasCaptures(moves)
    ensures selectable == OwnKeys(board, currentPlayer) * Candidates(moves)
    ensures disabled == OwnKeys(board, currentPlayer) - Candidates(moves)
  {
    disabled, selectable := {}, {};
    ghost var candidates := Candidates(moves);
    ghost var start := InteractiveState({}, {});
    for y := 0 to |board|
      invariant InteractiveState(disabled, selectable) == SplitRows(currentPlayer, candidates, start, board[..y])
    {
      disabled, selectable := SweepRow(board[y], currentPlayer, moves, mustCapture, disabled, selectable);
      assert board[..y + 1][..y] == board[..y];
    }
    assert board[..|board|] == board;
    SplitRowsPartition(currentPlayer, candidates, start, board);
  }

  /** The inner loop of the normal-branch sweep, over one row. */
  method SweepRow(row: seq<Cell>, currentPlayer: Color, moves: MoveSet, mustCapture: bool,
                  disabled0: set<string>, selectable0: set<string>)
    returns (disabled: set<string>, selectable: set<string>)
    requires mustCapture == HasCaptures(moves)
    ensures InteractiveState(disabled, selectable) ==
      SplitRow(currentPlayer, Candidates(moves), InteractiveState(disabled0, selectable0), row)
  {
    disabled, selectable := disabled0, selectable0;
    for x := 0 to |row|
      invariant InteractiveState(disabled, selectable) ==
        SplitRow(currentPlayer, Candidates(moves), InteractiveState(disabled0, selectable0), row[..x])
    {
      assert row[..x + 1][..x] == row[..x];
      var cell := row[x];
      if cell.None? { continue; }
      var piece := cell.value;
      if piece.color == currentPlayer {
        var pieceKey := PositionKey.Get(Position(piece.x, piece.y));
        if mustCapture && pieceKey in moves.captures {
          selectable := selectable + {pieceKey};
        } else if !mustCapture && pieceKey in moves.steps {
          selectable := selectable + {pieceKey};
        } else {
          disabled := disabled + {pieceKey};
        }
      }
    }
    assert row[..|row|] == row;
  }

  /** One step of the normal-branch sweep: an own piece goes to `selectable` when its key is a
      candidate and to `disabled` otherwise; other cells change nothing. */
  function SplitCell(player: Color, candidates: set<string>, acc: InteractiveState, cell: Cell): InteractiveState {
    if cell.Some? && cell.value.color == player then
      var key := PositionKey.Get(cell.value.Pos());
      if key in candidates then acc.(selectable := acc.selectable + {key})
      else acc.(disabled := acc.disabled + {key})
    else acc
  }

  function SplitRow(player: Color, candidates: set<string>, acc: InteractiveState, row: seq<Cell>): InteractiveState
    decreases |row|
  {
    if row == [] then acc
    else SplitCell(player, candidates, SplitRow(player, candidates, acc, row[..|row| - 1]), row[|row| - 1])
  }

  function SplitRows(player: Color, candidates: set<string>, acc: InteractiveState, rows: seq<seq<Cell>>): InteractiveState
    decreases |rows|
  {
    if rows == [] then acc
    else SplitRow(player, candidates, SplitRows(player, candidates, acc, rows[..|rows| - 1]), rows[|rows| - 1])
  }

  /** The sweep of a row adds its own keys that are candidates to `selectable`, and the rest to `disabled`. */
  lemma {:induction false} SplitRowPartition(player: Color, candidates: set<string>, acc: InteractiveState, row: seq<Cell>)
    ensures SplitRow(player, candidates, acc, row).selectable == acc.selectable + OwnKeysOfRow(player, row) * candidates
    ensures SplitRow(player, candidates, acc, row).disabled == acc.disabled + (OwnKeysOfRow(player, row) - candidates)
    decreases |row|
  {
    if row != [] {
      SplitRowPartition(player, candidates, acc, row[..|row| - 1]);
    }
  }

  lemma {:induction false} SplitRowsPartition(player: Color, candidates: set<string>, acc: InteractiveState, rows: seq<seq<Cell>>)
    ensures SplitRows(player, candidates, acc, rows).selectable == acc.selectable + OwnKeysOfRows(player, rows) * candidates
    ensures SplitRows(player, candidates, acc, rows).disabled == acc.disabled + (OwnKeysOfRows(player, rows) - candidates)
    decreases |rows|
  {
    if rows != [] {
      var before := SplitRows(player, candidates, acc, rows[..|rows| - 1]);
      SplitRowsPartition(player, candidates, acc, rows[..|rows| - 1]);
      SplitRowPartition(player, candidates, before, rows[|rows| - 1]);
    }
  }

  // ---------------------------------------------------------------- move targets

  /** The keys of the squares the selected piece may move to now: capture landings while any
      capture exists for the side, step destinations otherwise. */
  function MoveTargets(selected: Piece, moves: MoveSet): set<string> {
    var key := PositionKey.Get(selected.Pos());
    if HasCaptures(moves) then set c | c in CapturesFor(moves, key) :: PositionKey.Get(c.to)
    else set s | s in StepsFor(moves, key) :: PositionKey.Get(s.to)
  }

  method SelectMoveTargetsFor(selected: Piece, legalMoves: MoveSet) returns (moveTargets: set<string>)
    ensures moveTargets == MoveTargets(selected, legalMoves)
  {
    moveTargets := {};
    var selectedKey := PositionKey.Get(Position(selected.x, selected.y));
    var mustCapture := HasCaptures(legalMoves);
    if mustCapture {
      var captures := CapturesFor(legalMoves, selectedKey);
      for i := 0 to |captures|
        invariant moveTargets == set c | c in captures[..i] :: PositionKey.Get(c.to)
      {
        assert forall c :: c in captures[..i + 1] <==> c in captures[..i] || c == captures[i];
        moveTargets := moveTargets + {PositionKey.Get(captures[i].to)};
      }
      assert captures[..|captures|] == captures;
    } else {
      var steps := StepsFor(legalMoves, selectedKey);
      for i := 0 to |steps|
        invariant moveTargets == set s | s in steps[..i] :: PositionKey.Get(s.to)
      {
        assert forall s :: s in steps[..i + 1] <==> s in steps[..i] || s == steps[i];
        moveTargets := moveTargets + {PositionKey.Get(steps[i].to)};
      }
      assert steps[..|steps|] == steps;
    }
  }

  /** Null-safe membership of a square in a target set. */
  function IsInMoveTargets(moveTargets: Option<set<string>>, target: Position): (r: bool)
    ensures moveTargets.None? ==> !r
  {
    moveTargets.Some? && PositionKey.Get(target) in moveTargets.value
  }

  // ---------------------------------------------------------------- applying moves

  /** Whether a piece that has just moved is crowned: a king stays one, a man on its crowning row becomes one. */
  function PromoteToKing(piece: Piece): (r: bool)
    ensures r <==> piece.isKing || piece.y == KingRow(piece.color)
  {
    piece.isKing ||
    (piece.color == Light && piece.y == BOARD_SIZE - 1) ||
    (piece.color == Dark && piece.y == 0)
  }

  /** The piece after moving to `to`, crowned if it should be. */
  function AfterMove(piece: Piece, to: Position): (moved: Piece)
    ensures moved.Pos() == to && moved.color == piece.color
    ensures moved.isKing <==> piece.isKing || to.y == KingRow(piece.color)
  {
    var pieceAfterMove := piece.(x := to.x, y := to.y);
    if PromoteToKing(pieceAfterMove) then pieceAfterMove.(isKing := true) else pieceAfterMove
  }

  /** Array.prototype.find over the destinations: the first listed move that ends on `target`. */
  function Find<M(==)>(moves: seq<M>, dest: M -> Position, target: Position): (r: Option<M>)
    ensures r.None? <==> forall i :: 0 <= i < |moves| ==> dest(moves[i]) != target
    ensures r.Some? ==> r.value in moves && dest(r.value) == target
    ensures r.Some? ==> exists i :: (0 <= i < |moves| && moves[i] == r.value &&
      forall j :: 0 <= j < i ==> dest(moves[j]) != target)
  {
    if moves == [] then None
    else if Equals(dest(moves[0]), target) then Some(moves[0])
    else
      var r := Find(moves[1..], dest, target);
      if r.None? then r
      else
        var i :| 0 <= i < |moves[1..]| && moves[1..][i] == r.value &&
          forall j :: 0 <= j < i ==> dest(moves[1..][j]) != target;
        assert moves[i + 1] == r.value;
        assert forall j :: 0 < j < i + 1 ==> dest(moves[j]) != target by {
          forall j | 0 < j < i + 1 ensures dest(moves[j]) != target {
            assert moves[j] == moves[1..][j - 1];
          }
        }
        r
  }

  /** The board with the `vacated` squares emptied and `moved` standing on `to`. */
  function BoardAfter(board: Board, vacated: set<Position>, to: Position, moved: Piece): (r: Board)
    requires IsBoard(board)
    ensures |r| == |board| && IsBoard(r)
    ensures forall y, x :: 0 <= y < |board| && 0 <= x < |board| ==>
      r[y][x] == (if Position(x, y) in vacated then None else if Position(x, y) == to then Some(moved) else board[y][x])
  {
    seq(|board|, y requires 0 <= y < |board| =>
      seq(|board|, x requires 0 <= x < |board| =>
        if Position(x, y) in vacated then None else if Position(x, y) == to then Some(moved) else board[y][x]))
  }

  datatype StepResult = StepResult(newBoard: Board, destination: Position)

  datatype CaptureResult = CaptureResult(newBoard: Board, captured: Position, destination: Position)

  /** Every listed destination (and jumped square) is on a board of the given size. */
  predicate OnBoard(moves: MoveSet, size: int) {
    (forall k, i :: k in moves.steps && 0 <= i < |moves.steps[k]| ==>
      IsMoveInBounds(size, moves.steps[k][i].to)) &&
    (forall k, i :: k in moves.captures && 0 <= i < |moves.captures[k]| ==>
      IsMoveInBounds(size, moves.captures[k][i].to) && IsMoveInBounds(size, moves.captures[k][i].over))
  }

  function SimpleMoveResult(board: Board, moves: MoveSet, selected: Piece, target: Position): (r: Option<StepResult>)
    requires IsBoard(board)
    ensures r.None? <==> forall s :: s in StepsFor(moves, PositionKey.Get(selected.Pos())) ==> s.to != target
    ensures r.Some? ==> (r.value.destination == target &&
      r.value.newBoard == BoardAfter(board, {selected.Pos()}, target, AfterMove(selected, target)))
  {
    match Find(StepsFor(moves, PositionKey.Get(selected.Pos())), (s: Step) => s.to, target)
    case None => None
    case Some(step) =>
      Some(StepResult(BoardAfter(board, {selected.Pos()}, step.to, AfterMove(selected, step.to)), step.to))
  }

  function CaptureMoveResult(board: Board, moves: MoveSet, selected: Piece, target: Position): (r: Option<CaptureResult>)
    requires IsBoard(board)
    ensures r.None? <==> forall c :: c in CapturesFor(moves, PositionKey.Get(selected.Pos())) ==> c.to != target
    ensures r.Some? ==> (r.value.destination == target &&
      exists c :: c in CapturesFor(moves, PositionKey.Get(selected.Pos())) && c.to == target && c.over == r.value.captured)
    ensures var listed := CapturesFor(moves, PositionKey.Get(selected.Pos()));
      r.Some? ==> exists i :: (0 <= i < |listed| && listed[i].to == target && listed[i].over == r.value.captured &&
        forall j :: 0 <= j < i ==> listed[j].to != target)
    ensures r.Some? ==>
      r.value.newBoard == BoardAfter(board, {selected.Pos(), r.value.captured}, target, AfterMove(selected, target))
  {
    match Find(CapturesFor(moves, PositionKey.Get(selected.Pos())), (c: Capture) => c.to, target)
    case None => None
    case Some(capture) =>
      Some(CaptureResult(
        BoardAfter(board, {selected.Pos(), capture.over}, capture.to, AfterMove(selected, capture.to)),
        capture.over, capture.to))
  }

  method ApplySimpleMove(board: Board, moves: MoveSet, selectedPiece: Piece, target: Position) returns (r: Option<StepResult>)
    requires IsBoard(board) && OnBoard(moves, |board|)
    requires PositionKey.Get(selectedPiece.Pos()) in moves.steps ==> IsMoveInBounds(|board|, selectedPiece.Pos())
    ensures r == SimpleMoveResult(board, moves, selectedPiece, target)
  {
    var selectedKey := PositionKey.Get(Position(selectedPiece.x, selectedPiece.y));
    var step := Find(StepsFor(moves, selectedKey), (s: Step) => s.to, target);
    if step.None? {
      return None;
    }
    var to := step.value.to;
    var newBoard := CloneBoard(board);
    assert newBoard == board;
    var pieceAfterMove := selectedPiece.(x := to.x, y := to.y);
    if PromoteToKing(pieceAfterMove) {
      pieceAfterMove := pieceAfterMove.(isKing := true);
    }
    newBoard := SetCell(newBoard, to, Some(pieceAfterMove));
    newBoard := SetCell(newBoard, selectedPiece.Pos(), None);
    SameCells(newBoard, BoardAfter(board, {selectedPiece.Pos()}, to, pieceAfterMove));
    r := Some(StepResult(newBoard, to));
  }

  method ApplyCaptureMove(board: Board, moves: MoveSet, selectedPiece: Piece, target: Position) returns (r: Option<CaptureResult>)
    requires IsBoard(board) && OnBoard(moves, |board|)
    requires PositionKey.Get(selectedPiece.Pos()) in moves.captures ==> IsMoveInBounds(|board|, selectedPiece.Pos())
    ensures r == CaptureMoveResult(board, moves, selectedPiece, target)
  {
    var selectedKey := PositionKey.Get(Position(selectedPiece.x, selectedPiece.y));
    var capture := Find(CapturesFor(moves, selectedKey), (c: Capture) => c.to, target);
    if capture.None? {
      return None;
    }
    var to, over := capture.value.to, capture.value.over;
    var newBoard := CloneBoard(board);
    assert newBoard == board;
    var pieceAfterMove := selectedPiece.(x := to.x, y := to.y);
    if PromoteToKing(pieceAfterMove) {
      pieceAfterMove := pieceAfterMove.(isKing := true);
    }
    newBoard := SetCell(newBoard, to, Some(pieceAfterMove));
    newBoard := SetCell(newBoard, selectedPiece.Pos(), None);
    newBoard := SetCell(newBoard, over, None);
    SameCells(newBoard, BoardAfter(board, {selectedPiece.Pos(), over}, to, pieceAfterMove));
    r := Some(CaptureResult(newBoard, over, to));
  }

  // ---------------------------------------------------------------- statistics

  function TallyOf(stats: Stats, color: Color): Tally {
    if color == Dark then stats.dark else stats.light
  }

  function OrZero(change: Option<int>): int {
    if change.Some? then change.value else 0
  }

  /** Adds the given deltas to one side's tally and leaves the other side's as it was. */
  function IncrementStatsFor(stats: Stats, color: Color, change: TallyChange): (r: Stats)
    ensures TallyOf(r, color).moves == TallyOf(stats, color).moves + OrZero(change.moves)
    ensures TallyOf(r, color).captures == TallyOf(stats, color).captures + OrZero(change.captures)
    ensures TallyOf(r, OpponentOf(color)) == TallyOf(stats, OpponentOf(color))
  {
    var player := TallyOf(stats, color);
    var updated := Tally(player.moves + OrZero(change.moves), player.captures + OrZero(change.captures));
    if color == Dark then stats.(dark := updated) else stats.(light := updated)
  }

  // ---------------------------------------------------------------- end of game

  function CountInRow(row: seq<Cell>, color: Color): nat
    decreases |row|
  {
    if row == [] then 0
    else
      var cell := row[|row| - 1];
      CountInRow(row[..|row| - 1], color) + (if cell.Some? && cell.value.color == color then 1 else 0)
  }

  function CountInRows(rows: seq<seq<Cell>>, color: Color): nat
    decreases |rows|
  {
    if rows == [] then 0 else CountInRows(rows[..|rows| - 1], color) + CountInRow(rows[|rows| - 1], color)
  }

  /** Whether `color` has any step or capture, judged by its catalogue. */
  function CanMove(board: Board, color: Color): bool
    requires IsBoard(board)
  {
    var moves := AllMoves(PlayableSquaresOnly, board, color);
    |moves.captures| > 0 || |moves.steps| > 0
  }

  /** evaluateWinner of src/game-logic/engine.ts; it depends on the board alone. */
  function WinnerOf(board: Board): (r: Option<Winner>)
    requires IsBoard(board)
    ensures r.None? <==>
      CountInRows(board, Dark) > 0 && CountInRows(board, Light) > 0 && CanMove(board, Dark) && CanMove(board, Light)
    ensures r.Some? && r.value.Won? ==>
      var c := r.value.color;
      CountInRows(board, c) > 0 && (CountInRows(board, OpponentOf(c)) == 0 || !CanMove(board, OpponentOf(c)))
    ensures r == Some(Draw) ==>
      (CountInRows(board, Dark) == 0 && CountInRows(board, Light) == 0) || (!CanMove(board, Dark) && !CanMove(board, Light))
  {
    var darkHasPieces := CountInRows(board, Dark) > 0;
    var lightHasPieces := CountInRows(board, Light) > 0;
    if !darkHasPieces && !lightHasPieces then Some(Draw)
    else if !darkHasPieces then Some(Won(Light))
    else if !lightHasPieces then Some(Won(Dark))
    else
      var darkCanMove := CanMove(board, Dark);
      var lightCanMove := CanMove(board, Light);
      if !darkCanMove && !lightCanMove then Some(Draw)
      else if !darkCanMove then Some(Won(Light))
      else if !lightCanMove then Some(Won(Dark))
      else None
  }

  method EvaluateWinner(state: GameState) returns (winner: Option<Winner>)
    requires IsBoard(state.board)
    ensures winner == WinnerOf(state.board)
  {
    var board := state.board;
    var dark, light := 0, 0;
    for y := 0 to |board|
      invariant dark == CountInRows(board[..y], Dark) && light == CountInRows(board[..y], Light)
    {
      var row := board[y];
      for x := 0 to |row|
        invariant dark == CountInRows(board[..y], Dark) + CountInRow(row[..x], Dark)
        invariant light == CountInRows(board[..y], Light) + CountInRow(row[..x], Light)
      {
        assert row[..x + 1][..x] == row[..x];
        var cell := row[x];
        if cell.None? { continue; }
        if cell.value.color == Dark {
          dark := dark + 1;
        } else {
          light := light + 1;
        }
      }
      assert row[..|row|] == row;
      assert board[..y + 1][..y] == board[..y];
    }
    assert board[..|board|] == board;

    var darkHasPieces := dark > 0;
    var lightHasPieces := light > 0;
    if !darkHasPieces && !lightHasPieces {
      return Some(Draw);
    }
    if !darkHasPieces {
      return Some(Won(Light));
    }
    if !lightHasPieces {
      return Some(Won(Dark));
    }
    var darkMoves := SelectAllMovesPerTurn(PlayableSquaresOnly, state.(currentPlayer := Dark));
    var lightMoves := SelectAllMovesPerTurn(PlayableSquaresOnly, state.(currentPlayer := Light));
    var darkCanMove := |darkMoves.captures| > 0 || |darkMoves.steps| > 0;
    var lightCanMove := |lightMoves.captures| > 0 || |lightMoves.steps| > 0;
    if !darkCanMove && !lightCanMove {
      return Some(Draw);
    }
    if !darkCanMove {
      return Some(Won(Light));
    }
    if !lightCanMove {
      return Some(Won(Dark));
    }
    return None;
  }
}
