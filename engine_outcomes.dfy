/** Consequences of the catalogue: its shape, the interactivity partition of the current
    player's pieces, the agreement of move targets with move application, the end-of-game
    verdict, and the agreement of the two landing rules on boards whose pieces stand on
    playable squares. */
module EngineOutcomes {
  import opened Types
  import opened Rules
  import opened Utils
  import opened Engine
  import opened EngineProperties
  import PositionKey

  // ---------------------------------------------------------------- the catalogue's shape

  /** The square behind a catalogue key, and what the catalogue lists under it. */
  lemma CatalogueEntry(rule: LandingRule, board: Board, player: Color, k: string) returns (p: Position)
    requires IsBoard(board) && WellFormed(board)
    requires k in AllMoves(rule, board, player).captures || k in AllMoves(rule, board, player).steps
    ensures IsMoveInBounds(|board|, p) && PositionKey.Get(p) == k && HoldsOwn(board, player, p)
    ensures EntryOf(rule, board, player, AllMoves(rule, board, player), p)
  {
    AllMovesCatalogue(rule, board, player);
    var m := AllMoves(rule, board, player);
    p :| IsMoveInBounds(|board|, p) && PositionKey.Get(p) == k;
    assert EntryOf(rule, board, player, m, p);
  }

  /** The catalogue never lists an empty list, never lists one piece in both maps, lists only
      keys of the player's own pieces, and lists only moves that stay on the board. */
  lemma CatalogueShape(rule: LandingRule, board: Board, player: Color)
    requires IsBoard(board) && WellFormed(board)
    ensures AllMoves(rule, board, player).captures.Keys !! AllMoves(rule, board, player).steps.Keys
    ensures forall k :: k in AllMoves(rule, board, player).captures ==> |AllMoves(rule, board, player).captures[k]| > 0
    ensures forall k :: k in AllMoves(rule, board, player).steps ==> |AllMoves(rule, board, player).steps[k]| > 0
    ensures forall k :: k in AllMoves(rule, board, player).captures.Keys + AllMoves(rule, board, player).steps.Keys ==>
      k in OwnKeys(board, player)
    ensures OnBoard(AllMoves(rule, board, player), |board|)
  {
    var m := AllMoves(rule, board, player);
    OwnKeysExactly(board, player);
    forall k | k in m.captures.Keys + m.steps.Keys
      ensures !(k in m.captures && k in m.steps) && k in OwnKeys(board, player)
      ensures k in m.captures ==> |m.captures[k]| > 0
      ensures k in m.steps ==> |m.steps[k]| > 0
    {
      var p := CatalogueEntry(rule, board, player, k);
    }
    forall k, i | k in m.steps && 0 <= i < |m.steps[k]| ensures IsMoveInBounds(|board|, m.steps[k][i].to) {
      var p := CatalogueEntry(rule, board, player, k);
      LegalStepsExactly(rule, board, board[p.y][p.x].value, m.steps[k][i]);
    }
    forall k, i | k in m.captures && 0 <= i < |m.captures[k]|
      ensures IsMoveInBounds(|board|, m.captures[k][i].to) && IsMoveInBounds(|board|, m.captures[k][i].over)
    {
      var p := CatalogueEntry(rule, board, player, k);
      LegalCapturesExactly(rule, board, board[p.y][p.x].value, m.captures[k][i]);
    }
  }

  // ---------------------------------------------------------------- the player's own pieces

  /** A row's keys are those of its prefix and those of its last cell. */
  lemma OwnKeysOfRowLast(player: Color, row: seq<Cell>, k: string)
    requires |row| > 0
    ensures k in OwnKeysOfRow(player, row) <==>
      k in OwnKeysOfRow(player, row[..|row| - 1]) || k in OwnKeyOf(player, row[|row| - 1])
  {
  }

  /** The rows' keys are those of the first rows and those of the last row. */
  lemma OwnKeysOfRowsLast(player: Color, rows: seq<seq<Cell>>, k: string)
    requires |rows| > 0
    ensures k in OwnKeysOfRows(player, rows) <==>
      k in OwnKeysOfRows(player, rows[..|rows| - 1]) || k in OwnKeysOfRow(player, rows[|rows| - 1])
  {
  }

  /** The key of an own piece of a row is among the row's keys. */
  lemma {:induction false} OwnKeyInRow(player: Color, row: seq<Cell>, i: int, k: string)
    requires 0 <= i < |row| && k in OwnKeyOf(player, row[i])
    ensures k in OwnKeysOfRow(player, row)
    decreases |row|
  {
    var n := |row| - 1;
    OwnKeysOfRowLast(player, row, k);
    if i < n {
      assert row[..n][i] == row[i];
      OwnKeyInRow(player, row[..n], i, k);
    } else {
      assert i == n;
    }
  }

  /** Every key of a row is the key of an own piece of that row. */
  lemma {:induction false} OwnKeyOfRow(player: Color, row: seq<Cell>, k: string)
    requires k in OwnKeysOfRow(player, row)
    ensures exists i :: 0 <= i < |row| && k in OwnKeyOf(player, row[i])
    decreases |row|
  {
    var n := |row| - 1;
    OwnKeysOfRowLast(player, row, k);
    if k in OwnKeysOfRow(player, row[..n]) {
      OwnKeyOfRow(player, row[..n], k);
      var i :| 0 <= i < n && k in OwnKeyOf(player, row[..n][i]);
      assert row[..n][i] == row[i];
    } else {
      assert k in OwnKeyOf(player, row[n]);
    }
  }

  lemma {:induction false} OwnKeyInRows(player: Color, rows: seq<seq<Cell>>, j: int, k: string)
    requires 0 <= j < |rows| && k in OwnKeysOfRow(player, rows[j])
    ensures k in OwnKeysOfRows(player, rows)
    decreases |rows|
  {
    var n := |rows| - 1;
    OwnKeysOfRowsLast(player, rows, k);
    if j < n {
      assert rows[..n][j] == rows[j];
      OwnKeyInRows(player, rows[..n], j, k);
    } else {
      assert j == n;
    }
  }

  lemma {:induction false} OwnKeyOfRows(player: Color, rows: seq<seq<Cell>>, k: string)
    requires k in OwnKeysOfRows(player, rows)
    ensures exists j :: 0 <= j < |rows| && k in OwnKeysOfRow(player, rows[j])
    decreases |rows|
  {
    var n := |rows| - 1;
    OwnKeysOfRowsLast(player, rows, k);
    if k in OwnKeysOfRows(player, rows[..n]) {
      OwnKeyOfRows(player, rows[..n], k);
      var j :| 0 <= j < n && k in OwnKeysOfRow(player, rows[..n][j]);
      assert rows[..n][j] == rows[j];
    } else {
      assert k in OwnKeysOfRow(player, rows[n]);
    }
  }

  /** On a well-formed board OwnKeys holds exactly the keys of the squares holding the player's pieces. */
  lemma OwnKeysExactly(board: Board, player: Color)
    requires IsBoard(board) && WellFormed(board)
    ensures forall p :: IsMoveInBounds(|board|, p) ==> (PositionKey.Get(p) in OwnKeys(board, player) <==> HoldsOwn(board, player, p))
    ensures forall k :: k in OwnKeys(board, player) ==>
      exists p :: IsMoveInBounds(|board|, p) && HoldsOwn(board, player, p) && PositionKey.Get(p) == k
  {
    forall k | k in OwnKeys(board, player)
      ensures exists p :: IsMoveInBounds(|board|, p) && HoldsOwn(board, player, p) && PositionKey.Get(p) == k
    {
      var p := OwnKeySquare(board, player, k);
    }
    forall p | IsMoveInBounds(|board|, p)
      ensures PositionKey.Get(p) in OwnKeys(board, player) <==> HoldsOwn(board, player, p)
    {
      var k := PositionKey.Get(p);
      if k in OwnKeys(board, player) {
        var q := OwnKeySquare(board, player, k);
        PositionKey.GetInjective(p, q);
      } else if HoldsOwn(board, player, p) {
        assert k in OwnKeyOf(player, board[p.y][p.x]);
        OwnKeyInRow(player, board[p.y], p.x, k);
        OwnKeyInRows(player, board, p.y, k);
      }
    }
  }

  /** The square behind a key of OwnKeys. */
  lemma OwnKeySquare(board: Board, player: Color, k: string) returns (p: Position)
    requires IsBoard(board) && WellFormed(board) && k in OwnKeys(board, player)
    ensures IsMoveInBounds(|board|, p) && HoldsOwn(board, player, p) && PositionKey.Get(p) == k
  {
    OwnKeyOfRows(player, board, k);
    var j :| 0 <= j < |board| && k in OwnKeysOfRow(player, board[j]);
    OwnKeyOfRow(player, board[j], k);
    var i :| 0 <= i < |board[j]| && k in OwnKeyOf(player, board[j][i]);
    p := Position(i, j);
  }

  // ---------------------------------------------------------------- interactivity

  /** The forced-capture branch of selectInteractivityState applies. */
  predicate ForcedCaptureApplies(rule: LandingRule, state: GameState)
    requires IsBoard(state.board)
  {
    KeyPresent(state.forcedCaptureKey) &&
    state.forcedCaptureKey.value in AllMoves(rule, state.board, state.currentPlayer).captures
  }

  /** The selectable and disabled keys partition the current player's pieces. The forced piece
      alone is selectable while its chain goes on; otherwise exactly the pieces with captures are
      when any capture exists, and exactly the pieces with steps when none does. */
  lemma InteractivityExactly(rule: LandingRule, state: GameState)
    requires IsBoard(state.board) && WellFormed(state.board)
    ensures Interactivity(rule, state).selectable + Interactivity(rule, state).disabled ==
      OwnKeys(state.board, state.currentPlayer)
    ensures Interactivity(rule, state).selectable !! Interactivity(rule, state).disabled
    ensures ForcedCaptureApplies(rule, state) ==>
      Interactivity(rule, state).selectable == {state.forcedCaptureKey.value}
    ensures !ForcedCaptureApplies(rule, state) ==>
      Interactivity(rule, state).selectable == Candidates(AllMoves(rule, state.board, state.currentPlayer))
  {
    CatalogueShape(rule, state.board, state.currentPlayer);
  }

  /** Square by square: a piece is selectable exactly when it is the forced piece of a live
      chain, or, without one, when it has captures (if any piece has) or steps (if none has). */
  lemma SelectableSquares(rule: LandingRule, state: GameState, p: Position)
    requires IsBoard(state.board) && WellFormed(state.board) && IsMoveInBounds(|state.board|, p)
    ensures PositionKey.Get(p) in Interactivity(rule, state).selectable <==>
      if ForcedCaptureApplies(rule, state) then PositionKey.Get(p) == state.forcedCaptureKey.value
      else (HoldsOwn(state.board, state.currentPlayer, p) &&
        var piece := state.board[p.y][p.x].value;
        if HasCaptures(AllMoves(rule, state.board, state.currentPlayer))
        then |LegalCaptures(rule, state.board, piece)| > 0
        else |LegalSteps(rule, state.board, piece)| > 0)
  {
    InteractivityExactly(rule, state);
    AllMovesCatalogue(rule, state.board, state.currentPlayer);
    assert EntryOf(rule, state.board, state.currentPlayer, AllMoves(rule, state.board, state.currentPlayer), p);
  }

  // ---------------------------------------------------------------- move targets and move application

  /** A square is a target of the selected piece exactly when one of its listed captures (while
      any capture exists for the side) or steps (otherwise) ends there; a piece without an entry
      has no targets. */
  lemma MoveTargetsExactly(selected: Piece, moves: MoveSet, p: Position)
    ensures PositionKey.Get(p) in MoveTargets(selected, moves) <==>
      if HasCaptures(moves) then exists c :: c in CapturesFor(moves, PositionKey.Get(selected.Pos())) && c.to == p
      else exists s :: s in StepsFor(moves, PositionKey.Get(selected.Pos())) && s.to == p
    ensures HasCaptures(moves) && PositionKey.Get(selected.Pos()) !in moves.captures ==> MoveTargets(selected, moves) == {}
    ensures !HasCaptures(moves) && PositionKey.Get(selected.Pos()) !in moves.steps ==> MoveTargets(selected, moves) == {}
  {
    var key := PositionKey.Get(selected.Pos());
    if HasCaptures(moves) {
      if PositionKey.Get(p) in MoveTargets(selected, moves) {
        var c :| c in CapturesFor(moves, key) && PositionKey.Get(c.to) == PositionKey.Get(p);
        PositionKey.GetInjective(c.to, p);
      }
    } else {
      if PositionKey.Get(p) in MoveTargets(selected, moves) {
        var s :| s in StepsFor(moves, key) && PositionKey.Get(s.to) == PositionKey.Get(p);
        PositionKey.GetInjective(s.to, p);
      }
    }
  }

  /** With two listed captures onto one square, the capture applied and reported is the first:
      its jumped square is emptied and returned, and the second's is left alone. */
  lemma FirstCaptureApplied()
    ensures var first := Capture(Position(2, 2), Position(3, 3), Position(4, 4));
      var second := Capture(Position(2, 2), Position(5, 3), Position(4, 4));
      var moves := MoveSet(map[], map[PositionKey.Get(Position(2, 2)) := [first, second]]);
      var board := CreateEmptyBoard()[3 := CreateEmptyBoard()[3][5 := Some(Piece(5, 3, Dark, false))]];
      var r := CaptureMoveResult(board, moves, Piece(2, 2, Light, false), Position(4, 4));
      r.Some? && r.value.captured == Position(3, 3) && r.value.newBoard[3][5] == Some(Piece(5, 3, Dark, false))
  {
    var first := Capture(Position(2, 2), Position(3, 3), Position(4, 4));
    var second := Capture(Position(2, 2), Position(5, 3), Position(4, 4));
    var moves := MoveSet(map[], map[PositionKey.Get(Position(2, 2)) := [first, second]]);
    assert CapturesFor(moves, PositionKey.Get(Position(2, 2))) == [first, second];
  }

  /** The target test the reducer makes before moving agrees with the engine's move functions:
      a target passes it exactly when the capture (while any capture exists) or the step the
      reducer then applies succeeds, so a move that passes the test is never rejected with null. */
  lemma TargetsMatchApply(board: Board, moves: MoveSet, selected: Piece, target: Position)
    requires IsBoard(board)
    ensures IsInMoveTargets(Some(MoveTargets(selected, moves)), target) <==>
      if HasCaptures(moves) then CaptureMoveResult(board, moves, selected, target).Some?
      else SimpleMoveResult(board, moves, selected, target).Some?
  {
    MoveTargetsExactly(selected, moves, target);
  }

  /** Moving a piece keeps every piece's coordinates equal to its square. */
  lemma BoardAfterWellFormed(board: Board, vacated: set<Position>, piece: Piece, to: Position)
    requires IsBoard(board) && WellFormed(board)
    ensures WellFormed(BoardAfter(board, vacated, to, AfterMove(piece, to)))
  {
    var r: Board := BoardAfter(board, vacated, to, AfterMove(piece, to));
    forall y: int, x: int | 0 <= y < |r| && 0 <= x < |r| && r[y][x].Some? ensures r[y][x].value.Pos() == Position(x, y) {
      assert r[y][x] == (if Position(x, y) in vacated then None else if Position(x, y) == to then Some(AfterMove(piece, to)) else board[y][x]);
    }
  }

  // ---------------------------------------------------------------- end of game

  /** `color` has a piece on the board. */
  ghost predicate HasPieces(board: Board, color: Color)
    requires IsBoard(board)
  {
    exists p :: IsMoveInBounds(|board|, p) && HoldsOwn(board, color, p)
  }

  /** The piece on square p has a capture or a step. */
  predicate Movable(rule: LandingRule, board: Board, p: Position)
    requires IsBoard(board) && IsMoveInBounds(|board|, p)
  {
    board[p.y][p.x].Some? &&
    (|LegalCaptures(rule, board, board[p.y][p.x].value)| > 0 || |LegalSteps(rule, board, board[p.y][p.x].value)| > 0)
  }

  lemma {:induction false} CountInRowAt(row: seq<Cell>, color: Color, i: int)
    requires 0 <= i < |row| && row[i].Some? && row[i].value.color == color
    ensures CountInRow(row, color) > 0
    decreases |row|
  {
    var n := |row| - 1;
    if i < n {
      CountInRowAt(row[..n], color, i);
    }
  }

  lemma {:induction false} CountInRowWitness(row: seq<Cell>, color: Color) returns (i: int)
    requires CountInRow(row, color) > 0
    ensures 0 <= i < |row| && row[i].Some? && row[i].value.color == color
    decreases |row|
  {
    var n := |row| - 1;
    if CountInRow(row[..n], color) > 0 {
      i := CountInRowWitness(row[..n], color);
      assert row[..n][i] == row[i];
    } else {
      i := n;
    }
  }

  lemma {:induction false} CountInRowsAt(rows: seq<seq<Cell>>, color: Color, j: int)
    requires 0 <= j < |rows| && CountInRow(rows[j], color) > 0
    ensures CountInRows(rows, color) > 0
    decreases |rows|
  {
    var n := |rows| - 1;
    if j < n {
      CountInRowsAt(rows[..n], color, j);
    }
  }

  lemma {:induction false} CountInRowsWitness(rows: seq<seq<Cell>>, color: Color) returns (j: int)
    requires CountInRows(rows, color) > 0
    ensures 0 <= j < |rows| && CountInRow(rows[j], color) > 0
    decreases |rows|
  {
    var n := |rows| - 1;
    if CountInRows(rows[..n], color) > 0 {
      j := CountInRowsWitness(rows[..n], color);
      assert rows[..n][j] == rows[j];
    } else {
      j := n;
    }
  }

  /** The count evaluateWinner takes is positive exactly when the colour has a piece. */
  lemma CountPositive(board: Board, color: Color)
    requires IsBoard(board)
    ensures CountInRows(board, color) > 0 <==> HasPieces(board, color)
  {
    if CountInRows(board, color) > 0 {
      var j := CountInRowsWitness(board, color);
      var i := CountInRowWitness(board[j], color);
      assert HoldsOwn(board, color, Position(i, j));
    }
    if HasPieces(board, color) {
      var p :| IsMoveInBounds(|board|, p) && HoldsOwn(board, color, p);
      CountInRowAt(board[p.y], color, p.x);
      CountInRowsAt(board, color, p.y);
    }
  }

  /** A side can move exactly when one of its pieces has a capture or a step. */
  lemma CanMoveExactly(board: Board, color: Color)
    requires IsBoard(board) && WellFormed(board)
    ensures CanMove(board, color) <==>
      exists p :: IsMoveInBounds(|board|, p) && HoldsOwn(board, color, p) && Movable(PlayableSquaresOnly, board, p)
  {
    var m := AllMoves(PlayableSquaresOnly, board, color);
    if |m.captures| > 0 {
      var k :| k in m.captures;
      var p := CatalogueEntry(PlayableSquaresOnly, board, color, k);
      assert Movable(PlayableSquaresOnly, board, p);
    } else if |m.steps| > 0 {
      var k :| k in m.steps;
      var p := CatalogueEntry(PlayableSquaresOnly, board, color, k);
      assert Movable(PlayableSquaresOnly, board, p);
    }
    if exists p :: IsMoveInBounds(|board|, p) && HoldsOwn(board, color, p) && Movable(PlayableSquaresOnly, board, p) {
      var p :| IsMoveInBounds(|board|, p) && HoldsOwn(board, color, p) && Movable(PlayableSquaresOnly, board, p);
      AllMovesCatalogue(PlayableSquaresOnly, board, color);
      assert EntryOf(PlayableSquaresOnly, board, color, m, p);
      var k := PositionKey.Get(p);
      assert k in m.captures || k in m.steps;
      assert k in m.captures ==> m.captures.Keys != {};
      assert k in m.steps ==> m.steps.Keys != {};
    }
  }

  /** A side that can move has a piece. */
  lemma CanMoveHasPieces(board: Board, color: Color)
    requires IsBoard(board) && WellFormed(board)
    ensures CanMove(board, color) ==> HasPieces(board, color)
  {
    CanMoveExactly(board, color);
  }

  /** The verdict of evaluateWinner: play goes on exactly while both sides can move; a side
      without pieces loses, both sides without pieces is a draw; with pieces on both sides, a
      side that cannot move loses unless neither can, which is a draw. */
  lemma WinnerExactly(board: Board)
    requires IsBoard(board) && WellFormed(board)
    ensures WinnerOf(board).None? <==> CanMove(board, Dark) && CanMove(board, Light)
    ensures WinnerOf(board) == Some(Draw) <==>
      (!HasPieces(board, Dark) && !HasPieces(board, Light)) ||
      (HasPieces(board, Dark) && HasPieces(board, Light) && !CanMove(board, Dark) && !CanMove(board, Light))
    ensures WinnerOf(board) == Some(Won(Dark)) <==>
      HasPieces(board, Dark) && !CanMove(board, Light) && (CanMove(board, Dark) || !HasPieces(board, Light))
    ensures WinnerOf(board) == Some(Won(Light)) <==>
      HasPieces(board, Light) && !CanMove(board, Dark) && (CanMove(board, Light) || !HasPieces(board, Dark))
  {
    CountPositive(board, Dark);
    CountPositive(board, Light);
    CanMoveHasPieces(board, Dark);
    CanMoveHasPieces(board, Light);
  }

  // ---------------------------------------------------------------- the two landing rules

  /** The two copies of the landing test part on the empty board at (1, 0): the store copy
      accepts that square, the canonical copy rejects it, and both accept (0, 0). */
  lemma LandingRulesDiffer()
    ensures IsValidLandingSpot(AnyEmptySquare, CreateEmptyBoard(), Position(1, 0))
    ensures !IsValidLandingSpot(PlayableSquaresOnly, CreateEmptyBoard(), Position(1, 0))
    ensures IsValidLandingSpot(PlayableSquaresOnly, CreateEmptyBoard(), Position(0, 0))
  {
    var board := CreateEmptyBoard();
    assert board[0][1] == None && board[0][0] == None;
  }

  /** A diagonal move keeps the colour of the square. */
  lemma DiagonalKeepsParity(from: Position, d: Position)
    requires IsUnitDiagonal(d)
    ensures IsDarkSquare(Adjacent(from, d)) <==> IsDarkSquare(from)
    ensures IsDarkSquare(Landing(from, d)) <==> IsDarkSquare(from)
  {
  }

  lemma {:induction false} StepsAlongAgree(board: Board, piece: Piece, offsets: seq<Position>)
    requires IsBoard(board) && IsDarkSquare(piece.Pos())
    requires forall i :: 0 <= i < |offsets| ==> IsUnitDiagonal(offsets[i])
    ensures StepsAlong(PlayableSquaresOnly, board, piece, offsets) == StepsAlong(AnyEmptySquare, board, piece, offsets)
    decreases |offsets|
  {
    if offsets != [] {
      var n := |offsets| - 1;
      StepsAlongAgree(board, piece, offsets[..n]);
      DiagonalKeepsParity(piece.Pos(), offsets[n]);
    }
  }

  lemma {:induction false} CapturesAlongAgree(board: Board, piece: Piece, offsets: seq<Position>)
    requires IsBoard(board) && IsDarkSquare(piece.Pos())
    requires forall i :: 0 <= i < |offsets| ==> IsUnitDiagonal(offsets[i])
    ensures CapturesAlong(PlayableSquaresOnly, board, piece, offsets) == CapturesAlong(AnyEmptySquare, board, piece, offsets)
    decreases |offsets|
  {
    if offsets != [] {
      var n := |offsets| - 1;
      CapturesAlongAgree(board, piece, offsets[..n]);
      DiagonalKeepsParity(piece.Pos(), offsets[n]);
    }
  }

  /** A piece on a playable square has the same steps and captures under both landing tests:
      every square it can reach is playable too. */
  lemma LegalMovesAgree(board: Board, piece: Piece)
    requires IsBoard(board) && IsDarkSquare(piece.Pos())
    ensures LegalSteps(PlayableSquaresOnly, board, piece) == LegalSteps(AnyEmptySquare, board, piece)
    ensures LegalCaptures(PlayableSquaresOnly, board, piece) == LegalCaptures(AnyEmptySquare, board, piece)
  {
    StepsAlongAgree(board, piece, GetOffsetsFor(piece));
    CapturesAlongAgree(board, piece, GetOffsetsFor(piece));
  }

  /** Every piece of the row stands on a playable square. */
  predicate RowOnPlayableSquares(row: seq<Cell>) {
    forall i :: 0 <= i < |row| && row[i].Some? ==> IsDarkSquare(row[i].value.Pos())
  }

  /** Every piece stands on a playable square. */
  predicate OnPlayableSquares(board: Board) {
    forall j :: 0 <= j < |board| ==> RowOnPlayableSquares(board[j])
  }

  lemma {:induction false} WithRowAgrees(board: Board, player: Color, m: MoveSet, row: seq<Cell>)
    requires IsBoard(board) && RowOnPlayableSquares(row)
    ensures WithRow(PlayableSquaresOnly, board, player, m, row) == WithRow(AnyEmptySquare, board, player, m, row)
    decreases |row|
  {
    if row != [] {
      var n := |row| - 1;
      assert RowOnPlayableSquares(row[..n]) by {
        forall i | 0 <= i < n ensures row[..n][i] == row[i] { }
      }
      WithRowAgrees(board, player, m, row[..n]);
      if row[n].Some? {
        LegalMovesAgree(board, row[n].value);
      }
    }
  }

  lemma {:induction false} WithRowsAgree(board: Board, player: Color, m: MoveSet, rows: seq<seq<Cell>>)
    requires IsBoard(board) && OnPlayableSquares(rows)
    ensures WithRows(PlayableSquaresOnly, board, player, m, rows) == WithRows(AnyEmptySquare, board, player, m, rows)
    decreases |rows|
  {
    if rows != [] {
      var n := |rows| - 1;
      assert OnPlayableSquares(rows[..n]) by {
        forall j | 0 <= j < n ensures rows[..n][j] == rows[j] { }
      }
      WithRowsAgree(board, player, m, rows[..n]);
      WithRowAgrees(board, player, WithRows(AnyEmptySquare, board, player, m, rows[..n]), rows[n]);
    }
  }

  /** While every piece stands on a playable square the two copies of the engine build the same
      catalogue, and so agree on which pieces may be picked up and where they may go. */
  lemma AllMovesAgree(board: Board, player: Color)
    requires IsBoard(board) && OnPlayableSquares(board)
    ensures AllMoves(PlayableSquaresOnly, board, player) == AllMoves(AnyEmptySquare, board, player)
  {
    WithRowsAgree(board, player, EmptyMoves, board);
  }
}
