/** What the engine's functions mean: the exact sets of steps and captures of a piece, the
    per-turn catalogue, the interactivity partition, the agreement of move targets with move
    application, the end-of-game verdict, and the agreement of the two landing rules on boards
    whose pieces stand on playable squares. */
module EngineProperties {
  import opened Types
  import opened Rules
  import opened Utils
  import opened Engine
  import PositionKey

  /** The offset leading from one square to another. */
  function Delta(from: Position, to: Position): Position {
    Position(to.x - from.x, to.y - from.y)
  }

  /** The directions a piece may move in: every diagonal for a king, the forward ones for a man. */
  predicate MayMoveToward(piece: Piece, d: Position) {
    IsUnitDiagonal(d) && (piece.isKing || d.y == ForwardRow(piece.color))
  }

  lemma OffsetsAreDirections(piece: Piece, d: Position)
    ensures d in GetOffsetsFor(piece) <==> MayMoveToward(piece, d)
  {
    var offsets := GetOffsetsFor(piece);
    if d in offsets {
      var i :| 0 <= i < |offsets| && offsets[i] == d;
    }
  }

  // ---------------------------------------------------------------- steps and captures of one piece

  lemma {:induction false} StepsAlongExactly(rule: LandingRule, board: Board, piece: Piece, offsets: seq<Position>, s: Step)
    requires IsBoard(board)
    ensures |StepsAlong(rule, board, piece, offsets)| <= |offsets|
    ensures s in StepsAlong(rule, board, piece, offsets) <==>
      s.from == piece.Pos() && Delta(s.from, s.to) in offsets && CanStep(rule, board, piece, Delta(s.from, s.to))
    decreases |offsets|
  {
    if offsets != [] {
      var prefix, d := offsets[..|offsets| - 1], offsets[|offsets| - 1];
      StepsAlongExactly(rule, board, piece, prefix, s);
      assert offsets == prefix + [d];
      assert Delta(s.from, s.to) in offsets <==> Delta(s.from, s.to) in prefix || Delta(s.from, s.to) == d;
      assert s == StepToward(piece, d) <==> s.from == piece.Pos() && Delta(s.from, s.to) == d;
    }
  }

  lemma {:induction false} CapturesAlongExactly(rule: LandingRule, board: Board, piece: Piece, offsets: seq<Position>, c: Capture)
    requires IsBoard(board)
    ensures |CapturesAlong(rule, board, piece, offsets)| <= |offsets|
    ensures c in CapturesAlong(rule, board, piece, offsets) <==>
      c.from == piece.Pos() && Delta(c.from, c.over) in offsets && c.to == Landing(c.from, Delta(c.from, c.over)) &&
      CanJump(rule, board, piece, Delta(c.from, c.over))
    decreases |offsets|
  {
    if offsets != [] {
      var prefix, d := offsets[..|offsets| - 1], offsets[|offsets| - 1];
      CapturesAlongExactly(rule, board, piece, prefix, c);
      assert offsets == prefix + [d];
      assert Delta(c.from, c.over) in offsets <==> Delta(c.from, c.over) in prefix || Delta(c.from, c.over) == d;
      assert c == JumpToward(piece, d) <==>
        c.from == piece.Pos() && Delta(c.from, c.over) == d && c.to == Landing(c.from, d);
    }
  }

  /** A piece steps to exactly the open adjacent squares in its directions, at most one per direction. */
  lemma LegalStepsExactly(rule: LandingRule, board: Board, piece: Piece, s: Step)
    requires IsBoard(board)
    ensures |LegalSteps(rule, board, piece)| <= |GetOffsetsFor(piece)| <= 4
    ensures s in LegalSteps(rule, board, piece) <==>
      s.from == piece.Pos() && MayMoveToward(piece, Delta(s.from, s.to)) && IsValidLandingSpot(rule, board, s.to)
  {
    var d := Delta(s.from, s.to);
    StepsAlongExactly(rule, board, piece, GetOffsetsFor(piece), s);
    OffsetsAreDirections(piece, d);
    if s.from == piece.Pos() {
      assert Adjacent(piece.Pos(), d) == s.to;
      assert CanStep(rule, board, piece, d) <==> IsValidLandingSpot(rule, board, s.to);
    }
  }

  /** A piece jumps exactly over an adjacent opposing piece in one of its directions onto the open
      square beyond it, at most once per direction. */
  lemma LegalCapturesExactly(rule: LandingRule, board: Board, piece: Piece, c: Capture)
    requires IsBoard(board)
    ensures |LegalCaptures(rule, board, piece)| <= |GetOffsetsFor(piece)| <= 4
    ensures c in LegalCaptures(rule, board, piece) <==>
      c.from == piece.Pos() && MayMoveToward(piece, Delta(c.from, c.over)) &&
      c.to == Landing(c.from, Delta(c.from, c.over)) &&
      IsMoveInBounds(|board|, c.over) && IsValidLandingSpot(rule, board, c.to) &&
      GetPiece(board, c.over).Some? && GetPiece(board, c.over).value.color == OpponentOf(piece.color)
  {
    var d := Delta(c.from, c.over);
    CapturesAlongExactly(rule, board, piece, GetOffsetsFor(piece), c);
    OffsetsAreDirections(piece, d);
    if c.from == piece.Pos() {
      assert Adjacent(piece.Pos(), d) == c.over;
      assert CanJump(rule, board, piece, d) <==>
        IsMoveInBounds(|board|, c.over) && IsMoveInBounds(|board|, Landing(c.from, d)) &&
        IsValidLandingSpot(rule, board, Landing(c.from, d)) &&
        GetPiece(board, c.over).Some? && GetPiece(board, c.over).value.color == OpponentOf(piece.color);
    }
  }

  /** Steps come out in the order of their offsets: the i-th step's direction stands earlier in
      the offset list than the j-th step's, at positions a < b. */
  lemma {:induction false} StepsAlongOrdered(rule: LandingRule, board: Board, piece: Piece, offsets: seq<Position>, i: int, j: int)
    returns (a: int, b: int)
    requires IsBoard(board) && 0 <= i < j < |StepsAlong(rule, board, piece, offsets)|
    ensures 0 <= a < b < |offsets|
    ensures var steps := StepsAlong(rule, board, piece, offsets);
      offsets[a] == Delta(steps[i].from, steps[i].to) && offsets[b] == Delta(steps[j].from, steps[j].to)
    decreases |offsets|
  {
    var n := |offsets| - 1;
    var prefix := offsets[..n];
    var before := StepsAlong(rule, board, piece, prefix);
    var steps := StepsAlong(rule, board, piece, offsets);
    assert steps == before + (if CanStep(rule, board, piece, offsets[n]) then [StepToward(piece, offsets[n])] else []);
    if j < |before| {
      a, b := StepsAlongOrdered(rule, board, piece, prefix, i, j);
    } else {
      var s := before[i];
      StepsAlongExactly(rule, board, piece, prefix, s);
      a :| 0 <= a < n && prefix[a] == Delta(s.from, s.to);
      b := n;
    }
  }

  /** Captures come out in the order of their offsets, as steps do. */
  lemma {:induction false} CapturesAlongOrdered(rule: LandingRule, board: Board, piece: Piece, offsets: seq<Position>, i: int, j: int)
    returns (a: int, b: int)
    requires IsBoard(board) && 0 <= i < j < |CapturesAlong(rule, board, piece, offsets)|
    ensures 0 <= a < b < |offsets|
    ensures var captures := CapturesAlong(rule, board, piece, offsets);
      offsets[a] == Delta(captures[i].from, captures[i].over) && offsets[b] == Delta(captures[j].from, captures[j].over)
    decreases |offsets|
  {
    var n := |offsets| - 1;
    var prefix := offsets[..n];
    var before := CapturesAlong(rule, board, piece, prefix);
    var captures := CapturesAlong(rule, board, piece, offsets);
    assert captures == before + (if CanJump(rule, board, piece, offsets[n]) then [JumpToward(piece, offsets[n])] else []);
    if j < |before| {
      a, b := CapturesAlongOrdered(rule, board, piece, prefix, i, j);
    } else {
      var c := before[i];
      CapturesAlongExactly(rule, board, piece, prefix, c);
      a :| 0 <= a < n && prefix[a] == Delta(c.from, c.over);
      b := n;
    }
  }

  // ---------------------------------------------------------------- the per-turn catalogue

  /** A square the row-major sweep has passed when it stands at column x of row y. */
  predicate Before(p: Position, y: int, x: int) {
    p.y < y || (p.y == y && p.x < x)
  }

  predicate HoldsOwn(board: Board, player: Color, p: Position)
    requires IsBoard(board) && IsMoveInBounds(|board|, p)
  {
    board[p.y][p.x].Some? && board[p.y][p.x].value.color == player
  }

  /** The catalogue's entries under the key of square p are those of the piece standing there:
      its captures if it has any, otherwise its steps if it has any. */
  predicate EntryOf(rule: LandingRule, board: Board, player: Color, m: MoveSet, p: Position)
    requires IsBoard(board) && IsMoveInBounds(|board|, p)
  {
    var cell := board[p.y][p.x];
    var key := PositionKey.Get(p);
    (key in m.captures <==> HoldsOwn(board, player, p) && |LegalCaptures(rule, board, cell.value)| > 0) &&
    (key in m.steps <==>
      (HoldsOwn(board, player, p) && |LegalCaptures(rule, board, cell.value)| == 0 &&
       |LegalSteps(rule, board, cell.value)| > 0)) &&
    (cell.Some? && key in m.captures ==> m.captures[key] == LegalCaptures(rule, board, cell.value)) &&
    (cell.Some? && key in m.steps ==> m.steps[key] == LegalSteps(rule, board, cell.value))
  }

  predicate NoEntry(m: MoveSet, p: Position) {
    PositionKey.Get(p) !in m.captures && PositionKey.Get(p) !in m.steps
  }

  /** The key of a square the sweep has passed. */
  ghost predicate KeyOfPassed(k: string, size: int, y: int, x: int) {
    exists p :: IsMoveInBounds(size, p) && Before(p, y, x) && PositionKey.Get(p) == k
  }

  /** Every key of the catalogue is the key of a square the sweep has passed. */
  ghost predicate KeysPassed(m: MoveSet, size: int, y: int, x: int) {
    (forall k :: k in m.captures ==> KeyOfPassed(k, size, y, x)) &&
    (forall k :: k in m.steps ==> KeyOfPassed(k, size, y, x))
  }

  /** Passed squares have their entries, the others none. */
  ghost predicate EntriesPassed(rule: LandingRule, board: Board, player: Color, m: MoveSet, y: int, x: int)
    requires IsBoard(board)
  {
    (forall p {:trigger EntryOf(rule, board, player, m, p)} ::
      IsMoveInBounds(|board|, p) && Before(p, y, x) ==> EntryOf(rule, board, player, m, p)) &&
    (forall p {:trigger NoEntry(m, p)} :: IsMoveInBounds(|board|, p) && !Before(p, y, x) ==> NoEntry(m, p))
  }

  /** The catalogue after the sweep has passed column x of row y. */
  ghost predicate SweptTo(rule: LandingRule, board: Board, player: Color, m: MoveSet, y: int, x: int)
    requires IsBoard(board)
  {
    KeysPassed(m, |board|, y, x) && EntriesPassed(rule, board, player, m, y, x)
  }

  /** Entries under other keys are untouched when one key is written. */
  lemma EntryKept(rule: LandingRule, board: Board, player: Color, m: MoveSet, m': MoveSet, p: Position)
    requires IsBoard(board) && IsMoveInBounds(|board|, p)
    requires var k := PositionKey.Get(p);
      (k in m'.captures <==> k in m.captures) && (k in m'.steps <==> k in m.steps) &&
      (k in m.captures ==> m'.captures[k] == m.captures[k]) && (k in m.steps ==> m'.steps[k] == m.steps[k])
    ensures EntryOf(rule, board, player, m', p) == EntryOf(rule, board, player, m, p)
    ensures NoEntry(m', p) == NoEntry(m, p)
  {
  }

  /** The sweep's visit to square (x, y): what WithCell writes is the entry of that square. */
  lemma CellEntry(rule: LandingRule, board: Board, player: Color, m: MoveSet, y: int, x: int)
    requires IsBoard(board) && WellFormed(board)
    requires 0 <= y < |board| && 0 <= x < |board|
    requires NoEntry(m, Position(x, y))
    ensures EntryOf(rule, board, player, WithCell(rule, board, player, m, board[y][x]), Position(x, y))
  {
    var cell := board[y][x];
    assert cell.Some? ==> cell.value.Pos() == Position(x, y);
  }

  /** The sweep's visit to square (x, y) writes under that square's key only. */
  lemma CellWritesOneKey(rule: LandingRule, board: Board, player: Color, m: MoveSet, cell: Cell, key: string)
    requires IsBoard(board)
    requires cell.Some? ==> PositionKey.Get(cell.value.Pos()) == key
    ensures var m' := WithCell(rule, board, player, m, cell);
      (forall k :: k in m'.captures ==> k in m.captures || k == key) &&
      (forall k :: k in m'.steps ==> k in m.steps || k == key) &&
      (forall k :: k != key ==> (k in m'.captures <==> k in m.captures) && (k in m'.steps <==> k in m.steps)) &&
      (forall k :: k != key && k in m.captures ==> m'.captures[k] == m.captures[k]) &&
      (forall k :: k != key && k in m.steps ==> m'.steps[k] == m.steps[k])
  {
  }

  lemma PassedGrows(size: int, y: int, x: int)
    ensures forall k :: KeyOfPassed(k, size, y, x) ==> KeyOfPassed(k, size, y, x + 1)
  {
    forall k | KeyOfPassed(k, size, y, x) ensures KeyOfPassed(k, size, y, x + 1) {
      var p :| IsMoveInBounds(size, p) && Before(p, y, x) && PositionKey.Get(p) == k;
      assert Before(p, y, x + 1);
    }
  }

  /** One visit adds at most the visited square's key to the catalogue's keys. */
  lemma KeysStep(m: MoveSet, m': MoveSet, size: int, y: int, x: int)
    requires 0 <= y < size && 0 <= x < size
    requires KeysPassed(m, size, y, x)
    requires forall k :: k in m'.captures ==> k in m.captures || k == PositionKey.Get(Position(x, y))
    requires forall k :: k in m'.steps ==> k in m.steps || k == PositionKey.Get(Position(x, y))
    ensures KeysPassed(m', size, y, x + 1)
  {
    assert Before(Position(x, y), y, x + 1);
    PassedGrows(size, y, x);
  }

  lemma CellEntries(rule: LandingRule, board: Board, player: Color, m: MoveSet, y: int, x: int)
    requires IsBoard(board) && WellFormed(board)
    requires 0 <= y < |board| && 0 <= x < |board|
    requires EntriesPassed(rule, board, player, m, y, x)
    ensures EntriesPassed(rule, board, player, WithCell(rule, board, player, m, board[y][x]), y, x + 1)
  {
    var q := Position(x, y);
    var key := PositionKey.Get(q);
    var m' := WithCell(rule, board, player, m, board[y][x]);
    assert !Before(q, y, x) && NoEntry(m, q);
    assert board[y][x].Some? ==> board[y][x].value.Pos() == q;
    CellEntry(rule, board, player, m, y, x);
    CellWritesOneKey(rule, board, player, m, board[y][x], key);
    forall p {:trigger EntryOf(rule, board, player, m', p)} | IsMoveInBounds(|board|, p) && Before(p, y, x + 1)
      ensures EntryOf(rule, board, player, m', p)
    {
      if p != q {
        PositionKey.GetInjective(p, q);
        EntryKept(rule, board, player, m, m', p);
      }
    }
    forall p {:trigger NoEntry(m', p)} | IsMoveInBounds(|board|, p) && !Before(p, y, x + 1)
      ensures NoEntry(m', p)
    {
      PositionKey.GetInjective(p, q);
      EntryKept(rule, board, player, m, m', p);
    }
  }

  lemma {:induction false} CatalogueRow(rule: LandingRule, board: Board, player: Color, m: MoveSet, y: int, x: int)
    requires IsBoard(board) && WellFormed(board)
    requires 0 <= y < |board| && 0 <= x <= |board|
    requires SweptTo(rule, board, player, m, y, 0)
    ensures SweptTo(rule, board, player, WithRow(rule, board, player, m, board[y][..x]), y, x)
    decreases x
  {
    if x > 0 {
      CatalogueRow(rule, board, player, m, y, x - 1);
      assert board[y][..x][..x - 1] == board[y][..x - 1];
      var m' := WithRow(rule, board, player, m, board[y][..x - 1]);
      var q := Position(x - 1, y);
      assert board[y][x - 1].Some? ==> board[y][x - 1].value.Pos() == q;
      CellWritesOneKey(rule, board, player, m', board[y][x - 1], PositionKey.Get(q));
      KeysStep(m', WithCell(rule, board, player, m', board[y][x - 1]), |board|, y, x - 1);
      CellEntries(rule, board, player, m', y, x - 1);
    }
  }

  lemma {:induction false} CatalogueRows(rule: LandingRule, board: Board, player: Color, y: int)
    requires IsBoard(board) && WellFormed(board)
    requires 0 <= y <= |board|
    ensures SweptTo(rule, board, player, WithRows(rule, board, player, EmptyMoves, board[..y]), y, 0)
    decreases y
  {
    if y > 0 {
      CatalogueRows(rule, board, player, y - 1);
      assert board[..y][..y - 1] == board[..y - 1];
      var m := WithRows(rule, board, player, EmptyMoves, board[..y - 1]);
      CatalogueRow(rule, board, player, m, y - 1, |board|);
      assert board[y - 1][..|board|] == board[y - 1];
      RowEnd(rule, board, player, WithRow(rule, board, player, m, board[y - 1]), y - 1);
    }
  }

  /** Standing past the last column of row y is standing at the start of row y + 1. */
  lemma RowEnd(rule: LandingRule, board: Board, player: Color, m: MoveSet, y: int)
    requires IsBoard(board)
    requires SweptTo(rule, board, player, m, y, |board|)
    ensures SweptTo(rule, board, player, m, y + 1, 0)
  {
    assert forall p :: IsMoveInBounds(|board|, p) ==> (Before(p, y, |board|) <==> Before(p, y + 1, 0));
    forall k | KeyOfPassed(k, |board|, y, |board|) ensures KeyOfPassed(k, |board|, y + 1, 0) {
      var p :| IsMoveInBounds(|board|, p) && Before(p, y, |board|) && PositionKey.Get(p) == k;
      assert Before(p, y + 1, 0);
    }
  }

  /** On a well-formed board the catalogue lists, under the key of each square holding one of the
      player's pieces, its captures if it has any and otherwise its steps if it has any, and
      lists nothing under any other key. */
  lemma AllMovesCatalogue(rule: LandingRule, board: Board, player: Color)
    requires IsBoard(board) && WellFormed(board)
    ensures forall p {:trigger EntryOf(rule, board, player, AllMoves(rule, board, player), p)} ::
      IsMoveInBounds(|board|, p) ==> EntryOf(rule, board, player, AllMoves(rule, board, player), p)
    ensures forall k :: k in AllMoves(rule, board, player).captures ==>
      exists p :: IsMoveInBounds(|board|, p) && PositionKey.Get(p) == k
    ensures forall k :: k in AllMoves(rule, board, player).steps ==>
      exists p :: IsMoveInBounds(|board|, p) && PositionKey.Get(p) == k
  {
    CatalogueRows(rule, board, player, |board|);
    assert board[..|board|] == board;
    var m := AllMoves(rule, board, player);
    forall p {:trigger EntryOf(rule, board, player, m, p)} | IsMoveInBounds(|board|, p)
      ensures EntryOf(rule, board, player, m, p)
    {
      assert Before(p, |board|, 0);
    }
  }
}
