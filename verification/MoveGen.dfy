/**
 * Move generation of lib/game-logic.ts: step directions, single-jump
 * captures in all four directions, the per-piece forced-capture rule of
 * `getValidMoves`, and the colour-wide rule of `hasCaptureMoves` /
 * `getAllValidMovesForColor`.
 */
module MoveGen {
  import opened Wrappers
  import opened Board

  /** The row direction in which a regular piece of `c` advances: light moves up, dark moves down. */
  function ForwardRow(c: PieceColor): int
  {
    if c == Light then -1 else 1
  }

  /** `d` is a non-capturing step direction of `piece`: any diagonal for a king, forward diagonals otherwise. */
  predicate IsStepDirection(piece: Piece, d: Position)
  {
    IsDiagonalUnit(d) && (piece.kind == King || d.row == ForwardRow(piece.color))
  }

  const Diagonals: seq<Position> := [Position(-1, -1), Position(-1, 1), Position(1, -1), Position(1, 1)]

  lemma DiagonalsComplete(d: Position)
    ensures d in Diagonals <==> IsDiagonalUnit(d)
  {
    if IsDiagonalUnit(d) {
      assert d == Position(d.row, d.col);
    }
  }

  /** getDirections: the step directions of a piece, in the source's order. */
  function Directions(piece: Piece): (r: seq<Position>)
    ensures forall d :: d in r <==> IsStepDirection(piece, d)
  {
    forall d ensures IsStepDirection(piece, d) ==> d in Diagonals {
      DiagonalsComplete(d);
    }
    if piece.kind == King then Diagonals
    else if piece.color == Light then [Position(-1, -1), Position(-1, 1)]
    else [Position(1, -1), Position(1, 1)]
  }

  /** getAllCaptureDirections: every piece, regular or king, may capture along all four diagonals. */
  function AllCaptureDirections(): (r: seq<Position>)
    ensures |r| == 4
    ensures forall d :: d in r <==> IsDiagonalUnit(d)
  {
    forall d ensures d in Diagonals <==> IsDiagonalUnit(d) {
      DiagonalsComplete(d);
    }
    Diagonals
  }

  /** Half of the vector from `a` to `b`: the direction of a two-square jump. */
  function HalfStep(a: Position, b: Position): Position
  {
    Position((b.row - a.row) / 2, (b.col - a.col) / 2)
  }

  /**
   * `to` is a capture landing for `piece`: exactly two diagonal squares away,
   * the jumped square and the landing square on the board, the first piece on
   * the jumped square of the other colour, and nothing on the landing square.
   */
  predicate IsCapture(piece: Piece, pieces: seq<Piece>, to: Position)
  {
    var over := Midpoint(piece.position, to);
    && Abs(to.row - piece.position.row) == 2
    && Abs(to.col - piece.position.col) == 2
    && IsValidPosition(over)
    && IsValidPosition(to)
    && PieceAt(pieces, over).Some?
    && PieceAt(pieces, over).value.color != piece.color
    && PieceAt(pieces, to).None?
  }

  /** The capture move record the source builds for a landing square. */
  function CaptureMove(piece: Piece, to: Position): Move
  {
    Move(piece.position, to, [Midpoint(piece.position, to)])
  }

  /** The loop of `getCaptureMovesForPiece` over the directions `dirs`. */
  function CaptureMovesAlong(piece: Piece, pieces: seq<Piece>, dirs: seq<Position>): (r: seq<Move>)
    ensures |r| <= |dirs|
  {
    if |dirs| == 0 then []
    else
      var jumpOver := Offset(piece.position, dirs[0], 1);
      var landOn := Offset(piece.position, dirs[0], 2);
      var rest := CaptureMovesAlong(piece, pieces, dirs[1..]);
      if !IsValidPosition(jumpOver) || !IsValidPosition(landOn) then rest
      else
        var pieceToJump := PieceAt(pieces, jumpOver);
        var landingPiece := PieceAt(pieces, landOn);
        if pieceToJump.Some? && pieceToJump.value.color != piece.color && landingPiece.None? then
          [Move(piece.position, landOn, [jumpOver])] + rest
        else rest
  }

  /** The direction `d` contributes a capture exactly when its landing square is a capture landing. */
  lemma CaptureAlongDirection(piece: Piece, pieces: seq<Piece>, d: Position)
    requires IsDiagonalUnit(d)
    ensures var landOn := Offset(piece.position, d, 2);
      && Abs(landOn.row - piece.position.row) == 2
      && Abs(landOn.col - piece.position.col) == 2
      && HalfStep(piece.position, landOn) == d
      && Midpoint(piece.position, landOn) == Offset(piece.position, d, 1)
  {
  }

  /** The moves the loop collects are exactly the capture moves along the directions visited. */
  lemma {:induction false} CaptureMovesAlongMembers(piece: Piece, pieces: seq<Piece>, dirs: seq<Position>, m: Move)
    requires forall d :: d in dirs ==> IsDiagonalUnit(d)
    ensures m in CaptureMovesAlong(piece, pieces, dirs) <==>
      m == CaptureMove(piece, m.to) && HalfStep(piece.position, m.to) in dirs && IsCapture(piece, pieces, m.to)
    decreases |dirs|
  {
    if |dirs| > 0 {
      var d := dirs[0];
      var landOn := Offset(piece.position, d, 2);
      assert d in dirs;
      CaptureMovesAlongHead(piece, pieces, dirs);
      CaptureMovesAlongMembers(piece, pieces, dirs[1..], m);
      assert dirs == [d] + dirs[1..];
      if m == CaptureMove(piece, m.to) && IsCapture(piece, pieces, m.to) && HalfStep(piece.position, m.to) == d {
        HalfStepLanding(piece.position, m.to);
      }
    }
  }

  /** The first direction contributes its landing square exactly when that square is a capture landing. */
  lemma CaptureMovesAlongHead(piece: Piece, pieces: seq<Piece>, dirs: seq<Position>)
    requires |dirs| > 0 && IsDiagonalUnit(dirs[0])
    ensures var landOn := Offset(piece.position, dirs[0], 2);
      && HalfStep(piece.position, landOn) == dirs[0]
      && CaptureMovesAlong(piece, pieces, dirs) ==
        (if IsCapture(piece, pieces, landOn) then [CaptureMove(piece, landOn)] else []) + CaptureMovesAlong(piece, pieces, dirs[1..])
  {
    CaptureAlongDirection(piece, pieces, dirs[0]);
  }

  /** A square two diagonal steps away is reached by doubling its half step. */
  lemma HalfStepLanding(from: Position, to: Position)
    requires Abs(to.row - from.row) == 2 && Abs(to.col - from.col) == 2
    ensures to == Offset(from, HalfStep(from, to), 2)
  {
  }

  /** getCaptureMovesForPiece: one move per capture landing, each jumping exactly one square. */
  function CaptureMovesForPiece(piece: Piece, pieces: seq<Piece>): (r: seq<Move>)
    ensures |r| <= 4
    ensures forall m :: m in r <==> m == CaptureMove(piece, m.to) && IsCapture(piece, pieces, m.to)
  {
    var r := CaptureMovesAlong(piece, pieces, AllCaptureDirections());
    forall m
      ensures m in r <==> m == CaptureMove(piece, m.to) && IsCapture(piece, pieces, m.to)
    {
      CaptureMovesAlongMembers(piece, pieces, AllCaptureDirections(), m);
      DiagonalsComplete(HalfStep(piece.position, m.to));
    }
    r
  }

  /** `captures.map((m) => m.to)` */
  function Destinations(moves: seq<Move>): (r: seq<Position>)
    ensures |r| == |moves|
    ensures forall i :: 0 <= i < |moves| ==> r[i] == moves[i].to
  {
    seq(|moves|, i requires 0 <= i < |moves| => moves[i].to)
  }

  /** `getCaptureMovesForPiece(piece, pieces).length > 0` */
  predicate CanCapture(piece: Piece, pieces: seq<Piece>)
  {
    |CaptureMovesForPiece(piece, pieces)| > 0
  }

  /** A piece has a capture move exactly when some square is a capture landing for it. */
  lemma CanCaptureIff(piece: Piece, pieces: seq<Piece>)
    ensures CanCapture(piece, pieces) <==> exists to :: IsCapture(piece, pieces, to)
  {
    var r := CaptureMovesForPiece(piece, pieces);
    if |r| > 0 {
      assert r[0] in r;
      assert IsCapture(piece, pieces, r[0].to);
    }
    if exists to :: IsCapture(piece, pieces, to) {
      var to :| IsCapture(piece, pieces, to);
      assert CaptureMove(piece, to) in r;
    }
  }

  /** The capture landings of a piece, as a list. */
  function CaptureDestinations(piece: Piece, pieces: seq<Piece>): (r: seq<Position>)
    ensures forall to :: to in r <==> IsCapture(piece, pieces, to)
  {
    var captures := CaptureMovesForPiece(piece, pieces);
    var r := Destinations(captures);
    forall to | IsCapture(piece, pieces, to)
      ensures to in r
    {
      assert CaptureMove(piece, to) in captures;
      var i :| 0 <= i < |captures| && captures[i] == CaptureMove(piece, to);
      assert r[i] == to;
    }
    forall i | 0 <= i < |r|
      ensures IsCapture(piece, pieces, r[i])
    {
      assert captures[i] in captures;
    }
    r
  }

  /** `to` is a non-capturing move of `piece`: one step in a step direction onto an empty board square. */
  predicate IsStep(piece: Piece, pieces: seq<Piece>, to: Position)
  {
    && IsStepDirection(piece, Delta(piece.position, to))
    && IsValidPosition(to)
    && PieceAt(pieces, to).None?
  }

  /** The loop of `getValidMoves` over the step directions `dirs`. */
  function StepMovesAlong(piece: Piece, pieces: seq<Piece>, dirs: seq<Position>): (r: seq<Position>)
    ensures |r| <= |dirs|
    ensures forall to :: to in r <==>
      Delta(piece.position, to) in dirs && IsValidPosition(to) && PieceAt(pieces, to).None?
  {
    if |dirs| == 0 then []
    else
      var newPos := Offset(piece.position, dirs[0], 1);
      var rest := StepMovesAlong(piece, pieces, dirs[1..]);
      assert Delta(piece.position, newPos) == dirs[0];
      if IsValidPosition(newPos) && PieceAt(pieces, newPos).None? then [newPos] + rest else rest
  }

  /**
   * getValidMoves: when the piece itself can capture, exactly its capture
   * landings (forced capture, decided per piece); otherwise exactly its
   * one-step moves. Every destination is an empty board square.
   */
  function ValidMoves(piece: Piece, pieces: seq<Piece>): (r: seq<Position>)
    ensures forall to :: to in r ==> IsValidPosition(to) && PieceAt(pieces, to).None?
    ensures CanCapture(piece, pieces) ==> forall to :: to in r <==> IsCapture(piece, pieces, to)
    ensures !CanCapture(piece, pieces) ==> forall to :: to in r <==> IsStep(piece, pieces, to)
  {
    var captures := CaptureMovesForPiece(piece, pieces);
    if |captures| > 0 then CaptureDestinations(piece, pieces)
    else StepMovesAlong(piece, pieces, Directions(piece))
  }

  /** A legal destination is two rows away exactly when the move is a capture, and one row away otherwise. */
  lemma ValidMoveRowDistance(piece: Piece, pieces: seq<Piece>, to: Position)
    requires to in ValidMoves(piece, pieces)
    ensures CanCapture(piece, pieces) ==> Abs(to.row - piece.position.row) == 2
    ensures !CanCapture(piece, pieces) ==> Abs(to.row - piece.position.row) == 1
  {
  }

  /** hasCaptureMoves: some piece of `color` has a capture move. */
  function HasCaptureMoves(pieces: seq<Piece>, color: PieceColor): (r: bool)
    ensures r <==> exists i :: 0 <= i < |pieces| && pieces[i].color == color && CanCapture(pieces[i], pieces)
  {
    Any(pieces, (p: Piece) => p.color == color && CanCapture(p, pieces))
  }

  /**
   * The loop of `getAllValidMovesForColor` over the first `n` pieces: a piece
   * passing `listed` sets its id to `entry(piece)`, so a later piece with the
   * same id overwrites an earlier entry, as `Map.set` does.
   */
  function MovesMapPrefix(pieces: seq<Piece>, n: nat, listed: Piece -> bool, entry: Piece -> seq<Position>): map<string, seq<Position>>
    requires n <= |pieces|
  {
    if n == 0 then map[]
    else
      var m := MovesMapPrefix(pieces, n - 1, listed, entry);
      if listed(pieces[n - 1]) then m[pieces[n - 1].id := entry(pieces[n - 1])] else m
  }

  /**
   * An id has an entry after `n` pieces exactly when one of them is listed,
   * and the entry belongs to the last listed piece with that id.
   */
  lemma {:induction false} MovesMapPrefixEntry(pieces: seq<Piece>, n: nat, listed: Piece -> bool, entry: Piece -> seq<Position>, id: string)
    requires n <= |pieces|
    ensures var r := MovesMapPrefix(pieces, n, listed, entry);
      id in r <==> exists i :: 0 <= i < n && pieces[i].id == id && listed(pieces[i])
    ensures var r := MovesMapPrefix(pieces, n, listed, entry);
      id in r ==> exists i :: (0 <= i < n && pieces[i].id == id && listed(pieces[i]) && r[id] == entry(pieces[i])
        && forall j :: i < j < n && pieces[j].id == id ==> !listed(pieces[j]))
  {
    if n > 0 {
      MovesMapPrefixEntry(pieces, n - 1, listed, entry, id);
      var r := MovesMapPrefix(pieces, n, listed, entry);
      var m := MovesMapPrefix(pieces, n - 1, listed, entry);
      if !(pieces[n - 1].id == id && listed(pieces[n - 1])) && id in r {
        assert r[id] == m[id];
        var i :| 0 <= i < n - 1 && pieces[i].id == id && listed(pieces[i]) && m[id] == entry(pieces[i])
          && forall j :: i < j < n - 1 && pieces[j].id == id ==> !listed(pieces[j]);
        assert forall j :: i < j < n && pieces[j].id == id ==> !listed(pieces[j]);
      }
    }
  }

  /** The test a piece of the loop in `getAllValidMovesForColor` must pass to be listed. */
  predicate Listed(pieces: seq<Piece>, color: PieceColor, captures: bool, p: Piece)
  {
    p.color == color && (if captures then |CaptureMovesForPiece(p, pieces)| > 0 else |ValidMoves(p, pieces)| > 0)
  }

  /** The list stored for a listed piece: its capture landings, or all its moves. */
  function Entry(pieces: seq<Piece>, captures: bool, p: Piece): seq<Position>
  {
    if captures then Destinations(CaptureMovesForPiece(p, pieces)) else ValidMoves(p, pieces)
  }

  /**
   * getAllValidMovesForColor: when some piece of `color` can capture, the
   * map lists only the pieces of `color` that can capture; otherwise the
   * pieces of `color` that have a move. Each entry is that piece's
   * `getValidMoves` list, which is non-empty.
   */
  function AllValidMovesForColor(pieces: seq<Piece>, color: PieceColor): (r: map<string, seq<Position>>)
    ensures forall id :: id in r <==>
      exists i :: 0 <= i < |pieces| && pieces[i].id == id && pieces[i].color == color
        && (if HasCaptureMoves(pieces, color) then CanCapture(pieces[i], pieces) else |ValidMoves(pieces[i], pieces)| > 0)
    ensures forall id :: id in r ==>
      exists i :: (0 <= i < |pieces| && pieces[i].id == id && pieces[i].color == color
        && (HasCaptureMoves(pieces, color) ==> CanCapture(pieces[i], pieces))
        && r[id] == ValidMoves(pieces[i], pieces) && |r[id]| > 0)
  {
    var hasCapturesAvailable := HasCaptureMoves(pieces, color);
    var r := MovesMapPrefix(pieces, |pieces|, (p: Piece) => Listed(pieces, color, hasCapturesAvailable, p),
      (p: Piece) => Entry(pieces, hasCapturesAvailable, p));
    forall id
      ensures id in r <==> exists i :: 0 <= i < |pieces| && pieces[i].id == id && Listed(pieces, color, hasCapturesAvailable, pieces[i])
      ensures id in r ==> exists i :: (0 <= i < |pieces| && pieces[i].id == id && pieces[i].color == color
        && (hasCapturesAvailable ==> CanCapture(pieces[i], pieces))
        && r[id] == ValidMoves(pieces[i], pieces) && |r[id]| > 0)
    {
      ListedEntries(pieces, color, hasCapturesAvailable, id);
    }
    r
  }

  /** The map's entries, stated through `Listed` and `ValidMoves`. */
  lemma ListedEntries(pieces: seq<Piece>, color: PieceColor, captures: bool, id: string)
    ensures var r := MovesMapPrefix(pieces, |pieces|, (p: Piece) => Listed(pieces, color, captures, p),
        (p: Piece) => Entry(pieces, captures, p));
      && (id in r <==> exists i :: 0 <= i < |pieces| && pieces[i].id == id && Listed(pieces, color, captures, pieces[i]))
      && (id in r ==> exists i :: (0 <= i < |pieces| && pieces[i].id == id && pieces[i].color == color
        && (captures ==> CanCapture(pieces[i], pieces))
        && r[id] == ValidMoves(pieces[i], pieces) && |r[id]| > 0))
  {
    var listed := (p: Piece) => Listed(pieces, color, captures, p);
    var entry := (p: Piece) => Entry(pieces, captures, p);
    var r := MovesMapPrefix(pieces, |pieces|, listed, entry);
    MovesMapPrefixEntry(pieces, |pieces|, listed, entry, id);
    if id in r {
      var i :| 0 <= i < |pieces| && pieces[i].id == id && listed(pieces[i]) && r[id] == entry(pieces[i]);
      assert Listed(pieces, color, captures, pieces[i]);
      assert r[id] == ValidMoves(pieces[i], pieces);
    }
  }

  /**
   * The capture half of the forced-capture rule needs no assumption about
   * ids: when some piece of `color` can capture, every destination listed
   * for the colour is a capture landing of a piece of that colour.
   */
  lemma ForcedCaptureLandings(pieces: seq<Piece>, color: PieceColor)
    requires HasCaptureMoves(pieces, color)
    ensures forall id, to :: id in AllValidMovesForColor(pieces, color) && to in AllValidMovesForColor(pieces, color)[id] ==>
      exists i :: 0 <= i < |pieces| && pieces[i].id == id && pieces[i].color == color && IsCapture(pieces[i], pieces, to)
  {
  }

  /**
   * The colour-wide forced-capture rule: when some piece of `color` can
   * capture, every destination listed for the colour is a capture landing,
   * and (ids being unique) a piece of `color` without a capture of its own
   * is not listed at all.
   */
  lemma ForcedCaptureForColor(pieces: seq<Piece>, color: PieceColor)
    requires UniqueIds(pieces)
    requires HasCaptureMoves(pieces, color)
    ensures forall id, to :: id in AllValidMovesForColor(pieces, color) && to in AllValidMovesForColor(pieces, color)[id] ==>
      exists i :: 0 <= i < |pieces| && pieces[i].id == id && pieces[i].color == color && IsCapture(pieces[i], pieces, to)
    ensures forall i :: 0 <= i < |pieces| && pieces[i].color == color && !CanCapture(pieces[i], pieces) ==>
      pieces[i].id !in AllValidMovesForColor(pieces, color)
  {
  }
}
