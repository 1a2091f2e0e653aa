/**
 * Move execution of lib/game-logic.ts (`executeMove`). The source copies the
 * array, finds the mover's index, splices out the jumped piece, and then
 * writes the moved piece back at the index found BEFORE the splice. This
 * model keeps that order, so when the jumped piece stood earlier in the list
 * than the mover, the write lands one place too far: it overwrites the
 * mover's right-hand neighbour, or appends when the mover was last.
 */
module Execution {
  import opened Wrappers
  import opened Board
  import opened MoveGen

  /** The row on which a piece of colour `c` is crowned: row 0 for light, row 7 for dark. */
  function PromotionRow(c: PieceColor): int
  {
    if c == Light then 0 else 7
  }

  /** The mover's new record: moved to `newPos`, crowned on reaching its promotion row, otherwise unchanged. */
  function MovedPiece(piece: Piece, newPos: Position): (r: Piece)
    ensures r.id == piece.id && r.color == piece.color && r.position == newPos
    ensures r.kind == King <==> piece.kind == King || newPos.row == PromotionRow(piece.color)
  {
    var promotes := (piece.color == Light && newPos.row == 0) || (piece.color == Dark && newPos.row == 7);
    piece.(position := newPos, kind := if promotes then King else piece.kind)
  }

  /** Both coordinates change by exactly two: the source's test for a capture. */
  predicate IsJump(from: Position, to: Position)
  {
    Abs(to.row - from.row) == 2 && Abs(to.col - from.col) == 2
  }

  /** `splice(i, 1)`: the list without its `i`-th element. */
  function RemoveAt(s: seq<Piece>, i: nat): seq<Piece>
    requires i < |s|
  {
    s[..i] + s[i + 1..]
  }

  /** JavaScript `a[i] = x` with `i <= a.length`: overwrite, or append when `i` is the length. */
  function AssignAt(s: seq<Piece>, i: nat, x: Piece): seq<Piece>
    requires i <= |s|
  {
    if i < |s| then s[i := x] else s + [x]
  }

  /** The list after the capture step: the first piece on the jumped square removed, if the move is a jump and there is one. */
  function AfterCapture(pieces: seq<Piece>, from: Position, to: Position): seq<Piece>
  {
    if IsJump(from, to) then
      match FindIndexAt(pieces, Midpoint(from, to))
      case None => pieces
      case Some(capturedIndex) => RemoveAt(pieces, capturedIndex)
    else pieces
  }

  /**
   * executeMove: an absent id leaves the list as it is; otherwise the moved
   * record lands at the mover's original index, and at most one piece is
   * removed.
   */
  function ExecuteMove(pieces: seq<Piece>, pieceId: string, newPos: Position): (r: seq<Piece>)
    ensures FindIndexById(pieces, pieceId).None? ==> r == pieces
    ensures FindIndexById(pieces, pieceId).Some? ==>
      var i := FindIndexById(pieces, pieceId).value;
      i < |r| && r[i] == MovedPiece(pieces[i], newPos) && |pieces| - 1 <= |r| <= |pieces|
  {
    match FindIndexById(pieces, pieceId)
    case None => pieces
    case Some(pieceIndex) =>
      var piece := pieces[pieceIndex];
      var updated := AfterCapture(pieces, piece.position, newPos);
      AssignAt(updated, pieceIndex, MovedPiece(piece, newPos))
  }

  /**
   * A move that is not a jump, or a jump over an empty square, keeps the list
   * length and changes only the mover's position and rank.
   */
  lemma ExecuteMoveWithoutCapture(pieces: seq<Piece>, pieceId: string, newPos: Position)
    requires FindIndexById(pieces, pieceId).Some?
    requires var piece := pieces[FindIndexById(pieces, pieceId).value];
      !IsJump(piece.position, newPos) || FindIndexAt(pieces, Midpoint(piece.position, newPos)).None?
    ensures var i := FindIndexById(pieces, pieceId).value;
      ExecuteMove(pieces, pieceId, newPos) == pieces[i := MovedPiece(pieces[i], newPos)]
  {
  }

  /**
   * A jump over an occupied square that lies LATER in the list than the mover
   * removes exactly the jumped piece and updates the mover in place.
   */
  lemma ExecuteMoveCapture(pieces: seq<Piece>, pieceId: string, newPos: Position)
    requires FindIndexById(pieces, pieceId).Some?
    requires var piece := pieces[FindIndexById(pieces, pieceId).value];
      && IsJump(piece.position, newPos)
      && FindIndexAt(pieces, Midpoint(piece.position, newPos)).Some?
      && FindIndexAt(pieces, Midpoint(piece.position, newPos)).value > FindIndexById(pieces, pieceId).value
    ensures var i := FindIndexById(pieces, pieceId).value;
      var c := FindIndexAt(pieces, Midpoint(pieces[i].position, newPos)).value;
      var moved := pieces[i := MovedPiece(pieces[i], newPos)];
      ExecuteMove(pieces, pieceId, newPos) == moved[..c] + moved[c + 1..]
  {
    var i := FindIndexById(pieces, pieceId).value;
    var c := FindIndexAt(pieces, Midpoint(pieces[i].position, newPos)).value;
    ExecuteMoveAt(pieces, pieceId, newPos, i);
    assert AfterCapture(pieces, pieces[i].position, newPos) == RemoveAt(pieces, c);
    CaptureWrite(pieces, i, c, MovedPiece(pieces[i], newPos), ExecuteMove(pieces, pieceId, newPos));
  }

  /** Splicing out an element after index `i` and then writing at `i` is the same as writing first. */
  lemma CaptureWrite(pieces: seq<Piece>, i: nat, c: nat, mover: Piece, r: seq<Piece>)
    requires i < c < |pieces|
    requires r == AssignAt(RemoveAt(pieces, c), i, mover)
    ensures var moved := pieces[i := mover]; r == moved[..c] + moved[c + 1..]
  {
    var moved := pieces[i := mover];
    assert r == RemoveAt(pieces, c)[i := mover];
  }

  /**
   * The stale-index hazard: when the jumped piece lies EARLIER in the list
   * than the mover, the old mover record survives (shifted down by one) and
   * the moved record is written over the next piece, or appended. Either
   * way the mover's id now appears twice.
   */
  lemma ExecuteMoveStaleIndex(pieces: seq<Piece>, pieceId: string, newPos: Position)
    requires FindIndexById(pieces, pieceId).Some?
    requires var piece := pieces[FindIndexById(pieces, pieceId).value];
      && IsJump(piece.position, newPos)
      && FindIndexAt(pieces, Midpoint(piece.position, newPos)).Some?
      && FindIndexAt(pieces, Midpoint(piece.position, newPos)).value < FindIndexById(pieces, pieceId).value
    ensures var i := FindIndexById(pieces, pieceId).value;
      var c := FindIndexAt(pieces, Midpoint(pieces[i].position, newPos)).value;
      var r := ExecuteMove(pieces, pieceId, newPos);
      && r[..i] == pieces[..c] + pieces[c + 1..i + 1]
      && r[i] == MovedPiece(pieces[i], newPos)
      && (i + 1 < |pieces| ==> r[i + 1..] == pieces[i + 2..])
      && |r| == (if i + 1 < |pieces| then |pieces| - 1 else |pieces|)
      && r[i - 1] == pieces[i] && r[i - 1].id == pieceId && r[i].id == pieceId
  {
    var i := FindIndexById(pieces, pieceId).value;
    var c := FindIndexAt(pieces, Midpoint(pieces[i].position, newPos)).value;
    ExecuteMoveAt(pieces, pieceId, newPos, i);
    assert AfterCapture(pieces, pieces[i].position, newPos) == RemoveAt(pieces, c);
    StaleWrite(pieces, c, i, MovedPiece(pieces[i], newPos), ExecuteMove(pieces, pieceId, newPos));
  }

  /** `executeMove` once the mover's index is known: the capture step, then the write at that index. */
  lemma ExecuteMoveAt(pieces: seq<Piece>, pieceId: string, newPos: Position, i: nat)
    requires FindIndexById(pieces, pieceId) == Some(i)
    ensures i < |pieces| && pieces[i].id == pieceId
    ensures ExecuteMove(pieces, pieceId, newPos) ==
      AssignAt(AfterCapture(pieces, pieces[i].position, newPos), i, MovedPiece(pieces[i], newPos))
  {
  }

  /** Splicing out an element before index `i` and then writing at `i` keeps the old `pieces[i]` at `i - 1`. */
  lemma StaleWrite(pieces: seq<Piece>, c: nat, i: nat, mover: Piece, r: seq<Piece>)
    requires c < i < |pieces|
    requires r == AssignAt(RemoveAt(pieces, c), i, mover)
    ensures r[..i] == pieces[..c] + pieces[c + 1..i + 1]
    ensures r[i] == mover
    ensures i + 1 < |pieces| ==> r[i + 1..] == pieces[i + 2..]
    ensures |r| == (if i + 1 < |pieces| then |pieces| - 1 else |pieces|)
    ensures r[i - 1] == pieces[i]
  {
    var spliced := RemoveAt(pieces, c);
    assert spliced[..i] == pieces[..c] + pieces[c + 1..i + 1];
    assert spliced[i - 1] == pieces[i];
    if i + 1 < |pieces| {
      assert spliced[i + 1..] == pieces[i + 2..];
      assert r[..i] == spliced[..i];
      assert r[i + 1..] == spliced[i + 1..];
    } else {
      assert r[..i] == spliced;
    }
  }

  /**
   * On a well-formed board, a legal move that does not trip the stale-index
   * hazard keeps the board well-formed: ids and squares stay unique and on
   * the board.
   */
  lemma ExecuteMovePreservesWellFormed(pieces: seq<Piece>, pieceId: string, newPos: Position)
    requires WellFormed(pieces)
    requires FindById(pieces, pieceId).Some?
    requires newPos in ValidMoves(FindById(pieces, pieceId).value, pieces)
    requires var piece := FindById(pieces, pieceId).value;
      IsJump(piece.position, newPos) && FindIndexAt(pieces, Midpoint(piece.position, newPos)).Some? ==>
        FindIndexAt(pieces, Midpoint(piece.position, newPos)).value > FindIndexById(pieces, pieceId).value
    ensures WellFormed(ExecuteMove(pieces, pieceId, newPos))
  {
    var i := FindIndexById(pieces, pieceId).value;
    assert IsValidPosition(newPos) && PieceAt(pieces, newPos).None?;
    MoveToFreeSquarePreservesWellFormed(pieces, pieceId, newPos);
  }

  /** The same, for any move onto an empty board square that avoids the stale index. */
  lemma MoveToFreeSquarePreservesWellFormed(pieces: seq<Piece>, pieceId: string, newPos: Position)
    requires WellFormed(pieces)
    requires FindIndexById(pieces, pieceId).Some?
    requires IsValidPosition(newPos) && PieceAt(pieces, newPos).None?
    requires var piece := pieces[FindIndexById(pieces, pieceId).value];
      IsJump(piece.position, newPos) && FindIndexAt(pieces, Midpoint(piece.position, newPos)).Some? ==>
        FindIndexAt(pieces, Midpoint(piece.position, newPos)).value > FindIndexById(pieces, pieceId).value
    ensures WellFormed(ExecuteMove(pieces, pieceId, newPos))
  {
    var i := FindIndexById(pieces, pieceId).value;
    var piece := pieces[i];
    var moved := pieces[i := MovedPiece(piece, newPos)];
    ExecuteMoveAt(pieces, pieceId, newPos, i);
    MovePreservesWellFormed(pieces, i, newPos);
    if IsJump(piece.position, newPos) && FindIndexAt(pieces, Midpoint(piece.position, newPos)).Some? {
      var c := FindIndexAt(pieces, Midpoint(piece.position, newPos)).value;
      assert AfterCapture(pieces, piece.position, newPos) == RemoveAt(pieces, c);
      CaptureWrite(pieces, i, c, MovedPiece(piece, newPos), ExecuteMove(pieces, pieceId, newPos));
      RemovePreservesWellFormed(moved, c);
    } else {
      assert AfterCapture(pieces, piece.position, newPos) == pieces;
    }
  }

  /** Moving one piece of a well-formed board onto an empty board square keeps it well-formed. */
  lemma MovePreservesWellFormed(pieces: seq<Piece>, i: nat, newPos: Position)
    requires WellFormed(pieces) && i < |pieces|
    requires IsValidPosition(newPos) && PieceAt(pieces, newPos).None?
    ensures WellFormed(pieces[i := MovedPiece(pieces[i], newPos)])
  {
    var moved := pieces[i := MovedPiece(pieces[i], newPos)];
    forall j, k | 0 <= j < k < |moved|
      ensures moved[j].id != moved[k].id && moved[j].position != moved[k].position
    {
      if j == i {
        assert moved[k] == pieces[k];
      } else if k == i {
        assert moved[j] == pieces[j];
      }
    }
  }

  /** Removing one element keeps a board well-formed. */
  lemma RemovePreservesWellFormed(s: seq<Piece>, c: nat)
    requires WellFormed(s) && c < |s|
    ensures WellFormed(s[..c] + s[c + 1..])
  {
    var r := s[..c] + s[c + 1..];
    forall j | 0 <= j < |r|
      ensures r[j] == s[if j < c then j else j + 1]
    {
    }
  }
}
