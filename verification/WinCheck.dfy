/**
 * Win detection of lib/game-logic.ts (`checkWinCondition`): elimination,
 * light first, then the side to move having no legal move at all.
 */
module WinCheck {
  import opened Wrappers
  import opened Board
  import opened MoveGen

  /** Some piece on the board has colour `c`. */
  predicate HasPieces(pieces: seq<Piece>, c: PieceColor)
  {
    exists i :: 0 <= i < |pieces| && pieces[i].color == c
  }

  /** Some piece of colour `c` has a non-empty `getValidMoves` list. */
  predicate HasAnyMove(pieces: seq<Piece>, c: PieceColor)
  {
    exists i :: 0 <= i < |pieces| && pieces[i].color == c && |ValidMoves(pieces[i], pieces)| > 0
  }

  /**
   * checkWinCondition: dark wins when no light piece is left (checked
   * first), light wins when no dark piece is left, otherwise the opponent of
   * the side to move wins when that side has no move, and otherwise nobody.
   */
  function CheckWinCondition(pieces: seq<Piece>, currentTurn: PieceColor): (r: Option<PieceColor>)
    ensures !HasPieces(pieces, Light) ==> r == Some(Dark)
    ensures HasPieces(pieces, Light) && !HasPieces(pieces, Dark) ==> r == Some(Light)
    ensures HasPieces(pieces, Light) && HasPieces(pieces, Dark) ==>
      (r == None <==> HasAnyMove(pieces, currentTurn)) && (r != None ==> r == Some(Opponent(currentTurn)))
  {
    var lightPieces := Filter(pieces, (p: Piece) => p.color == Light);
    var darkPieces := Filter(pieces, (p: Piece) => p.color == Dark);
    CountsAndMoves(pieces, currentTurn);
    if |lightPieces| == 0 then
      Some(Dark)
    else if |darkPieces| == 0 then
      Some(Light)
    else
      var currentPlayerPieces := Filter(pieces, (p: Piece) => p.color == currentTurn);
      var hasValidMoves := Any(currentPlayerPieces, (p: Piece) => |ValidMoves(p, pieces)| > 0);
      if !hasValidMoves then
        Some(if currentTurn == Light then Dark else Light)
      else
        None
  }

  /** The filters and the `some` test of `checkWinCondition`, read as statements about the board. */
  lemma CountsAndMoves(pieces: seq<Piece>, currentTurn: PieceColor)
    ensures |Filter(pieces, (p: Piece) => p.color == Light)| == 0 <==> !HasPieces(pieces, Light)
    ensures |Filter(pieces, (p: Piece) => p.color == Dark)| == 0 <==> !HasPieces(pieces, Dark)
    ensures Any(Filter(pieces, (p: Piece) => p.color == currentTurn), (p: Piece) => |ValidMoves(p, pieces)| > 0)
      <==> HasAnyMove(pieces, currentTurn)
  {
    LightCount(pieces);
    DarkCount(pieces);
    MovesOfSide(pieces, currentTurn);
  }

  lemma LightCount(pieces: seq<Piece>)
    ensures |Filter(pieces, (p: Piece) => p.color == Light)| == 0 <==> !HasPieces(pieces, Light)
  {
    FilterEmpty(pieces, (p: Piece) => p.color == Light);
  }

  lemma DarkCount(pieces: seq<Piece>)
    ensures |Filter(pieces, (p: Piece) => p.color == Dark)| == 0 <==> !HasPieces(pieces, Dark)
  {
    FilterEmpty(pieces, (p: Piece) => p.color == Dark);
  }

  lemma MovesOfSide(pieces: seq<Piece>, currentTurn: PieceColor)
    ensures Any(Filter(pieces, (p: Piece) => p.color == currentTurn), (p: Piece) => |ValidMoves(p, pieces)| > 0)
      <==> HasAnyMove(pieces, currentTurn)
  {
    AnyOfFilter(pieces, (p: Piece) => p.color == currentTurn, (p: Piece) => |ValidMoves(p, pieces)| > 0);
  }

  /** The side to move is reported as the winner only when its opponent has no pieces left. */
  lemma WinnerIsNotStuckSide(pieces: seq<Piece>, currentTurn: PieceColor)
    requires CheckWinCondition(pieces, currentTurn) == Some(currentTurn)
    ensures !HasPieces(pieces, Opponent(currentTurn))
  {
  }
}
