/**
 * The single-player turn machine of lib/hooks/use-game-state.ts. The hook's
 * `useState` variables become the fields of `GameState`, each callback
 * becomes a pure function from the state before to the state after (the
 * setters of one callback read as simultaneous assignments), and the
 * winner-check effect becomes `WinnerEffect`, applied by `Step` exactly when
 * the effect's dependencies `pieces` or `currentTurn` change.
 */
module TurnMachine {
  import opened Wrappers
  import opened Board
  import opened MoveGen
  import opened Execution
  import opened WinCheck
  import opened Opening

  /** One entry of `moveHistory`: where the mover stood and where it went. */
  datatype HistoryEntry = HistoryEntry(from: Position, to: Position)

  /** The hook's state variables. */
  datatype GameState = GameState(
    pieces: seq<Piece>,
    currentTurn: PieceColor,
    selectedPieceId: Option<string>,
    validMoves: seq<Position>,
    winner: Option<PieceColor>,
    moveHistory: seq<HistoryEntry>)

  /** What `makeMove` returns, together with the state it leaves behind. */
  datatype MoveOutcome = MoveOutcome(accepted: bool, state: GameState)

  /** The user actions the hook exposes. */
  datatype Action =
    | SelectAction(pieceId: string)
    | MoveAction(pieceId: string, to: Position)
    | ResetAction

  /**
   * The winner-check effect: a non-null result of checkWinCondition is
   * stored; a null result leaves an earlier winner in place. Nothing else
   * changes.
   */
  function WinnerEffect(s: GameState): (r: GameState)
    ensures r.(winner := s.winner) == s
    ensures s.winner.Some? ==> r.winner.Some?
    ensures r.winner != s.winner ==> r.winner == CheckWinCondition(s.pieces, s.currentTurn)
    ensures CheckWinCondition(s.pieces, s.currentTurn).Some? ==> r.winner == CheckWinCondition(s.pieces, s.currentTurn)
  {
    var winnerColor := CheckWinCondition(s.pieces, s.currentTurn);
    if winnerColor.Some? then s.(winner := winnerColor) else s
  }

  /** Running the effect again on the state it produced changes nothing. */
  lemma WinnerEffectIdempotent(s: GameState)
    ensures WinnerEffect(WinnerEffect(s)) == WinnerEffect(s)
  {
  }

  /**
   * The hook's initial state: the given pieces, or the opening position when
   * none are given (an empty list counts as given, as in JavaScript), the
   * given turn or light, and nothing else; then the mount-time effects.
   */
  function Init(initialPieces: Option<seq<Piece>>, initialTurn: Option<PieceColor>): (r: GameState)
    ensures initialPieces.Some? ==> r.pieces == initialPieces.value
    ensures initialPieces.None? ==> r.pieces == InitializeBoard()
    ensures r.currentTurn == (if initialTurn.Some? then initialTurn.value else Light)
    ensures r.selectedPieceId.None? && r.validMoves == [] && r.moveHistory == []
    ensures r.winner == CheckWinCondition(r.pieces, r.currentTurn)
  {
    var pieces := if initialPieces.Some? then initialPieces.value else InitializeBoard();
    var turn := if initialTurn.Some? then initialTurn.value else Light;
    WinnerEffect(GameState(pieces, turn, None, [], None, []))
  }

  /**
   * The two synchronisation effects: new `initialPieces` replace the pieces,
   * a new `initialTurn` replaces the turn, and the winner check follows.
   * Selection, valid moves and history are kept.
   */
  function SyncProps(s: GameState, initialPieces: Option<seq<Piece>>, initialTurn: Option<PieceColor>): (r: GameState)
    ensures r.pieces == (if initialPieces.Some? then initialPieces.value else s.pieces)
    ensures r.currentTurn == (if initialTurn.Some? then initialTurn.value else s.currentTurn)
    ensures r.selectedPieceId == s.selectedPieceId && r.validMoves == s.validMoves && r.moveHistory == s.moveHistory
    ensures s.winner.Some? ==> r.winner.Some?
    ensures r.winner != s.winner ==> r.winner == CheckWinCondition(r.pieces, r.currentTurn)
    ensures CheckWinCondition(r.pieces, r.currentTurn).Some? ==> r.winner == CheckWinCondition(r.pieces, r.currentTurn)
  {
    var pieces := if initialPieces.Some? then initialPieces.value else s.pieces;
    var turn := if initialTurn.Some? then initialTurn.value else s.currentTurn;
    WinnerEffect(s.(pieces := pieces, currentTurn := turn))
  }

  /**
   * selectPiece: a missing piece or a piece of the side not to move changes
   * nothing; otherwise the first piece with the id becomes the selection and
   * its legal destinations become `validMoves`. The board, the turn, the
   * winner and the history never change.
   */
  function SelectPiece(s: GameState, pieceId: string): (r: GameState)
    ensures r.pieces == s.pieces && r.currentTurn == s.currentTurn
    ensures r.winner == s.winner && r.moveHistory == s.moveHistory
    ensures FindById(s.pieces, pieceId).None? ==> r == s
    ensures FindById(s.pieces, pieceId).Some? && FindById(s.pieces, pieceId).value.color != s.currentTurn ==> r == s
    ensures FindById(s.pieces, pieceId).Some? && FindById(s.pieces, pieceId).value.color == s.currentTurn ==>
      var piece := FindById(s.pieces, pieceId).value;
      && r.selectedPieceId == Some(pieceId)
      && (forall to :: to in r.validMoves ==> IsValidPosition(to) && PieceAt(s.pieces, to).None?)
      && (CanCapture(piece, s.pieces) ==> forall to :: to in r.validMoves <==> IsCapture(piece, s.pieces, to))
      && (!CanCapture(piece, s.pieces) ==> forall to :: to in r.validMoves <==> IsStep(piece, s.pieces, to))
  {
    match FindById(s.pieces, pieceId)
    case None => s
    case Some(piece) =>
      if piece.color != s.currentTurn then s
      else s.(selectedPieceId := Some(pieceId), validMoves := ValidMoves(piece, s.pieces))
  }

  /** A destination two rows away from `from`: the hook's test for a capture. */
  predicate TwoRowsAway(from: Position, to: Position)
  {
    Abs(to.row - from.row) == 2
  }

  /**
   * The further captures `makeMove` looks for after a jump: the legal
   * destinations, two rows away, of the FIRST piece in `pieces` with the id.
   * They are exactly that piece's capture landings, and none when it has no
   * capture or the id is absent.
   */
  function ContinuationMoves(pieces: seq<Piece>, pieceId: string): (r: seq<Position>)
    ensures FindById(pieces, pieceId).None? ==> r == []
    ensures FindById(pieces, pieceId).Some? ==>
      var moved := FindById(pieces, pieceId).value;
      && (forall to :: to in r <==> IsCapture(moved, pieces, to))
      && (|r| > 0 <==> CanCapture(moved, pieces))
  {
    match FindById(pieces, pieceId)
    case None => []
    case Some(moved) =>
      var r := Filter(ValidMoves(moved, pieces), (m: Position) => TwoRowsAway(moved.position, m));
      ContinuationCaptures(moved, pieces, r);
      r
  }

  /** The two-rows filter of a piece's legal destinations keeps exactly its capture landings. */
  lemma ContinuationCaptures(moved: Piece, pieces: seq<Piece>, r: seq<Position>)
    requires r == Filter(ValidMoves(moved, pieces), (m: Position) => TwoRowsAway(moved.position, m))
    ensures forall to :: to in r <==> IsCapture(moved, pieces, to)
    ensures |r| > 0 <==> CanCapture(moved, pieces)
  {
    forall to
      ensures to in r <==> IsCapture(moved, pieces, to)
    {
      FilterMember(ValidMoves(moved, pieces), (m: Position) => TwoRowsAway(moved.position, m), to);
      TwoRowMoveIsCapture(moved, pieces, to);
    }
    CanCaptureIff(moved, pieces);
    if |r| > 0 {
      assert r[0] in r;
    }
    if CanCapture(moved, pieces) {
      var to :| IsCapture(moved, pieces, to);
      assert to in r;
    }
  }

  /** A legal destination two rows away is exactly a capture landing. */
  lemma TwoRowMoveIsCapture(piece: Piece, pieces: seq<Piece>, to: Position)
    ensures to in ValidMoves(piece, pieces) && TwoRowsAway(piece.position, to) <==> IsCapture(piece, pieces, to)
  {
    CanCaptureIff(piece, pieces);
    if to in ValidMoves(piece, pieces) {
      ValidMoveRowDistance(piece, pieces, to);
    }
  }

  /**
   * makeMove: the move is accepted exactly when the id is found and the
   * destination is among the first such piece's legal destinations, and a
   * rejected move changes nothing. An accepted move records the history
   * entry and replaces the pieces by executeMove's result; then either the
   * turn is kept, with the selection on the mover and `validMoves` the
   * further captures, or the turn passes and selection and valid moves are
   * cleared. The winner is left to the effect.
   */
  function MakeMove(s: GameState, pieceId: string, newPos: Position): (r: MoveOutcome)
    ensures r.accepted <==>
      FindById(s.pieces, pieceId).Some? && newPos in ValidMoves(FindById(s.pieces, pieceId).value, s.pieces)
    ensures !r.accepted ==> r.state == s
    ensures r.accepted ==>
      var piece := FindById(s.pieces, pieceId).value;
      && r.state.pieces == ExecuteMove(s.pieces, pieceId, newPos)
      && r.state.moveHistory == s.moveHistory + [HistoryEntry(piece.position, newPos)]
      && r.state.winner == s.winner
    ensures r.accepted && r.state.currentTurn == s.currentTurn ==>
      var piece := FindById(s.pieces, pieceId).value;
      && TwoRowsAway(piece.position, newPos)
      && r.state.selectedPieceId == Some(pieceId)
      && r.state.validMoves == ContinuationMoves(r.state.pieces, pieceId)
      && |r.state.validMoves| > 0
    ensures r.accepted && r.state.currentTurn != s.currentTurn ==>
      && r.state.currentTurn == Opponent(s.currentTurn)
      && r.state.selectedPieceId.None?
      && r.state.validMoves == []
    ensures r.accepted ==>
      TwoRowsAway(FindById(s.pieces, pieceId).value.position, newPos) && |ContinuationMoves(r.state.pieces, pieceId)| > 0
      ==> r.state.currentTurn == s.currentTurn
  {
    match FindById(s.pieces, pieceId)
    case None => MoveOutcome(false, s)
    case Some(piece) =>
      var moves := ValidMoves(piece, s.pieces);
      if newPos !in moves then MoveOutcome(false, s)
      else
        var history := s.moveHistory + [HistoryEntry(piece.position, newPos)];
        var updated := ExecuteMove(s.pieces, pieceId, newPos);
        var additional := if TwoRowsAway(piece.position, newPos) then ContinuationMoves(updated, pieceId) else [];
        if |additional| > 0 then
          MoveOutcome(true, s.(pieces := updated, moveHistory := history,
                               selectedPieceId := Some(pieceId), validMoves := additional))
        else
          MoveOutcome(true, s.(pieces := updated, moveHistory := history, currentTurn := Opponent(s.currentTurn),
                               selectedPieceId := None, validMoves := []))
  }

  /** resetGame: the opening position, light to move, no selection, no valid moves, no winner, no history. */
  function ResetGame(s: GameState): (r: GameState)
    ensures r.pieces == InitializeBoard() && r.currentTurn == Light
    ensures r.selectedPieceId.None? && r.validMoves == [] && r.winner.None? && r.moveHistory == []
  {
    GameState(InitializeBoard(), Light, None, [], None, [])
  }

  /**
   * One user action followed by the winner effect when it fires: after an
   * accepted move and after a reset (both replace `pieces`), but not after a
   * selection or a rejected move, which leave `pieces` and `currentTurn`
   * untouched.
   */
  function Step(s: GameState, a: Action): (r: GameState)
    ensures a.SelectAction? ==> r == SelectPiece(s, a.pieceId)
    ensures a.MoveAction? && !MakeMove(s, a.pieceId, a.to).accepted ==> r == s
    ensures a.MoveAction? && MakeMove(s, a.pieceId, a.to).accepted ==>
      r.(winner := s.winner) == MakeMove(s, a.pieceId, a.to).state
    ensures !a.ResetAction? && s.winner.Some? ==> r.winner.Some?
    ensures a.MoveAction? && MakeMove(s, a.pieceId, a.to).accepted ==>
      && (r.winner != s.winner ==> r.winner == CheckWinCondition(r.pieces, r.currentTurn))
      && (CheckWinCondition(r.pieces, r.currentTurn).Some? ==> r.winner == CheckWinCondition(r.pieces, r.currentTurn))
    ensures a.ResetAction? ==>
      && r.(winner := None) == ResetGame(s)
      && r.winner == CheckWinCondition(r.pieces, r.currentTurn)
  {
    match a
    case SelectAction(pieceId) => SelectPiece(s, pieceId)
    case MoveAction(pieceId, to) =>
      var outcome := MakeMove(s, pieceId, to);
      if outcome.accepted then WinnerEffect(outcome.state) else s
    case ResetAction => WinnerEffect(ResetGame(s))
  }
}
