/**
 * Properties of the turn machine: how multi-jumps continue on a board the
 * move keeps well-formed, what the stale index of `executeMove` does to the
 * continuation check, why light's captures in the opening order always hit
 * that case, what a reset and the default start leave, and what a run of
 * actions without a reset preserves.
 */
module TurnProperties {
  import opened Wrappers
  import opened Board
  import opened MoveGen
  import opened Execution
  import opened WinCheck
  import opened Opening
  import opened TurnMachine

  /**
   * On a well-formed board, a legal move that avoids the stale-index case is
   * accepted, keeps the board well-formed, and the continuation check sees
   * the moved piece. The turn is kept exactly when the move was a capture
   * and the moved piece can capture again, and then `validMoves` are exactly
   * its capture landings.
   */
  lemma MultiJumpContinuation(s: GameState, pieceId: string, newPos: Position)
    requires WellFormed(s.pieces)
    requires FindById(s.pieces, pieceId).Some?
    requires newPos in ValidMoves(FindById(s.pieces, pieceId).value, s.pieces)
    requires var piece := FindById(s.pieces, pieceId).value;
      IsJump(piece.position, newPos) && FindIndexAt(s.pieces, Midpoint(piece.position, newPos)).Some? ==>
        FindIndexAt(s.pieces, Midpoint(piece.position, newPos)).value > FindIndexById(s.pieces, pieceId).value
    ensures var o := MakeMove(s, pieceId, newPos);
      var piece := FindById(s.pieces, pieceId).value;
      var moved := MovedPiece(piece, newPos);
      && o.accepted
      && WellFormed(o.state.pieces)
      && FindById(o.state.pieces, pieceId) == Some(moved)
      && (o.state.currentTurn == s.currentTurn <==> CanCapture(piece, s.pieces) && CanCapture(moved, o.state.pieces))
      && (o.state.currentTurn == s.currentTurn ==>
            forall to :: to in o.state.validMoves <==> IsCapture(moved, o.state.pieces, to))
  {
    var piece := FindById(s.pieces, pieceId).value;
    var i := FindIndexById(s.pieces, pieceId).value;
    assert piece == s.pieces[i];
    ExecuteMovePreservesWellFormed(s.pieces, pieceId, newPos);
    var r := ExecuteMove(s.pieces, pieceId, newPos);
    assert r[i] == MovedPiece(piece, newPos);
    FindByIdUnique(r, i);
    ValidMoveRowDistance(piece, s.pieces, newPos);
  }

  /**
   * The stale-index case seen from the hook: a legal jump over a piece that
   * lies earlier in the list than the mover is accepted, but the resulting
   * list holds the mover's id twice and the first record with that id, the
   * one the continuation check reads, is the mover's OLD record, still on
   * its old square.
   */
  lemma StaleIndexContinuation(s: GameState, pieceId: string, newPos: Position)
    requires WellFormed(s.pieces)
    requires FindById(s.pieces, pieceId).Some?
    requires newPos in ValidMoves(FindById(s.pieces, pieceId).value, s.pieces)
    requires var piece := FindById(s.pieces, pieceId).value;
      && IsJump(piece.position, newPos)
      && FindIndexAt(s.pieces, Midpoint(piece.position, newPos)).Some?
      && FindIndexAt(s.pieces, Midpoint(piece.position, newPos)).value < FindIndexById(s.pieces, pieceId).value
    ensures var o := MakeMove(s, pieceId, newPos);
      && o.accepted
      && FindById(o.state.pieces, pieceId) == FindById(s.pieces, pieceId)
      && !UniqueIds(o.state.pieces)
      && !WellFormed(o.state.pieces)
  {
    StaleIndexLookup(s.pieces, pieceId, newPos);
  }

  /** After a stale-index jump, the first record with the mover's id is its old one, and the id is repeated. */
  lemma StaleIndexLookup(pieces: seq<Piece>, pieceId: string, newPos: Position)
    requires WellFormed(pieces)
    requires FindIndexById(pieces, pieceId).Some?
    requires var piece := pieces[FindIndexById(pieces, pieceId).value];
      && IsJump(piece.position, newPos)
      && FindIndexAt(pieces, Midpoint(piece.position, newPos)).Some?
      && FindIndexAt(pieces, Midpoint(piece.position, newPos)).value < FindIndexById(pieces, pieceId).value
    ensures FindById(ExecuteMove(pieces, pieceId, newPos), pieceId) == FindById(pieces, pieceId)
    ensures !UniqueIds(ExecuteMove(pieces, pieceId, newPos))
    ensures !WellFormed(ExecuteMove(pieces, pieceId, newPos))
  {
    var i := FindIndexById(pieces, pieceId).value;
    var c := FindIndexAt(pieces, Midpoint(pieces[i].position, newPos)).value;
    ExecuteMoveStaleIndex(pieces, pieceId, newPos);
    StaleFirstId(pieces, ExecuteMove(pieces, pieceId, newPos), c, i, pieceId);
  }

  /**
   * When `r` starts with `pieces[..i + 1]` minus one earlier element and then
   * repeats the id of `pieces[i]`, the first occurrence of that id is the old
   * record, one place down.
   */
  lemma StaleFirstId(pieces: seq<Piece>, r: seq<Piece>, c: nat, i: nat, id: string)
    requires c < i < |pieces| && i < |r|
    requires pieces[i].id == id && r[i].id == id
    requires forall j :: 0 <= j < i ==> pieces[j].id != id
    requires r[..i] == pieces[..c] + pieces[c + 1..i + 1]
    ensures r[i - 1] == pieces[i]
    ensures FindIndexById(r, id) == Some(i - 1)
    ensures FindById(r, id) == Some(pieces[i])
    ensures r[i - 1].id == id && r[i].id == id
    ensures !UniqueIds(r) && !WellFormed(r)
  {
    var front := r[..i];
    assert r[i - 1] == front[i - 1];
    forall j | 0 <= j < i - 1
      ensures r[j].id != id
    {
      assert r[j] == front[j];
      if j < c {
        assert front[j] == pieces[j];
      } else {
        assert front[j] == pieces[j + 1];
      }
    }
  }

  /** Every dark piece comes before every light piece in the list, as in the opening position. */
  predicate DarkBeforeLight(pieces: seq<Piece>)
  {
    forall j, k :: 0 <= j < |pieces| && 0 <= k < |pieces| && pieces[j].color == Dark && pieces[k].color == Light ==> j < k
  }

  /**
   * With the dark pieces listed before the light ones, every capture by a
   * light piece jumps a dark piece that lies earlier in the list: the
   * stale-index case of `executeMove`.
   */
  lemma LightCaptureHitsStaleIndex(pieces: seq<Piece>, pieceId: string, newPos: Position)
    requires DarkBeforeLight(pieces)
    requires FindById(pieces, pieceId).Some? && FindById(pieces, pieceId).value.color == Light
    requires IsCapture(FindById(pieces, pieceId).value, pieces, newPos)
    ensures var piece := FindById(pieces, pieceId).value;
      && IsJump(piece.position, newPos)
      && FindIndexAt(pieces, Midpoint(piece.position, newPos)).Some?
      && FindIndexAt(pieces, Midpoint(piece.position, newPos)).value < FindIndexById(pieces, pieceId).value
  {
    var i := FindIndexById(pieces, pieceId).value;
    var piece := pieces[i];
    var over := Midpoint(piece.position, newPos);
    var c := FindIndexAt(pieces, over).value;
    assert PieceAt(pieces, over) == Some(pieces[c]);
    assert pieces[c].color == Dark && pieces[i].color == Light;
  }

  /** The opening position lists dark before light. */
  lemma OpeningDarkBeforeLight()
    ensures DarkBeforeLight(InitializeBoard())
  {
    InitialPosition();
    BandsDarkBeforeLight(InitializeBoard());
  }

  lemma BandsDarkBeforeLight(b: seq<Piece>)
    requires |b| == 24
    requires forall i :: 0 <= i < 12 ==> b[i].color == Dark
    requires forall i :: 12 <= i < 24 ==> b[i].color == Light
    ensures DarkBeforeLight(b)
  {
  }

  /** A piece with a free step has a non-empty move list, whether or not it can capture. */
  lemma StepGivesMove(piece: Piece, pieces: seq<Piece>, to: Position)
    requires IsStep(piece, pieces, to)
    ensures |ValidMoves(piece, pieces)| > 0
  {
    var moves := ValidMoves(piece, pieces);
    if CanCapture(piece, pieces) {
      CanCaptureIff(piece, pieces);
      var t :| IsCapture(piece, pieces, t);
      assert t in moves;
    } else {
      assert to in moves;
    }
  }

  /** The first light piece of the opening stands on row 5, column 0. */
  lemma OpeningLightCorner()
    ensures var b := InitializeBoard();
      |b| == 24 && b[12].position == Position(5, 0)
  {
    var b := InitializeBoard();
    var dark := BandPieces(0, 3, Dark, 0);
    var light := BandPieces(5, 8, Light, 12);
    InitialBands();
    DarkBand();
    LightBand();
    SecondPartHead(b, dark, light);
  }

  lemma SecondPartHead(b: seq<Piece>, first: seq<Piece>, second: seq<Piece>)
    requires b == first + second && |first| == 12 && |second| == 12
    ensures |b| == 24 && b[12] == second[0]
  {
  }

  /** In a board shaped like the opening with a light regular piece on (5, 0), light has a move. */
  lemma OpeningShapeLightMoves(b: seq<Piece>)
    requires |b| == 24
    requires forall i :: 0 <= i < 24 ==> b[i].kind == Regular
    requires forall i :: 0 <= i < 12 ==> b[i].color == Dark && 0 <= b[i].position.row <= 2
    requires forall i :: 12 <= i < 24 ==> b[i].color == Light && 5 <= b[i].position.row <= 7
    requires b[12].position == Position(5, 0)
    ensures HasAnyMove(b, Light) && HasPieces(b, Light) && HasPieces(b, Dark)
  {
    RowFourEmpty(b, Position(4, 1));
    PiecesWitness(b, 12);
    PiecesWitness(b, 0);
    CornerHasMove(b);
  }

  /** A light regular piece on (5, 0) with (4, 1) empty gives light a move. */
  lemma CornerHasMove(b: seq<Piece>)
    requires |b| > 12
    requires b[12].kind == Regular && b[12].color == Light && b[12].position == Position(5, 0)
    requires PieceAt(b, Position(4, 1)).None?
    ensures HasAnyMove(b, Light)
  {
    var to := Position(4, 1);
    CornerStep(b[12], b, to);
    StepGivesMove(b[12], b, to);
    MoveWitness(b, 12);
  }

  /** A light regular piece on (5, 0) may step to an empty (4, 1). */
  lemma CornerStep(p: Piece, b: seq<Piece>, to: Position)
    requires p.kind == Regular && p.color == Light && p.position == Position(5, 0)
    requires to == Position(4, 1) && PieceAt(b, to).None?
    ensures IsStep(p, b, to)
  {
    assert Delta(p.position, to) == Position(-1, 1);
  }

  /** A piece with a legal destination gives its colour a move. */
  lemma MoveWitness(b: seq<Piece>, i: nat)
    requires i < |b| && |ValidMoves(b[i], b)| > 0
    ensures HasAnyMove(b, b[i].color)
  {
  }

  /** A piece on the board gives its colour pieces. */
  lemma PiecesWitness(b: seq<Piece>, i: nat)
    requires i < |b|
    ensures HasPieces(b, b[i].color)
  {
  }

  /** No piece of a board shaped like the opening stands on row 4. */
  lemma RowFourEmpty(b: seq<Piece>, to: Position)
    requires |b| == 24
    requires forall i :: 0 <= i < 12 ==> 0 <= b[i].position.row <= 2
    requires forall i :: 12 <= i < 24 ==> 5 <= b[i].position.row <= 7
    requires to.row == 4
    ensures PieceAt(b, to).None?
  {
    forall j | 0 <= j < |b|
      ensures b[j].position != to
    {
      if j < 12 {
        assert b[j].position.row <= 2;
      } else {
        assert b[j].position.row >= 5;
      }
    }
  }

  /** With pieces of both colours and a move for the side to move, nobody has won. */
  lemma NoWinnerWhileMovesRemain(b: seq<Piece>, c: PieceColor)
    requires HasAnyMove(b, c) && HasPieces(b, Light) && HasPieces(b, Dark)
    ensures CheckWinCondition(b, c).None?
  {
  }

  /** In the opening position, light to move, nobody has won. */
  lemma OpeningHasNoWinner()
    ensures CheckWinCondition(InitializeBoard(), Light).None?
  {
    InitialPosition();
    OpeningLightCorner();
    OpeningShapeLightMoves(InitializeBoard());
    NoWinnerWhileMovesRemain(InitializeBoard(), Light);
  }

  /**
   * A reset, effect included, leaves the well-formed opening position with
   * light to move and clears the selection, the valid moves, the history and
   * the winner, whatever the state before.
   */
  lemma ResetStartsOver(s: GameState)
    ensures var r := Step(s, ResetAction);
      && r.pieces == InitializeBoard() && WellFormed(r.pieces) && r.currentTurn == Light
      && r.selectedPieceId.None? && r.validMoves == [] && r.moveHistory == [] && r.winner.None?
  {
    InitialPosition();
    OpeningHasNoWinner();
  }

  /** The hook mounted without props starts from the opening, light to move, with no winner. */
  lemma DefaultStart()
    ensures var r := Init(None, None);
      && r.pieces == InitializeBoard() && WellFormed(r.pieces) && r.currentTurn == Light && r.winner.None?
  {
    InitialPosition();
    OpeningHasNoWinner();
  }

  /**
   * For a piece of the side to move, the destinations `selectPiece` offers
   * are exactly the ones `makeMove` accepts next.
   */
  lemma SelectionMatchesAcceptance(s: GameState, pieceId: string, to: Position)
    requires FindById(s.pieces, pieceId).Some? && FindById(s.pieces, pieceId).value.color == s.currentTurn
    ensures to in SelectPiece(s, pieceId).validMoves <==> MakeMove(SelectPiece(s, pieceId), pieceId, to).accepted
  {
  }

  /**
   * Whether `makeMove` accepts, and the board it produces, depend only on the
   * pieces: neither the side to move, nor the current selection (so a
   * multi-jump does not restrict which piece moves next), nor an already
   * declared winner is consulted.
   */
  lemma AcceptanceIgnoresTurnAndWinner(s: GameState, t: GameState, pieceId: string, to: Position)
    requires s.pieces == t.pieces
    ensures MakeMove(s, pieceId, to).accepted == MakeMove(t, pieceId, to).accepted
    ensures MakeMove(s, pieceId, to).accepted ==> MakeMove(s, pieceId, to).state.pieces == MakeMove(t, pieceId, to).state.pieces
  {
  }

  /** The state after a sequence of actions, one `Step` at a time. */
  function Run(s: GameState, actions: seq<Action>): GameState
    decreases |actions|
  {
    if |actions| == 0 then s else Run(Step(s, actions[0]), actions[1..])
  }

  predicate NoReset(actions: seq<Action>)
  {
    forall k :: 0 <= k < |actions| ==> !actions[k].ResetAction?
  }

  /** A single step other than a reset extends the history and never clears a winner. */
  lemma StepKeepsHistoryAndWinner(s: GameState, a: Action)
    requires !a.ResetAction?
    ensures s.moveHistory <= Step(s, a).moveHistory
    ensures s.winner.Some? ==> Step(s, a).winner.Some?
  {
    if a.MoveAction? && MakeMove(s, a.pieceId, a.to).accepted {
      var o := MakeMove(s, a.pieceId, a.to);
      assert Step(s, a).moveHistory == o.state.moveHistory;
    }
  }

  /**
   * Along any run without a reset the history only grows, so earlier moves
   * are never forgotten, and once a winner is declared some winner stays
   * declared.
   */
  lemma {:induction false} RunWithoutReset(s: GameState, actions: seq<Action>)
    requires NoReset(actions)
    ensures s.moveHistory <= Run(s, actions).moveHistory
    ensures s.winner.Some? ==> Run(s, actions).winner.Some?
    decreases |actions|
  {
    if |actions| > 0 {
      var next := Step(s, actions[0]);
      StepKeepsHistoryAndWinner(s, actions[0]);
      assert NoReset(actions[1..]) by {
        forall k | 0 <= k < |actions| - 1
          ensures !actions[1..][k].ResetAction?
        {
          assert actions[1..][k] == actions[k + 1];
        }
      }
      RunWithoutReset(next, actions[1..]);
    }
  }
}
