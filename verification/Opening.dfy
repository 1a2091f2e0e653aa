/**
 * The opening position (`initializeBoard`, lib/game-logic.ts): the two
 * nested loops over rows and columns become two recursive functions, and the
 * running `pieceId` counter becomes the `nextId` argument.
 */
module Opening {
  import opened Board
  import opened PieceIds

  /** The regular pieces of `color` placed on `row`, columns `col..7`, where `(row + col) % 2 == 1`. */
  function RowPieces(row: nat, col: nat, color: PieceColor, nextId: nat): seq<Piece>
    requires col <= 8
    decreases 8 - col
  {
    if col == 8 then []
    else if (row + col) % 2 == 1 then
      [Piece(PieceId(nextId), Regular, color, Position(row, col))] + RowPieces(row, col + 1, color, nextId + 1)
    else
      RowPieces(row, col + 1, color, nextId)
  }

  /** The pieces of `color` on rows `row..rowEnd-1`, numbered consecutively from `nextId`. */
  function BandPieces(row: nat, rowEnd: nat, color: PieceColor, nextId: nat): seq<Piece>
    requires row <= rowEnd
    decreases rowEnd - row
  {
    if row == rowEnd then []
    else
      var first := FullRow(row, color, nextId);
      first + BandPieces(row + 1, rowEnd, color, nextId + |first|)
  }

  /** One pass of the inner loop: the pieces of `color` on `row`, from column 0. */
  function FullRow(row: nat, color: PieceColor, nextId: nat): seq<Piece>
  {
    RowPieces(row, 0, color, nextId)
  }

  /** initializeBoard: dark pieces on rows 0-2, then light pieces on rows 5-7. */
  function InitializeBoard(): seq<Piece>
  {
    var dark := BandPieces(0, 3, Dark, 0);
    dark + BandPieces(5, 8, Light, |dark|)
  }

  /** Square order: row-major, as the loops visit the board. */
  predicate Before(a: Position, b: Position)
  {
    a.row < b.row || (a.row == b.row && a.col < b.col)
  }

  /** Piece `k` of `r` carries the identifier `piece-<nextId + k>`. */
  predicate NumberedFrom(r: seq<Piece>, nextId: nat)
  {
    forall k :: 0 <= k < |r| ==> r[k].id == PieceId(nextId + k)
  }

  /** Every piece is a regular piece of `color` on a dark square of rows `lo..hi-1`. */
  predicate PlacedIn(r: seq<Piece>, lo: nat, hi: nat, color: PieceColor)
  {
    forall k :: 0 <= k < |r| ==>
      && r[k].kind == Regular && r[k].color == color
      && lo <= r[k].position.row < hi && 0 <= r[k].position.col < 8
      && (r[k].position.row + r[k].position.col) % 2 == 1
  }

  /** The squares strictly increase in row-major order. */
  predicate RowMajor(r: seq<Piece>)
  {
    forall k, l :: 0 <= k < l < |r| ==> Before(r[k].position, r[l].position)
  }

  /** The facts about a run of opening pieces that the opening-position lemma is built from. */
  predicate RowShape(r: seq<Piece>, lo: nat, hi: nat, color: PieceColor, nextId: nat)
  {
    NumberedFrom(r, nextId) && PlacedIn(r, lo, hi, color) && RowMajor(r)
  }

  /** The number of playable squares of `row` from column `col` on. */
  function PlayableFrom(row: nat, col: nat): nat
    requires col <= 8
    decreases 8 - col
  {
    if col == 8 then 0 else (if (row + col) % 2 == 1 then 1 else 0) + PlayableFrom(row, col + 1)
  }

  /** Every row has four playable squares. */
  lemma PlayableRow(row: nat)
    ensures PlayableFrom(row, 0) == 4
  {
    assert PlayableFrom(row, 6) == 1;
    assert PlayableFrom(row, 4) == 2;
    assert PlayableFrom(row, 2) == 3;
  }

  /** One row run holds one piece per playable square from `col` on. */
  lemma {:induction false} RowPiecesLength(row: nat, col: nat, color: PieceColor, nextId: nat)
    requires col <= 8
    ensures |RowPieces(row, col, color, nextId)| == PlayableFrom(row, col)
    decreases 8 - col
  {
    if col < 8 {
      if (row + col) % 2 == 1 {
        RowPiecesLength(row, col + 1, color, nextId + 1);
      } else {
        RowPiecesLength(row, col + 1, color, nextId);
      }
    }
  }

  /** A row run is numbered consecutively, placed on playable squares of its row, left to right, from column `col`. */
  lemma {:induction false} RowPiecesShape(row: nat, col: nat, color: PieceColor, nextId: nat)
    requires col <= 8
    ensures RowShape(RowPieces(row, col, color, nextId), row, row + 1, color, nextId)
    ensures forall k :: 0 <= k < |RowPieces(row, col, color, nextId)| ==> col <= RowPieces(row, col, color, nextId)[k].position.col
    decreases 8 - col
  {
    if col < 8 {
      if (row + col) % 2 == 1 {
        RowPiecesShape(row, col + 1, color, nextId + 1);
        RowStep(RowPieces(row, col, color, nextId), Piece(PieceId(nextId), Regular, color, Position(row, col)),
          RowPieces(row, col + 1, color, nextId + 1), row, col, color, nextId);
      } else {
        RowPiecesShape(row, col + 1, color, nextId);
        RowSkip(RowPieces(row, col, color, nextId), RowPieces(row, col + 1, color, nextId), row, col, color, nextId);
      }
    }
  }

  /** A piece on a playable square in front of the run to its right has the shape of the longer run. */
  lemma RowStep(b: seq<Piece>, p: Piece, rest: seq<Piece>, row: nat, col: nat, color: PieceColor, nextId: nat)
    requires col < 8 && (row + col) % 2 == 1
    requires b == [p] + rest && p == Piece(PieceId(nextId), Regular, color, Position(row, col))
    requires RowShape(rest, row, row + 1, color, nextId + 1)
    requires forall k :: 0 <= k < |rest| ==> col + 1 <= rest[k].position.col
    ensures RowShape(b, row, row + 1, color, nextId)
    ensures forall k :: 0 <= k < |b| ==> col <= b[k].position.col
  {
    ConsShape(p, rest, row, color, nextId);
    ConsColumns(p, rest, col);
  }

  /** Skipping a square keeps the shape, and the run starts one column further left. */
  lemma RowSkip(b: seq<Piece>, rest: seq<Piece>, row: nat, col: nat, color: PieceColor, nextId: nat)
    requires b == rest
    requires RowShape(rest, row, row + 1, color, nextId)
    requires forall k :: 0 <= k < |rest| ==> col + 1 <= rest[k].position.col
    ensures RowShape(b, row, row + 1, color, nextId)
    ensures forall k :: 0 <= k < |b| ==> col <= b[k].position.col
  {
  }

  /** A piece in column `col` followed by pieces right of it: all from column `col` on. */
  lemma ConsColumns(p: Piece, rest: seq<Piece>, col: nat)
    requires p.position.col == col
    requires forall k :: 0 <= k < |rest| ==> col + 1 <= rest[k].position.col
    ensures forall k :: 0 <= k < |[p] + rest| ==> col <= ([p] + rest)[k].position.col
  {
    var r := [p] + rest;
    forall k | 1 <= k < |r|
      ensures r[k] == rest[k - 1]
    {
    }
  }

  /** Putting a piece in front of a run of later squares in the same row keeps the shape. */
  lemma ConsShape(p: Piece, rest: seq<Piece>, row: nat, color: PieceColor, nextId: nat)
    requires p == Piece(PieceId(nextId), Regular, color, p.position)
    requires p.position.row == row && 0 <= p.position.col < 8
    requires (p.position.row + p.position.col) % 2 == 1
    requires RowShape(rest, row, row + 1, color, nextId + 1)
    requires forall k :: 0 <= k < |rest| ==> p.position.col < rest[k].position.col
    ensures RowShape([p] + rest, row, row + 1, color, nextId)
  {
    ConsNumbered(p, rest, nextId);
    ConsPlaced(p, rest, row, color);
    ConsRowMajor(p, rest);
  }

  lemma ConsNumbered(p: Piece, rest: seq<Piece>, nextId: nat)
    requires p.id == PieceId(nextId)
    requires NumberedFrom(rest, nextId + 1)
    ensures NumberedFrom([p] + rest, nextId)
  {
    var r := [p] + rest;
    forall k | 1 <= k < |r|
      ensures r[k].id == PieceId(nextId + k)
    {
      assert r[k] == rest[k - 1];
    }
  }

  lemma ConsPlaced(p: Piece, rest: seq<Piece>, row: nat, color: PieceColor)
    requires p.kind == Regular && p.color == color
    requires p.position.row == row && 0 <= p.position.col < 8
    requires (p.position.row + p.position.col) % 2 == 1
    requires PlacedIn(rest, row, row + 1, color)
    ensures PlacedIn([p] + rest, row, row + 1, color)
  {
    var r := [p] + rest;
    forall k | 1 <= k < |r|
      ensures r[k] == rest[k - 1]
    {
    }
  }

  lemma ConsRowMajor(p: Piece, rest: seq<Piece>)
    requires RowMajor(rest)
    requires forall k :: 0 <= k < |rest| ==> p.position.row == rest[k].position.row
    requires forall k :: 0 <= k < |rest| ==> p.position.col < rest[k].position.col
    ensures RowMajor([p] + rest)
  {
    var r := [p] + rest;
    forall k, l | 0 <= k < l < |r|
      ensures Before(r[k].position, r[l].position)
    {
      if k == 0 {
        assert r[l] == rest[l - 1];
      } else {
        assert r[k] == rest[k - 1] && r[l] == rest[l - 1];
      }
    }
  }

  /** Concatenating two well-shaped runs whose rows do not overlap keeps the shape. */
  lemma ConcatShape(a: seq<Piece>, b: seq<Piece>, lo: nat, mid: nat, hi: nat, color: PieceColor, nextId: nat)
    requires lo <= mid <= hi
    requires RowShape(a, lo, mid, color, nextId)
    requires RowShape(b, mid, hi, color, nextId + |a|)
    ensures RowShape(a + b, lo, hi, color, nextId)
  {
    ConcatNumbered(a, b, nextId);
    ConcatPlaced(a, b, lo, mid, hi, color);
    ConcatRowMajor(a, b, mid);
  }

  lemma ConcatNumbered(a: seq<Piece>, b: seq<Piece>, nextId: nat)
    requires NumberedFrom(a, nextId) && NumberedFrom(b, nextId + |a|)
    ensures NumberedFrom(a + b, nextId)
  {
    var r := a + b;
    forall k | |a| <= k < |r|
      ensures r[k].id == PieceId(nextId + k)
    {
      assert r[k] == b[k - |a|];
    }
  }

  lemma ConcatPlaced(a: seq<Piece>, b: seq<Piece>, lo: nat, mid: nat, hi: nat, color: PieceColor)
    requires lo <= mid <= hi
    requires PlacedIn(a, lo, mid, color) && PlacedIn(b, mid, hi, color)
    ensures PlacedIn(a + b, lo, hi, color)
  {
    var r := a + b;
    forall k | |a| <= k < |r|
      ensures r[k] == b[k - |a|]
    {
    }
  }

  lemma ConcatRowMajor(a: seq<Piece>, b: seq<Piece>, mid: int)
    requires RowMajor(a) && RowMajor(b)
    requires forall k :: 0 <= k < |a| ==> a[k].position.row < mid
    requires forall k :: 0 <= k < |b| ==> mid <= b[k].position.row
    ensures RowMajor(a + b)
  {
    var r := a + b;
    forall k, l | 0 <= k < l < |r|
      ensures Before(r[k].position, r[l].position)
    {
      if l < |a| {
        assert r[k] == a[k] && r[l] == a[l];
      } else if k >= |a| {
        assert r[k] == b[k - |a|] && r[l] == b[l - |a|];
      } else {
        assert r[k] == a[k] && r[l] == b[l - |a|];
      }
    }
  }

  /** A numbered, row-major run of on-board pieces satisfies the board invariant. */
  lemma ShapeWellFormed(r: seq<Piece>)
    requires NumberedFrom(r, 0) && RowMajor(r)
    requires forall k :: 0 <= k < |r| ==> IsValidPosition(r[k].position)
    ensures WellFormed(r)
  {
    forall i, j | 0 <= i < j < |r|
      ensures r[i].id != r[j].id && r[i].position != r[j].position
    {
      PieceIdInjective(i, j);
      assert Before(r[i].position, r[j].position);
    }
  }

  /** A band of `rowEnd - row` rows holds four pieces per row. */
  lemma {:induction false} BandPiecesLength(row: nat, rowEnd: nat, color: PieceColor, nextId: nat)
    requires row <= rowEnd
    ensures |BandPieces(row, rowEnd, color, nextId)| == 4 * (rowEnd - row)
    decreases rowEnd - row
  {
    if row < rowEnd {
      FullRowLength(row, color, nextId);
      BandPiecesLength(row + 1, rowEnd, color, nextId + 4);
    }
  }

  /** A band is numbered consecutively from `nextId` and placed row-major on playable squares of its rows. */
  lemma {:induction false} BandPiecesShape(row: nat, rowEnd: nat, color: PieceColor, nextId: nat)
    requires row <= rowEnd
    ensures RowShape(BandPieces(row, rowEnd, color, nextId), row, rowEnd, color, nextId)
    decreases rowEnd - row
  {
    if row < rowEnd {
      FullRowShape(row, color, nextId);
      BandPiecesLength(row + 1, rowEnd, color, nextId + 4);
      BandPiecesShape(row + 1, rowEnd, color, nextId + 4);
      BandStep(BandPieces(row, rowEnd, color, nextId), FullRow(row, color, nextId),
        BandPieces(row + 1, rowEnd, color, nextId + 4), row, rowEnd, color, nextId);
    }
  }

  /** A row of four pieces followed by the band of the rows below it has the shape of the longer band. */
  lemma BandStep(b: seq<Piece>, first: seq<Piece>, rest: seq<Piece>, row: nat, rowEnd: nat, color: PieceColor, nextId: nat)
    requires row < rowEnd
    requires b == first + rest
    requires |first| == 4 && RowShape(first, row, row + 1, color, nextId)
    requires |rest| == 4 * (rowEnd - (row + 1)) && RowShape(rest, row + 1, rowEnd, color, nextId + 4)
    ensures |b| == 4 * (rowEnd - row) && RowShape(b, row, rowEnd, color, nextId)
  {
    ConcatShape(first, rest, row, row + 1, rowEnd, color, nextId);
  }

  /** A whole row of the opening loop holds four pieces. */
  lemma FullRowLength(row: nat, color: PieceColor, nextId: nat)
    ensures |FullRow(row, color, nextId)| == 4
  {
    RowPiecesLength(row, 0, color, nextId);
    PlayableRow(row);
  }

  /** A whole row of the opening loop: four pieces with the row's shape. */
  lemma FullRowShape(row: nat, color: PieceColor, nextId: nat)
    ensures |FullRow(row, color, nextId)| == 4
    ensures RowShape(FullRow(row, color, nextId), row, row + 1, color, nextId)
  {
    FullRowLength(row, color, nextId);
    RowPiecesShape(row, 0, color, nextId);
  }

  /**
   * The opening position: 24 regular pieces `piece-0` .. `piece-23` on
   * distinct dark squares, the first twelve dark on rows 0-2 and the last
   * twelve light on rows 5-7, with unique ids and unique squares.
   */
  lemma InitialPosition()
    ensures var b := InitializeBoard();
      && |b| == 24
      && (forall i :: 0 <= i < 24 ==> b[i].id == PieceId(i) && b[i].kind == Regular)
      && (forall i :: 0 <= i < 24 ==> (b[i].position.row + b[i].position.col) % 2 == 1)
      && (forall i :: 0 <= i < 12 ==> b[i].color == Dark && 0 <= b[i].position.row <= 2)
      && (forall i :: 12 <= i < 24 ==> b[i].color == Light && 5 <= b[i].position.row <= 7)
      && WellFormed(b)
  {
    InitialBands();
    DarkBand();
    LightBand();
    TwoBandFacts(InitializeBoard(), BandPieces(0, 3, Dark, 0), BandPieces(5, 8, Light, 12));
  }

  /** The opening position is the dark band followed by the light band, numbered from 12. */
  lemma InitialBands()
    ensures InitializeBoard() == BandPieces(0, 3, Dark, 0) + BandPieces(5, 8, Light, 12)
  {
    BandPiecesLength(0, 3, Dark, 0);
    BandsJoin(12);
  }

  /** The light band starts numbering where the dark band ends. */
  lemma BandsJoin(n: nat)
    requires n == |BandPieces(0, 3, Dark, 0)|
    ensures InitializeBoard() == BandPieces(0, 3, Dark, 0) + BandPieces(5, 8, Light, n)
  {
  }

  lemma DarkBand()
    ensures |BandPieces(0, 3, Dark, 0)| == 12 && RowShape(BandPieces(0, 3, Dark, 0), 0, 3, Dark, 0)
  {
    BandPiecesLength(0, 3, Dark, 0);
    BandPiecesShape(0, 3, Dark, 0);
  }

  lemma LightBand()
    ensures |BandPieces(5, 8, Light, 12)| == 12 && RowShape(BandPieces(5, 8, Light, 12), 5, 8, Light, 12)
  {
    BandPiecesLength(5, 8, Light, 12);
    BandPiecesShape(5, 8, Light, 12);
  }

  /** The facts of `InitialPosition` for a board made of any two bands of the opening shape. */
  lemma TwoBandFacts(b: seq<Piece>, dark: seq<Piece>, light: seq<Piece>)
    requires b == dark + light
    requires |dark| == 12 && RowShape(dark, 0, 3, Dark, 0)
    requires |light| == 12 && RowShape(light, 5, 8, Light, 12)
    ensures |b| == 24
    ensures forall i :: 0 <= i < 24 ==> b[i].id == PieceId(i) && b[i].kind == Regular
    ensures forall i :: 0 <= i < 24 ==> (b[i].position.row + b[i].position.col) % 2 == 1
    ensures forall i :: 0 <= i < 12 ==> b[i].color == Dark && 0 <= b[i].position.row <= 2
    ensures forall i :: 12 <= i < 24 ==> b[i].color == Light && 5 <= b[i].position.row <= 7
    ensures WellFormed(b)
  {
    ConcatNumbered(dark, light, 0);
    ConcatRowMajor(dark, light, 5);
    InitialPlacement(dark, light);
    ShapeWellFormed(dark + light);
  }

  lemma InitialPlacement(dark: seq<Piece>, light: seq<Piece>)
    requires |dark| == 12 && |light| == 12
    requires PlacedIn(dark, 0, 3, Dark) && PlacedIn(light, 5, 8, Light)
    ensures var b := dark + light;
      && (forall i :: 0 <= i < 24 ==> b[i].kind == Regular && IsValidPosition(b[i].position))
      && (forall i :: 0 <= i < 24 ==> (b[i].position.row + b[i].position.col) % 2 == 1)
      && (forall i :: 0 <= i < 12 ==> b[i].color == Dark && 0 <= b[i].position.row <= 2)
      && (forall i :: 12 <= i < 24 ==> b[i].color == Light && 5 <= b[i].position.row <= 7)
  {
    var b := dark + light;
    forall i | 12 <= i < 24
      ensures b[i] == light[i - 12]
    {
    }
  }
}
