/** The Some/None wrapper used for the source's `undefined` / `null` results. */
module Wrappers {

  datatype Option<+T> = None | Some(value: T)
}

/**
 * The board model shared by the rules engine and the turn machine: the piece
 * record of components/game-board.tsx, the position and move records of
 * lib/game-logic.ts, and the occupancy queries built on `Array.find` /
 * `Array.findIndex`.
 */
module Board {
  import opened Wrappers

  datatype PieceType = Regular | King

  datatype PieceColor = Light | Dark

  datatype Position = Position(row: int, col: int)

  /** A piece; the source's `type` field is called `kind` here. */
  datatype Piece = Piece(id: string, kind: PieceType, color: PieceColor, position: Position)

  /** A move as produced by capture generation; `capturedPieces` lists jumped squares. */
  datatype Move = Move(from: Position, to: Position, capturedPieces: seq<Position>)

  function Opponent(c: PieceColor): (r: PieceColor)
    ensures r != c
  {
    if c == Light then Dark else Light
  }

  function Abs(x: int): (r: nat)
    ensures r == x || r == -x
  {
    if x < 0 then -x else x
  }

  /** The square reached from `pos` by `k` steps in direction `d`. */
  function Offset(pos: Position, d: Position, k: int): Position
  {
    Position(pos.row + d.row * k, pos.col + d.col * k)
  }

  /** The vector from `a` to `b`. */
  function Delta(a: Position, b: Position): Position
  {
    Position(b.row - a.row, b.col - a.col)
  }

  /** The square halfway between `a` and `b` (exact when both differences are even). */
  function Midpoint(a: Position, b: Position): Position
  {
    Position((a.row + b.row) / 2, (a.col + b.col) / 2)
  }

  /** One of the four unit diagonal directions. */
  predicate IsDiagonalUnit(d: Position)
  {
    Abs(d.row) == 1 && Abs(d.col) == 1
  }

  /** isValidPosition: the square lies on the 8x8 board. */
  predicate IsValidPosition(pos: Position)
  {
    0 <= pos.row < 8 && 0 <= pos.col < 8
  }

  /** The index of the first element satisfying `matches`, as `Array.findIndex`. */
  function FirstIndex<T>(s: seq<T>, matches: T -> bool): (r: Option<nat>)
    ensures r.Some? ==> r.value < |s| && matches(s[r.value])
    ensures r.Some? ==> forall j :: 0 <= j < r.value ==> !matches(s[j])
    ensures r.None? <==> forall j :: 0 <= j < |s| ==> !matches(s[j])
  {
    if |s| == 0 then None
    else if matches(s[0]) then Some(0)
    else
      match FirstIndex(s[1..], matches)
      case None => None
      case Some(i) => Some(i + 1)
  }

  /** `Array.some`: whether some element satisfies `test`. */
  function Any<T>(s: seq<T>, test: T -> bool): (r: bool)
    ensures r <==> exists i :: 0 <= i < |s| && test(s[i])
  {
    if |s| == 0 then false else test(s[0]) || Any(s[1..], test)
  }

  /** `Array.filter`: the elements satisfying `keep`, in order. */
  function Filter<T>(s: seq<T>, keep: T -> bool): (r: seq<T>)
    ensures |r| <= |s|
    ensures forall i :: 0 <= i < |r| ==> r[i] in s && keep(r[i])
    ensures forall i :: 0 <= i < |s| && keep(s[i]) ==> s[i] in r
  {
    if |s| == 0 then []
    else if keep(s[0]) then [s[0]] + Filter(s[1..], keep)
    else Filter(s[1..], keep)
  }

  /** An element is kept by the filter exactly when it occurs in the input and passes. */
  lemma FilterMember<T>(s: seq<T>, keep: T -> bool, x: T)
    ensures x in Filter(s, keep) <==> x in s && keep(x)
  {
    var f := Filter(s, keep);
    if x in f {
      var k :| 0 <= k < |f| && f[k] == x;
    }
    if x in s && keep(x) {
      var k :| 0 <= k < |s| && s[k] == x;
    }
  }

  /** The filter result is empty exactly when no element passes. */
  lemma FilterEmpty<T>(s: seq<T>, keep: T -> bool)
    ensures |Filter(s, keep)| == 0 <==> forall i :: 0 <= i < |s| ==> !keep(s[i])
  {
    var f := Filter(s, keep);
    if |f| > 0 {
      assert f[0] in s && keep(f[0]);
      var j :| 0 <= j < |s| && s[j] == f[0];
    }
  }

  /** Some filtered element passes `test` exactly when some element passes both. */
  lemma AnyOfFilter<T>(s: seq<T>, keep: T -> bool, test: T -> bool)
    ensures Any(Filter(s, keep), test) <==> exists i :: 0 <= i < |s| && keep(s[i]) && test(s[i])
  {
    var f := Filter(s, keep);
    if exists i :: 0 <= i < |s| && keep(s[i]) && test(s[i]) {
      var i :| 0 <= i < |s| && keep(s[i]) && test(s[i]);
      assert s[i] in f;
      var k :| 0 <= k < |f| && f[k] == s[i];
    }
  }

  /** The index of the first piece standing on `pos`. */
  function FindIndexAt(pieces: seq<Piece>, pos: Position): (r: Option<nat>)
    ensures r.Some? ==> r.value < |pieces| && pieces[r.value].position == pos
    ensures r.Some? ==> forall j :: 0 <= j < r.value ==> pieces[j].position != pos
    ensures r.None? <==> forall j :: 0 <= j < |pieces| ==> pieces[j].position != pos
  {
    FirstIndex(pieces, (p: Piece) => p.position == pos)
  }

  /** The index of the first piece with identifier `id`. */
  function FindIndexById(pieces: seq<Piece>, id: string): (r: Option<nat>)
    ensures r.Some? ==> r.value < |pieces| && pieces[r.value].id == id
    ensures r.Some? ==> forall j :: 0 <= j < r.value ==> pieces[j].id != id
    ensures r.None? <==> forall j :: 0 <= j < |pieces| ==> pieces[j].id != id
  {
    FirstIndex(pieces, (p: Piece) => p.id == id)
  }

  /** getPieceAt: the first piece on `pos`, if any. */
  function PieceAt(pieces: seq<Piece>, pos: Position): (r: Option<Piece>)
    ensures r.None? <==> forall j :: 0 <= j < |pieces| ==> pieces[j].position != pos
    ensures r.Some? ==> r.value in pieces && r.value.position == pos
    ensures r.Some? ==>
      exists i :: 0 <= i < |pieces| && pieces[i] == r.value && forall j :: 0 <= j < i ==> pieces[j].position != pos
  {
    match FindIndexAt(pieces, pos)
    case None => None
    case Some(i) => Some(pieces[i])
  }

  /** `pieces.find((p) => p.id === id)`: the first piece with identifier `id`. */
  function FindById(pieces: seq<Piece>, id: string): (r: Option<Piece>)
    ensures r.None? <==> forall j :: 0 <= j < |pieces| ==> pieces[j].id != id
    ensures r.Some? ==> r.value in pieces && r.value.id == id
    ensures r.Some? ==>
      exists i :: 0 <= i < |pieces| && pieces[i] == r.value && forall j :: 0 <= j < i ==> pieces[j].id != id
  {
    match FindIndexById(pieces, id)
    case None => None
    case Some(i) => Some(pieces[i])
  }

  /** No two pieces share an identifier. */
  predicate UniqueIds(pieces: seq<Piece>)
  {
    forall i, j :: 0 <= i < j < |pieces| ==> pieces[i].id != pieces[j].id
  }

  /** The board invariant the design intends: unique ids, unique squares, all on the board. */
  predicate WellFormed(pieces: seq<Piece>)
  {
    && UniqueIds(pieces)
    && (forall i, j :: 0 <= i < j < |pieces| ==> pieces[i].position != pieces[j].position)
    && (forall i :: 0 <= i < |pieces| ==> IsValidPosition(pieces[i].position))
  }

  /** Under unique ids, the piece `FindById` returns is the one at that index. */
  lemma FindByIdUnique(pieces: seq<Piece>, i: nat)
    requires UniqueIds(pieces)
    requires i < |pieces|
    ensures FindById(pieces, pieces[i].id) == Some(pieces[i])
    ensures FindIndexById(pieces, pieces[i].id) == Some(i)
  {
  }
}
