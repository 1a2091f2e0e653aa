/**
 * Piece identifiers of the opening position: the template string
 * `piece-${n}` of lib/game-logic.ts, with the decimal rendering of a number
 * written out.
 */
module PieceIds {

  /** The decimal digit character for `d`. */
  function DigitChar(d: nat): (c: char)
    requires d < 10
    ensures c as int == '0' as int + d
  {
    (48 + d) as char
  }

  /** The decimal rendering of `n`, as JavaScript's number-to-string conversion of a natural number. */
  function NatToString(n: nat): string
    decreases n
  {
    if n < 10 then [DigitChar(n)] else NatToString(n / 10) + [DigitChar(n % 10)]
  }

  /** A rendering is one digit exactly for numbers below ten, and longer ones end in the last digit after the rendering of the rest. */
  lemma NatToStringShape(n: nat)
    ensures var s := NatToString(n);
      && |s| >= 1
      && (n < 10 <==> |s| == 1)
      && (n < 10 ==> s == [DigitChar(n)])
      && (n >= 10 ==> s[..|s| - 1] == NatToString(n / 10) && s[|s| - 1] == DigitChar(n % 10))
  {
    if n >= 10 {
      NatToStringShape(n / 10);
      var s := NatToString(n);
      assert s == NatToString(n / 10) + [DigitChar(n % 10)];
    }
  }

  const Prefix: string := "piece-"

  /** The identifier `piece-<n>`. */
  function PieceId(n: nat): string
  {
    Prefix + NatToString(n)
  }

  /** Distinct numbers render to distinct decimal strings. */
  lemma {:induction false} NatToStringInjective(a: nat, b: nat)
    requires NatToString(a) == NatToString(b)
    ensures a == b
    decreases a
  {
    NatToStringShape(a);
    NatToStringShape(b);
    if a >= 10 && b >= 10 {
      assert a % 10 == b % 10;
      NatToStringInjective(a / 10, b / 10);
    } else if a < 10 && b < 10 {
      assert NatToString(a)[0] == DigitChar(a);
      assert NatToString(b)[0] == DigitChar(b);
    }
  }

  /** Distinct numbers give distinct piece identifiers. */
  lemma PieceIdInjective(a: nat, b: nat)
    requires a != b
    ensures PieceId(a) != PieceId(b)
  {
    if PieceId(a) == PieceId(b) {
      assert NatToString(a) == PieceId(a)[|Prefix|..] == PieceId(b)[|Prefix|..] == NatToString(b);
      NatToStringInjective(a, b);
    }
  }
}
