/**
 * Division and remainder of `num_bigint::BigInt`, used by the Div and Mod instructions
 * (src/main.rs:176-185). BigInt division truncates toward zero and the remainder takes
 * the sign of the dividend, unlike Dafny's Euclidean `/` and `%` on `int`.
 *
 * Both are defined on magnitudes by repeated subtraction, so that the definitions hold no
 * product of two unknowns; the lemmas below relate them to multiplication.
 */
module Division {

  function Abs(x: int): nat {
    if x < 0 then -x else x
  }

  /** How many times `y` fits in `x`. */
  function Quot(x: nat, y: nat): nat
    requires y > 0
    decreases x
  {
    if x < y then 0 else Quot(x - y, y) + 1
  }

  /** What is left of `x` once `y` has been taken out as often as it fits. */
  function Rem(x: nat, y: nat): nat
    requires y > 0
    decreases x
  {
    if x < y then x else Rem(x - y, y)
  }

  /** Quotient and remainder of magnitudes recompose `x`, and the remainder is below `y`. */
  lemma {:induction false} QuotRem(x: nat, y: nat)
    requires y > 0
    ensures Quot(x, y) * y + Rem(x, y) == x && Rem(x, y) < y
    decreases x
  {
    if x >= y {
      QuotRem(x - y, y);
      assert (Quot(x - y, y) + 1) * y == Quot(x - y, y) * y + y;
    }
  }

  /** `a / b` rounded toward zero. */
  function TDiv(a: int, b: int): int
    requires b != 0
  {
    var m: int := Quot(Abs(a), Abs(b));
    if (a < 0) == (b < 0) then m else -m
  }

  /** `a % b` with the sign of `a`. */
  function TMod(a: int, b: int): int
    requires b != 0
  {
    var r: int := Rem(Abs(a), Abs(b));
    if a < 0 then -r else r
  }

  /**
   * The truncated quotient is the multiple of `b` nearest zero that does not pass `a`:
   * its magnitude is the number of times `|b|` fits in `|a|`, its sign that of the exact
   * quotient.
   */
  lemma TDivBounds(a: int, b: int)
    requires b != 0
    ensures Abs(TDiv(a, b)) * Abs(b) <= Abs(a) < Abs(TDiv(a, b)) * Abs(b) + Abs(b)
    ensures TDiv(a, b) != 0 ==> (TDiv(a, b) < 0 <==> (a < 0) != (b < 0))
  {
    QuotRem(Abs(a), Abs(b));
    assert Abs(TDiv(a, b)) == Quot(Abs(a), Abs(b));
  }

  /** Division and remainder recompose the dividend; the remainder is small and signed like `a`. */
  lemma TModSpec(a: int, b: int)
    requires b != 0
    ensures a == TDiv(a, b) * b + TMod(a, b)
    ensures Abs(TMod(a, b)) < Abs(b)
    ensures TMod(a, b) != 0 ==> (TMod(a, b) < 0 <==> a < 0)
  {
    QuotRem(Abs(a), Abs(b));
    SignedMultiple(Quot(Abs(a), Abs(b)), b, a < 0);
  }

  /** `m` or `-m`, signed as the quotient of a dividend of sign `neg` by `b`, times `b`. */
  lemma SignedMultiple(m: int, b: int, neg: bool)
    ensures (if neg == (b < 0) then m else -m) * b == if neg then -(m * Abs(b)) else m * Abs(b)
  {
    if b < 0 {
      assert m * b == -(m * Abs(b));
    }
  }

  /** The worked case: -7 / 2 is -3 (not the floored -4), and -7 % 2 is -1 (not 1). */
  lemma NegativeDividend()
    ensures TDiv(-7, 2) == -3 && TMod(-7, 2) == -1
    ensures (-7) / 2 == -4 && (-7) % 2 == 1
  {
  }
}
