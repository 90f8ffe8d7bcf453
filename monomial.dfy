/**
 * The 1-D monomial evaluator. `Monomial` is a three-term recursive polynomial
 * family whose recursion coefficients are A(i) = 1, B(i) = C(i) = 0 and whose
 * first two members are P0(x) = 1 and P1(x) = x, so member k is x^k.
 */
module Monomial {

  /** Reference definition of x^k. */
  function Pow(x: real, k: nat): real
  {
    if k == 0 then 1.0 else x * Pow(x, k - 1)
  }

  function P0(x: real): real { 1.0 }

  function P1(x: real): real { x }

  /** The two-argument form used for scaled families; the second argument is ignored. */
  function P1Scaled(x: real, y: real): real { P1(x) }

  function A(i: int): real { 1.0 }
  function B(i: int): real { 0.0 }
  function C(i: int): real { 0.0 }

  function CalcA(i: int): real { 1.0 }
  function CalcB(i: int): real { 0.0 }
  function CalcC(i: int): real { 0.0 }

  /**
   * Member k of the family as the recursive-polynomial base evaluates it:
   * P_k = (A(k) x + B(k)) P_{k-1} + C(k) P_{k-2}.
   */
  function Rec(k: nat, x: real): real
  {
    if k == 0 then P0(x)
    else if k == 1 then P1(x)
    else (A(k) * x + B(k)) * Rec(k - 1, x) + C(k) * Rec(k - 2, x)
  }

  /** With these coefficients the recursion degenerates to P_k = x * P_{k-1}. */
  lemma RecursionDegenerates(k: nat, x: real)
    requires k >= 1
    ensures Rec(k, x) == x * Rec(k - 1, x)
    ensures forall y :: P1Scaled(x, y) == P1(x)
  {
  }

  /** Hence member k is x^k. */
  lemma {:induction false} RecIsPower(k: nat, x: real)
    ensures Rec(k, x) == Pow(x, k)
  {
    if k >= 1 {
      RecIsPower(k - 1, x);
      RecursionDegenerates(k, x);
    }
  }

  lemma RecPowersUpTo(n: nat, x: real)
    ensures forall k :: 0 <= k <= n ==> Rec(k, x) == Pow(x, k)
  {
    forall k | 0 <= k <= n {
      RecIsPower(k, x);
    }
  }

  /** `Monomial(n, x, values)`: values[0..n] receive x^0 .. x^n. */
  function Values(n: nat, x: real): (v: seq<real>)
    ensures |v| == n + 1
    ensures forall k {:trigger v[k]} :: 0 <= k <= n ==> v[k] == Pow(x, k)
  {
    RecPowersUpTo(n, x);
    seq(n + 1, k requires 0 <= k <= n => Rec(k, x))
  }
}
