/**
 * Shape evaluation of the generalized polynomial plane-wave element: the
 * point in local coordinates, the tables of 1-D monomials, the vector `pol`
 * of all monomials (or of their derivatives) in the order of the nested
 * loops, and the compressed basis matrix times that vector.
 */
module GppwShape {
  import opened Tuples
  import opened Monomial
  import opened CsrMatrix
  import opened GppwBasis
  import opened GppwBuild

  // ---------------------------------------------------------------- local coordinates

  /** cpoint = (p - elcenter) * (2 / elsize) */
  function Local(p: seq<real>, c: seq<real>, h: real): (q: seq<real>)
    requires |p| == |c| && h != 0.0
    ensures |q| == |p| && forall d :: 0 <= d < |p| ==> q[d] == (p[d] - c[d]) * (2.0 / h)
  {
    seq(|p|, d requires 0 <= d < |p| => (p[d] - c[d]) * (2.0 / h))
  }

  // ---------------------------------------------------------------- reference values

  /** The monomial of exponents u (two or three of them) at q. */
  function Mono(q: seq<real>, u: seq<nat>): real
  {
    if |u| == 2 && |q| >= 2 then Pow(q[0], u[0]) * Pow(q[1], u[1])
    else if |u| == 3 && |q| >= 3 then Pow(q[0], u[0]) * Pow(q[1], u[1]) * Pow(q[2], u[2])
    else 0.0
  }

  /** Its derivative in direction d: u[d] times the monomial with u[d] lowered, or 0. */
  function Deriv(q: seq<real>, u: seq<nat>, d: nat): real
  {
    if d < |u| && u[d] > 0 then (u[d] as real) * Mono(q, u[d := u[d] - 1]) else 0.0
  }

  /** Its second derivative in direction d. */
  function Second(q: seq<real>, u: seq<nat>, d: nat): real
  {
    if d < |u| && u[d] > 1 then (u[d] as real) * (u[d] as real - 1.0) * Mono(q, u[d := u[d] - 2]) else 0.0
  }

  /** The spatial second derivatives minus w times the second time derivative. */
  function Wave(q: seq<real>, u: seq<nat>, w: real): real
  {
    if |u| == 2 then Second(q, u, 0) - Second(q, u, 1) * w
    else Second(q, u, 0) + Second(q, u, 1) - Second(q, u, 2) * w
  }

  // ---------------------------------------------------------------- the monomial tables

  /** Where table e starts in mem: tables of ord+1 entries follow the pad entries. */
  function Base(pad: nat, ord: nat, e: nat): nat
  {
    if e == 0 then pad else if e == 1 then pad + ord + 1 else pad + 2 * (ord + 1)
  }

  /** Where the tables of the first n directions end: the pad, then n tables of ord+1 entries. */
  function End(pad: nat, ord: nat, n: nat): nat
    requires n <= 3
  {
    if n == 0 then pad else Base(pad, ord, n - 1) + ord + 1
  }

  /** `polxt[e][k]`, which reaches back into the pad (or the previous table) for k < 0. */
  function Slot(mem: seq<real>, pad: nat, ord: nat, e: nat, k: int): real
  {
    var at := Base(pad, ord, e) + k;
    if 0 <= at < |mem| then mem[at] else 0.0
  }

  /** mem holds `pad` leading entries, of any value, then the tables x_e^0 .. x_e^ord for e < n. */
  ghost predicate Tabled(mem: seq<real>, pad: nat, ord: nat, q: seq<real>, n: nat)
  {
    n <= 3 && n <= |q| && |mem| == End(pad, ord, n) &&
    forall e, k :: 0 <= e < n && 0 <= k <= ord ==> Slot(mem, pad, ord, e, k) == Pow(q[e], k)
  }

  /** The stack buffer: zeroed pad entries, then `Monomial(ord, cpoint[e], polxt[e])` for every e. */
  function Table(pad: nat, ord: nat, q: seq<real>): (mem: seq<real>)
    requires 2 <= |q| <= 3
    ensures Tabled(mem, pad, ord, q, |q|)
  {
    var z := seq(pad, k => 0.0);
    var v0, v1, v2 := Values(ord, q[0]), Values(ord, q[1]), if |q| == 3 then Values(ord, q[2]) else [];
    var mem := z + v0 + v1 + v2;
    TableParts(pad, ord, q, z, v0, v1, v2);
    mem
  }

  /** The pad and the power tables, laid end to end, are tabled. */
  lemma TableParts(pad: nat, ord: nat, q: seq<real>, z: seq<real>, v0: seq<real>, v1: seq<real>, v2: seq<real>)
    requires 2 <= |q| <= 3 && |z| == pad
    requires v0 == Values(ord, q[0]) && v1 == Values(ord, q[1]) && v2 == (if |q| == 3 then Values(ord, q[2]) else [])
    ensures Tabled(z + v0 + v1 + v2, pad, ord, q, |q|)
  {
    var mem := z + v0 + v1 + v2;
    ConcatParts(z, v0, v1, v2);
    assert Base(pad, ord, 0) == |z| && Base(pad, ord, 1) == |z| + |v0| && Base(pad, ord, 2) == |z| + |v0| + |v1|;
    assert |mem| == End(pad, ord, |q|);
    forall e, k | 0 <= e < |q| && 0 <= k <= ord
      ensures Slot(mem, pad, ord, e, k) == Pow(q[e], k)
    {
      var b := Base(pad, ord, e);
      if e == 2 {
        assert mem[|z| + |v0| + |v1|..] == mem[b..b + ord + 1];
      }
      SliceSlot(mem, pad, ord, e, q[e], k);
    }
  }

  /** A read of table e, once that table holds the powers of x, is the power. */
  lemma SliceSlot(mem: seq<real>, pad: nat, ord: nat, e: nat, x: real, k: nat)
    requires Base(pad, ord, e) + ord + 1 <= |mem| && mem[Base(pad, ord, e)..Base(pad, ord, e) + ord + 1] == Values(ord, x)
    requires k <= ord
    ensures Slot(mem, pad, ord, e, k) == Pow(x, k)
  {
    var b := Base(pad, ord, e);
    assert mem[b + k] == mem[b..b + ord + 1][k];
  }

  /** The four parts of a concatenation are its slices at the running lengths. */
  lemma ConcatParts(a: seq<real>, b: seq<real>, c: seq<real>, d: seq<real>)
    ensures (a + b + c + d)[|a|..|a| + |b|] == b
    ensures (a + b + c + d)[|a| + |b|..|a| + |b| + |c|] == c
    ensures (a + b + c + d)[|a| + |b| + |c|..] == d
  {
    var s := a + b + c + d;
    assert forall i :: 0 <= i < |b| ==> s[|a| + i] == b[i];
    assert forall i :: 0 <= i < |c| ==> s[|a| + |b| + i] == c[i];
    assert forall i :: 0 <= i < |d| ==> s[|a| + |b| + |c| + i] == d[i];
  }

  /** `pol[ii] = polxt[0][i] * polxt[1][j] (* polxt[2][k])` */
  function ShapeTerm(mem: seq<real>, ord: nat, u: seq<nat>): real
  {
    if |u| == 2 then Slot(mem, 0, ord, 0, u[0]) * Slot(mem, 0, ord, 1, u[1])
    else if |u| == 3 then Slot(mem, 0, ord, 0, u[0]) * Slot(mem, 0, ord, 1, u[1]) * Slot(mem, 0, ord, 2, u[2])
    else 0.0
  }

  /** 1 when e == d: the `(d==e)` of the index expressions. */
  function Is(d: nat, e: nat): int
  {
    if d == e then 1 else 0
  }

  /** `pol[ii] = (d==0?i:(d==1?j:(d==2?k:0))) * polxt[0][i-(d==0)] * polxt[1][j-(d==1)] (* polxt[2][k-(d==2)])` */
  function DTerm(mem: seq<real>, ord: nat, d: nat, u: seq<nat>): real
  {
    var ex := if d < |u| then u[d] as real else 0.0;
    if |u| == 2 then
      ex * Slot(mem, 1, ord, 0, u[0] - Is(d, 0)) * Slot(mem, 1, ord, 1, u[1] - Is(d, 1))
    else if |u| == 3 then
      ex * Slot(mem, 1, ord, 0, u[0] - Is(d, 0)) * Slot(mem, 1, ord, 1, u[1] - Is(d, 1)) * Slot(mem, 1, ord, 2, u[2] - Is(d, 2))
    else 0.0
  }

  /** `i*(i-1)*polxt[d][i-2]` times the other factors `rest` of one summand of the special term. */
  function Piece(mem: seq<real>, ord: nat, u: seq<nat>, d: nat, rest: real): real
    requires d < |u|
  {
    var i := u[d] as int;
    (i as real) * (i as real - 1.0) * Slot(mem, 2, ord, d, i - 2) * rest
  }

  /**
   * `pol[ii] = i*(i-1)*polxt[0][i-2]*polxt[1][j] - j*(j-1)*polxt[0][i]*polxt[1][j-2]*w` in one
   * space dimension, and the analogue with the y term added in two.
   */
  function DDTerm(mem: seq<real>, ord: nat, w: real, u: seq<nat>): real
  {
    if |u| == 2 then DDTerm2(mem, ord, w, u) else if |u| == 3 then DDTerm3(mem, ord, w, u) else 0.0
  }

  function DDTerm2(mem: seq<real>, ord: nat, w: real, u: seq<nat>): real
    requires |u| == 2
  {
    Piece(mem, ord, u, 0, Slot(mem, 2, ord, 1, u[1])) - Piece(mem, ord, u, 1, Slot(mem, 2, ord, 0, u[0])) * w
  }

  function DDTerm3(mem: seq<real>, ord: nat, w: real, u: seq<nat>): real
    requires |u| == 3
  {
    Piece(mem, ord, u, 0, Slot(mem, 2, ord, 1, u[1]) * Slot(mem, 2, ord, 2, u[2]))
    + Piece(mem, ord, u, 1, Slot(mem, 2, ord, 0, u[0]) * Slot(mem, 2, ord, 2, u[2]))
    - Piece(mem, ord, u, 2, Slot(mem, 2, ord, 0, u[0]) * Slot(mem, 2, ord, 1, u[1])) * w
  }

  // ---------------------------------------------------------------- what the terms are

  /** Every exponent of a monomial of degree at most ord is at most ord. */
  lemma Exponents(u: seq<nat>, ord: nat)
    requires (|u| == 2 || |u| == 3) && Sum(u) <= ord
    ensures forall e :: 0 <= e < |u| ==> u[e] <= ord
  {
    if |u| == 2 {
      assert u == [u[0], u[1]];
      Sum2(u[0], u[1]);
    } else {
      assert u == [u[0], u[1], u[2]];
      Sum3(u[0], u[1], u[2]);
    }
  }

  /** A table read within range is the power. */
  lemma SlotPow(mem: seq<real>, pad: nat, ord: nat, q: seq<real>, n: nat, e: nat, k: int)
    requires Tabled(mem, pad, ord, q, n) && e < n && 0 <= k <= ord
    ensures Slot(mem, pad, ord, e, k) == Pow(q[e], k)
  {
  }

  /** The shape term is the monomial. */
  lemma ShapeTermIsMono(mem: seq<real>, ord: nat, q: seq<real>, u: seq<nat>)
    requires (|u| == 2 || |u| == 3) && Sum(u) <= ord && Tabled(mem, 0, ord, q, |u|)
    ensures ShapeTerm(mem, ord, u) == Mono(q, u)
  {
    Exponents(u, ord);
    SlotPow(mem, 0, ord, q, |u|, 0, u[0]);
    SlotPow(mem, 0, ord, q, |u|, 1, u[1]);
    if |u| == 3 {
      SlotPow(mem, 0, ord, q, |u|, 2, u[2]);
    }
    ShapeTermOf(mem, ord, q, u);
  }

  /** The shape term from the table reads it makes. */
  lemma ShapeTermOf(mem: seq<real>, ord: nat, q: seq<real>, u: seq<nat>)
    requires (|u| == 2 || |u| == 3) && |u| <= |q|
    requires forall e :: 0 <= e < |u| ==> Slot(mem, 0, ord, e, u[e]) == Pow(q[e], u[e])
    ensures ShapeTerm(mem, ord, u) == Mono(q, u)
  {
    assert Slot(mem, 0, ord, 0, u[0]) == Pow(q[0], u[0]) && Slot(mem, 0, ord, 1, u[1]) == Pow(q[1], u[1]);
    if |u| == 3 {
      assert Slot(mem, 0, ord, 2, u[2]) == Pow(q[2], u[2]);
    }
  }

  /**
   * The derivative term is the derivative, whatever the pad entry (or the
   * end of the previous table) that a zero exponent reaches back to holds.
   */
  lemma DTermIsDeriv(mem: seq<real>, ord: nat, q: seq<real>, d: nat, u: seq<nat>)
    requires (|u| == 2 || |u| == 3) && Sum(u) <= ord && Tabled(mem, 1, ord, q, |u|) && d < |u|
    ensures DTerm(mem, ord, d, u) == Deriv(q, u, d)
  {
    if u[d] > 0 {
      LoweredSlot(mem, ord, q, d, u, 0);
      LoweredSlot(mem, ord, q, d, u, 1);
      if |u| == 3 {
        LoweredSlot(mem, ord, q, d, u, 2);
        DTermOf3(mem, ord, q, d, u);
      } else {
        DTermOf2(mem, ord, q, d, u);
      }
    } else {
      DTermZero(mem, ord, q, d, u);
    }
  }

  /** The read of table e with the exponent lowered in direction d is the lowered power. */
  lemma LoweredSlot(mem: seq<real>, ord: nat, q: seq<real>, d: nat, u: seq<nat>, e: nat)
    requires (|u| == 2 || |u| == 3) && Sum(u) <= ord && Tabled(mem, 1, ord, q, |u|) && d < |u| && u[d] > 0 && e < |u|
    ensures Slot(mem, 1, ord, e, u[e] - Is(d, e)) == Pow(q[e], u[e] - Is(d, e))
  {
    Exponents(u, ord);
    SlotPow(mem, 1, ord, q, |u|, e, u[e] - Is(d, e));
  }

  /** The derivative term from the table reads it makes, for a positive exponent in direction d. */
  lemma DTermOf2(mem: seq<real>, ord: nat, q: seq<real>, d: nat, u: seq<nat>)
    requires |u| == 2 && |q| >= 2 && d < 2 && u[d] > 0
    requires Slot(mem, 1, ord, 0, u[0] - Is(d, 0)) == Pow(q[0], u[0] - Is(d, 0))
    requires Slot(mem, 1, ord, 1, u[1] - Is(d, 1)) == Pow(q[1], u[1] - Is(d, 1))
    ensures DTerm(mem, ord, d, u) == Deriv(q, u, d)
  {
  }

  lemma DTermOf3(mem: seq<real>, ord: nat, q: seq<real>, d: nat, u: seq<nat>)
    requires |u| == 3 && |q| >= 3 && d < 3 && u[d] > 0
    requires Slot(mem, 1, ord, 0, u[0] - Is(d, 0)) == Pow(q[0], u[0] - Is(d, 0))
    requires Slot(mem, 1, ord, 1, u[1] - Is(d, 1)) == Pow(q[1], u[1] - Is(d, 1))
    requires Slot(mem, 1, ord, 2, u[2] - Is(d, 2)) == Pow(q[2], u[2] - Is(d, 2))
    ensures DTerm(mem, ord, d, u) == Deriv(q, u, d)
  {
    var a0, a1, a2 := Pow(q[0], u[0] - Is(d, 0)), Pow(q[1], u[1] - Is(d, 1)), Pow(q[2], u[2] - Is(d, 2));
    DTermProduct(mem, ord, d, u, a0, a1, a2);
    DerivProduct(q, u, d, a0, a1, a2);
  }

  /** The derivative term in three variables, as the exponent times the product of its three reads. */
  lemma DTermProduct(mem: seq<real>, ord: nat, d: nat, u: seq<nat>, a0: real, a1: real, a2: real)
    requires |u| == 3 && d < 3
    requires Slot(mem, 1, ord, 0, u[0] - Is(d, 0)) == a0
    requires Slot(mem, 1, ord, 1, u[1] - Is(d, 1)) == a1
    requires Slot(mem, 1, ord, 2, u[2] - Is(d, 2)) == a2
    ensures DTerm(mem, ord, d, u) == (u[d] as real) * (a0 * a1 * a2)
  {
  }

  /** The derivative in three variables, as the exponent times the product of the three lowered powers. */
  lemma DerivProduct(q: seq<real>, u: seq<nat>, d: nat, a0: real, a1: real, a2: real)
    requires |u| == 3 && |q| >= 3 && d < 3 && u[d] > 0
    requires Pow(q[0], u[0] - Is(d, 0)) == a0
    requires Pow(q[1], u[1] - Is(d, 1)) == a1
    requires Pow(q[2], u[2] - Is(d, 2)) == a2
    ensures Deriv(q, u, d) == (u[d] as real) * (a0 * a1 * a2)
  {
    var v := u[d := u[d] - 1];
    assert v[0] == u[0] - Is(d, 0) && v[1] == u[1] - Is(d, 1) && v[2] == u[2] - Is(d, 2);
    MonoOf3(q, v, a0, a1, a2);
  }

  /** A monomial in three variables from the values of its three powers. */
  lemma MonoOf3(q: seq<real>, v: seq<nat>, a0: real, a1: real, a2: real)
    requires |v| == 3 && |q| >= 3
    requires Pow(q[0], v[0]) == a0 && Pow(q[1], v[1]) == a1 && Pow(q[2], v[2]) == a2
    ensures Mono(q, v) == a0 * a1 * a2
  {
  }

  /** A zero exponent in direction d makes both the term and the derivative zero. */
  lemma DTermZero(mem: seq<real>, ord: nat, q: seq<real>, d: nat, u: seq<nat>)
    requires (|u| == 2 || |u| == 3) && d < |u| && u[d] == 0
    ensures DTerm(mem, ord, d, u) == Deriv(q, u, d) == 0.0
  {
    if |u| == 2 {
      assert DTerm(mem, ord, d, u) == 0.0 * Slot(mem, 1, ord, 0, u[0] - Is(d, 0)) * Slot(mem, 1, ord, 1, u[1] - Is(d, 1));
    } else {
      assert DTerm(mem, ord, d, u) ==
        0.0 * Slot(mem, 1, ord, 0, u[0] - Is(d, 0)) * Slot(mem, 1, ord, 1, u[1] - Is(d, 1)) * Slot(mem, 1, ord, 2, u[2] - Is(d, 2));
    }
  }

  /** The special second-derivative term is the wave operator applied to the monomial, whatever the pads hold. */
  lemma DDTermIsWave(mem: seq<real>, ord: nat, q: seq<real>, w: real, u: seq<nat>)
    requires (|u| == 2 || |u| == 3) && Sum(u) <= ord && Tabled(mem, 2, ord, q, |u|)
    ensures DDTerm(mem, ord, w, u) == Wave(q, u, w)
  {
    Exponents(u, ord);
    forall e | 0 <= e < |u|
      ensures Slot(mem, 2, ord, e, u[e]) == Pow(q[e], u[e])
      ensures u[e] > 1 ==> Slot(mem, 2, ord, e, u[e] - 2) == Pow(q[e], u[e] - 2)
    {
      SlotPow(mem, 2, ord, q, |u|, e, u[e]);
      if u[e] > 1 {
        SlotPow(mem, 2, ord, q, |u|, e, u[e] - 2);
      }
    }
    if |u| == 2 {
      SecondsOf2(mem, ord, q, u);
      DDTermOf2(mem, ord, q, w, u);
      WaveParts(q, u, w);
    } else {
      SecondsOf3(mem, ord, q, u);
      DDTermOf3(mem, ord, q, w, u);
      WaveParts(q, u, w);
    }
  }

  /** The special term in one space dimension, from its summands. */
  lemma DDTermOf2(mem: seq<real>, ord: nat, q: seq<real>, w: real, u: seq<nat>)
    requires |u| == 2
    requires Piece(mem, ord, u, 0, Slot(mem, 2, ord, 1, u[1])) == Second(q, u, 0)
    requires Piece(mem, ord, u, 1, Slot(mem, 2, ord, 0, u[0])) == Second(q, u, 1)
    ensures DDTerm(mem, ord, w, u) == Second(q, u, 0) + 0.0 - Second(q, u, 1) * w
  {
    DDTermParts2(mem, ord, w, u);
  }

  /** The special term in two space dimensions, from its summands. */
  lemma DDTermOf3(mem: seq<real>, ord: nat, q: seq<real>, w: real, u: seq<nat>)
    requires |u| == 3
    requires Piece(mem, ord, u, 0, Slot(mem, 2, ord, 1, u[1]) * Slot(mem, 2, ord, 2, u[2])) == Second(q, u, 0)
    requires Piece(mem, ord, u, 1, Slot(mem, 2, ord, 0, u[0]) * Slot(mem, 2, ord, 2, u[2])) == Second(q, u, 1)
    requires Piece(mem, ord, u, 2, Slot(mem, 2, ord, 0, u[0]) * Slot(mem, 2, ord, 1, u[1])) == Second(q, u, 2)
    ensures DDTerm(mem, ord, w, u) == Second(q, u, 0) + Second(q, u, 1) - Second(q, u, 2) * w
  {
    DDTermParts3(mem, ord, w, u);
  }

  /** The summands of the special term in one space dimension, from the table reads. */
  lemma SecondsOf2(mem: seq<real>, ord: nat, q: seq<real>, u: seq<nat>)
    requires |u| == 2 && |q| >= 2
    requires Slot(mem, 2, ord, 0, u[0]) == Pow(q[0], u[0]) && Slot(mem, 2, ord, 1, u[1]) == Pow(q[1], u[1])
    requires u[0] > 1 ==> Slot(mem, 2, ord, 0, u[0] - 2) == Pow(q[0], u[0] - 2)
    requires u[1] > 1 ==> Slot(mem, 2, ord, 1, u[1] - 2) == Pow(q[1], u[1] - 2)
    ensures Piece(mem, ord, u, 0, Slot(mem, 2, ord, 1, u[1])) == Second(q, u, 0)
    ensures Piece(mem, ord, u, 1, Slot(mem, 2, ord, 0, u[0])) == Second(q, u, 1)
  {
    SecondOf(mem, ord, q, u, 0, Slot(mem, 2, ord, 1, u[1]));
    SecondOf(mem, ord, q, u, 1, Slot(mem, 2, ord, 0, u[0]));
  }

  /** The summands of the special term in two space dimensions, from the table reads. */
  lemma SecondsOf3(mem: seq<real>, ord: nat, q: seq<real>, u: seq<nat>)
    requires |u| == 3 && |q| >= 3
    requires Slot(mem, 2, ord, 0, u[0]) == Pow(q[0], u[0]) && Slot(mem, 2, ord, 1, u[1]) == Pow(q[1], u[1])
    requires Slot(mem, 2, ord, 2, u[2]) == Pow(q[2], u[2])
    requires u[0] > 1 ==> Slot(mem, 2, ord, 0, u[0] - 2) == Pow(q[0], u[0] - 2)
    requires u[1] > 1 ==> Slot(mem, 2, ord, 1, u[1] - 2) == Pow(q[1], u[1] - 2)
    requires u[2] > 1 ==> Slot(mem, 2, ord, 2, u[2] - 2) == Pow(q[2], u[2] - 2)
    ensures Piece(mem, ord, u, 0, Slot(mem, 2, ord, 1, u[1]) * Slot(mem, 2, ord, 2, u[2])) == Second(q, u, 0)
    ensures Piece(mem, ord, u, 1, Slot(mem, 2, ord, 0, u[0]) * Slot(mem, 2, ord, 2, u[2])) == Second(q, u, 1)
    ensures Piece(mem, ord, u, 2, Slot(mem, 2, ord, 0, u[0]) * Slot(mem, 2, ord, 1, u[1])) == Second(q, u, 2)
  {
    SecondOf(mem, ord, q, u, 0, Slot(mem, 2, ord, 1, u[1]) * Slot(mem, 2, ord, 2, u[2]));
    SecondOf(mem, ord, q, u, 1, Slot(mem, 2, ord, 0, u[0]) * Slot(mem, 2, ord, 2, u[2]));
    SecondOf(mem, ord, q, u, 2, Slot(mem, 2, ord, 0, u[0]) * Slot(mem, 2, ord, 1, u[1]));
  }

  /** The wave operator as its summands. */
  lemma WaveParts(q: seq<real>, u: seq<nat>, w: real)
    ensures |u| == 2 ==> Wave(q, u, w) == Second(q, u, 0) + 0.0 - Second(q, u, 1) * w
    ensures |u| != 2 ==> Wave(q, u, w) == Second(q, u, 0) + Second(q, u, 1) - Second(q, u, 2) * w
  {
  }

  /** The powers of the monomial other than the one in direction d, in the order the special term multiplies them. */
  function RestOf(q: seq<real>, u: seq<nat>, d: nat): real
    requires (|u| == 2 || |u| == 3) && |u| <= |q| && d < |u|
  {
    if |u| == 2 then (if d == 0 then Pow(q[1], u[1]) else Pow(q[0], u[0]))
    else if d == 0 then Pow(q[1], u[1]) * Pow(q[2], u[2])
    else if d == 1 then Pow(q[0], u[0]) * Pow(q[2], u[2])
    else Pow(q[0], u[0]) * Pow(q[1], u[1])
  }

  /** Each second-derivative summand from its table reads; a zero factor i(i-1) hides the read below the table. */
  lemma SecondOf(mem: seq<real>, ord: nat, q: seq<real>, u: seq<nat>, d: nat, rest: real)
    requires d < |u| <= |q| && (|u| == 2 || |u| == 3)
    requires u[d] > 1 ==> Slot(mem, 2, ord, d, u[d] - 2) == Pow(q[d], u[d] - 2)
    requires rest == RestOf(q, u, d)
    ensures Piece(mem, ord, u, d, rest) == Second(q, u, d)
  {
    if u[d] <= 1 {
      assert u[d] == 0 || u[d] == 1;
      assert (u[d] as real) * (u[d] as real - 1.0) == 0.0;
    } else {
      MonoLowered(q, u, d);
    }
  }

  /** The special term in one space dimension as its two summands. */
  lemma DDTermParts2(mem: seq<real>, ord: nat, w: real, u: seq<nat>)
    requires |u| == 2
    ensures DDTerm(mem, ord, w, u) ==
      Piece(mem, ord, u, 0, Slot(mem, 2, ord, 1, u[1])) - Piece(mem, ord, u, 1, Slot(mem, 2, ord, 0, u[0])) * w
  {
  }

  /** The special term in two space dimensions as its three summands. */
  lemma DDTermParts3(mem: seq<real>, ord: nat, w: real, u: seq<nat>)
    requires |u| == 3
    ensures DDTerm(mem, ord, w, u) ==
      Piece(mem, ord, u, 0, Slot(mem, 2, ord, 1, u[1]) * Slot(mem, 2, ord, 2, u[2]))
      + Piece(mem, ord, u, 1, Slot(mem, 2, ord, 0, u[0]) * Slot(mem, 2, ord, 2, u[2]))
      - Piece(mem, ord, u, 2, Slot(mem, 2, ord, 0, u[0]) * Slot(mem, 2, ord, 1, u[1])) * w
  {
  }

  /** The monomial with exponent d lowered by two, as that power times the others. */
  lemma MonoLowered(q: seq<real>, u: seq<nat>, d: nat)
    requires (|u| == 2 || |u| == 3) && |u| <= |q| && d < |u| && u[d] > 1
    ensures Mono(q, u[d := u[d] - 2]) == Pow(q[d], u[d] - 2) * RestOf(q, u, d)
  {
    var v := u[d := u[d] - 2];
    if |u| == 2 {
      var a, b := Pow(q[0], v[0]), Pow(q[1], v[1]);
      assert Mono(q, v) == a * b;
      Arrange(a, b, 1.0);
    } else {
      var a, b, c := Pow(q[0], v[0]), Pow(q[1], v[1]), Pow(q[2], v[2]);
      assert Mono(q, v) == a * b * c;
      Arrange(a, b, c);
    }
  }

  /** The three ways a product of three factors is split off one factor. */
  lemma Arrange(a: real, b: real, c: real)
    ensures a * b == b * a
    ensures a * b * c == a * (b * c) && a * b * c == b * (a * c) && a * b * c == c * (a * b)
  {
  }
}
