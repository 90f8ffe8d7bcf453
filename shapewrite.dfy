/**
 * The last step of every shape evaluation: row i of the compressed basis
 * matrix times the vector `pol`, written into the output at the place the
 * output layout gives basis function i (and component e of it).
 */
module ShapeWrite {
  import opened CsrMatrix

  /** `for j in rowptr[i] .. rowptr[i+1]-1: v += vals[j] * pol[colidx[j]] * scale` */
  method RowSum(c: Csr, nrows: nat, ncols: nat, i: nat, pol: seq<real>, scale: real) returns (v: real)
    requires WellFormed(c, nrows, ncols) && i < nrows && |pol| == ncols
    ensures v == RowDot(c, nrows, ncols, i, pol) * scale
  {
    var lo, hi := c.rowptr[i], c.rowptr[i + 1];
    v := 0.0;
    var j := lo;
    while j < hi
      invariant lo <= j <= hi
      invariant v + Partial(c.colidx, c.vals, pol, j, hi, scale) == Partial(c.colidx, c.vals, pol, lo, hi, scale)
    {
      v := v + c.vals[j] * pol[c.colidx[j]] * scale;
      j := j + 1;
    }
    PartialIsDot(c.colidx, c.vals, pol, lo, hi, scale);
  }

  /** The terms vals[p]·x[cols[p]]·s for p = j .. hi-1, summed as the loop of RowSum adds them. */
  function Partial(cols: seq<nat>, vals: seq<real>, x: seq<real>, j: nat, hi: nat, s: real): real
    requires j <= hi <= |cols| == |vals| && forall p :: 0 <= p < |cols| ==> cols[p] < |x|
    decreases hi - j
  {
    if j == hi then 0.0 else vals[j] * x[cols[j]] * s + Partial(cols, vals, x, j + 1, hi, s)
  }

  /** The loop's sum is the sparse dot product of the slice, times s. */
  lemma {:induction false} PartialIsDot(cols: seq<nat>, vals: seq<real>, x: seq<real>, j: nat, hi: nat, s: real)
    requires j <= hi <= |cols| == |vals| && forall p :: 0 <= p < |cols| ==> cols[p] < |x|
    ensures Partial(cols, vals, x, j, hi, s) == SparseDot(cols[j..hi], vals[j..hi], x) * s
    decreases hi - j
  {
    if j < hi {
      PartialIsDot(cols, vals, x, j + 1, hi, s);
      assert cols[j..hi][1..] == cols[j + 1..hi];
      assert vals[j..hi][1..] == vals[j + 1..hi];
      Distribute(vals[j] * x[cols[j]], SparseDot(cols[j + 1..hi], vals[j + 1..hi], x), s);
    }
  }

  lemma Distribute(a: real, b: real, s: real)
    ensures (a + b) * s == a * s + b * s
  {
  }

  /** Every row of the matrix times pol, times scale. */
  function RowDots(c: Csr, nrows: nat, ncols: nat, pol: seq<real>, scale: real): (v: seq<real>)
    requires WellFormed(c, nrows, ncols) && |pol| == ncols
    ensures |v| == nrows && forall i :: 0 <= i < nrows ==> v[i] == RowDot(c, nrows, ncols, i, pol) * scale
  {
    seq(nrows, i requires 0 <= i < nrows => RowDot(c, nrows, ncols, i, pol) * scale)
  }

  /** The output row of component e of basis function i when every basis function has n components: i*n + e. */
  function Comp(i: nat, n: nat, e: nat): nat
  {
    i * n + e
  }

  /** Row r belongs to one of the first nb basis functions, each owning n consecutive rows. */
  predicate Owned(r: nat, n: nat, nb: nat)
    requires n > 0
  {
    r / n < nb
  }

  /** Row r is component e of one of the first nb basis functions. */
  predicate Hit(r: nat, n: nat, e: nat, nb: nat)
    requires n > 0
  {
    r % n == e && Owned(r, n, nb)
  }

  /** Row i*n + e belongs to basis function i and component e. */
  lemma CompParts(i: nat, n: nat, e: nat)
    requires e < n
    ensures Comp(i, n, e) / n == i && Comp(i, n, e) % n == e
  {
    var r := Comp(i, n, e);
    var q, m := r / n, r % n;
    assert r == q * n + m;
    if q < i {
      MulLt(q, i, n);
    } else if q > i {
      MulLt(i, q, n);
    }
  }

  lemma MulLt(a: nat, b: nat, n: nat)
    requires a < b
    ensures a * n + n <= b * n
    decreases b - a
  {
    assert (b - 1) * n + n == b * n;
    if a + 1 < b {
      MulLt(a, b - 1, n);
    }
  }

  /** A row is determined by its basis function and component. */
  lemma Parts(r: nat, n: nat)
    requires n > 0
    ensures r == Comp(r / n, n, r % n)
  {
  }

  /** The rows of basis function i are exactly those r with r / n == i, and those of earlier ones lie below. */
  lemma Block(i: nat, n: nat)
    requires n > 0
    ensures forall m, e :: 0 <= m < i && 0 <= e < n ==> Comp(m, n, e) / n < i
    ensures forall e :: 0 <= e < n ==> Comp(i, n, e) / n == i && Comp(i, n, e) % n == e
    ensures forall r: nat :: r / n == i ==> r == Comp(i, n, r % n)
  {
    forall m, e | 0 <= m < i && 0 <= e < n ensures Comp(m, n, e) / n < i {
      CompParts(m, n, e);
    }
    forall e | 0 <= e < n ensures Comp(i, n, e) / n == i && Comp(i, n, e) % n == e {
      CompParts(i, n, e);
    }
    forall r: nat | r / n == i ensures r == Comp(i, n, r % n) {
      Parts(r, n);
    }
  }

  /** After writing basis function i, the written rows are those of the first i+1. */
  lemma HitStep(r: nat, n: nat, e: nat, i: nat)
    requires e < n
    ensures Hit(r, n, e, i + 1) <==> Hit(r, n, e, i) || r == Comp(i, n, e)
  {
    CompParts(i, n, e);
    if Hit(r, n, e, i + 1) {
      Parts(r, n);
    }
  }

  /** Scalar shape: `shape(i) = row i times pol, times scale` for every i < nb. Nothing else changes. */
  method WriteVector(c: Csr, nb: nat, np: nat, pol: seq<real>, scale: real, out: array<real>)
    requires WellFormed(c, nb, np) && |pol| == np && nb <= out.Length
    modifies out
    ensures out[..nb] == RowDots(c, nb, np, pol, scale)
    ensures forall i :: nb <= i < out.Length ==> out[i] == old(out[i])
  {
    var i := 0;
    while i < nb
      invariant i <= nb
      invariant forall k :: 0 <= k < i ==> out[k] == RowDot(c, nb, np, k, pol) * scale
      invariant forall k :: i <= k < out.Length ==> out[k] == old(out[k])
    {
      var v := RowSum(c, nb, np, i, pol, scale);
      out[i] := v;
      i := i + 1;
    }
    assert forall k :: 0 <= k < nb ==> out[..nb][k] == RowDots(c, nb, np, pol, scale)[k];
  }

  /** The output has a row for every component of each of the first nb basis functions. */
  predicate Fits(nb: nat, n: nat, len: nat)
  {
    forall i, d :: 0 <= i < nb && 0 <= d < n ==> Comp(i, n, d) < len
  }

  /** Rows i*n + e, i < nb, of column col: component e of the first nb basis functions. */
  function OutColumn(out: array2<real>, n: nat, e: nat, col: nat, nb: nat): (v: seq<real>)
    reads out
    requires e < n && Fits(nb, n, out.Length0) && col < out.Length1
    ensures |v| == nb && forall i :: 0 <= i < nb ==> v[i] == out[Comp(i, n, e), col]
  {
    seq(nb, i requires 0 <= i < nb reads out => out[Comp(i, n, e), col])
  }

  /** nb zeros. */
  function Zeros(nb: nat): (v: seq<real>)
    ensures |v| == nb && forall i :: 0 <= i < nb ==> v[i] == 0.0
  {
    seq(nb, i => 0.0)
  }

  /**
   * Column col of a matrix output with n components per basis function:
   * row i*n + e becomes row i of the matrix times pol, times scale, for every
   * i < nb. Nothing else changes.
   */
  method WriteColumn(c: Csr, nb: nat, np: nat, pol: seq<real>, scale: real, out: array2<real>, n: nat, e: nat, col: nat)
    requires WellFormed(c, nb, np) && |pol| == np
    requires e < n && Fits(nb, n, out.Length0) && col < out.Length1
    modifies out
    ensures OutColumn(out, n, e, col, nb) == RowDots(c, nb, np, pol, scale)
    ensures forall r, k :: 0 <= r < out.Length0 && 0 <= k < out.Length1 && !(k == col && Hit(r, n, e, nb)) ==>
      out[r, k] == old(out[r, k])
    ensures forall e' :: 0 <= e' < n && e' != e ==> OutColumn(out, n, e', col, nb) == old(OutColumn(out, n, e', col, nb))
  {
    var i := 0;
    while i < nb
      invariant i <= nb
      invariant forall m :: 0 <= m < i ==> out[Comp(m, n, e), col] == RowDots(c, nb, np, pol, scale)[m]
      invariant forall r, k :: 0 <= r < out.Length0 && 0 <= k < out.Length1 && !(k == col && Hit(r, n, e, i)) ==>
        out[r, k] == old(out[r, k])
    {
      var v := RowSum(c, nb, np, i, pol, scale);
      forall m | 0 <= m < i ensures Comp(m, n, e) != Comp(i, n, e) {
        CompParts(m, n, e);
        CompParts(i, n, e);
      }
      CompParts(i, n, e);
      out[Comp(i, n, e), col] := v;
      assert forall m :: 0 <= m <= i ==> out[Comp(m, n, e), col] == RowDots(c, nb, np, pol, scale)[m];
      forall r, k | 0 <= r < out.Length0 && 0 <= k < out.Length1 && !(k == col && Hit(r, n, e, i + 1))
        ensures out[r, k] == old(out[r, k])
      {
        HitStep(r, n, e, i);
      }
      i := i + 1;
    }
    assert forall m :: 0 <= m < nb ==> OutColumn(out, n, e, col, nb)[m] == RowDots(c, nb, np, pol, scale)[m];
    forall e' | 0 <= e' < n && e' != e ensures OutColumn(out, n, e', col, nb) == old(OutColumn(out, n, e', col, nb)) {
      forall m | 0 <= m < nb ensures OutColumn(out, n, e', col, nb)[m] == old(OutColumn(out, n, e', col, nb))[m] {
        CompParts(m, n, e');
      }
    }
  }

  /**
   * The special second derivative, column col: components 0 .. n-2 of every
   * basis function i < nb become 0, and component n-1 becomes row i times
   * pol, times scale. Nothing else changes.
   */
  method WriteSpecial(c: Csr, nb: nat, np: nat, pol: seq<real>, scale: real, out: array2<real>, n: nat, col: nat)
    requires WellFormed(c, nb, np) && |pol| == np
    requires (n == 2 || n == 3) && Fits(nb, n, out.Length0) && col < out.Length1
    modifies out
    ensures OutColumn(out, n, n - 1, col, nb) == RowDots(c, nb, np, pol, scale)
    ensures forall e :: 0 <= e < n - 1 ==> OutColumn(out, n, e, col, nb) == Zeros(nb)
    ensures forall r, k :: 0 <= r < out.Length0 && 0 <= k < out.Length1 && !(k == col && r / n < nb) ==>
      out[r, k] == old(out[r, k])
  {
    var i := 0;
    while i < nb
      invariant i <= nb
      invariant forall m, e :: 0 <= m < i && 0 <= e < n ==>
        out[Comp(m, n, e), col] == if e == n - 1 then RowDot(c, nb, np, m, pol) * scale else 0.0
      invariant forall r, k :: 0 <= r < out.Length0 && 0 <= k < out.Length1 && !(k == col && r / n < i) ==>
        out[r, k] == old(out[r, k])
    {
      SpecialRow(c, nb, np, pol, scale, out, n, col, i);
      i := i + 1;
    }
    assert forall m :: 0 <= m < nb ==> OutColumn(out, n, n - 1, col, nb)[m] == RowDots(c, nb, np, pol, scale)[m];
    forall e | 0 <= e < n - 1 ensures OutColumn(out, n, e, col, nb) == Zeros(nb) {
      assert forall m :: 0 <= m < nb ==> OutColumn(out, n, e, col, nb)[m] == 0.0;
    }
  }

  /** One pass of WriteSpecial's loop: the n rows of basis function i; the rows of the earlier ones stay. */
  method SpecialRow(c: Csr, nb: nat, np: nat, pol: seq<real>, scale: real, out: array2<real>, n: nat, col: nat, i: nat)
    requires WellFormed(c, nb, np) && |pol| == np && i < nb
    requires (n == 2 || n == 3) && Fits(nb, n, out.Length0) && col < out.Length1
    requires forall m, e :: 0 <= m < i && 0 <= e < n ==>
      out[Comp(m, n, e), col] == if e == n - 1 then RowDot(c, nb, np, m, pol) * scale else 0.0
    modifies out
    ensures forall m, e :: 0 <= m <= i && 0 <= e < n ==>
      out[Comp(m, n, e), col] == if e == n - 1 then RowDot(c, nb, np, m, pol) * scale else 0.0
    ensures forall r, k :: 0 <= r < out.Length0 && 0 <= k < out.Length1 && !(k == col && r / n == i) ==>
      out[r, k] == old(out[r, k])
  {
    Block(i, n);
    out[Comp(i, n, 0), col] := 0.0;
    out[Comp(i, n, 1), col] := 0.0;
    if n == 3 {
      out[Comp(i, n, 2), col] := 0.0;
    }
    var v := RowSum(c, nb, np, i, pol, scale);
    out[Comp(i, n, n - 1), col] := v;
    forall m, e | 0 <= m <= i && 0 <= e < n
      ensures out[Comp(m, n, e), col] == if e == n - 1 then RowDot(c, nb, np, m, pol) * scale else 0.0
    {
      if m == i {
        assert e == 0 || e == 1 || e == 2;
      }
    }
  }
}
