/**
 * The generalized polynomial plane-wave element: its shape functions, their
 * space-time gradients and the special second derivative, at one point or at
 * every point of an integration rule. Each evaluation maps the point to local
 * coordinates, fills `pol` with the monomials (or their derivatives) in loop
 * order, asks the basis store for the compressed basis matrix and multiplies
 * each of its rows with `pol`.
 */
module GppwFe {
  import opened Tuples
  import opened Monomial
  import opened CsrMatrix
  import opened GppwBasis
  import opened GppwBuild
  import opened GppwCache
  import opened GppwShape
  import opened PolFill
  import opened ShapeWrite

  /** The element: space dimension D, order, centre and size of the element, and the coefficient matrix gamma. */
  datatype Element = Element(dim: nat, ord: nat, center: seq<real>, size: real, gamma: Gamma)

  /** How a vectorised evaluation ends: done, or ExceptionNOSIMD for D = 3. */
  datatype Status = Done | NoSimd

  /** ndof: the number of basis functions. */
  function NDof(el: Element): nat
  {
    SliceCount(el.dim, el.ord)
  }

  /** npoly: the number of monomials of degree at most ord in D+1 variables. */
  function NPol(el: Element): nat
  {
    |Enum(el.dim + 1, el.ord)|
  }

  /** The element's key in the basis store. */
  function KeyFor(el: Element): Key
    requires el.ord * el.ord <= |el.gamma.data|
  {
    KeyOf(el.ord, el.gamma)
  }

  /**
   * What every evaluation needs: a dimension of 1, 2 or 3, a centre with one
   * coordinate per space-time direction and a nonzero size; for D = 1, 2 also
   * a consistent store of dimension D whose index map numbers the monomials in
   * loop order, and a gamma that covers what the basis build reads.
   */
  ghost predicate Ready(el: Element, cache: GppwBasisCache)
    reads cache
  {
    1 <= el.dim <= 3 && |el.center| == el.dim + 1 && el.size != 0.0 &&
    (el.dim <= 2 ==>
      cache.dim == el.dim && cache.Valid() && GammaCovers(el.gamma, el.ord) && IsIndexMap(cache.im, el.dim + 1, el.ord))
  }

  /**
   * The store holds a built entry under the element's key: ndof dense rows of
   * npoly coefficients, stored compressed.
   */
  ghost predicate Cached(el: Element, cache: GppwBasisCache)
    reads cache
    requires Ready(el, cache) && el.dim <= 2
  {
    var k := KeyFor(el);
    k in cache.store && k in cache.dense &&
    |cache.dense[k]| == NDof(el) && Rectangular(cache.dense[k], NPol(el)) && cache.store[k] == MatToCsr(cache.dense[k])
  }

  /** The dense basis the store holds under the element's key. */
  ghost function Basis(el: Element, cache: GppwBasisCache): (rows: seq<seq<real>>)
    reads cache
    requires Ready(el, cache) && el.dim <= 2 && Cached(el, cache)
    ensures |rows| == NDof(el) && Rectangular(rows, |Enum(el.dim + 1, el.ord)|)
  {
    cache.dense[KeyFor(el)]
  }

  // ---------------------------------------------------------------- reference values

  /** The monomials at the local point q, in loop order. */
  function Monos(n: nat, ord: nat, q: seq<real>): (v: seq<real>)
    ensures |v| == |Enum(n, ord)| && forall p :: 0 <= p < |v| ==> v[p] == Mono(q, Enum(n, ord)[p])
  {
    Along(n, ord, u => Mono(q, u))
  }

  /** Their derivatives in local direction d. */
  function Derivs(n: nat, ord: nat, q: seq<real>, d: nat): (v: seq<real>)
    ensures |v| == |Enum(n, ord)| && forall p :: 0 <= p < |v| ==> v[p] == Deriv(q, Enum(n, ord)[p], d)
  {
    Along(n, ord, u => Deriv(q, u, d))
  }

  /** The wave operator with coefficient w applied to them. */
  function Waves(n: nat, ord: nat, q: seq<real>, w: real): (v: seq<real>)
    ensures |v| == |Enum(n, ord)| && forall p :: 0 <= p < |v| ==> v[p] == Wave(q, Enum(n, ord)[p], w)
  {
    Along(n, ord, u => Wave(q, u, w))
  }

  /** Basis function `row` (one coefficient per monomial, in loop order) at the local point q. */
  function ShapeAt(row: seq<real>, n: nat, ord: nat, q: seq<real>): real
    requires |row| == |Enum(n, ord)|
  {
    Dot(row, Monos(n, ord, q))
  }

  /** The inner derivative 2/h of the local coordinates. */
  function Inner(h: real): real
    requires h != 0.0
  {
    2.0 / h
  }

  /** Its derivative in local direction d, times the inner derivative. */
  function GradAt(row: seq<real>, n: nat, ord: nat, q: seq<real>, d: nat, h: real): real
    requires |row| == |Enum(n, ord)| && h != 0.0
  {
    Dot(row, Derivs(n, ord, q, d)) * Inner(h)
  }

  /** The wave operator with coefficient w applied to it, times the inner derivative (2/h)^2. */
  function WaveAt(row: seq<real>, n: nat, ord: nat, q: seq<real>, w: real, h: real): real
    requires |row| == |Enum(n, ord)| && h != 0.0
  {
    Dot(row, Waves(n, ord, q, w)) * Pow(Inner(h), 2)
  }

  /** Every basis function of the dense basis `rows` at q. */
  function Shapes(rows: seq<seq<real>>, n: nat, ord: nat, q: seq<real>): (v: seq<real>)
    requires Rectangular(rows, |Enum(n, ord)|)
    ensures |v| == |rows| && forall i :: 0 <= i < |rows| ==> v[i] == ShapeAt(rows[i], n, ord, q)
  {
    seq(|rows|, i requires 0 <= i < |rows| => ShapeAt(rows[i], n, ord, q))
  }

  /** The derivatives in direction d of every basis function of the dense basis `rows` at q. */
  function Grads(rows: seq<seq<real>>, n: nat, ord: nat, q: seq<real>, d: nat, h: real): (v: seq<real>)
    requires Rectangular(rows, |Enum(n, ord)|) && h != 0.0
    ensures |v| == |rows| && forall i :: 0 <= i < |rows| ==> v[i] == GradAt(rows[i], n, ord, q, d, h)
  {
    seq(|rows|, i requires 0 <= i < |rows| => GradAt(rows[i], n, ord, q, d, h))
  }

  /** The special second derivative of every basis function of the dense basis `rows` at q. */
  function Specials(rows: seq<seq<real>>, n: nat, ord: nat, q: seq<real>, w: real, h: real): (v: seq<real>)
    requires Rectangular(rows, |Enum(n, ord)|) && h != 0.0
    ensures |v| == |rows| && forall i :: 0 <= i < |rows| ==> v[i] == WaveAt(rows[i], n, ord, q, w, h)
  {
    seq(|rows|, i requires 0 <= i < |rows| => WaveAt(rows[i], n, ord, q, w, h))
  }

  // ---------------------------------------------------------------- the basis matrix

  /** The dense basis has nbasis rows of npoly entries. */
  lemma BasisRectangular(s: Setting, rows: seq<seq<real>>)
    requires ValidSetting(s) && IsGppwBasis(s, rows)
    ensures |rows| == NBasis(s) && Rectangular(rows, NPoly(s))
  {
    forall b | 0 <= b < |rows| ensures |rows[b]| == NPoly(s) {
      assert BasisRow(s, rows[b], b);
    }
  }

  /**
   * `TrefftzGppwBasis<D>::getInstance().TB(ord, gamma)`: the compressed basis
   * the store holds for the element's key. A second request finds the store
   * as the first left it.
   */
  method LocalMat(el: Element, cache: GppwBasisCache) returns (tb: Csr)
    requires Ready(el, cache) && el.dim <= 2
    modifies cache
    ensures Ready(el, cache) && Cached(el, cache) && tb == cache.store[KeyFor(el)] && tb == MatToCsr(Basis(el, cache))
    ensures WellFormed(tb, NDof(el), NPol(el))
    ensures old(Cached(el, cache)) ==> unchanged(cache)
  {
    if Cached(el, cache) {
      MatToCsrNonEmpty(cache.dense[KeyFor(el)]);
    }
    var s := Setting(el.dim, el.ord, el.gamma, cache.im);
    IndexMapColumns(s);
    var res := cache.TB(el.ord, el.gamma);
    tb := res.tb;
    Entry(el, cache.im, cache.store, cache.from, cache.dense);
  }

  /** A built entry of a consistent store under the element's key holds ndof rows of npoly coefficients. */
  lemma Entry(el: Element, im: seq<nat> -> nat, store: map<Key, Csr>, from: map<Key, Gamma>, dense: map<Key, seq<seq<real>>>)
    requires el.dim <= 2 && el.ord * el.ord <= |el.gamma.data| && Consistent(el.dim, im, store, from, dense)
    requires KeyFor(el) in store && Built(store[KeyFor(el)])
    ensures KeyFor(el) in dense && |dense[KeyFor(el)]| == NDof(el) && Rectangular(dense[KeyFor(el)], NPol(el))
    ensures store[KeyFor(el)] == MatToCsr(dense[KeyFor(el)]) && WellFormed(store[KeyFor(el)], NDof(el), NPol(el))
  {
    var k := KeyFor(el);
    Lookup(el.dim, im, store, from, dense, k);
    BasisRectangular(Setting(el.dim, el.ord, from[k], im), dense[k]);
    EnumLength(el.dim + 1, el.ord);
    MatToCsrRows(dense[k], NPol(el));
  }

  /** Row i of the compressed basis times the monomial vector is the dense row times it. */
  lemma RowsTimes(rows: seq<seq<real>>, np: nat, pol: seq<real>, scale: real)
    requires Rectangular(rows, np) && |pol| == np
    ensures WellFormed(MatToCsr(rows), |rows|, np)
    ensures forall i :: 0 <= i < |rows| ==> RowDot(MatToCsr(rows), |rows|, np, i, pol) * scale == Dot(rows[i], pol) * scale
  {
    MatToCsrRows(rows, np);
    forall i | 0 <= i < |rows| ensures RowDot(MatToCsr(rows), |rows|, np, i, pol) == Dot(rows[i], pol) {
      MatToCsrRowDot(rows, np, i, pol);
    }
  }

  /** The rows of the compressed basis times the monomials are the basis functions. */
  lemma ShapesRows(rows: seq<seq<real>>, n: nat, ord: nat, q: seq<real>)
    requires Rectangular(rows, |Enum(n, ord)|)
    ensures WellFormed(MatToCsr(rows), |rows|, |Enum(n, ord)|)
    ensures RowDots(MatToCsr(rows), |rows|, |Enum(n, ord)|, Monos(n, ord, q), 1.0) == Shapes(rows, n, ord, q)
  {
    RowsTimes(rows, |Enum(n, ord)|, Monos(n, ord, q), 1.0);
  }

  /** Row i of the compressed basis times a vector is the dense row times it. */
  lemma DenseDots(rows: seq<seq<real>>, np: nat, pol: seq<real>)
    requires Rectangular(rows, np) && |pol| == np
    ensures WellFormed(MatToCsr(rows), |rows|, np)
    ensures forall i :: 0 <= i < |rows| ==> RowDot(MatToCsr(rows), |rows|, np, i, pol) == Dot(rows[i], pol)
  {
    MatToCsrRows(rows, np);
    forall i | 0 <= i < |rows| ensures RowDot(MatToCsr(rows), |rows|, np, i, pol) == Dot(rows[i], pol) {
      MatToCsrRowDot(rows, np, i, pol);
    }
  }

  /** A matrix whose rows times the derivatives are those of the dense basis gives, times 2/h, the gradient components. */
  lemma GradsRows(c: Csr, rows: seq<seq<real>>, n: nat, ord: nat, q: seq<real>, d: nat, h: real)
    requires Rectangular(rows, |Enum(n, ord)|) && h != 0.0 && WellFormed(c, |rows|, |Enum(n, ord)|)
    requires forall i :: 0 <= i < |rows| ==> RowDot(c, |rows|, |Enum(n, ord)|, i, Derivs(n, ord, q, d)) == Dot(rows[i], Derivs(n, ord, q, d))
    ensures RowDots(c, |rows|, |Enum(n, ord)|, Derivs(n, ord, q, d), Inner(h)) == Grads(rows, n, ord, q, d, h)
  {
    var a, b := RowDots(c, |rows|, |Enum(n, ord)|, Derivs(n, ord, q, d), Inner(h)), Grads(rows, n, ord, q, d, h);
    assert forall i :: 0 <= i < |rows| ==> a[i] == b[i];
  }

  /** The same for the wave terms and the factor (2/h)^2. */
  lemma WavesRows(c: Csr, rows: seq<seq<real>>, n: nat, ord: nat, q: seq<real>, w: real, h: real)
    requires Rectangular(rows, |Enum(n, ord)|) && h != 0.0 && WellFormed(c, |rows|, |Enum(n, ord)|)
    requires forall i :: 0 <= i < |rows| ==> RowDot(c, |rows|, |Enum(n, ord)|, i, Waves(n, ord, q, w)) == Dot(rows[i], Waves(n, ord, q, w))
    ensures RowDots(c, |rows|, |Enum(n, ord)|, Waves(n, ord, q, w), Pow(Inner(h), 2)) == Specials(rows, n, ord, q, w, h)
  {
    var a, b := RowDots(c, |rows|, |Enum(n, ord)|, Waves(n, ord, q, w), Pow(Inner(h), 2)), Specials(rows, n, ord, q, w, h);
    assert forall i :: 0 <= i < |rows| ==> a[i] == b[i];
  }

  // ---------------------------------------------------------------- the monomial vectors

  /** The shape loops fill pol with the monomials at q. */
  lemma ShapeVector(mem: seq<real>, ord: nat, q: seq<real>, n: nat, term: seq<nat> -> real)
    requires (n == 2 || n == 3) && Tabled(mem, 0, ord, q, n)
    requires forall u :: term(u) == ShapeTerm(mem, ord, u)
    ensures Along(n, ord, term) == Monos(n, ord, q)
  {
    var a, b := Along(n, ord, term), Monos(n, ord, q);
    forall p | 0 <= p < |a| ensures a[p] == b[p] {
      var u := Enum(n, ord)[p];
      EnumMembers(n, ord, u);
      ShapeTermIsMono(mem, ord, q, u);
    }
  }

  /** The derivative loops fill pol with the derivatives of the monomials at q in direction d. */
  lemma DerivVector(mem: seq<real>, ord: nat, q: seq<real>, n: nat, d: nat, term: seq<nat> -> real)
    requires (n == 2 || n == 3) && Tabled(mem, 1, ord, q, n) && d < n
    requires forall u :: term(u) == DTerm(mem, ord, d, u)
    ensures Along(n, ord, term) == Derivs(n, ord, q, d)
  {
    var a, b := Along(n, ord, term), Derivs(n, ord, q, d);
    forall p | 0 <= p < |a| ensures a[p] == b[p] {
      var u := Enum(n, ord)[p];
      EnumMembers(n, ord, u);
      DTermIsDeriv(mem, ord, q, d, u);
    }
  }

  /** The special loops fill pol with the wave operator applied to the monomials at q. */
  lemma WaveVector(mem: seq<real>, ord: nat, q: seq<real>, n: nat, w: real, term: seq<nat> -> real)
    requires (n == 2 || n == 3) && Tabled(mem, 2, ord, q, n)
    requires forall u :: term(u) == DDTerm(mem, ord, w, u)
    ensures Along(n, ord, term) == Waves(n, ord, q, w)
  {
    var a, b := Along(n, ord, term), Waves(n, ord, q, w);
    forall p | 0 <= p < |a| ensures a[p] == b[p] {
      var u := Enum(n, ord)[p];
      EnumMembers(n, ord, u);
      DDTermIsWave(mem, ord, q, w, u);
    }
  }

  // ---------------------------------------------------------------- one point

  /** The pol loops of CalcShape: the monomials at the local point of p, in loop order. */
  method ShapePol(el: Element, p: seq<real>) returns (pol: seq<real>)
    requires (el.dim == 1 || el.dim == 2) && |p| == |el.center| == el.dim + 1 && el.size != 0.0
    ensures pol == Monos(el.dim + 1, el.ord, Local(p, el.center, el.size))
  {
    var q := Local(p, el.center, el.size);
    var mem := Table(0, el.ord, q);
    var term := u => ShapeTerm(mem, el.ord, u);
    var a := FillPol(el.dim + 1, el.ord, term);
    pol := a[..];
    ShapeVector(mem, el.ord, q, el.dim + 1, term);
  }

  /**
   * CalcShape at one point p: for D = 1, 2, shape(i) becomes basis function i
   * of the stored basis at the local point of p, for every i < ndof; for D = 3
   * nothing is written. Nothing else changes.
   */
  method CalcShape(el: Element, cache: GppwBasisCache, p: seq<real>, shape: array<real>)
    requires Ready(el, cache) && |p| == el.dim + 1
    requires el.dim <= 2 ==> NDof(el) <= shape.Length
    modifies cache, shape
    ensures el.dim == 3 ==> unchanged(cache) && unchanged(shape)
    ensures el.dim <= 2 ==> Ready(el, cache) && Cached(el, cache)
    ensures el.dim <= 2 ==>
      shape[..NDof(el)] == Shapes(Basis(el, cache), el.dim + 1, el.ord, Local(p, el.center, el.size))
    ensures forall i :: NDof(el) <= i < shape.Length ==> shape[i] == old(shape[i])
  {
    if el.dim == 3 {
      return;
    }
    var pol := ShapePol(el, p);
    var tb := LocalMat(el, cache);
    PutVector(el, cache, tb, Local(p, el.center, el.size), pol, shape);
  }

  /** Entries 0 .. ndof-1 of out become the basis functions of the cached basis at q; nothing else changes. */
  method PutVector(el: Element, cache: GppwBasisCache, tb: Csr, ghost q: seq<real>, pol: seq<real>, out: array<real>)
    requires Ready(el, cache) && el.dim <= 2 && Cached(el, cache)
    requires tb == MatToCsr(Basis(el, cache)) && pol == Monos(el.dim + 1, el.ord, q) && NDof(el) <= out.Length
    modifies out
    ensures Ready(el, cache) && Cached(el, cache)
    ensures out[..NDof(el)] == Shapes(Basis(el, cache), el.dim + 1, el.ord, q)
    ensures forall i :: NDof(el) <= i < out.Length ==> out[i] == old(out[i])
  {
    ghost var rows := Basis(el, cache);
    assert NPol(el) == |Enum(el.dim + 1, el.ord)|;
    ShapesRows(rows, el.dim + 1, el.ord, q);
    WriteVector(tb, NDof(el), NPol(el), pol, 1.0, out);
  }

  /** The pol loops of CalcDShape for direction d: the derivatives of the monomials at q, in loop order. */
  method DerivPol(el: Element, mem: seq<real>, q: seq<real>, d: nat) returns (pol: seq<real>)
    requires (el.dim == 1 || el.dim == 2) && |q| == el.dim + 1 && Tabled(mem, 1, el.ord, q, el.dim + 1) && d <= el.dim
    ensures pol == Derivs(el.dim + 1, el.ord, q, d)
  {
    var term := u => DTerm(mem, el.ord, d, u);
    var a := FillPol(el.dim + 1, el.ord, term);
    pol := a[..];
    DerivVector(mem, el.ord, q, el.dim + 1, d, term);
  }

  /** The pol loops of CalcDDSpecialShape: the wave operator with coefficient w applied to the monomials at q. */
  method WavePol(el: Element, mem: seq<real>, q: seq<real>, w: real) returns (pol: seq<real>)
    requires (el.dim == 1 || el.dim == 2) && |q| == el.dim + 1 && Tabled(mem, 2, el.ord, q, el.dim + 1)
    ensures pol == Waves(el.dim + 1, el.ord, q, w)
  {
    var term := u => DDTerm(mem, el.ord, w, u);
    var a := FillPol(el.dim + 1, el.ord, term);
    pol := a[..];
    WaveVector(mem, el.ord, q, el.dim + 1, w, term);
  }

  /**
   * One pass of the d loop of a gradient evaluation at the local point q:
   * rows i*n + e of column col become the derivative in direction d of basis
   * function i, for every i < ndof. Nothing else of the output changes.
   */
  method GradColumn(el: Element, cache: GppwBasisCache, mem: seq<real>, q: seq<real>, d: nat,
                    out: array2<real>, n: nat, e: nat, col: nat)
    requires Ready(el, cache) && el.dim <= 2 && |q| == el.dim + 1 && Tabled(mem, 1, el.ord, q, el.dim + 1) && d <= el.dim
    requires e < n && Fits(NDof(el), n, out.Length0) && col < out.Length1
    modifies cache, out
    ensures Ready(el, cache) && Cached(el, cache)
    ensures old(Cached(el, cache)) ==> unchanged(cache)
    ensures OutColumn(out, n, e, col, NDof(el)) == Grads(Basis(el, cache), el.dim + 1, el.ord, q, d, el.size)
    ensures forall r, k :: 0 <= r < out.Length0 && 0 <= k < out.Length1 && !(k == col && Hit(r, n, e, NDof(el))) ==>
      out[r, k] == old(out[r, k])
    ensures forall e' :: 0 <= e' < n && e' != e ==> OutColumn(out, n, e', col, NDof(el)) == old(OutColumn(out, n, e', col, NDof(el)))
  {
    var pol := DerivPol(el, mem, q, d);
    var tb := LocalMat(el, cache);
    ghost var rows := Basis(el, cache);
    PutGrads(tb, rows, el.dim + 1, el.ord, q, d, NDof(el), el.size, pol, out, n, e, col);
  }

  /**
   * The write of GradColumn, from the compressed basis matrix tb of rows and
   * the derivative vector pol of direction d: rows i*n + e of column col
   * become the derivatives of the basis functions, scaled to the element.
   */
  method PutGrads(tb: Csr, ghost rows: seq<seq<real>>, ghost nv: nat, ghost ord: nat, ghost q: seq<real>, ghost d: nat,
                  nb: nat, h: real, pol: seq<real>, out: array2<real>, n: nat, e: nat, col: nat)
    requires |rows| == nb && Rectangular(rows, |Enum(nv, ord)|) && h != 0.0 && tb == MatToCsr(rows) && pol == Derivs(nv, ord, q, d)
    requires e < n && Fits(nb, n, out.Length0) && col < out.Length1
    modifies out
    ensures OutColumn(out, n, e, col, nb) == Grads(rows, nv, ord, q, d, h)
    ensures forall r, k :: 0 <= r < out.Length0 && 0 <= k < out.Length1 && !(k == col && Hit(r, n, e, nb)) ==>
      out[r, k] == old(out[r, k])
    ensures forall e' :: 0 <= e' < n && e' != e ==> OutColumn(out, n, e', col, nb) == old(OutColumn(out, n, e', col, nb))
  {
    DenseDots(rows, |pol|, pol);
    GradsRows(tb, rows, nv, ord, q, d, h);
    WriteColumn(tb, nb, |pol|, pol, Inner(h), out, n, e, col);
  }

  /** With one component per basis function, the rows written are the first nb. */
  lemma OneComponent(nb: nat, len: nat)
    ensures forall i: nat :: Comp(i, 1, 0) == i
    ensures forall r: nat :: Hit(r, 1, 0, nb) <==> r < nb
    ensures nb <= len ==> Fits(nb, 1, len)
  {
  }

  /**
   * CalcDShape at one point p: for D = 1, 2, dshape(i, d) becomes the
   * derivative in space-time direction d of basis function i at the local
   * point of p, for every i < ndof and d <= D; for D = 3 nothing is
   * written. Nothing else of dshape changes.
   */
  method CalcDShape(el: Element, cache: GppwBasisCache, p: seq<real>, dshape: array2<real>)
    requires Ready(el, cache) && |p| == el.dim + 1
    requires el.dim <= 2 ==> NDof(el) <= dshape.Length0 && el.dim + 1 <= dshape.Length1
    modifies cache, dshape
    ensures el.dim == 3 ==> unchanged(cache) && unchanged(dshape)
    ensures el.dim <= 2 ==> Ready(el, cache) && Cached(el, cache)
    ensures el.dim <= 2 ==> forall d :: 0 <= d <= el.dim ==>
      OutColumn(dshape, 1, 0, d, NDof(el)) == Grads(Basis(el, cache), el.dim + 1, el.ord, Local(p, el.center, el.size), d, el.size)
    ensures forall r, k :: 0 <= r < dshape.Length0 && 0 <= k < dshape.Length1 && !(r < NDof(el) && k <= el.dim) ==>
      dshape[r, k] == old(dshape[r, k])
  {
    if el.dim == 3 {
      return;
    }
    var q := Local(p, el.center, el.size);
    var mem := Table(1, el.ord, q);
    var d := 0;
    ghost var rows := [];
    while d < el.dim + 1
      invariant d <= el.dim + 1 && Ready(el, cache) && (d > 0 ==> Cached(el, cache) && rows == Basis(el, cache))
      invariant forall d' :: 0 <= d' < d ==> OutColumn(dshape, 1, 0, d', NDof(el)) == Grads(rows, el.dim + 1, el.ord, q, d', el.size)
      invariant forall r, k :: 0 <= r < dshape.Length0 && 0 <= k < dshape.Length1 && !(r < NDof(el) && k < d) ==>
        dshape[r, k] == old(dshape[r, k])
    {
      rows := GradStep(el, cache, mem, q, d, dshape, rows);
      d := d + 1;
    }
  }

  /** One pass of CalcDShape's loop: column d gets the derivatives in direction d; the earlier columns stay. */
  method GradStep(el: Element, cache: GppwBasisCache, mem: seq<real>, q: seq<real>, d: nat, out: array2<real>,
                  ghost rows: seq<seq<real>>) returns (ghost rows': seq<seq<real>>)
    requires Ready(el, cache) && el.dim <= 2 && |q| == el.dim + 1 && Tabled(mem, 1, el.ord, q, el.dim + 1) && d <= el.dim
    requires NDof(el) <= out.Length0 && el.dim + 1 <= out.Length1
    requires d > 0 ==> Cached(el, cache) && rows == Basis(el, cache)
    requires forall d' :: 0 <= d' < d ==> OutColumn(out, 1, 0, d', NDof(el)) == Grads(rows, el.dim + 1, el.ord, q, d', el.size)
    modifies cache, out
    ensures Ready(el, cache) && Cached(el, cache) && rows' == Basis(el, cache)
    ensures forall d' :: 0 <= d' <= d ==> OutColumn(out, 1, 0, d', NDof(el)) == Grads(rows', el.dim + 1, el.ord, q, d', el.size)
    ensures forall r, k :: 0 <= r < out.Length0 && 0 <= k < out.Length1 && !(k == d && r < NDof(el)) ==>
      out[r, k] == old(out[r, k])
  {
    OneComponent(NDof(el), out.Length0);
    GradColumn(el, cache, mem, q, d, out, 1, 0, d);
    rows' := Basis(el, cache);
    forall d' | 0 <= d' < d ensures OutColumn(out, 1, 0, d', NDof(el)) == old(OutColumn(out, 1, 0, d', NDof(el))) {
      assert forall i :: 0 <= i < NDof(el) ==> OutColumn(out, 1, 0, d', NDof(el))[i] == old(OutColumn(out, 1, 0, d', NDof(el)))[i];
    }
  }
}
