/**
 * The vectorised evaluations of the plane-wave element: shape functions,
 * gradients and the special second derivative at every point of an
 * integration rule. Point imip of the rule fills column imip of the output;
 * for gradients and the special derivative basis function i owns the D+1
 * rows i*(D+1) .. i*(D+1)+D of that column.
 */
module GppwRule {
  import opened Tuples
  import opened Monomial
  import opened CsrMatrix
  import opened GppwShape
  import opened GppwCache
  import opened ShapeWrite
  import opened GppwFe

  /** Every point of the rule has one coordinate per space-time direction. */
  predicate Points(el: Element, pts: seq<seq<real>>)
  {
    forall m :: 0 <= m < |pts| ==> |pts[m]| == el.dim + 1
  }

  /** The number of space-time directions, D+1: the rows each basis function owns in a gradient column. */
  function Dirs(el: Element): (n: nat)
    ensures n == el.dim + 1 && n > 0
  {
    el.dim + 1
  }

  // ---------------------------------------------------------------- shape functions

  /** One point of CalcShape: column col becomes the basis functions at the local point of p. */
  method ShapeColumn(el: Element, cache: GppwBasisCache, p: seq<real>, out: array2<real>, col: nat)
    requires Ready(el, cache) && el.dim <= 2 && |p| == el.dim + 1
    requires NDof(el) <= out.Length0 && col < out.Length1
    modifies cache, out
    ensures Ready(el, cache) && Cached(el, cache)
    ensures old(Cached(el, cache)) ==> unchanged(cache)
    ensures OutColumn(out, 1, 0, col, NDof(el)) == Shapes(Basis(el, cache), el.dim + 1, el.ord, Local(p, el.center, el.size))
    ensures forall r, k :: 0 <= r < out.Length0 && 0 <= k < out.Length1 && !(k == col && r < NDof(el)) ==>
      out[r, k] == old(out[r, k])
  {
    var pol := ShapePol(el, p);
    var tb := LocalMat(el, cache);
    PutShapes(el, cache, tb, Local(p, el.center, el.size), pol, out, col);
  }

  /** Column col, rows 0 .. NDof-1, becomes the cached basis functions at q; nothing else changes. */
  method PutShapes(el: Element, cache: GppwBasisCache, tb: Csr, ghost q: seq<real>, pol: seq<real>, out: array2<real>, col: nat)
    requires Ready(el, cache) && el.dim <= 2 && Cached(el, cache)
    requires tb == MatToCsr(Basis(el, cache)) && pol == Monos(el.dim + 1, el.ord, q)
    requires NDof(el) <= out.Length0 && col < out.Length1
    modifies out
    ensures Ready(el, cache) && Cached(el, cache)
    ensures OutColumn(out, 1, 0, col, NDof(el)) == Shapes(Basis(el, cache), el.dim + 1, el.ord, q)
    ensures forall r, k :: 0 <= r < out.Length0 && 0 <= k < out.Length1 && !(k == col && r < NDof(el)) ==>
      out[r, k] == old(out[r, k])
  {
    ghost var rows := Basis(el, cache);
    assert NPol(el) == |Enum(el.dim + 1, el.ord)|;
    ShapesRows(rows, el.dim + 1, el.ord, q);
    OneComponent(NDof(el), out.Length0);
    WriteColumn(tb, NDof(el), NPol(el), pol, 1.0, out, 1, 0, col);
  }

  /**
   * CalcShape on an integration rule: for D = 1, 2, column m of shape becomes
   * the basis functions at the local point of point m, for every point; for
   * D = 3 the evaluation stops with ExceptionNOSIMD and writes nothing.
   * Nothing else of shape changes.
   */
  method CalcShapeRule(el: Element, cache: GppwBasisCache, pts: seq<seq<real>>, shape: array2<real>) returns (st: Status)
    requires Ready(el, cache) && Points(el, pts)
    requires el.dim <= 2 ==> NDof(el) <= shape.Length0 && |pts| <= shape.Length1
    modifies cache, shape
    ensures st == NoSimd <==> el.dim == 3
    ensures el.dim == 3 || |pts| == 0 ==> unchanged(cache)
    ensures el.dim <= 2 ==> Ready(el, cache)
    ensures el.dim <= 2 && |pts| > 0 ==> Cached(el, cache)
    ensures el.dim <= 2 && |pts| > 0 ==>
      forall m :: 0 <= m < |pts| ==>
        OutColumn(shape, 1, 0, m, NDof(el)) == Shapes(Basis(el, cache), el.dim + 1, el.ord, Local(pts[m], el.center, el.size))
    ensures forall r, k :: 0 <= r < shape.Length0 && 0 <= k < shape.Length1 && !(el.dim <= 2 && r < NDof(el) && k < |pts|) ==>
      shape[r, k] == old(shape[r, k])
  {
    if el.dim == 3 {
      return NoSimd;
    }
    st := Done;
    var m := 0;
    ghost var rows := [];
    while m < |pts|
      invariant m <= |pts| && Ready(el, cache) && (m == 0 ==> unchanged(cache)) && (m > 0 ==> Cached(el, cache) && rows == Basis(el, cache))
      invariant forall m' :: 0 <= m' < m ==>
        OutColumn(shape, 1, 0, m', NDof(el)) == Shapes(rows, el.dim + 1, el.ord, Local(pts[m'], el.center, el.size))
      invariant forall r, k :: 0 <= r < shape.Length0 && 0 <= k < shape.Length1 && !(r < NDof(el) && k < m) ==>
        shape[r, k] == old(shape[r, k])
    {
      rows := NextShapes(el, cache, pts, shape, m, rows);
      m := m + 1;
    }
  }

  /** One pass of CalcShapeRule's loop: column m gets the basis functions at point m; the earlier columns stay. */
  method NextShapes(el: Element, cache: GppwBasisCache, pts: seq<seq<real>>, out: array2<real>, m: nat,
                    ghost rows: seq<seq<real>>) returns (ghost rows': seq<seq<real>>)
    requires Ready(el, cache) && el.dim <= 2 && Points(el, pts) && m < |pts| && NDof(el) <= out.Length0 && |pts| <= out.Length1
    requires m > 0 ==> Cached(el, cache) && rows == Basis(el, cache)
    requires forall m' :: 0 <= m' < m ==>
      OutColumn(out, 1, 0, m', NDof(el)) == Shapes(rows, el.dim + 1, el.ord, Local(pts[m'], el.center, el.size))
    modifies cache, out
    ensures Ready(el, cache) && Cached(el, cache) && rows' == Basis(el, cache)
    ensures old(Cached(el, cache)) ==> unchanged(cache)
    ensures forall m' :: 0 <= m' <= m ==>
      OutColumn(out, 1, 0, m', NDof(el)) == Shapes(rows', el.dim + 1, el.ord, Local(pts[m'], el.center, el.size))
    ensures forall r, k :: 0 <= r < out.Length0 && 0 <= k < out.Length1 && !(k == m && r < NDof(el)) ==>
      out[r, k] == old(out[r, k])
  {
    ShapeColumn(el, cache, pts[m], out, m);
    rows' := Basis(el, cache);
    forall m' | 0 <= m' < m ensures OutColumn(out, 1, 0, m', NDof(el)) == old(OutColumn(out, 1, 0, m', NDof(el))) {
      assert forall i :: 0 <= i < NDof(el) ==> OutColumn(out, 1, 0, m', NDof(el))[i] == old(OutColumn(out, 1, 0, m', NDof(el)))[i];
    }
  }

  // ---------------------------------------------------------------- gradients

  /** One point of CalcDShape: rows i*(D+1) + d of column col become the gradients at the local point of p. */
  method GradPoint(el: Element, cache: GppwBasisCache, p: seq<real>, out: array2<real>, col: nat)
    requires Ready(el, cache) && el.dim <= 2 && |p| == el.dim + 1
    requires Fits(NDof(el), Dirs(el), out.Length0) && col < out.Length1
    modifies cache, out
    ensures Ready(el, cache) && Cached(el, cache)
    ensures old(Cached(el, cache)) ==> unchanged(cache)
    ensures forall d: nat :: d <= el.dim ==>
      OutColumn(out, Dirs(el), d, col, NDof(el)) == Grads(Basis(el, cache), el.dim + 1, el.ord, Local(p, el.center, el.size), d, el.size)
    ensures forall r, k :: 0 <= r < out.Length0 && 0 <= k < out.Length1 && !(k == col && Owned(r, Dirs(el), NDof(el))) ==>
      out[r, k] == old(out[r, k])
  {
    var q := Local(p, el.center, el.size);
    var mem := Table(1, el.ord, q);
    var d := 0;
    ghost var rows := [];
    while d < el.dim + 1
      invariant d <= el.dim + 1 && Ready(el, cache) && (d > 0 ==> Cached(el, cache) && rows == Basis(el, cache))
      invariant old(Cached(el, cache)) ==> unchanged(cache)
      invariant forall d': nat :: d' < d ==>
        OutColumn(out, Dirs(el), d', col, NDof(el)) == Grads(rows, el.dim + 1, el.ord, q, d', el.size)
      invariant forall r, k :: 0 <= r < out.Length0 && 0 <= k < out.Length1 && !(k == col && Owned(r, Dirs(el), NDof(el))) ==>
        out[r, k] == old(out[r, k])
    {
      rows := NextDirection(el, cache, mem, q, d, out, col, rows);
      d := d + 1;
    }
  }

  /** One pass of GradPoint's loop: rows i*(D+1) + d of column col get the derivatives in direction d; the rest stays. */
  method NextDirection(el: Element, cache: GppwBasisCache, mem: seq<real>, q: seq<real>, d: nat, out: array2<real>, col: nat,
                       ghost rows: seq<seq<real>>) returns (ghost rows': seq<seq<real>>)
    requires Ready(el, cache) && el.dim <= 2 && |q| == el.dim + 1 && Tabled(mem, 1, el.ord, q, el.dim + 1) && d <= el.dim
    requires Fits(NDof(el), Dirs(el), out.Length0) && col < out.Length1
    requires d > 0 ==> Cached(el, cache) && rows == Basis(el, cache)
    requires forall d': nat :: d' < d ==> OutColumn(out, Dirs(el), d', col, NDof(el)) == Grads(rows, el.dim + 1, el.ord, q, d', el.size)
    modifies cache, out
    ensures Ready(el, cache) && Cached(el, cache) && rows' == Basis(el, cache)
    ensures old(Cached(el, cache)) ==> unchanged(cache)
    ensures forall d': nat :: d' <= d ==> OutColumn(out, Dirs(el), d', col, NDof(el)) == Grads(rows', el.dim + 1, el.ord, q, d', el.size)
    ensures forall r, k :: 0 <= r < out.Length0 && 0 <= k < out.Length1 && !(k == col && Owned(r, Dirs(el), NDof(el))) ==>
      out[r, k] == old(out[r, k])
  {
    GradColumn(el, cache, mem, q, d, out, Dirs(el), d, col);
    rows' := Basis(el, cache);
    forall d': nat | d' < d ensures OutColumn(out, Dirs(el), d', col, NDof(el)) == old(OutColumn(out, Dirs(el), d', col, NDof(el))) {
      assert forall i :: 0 <= i < NDof(el) ==> OutColumn(out, Dirs(el), d', col, NDof(el))[i] == old(OutColumn(out, Dirs(el), d', col, NDof(el)))[i];
    }
  }

  /**
   * CalcDShape on an integration rule: for D = 1, 2, row i*(D+1) + d of
   * column m of dshape becomes the derivative in direction d of basis
   * function i at the local point of point m; for D = 3 the evaluation stops
   * with ExceptionNOSIMD and writes nothing. Nothing else of dshape changes.
   */
  method CalcDShapeRule(el: Element, cache: GppwBasisCache, pts: seq<seq<real>>, dshape: array2<real>) returns (st: Status)
    requires Ready(el, cache) && Points(el, pts)
    requires el.dim <= 2 ==> Fits(NDof(el), Dirs(el), dshape.Length0) && |pts| <= dshape.Length1
    modifies cache, dshape
    ensures st == NoSimd <==> el.dim == 3
    ensures el.dim == 3 || |pts| == 0 ==> unchanged(cache)
    ensures el.dim <= 2 ==> Ready(el, cache)
    ensures el.dim <= 2 && |pts| > 0 ==> Cached(el, cache)
    ensures el.dim <= 2 && |pts| > 0 ==>
      forall m, d :: 0 <= m < |pts| && 0 <= d <= el.dim ==>
        OutColumn(dshape, Dirs(el), d, m, NDof(el)) ==
        Grads(Basis(el, cache), el.dim + 1, el.ord, Local(pts[m], el.center, el.size), d, el.size)
    ensures forall r, k :: (0 <= r < dshape.Length0 && 0 <= k < dshape.Length1 &&
      !(el.dim <= 2 && Owned(r, Dirs(el), NDof(el)) && k < |pts|)) ==>
      dshape[r, k] == old(dshape[r, k])
  {
    if el.dim == 3 {
      return NoSimd;
    }
    st := Done;
    var m := 0;
    ghost var rows := [];
    while m < |pts|
      invariant m <= |pts| && Ready(el, cache) && (m == 0 ==> unchanged(cache)) && (m > 0 ==> Cached(el, cache) && rows == Basis(el, cache))
      invariant forall m', d :: 0 <= m' < m && 0 <= d <= el.dim ==>
        OutColumn(dshape, Dirs(el), d, m', NDof(el)) ==
        Grads(rows, el.dim + 1, el.ord, Local(pts[m'], el.center, el.size), d, el.size)
      invariant forall r, k :: 0 <= r < dshape.Length0 && 0 <= k < dshape.Length1 && !(Owned(r, Dirs(el), NDof(el)) && k < m) ==>
        dshape[r, k] == old(dshape[r, k])
    {
      rows := NextGrads(el, cache, pts, dshape, m, rows);
      m := m + 1;
    }
  }

  /** One pass of CalcDShapeRule's loop: column m gets the gradients at point m; the earlier columns stay. */
  method NextGrads(el: Element, cache: GppwBasisCache, pts: seq<seq<real>>, out: array2<real>, m: nat,
                   ghost rows: seq<seq<real>>) returns (ghost rows': seq<seq<real>>)
    requires Ready(el, cache) && el.dim <= 2 && Points(el, pts) && m < |pts|
    requires Fits(NDof(el), Dirs(el), out.Length0) && |pts| <= out.Length1
    requires m > 0 ==> Cached(el, cache) && rows == Basis(el, cache)
    requires forall m', d :: 0 <= m' < m && 0 <= d <= el.dim ==>
      OutColumn(out, Dirs(el), d, m', NDof(el)) == Grads(rows, el.dim + 1, el.ord, Local(pts[m'], el.center, el.size), d, el.size)
    modifies cache, out
    ensures Ready(el, cache) && Cached(el, cache) && rows' == Basis(el, cache)
    ensures old(Cached(el, cache)) ==> unchanged(cache)
    ensures forall m', d :: 0 <= m' <= m && 0 <= d <= el.dim ==>
      OutColumn(out, Dirs(el), d, m', NDof(el)) == Grads(rows', el.dim + 1, el.ord, Local(pts[m'], el.center, el.size), d, el.size)
    ensures forall r, k :: 0 <= r < out.Length0 && 0 <= k < out.Length1 && !(k == m && Owned(r, Dirs(el), NDof(el))) ==>
      out[r, k] == old(out[r, k])
  {
    GradPoint(el, cache, pts[m], out, m);
    rows' := Basis(el, cache);
    forall m', e | 0 <= m' < m && 0 <= e <= el.dim
      ensures OutColumn(out, Dirs(el), e, m', NDof(el)) == old(OutColumn(out, Dirs(el), e, m', NDof(el)))
    {
      assert forall i :: 0 <= i < NDof(el) ==> OutColumn(out, Dirs(el), e, m', NDof(el))[i] == old(OutColumn(out, Dirs(el), e, m', NDof(el)))[i];
    }
  }

  // ---------------------------------------------------------------- the special second derivative

  /**
   * One point of CalcDDSpecialShape: in column col, row i*(D+1) + D becomes
   * the special second derivative of basis function i at the local point of
   * p with wave speed coefficient w, and rows i*(D+1) .. i*(D+1)+D-1 become 0.
   */
  method SpecialPoint(el: Element, cache: GppwBasisCache, p: seq<real>, w: real, out: array2<real>, col: nat)
    requires Ready(el, cache) && el.dim <= 2 && |p| == el.dim + 1
    requires Fits(NDof(el), Dirs(el), out.Length0) && col < out.Length1
    modifies cache, out
    ensures Ready(el, cache) && Cached(el, cache)
    ensures old(Cached(el, cache)) ==> unchanged(cache)
    ensures OutColumn(out, Dirs(el), el.dim, col, NDof(el)) ==
      Specials(Basis(el, cache), el.dim + 1, el.ord, Local(p, el.center, el.size), w, el.size)
    ensures forall e :: 0 <= e < el.dim ==> OutColumn(out, Dirs(el), e, col, NDof(el)) == Zeros(NDof(el))
    ensures forall r, k :: 0 <= r < out.Length0 && 0 <= k < out.Length1 && !(k == col && Owned(r, Dirs(el), NDof(el))) ==>
      out[r, k] == old(out[r, k])
  {
    var q := Local(p, el.center, el.size);
    var mem := Table(2, el.ord, q);
    var pol := WavePol(el, mem, q, w);
    var tb := LocalMat(el, cache);
    ghost var rows := Basis(el, cache);
    PutSpecials(tb, rows, el.ord, q, w, NDof(el), el.size, pol, out, Dirs(el), col);
  }

  /**
   * The write of SpecialPoint, from the compressed basis matrix tb of rows and
   * the wave vector pol: in column col, row i*n + n-1 becomes the special
   * second derivative of basis function i and the other n-1 rows become 0.
   */
  method PutSpecials(tb: Csr, ghost rows: seq<seq<real>>, ghost ord: nat, ghost q: seq<real>, ghost w: real,
                     nb: nat, h: real, pol: seq<real>, out: array2<real>, n: nat, col: nat)
    requires |rows| == nb && Rectangular(rows, |Enum(n, ord)|) && h != 0.0 && tb == MatToCsr(rows) && pol == Waves(n, ord, q, w)
    requires (n == 2 || n == 3) && Fits(nb, n, out.Length0) && col < out.Length1
    modifies out
    ensures OutColumn(out, n, n - 1, col, nb) == Specials(rows, n, ord, q, w, h)
    ensures forall e :: 0 <= e < n - 1 ==> OutColumn(out, n, e, col, nb) == Zeros(nb)
    ensures forall r, k :: 0 <= r < out.Length0 && 0 <= k < out.Length1 && !(k == col && Owned(r, n, nb)) ==>
      out[r, k] == old(out[r, k])
  {
    DenseDots(rows, |pol|, pol);
    WavesRows(tb, rows, n, ord, q, w, h);
    WriteSpecial(tb, nb, |pol|, pol, Pow(Inner(h), 2), out, n, col);
  }

  /**
   * CalcDDSpecialShape on an integration rule, D = 1, 2: in column m of
   * dshape, row i*(D+1) + D becomes the special second derivative of basis
   * function i at the local point of point m, with the wave speed coefficient
   * w[m] (entry (0, m) of the wavespeed matrix), and the other D rows of
   * basis function i become 0. Nothing else of dshape changes.
   */
  method CalcDDSpecialShapeRule(el: Element, cache: GppwBasisCache, pts: seq<seq<real>>, dshape: array2<real>, w: seq<real>)
    requires Ready(el, cache) && el.dim <= 2 && Points(el, pts) && |pts| <= |w|
    requires Fits(NDof(el), Dirs(el), dshape.Length0) && |pts| <= dshape.Length1
    modifies cache, dshape
    ensures Ready(el, cache) && (|pts| == 0 ==> unchanged(cache))
    ensures |pts| > 0 ==> Cached(el, cache)
    ensures |pts| > 0 ==>
      forall m :: 0 <= m < |pts| ==>
        OutColumn(dshape, Dirs(el), el.dim, m, NDof(el)) ==
        Specials(Basis(el, cache), el.dim + 1, el.ord, Local(pts[m], el.center, el.size), w[m], el.size)
    ensures |pts| > 0 ==> forall m, e :: 0 <= m < |pts| && 0 <= e < el.dim ==>
      OutColumn(dshape, Dirs(el), e, m, NDof(el)) == Zeros(NDof(el))
    ensures forall r, k :: 0 <= r < dshape.Length0 && 0 <= k < dshape.Length1 && !(Owned(r, Dirs(el), NDof(el)) && k < |pts|) ==>
      dshape[r, k] == old(dshape[r, k])
  {
    var m := 0;
    ghost var rows := [];
    while m < |pts|
      invariant m <= |pts| && Ready(el, cache) && (m == 0 ==> unchanged(cache)) && (m > 0 ==> Cached(el, cache) && rows == Basis(el, cache))
      invariant forall m' :: 0 <= m' < m ==>
        OutColumn(dshape, Dirs(el), el.dim, m', NDof(el)) ==
        Specials(rows, el.dim + 1, el.ord, Local(pts[m'], el.center, el.size), w[m'], el.size)
      invariant forall m', e :: 0 <= m' < m && 0 <= e < el.dim ==>
        OutColumn(dshape, Dirs(el), e, m', NDof(el)) == Zeros(NDof(el))
      invariant forall r, k :: 0 <= r < dshape.Length0 && 0 <= k < dshape.Length1 && !(Owned(r, Dirs(el), NDof(el)) && k < m) ==>
        dshape[r, k] == old(dshape[r, k])
    {
      rows := NextSpecials(el, cache, pts, w, dshape, m, rows);
      m := m + 1;
    }
  }

  /** One pass of CalcDDSpecialShapeRule's loop: column m gets the values at point m; the earlier columns stay. */
  method NextSpecials(el: Element, cache: GppwBasisCache, pts: seq<seq<real>>, w: seq<real>, out: array2<real>, m: nat,
                      ghost rows: seq<seq<real>>) returns (ghost rows': seq<seq<real>>)
    requires Ready(el, cache) && el.dim <= 2 && Points(el, pts) && m < |pts| <= |w|
    requires Fits(NDof(el), Dirs(el), out.Length0) && |pts| <= out.Length1
    requires m > 0 ==> Cached(el, cache) && rows == Basis(el, cache)
    requires forall m' :: 0 <= m' < m ==>
      OutColumn(out, Dirs(el), el.dim, m', NDof(el)) == Specials(rows, el.dim + 1, el.ord, Local(pts[m'], el.center, el.size), w[m'], el.size)
    requires forall m', e :: 0 <= m' < m && 0 <= e < el.dim ==> OutColumn(out, Dirs(el), e, m', NDof(el)) == Zeros(NDof(el))
    modifies cache, out
    ensures Ready(el, cache) && Cached(el, cache) && rows' == Basis(el, cache)
    ensures old(Cached(el, cache)) ==> unchanged(cache)
    ensures forall m' :: 0 <= m' <= m ==>
      OutColumn(out, Dirs(el), el.dim, m', NDof(el)) == Specials(rows', el.dim + 1, el.ord, Local(pts[m'], el.center, el.size), w[m'], el.size)
    ensures forall m', e :: 0 <= m' <= m && 0 <= e < el.dim ==> OutColumn(out, Dirs(el), e, m', NDof(el)) == Zeros(NDof(el))
    ensures forall r, k :: 0 <= r < out.Length0 && 0 <= k < out.Length1 && !(k == m && Owned(r, Dirs(el), NDof(el))) ==>
      out[r, k] == old(out[r, k])
  {
    SpecialPoint(el, cache, pts[m], w[m], out, m);
    rows' := Basis(el, cache);
    forall m', e | 0 <= m' < m && 0 <= e <= el.dim
      ensures OutColumn(out, Dirs(el), e, m', NDof(el)) == old(OutColumn(out, Dirs(el), e, m', NDof(el)))
    {
      assert forall i :: 0 <= i < NDof(el) ==> OutColumn(out, Dirs(el), e, m', NDof(el))[i] == old(OutColumn(out, Dirs(el), e, m', NDof(el)))[i];
    }
  }
}
