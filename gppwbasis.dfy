/**
 * The basis matrix ("TB") of the generalized polynomial plane-wave element in
 * D = 1 or 2 space dimensions. Exponent tuples list the D spatial exponents
 * first and the time exponent last; column j of the dense basis belongs to the
 * tuple the index map sends to j. Rows 0..nbasis-1 start as unit vectors on
 * the tuples of time exponent 0 and 1; every tuple of time exponent 2 or more
 * is then filled by the recursion of the variable-coefficient wave operator.
 */
module GppwBasis {
  import opened Tuples
  import opened CsrMatrix

  /** A dense row-major coefficient matrix: entry (i, j) is data[i*width + j]. */
  datatype Mat = Gamma(height: nat, width: nat, data: seq<real>)

  /** The coefficient matrix gamma: height rows of width entries. */
  type Gamma = g: Mat | |g.data| == g.height * g.width witness Gamma(0, 0, [])

  /**
   * Every entry the build and the cache key read lies inside the matrix, and
   * gamma(0), which every recursion step divides by, is nonzero.
   */
  predicate GammaCovers(g: Gamma, ord: nat)
  {
    ord * ord <= |g.data| &&
    ord <= g.height + 1 && ord <= g.width + 1 &&
    (ord >= 2 ==> g.data[0] != 0.0)
  }

  /** The number of entries of a matrix of h rows of w entries, counted row by row. */
  function Cells(h: nat, w: nat): nat
  {
    if h == 0 then 0 else Cells(h - 1, w) + w
  }

  /** Entry (i, j) of a matrix of h rows of w entries lies among its entries. */
  lemma {:induction false} FlatIndex(i: nat, j: nat, h: nat, w: nat)
    requires i < h && j < w
    ensures i * w + j < Cells(h, w)
    decreases h
  {
    if i + 1 < h {
      FlatIndex(i, j, h - 1, w);
    } else {
      CellsIs(i, w);
    }
  }

  /** Counted row by row, h rows of w entries make h*w entries. */
  lemma {:induction false} CellsIs(h: nat, w: nat)
    ensures Cells(h, w) == h * w
  {
    if h > 0 {
      CellsIs(h - 1, w);
    }
  }

  /** gamma(i, j) */
  function G(g: Gamma, i: nat, j: nat): real
    requires i < g.height && j < g.width
  {
    FlatIndex(i, j, g.height, g.width);
    CellsIs(g.height, g.width);
    g.data[i * g.width + j]
  }

  /** gamma(0) */
  function G0(g: Gamma): real
    requires |g.data| > 0
  {
    g.data[0]
  }

  /**
   * Everything TB works on: the space dimension, the order, the coefficient
   * matrix and the index map from exponent tuples to monomial positions.
   */
  datatype Setting = Setting(dim: nat, ord: nat, g: Gamma, im: seq<nat> -> nat)

  /** The index map numbers the tuples in the order the monomial loops visit them. */
  predicate IsIndexMap(im: seq<nat> -> nat, n: nat, ord: nat)
  {
    forall p :: 0 <= p < |Enum(n, ord)| ==> im(Enum(n, ord)[p]) == p
  }

  /** npoly = BinCoeff(D+1 + ord, ord), the number of monomials of degree at most ord in D+1 variables. */
  function NPoly(s: Setting): nat
  {
    Choose(s.dim + 1 + s.ord, s.ord)
  }

  /** Every monomial of the element has a column of the dense basis... */
  ghost predicate ColumnsFit(s: Setting)
  {
    forall u {:trigger s.im(u)} :: |u| == s.dim + 1 && Sum(u) <= s.ord ==> s.im(u) < NPoly(s)
  }

  /** ... and no two share one. */
  ghost predicate ColumnsDistinct(s: Setting)
  {
    forall u, v {:trigger s.im(u), s.im(v)} :: |u| == s.dim + 1 && Sum(u) <= s.ord && |v| == s.dim + 1 && Sum(v) <= s.ord && s.im(u) == s.im(v) ==> u == v
  }

  /**
   * What TB needs of its setting. The build only relies on each monomial
   * having a column of its own; IndexMapColumns shows the index map supplies that.
   */
  ghost predicate ValidSetting(s: Setting)
  {
    (s.dim == 1 || s.dim == 2) && GammaCovers(s.g, s.ord) && ColumnsFit(s) && ColumnsDistinct(s)
  }

  /** The index map gives every monomial its own column among the npoly. */
  lemma IndexMapColumns(s: Setting)
    requires IsIndexMap(s.im, s.dim + 1, s.ord)
    ensures ColumnsFit(s) && ColumnsDistinct(s)
  {
    var e := Enum(s.dim + 1, s.ord);
    EnumLength(s.dim + 1, s.ord);
    forall u | |u| == s.dim + 1 && Sum(u) <= s.ord ensures s.im(u) < NPoly(s) && e[s.im(u)] == u {
      EnumMembers(s.dim + 1, s.ord, u);
      var p :| 0 <= p < |e| && e[p] == u;
    }
  }

  function NBasis(s: Setting): nat
  {
    SliceCount(s.dim, s.ord)
  }

  function Last(u: seq<nat>): nat
    requires |u| > 0
  {
    u[|u| - 1]
  }

  /** A tuple of the right length and degree: one monomial of the element. */
  predicate Valid(s: Setting, u: seq<nat>)
  {
    |u| == s.dim + 1 && Sum(u) <= s.ord
  }

  /** Monomials of time exponent 0 or 1, the seeded ones. */
  predicate SeedCell(s: Setting, u: seq<nat>)
  {
    Valid(s, u) && Last(u) < 2
  }

  /** Monomials of time exponent 2 or more, the ones the recursion fills. */
  predicate Target(s: Setting, u: seq<nat>)
  {
    Valid(s, u) && Last(u) >= 2
  }

  lemma IndexMapPosition(s: Setting, u: seq<nat>)
    requires ValidSetting(s) && Valid(s, u)
    ensures s.im(u) < NPoly(s)
  {
  }

  /** Distinct monomials occupy distinct columns. */
  lemma IndexMapInjective(s: Setting, u: seq<nat>, v: seq<nat>)
    requires ValidSetting(s) && Valid(s, u) && Valid(s, v) && u != v
    ensures s.im(u) != s.im(v)
  {
  }

  /** The coefficient of monomial u in a basis row. */
  function Coef(s: Setting, r: seq<real>, u: seq<nat>): real
    requires ValidSetting(s) && |r| == NPoly(s) && Valid(s, u)
  {
    IndexMapPosition(s, u);
    r[s.im(u)]
  }

  lemma Sum2(a: nat, b: nat)
    ensures Sum([a, b]) == a + b
  {
    var u := [a, b];
    assert u[1..] == [b];
    assert [b][1..] == [];
    assert Sum([b]) == b + Sum([b][1..]);
    assert Sum(u) == u[0] + Sum(u[1..]);
  }

  lemma Sum3(a: nat, b: nat, c: nat)
    ensures Sum([a, b, c]) == a + b + c
  {
    var u := [a, b, c];
    assert u[1..] == [b, c];
    Sum2(b, c);
    assert Sum(u) == u[0] + Sum(u[1..]);
  }

  // ---------------------------------------------------------------- D = 1

  /** (x+2)(x+1) / ((t+2)(t+1) gamma(0)) times the coefficient of (x+2, t). */
  function Lead1(s: Setting, r: seq<real>, x: nat, t: nat): real
    requires ValidSetting(s) && s.dim == 1 && |r| == NPoly(s) && x + t + 2 <= s.ord
  {
    Sum2(x + 2, t);
    ((x + 2) * (x + 1)) as real / (((t + 2) * (t + 1)) as real * G0(s.g)) * Coef(s, r, [x + 2, t])
  }

  /** gamma(x-betax, 0) times the coefficient of (betax, t+2), over gamma(0). */
  function Term1(s: Setting, r: seq<real>, x: nat, t: nat, betax: nat): real
    requires ValidSetting(s) && s.dim == 1 && |r| == NPoly(s) && x + t + 2 <= s.ord && betax < x
  {
    Sum2(betax, t + 2);
    G(s.g, x - betax, 0) * Coef(s, r, [betax, t + 2]) / G0(s.g)
  }

  /** The new coefficient, started at lead, after the corrections for betax < n have been subtracted. */
  function Sub1(s: Setting, r: seq<real>, x: nat, t: nat, lead: real, n: nat): real
    requires ValidSetting(s) && s.dim == 1 && |r| == NPoly(s) && x + t + 2 <= s.ord && n <= x
  {
    if n == 0 then lead else Sub1(s, r, x, t, lead, n - 1) - Term1(s, r, x, t, n - 1)
  }

  // ---------------------------------------------------------------- D = 2

  function Lead2(s: Setting, r: seq<real>, x: nat, y: nat, t: nat): real
    requires ValidSetting(s) && s.dim == 2 && |r| == NPoly(s) && x + y + t + 2 <= s.ord
  {
    Sum3(x + 2, y, t);
    Sum3(x, y + 2, t);
    ((x + 2) * (x + 1)) as real / (((t + 2) * (t + 1)) as real * G0(s.g)) * Coef(s, r, [x + 2, y, t]) +
    ((y + 2) * (y + 1)) as real / (((t + 2) * (t + 1)) as real * G0(s.g)) * Coef(s, r, [x, y + 2, t])
  }

  /** gamma(x, y) times the coefficient of (betax, betay, t+2), over gamma(0). */
  function Term2(s: Setting, r: seq<real>, x: nat, y: nat, t: nat, betax: nat, betay: nat): real
    requires ValidSetting(s) && s.dim == 2 && |r| == NPoly(s) && x + y + t + 2 <= s.ord
    requires betax <= x && betay <= y
  {
    Sum3(betax, betay, t + 2);
    G(s.g, x, y) * Coef(s, r, [betax, betay, t + 2]) / G0(s.g)
  }

  /** Number of betay values the inner loop visits for betax: 0 .. y - (betax == x). */
  function Lim(x: nat, y: nat, betax: nat): nat
  {
    if betax == x then y else y + 1
  }

  /** The new coefficient, started at lead, once every row betax' < betax of corrections is subtracted. */
  function OuterSub(s: Setting, r: seq<real>, x: nat, y: nat, t: nat, lead: real, betax: nat): real
    requires ValidSetting(s) && s.dim == 2 && |r| == NPoly(s) && x + y + t + 2 <= s.ord && betax <= x + 1
    decreases betax, 0
  {
    if betax == 0 then lead else InnerSub(s, r, x, y, t, lead, betax - 1, Lim(x, y, betax - 1))
  }

  /** ... and, in row betax, the corrections for betay < n. */
  function InnerSub(s: Setting, r: seq<real>, x: nat, y: nat, t: nat, lead: real, betax: nat, n: nat): real
    requires ValidSetting(s) && s.dim == 2 && |r| == NPoly(s) && x + y + t + 2 <= s.ord
    requires betax <= x && n <= Lim(x, y, betax)
    decreases betax, n + 1
  {
    if n == 0 then OuterSub(s, r, x, y, t, lead, betax)
    else InnerSub(s, r, x, y, t, lead, betax, n - 1) - Term2(s, r, x, y, t, betax, n - 1)
  }

  // ---------------------------------------------------------------- both

  /** The value the recursion assigns to target monomial c. */
  function New(s: Setting, r: seq<real>, c: seq<nat>): real
    requires ValidSetting(s) && |r| == NPoly(s) && Target(s, c)
  {
    if s.dim == 1 then
      assert c == [c[0], c[1]];
      Sum2(c[0], c[1]);
      Sub1(s, r, c[0], c[1] - 2, Lead1(s, r, c[0], c[1] - 2), c[0])
    else
      assert c == [c[0], c[1], c[2]];
      Sum3(c[0], c[1], c[2]);
      OuterSub(s, r, c[0], c[1], c[2] - 2, Lead2(s, r, c[0], c[1], c[2] - 2), c[0] + 1)
  }

  /** The recursion equation at target monomial c. */
  predicate Eq(s: Setting, r: seq<real>, c: seq<nat>)
    requires ValidSetting(s) && |r| == NPoly(s)
  {
    Target(s, c) ==> Coef(s, r, c) == New(s, r, c)
  }

  /** Monomial u comes before target c: seeded, of lower degree, or of equal degree and lower time exponent. */
  predicate Below(s: Setting, u: seq<nat>, c: seq<nat>)
    requires |c| > 0
  {
    Valid(s, u) && (Last(u) < 2 || Sum(u) < Sum(c) || (Sum(u) == Sum(c) && Last(u) < Last(c)))
  }

  ghost predicate Agree(s: Setting, r1: seq<real>, r2: seq<real>, c: seq<nat>)
    requires ValidSetting(s) && |r1| == NPoly(s) && |r2| == NPoly(s) && |c| > 0
  {
    forall u :: Below(s, u, c) ==> Coef(s, r1, u) == Coef(s, r2, u)
  }

  lemma Lead1Frame(s: Setting, r1: seq<real>, r2: seq<real>, x: nat, t: nat)
    requires ValidSetting(s) && s.dim == 1 && |r1| == NPoly(s) && |r2| == NPoly(s) && x + t + 2 <= s.ord
    requires Agree(s, r1, r2, [x, t + 2])
    ensures Lead1(s, r1, x, t) == Lead1(s, r2, x, t)
  {
    Sum2(x, t + 2);
    Sum2(x + 2, t);
    assert Below(s, [x + 2, t], [x, t + 2]);
  }

  lemma Term1Frame(s: Setting, r1: seq<real>, r2: seq<real>, x: nat, t: nat, betax: nat)
    requires ValidSetting(s) && s.dim == 1 && |r1| == NPoly(s) && |r2| == NPoly(s) && x + t + 2 <= s.ord && betax < x
    requires Agree(s, r1, r2, [x, t + 2])
    ensures Term1(s, r1, x, t, betax) == Term1(s, r2, x, t, betax)
  {
    Sum2(x, t + 2);
    Sum2(betax, t + 2);
    assert Below(s, [betax, t + 2], [x, t + 2]);
  }

  lemma {:induction false} Sub1Frame(s: Setting, r1: seq<real>, r2: seq<real>, x: nat, t: nat, lead: real, n: nat)
    requires ValidSetting(s) && s.dim == 1 && |r1| == NPoly(s) && |r2| == NPoly(s) && x + t + 2 <= s.ord && n <= x
    requires Agree(s, r1, r2, [x, t + 2])
    ensures Sub1(s, r1, x, t, lead, n) == Sub1(s, r2, x, t, lead, n)
  {
    if n > 0 {
      Sub1Frame(s, r1, r2, x, t, lead, n - 1);
      Term1Frame(s, r1, r2, x, t, n - 1);
    }
  }

  lemma Lead2Frame(s: Setting, r1: seq<real>, r2: seq<real>, x: nat, y: nat, t: nat)
    requires ValidSetting(s) && s.dim == 2 && |r1| == NPoly(s) && |r2| == NPoly(s) && x + y + t + 2 <= s.ord
    requires Agree(s, r1, r2, [x, y, t + 2])
    ensures Lead2(s, r1, x, y, t) == Lead2(s, r2, x, y, t)
  {
    Sum3(x, y, t + 2);
    Sum3(x + 2, y, t);
    Sum3(x, y + 2, t);
    assert Below(s, [x + 2, y, t], [x, y, t + 2]);
    assert Below(s, [x, y + 2, t], [x, y, t + 2]);
  }

  lemma Term2Frame(s: Setting, r1: seq<real>, r2: seq<real>, x: nat, y: nat, t: nat, betax: nat, betay: nat)
    requires ValidSetting(s) && s.dim == 2 && |r1| == NPoly(s) && |r2| == NPoly(s) && x + y + t + 2 <= s.ord
    requires betax <= x && betay < Lim(x, y, betax)
    requires Agree(s, r1, r2, [x, y, t + 2])
    ensures Term2(s, r1, x, y, t, betax, betay) == Term2(s, r2, x, y, t, betax, betay)
  {
    Sum3(x, y, t + 2);
    Sum3(betax, betay, t + 2);
    assert Below(s, [betax, betay, t + 2], [x, y, t + 2]);
  }

  lemma {:induction false} Sub2Frame(s: Setting, r1: seq<real>, r2: seq<real>, x: nat, y: nat, t: nat, lead: real, betax: nat, n: nat)
    requires ValidSetting(s) && s.dim == 2 && |r1| == NPoly(s) && |r2| == NPoly(s) && x + y + t + 2 <= s.ord
    requires betax <= x + 1 && (betax <= x ==> n <= Lim(x, y, betax))
    requires Agree(s, r1, r2, [x, y, t + 2])
    ensures betax <= x ==> InnerSub(s, r1, x, y, t, lead, betax, n) == InnerSub(s, r2, x, y, t, lead, betax, n)
    ensures OuterSub(s, r1, x, y, t, lead, betax) == OuterSub(s, r2, x, y, t, lead, betax)
    decreases betax, n
  {
    if betax > 0 {
      Sub2Frame(s, r1, r2, x, y, t, lead, betax - 1, Lim(x, y, betax - 1));
    }
    if betax <= x && n > 0 {
      Sub2Frame(s, r1, r2, x, y, t, lead, betax, n - 1);
      Term2Frame(s, r1, r2, x, y, t, betax, n - 1);
    }
  }

  /** The new coefficient of (x, t+2) in one dimension, unfolded. */
  lemma NewAt1(s: Setting, r: seq<real>, x: nat, t: nat)
    requires ValidSetting(s) && s.dim == 1 && |r| == NPoly(s) && x + t + 2 <= s.ord
    ensures Target(s, [x, t + 2]) && New(s, r, [x, t + 2]) == Sub1(s, r, x, t, Lead1(s, r, x, t), x)
  {
    Sum2(x, t + 2);
    assert [x, t + 2][1] - 2 == t;
  }

  /** The new coefficient of (x, y, t+2) in two dimensions, unfolded. */
  lemma NewAt2(s: Setting, r: seq<real>, x: nat, y: nat, t: nat)
    requires ValidSetting(s) && s.dim == 2 && |r| == NPoly(s) && x + y + t + 2 <= s.ord
    ensures Target(s, [x, y, t + 2]) && New(s, r, [x, y, t + 2]) == OuterSub(s, r, x, y, t, Lead2(s, r, x, y, t), x + 1)
  {
    Sum3(x, y, t + 2);
    assert [x, y, t + 2][2] - 2 == t;
  }

  lemma NewFrame1(s: Setting, r1: seq<real>, r2: seq<real>, x: nat, t: nat)
    requires ValidSetting(s) && s.dim == 1 && |r1| == NPoly(s) && |r2| == NPoly(s) && x + t + 2 <= s.ord
    requires Agree(s, r1, r2, [x, t + 2])
    ensures Target(s, [x, t + 2]) && New(s, r1, [x, t + 2]) == New(s, r2, [x, t + 2])
  {
    NewAt1(s, r1, x, t);
    NewAt1(s, r2, x, t);
    Lead1Frame(s, r1, r2, x, t);
    Sub1Frame(s, r1, r2, x, t, Lead1(s, r1, x, t), x);
  }

  lemma NewFrame2(s: Setting, r1: seq<real>, r2: seq<real>, x: nat, y: nat, t: nat)
    requires ValidSetting(s) && s.dim == 2 && |r1| == NPoly(s) && |r2| == NPoly(s) && x + y + t + 2 <= s.ord
    requires Agree(s, r1, r2, [x, y, t + 2])
    ensures Target(s, [x, y, t + 2]) && New(s, r1, [x, y, t + 2]) == New(s, r2, [x, y, t + 2])
  {
    NewAt2(s, r1, x, y, t);
    NewAt2(s, r2, x, y, t);
    Lead2Frame(s, r1, r2, x, y, t);
    Sub2Frame(s, r1, r2, x, y, t, Lead2(s, r1, x, y, t), x + 1, 0);
  }

  /** The recursion value at c depends only on the monomials below c. */
  lemma NewFrame(s: Setting, r1: seq<real>, r2: seq<real>, c: seq<nat>)
    requires ValidSetting(s) && |r1| == NPoly(s) && |r2| == NPoly(s) && Target(s, c)
    requires Agree(s, r1, r2, c)
    ensures New(s, r1, c) == New(s, r2, c)
  {
    if s.dim == 1 {
      Sum2(c[0], c[1]);
      assert c == [c[0], c[1] - 2 + 2];
      NewFrame1(s, r1, r2, c[0], c[1] - 2);
    } else {
      Sum3(c[0], c[1], c[2]);
      assert c == [c[0], c[1], c[2] - 2 + 2];
      NewFrame2(s, r1, r2, c[0], c[1], c[2] - 2);
    }
  }

  /**
   * The seeds and the recursion determine a row: two rows that agree on every
   * seeded monomial and both satisfy the equation at every target agree on
   * every monomial. Induction along the order (degree, time exponent).
   */
  lemma {:induction false} DeterminedAt(s: Setting, r1: seq<real>, r2: seq<real>, c: seq<nat>)
    requires ValidSetting(s) && |r1| == NPoly(s) && |r2| == NPoly(s) && Valid(s, c)
    requires forall u :: SeedCell(s, u) ==> Coef(s, r1, u) == Coef(s, r2, u)
    requires forall u :: Target(s, u) ==> Eq(s, r1, u) && Eq(s, r2, u)
    ensures Coef(s, r1, c) == Coef(s, r2, c)
    decreases Sum(c), Last(c)
  {
    if Last(c) >= 2 {
      forall u | Below(s, u, c) ensures Coef(s, r1, u) == Coef(s, r2, u) {
        if Last(u) >= 2 {
          DeterminedAt(s, r1, r2, u);
        }
      }
      assert Agree(s, r1, r2, c);
      NewFrame(s, r1, r2, c);
      assert Eq(s, r1, c) && Eq(s, r2, c);
    }
  }

  /** Keys (degree, time exponent), compared lexicographically. */
  predicate KeyLess(u: seq<nat>, c: seq<nat>)
    requires |u| > 0 && |c| > 0
  {
    Sum(u) < Sum(c) || (Sum(u) == Sum(c) && Last(u) < Last(c))
  }

  /**
   * Writing the recursion value at target n establishes the equation at n and
   * keeps it at every target c that n does not come before.
   */
  lemma WriteStep(s: Setting, r: seq<real>, n: seq<nat>, c: seq<nat>)
    requires ValidSetting(s) && |r| == NPoly(s) && Target(s, n) && Target(s, c)
    requires c == n || (!KeyLess(n, c) && Eq(s, r, c))
    ensures s.im(n) < |r|
    ensures Eq(s, r[s.im(n) := New(s, r, n)], c)
  {
    IndexMapPosition(s, n);
    var v := New(s, r, n);
    var r' := r[s.im(n) := v];
    WriteAgrees(s, r, n, c, v);
    NewFrame(s, r, r', c);
    if c != n {
      IndexMapInjective(s, c, n);
      IndexMapPosition(s, c);
      assert Coef(s, r', c) == Coef(s, r, c);
    } else {
      assert Coef(s, r', n) == v;
    }
  }

  /** A write at target n leaves every monomial below c unchanged when n is not below c. */
  lemma WriteAgrees(s: Setting, r: seq<real>, n: seq<nat>, c: seq<nat>, v: real)
    requires ValidSetting(s) && |r| == NPoly(s) && Target(s, n) && Target(s, c)
    requires c == n || !KeyLess(n, c)
    ensures s.im(n) < |r|
    ensures Agree(s, r, r[s.im(n) := v], c)
  {
    IndexMapPosition(s, n);
    var r' := r[s.im(n) := v];
    forall u | Below(s, u, c) ensures Coef(s, r, u) == Coef(s, r', u) {
      assert u != n;
      IndexMapInjective(s, u, n);
      IndexMapPosition(s, u);
    }
  }
}
