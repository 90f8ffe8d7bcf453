/**
 * The imperative side of TB: the dense matrix is zeroed, the seed rows are
 * written by the triple loop over (t, x, y), every row is filled by the
 * recursion loops, the result is compressed, and the compressed matrix is kept
 * in a store keyed by the order and the leading coefficients.
 */
module GppwBuild {
  import opened Tuples
  import opened CsrMatrix
  import opened GppwBasis

  /** Append the time exponent t to every spatial tuple. */
  function Snoc(t: nat, ts: seq<seq<nat>>): (r: seq<seq<nat>>)
    ensures |r| == |ts| && forall k :: 0 <= k < |ts| ==> r[k] == ts[k] + [t]
  {
    seq(|ts|, k requires 0 <= k < |ts| => ts[k] + [t])
  }

  lemma SnocAppend(t: nat, a: seq<seq<nat>>, b: seq<seq<nat>>)
    ensures Snoc(t, a + b) == Snoc(t, a) + Snoc(t, b)
  {
  }

  /** The seeded monomials in the order the seed loop visits them: time 0 first, then time 1. */
  function SeedOrder(s: Setting): seq<seq<nat>>
  {
    Snoc(0, Enum(s.dim, s.ord)) + if s.ord >= 1 then Snoc(1, Enum(s.dim, s.ord - 1)) else []
  }

  predicate Distinct(ts: seq<seq<nat>>)
  {
    forall p, q :: 0 <= p < q < |ts| ==> ts[p] != ts[q]
  }

  lemma SnocMember(t: nat, ts: seq<seq<nat>>, u: seq<nat>)
    ensures u in Snoc(t, ts) <==> (|u| > 0 && u[|u| - 1] == t && u[..|u| - 1] in ts)
  {
    if |u| > 0 && u[|u| - 1] == t && u[..|u| - 1] in ts {
      var k :| 0 <= k < |ts| && ts[k] == u[..|u| - 1];
      assert Snoc(t, ts)[k] == u;
    }
    if u in Snoc(t, ts) {
      var k :| 0 <= k < |ts| && Snoc(t, ts)[k] == u;
      assert u[..|u| - 1] == ts[k];
    }
  }

  lemma SnocDistinct(t: nat, ts: seq<seq<nat>>)
    requires Distinct(ts)
    ensures Distinct(Snoc(t, ts))
  {
    var r := Snoc(t, ts);
    forall p, q | 0 <= p < q < |r| ensures r[p] != r[q] {
      assert r[p][..|r[p]| - 1] == ts[p] && r[q][..|r[q]| - 1] == ts[q];
    }
  }

  lemma SeedOrderLength(s: Setting)
    ensures |SeedOrder(s)| == NBasis(s)
  {
  }

  /** The seed order holds exactly the monomials of time exponent 0 or 1. */
  lemma SeedOrderMembers(s: Setting, u: seq<nat>)
    requires ValidSetting(s)
    ensures u in SeedOrder(s) <==> SeedCell(s, u)
  {
    var e0 := Enum(s.dim, s.ord);
    var e1 := if s.ord >= 1 then Enum(s.dim, s.ord - 1) else [];
    assert SeedOrder(s) == Snoc(0, e0) + Snoc(1, e1);
    SnocMember(0, e0, u);
    SnocMember(1, e1, u);
    if |u| > 0 {
      var sp := u[..|u| - 1];
      assert u == sp + [u[|u| - 1]];
      SumSnoc(sp, u[|u| - 1]);
      EnumMembers(s.dim, s.ord, sp);
      if s.ord >= 1 {
        EnumMembers(s.dim, s.ord - 1, sp);
      }
    }
  }

  /** The seed order lists no monomial twice. */
  lemma SeedOrderDistinct(s: Setting)
    ensures Distinct(SeedOrder(s))
  {
    var e0 := Enum(s.dim, s.ord);
    var e1 := if s.ord >= 1 then Enum(s.dim, s.ord - 1) else [];
    var so := Snoc(0, e0) + Snoc(1, e1);
    assert SeedOrder(s) == so;
    EnumDistinct(s.dim, s.ord);
    assert Distinct(e0);
    SnocDistinct(0, e0);
    if s.ord >= 1 {
      EnumDistinct(s.dim, s.ord - 1);
    }
    assert Distinct(e1);
    SnocDistinct(1, e1);
    forall p, q | 0 <= p < q < |so| ensures so[p] != so[q] {
      if q < |e0| {
        assert so[p] == Snoc(0, e0)[p] && so[q] == Snoc(0, e0)[q];
      } else if p >= |e0| {
        assert so[p] == Snoc(1, e1)[p - |e0|] && so[q] == Snoc(1, e1)[q - |e0|];
      } else {
        assert so[p][|so[p]| - 1] == 0 && so[q][|so[q]| - 1] == 1;
      }
    }
  }

  /** The spatial tails the y loop still visits at fixed x, for a remaining degree budget k. */
  function Inner(dim: nat, k: nat, y: nat): seq<seq<nat>>
  {
    if dim == 1 then (if y == 0 then [[]] else []) else EnumFrom(1, k, y)
  }

  /** The spatial tuples the x and y loops still visit, from (x, y) on, for degree budget r. */
  function SliceRest(dim: nat, r: nat, x: nat, y: nat): seq<seq<nat>>
    requires dim >= 1 && x <= r
  {
    Cons(x, Inner(dim, r - x, y)) + EnumFrom(dim, r, x + 1)
  }

  lemma SliceRestStart(dim: nat, r: nat)
    requires dim == 1 || dim == 2
    ensures SliceRest(dim, r, 0, 0) == Enum(dim, r)
  {
    assert Inner(dim, r, 0) == Enum(dim - 1, r);
  }

  /** The last y the seed loop visits: ord-x-t in two dimensions, 0 in one. */
  function YMax(dim: nat, k: nat): nat
  {
    if dim == 2 then k else 0
  }

  /** The spatial tuple of a seed loop position. */
  function Spatial(dim: nat, x: nat, y: nat): seq<nat>
  {
    if dim == 1 then [x] else [x, y]
  }

  lemma InnerStep(dim: nat, k: nat, y: nat)
    requires (dim == 1 || dim == 2) && y <= YMax(dim, k)
    ensures Inner(dim, k, y) == [if dim == 1 then [] else [y]] + Inner(dim, k, y + 1)
  {
    if dim == 2 {
      var c := Cons(y, Enum(0, k - y));
      assert |c| == 1 && c[0] == [y];
      assert EnumFrom(1, k, y) == c + EnumFrom(1, k, y + 1);
    }
  }

  /** One y iteration visits the spatial tuple (x) or (x, y). */
  lemma SliceRestStep(dim: nat, r: nat, x: nat, y: nat)
    requires (dim == 1 || dim == 2) && x <= r && y <= YMax(dim, r - x)
    ensures SliceRest(dim, r, x, y) == [Spatial(dim, x, y)] + SliceRest(dim, r, x, y + 1)
  {
    var tail: seq<nat> := if dim == 1 then [] else [y];
    var rest := Inner(dim, r - x, y + 1);
    var e := EnumFrom(dim, r, x + 1);
    InnerStep(dim, r - x, y);
    assert SliceRest(dim, r, x, y) == Cons(x, [tail] + rest) + e;
    ConsAppend(x, [tail], rest);
    var c := Cons(x, [tail]);
    assert |c| == 1 && c[0] == [x] + tail;
    assert [x] + tail == Spatial(dim, x, y);
    assert c == [Spatial(dim, x, y)];
    assert (c + Cons(x, rest)) + e == c + (Cons(x, rest) + e);
  }

  /** Past the last y, the loops go on with x+1, or stop after x = r. */
  lemma SliceRestNext(dim: nat, r: nat, x: nat, y: nat)
    requires (dim == 1 || dim == 2) && x <= r && y > YMax(dim, r - x)
    ensures x + 1 <= r ==> SliceRest(dim, r, x, y) == SliceRest(dim, r, x + 1, 0)
    ensures x + 1 > r ==> SliceRest(dim, r, x, y) == []
  {
    assert Inner(dim, r - x, y) == [];
    assert Cons(x, []) == [];
    if x + 1 <= r {
      assert Inner(dim, r - x - 1, 0) == Enum(dim - 1, r - (x + 1));
    }
  }

  /**
   * The monomials the seed loops visit from loop position (t, x, y) on, in
   * visiting order; `SeedFrom(s, 0, 0, 0)` is the whole seeding.
   */
  function SeedFrom(s: Setting, t: nat, x: nat, y: nat): seq<seq<nat>>
    decreases 2 - t, s.ord + 1 - x, if x + t <= s.ord then YMax(s.dim, s.ord - x - t) + 1 - y else 0
  {
    if t >= 2 then []
    else if x + t > s.ord then SeedFrom(s, t + 1, 0, 0)
    else if y > YMax(s.dim, s.ord - x - t) then SeedFrom(s, t, x + 1, 0)
    else [Spatial(s.dim, x, y) + [t]] + SeedFrom(s, t, x, y + 1)
  }

  /** Prepending one visited monomial to a slice of time exponent t. */
  lemma SnocCons(t: nat, h: seq<nat>, rest: seq<seq<nat>>, after: seq<seq<nat>>)
    ensures [h + [t]] + (Snoc(t, rest) + after) == Snoc(t, [h] + rest) + after
  {
    SnocAppend(t, [h], rest);
    assert Snoc(t, [h]) == [h + [t]];
  }

  /** From (t, x, y) on, the loops finish the slice of time exponent t, then go on with t+1. */
  lemma {:induction false} SeedFromSlice(s: Setting, t: nat, x: nat, y: nat)
    requires (s.dim == 1 || s.dim == 2) && t < 2 && x + t <= s.ord
    ensures SeedFrom(s, t, x, y) == Snoc(t, SliceRest(s.dim, s.ord - t, x, y)) + SeedFrom(s, t + 1, 0, 0)
    decreases s.ord + 1 - x, YMax(s.dim, s.ord - x - t) + 1 - y
  {
    var r: nat := s.ord - t;
    if y > YMax(s.dim, r - x) {
      assert SeedFrom(s, t, x, y) == SeedFrom(s, t, x + 1, 0);
      SliceRestNext(s.dim, r, x, y);
      if x + 1 <= r {
        SeedFromSlice(s, t, x + 1, 0);
      } else {
        assert SeedFrom(s, t, x + 1, 0) == SeedFrom(s, t + 1, 0, 0);
        assert Snoc(t, []) == [];
      }
    } else {
      assert SeedFrom(s, t, x, y) == [Spatial(s.dim, x, y) + [t]] + SeedFrom(s, t, x, y + 1);
      SliceRestStep(s.dim, r, x, y);
      SeedFromSlice(s, t, x, y + 1);
      SnocCons(t, Spatial(s.dim, x, y), SliceRest(s.dim, r, x, y + 1), SeedFrom(s, t + 1, 0, 0));
    }
  }

  /** The loops visit the seeded monomials in the seed order. */
  lemma SeedFromOrder(s: Setting)
    requires s.dim == 1 || s.dim == 2
    ensures SeedFrom(s, 0, 0, 0) == SeedOrder(s)
  {
    SliceRestStart(s.dim, s.ord);
    SeedFromSlice(s, 0, 0, 0);
    if s.ord >= 1 {
      SliceRestStart(s.dim, s.ord - 1);
      SeedFromSlice(s, 1, 0, 0);
    }
    assert SeedFrom(s, 2, 0, 0) == [];
  }

  /** Row b of the dense matrix. */
  function Row(m: array2<real>, b: nat): (r: seq<real>)
    reads m
    requires b < m.Length0
    ensures |r| == m.Length1 && forall c :: 0 <= c < m.Length1 ==> r[c] == m[b, c]
  {
    seq(m.Length1, c requires 0 <= c < m.Length1 reads m => m[b, c])
  }

  /** All rows of the dense matrix. */
  function Rows(m: array2<real>): (a: seq<seq<real>>)
    reads m
    ensures |a| == m.Length0 && forall b :: 0 <= b < m.Length0 ==> a[b] == Row(m, b)
  {
    seq(m.Length0, b requires 0 <= b < m.Length0 reads m => Row(m, b))
  }

  /** The seeding: row b holds 1 at the column of the b-th seeded monomial and 0 elsewhere. */
  ghost predicate Seeded(s: Setting, m: array2<real>, so: seq<seq<nat>>, nrows: nat)
    reads m
  {
    nrows <= |so| && forall b, c :: 0 <= b < m.Length0 && 0 <= c < m.Length1 ==>
      m[b, c] == if b < nrows && c == s.im(so[b]) then 1.0 else 0.0
  }

  /**
   * The seed loops of TB: for t in {0, 1} and x in 0..ord-t, SeedLine runs the
   * y loop; each visited monomial gets row basisn++ with a 1 at its column.
   */
  method Seed(s: Setting, m: array2<real>)
    requires ValidSetting(s) && m.Length0 == NBasis(s) && m.Length1 == NPoly(s)
    requires forall b, c :: 0 <= b < m.Length0 && 0 <= c < m.Length1 ==> m[b, c] == 0.0
    modifies m
    ensures Seeded(s, m, SeedOrder(s), m.Length0)
  {
    ghost var so := SeedFrom(s, 0, 0, 0);
    var basisn: nat := 0;
    var t := 0;
    while t < 2
      invariant t <= 2 && Seeded(s, m, so, basisn)
      invariant so[basisn..] == SeedFrom(s, t, 0, 0)
    {
      var x := 0;
      while x <= s.ord - t
        invariant Seeded(s, m, so, basisn)
        invariant so[basisn..] == SeedFrom(s, t, x, 0)
      {
        basisn := SeedLine(s, m, so, t, x, basisn);
        x := x + 1;
      }
      t := t + 1;
    }
    SeedDone(s, m, so, basisn);
  }

  /** The y loop of the seeding, over 0..(ord-x-t)*(D==2), for the monomials (x, t) or (x, y, t). */
  method SeedLine(s: Setting, m: array2<real>, ghost so: seq<seq<nat>>, t: nat, x: nat, basisn: nat)
      returns (next: nat)
    requires ValidSetting(s) && m.Length0 == NBasis(s) && m.Length1 == NPoly(s) && so == SeedFrom(s, 0, 0, 0)
    requires t < 2 && x + t <= s.ord
    requires Seeded(s, m, so, basisn) && so[basisn..] == SeedFrom(s, t, x, 0)
    modifies m
    ensures Seeded(s, m, so, next) && so[next..] == SeedFrom(s, t, x + 1, 0)
  {
    next := basisn;
    var y := 0;
    // the bound (ord - x - t) * (D == 2)
    while y <= YMax(s.dim, s.ord - x - t)
      invariant next <= |so| && Seeded(s, m, so, next)
      invariant so[next..] == SeedFrom(s, t, x, y)
    {
      var index: seq<nat> := if s.dim == 1 then [x, t] else [x, y, t];
      SeedStep(s, t, x, y, so, next);
      SeedWrite(s, m, so, next, index);
      next := next + 1;
      y := y + 1;
    }
    assert SeedFrom(s, t, x, y) == SeedFrom(s, t, x + 1, 0);
  }

  /** The loop position (t, x, y) visits the monomial (x, t) or (x, y, t), then moves on to (t, x, y+1). */
  lemma SeedStep(s: Setting, t: nat, x: nat, y: nat, so: seq<seq<nat>>, next: nat)
    requires t < 2 && x + t <= s.ord && y <= YMax(s.dim, s.ord - x - t)
    requires next <= |so| && so[next..] == SeedFrom(s, t, x, y)
    ensures next < |so| && so[next] == (if s.dim == 1 then [x, t] else [x, y, t])
    ensures so[next + 1..] == SeedFrom(s, t, x, y + 1)
  {
    var index: seq<nat> := if s.dim == 1 then [x, t] else [x, y, t];
    assert Spatial(s.dim, x, y) + [t] == index;
    SuffixStep(so, next, index, SeedFrom(s, t, x, y + 1));
  }

  lemma SeedDone(s: Setting, m: array2<real>, so: seq<seq<nat>>, basisn: nat)
    requires s.dim == 1 || s.dim == 2
    requires so == SeedFrom(s, 0, 0, 0) && m.Length0 == NBasis(s)
    requires Seeded(s, m, so, basisn) && so[basisn..] == SeedFrom(s, 2, 0, 0)
    ensures Seeded(s, m, SeedOrder(s), m.Length0)
  {
    SeedFromOrder(s);
    SeedOrderLength(s);
    assert so[basisn..] == [];
  }

  lemma SuffixStep(so: seq<seq<nat>>, k: nat, head: seq<nat>, rest: seq<seq<nat>>)
    requires k <= |so| && so[k..] == [head] + rest
    ensures k < |so| && so[k] == head && so[k + 1..] == rest
  {
    assert so[k..][0] == so[k];
    assert so[k + 1..] == so[k..][1..];
  }

  /** `gppwbasis(basisn++, IndexMap2(index, ord)) = 1` for the next seeded monomial. */
  method SeedWrite(s: Setting, m: array2<real>, ghost so: seq<seq<nat>>, basisn: nat, index: seq<nat>)
    requires ValidSetting(s) && m.Length0 == NBasis(s) && m.Length1 == NPoly(s) && so == SeedFrom(s, 0, 0, 0)
    requires basisn < |so| && so[basisn] == index
    requires Seeded(s, m, so, basisn)
    modifies m
    ensures Seeded(s, m, so, basisn + 1)
  {
    SeedFromOrder(s);
    SeedOrderLength(s);
    SeedOrderMembers(s, index);
    IndexMapPosition(s, index);
    m[basisn, s.im(index)] := 1.0;
  }

  // ---------------------------------------------------------------- the recursion loops

  /**
   * Target c has been handled once the loops are at (ell, t, x): its degree
   * minus 2 is below ell, or equal with time exponent minus 2 below t, or
   * both equal with first exponent below x.
   */
  predicate Processed(c: seq<nat>, ell: int, t: int, x: int)
    requires |c| > 0
  {
    Sum(c) - 2 < ell || (Sum(c) - 2 == ell && (Last(c) - 2 < t || (Last(c) - 2 == t && c[0] < x)))
  }

  /** The recursion equation holds at every target already handled. */
  ghost predicate RowDone(s: Setting, r: seq<real>, ell: int, t: int, x: int)
    requires ValidSetting(s) && |r| == NPoly(s)
  {
    forall c :: Target(s, c) && Processed(c, ell, t, x) ==> Eq(s, r, c)
  }

  /** Every seeded coefficient of r is that of r0. */
  ghost predicate SeedsKept(s: Setting, r: seq<real>, r0: seq<real>)
    requires ValidSetting(s) && |r| == NPoly(s) && |r0| == NPoly(s)
  {
    forall u :: SeedCell(s, u) ==> Coef(s, r, u) == Coef(s, r0, u)
  }

  /**
   * Writing the recursion value at n, whose key is (ell+2, t+2), moves the
   * loops from (ell, t, x) on to (ell, t', x') when n is the only target
   * between the two positions.
   */
  lemma Advance(s: Setting, r: seq<real>, n: seq<nat>, ell: int, t: int, x: int, t': int, x': int)
    requires ValidSetting(s) && |r| == NPoly(s) && Target(s, n) && Sum(n) - 2 == ell && Last(n) - 2 == t
    requires RowDone(s, r, ell, t, x)
    requires forall c :: Target(s, c) && Processed(c, ell, t', x') ==> Processed(c, ell, t, x) || c == n
    ensures s.im(n) < |r| && RowDone(s, r[s.im(n) := New(s, r, n)], ell, t', x')
  {
    IndexMapPosition(s, n);
    forall c | Target(s, c) && Processed(c, ell, t', x') ensures Eq(s, r[s.im(n) := New(s, r, n)], c) {
      WriteStep(s, r, n, c);
    }
  }

  /** A write at a target keeps every seeded coefficient. */
  lemma WriteKeepsSeeds(s: Setting, r: seq<real>, r0: seq<real>, n: seq<nat>, v: real)
    requires ValidSetting(s) && |r| == NPoly(s) && |r0| == NPoly(s) && Target(s, n)
    requires SeedsKept(s, r, r0)
    ensures s.im(n) < |r| && SeedsKept(s, r[s.im(n) := v], r0)
  {
    IndexMapPosition(s, n);
    forall u | SeedCell(s, u) ensures Coef(s, r[s.im(n) := v], u) == Coef(s, r0, u) {
      IndexMapInjective(s, u, n);
      IndexMapPosition(s, u);
    }
  }

  /** In one dimension the only target of key (ell+2, t+2) is (ell-t, t+2). */
  lemma Step1(s: Setting, ell: nat, t: nat)
    requires ValidSetting(s) && s.dim == 1 && t <= ell && ell + 2 <= s.ord
    ensures Target(s, [ell - t, t + 2]) && Sum([ell - t, t + 2]) - 2 == ell
    ensures forall c :: Target(s, c) && Processed(c, ell, t + 1, 0) ==> Processed(c, ell, t, 0) || c == [ell - t, t + 2]
  {
    Sum2(ell - t, t + 2);
    forall c | Target(s, c) && Processed(c, ell, t + 1, 0) && !Processed(c, ell, t, 0) ensures c == [ell - t, t + 2] {
      assert c == [c[0], c[1]];
      Sum2(c[0], c[1]);
    }
  }

  /** In two dimensions the target of key (ell+2, t+2) and first exponent x is (x, ell-t-x, t+2). */
  lemma Step2(s: Setting, ell: nat, t: nat, x: nat)
    requires ValidSetting(s) && s.dim == 2 && t + x <= ell && ell + 2 <= s.ord
    ensures Target(s, [x, ell - t - x, t + 2]) && Sum([x, ell - t - x, t + 2]) - 2 == ell
    ensures forall c :: Target(s, c) && Processed(c, ell, t, x + 1) ==> Processed(c, ell, t, x) || c == [x, ell - t - x, t + 2]
  {
    Sum3(x, ell - t - x, t + 2);
    forall c | Target(s, c) && Processed(c, ell, t, x + 1) && !Processed(c, ell, t, x) ensures c == [x, ell - t - x, t + 2] {
      assert c == [c[0], c[1], c[2]];
      Sum3(c[0], c[1], c[2]);
    }
  }

  /** The first exponent of a target is at most its degree minus its time exponent. */
  lemma FirstBound(s: Setting, c: seq<nat>)
    requires Target(s, c) && (s.dim == 1 || s.dim == 2)
    ensures c[0] + Last(c) <= Sum(c)
  {
    if s.dim == 1 {
      assert c == [c[0], c[1]];
      Sum2(c[0], c[1]);
    } else {
      assert c == [c[0], c[1], c[2]];
      Sum3(c[0], c[1], c[2]);
    }
  }

  /** Past the last first exponent, ell - t, the loops go on with t+1 (in two dimensions). */
  lemma NextT(s: Setting, r: seq<real>, ell: int, t: int)
    requires ValidSetting(s) && |r| == NPoly(s) && RowDone(s, r, ell, t, ell - t + 1)
    ensures RowDone(s, r, ell, t + 1, 0)
  {
    forall c | Target(s, c) && Processed(c, ell, t + 1, 0) ensures Processed(c, ell, t, ell - t + 1) {
      FirstBound(s, c);
    }
  }

  /** Past the last time exponent, ell, the loops go on with ell+1. */
  lemma NextEll(s: Setting, r: seq<real>, ell: int)
    requires ValidSetting(s) && |r| == NPoly(s) && RowDone(s, r, ell, ell + 1, 0)
    ensures RowDone(s, r, ell + 1, 0, 0)
  {
    forall c | Target(s, c) && Processed(c, ell + 1, 0, 0) ensures Processed(c, ell, ell + 1, 0) {
      FirstBound(s, c);
    }
  }

  /** Once ell reaches ord-1 every target has been handled. */
  lemma AllDone(s: Setting, r: seq<real>)
    requires ValidSetting(s) && |r| == NPoly(s) && RowDone(s, r, s.ord - 1, 0, 0)
    ensures forall c :: Target(s, c) ==> Eq(s, r, c)
  {
    forall c | Target(s, c) ensures Eq(s, r, c) {
      assert Processed(c, s.ord - 1, 0, 0);
    }
  }

  /** Before the loops no target has been handled. */
  lemma NothingDone(s: Setting, r: seq<real>)
    requires ValidSetting(s) && |r| == NPoly(s)
    ensures RowDone(s, r, -1, 0, 0)
  {
    forall c | Target(s, c) ensures !Processed(c, -1, 0, 0) {
      FirstBound(s, c);
    }
  }

  /** The leading term of the one-dimensional recursion, from the coefficient a of (x+2, t). */
  lemma Lead1Value(s: Setting, r: seq<real>, x: nat, t: nat, a: real)
    requires ValidSetting(s) && s.dim == 1 && |r| == NPoly(s) && x + t + 2 <= s.ord
    requires s.im([x + 2, t]) < |r| && a == r[s.im([x + 2, t])]
    ensures ((x + 2) * (x + 1)) as real / (((t + 2) * (t + 1)) as real * G0(s.g)) * a == Lead1(s, r, x, t)
  {
  }

  /** Subtracting the correction for betax, from the coefficient a of (betax, t+2). */
  lemma Sub1Step(s: Setting, r: seq<real>, x: nat, t: nat, lead: real, betax: nat, v: real, a: real, gx: real, g0: real)
    requires ValidSetting(s) && s.dim == 1 && |r| == NPoly(s) && x + t + 2 <= s.ord && betax < x
    requires s.im([betax, t + 2]) < |r| && a == r[s.im([betax, t + 2])] && v == Sub1(s, r, x, t, lead, betax)
    requires gx == G(s.g, x - betax, 0) && g0 == G0(s.g)
    ensures v - gx * a / g0 == Sub1(s, r, x, t, lead, betax + 1)
  {
    Term1Value(s, r, x, t, betax, a, gx, g0);
    assert Sub1(s, r, x, t, lead, betax + 1) == v - Term1(s, r, x, t, betax);
  }

  /** The correction for betax, from the coefficient a of (betax, t+2). */
  lemma Term1Value(s: Setting, r: seq<real>, x: nat, t: nat, betax: nat, a: real, gx: real, g0: real)
    requires ValidSetting(s) && s.dim == 1 && |r| == NPoly(s) && x + t + 2 <= s.ord && betax < x
    requires s.im([betax, t + 2]) < |r| && a == r[s.im([betax, t + 2])]
    requires gx == G(s.g, x - betax, 0) && g0 == G0(s.g)
    ensures Term1(s, r, x, t, betax) == gx * a / g0
  {
    Sum2(betax, t + 2);
    assert Coef(s, r, [betax, t + 2]) == a;
  }

  /** The leading terms of the two-dimensional recursion, from the coefficients of (x+2, y, t) and (x, y+2, t). */
  lemma Lead2Value(s: Setting, r: seq<real>, x: nat, y: nat, t: nat, ax: real, ay: real)
    requires ValidSetting(s) && s.dim == 2 && |r| == NPoly(s) && x + y + t + 2 <= s.ord
    requires s.im([x + 2, y, t]) < |r| && ax == r[s.im([x + 2, y, t])]
    requires s.im([x, y + 2, t]) < |r| && ay == r[s.im([x, y + 2, t])]
    ensures ((x + 2) * (x + 1)) as real / (((t + 2) * (t + 1)) as real * G0(s.g)) * ax +
            ((y + 2) * (y + 1)) as real / (((t + 2) * (t + 1)) as real * G0(s.g)) * ay == Lead2(s, r, x, y, t)
  {
  }

  /** Subtracting the correction for (betax, betay), from the coefficient a of (betax, betay, t+2). */
  lemma InnerSubStep(s: Setting, r: seq<real>, x: nat, y: nat, t: nat, lead: real, betax: nat, betay: nat,
                     v: real, a: real, gxy: real, g0: real)
    requires ValidSetting(s) && s.dim == 2 && |r| == NPoly(s) && x + y + t + 2 <= s.ord
    requires betax <= x && betay < Lim(x, y, betax)
    requires s.im([betax, betay, t + 2]) < |r| && a == r[s.im([betax, betay, t + 2])]
    requires gxy == G(s.g, x, y) && g0 == G0(s.g)
    requires v == InnerSub(s, r, x, y, t, lead, betax, betay)
    ensures v - gxy * a / g0 == InnerSub(s, r, x, y, t, lead, betax, betay + 1)
  {
    Sum3(betax, betay, t + 2);
    assert Term2(s, r, x, y, t, betax, betay) == G(s.g, x, y) * a / G0(s.g);
  }

  /** The column of a monomial of the enumeration. */
  lemma Column(s: Setting, u: seq<nat>)
    requires ValidSetting(s) && Valid(s, u)
    ensures s.im(u) < NPoly(s)
  {
  }

  /** Row b of m is r. */
  ghost predicate IsRow(m: array2<real>, b: nat, r: seq<real>)
    reads m
  {
    b < m.Length0 && |r| == m.Length1 && forall j :: 0 <= j < m.Length1 ==> m[b, j] == r[j]
  }

  /** `*newcoeff = ...` for one dimension: the leading term, then every correction betax < x subtracted. */
  method Coefficient1(s: Setting, m: array2<real>, b: nat, x: nat, t: nat, ghost r: seq<real>) returns (v: real)
    requires ValidSetting(s) && s.dim == 1 && m.Length1 == NPoly(s) && IsRow(m, b, r) && x + t + 2 <= s.ord
    ensures Target(s, [x, t + 2]) && v == New(s, r, [x, t + 2])
  {
    v := Leading1(s, m, b, x, t, r);
    ghost var lead := v;
    var betax := 0;
    while betax < x
      invariant betax <= x && v == Sub1(s, r, x, t, lead, betax)
    {
      v := Correction1(s, m, b, x, t, r, lead, betax, v);
      betax := betax + 1;
    }
    NewAt1(s, r, x, t);
  }

  /** The leading term of `*newcoeff` in one dimension. */
  method Leading1(s: Setting, m: array2<real>, b: nat, x: nat, t: nat, ghost r: seq<real>) returns (v: real)
    requires ValidSetting(s) && s.dim == 1 && m.Length1 == NPoly(s) && IsRow(m, b, r) && x + t + 2 <= s.ord
    ensures v == Lead1(s, r, x, t)
  {
    Sum2(x + 2, t);
    Column(s, [x + 2, t]);
    var getcoeff := s.im([x + 2, t]);
    Lead1Value(s, r, x, t, m[b, getcoeff]);
    v := ((x + 2) * (x + 1)) as real / (((t + 2) * (t + 1)) as real * G0(s.g)) * m[b, getcoeff];
  }

  /** One step of the betax loop in one dimension. */
  method Correction1(s: Setting, m: array2<real>, b: nat, x: nat, t: nat, ghost r: seq<real>,
                     ghost lead: real, betax: nat, v0: real) returns (v: real)
    requires ValidSetting(s) && s.dim == 1 && m.Length1 == NPoly(s) && IsRow(m, b, r) && x + t + 2 <= s.ord
    requires betax < x && v0 == Sub1(s, r, x, t, lead, betax)
    ensures v == Sub1(s, r, x, t, lead, betax + 1)
  {
    Sum2(betax, t + 2);
    Column(s, [betax, t + 2]);
    var getcoeff := s.im([betax, t + 2]);
    var a, gx, g0 := m[b, getcoeff], G(s.g, x - betax, 0), G0(s.g);
    Sub1Step(s, r, x, t, lead, betax, v0, a, gx, g0);
    v := v0 - gx * a / g0;
  }

  /**
   * `*newcoeff = ...` for two dimensions: the two leading terms, then the
   * corrections for betax in 0..x and betay in 0..y-(betax==x) subtracted.
   */
  method Coefficient2(s: Setting, m: array2<real>, b: nat, x: nat, y: nat, t: nat, ghost r: seq<real>) returns (v: real)
    requires ValidSetting(s) && s.dim == 2 && m.Length1 == NPoly(s) && IsRow(m, b, r) && x + y + t + 2 <= s.ord
    ensures Target(s, [x, y, t + 2]) && v == New(s, r, [x, y, t + 2])
  {
    v := Leading2(s, m, b, x, y, t, r);
    ghost var lead := v;
    var betax := 0;
    while betax <= x
      invariant betax <= x + 1 && v == OuterSub(s, r, x, y, t, lead, betax)
    {
      v := CorrectionRow(s, m, b, x, y, t, r, lead, betax, v);
      betax := betax + 1;
    }
    NewAt2(s, r, x, y, t);
  }

  /** The two leading terms of `*newcoeff` in two dimensions. */
  method Leading2(s: Setting, m: array2<real>, b: nat, x: nat, y: nat, t: nat, ghost r: seq<real>) returns (v: real)
    requires ValidSetting(s) && s.dim == 2 && m.Length1 == NPoly(s) && IsRow(m, b, r) && x + y + t + 2 <= s.ord
    ensures v == Lead2(s, r, x, y, t)
  {
    Sum3(x + 2, y, t);
    Sum3(x, y + 2, t);
    Column(s, [x + 2, y, t]);
    Column(s, [x, y + 2, t]);
    var getcoeffx := s.im([x + 2, y, t]);
    var getcoeffy := s.im([x, y + 2, t]);
    Lead2Value(s, r, x, y, t, m[b, getcoeffx], m[b, getcoeffy]);
    v := ((x + 2) * (x + 1)) as real / (((t + 2) * (t + 1)) as real * G0(s.g)) * m[b, getcoeffx] +
         ((y + 2) * (y + 1)) as real / (((t + 2) * (t + 1)) as real * G0(s.g)) * m[b, getcoeffy];
  }

  /** The inner correction loop of Coefficient2, over betay in 0..y-(betax==x). */
  method CorrectionRow(s: Setting, m: array2<real>, b: nat, x: nat, y: nat, t: nat, ghost r: seq<real>,
                       ghost lead: real, betax: nat, v0: real) returns (v: real)
    requires ValidSetting(s) && s.dim == 2 && m.Length1 == NPoly(s) && IsRow(m, b, r) && x + y + t + 2 <= s.ord
    requires betax <= x && v0 == OuterSub(s, r, x, y, t, lead, betax)
    ensures v == OuterSub(s, r, x, y, t, lead, betax + 1)
  {
    var gxy, g0 := G(s.g, x, y), G0(s.g);
    v := v0;
    var betay := 0;
    while betay <= y - (if betax == x then 1 else 0)
      invariant betay <= Lim(x, y, betax) && v == InnerSub(s, r, x, y, t, lead, betax, betay)
    {
      v := Correction2(s, m, b, x, y, t, r, lead, betax, betay, v, gxy, g0);
      betay := betay + 1;
    }
    assert betay == Lim(x, y, betax);
  }

  /** One step of the betay loop in two dimensions. */
  method Correction2(s: Setting, m: array2<real>, b: nat, x: nat, y: nat, t: nat, ghost r: seq<real>,
                    ghost lead: real, betax: nat, betay: nat, v0: real, gxy: real, g0: real) returns (v: real)
    requires ValidSetting(s) && s.dim == 2 && m.Length1 == NPoly(s) && IsRow(m, b, r) && x + y + t + 2 <= s.ord
    requires betax <= x && betay < Lim(x, y, betax) && gxy == G(s.g, x, y) && g0 == G0(s.g)
    requires v0 == InnerSub(s, r, x, y, t, lead, betax, betay)
    ensures v == InnerSub(s, r, x, y, t, lead, betax, betay + 1)
  {
    Sum3(betax, betay, t + 2);
    Column(s, [betax, betay, t + 2]);
    var getcoeff := s.im([betax, betay, t + 2]);
    InnerSubStep(s, r, x, y, t, lead, betax, betay, v0, m[b, getcoeff], gxy, g0);
    v := v0 - gxy * m[b, getcoeff] / g0;
  }

  /** Store v at the column of target n in row b. */
  method Store(s: Setting, m: array2<real>, b: nat, n: seq<nat>, v: real)
    requires ValidSetting(s) && m.Length1 == NPoly(s) && b < m.Length0 && Target(s, n)
    modifies m
    ensures s.im(n) < m.Length1 && Row(m, b) == old(Row(m, b))[s.im(n) := v]
    ensures forall i, j :: 0 <= i < m.Length0 && 0 <= j < m.Length1 && i != b ==> m[i, j] == old(m[i, j])
  {
    IndexMapPosition(s, n);
    m[b, s.im(n)] := v;
  }

  /**
   * The recursion loops of TB for one basis function: for ell in -1..ord-2 and
   * t in 0..ell, FillDiagonal computes the coefficients of degree ell+2 and
   * time exponent t+2.
   */
  method FillRow(s: Setting, m: array2<real>, b: nat)
    requires ValidSetting(s) && m.Length1 == NPoly(s) && b < m.Length0
    modifies m
    ensures forall c :: Target(s, c) ==> Eq(s, Row(m, b), c)
    ensures SeedsKept(s, Row(m, b), old(Row(m, b)))
    ensures forall i, j :: 0 <= i < m.Length0 && 0 <= j < m.Length1 && i != b ==> m[i, j] == old(m[i, j])
  {
    ghost var r0 := Row(m, b);
    NothingDone(s, r0);
    var ell := -1;
    while ell < s.ord - 1
      invariant -1 <= ell <= s.ord - 1 || (s.ord == 0 && ell == -1)
      invariant RowDone(s, Row(m, b), ell, 0, 0) && SeedsKept(s, Row(m, b), r0)
      invariant forall i, j :: 0 <= i < m.Length0 && 0 <= j < m.Length1 && i != b ==> m[i, j] == old(m[i, j])
    {
      var t := 0;
      while t <= ell
        invariant 0 <= t <= ell + 1
        invariant RowDone(s, Row(m, b), ell, t, 0) && SeedsKept(s, Row(m, b), r0)
        invariant forall i, j :: 0 <= i < m.Length0 && 0 <= j < m.Length1 && i != b ==> m[i, j] == old(m[i, j])
      {
        FillDiagonal(s, m, b, ell, t, r0);
        t := t + 1;
      }
      NextEll(s, Row(m, b), ell);
      ell := ell + 1;
    }
    if s.ord == 0 {
      assert RowDone(s, Row(m, b), s.ord - 1, 0, 0);
    }
    AllDone(s, Row(m, b));
  }

  /**
   * The body of the t loop: in one dimension the coefficient of (ell-t, t+2),
   * in two dimensions those of (x, ell-t-x, t+2) for x in 0..ell-t.
   */
  method FillDiagonal(s: Setting, m: array2<real>, b: nat, ell: nat, t: nat, ghost r0: seq<real>)
    requires ValidSetting(s) && m.Length1 == NPoly(s) && b < m.Length0 && |r0| == NPoly(s)
    requires t <= ell && ell + 2 <= s.ord
    requires RowDone(s, Row(m, b), ell, t, 0) && SeedsKept(s, Row(m, b), r0)
    modifies m
    ensures RowDone(s, Row(m, b), ell, t + 1, 0) && SeedsKept(s, Row(m, b), r0)
    ensures forall i, j :: 0 <= i < m.Length0 && 0 <= j < m.Length1 && i != b ==> m[i, j] == old(m[i, j])
  {
    if s.dim == 1 {
      var x := ell - t;
      Step1(s, ell, t);
      ghost var r := Row(m, b);
      var v := Coefficient1(s, m, b, x, t, r);
      Advance(s, r, [x, t + 2], ell, t, 0, t + 1, 0);
      WriteKeepsSeeds(s, r, r0, [x, t + 2], v);
      Store(s, m, b, [x, t + 2], v);
    } else {
      var x := 0;
      while x <= ell - t
        invariant 0 <= x <= ell - t + 1
        invariant RowDone(s, Row(m, b), ell, t, x) && SeedsKept(s, Row(m, b), r0)
        invariant forall i, j :: 0 <= i < m.Length0 && 0 <= j < m.Length1 && i != b ==> m[i, j] == old(m[i, j])
      {
        var y := ell - t - x;
        Step2(s, ell, t, x);
        ghost var r := Row(m, b);
        var v := Coefficient2(s, m, b, x, y, t, r);
        Advance(s, r, [x, y, t + 2], ell, t, x, t, x + 1);
        WriteKeepsSeeds(s, r, r0, [x, y, t + 2], v);
        Store(s, m, b, [x, y, t + 2], v);
        x := x + 1;
      }
      NextT(s, Row(m, b), ell, t);
    }
  }

  // ---------------------------------------------------------------- the whole basis

  /**
   * Row b of the basis: the unit vector on the b-th seeded monomial among the
   * seeded ones, and the recursion equation at every target.
   */
  ghost predicate BasisRow(s: Setting, r: seq<real>, b: nat)
    requires ValidSetting(s)
  {
    |r| == NPoly(s) && b < |SeedOrder(s)| &&
    (forall u :: SeedCell(s, u) ==> Coef(s, r, u) == if u == SeedOrder(s)[b] then 1.0 else 0.0) &&
    (forall c :: Target(s, c) ==> Eq(s, r, c))
  }

  /** The dense TB matrix: nbasis rows, each a basis row. */
  ghost predicate IsGppwBasis(s: Setting, rows: seq<seq<real>>)
    requires ValidSetting(s)
  {
    |rows| == NBasis(s) && forall b :: 0 <= b < |rows| ==> BasisRow(s, rows[b], b)
  }

  /** A seeded row holds 1 exactly at its own seeded monomial among the seeded ones. */
  lemma SeedRow(s: Setting, r: seq<real>, b: nat)
    requires ValidSetting(s) && |r| == NPoly(s) && b < NBasis(s)
    requires forall c :: 0 <= c < |r| ==> r[c] == if c == s.im(SeedOrder(s)[b]) then 1.0 else 0.0
    ensures forall u :: SeedCell(s, u) ==> Coef(s, r, u) == if u == SeedOrder(s)[b] then 1.0 else 0.0
  {
    var so := SeedOrder(s);
    SeedOrderLength(s);
    SeedOrderMembers(s, so[b]);
    assert so[b] in so;
    forall u | SeedCell(s, u) ensures Coef(s, r, u) == if u == so[b] then 1.0 else 0.0 {
      IndexMapPosition(s, u);
      if u != so[b] {
        IndexMapInjective(s, u, so[b]);
      }
    }
  }

  /** The recursion loops of TB over every basis function. */
  method FillAll(s: Setting, m: array2<real>)
    requires ValidSetting(s) && m.Length0 == NBasis(s) && m.Length1 == NPoly(s)
    requires Seeded(s, m, SeedOrder(s), m.Length0)
    modifies m
    ensures IsGppwBasis(s, Rows(m))
  {
    SeedOrderLength(s);
    var basisn := 0;
    while basisn < m.Length0
      invariant basisn <= m.Length0
      invariant forall b :: 0 <= b < basisn ==> BasisRow(s, Row(m, b), b)
      invariant forall b, c :: basisn <= b < m.Length0 && 0 <= c < m.Length1 ==> m[b, c] == old(m[b, c])
    {
      forall c | 0 <= c < m.Length1 ensures Row(m, basisn)[c] == if c == s.im(SeedOrder(s)[basisn]) then 1.0 else 0.0 {
        assert m[basisn, c] == old(m[basisn, c]);
      }
      SeedRow(s, Row(m, basisn), basisn);
      label before:
      FillRow(s, m, basisn);
      forall b | 0 <= b < basisn ensures BasisRow(s, Row(m, b), b) {
        assert Row(m, b) == old@before(Row(m, b));
      }
      basisn := basisn + 1;
    }
    forall b | 0 <= b < m.Length0 ensures BasisRow(s, Rows(m)[b], b) {
    }
  }

  /** TB's dense matrix: zeroed, seeded, then filled by the recursion. */
  method Build(s: Setting) returns (m: array2<real>)
    requires ValidSetting(s)
    ensures fresh(m) && m.Length0 == NBasis(s) && m.Length1 == NPoly(s)
    ensures IsGppwBasis(s, Rows(m))
  {
    m := new real[NBasis(s), NPoly(s)]((i, j) => 0.0);
    Seed(s, m);
    FillAll(s, m);
  }
}
