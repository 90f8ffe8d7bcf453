/**
 * The prototype Trefftz element: an enumerator of exponent tuples, a binomial
 * coefficient, and a basis built by the wave-equation recursion on a map from
 * exponent tuples to coefficients. Entry 0 of a tuple is the time exponent.
 */
module MyTrefftz {
  import opened Tuples

  /** `round(tgamma(n+1) / (tgamma(k+1) * tgamma(n-k+1)))`: exact for 0 <= k <= n, and 0 at the poles k = -1 and k = n+1. */
  function BinCoeff(n: int, k: int): (r: int)
    requires n >= 0 && -1 <= k <= n + 1
    ensures r == if k < 0 then 0 else Choose(n, k)
  {
    if 0 <= k <= n then
      ChooseTimesFactorials(n, k);
      DivExact(Choose(n, k), Fact(k) * Fact(n - k), Fact(n));
      Fact(n) / (Fact(k) * Fact(n - k))
    else if k == n + 1 then
      ChooseAbove(n, k);
      0
    else
      0
  }

  lemma DivExact(c: nat, d: nat, f: nat)
    requires d > 0 && c * d == f
    ensures f / d == c
  {
    var q, r := f / d, f % d;
    assert q * d + r == f && 0 <= r < d;
    if c > q {
      assert (c - q) * d == r;
      MulAtLeast(c - q, d);
    } else if c < q {
      assert (q - c) * d == -r;
      MulAtLeast(q - c, d);
    }
  }

  lemma MulAtLeast(x: int, d: int)
    requires x >= 1 && d > 0
    ensures x * d >= d
  {
    assert x * d == (x - 1) * d + d;
  }

  /**
   * What `MakeIndices_inner(dim, numbers, maxes, indices)` appends when the first
   * `|prefix|` entries of `numbers` hold `prefix`: every completion of the prefix by
   * `dim` entries in [0, maxes], in loop order, kept only if the total is at most maxes.
   */
  function Emit(prefix: seq<nat>, dim: nat, maxes: nat): seq<seq<nat>>
    decreases dim, 1, 0
  {
    if dim == 0 then (if Sum(prefix) <= maxes then [prefix] else [])
    else EmitFrom(prefix, dim, maxes, 0)
  }

  /** The iterations i, i+1, ..., maxes of the loop at depth `dim`. */
  function EmitFrom(prefix: seq<nat>, dim: nat, maxes: nat, i: nat): seq<seq<nat>>
    requires dim > 0
    decreases dim, 0, maxes + 1 - i
  {
    if i > maxes then [] else Emit(prefix + [i], dim - 1, maxes) + EmitFrom(prefix, dim, maxes, i + 1)
  }

  /** Prepend a fixed prefix to every tuple. */
  function Prefixed(p: seq<nat>, ts: seq<seq<nat>>): (r: seq<seq<nat>>)
    ensures |r| == |ts| && forall k :: 0 <= k < |ts| ==> r[k] == p + ts[k]
  {
    seq(|ts|, k requires 0 <= k < |ts| => p + ts[k])
  }

  lemma PrefixedConcat(p: seq<nat>, a: seq<seq<nat>>, b: seq<seq<nat>>)
    ensures Prefixed(p, a + b) == Prefixed(p, a) + Prefixed(p, b)
  {
  }

  lemma PrefixedCons(p: seq<nat>, i: nat, ts: seq<seq<nat>>)
    ensures Prefixed(p, Cons(i, ts)) == Prefixed(p + [i], ts)
  {
    forall k | 0 <= k < |ts| ensures Prefixed(p, Cons(i, ts))[k] == Prefixed(p + [i], ts)[k] {
      assert p + ([i] + ts[k]) == (p + [i]) + ts[k];
    }
  }

  /** A prefix already over the bound emits nothing. */
  lemma {:induction false} EmitOver(prefix: seq<nat>, dim: nat, maxes: nat, i: nat)
    requires Sum(prefix) > maxes
    ensures dim == 0 ==> Emit(prefix, dim, maxes) == []
    ensures dim > 0 ==> EmitFrom(prefix, dim, maxes, i) == []
    decreases dim, maxes + 1 - i
  {
    if dim > 0 && i <= maxes {
      var q := prefix + [i];
      SumSnoc(prefix, i);
      if dim - 1 > 0 {
        EmitOver(q, dim - 1, maxes, 0);
      } else {
        EmitOver(q, 0, maxes, 0);
      }
      assert Emit(q, dim - 1, maxes) == [];
      EmitOver(prefix, dim, maxes, i + 1);
      assert EmitFrom(prefix, dim, maxes, i) == Emit(q, dim - 1, maxes) + EmitFrom(prefix, dim, maxes, i + 1);
    }
  }

  /** The loop iterations past the remaining budget emit nothing. */
  lemma {:induction false} EmitFromPastBudget(prefix: seq<nat>, dim: nat, maxes: nat, i: nat)
    requires dim > 0 && Sum(prefix) + i > maxes
    ensures EmitFrom(prefix, dim, maxes, i) == []
    decreases maxes + 1 - i
  {
    if i <= maxes {
      SumSnoc(prefix, i);
      if dim - 1 > 0 {
        EmitOver(prefix + [i], dim - 1, maxes, 0);
      } else {
        EmitOver(prefix + [i], 0, maxes, 0);
      }
      EmitFromPastBudget(prefix, dim, maxes, i + 1);
    }
  }

  /** Below the bound, the emitted tuples are the prefix followed by the canonical enumeration of the rest. */
  lemma {:induction false} EmitIsPrefixedEnum(prefix: seq<nat>, dim: nat, maxes: nat)
    requires Sum(prefix) <= maxes
    ensures Emit(prefix, dim, maxes) == Prefixed(prefix, Enum(dim, maxes - Sum(prefix)))
    decreases dim, 1, 0
  {
    if dim == 0 {
      assert prefix + [] == prefix;
    } else {
      EmitFromIsPrefixedEnum(prefix, dim, maxes, 0);
    }
  }

  lemma {:induction false} EmitFromIsPrefixedEnum(prefix: seq<nat>, dim: nat, maxes: nat, i: nat)
    requires dim > 0 && Sum(prefix) <= maxes
    ensures EmitFrom(prefix, dim, maxes, i) == Prefixed(prefix, EnumFrom(dim, maxes - Sum(prefix), i))
    decreases dim, 0, maxes + 1 - i
  {
    var r := maxes - Sum(prefix);
    if i > r {
      EmitFromPastBudget(prefix, dim, maxes, i);
    } else {
      SumSnoc(prefix, i);
      EmitIsPrefixedEnum(prefix + [i], dim - 1, maxes);
      assert maxes - Sum(prefix + [i]) == r - i;
      EmitFromIsPrefixedEnum(prefix, dim, maxes, i + 1);
      PrefixedCons(prefix, i, Enum(dim - 1, r - i));
      PrefixedConcat(prefix, Cons(i, Enum(dim - 1, r - i)), EnumFrom(dim, r, i + 1));
    }
  }

  lemma PrefixedEmpty(ts: seq<seq<nat>>)
    ensures Prefixed([], ts) == ts
  {
    forall k | 0 <= k < |ts| ensures Prefixed([], ts)[k] == ts[k] {
      assert [] + ts[k] == ts[k];
    }
  }

  /**
   * From an empty prefix the enumerator emits exactly the canonical enumeration:
   * every tuple of length n with total at most maxes, once each, lexicographically,
   * and as many of them as the binomial coefficient that sizes the result.
   */
  lemma EmitAll(n: nat, maxes: nat)
    ensures Emit([], n, maxes) == Enum(n, maxes)
    ensures |Emit([], n, maxes)| == BinCoeff(n + maxes, maxes)
    ensures forall t :: t in Emit([], n, maxes) <==> |t| == n && Sum(t) <= maxes
    ensures StrictlySorted(Emit([], n, maxes))
  {
    EmitIsPrefixedEnum([], n, maxes);
    PrefixedEmpty(Enum(n, maxes));
    EnumLength(n, maxes);
    EnumSorted(n, maxes);
    forall t ensures t in Enum(n, maxes) <==> |t| == n && Sum(t) <= maxes {
      EnumMembers(n, maxes, t);
    }
  }

  /** Coefficients of one basis function, keyed by exponent tuple. */
  type Coeffs = map<seq<nat>, real>

  /** Reading a coefficient; a tuple never stored reads as 0. */
  function Get(c: Coeffs, t: seq<nat>): real
  {
    if t in c then c[t] else 0.0
  }

  /** The tuple read for spatial direction m: time exponent lowered by 2, exponent m raised by 2. */
  function Lowered(t: seq<nat>, m: nat): (u: seq<nat>)
    requires 0 < m < |t| && t[0] >= 2
    ensures |u| == |t| && u[0] == t[0] - 2 && u[m] == t[m] + 2
    ensures forall j :: 0 < j < |t| && j != m ==> u[j] == t[j]
  {
    t[0 := t[0] - 2][m := t[m] + 2]
  }

  /** The factor (e+1)(e+2) of the recursion's term for a spatial exponent e. */
  function Weight(e: nat): real
  {
    ((e + 1) * (e + 2)) as real
  }

  /** The divisor k(k-1) of the recursion for the time exponent k; positive because k is at least 2. */
  function TimeFactor(k: nat): (r: real)
    requires k >= 2
    ensures r > 0.0
  {
    assert (k as real) * (k as real - 1.0) >= k as real - 1.0 >= 1.0;
    (k as real) * (k as real - 1.0)
  }

  /** Σ_{j=1..m} (t[j]+1)(t[j]+2)·c(Lowered(t, j)). */
  function RecursionSum(c: Coeffs, t: seq<nat>, m: nat): real
    requires m < |t| && t[0] >= 2
  {
    if m == 0 then 0.0
    else RecursionSum(c, t, m - 1) + Weight(t[m]) * Get(c, Lowered(t, m))
  }

  /** The coefficient the recursion assigns to t: RecursionSum over all spatial directions divided by k(k-1). */
  function RecursionValue(c: Coeffs, t: seq<nat>): real
    requires |t| >= 1 && t[0] >= 2
  {
    1.0 / TimeFactor(t[0]) * RecursionSum(c, t, |t| - 1)
  }

  /** A change at a tuple whose time exponent is not t[0]-2 does not affect the recursion at t. */
  lemma {:induction false} RecursionSumUpdate(c: Coeffs, t: seq<nat>, m: nat, u: seq<nat>, v: real)
    requires m < |t| && t[0] >= 2 && |u| > 0 && u[0] != t[0] - 2
    ensures RecursionSum(c[u := v], t, m) == RecursionSum(c, t, m)
  {
    if m > 0 {
      RecursionSumUpdate(c, t, m - 1, u, v);
      assert Lowered(t, m) != u by {
        assert Lowered(t, m)[0] != u[0];
      }
      assert Get(c[u := v], Lowered(t, m)) == Get(c, Lowered(t, m));
    }
  }

  lemma RecursionValueUpdate(c: Coeffs, t: seq<nat>, u: seq<nat>, v: real)
    requires |t| >= 1 && t[0] >= 2 && |u| > 0 && u[0] != t[0] - 2
    ensures RecursionValue(c[u := v], t) == RecursionValue(c, t)
  {
    RecursionSumUpdate(c, t, |t| - 1, u, v);
  }

  predicate WellShaped(idxs: seq<seq<nat>>)
  {
    forall j :: 0 <= j < |idxs| ==> |idxs[j]| >= 1
  }

  /**
   * The coefficients of basis function l after the loop over the tuples `idxs`
   * resumes at position i with map `acc`: a tuple with time exponent above 1
   * receives its recursion value, a tuple with time exponent 0 stores 1 at
   * idxs[l] and moves the loop `skip` positions further on, and time exponent 1
   * is passed over.
   */
  function ProtoRow(idxs: seq<seq<nat>>, l: nat, skip: nat, i: nat, acc: Coeffs): Coeffs
    requires WellShaped(idxs) && l < |idxs|
    decreases |idxs| - i
  {
    if i >= |idxs| then acc
    else
      var t := idxs[i];
      if t[0] > 1 then ProtoRow(idxs, l, skip, i + 1, acc[t := RecursionValue(acc, t)])
      else if t[0] == 0 then ProtoRow(idxs, l, skip, i + skip + 1, acc[idxs[l] := 1.0])
      else ProtoRow(idxs, l, skip, i + 1, acc)
  }

  /**
   * In `Enum(d+1, order)` the first SliceCount tuples are those with time exponent
   * 0 or 1, the first tuple has time exponent 0, and the sizes agree with the
   * binomial coefficients of the basis count.
   */
  lemma EnumMembersAll(n: nat, r: nat)
    ensures forall j :: 0 <= j < |Enum(n, r)| ==> |Enum(n, r)[j]| == n
  {
    forall j | 0 <= j < |Enum(n, r)| ensures |Enum(n, r)[j]| == n {
      EnumMembers(n, r, Enum(n, r)[j]);
    }
  }

  /** The basis count and the monomial count as the binomial coefficients the source computes them by. */
  lemma SliceCountBinomial(n: nat, order: nat)
    requires n >= 2
    ensures SliceCount(n - 1, order) == BinCoeff(n - 1 + order, order) + BinCoeff(n + order - 2, order - 1)
    ensures |Enum(n, order)| == BinCoeff(n + order, order)
  {
    EnumLength(n - 1, order);
    EnumLength(n, order);
    if order >= 1 {
      EnumLength(n - 1, order - 1);
    }
  }

  /** The enumeration opens with the time-0 block and the time-1 block. */
  lemma SliceBlocks(n: nat, order: nat)
    requires n >= 1
    ensures order >= 1 ==> Enum(n, order) == Cons(0, Enum(n - 1, order)) + (Cons(1, Enum(n - 1, order - 1)) + EnumFrom(n, order, 2))
    ensures order == 0 ==> Enum(n, order) == Cons(0, Enum(n - 1, order))
  {
    assert Enum(n, order) == Cons(0, Enum(n - 1, order)) + EnumFrom(n, order, 1);
    if order == 0 {
      assert EnumFrom(n, 0, 1) == [];
    }
  }

  lemma TimeSlices(n: nat, order: nat)
    requires n >= 2
    ensures 1 <= SliceCount(n - 1, order) <= |Enum(n, order)|
    ensures forall j :: 0 <= j < |Enum(n, order)| ==> |Enum(n, order)[j]| == n
    ensures WellShaped(Enum(n, order)) && Enum(n, order)[0][0] == 0
    ensures forall j :: 0 <= j < |Enum(n, order)| ==>
      (Enum(n, order)[j][0] <= 1 <==> j < SliceCount(n - 1, order))
  {
    var d := n - 1;
    var e := Enum(n, order);
    var s0 := Cons(0, Enum(d, order));
    EnumMembersAll(n, order);
    SliceBlocks(n, order);
    assert |Enum(d, order)| > 0 by {
      EnumMembers(d, order, seq(d, _ => 0));
      ZeroSum(d);
    }
    assert e[0] == s0[0];
    if order >= 1 {
      var s1 := Cons(1, Enum(d, order - 1));
      var rest := EnumFrom(n, order, 2);
      forall j | 0 <= j < |e| ensures (e[j][0] <= 1 <==> j < |s0| + |s1|) {
        if j >= |s0| + |s1| {
          assert e[j] == rest[j - |s0| - |s1|];
          EnumFromMembers(n, order, 2, e[j]);
        } else if j >= |s0| {
          assert e[j] == s1[j - |s0|];
        } else {
          assert e[j] == s0[j];
        }
      }
    } else {
      forall j | 0 <= j < |e| ensures (e[j][0] <= 1 <==> j < |s0|) {
        assert e[j] == s0[j];
      }
    }
  }

  lemma {:induction false} ZeroSum(d: nat)
    ensures Sum(seq(d, _ => 0)) == 0
  {
    if d > 0 {
      assert seq(d, _ => 0)[1..] == seq(d - 1, _ => 0);
      ZeroSum(d - 1);
    }
  }

  /**
   * Once the loop is past the time exponents 0 and 1 it keeps every recursion
   * equation it has established and changes only the tuples it still visits.
   */
  lemma {:induction false} RecursionTail(idxs: seq<seq<nat>>, l: nat, skip: nat, nb: nat, i: nat, acc: Coeffs)
    requires WellShaped(idxs) && l < |idxs| && StrictlySorted(idxs)
    requires nb <= i <= |idxs|
    requires forall j :: nb <= j < |idxs| ==> idxs[j][0] >= 2
    requires forall j :: nb <= j < i ==> Get(acc, idxs[j]) == RecursionValue(acc, idxs[j])
    ensures forall j :: nb <= j < |idxs| ==>
      Get(ProtoRow(idxs, l, skip, i, acc), idxs[j]) == RecursionValue(ProtoRow(idxs, l, skip, i, acc), idxs[j])
    ensures forall t :: t !in idxs[i..] ==> Get(ProtoRow(idxs, l, skip, i, acc), t) == Get(acc, t)
    decreases |idxs| - i
  {
    if i < |idxs| {
      var t := idxs[i];
      var v := RecursionValue(acc, t);
      var acc' := acc[t := v];
      assert ProtoRow(idxs, l, skip, i, acc) == ProtoRow(idxs, l, skip, i + 1, acc');
      RecursionValueUpdate(acc, t, t, v);
      forall j | nb <= j < i ensures Get(acc', idxs[j]) == RecursionValue(acc', idxs[j]) {
        assert LexLess(idxs[j], idxs[i]);
        LexLessIrreflexive(idxs[j]);
        RecursionValueUpdate(acc, idxs[j], t, v);
      }
      RecursionTail(idxs, l, skip, nb, i + 1, acc');
      assert idxs[i..] == [t] + idxs[i + 1..];
    }
  }

  /**
   * With the skip the loop evidently intends (one less than the basis count),
   * basis function l holds 1 at tuple idxs[l], keeps every other tuple of time
   * exponent 0 or 1 as it was, and satisfies the recursion equation at every
   * tuple of time exponent 2 or more.
   */
  lemma CorrectedRow(n: nat, order: nat, l: nat, acc: Coeffs)
    requires n >= 2 && l < SliceCount(n - 1, order)
    ensures SliceCount(n - 1, order) <= |Enum(n, order)| && WellShaped(Enum(n, order))
    ensures var e := Enum(n, order);
      var row := ProtoRow(e, l, SliceCount(n - 1, order) - 1, 0, acc);
      Get(row, e[l]) == 1.0 &&
      (forall t :: |t| == n && t[0] <= 1 && t != e[l] ==> Get(row, t) == Get(acc, t)) &&
      (forall j :: 0 <= j < |e| && e[j][0] >= 2 ==> Get(row, e[j]) == RecursionValue(row, e[j]))
  {
    TimeSlices(n, order);
    var e := Enum(n, order);
    var nb := SliceCount(n - 1, order);
    var acc1 := acc[e[l] := 1.0];
    assert ProtoRow(e, l, nb - 1, 0, acc) == ProtoRow(e, l, nb - 1, nb, acc1);
    EnumSorted(n, order);
    TailOfRow(e, l, nb, acc1);
  }

  /**
   * From the first tuple of time exponent 2 on, the loop establishes the
   * recursion at every tuple and leaves the tuples of time exponent 0 and 1 alone.
   */
  lemma TailOfRow(e: seq<seq<nat>>, l: nat, nb: nat, acc: Coeffs)
    requires WellShaped(e) && StrictlySorted(e) && l < nb <= |e|
    requires forall j :: 0 <= j < |e| ==> (e[j][0] <= 1 <==> j < nb)
    ensures forall j :: 0 <= j < |e| && e[j][0] >= 2 ==>
      Get(ProtoRow(e, l, nb - 1, nb, acc), e[j]) == RecursionValue(ProtoRow(e, l, nb - 1, nb, acc), e[j])
    ensures forall t :: |t| > 0 && t[0] <= 1 ==> Get(ProtoRow(e, l, nb - 1, nb, acc), t) == Get(acc, t)
  {
    RecursionTail(e, l, nb - 1, nb, nb, acc);
    LateSlice(e, nb);
  }

  /** The tuples from position nb on all have time exponent 2 or more, so none of time exponent 0 or 1 is among them. */
  lemma LateSlice(e: seq<seq<nat>>, nb: nat)
    requires nb <= |e| && forall j :: nb <= j < |e| ==> |e[j]| > 0 && e[j][0] >= 2
    ensures forall t :: |t| > 0 && t[0] <= 1 ==> t !in e[nb..]
  {
    forall t | |t| > 0 && t[0] <= 1 ensures t !in e[nb..] {
      forall k | 0 <= k < |e| - nb ensures e[nb..][k] != t {
        assert e[nb..][k] == e[nb + k];
      }
    }
  }

  /**
   * As written the loop skips one position too far: with one spatial dimension
   * and order 2, basis function 2 (seeded at tuple (0,2)) never visits tuple
   * (2,0), which stays 0 although the recursion gives it the value 1.
   */
  lemma AsWrittenSkipsRecursion()
    ensures SliceCount(1, 2) == 5
    ensures Enum(2, 2) == [[0, 0], [0, 1], [0, 2], [1, 0], [1, 1], [2, 0]]
    ensures var row := ProtoRow(Enum(2, 2), 2, SliceCount(1, 2), 0, map[]);
      Get(row, [0, 2]) == 1.0 && Get(row, [2, 0]) == 0.0 && RecursionValue(row, [2, 0]) == 1.0
  {
    EnumTwoTwo();
    var e := Enum(2, 2);
    var row := ProtoRow(e, 2, 5, 0, map[]);
    assert row == ProtoRow(e, 2, 5, 6, map[[0, 2] := 1.0]);
    assert Lowered([2, 0], 1) == [0, 2];
  }

  /** The six exponent pairs of order 2 in loop order, and the basis count 5. */
  lemma EnumTwoTwo()
    ensures SliceCount(1, 2) == 5
    ensures Enum(2, 2) == [[0, 0], [0, 1], [0, 2], [1, 0], [1, 1], [2, 0]]
  {
    EnumOne(2);
    EnumOne(1);
    EnumOne(0);
    var c0, c1, c2 := Cons(0, Enum(1, 2)), Cons(1, Enum(1, 1)), Cons(2, Enum(1, 0));
    assert c0[0] == [0, 0] && c0[1] == [0, 1] && c0[2] == [0, 2];
    assert c0 == [[0, 0], [0, 1], [0, 2]];
    assert c1[0] == [1, 0] && c1[1] == [1, 1];
    assert c1 == [[1, 0], [1, 1]];
    assert c2[0] == [2, 0];
    assert c2 == [[2, 0]];
    assert EnumFrom(2, 2, 3) == [];
    assert Enum(2, 2) == Cons(0, Enum(1, 2)) + (Cons(1, Enum(1, 1)) + (Cons(2, Enum(1, 0)) + EnumFrom(2, 2, 3)));
    assert |Enum(1, 2)| == 3 && |Enum(1, 1)| == 2;
  }

  /** The prototype element for D spatial dimensions and polynomial order `order`. */
  class Trefftz {
    const D: nat
    const order: nat
    const nbasis: nat
    const npoly: nat
    var basisFunctions: seq<Coeffs>

    ghost predicate Valid()
      reads this
    {
      D >= 1 &&
      nbasis == BinCoeff(D + order, order) + BinCoeff(D + order - 1, order - 1) &&
      npoly == BinCoeff(D + 1 + order, order) &&
      |basisFunctions| == nbasis &&
      npoly == |Enum(D + 1, order)| && 1 <= nbasis <= npoly && WellShaped(Enum(D + 1, order))
    }

    /** Basis counts as the header declares them; every basis function starts out empty. */
    constructor (d: nat, ord: nat)
      requires d >= 1
      ensures Valid() && D == d && order == ord
      ensures nbasis == BinCoeff(d + ord, ord) + BinCoeff(d + ord - 1, ord - 1) && 1 <= nbasis
      ensures npoly == BinCoeff(d + 1 + ord, ord) == |Enum(d + 1, ord)|
      ensures |basisFunctions| == nbasis && forall l :: 0 <= l < nbasis ==> basisFunctions[l] == map[]
    {
      D := d;
      order := ord;
      nbasis := BinCoeff(d + ord, ord) + BinCoeff(d + ord - 1, ord - 1);
      npoly := BinCoeff(d + 1 + ord, ord);
      new;
      TimeSlices(d + 1, ord);
      SliceCountBinomial(d + 1, ord);
      basisFunctions := seq(nbasis, _ => map[]);
    }

    /** `MakeIndices_inner`: the recursion writes entry size-dim, recurses, and at depth 0 appends the tuple if its total is at most maxes. */
    method MakeIndicesInner(dim: nat, numbers: array<nat>, maxes: nat, indices: seq<seq<nat>>)
      returns (out: seq<seq<nat>>)
      requires dim <= numbers.Length
      modifies numbers
      ensures numbers[..numbers.Length - dim] == old(numbers[..numbers.Length - dim])
      ensures out == indices + Emit(old(numbers[..numbers.Length - dim]), dim, maxes)
      decreases dim
    {
      ghost var prefix := numbers[..numbers.Length - dim];
      if dim > 0 {
        out := indices;
        var i := 0;
        while i <= maxes
          invariant 0 <= i <= maxes + 1
          invariant numbers[..numbers.Length - dim] == prefix
          invariant out + EmitFrom(prefix, dim, maxes, i) == indices + Emit(prefix, dim, maxes)
        {
          numbers[numbers.Length - dim] := i;
          assert numbers[..numbers.Length - (dim - 1)] == prefix + [i];
          out := MakeIndicesInner(dim - 1, numbers, maxes, out);
          assert numbers[..numbers.Length - dim] == numbers[..numbers.Length - (dim - 1)][..numbers.Length - dim];
          i := i + 1;
        }
        assert EmitFrom(prefix, dim, maxes, i) == [];
      } else {
        var sum := 0;
        var i := 0;
        while i < numbers.Length
          invariant 0 <= i <= numbers.Length
          invariant sum == Sum(numbers[..i])
          invariant numbers[..] == old(numbers[..])
        {
          assert numbers[..i + 1] == numbers[..i] + [numbers[i]];
          SumSnoc(numbers[..i], numbers[i]);
          sum := sum + numbers[i];
          i := i + 1;
        }
        assert numbers[..numbers.Length] == numbers[..];
        if sum <= maxes {
          out := indices + [numbers[..]];
        } else {
          out := indices;
        }
      }
    }

    /** `MakeIndices(maxes, indices)`: appends every exponent tuple of length D+1 and total at most maxes, in canonical order. */
    method MakeIndices(maxes: nat, indices: seq<seq<nat>>) returns (out: seq<seq<nat>>)
      ensures out == indices + Enum(D + 1, maxes)
    {
      var numbers := new nat[D + 1];
      out := MakeIndicesInner(D + 1, numbers, maxes, indices);
      EmitAll(D + 1, maxes);
    }

    /** The loop over the spatial directions: the recursion value of tuple t from the coefficients read so far. */
    method Recursion(row: Coeffs, t: seq<nat>) returns (temp: real)
      requires |t| == D + 1 && t[0] >= 2
      ensures temp == RecursionValue(row, t)
    {
      temp := 0.0;
      var m := 1;
      while m <= D
        invariant 1 <= m <= D + 1
        invariant temp == RecursionSum(row, t, m - 1)
      {
        var getCoeff := Lowered(t, m);
        temp := temp + Weight(t[m]) * Get(row, getCoeff);
        m := m + 1;
      }
      temp := 1.0 / TimeFactor(t[0]) * temp;
    }

    /** The loop over the tuples for basis function l. */
    method FillRow(indices: seq<seq<nat>>, l: nat, skip: nat)
      requires Valid() && indices == Enum(D + 1, order) && l < nbasis
      modifies this
      ensures Valid()
      ensures basisFunctions == old(basisFunctions)[l := ProtoRow(indices, l, skip, 0, old(basisFunctions[l]))]
    {
      EnumMembersAll(D + 1, order);
      var i := 0;
      while i < npoly
        invariant Valid()
        invariant ProtoRow(indices, l, skip, i, basisFunctions[l]) == ProtoRow(indices, l, skip, 0, old(basisFunctions[l]))
        invariant basisFunctions == old(basisFunctions)[l := basisFunctions[l]]
        decreases npoly - i
      {
        var t := indices[i];
        ghost var row := basisFunctions[l];
        if t[0] > 1 {
          var temp := Recursion(basisFunctions[l], t);
          assert ProtoRow(indices, l, skip, i, row) == ProtoRow(indices, l, skip, i + 1, row[t := temp]);
          basisFunctions := basisFunctions[l := basisFunctions[l][t := temp]];
        } else if t[0] == 0 {
          assert ProtoRow(indices, l, skip, i, row) == ProtoRow(indices, l, skip, i + skip + 1, row[indices[l] := 1.0]);
          basisFunctions := basisFunctions[l := basisFunctions[l][indices[l] := 1.0]];
          i := i + skip;
        } else {
          assert ProtoRow(indices, l, skip, i, row) == ProtoRow(indices, l, skip, i + 1, row);
        }
        i := i + 1;
      }
    }

    /** The loop of `TrefftzBasis` with the given skip after the time-0 seed. */
    method FillBasis(skip: nat)
      requires Valid()
      modifies this
      ensures Valid()
      ensures forall l :: 0 <= l < nbasis ==>
        basisFunctions[l] == ProtoRow(Enum(D + 1, order), l, skip, 0, old(basisFunctions[l]))
    {
      var indices := MakeIndices(order, []);
      assert indices == Enum(D + 1, order);
      var l := 0;
      while l < nbasis
        invariant 0 <= l <= nbasis
        invariant Valid()
        invariant forall j :: 0 <= j < l ==> basisFunctions[j] == ProtoRow(indices, j, skip, 0, old(basisFunctions[j]))
        invariant forall j :: l <= j < nbasis ==> basisFunctions[j] == old(basisFunctions[j])
      {
        FillRow(indices, l, skip);
        l := l + 1;
      }
    }

    /** `TrefftzBasis` as written: after the time-0 seed the index advances by nbasis, then by the loop's own increment. */
    method TrefftzBasisAsWritten()
      requires Valid()
      modifies this
      ensures Valid()
      ensures forall l :: 0 <= l < nbasis ==>
        basisFunctions[l] == ProtoRow(Enum(D + 1, order), l, nbasis, 0, old(basisFunctions[l]))
    {
      FillBasis(nbasis);
    }

    /**
     * `TrefftzBasis` with the advance corrected to nbasis-1, so that the recursion
     * starts at the first tuple of time exponent 2 (see `CorrectedRow`).
     */
    method TrefftzBasis()
      requires Valid()
      modifies this
      ensures Valid()
      ensures forall l :: 0 <= l < nbasis ==>
        basisFunctions[l] == ProtoRow(Enum(D + 1, order), l, nbasis - 1, 0, old(basisFunctions[l]))
    {
      FillBasis(nbasis - 1);
    }

    /** `CalcShape` adds npoly to each of the first nbasis entries without resetting them. */
    method CalcShape(shape: array<real>)
      requires Valid() && nbasis <= shape.Length
      modifies shape
      ensures forall l :: 0 <= l < shape.Length ==>
        shape[l] == if l < nbasis then old(shape[l]) + npoly as real else old(shape[l])
    {
      var l := 0;
      while l < nbasis
        invariant 0 <= l <= nbasis
        invariant forall j :: 0 <= j < shape.Length ==>
          shape[j] == if j < l then old(shape[j]) + npoly as real else old(shape[j])
      {
        var i := 0;
        while i < npoly
          invariant 0 <= i <= npoly
          invariant shape[l] == old(shape[l]) + i as real
          invariant forall j :: 0 <= j < shape.Length && j != l ==>
            shape[j] == if j < l then old(shape[j]) + npoly as real else old(shape[j])
        {
          shape[l] := shape[l] + 1.0;
          i := i + 1;
        }
        l := l + 1;
      }
    }

    /** `CalcDShape` has an empty body: it writes nothing. */
    method CalcDShape(dshape: array2<real>)
    {
    }
  }
}
