/**
 * Exponent tuples of bounded total degree and their canonical enumeration.
 *
 * A monomial x0^a0 * x1^a1 * ... in n variables is identified with the tuple
 * [a0, a1, ...]. `Enum(n, r)` lists every tuple of length n whose entries sum
 * to at most r, in lexicographic order with entry 0 outermost. This is the
 * order in which the nested `pol` loops of the mapped Trefftz element visit
 * the monomials, the order `IndexMap2` numbers them in, and the order in which
 * the prototype enumerator emits them.
 */
module Tuples {

  /** n! */
  function Fact(n: nat): (r: nat)
    ensures r >= 1
  {
    if n == 0 then 1 else n * Fact(n - 1)
  }

  /** The binomial coefficient, defined by Pascal's rule. */
  function Choose(n: nat, k: nat): nat
  {
    if k == 0 then 1 else if n == 0 then 0 else Choose(n - 1, k - 1) + Choose(n - 1, k)
  }

  lemma {:induction false} ChooseAbove(n: nat, k: nat)
    requires k > n
    ensures Choose(n, k) == 0
  {
    if n > 0 {
      ChooseAbove(n - 1, k - 1);
      ChooseAbove(n - 1, k);
    }
  }

  lemma {:induction false} ChooseDiagonal(n: nat)
    ensures Choose(n, n) == 1
  {
    if n > 0 {
      ChooseDiagonal(n - 1);
      ChooseAbove(n - 1, n);
    }
  }

  /** Pascal's triangle agrees with the factorial formula: C(n,k)*k!*(n-k)! == n!. */
  lemma {:induction false} ChooseTimesFactorials(n: nat, k: nat)
    requires k <= n
    ensures Choose(n, k) * (Fact(k) * Fact(n - k)) == Fact(n)
  {
    if k == 0 {
    } else if k == n {
      ChooseDiagonal(n);
    } else {
      ChooseTimesFactorials(n - 1, k - 1);
      ChooseTimesFactorials(n - 1, k);
      FactorialStep(Choose(n - 1, k - 1), Choose(n - 1, k), k, n - k,
                    Fact(k - 1), Fact(n - 1 - k), Fact(n - 1));
    }
  }

  /** The arithmetic step of the factorial identity, with every product named. */
  lemma FactorialStep(a: nat, b: nat, k: nat, m: nat, fa: nat, fb: nat, f: nat)
    requires a * (fa * (m * fb)) == f
    requires b * ((k * fa) * fb) == f
    ensures (a + b) * ((k * fa) * (m * fb)) == (k + m) * f
  {
    var p := fa * fb;
    assert fa * (m * fb) == m * p;
    assert (k * fa) * fb == k * p;
    assert (k * fa) * (m * fb) == k * (m * p);
    assert a * (k * (m * p)) == k * (a * (m * p));
    assert b * (k * (m * p)) == m * (b * (k * p));
    assert (a + b) * (k * (m * p)) == a * (k * (m * p)) + b * (k * (m * p));
  }

  /** Total degree of a tuple. */
  function Sum(t: seq<nat>): nat
  {
    if |t| == 0 then 0 else t[0] + Sum(t[1..])
  }

  lemma {:induction false} SumSnoc(p: seq<nat>, i: nat)
    ensures Sum(p + [i]) == Sum(p) + i
  {
    if |p| > 0 {
      assert (p + [i])[1..] == p[1..] + [i];
      SumSnoc(p[1..], i);
    } else {
      assert p + [i] == [i];
    }
  }

  /** Prefix every tuple of `ts` with the entry i. */
  function Cons(i: nat, ts: seq<seq<nat>>): (r: seq<seq<nat>>)
    ensures |r| == |ts|
    ensures forall k :: 0 <= k < |ts| ==> r[k] == [i] + ts[k]
  {
    seq(|ts|, k requires 0 <= k < |ts| => [i] + ts[k])
  }

  /** All tuples of length n and total degree at most r, lexicographically. */
  function Enum(n: nat, r: nat): seq<seq<nat>>
    decreases n, 1, 0
  {
    if n == 0 then [[]] else EnumFrom(n, r, 0)
  }

  /** The part of `Enum(n, r)` whose first entry is at least i. */
  function EnumFrom(n: nat, r: nat, i: nat): seq<seq<nat>>
    requires n > 0
    decreases n, 0, r + 1 - i
  {
    if i > r then [] else Cons(i, Enum(n - 1, r - i)) + EnumFrom(n, r, i + 1)
  }

  /**
   * Number of tuples of length d+1 and degree at most `order` whose time
   * exponent is 0 or 1: C(d+order, order) + C(d+order-1, order-1), the number
   * of basis functions of a Trefftz element.
   */
  function SliceCount(d: nat, order: nat): nat
  {
    |Enum(d, order)| + if order >= 1 then |Enum(d, order - 1)| else 0
  }

  /** Lexicographic order on tuples of equal length, entry 0 most significant. */
  predicate LexLess(a: seq<nat>, b: seq<nat>)
  {
    |a| > 0 && |b| > 0 && (a[0] < b[0] || (a[0] == b[0] && LexLess(a[1..], b[1..])))
  }

  predicate StrictlySorted(ts: seq<seq<nat>>)
  {
    forall p, q :: 0 <= p < q < |ts| ==> LexLess(ts[p], ts[q])
  }

  lemma {:induction false} LexLessIrreflexive(a: seq<nat>)
    ensures !LexLess(a, a)
  {
    if |a| > 0 {
      LexLessIrreflexive(a[1..]);
    }
  }

  /** The length of a block depends only on how far its start is below the bound. */
  lemma {:induction false} EnumFromShift(n: nat, r: nat, i: nat, s: nat)
    requires n > 0 && s <= i && s <= r
    ensures |EnumFrom(n, r, i)| == |EnumFrom(n, r - s, i - s)|
    decreases r + 1 - i
  {
    if i <= r {
      EnumFromShift(n, r, i + 1, s);
    }
  }

  /** The count of tuples of length n and degree at most r is C(n+r, r). */
  lemma {:induction false} EnumLength(n: nat, r: nat)
    ensures |Enum(n, r)| == Choose(n + r, r)
    decreases n, r
  {
    if n == 0 {
      ChooseDiagonal(r);
    } else {
      EnumLength(n - 1, r);
      assert Enum(n, r) == Cons(0, Enum(n - 1, r)) + EnumFrom(n, r, 1);
      if r > 0 {
        EnumFromShift(n, r, 1, 1);
        EnumLength(n, r - 1);
        assert |EnumFrom(n, r, 1)| == |Enum(n, r - 1)|;
      }
    }
  }

  lemma ConsMember(i: nat, ts: seq<seq<nat>>, t: seq<nat>)
    ensures t in Cons(i, ts) <==> (|t| > 0 && t[0] == i && t[1..] in ts)
  {
    if |t| > 0 && t[0] == i && t[1..] in ts {
      var k :| 0 <= k < |ts| && ts[k] == t[1..];
      assert Cons(i, ts)[k] == t;
    }
  }

  lemma {:induction false} SumHead(t: seq<nat>)
    requires |t| > 0
    ensures t[0] <= Sum(t)
  {
  }

  /** Which tuples a block holds. */
  lemma {:induction false} EnumFromMembers(n: nat, r: nat, i: nat, t: seq<nat>)
    requires n > 0
    ensures t in EnumFrom(n, r, i) <==> (|t| == n && i <= t[0] && Sum(t) <= r)
    decreases n, 0, r + 1 - i
  {
    if i > r {
      if |t| == n && i <= t[0] && Sum(t) <= r {
        SumHead(t);
      }
    } else {
      var left, right := Cons(i, Enum(n - 1, r - i)), EnumFrom(n, r, i + 1);
      assert EnumFrom(n, r, i) == left + right;
      ConsMember(i, Enum(n - 1, r - i), t);
      EnumFromMembers(n, r, i + 1, t);
      if |t| > 0 {
        EnumMembers(n - 1, r - i, t[1..]);
        SumHead(t);
      }
      assert t in left + right <==> t in left || t in right;
    }
  }

  /** Which tuples the enumeration holds: exactly those of length n and degree at most r. */
  lemma {:induction false} EnumMembers(n: nat, r: nat, t: seq<nat>)
    ensures t in Enum(n, r) <==> (|t| == n && Sum(t) <= r)
    decreases n, 1, 0
  {
    if n > 0 {
      EnumFromMembers(n, r, 0, t);
    }
  }

  lemma SortedCons(i: nat, ts: seq<seq<nat>>)
    requires StrictlySorted(ts)
    ensures StrictlySorted(Cons(i, ts))
  {
    var c := Cons(i, ts);
    forall p, q | 0 <= p < q < |c| ensures LexLess(c[p], c[q]) {
      assert c[p][1..] == ts[p] && c[q][1..] == ts[q];
    }
  }

  lemma SortedConcat(a: seq<seq<nat>>, b: seq<seq<nat>>)
    requires StrictlySorted(a) && StrictlySorted(b)
    requires forall p, q :: 0 <= p < |a| && 0 <= q < |b| ==> LexLess(a[p], b[q])
    ensures StrictlySorted(a + b)
  {
    var c := a + b;
    forall p, q | 0 <= p < q < |c| ensures LexLess(c[p], c[q]) {
      if q < |a| {
        assert c[p] == a[p] && c[q] == a[q];
      } else if p >= |a| {
        assert c[p] == b[p - |a|] && c[q] == b[q - |a|];
      } else {
        assert c[p] == a[p] && c[q] == b[q - |a|];
      }
    }
  }

  lemma {:induction false} EnumFromSorted(n: nat, r: nat, i: nat)
    requires n > 0
    ensures StrictlySorted(EnumFrom(n, r, i))
    decreases n, 0, r + 1 - i
  {
    if i <= r {
      var left, right := Cons(i, Enum(n - 1, r - i)), EnumFrom(n, r, i + 1);
      EnumSorted(n - 1, r - i);
      SortedCons(i, Enum(n - 1, r - i));
      EnumFromSorted(n, r, i + 1);
      forall p, q | 0 <= p < |left| && 0 <= q < |right| ensures LexLess(left[p], right[q]) {
        assert right[q] in right;
        EnumFromMembers(n, r, i + 1, right[q]);
        assert left[p] == [i] + Enum(n - 1, r - i)[p];
        assert left[p][0] == i < right[q][0];
      }
      SortedConcat(left, right);
    }
  }

  /** The enumeration is strictly increasing in lexicographic order. */
  lemma {:induction false} EnumSorted(n: nat, r: nat)
    ensures StrictlySorted(Enum(n, r))
    decreases n, 1, 0
  {
    if n > 0 {
      EnumFromSorted(n, r, 0);
    }
  }

  /** Hence every tuple is emitted exactly once. */
  lemma EnumDistinct(n: nat, r: nat)
    ensures forall p, q :: 0 <= p < |Enum(n, r)| && 0 <= q < |Enum(n, r)| && p != q ==> Enum(n, r)[p] != Enum(n, r)[q]
  {
    EnumSorted(n, r);
    forall p, q | 0 <= p < |Enum(n, r)| && 0 <= q < |Enum(n, r)| && p != q
      ensures Enum(n, r)[p] != Enum(n, r)[q]
    {
      LexLessIrreflexive(Enum(n, r)[p]);
    }
  }

  /** The one-variable enumeration is [[0], [1], ..., [r]]. */
  lemma {:induction false} EnumFromOne(r: nat, i: nat)
    requires i <= r + 1
    ensures |EnumFrom(1, r, i)| == r + 1 - i
    ensures forall k :: 0 <= k < r + 1 - i ==> EnumFrom(1, r, i)[k] == [i + k]
    decreases r + 1 - i
  {
    if i <= r {
      EnumFromOne(r, i + 1);
      assert Enum(0, r - i) == [[]];
      assert Cons(i, Enum(0, r - i))[0] == [i];
      assert Cons(i, Enum(0, r - i)) == [[i]];
    }
  }

  lemma EnumOne(r: nat)
    ensures |Enum(1, r)| == r + 1
    ensures forall k :: 0 <= k < r + 1 ==> Enum(1, r)[k] == [k]
  {
    EnumFromOne(r, 0);
  }

  /** Tuples of `Enum(n-1, r)` that a loop over the last entries visits: [[]] or [[0]..[r]]. */
  lemma EnumLast(n: nat, r: nat)
    requires n <= 1
    ensures |Enum(n, r)| == if n == 0 then 1 else r + 1
    ensures forall k :: 0 <= k < |Enum(n, r)| ==> Enum(n, r)[k] == if n == 0 then [] else [k]
  {
    if n == 1 {
      EnumOne(r);
    }
  }

  lemma ConsTail(i: nat, s: seq<seq<nat>>)
    requires |s| > 0
    ensures Cons(i, s)[1..] == Cons(i, s[1..])
  {
  }

  lemma ConsAppend(i: nat, a: seq<seq<nat>>, b: seq<seq<nat>>)
    ensures Cons(i, a + b) == Cons(i, a) + Cons(i, b)
  {
  }
}
