/**
 * The `pol` vector of the shape evaluations: nested loops over the exponents
 * (i, j) in one space dimension or (i, j, k) in two, with i + j (+ k) <= ord,
 * write term(i, j (, k)) at consecutive positions. The order they write in
 * is exactly Enum, the order of the basis matrix's columns.
 */
module PolFill {
  import opened Tuples

  /** The values f(u) for the tuples u of Enum(n, ord), in that order. */
  function Along(n: nat, ord: nat, f: seq<nat> -> real): (v: seq<real>)
    ensures |v| == |Enum(n, ord)|
    ensures forall p :: 0 <= p < |v| ==> v[p] == f(Enum(n, ord)[p])
  {
    seq(|Enum(n, ord)|, p requires 0 <= p < |Enum(n, ord)| => f(Enum(n, ord)[p]))
  }

  // ---------------------------------------------------------------- positions

  /** Where the tuples with first entry i start in Enum(n, r): the sizes of the blocks before it. */
  function Start(n: nat, r: nat, i: nat): nat
    requires n > 0 && i <= r + 1
  {
    if i == 0 then 0 else Start(n, r, i - 1) + |Enum(n - 1, r - (i - 1))|
  }

  /** Where the y loop at x = j starts, for a degree budget m: the lines 0 .. j-1 hold m+1, m, ... entries. */
  function Line(m: nat, j: nat): nat
    requires j <= m + 1
  {
    if j == 0 then 0 else Line(m, j - 1) + (m - (j - 1) + 1)
  }

  /** Where the y and z loops at x = i start in the three-entry order: the triangles before it. */
  function Block(ord: nat, i: nat): nat
    requires i <= ord + 1
  {
    if i == 0 then 0 else Block(ord, i - 1) + Line(ord - (i - 1), ord - (i - 1) + 1)
  }

  /** The position the one-dimensional pol loops write (i, j) to. */
  function Pos2(ord: nat, i: nat, j: nat): nat
    requires i <= ord + 1
  {
    Line(ord, i) + j
  }

  /** The position the two-dimensional pol loops write (i, j, k) to. */
  function Pos3(ord: nat, i: nat, j: nat, k: nat): nat
    requires i <= ord && j <= ord - i + 1
  {
    Block(ord, i) + Line(ord - i, j) + k
  }

  /**
   * In the part of Enum(n, r) from block i0 on, block i sits at offset
   * Start(i) - Start(i0), and its q-th entry is [i] followed by the q-th
   * tuple of Enum(n-1, r-i).
   */
  lemma {:induction false} EnumFromAt(n: nat, r: nat, i0: nat, i: nat, q: nat)
    requires n > 0 && i0 <= i <= r && q < |Enum(n - 1, r - i)|
    ensures Start(n, r, i0) <= Start(n, r, i)
    ensures Start(n, r, i) - Start(n, r, i0) + q < |EnumFrom(n, r, i0)|
    ensures EnumFrom(n, r, i0)[Start(n, r, i) - Start(n, r, i0) + q] == [i] + Enum(n - 1, r - i)[q]
    decreases i - i0
  {
    var head := Cons(i0, Enum(n - 1, r - i0));
    assert EnumFrom(n, r, i0) == head + EnumFrom(n, r, i0 + 1);
    if i0 < i {
      EnumFromAt(n, r, i0 + 1, i, q);
      assert Start(n, r, i0 + 1) == Start(n, r, i0) + |head|;
    }
  }

  /** The blocks of Enum(n, r) from i0 on fill it to the end. */
  lemma {:induction false} EnumFromLength(n: nat, r: nat, i0: nat)
    requires n > 0 && i0 <= r + 1
    ensures Start(n, r, i0) + |EnumFrom(n, r, i0)| == Start(n, r, r + 1)
    decreases r + 1 - i0
  {
    if i0 <= r {
      EnumFromLength(n, r, i0 + 1);
    }
  }

  /** The one-dimensional blocks are the lines: block i of Enum(2, m) holds m - i + 1 tuples. */
  lemma {:induction false} StartTwo(m: nat, j: nat)
    requires j <= m + 1
    ensures Start(2, m, j) == Line(m, j)
  {
    if j > 0 {
      StartTwo(m, j - 1);
      EnumOne(m - (j - 1));
    }
  }

  /** Block i of Enum(n, r) starts at Start(n, r, i) and lists [i] followed by the tuples of Enum(n-1, r-i). */
  lemma BlockEntry(n: nat, r: nat, i: nat, q: nat)
    requires n > 0 && i <= r && q < |Enum(n - 1, r - i)|
    ensures Start(n, r, i) + q < |Enum(n, r)| && Enum(n, r)[Start(n, r, i) + q] == [i] + Enum(n - 1, r - i)[q]
  {
    EnumFromAt(n, r, 0, i, q);
    assert Enum(n, r) == EnumFrom(n, r, 0);
  }

  /** Enum(n, r) has Start(n, r, r+1) entries. */
  lemma EnumSize(n: nat, r: nat)
    requires n > 0
    ensures |Enum(n, r)| == Start(n, r, r + 1)
  {
    EnumFromLength(n, r, 0);
    assert Enum(n, r) == EnumFrom(n, r, 0);
  }

  /** Enum(2, m) lists (i, j) at position Pos2(m, i, j). */
  lemma EnumTwoAt(m: nat, i: nat, j: nat)
    requires i <= m && j <= m - i
    ensures Pos2(m, i, j) < |Enum(2, m)| && Enum(2, m)[Pos2(m, i, j)] == [i, j]
  {
    EnumOne(m - i);
    BlockEntry(2, m, i, j);
    StartTwo(m, i);
    assert Enum(1, m - i)[j] == [j];
    assert [i] + [j] == [i, j];
  }

  lemma EnumTwoLength(m: nat)
    ensures |Enum(2, m)| == Line(m, m + 1)
  {
    EnumSize(2, m);
    StartTwo(m, m + 1);
  }

  /** The two-dimensional blocks are the triangles of Block. */
  lemma {:induction false} StartThree(ord: nat, i: nat)
    requires i <= ord + 1
    ensures Start(3, ord, i) == Block(ord, i)
  {
    if i > 0 {
      StartThree(ord, i - 1);
      EnumTwoLength(ord - (i - 1));
    }
  }

  /** Enum(3, ord) lists (i, j, k) at Pos3(ord, i, j, k). */
  lemma EnumThreeAt(ord: nat, i: nat, j: nat, k: nat)
    requires i <= ord && j <= ord - i && k <= ord - i - j
    ensures Pos3(ord, i, j, k) < |Enum(3, ord)| && Enum(3, ord)[Pos3(ord, i, j, k)] == [i, j, k]
  {
    EnumTwoAt(ord - i, j, k);
    BlockEntry(3, ord, i, Pos2(ord - i, j, k));
    StartThree(ord, i);
    assert Enum(2, ord - i)[Pos2(ord - i, j, k)] == [j, k];
    assert [i] + [j, k] == [i, j, k];
  }

  lemma EnumThreeLength(ord: nat)
    ensures |Enum(3, ord)| == Block(ord, ord + 1)
  {
    EnumSize(3, ord);
    StartThree(ord, ord + 1);
  }

  /** The values in loop order: term(i, j) at Pos2(ord, i, j). */
  lemma AlongTwo(ord: nat, term: seq<nat> -> real)
    ensures |Along(2, ord, term)| == Line(ord, ord + 1)
    ensures forall i: nat, j: nat :: i <= ord && j <= ord - i ==> Pos2(ord, i, j) < |Along(2, ord, term)|
    ensures forall i: nat, j: nat :: i <= ord && j <= ord - i ==> Along(2, ord, term)[Pos2(ord, i, j)] == term([i, j])
  {
    EnumTwoLength(ord);
    forall i: nat, j: nat | i <= ord && j <= ord - i
      ensures Pos2(ord, i, j) < |Along(2, ord, term)| && Along(2, ord, term)[Pos2(ord, i, j)] == term([i, j])
    {
      EnumTwoAt(ord, i, j);
    }
  }

  /** The values in loop order: term(i, j, k) at Pos3(ord, i, j, k). */
  lemma AlongThree(ord: nat, term: seq<nat> -> real)
    ensures |Along(3, ord, term)| == Block(ord, ord + 1)
    ensures forall i: nat, j: nat, k: nat :: i <= ord && j <= ord - i && k <= ord - i - j ==>
      Pos3(ord, i, j, k) < |Along(3, ord, term)|
    ensures forall i: nat, j: nat, k: nat :: i <= ord && j <= ord - i && k <= ord - i - j ==>
      Along(3, ord, term)[Pos3(ord, i, j, k)] == term([i, j, k])
  {
    EnumThreeLength(ord);
    forall i: nat, j: nat, k: nat | i <= ord && j <= ord - i && k <= ord - i - j
      ensures Pos3(ord, i, j, k) < |Along(3, ord, term)| && Along(3, ord, term)[Pos3(ord, i, j, k)] == term([i, j, k])
    {
      EnumThreeAt(ord, i, j, k);
    }
  }

  // ---------------------------------------------------------------- the loops

  /**
   * The two nested loops of the one-dimensional element: `pol[ii++] = term(i, j)`
   * for i <= ord and j <= ord - i.
   */
  method FillPol2(ord: nat, term: seq<nat> -> real) returns (pol: array<real>)
    ensures fresh(pol) && pol[..] == Along(2, ord, term)
  {
    ghost var v := Along(2, ord, term);
    AlongTwo(ord, term);
    EnumLength(2, ord);
    pol := new real[Choose(2 + ord, ord)];
    var i, ii: nat := 0, 0;
    while i <= ord
      invariant i <= ord + 1 && ii == Line(ord, i) && ii <= pol.Length
      invariant forall p :: 0 <= p < ii ==> pol[p] == v[p]
    {
      ii := FillLine2(ord, term, pol, i, ii, v);
      i := i + 1;
    }
    assert pol[..] == v;
  }

  /** The y loop of FillPol2 at x = i. */
  method FillLine2(ord: nat, term: seq<nat> -> real, pol: array<real>, i: nat, ii0: nat, ghost v: seq<real>)
    returns (ii: nat)
    requires i <= ord && ii0 == Line(ord, i) && pol.Length == |v| && ii0 <= |v|
    requires forall j: nat :: j <= ord - i ==> Pos2(ord, i, j) < |v|
    requires forall j: nat :: j <= ord - i ==> v[Pos2(ord, i, j)] == term([i, j])
    requires forall p :: 0 <= p < ii0 ==> pol[p] == v[p]
    modifies pol
    ensures ii == Line(ord, i + 1) && ii <= pol.Length
    ensures forall p :: 0 <= p < ii ==> pol[p] == v[p]
  {
    var j := 0;
    ii := ii0;
    while j <= ord - i
      invariant j <= ord - i + 1 && ii == Pos2(ord, i, j) && ii <= pol.Length
      invariant forall p :: 0 <= p < ii ==> pol[p] == v[p]
    {
      pol[ii] := term([i, j]);
      ii, j := ii + 1, j + 1;
    }
  }

  /** The three nested loops of the two-dimensional element, with k <= ord - i - j innermost. */
  method FillPol3(ord: nat, term: seq<nat> -> real) returns (pol: array<real>)
    ensures fresh(pol) && pol[..] == Along(3, ord, term)
  {
    ghost var v := Along(3, ord, term);
    AlongThree(ord, term);
    EnumLength(3, ord);
    pol := new real[Choose(3 + ord, ord)];
    var i, ii: nat := 0, 0;
    while i <= ord
      invariant i <= ord + 1 && ii == Block(ord, i) && ii <= pol.Length
      invariant forall p :: 0 <= p < ii ==> pol[p] == v[p]
    {
      ii := FillSlice3(ord, term, pol, i, ii, v);
      i := i + 1;
    }
    assert pol[..] == v;
  }

  /** The y and z loops of FillPol3 at x = i. */
  method FillSlice3(ord: nat, term: seq<nat> -> real, pol: array<real>, i: nat, ii0: nat, ghost v: seq<real>)
    returns (ii: nat)
    requires i <= ord && ii0 == Block(ord, i) && pol.Length == |v| && ii0 <= |v|
    requires forall j: nat, k: nat :: j <= ord - i && k <= ord - i - j ==> Pos3(ord, i, j, k) < |v|
    requires forall j: nat, k: nat :: j <= ord - i && k <= ord - i - j ==> v[Pos3(ord, i, j, k)] == term([i, j, k])
    requires forall p :: 0 <= p < ii0 ==> pol[p] == v[p]
    modifies pol
    ensures ii == Block(ord, i + 1) && ii <= pol.Length
    ensures forall p :: 0 <= p < ii ==> pol[p] == v[p]
  {
    var j := 0;
    ii := ii0;
    while j <= ord - i
      invariant j <= ord - i + 1 && ii == Pos3(ord, i, j, 0) && ii <= pol.Length
      invariant forall p :: 0 <= p < ii ==> pol[p] == v[p]
    {
      ii := FillLine3(ord, term, pol, i, j, ii, v);
      j := j + 1;
    }
  }

  /** The innermost z loop of FillPol3 at (x, y) = (i, j). */
  method FillLine3(ord: nat, term: seq<nat> -> real, pol: array<real>, i: nat, j: nat, ii0: nat, ghost v: seq<real>)
    returns (ii: nat)
    requires i <= ord && j <= ord - i && ii0 == Pos3(ord, i, j, 0) && pol.Length == |v| && ii0 <= |v|
    requires forall k: nat :: k <= ord - i - j ==> Pos3(ord, i, j, k) < |v|
    requires forall k: nat :: k <= ord - i - j ==> v[Pos3(ord, i, j, k)] == term([i, j, k])
    requires forall p :: 0 <= p < ii0 ==> pol[p] == v[p]
    modifies pol
    ensures ii == Pos3(ord, i, j + 1, 0) && ii <= pol.Length
    ensures forall p :: 0 <= p < ii ==> pol[p] == v[p]
  {
    var k := 0;
    ii := ii0;
    while k <= ord - i - j
      invariant k <= ord - i - j + 1 && ii == Pos3(ord, i, j, k) && ii <= pol.Length
      invariant forall p :: 0 <= p < ii ==> pol[p] == v[p]
    {
      pol[ii] := term([i, j, k]);
      ii, k := ii + 1, k + 1;
    }
  }

  /** The pol loops of an element with n = D+1 space-time variables. */
  method FillPol(n: nat, ord: nat, term: seq<nat> -> real) returns (pol: array<real>)
    requires n == 2 || n == 3
    ensures fresh(pol) && pol[..] == Along(n, ord, term)
  {
    if n == 2 {
      pol := FillPol2(ord, term);
    } else {
      pol := FillPol3(ord, term);
    }
  }
}
