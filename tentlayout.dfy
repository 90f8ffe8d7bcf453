/**
 * The dof layout of one tent, the first part of SetupTents: the dofs of the
 * tent's elements are gathered one element after another, each element gets
 * the range of positions its dofs occupy, and each element keeps those of its
 * facets that are internal facets of the tent.
 */
module TentLayout {
  /** ranges[j] = [lo, hi) of element j, the gathered dofs, nd_T, nd and elfnums. */
  datatype Layout = Layout(ranges: seq<(nat, nat)>, dofs: seq<nat>, ndT: seq<nat>, nd: nat, elfnums: seq<seq<nat>>)

  /** The layout of a freshly pitched tent. */
  const Empty: Layout := Layout([], [], [], 0, [])

  /** The dof lists of the elements one after another. */
  function Concat(dn: seq<seq<nat>>): seq<nat>
  {
    if |dn| == 0 then [] else Concat(dn[..|dn| - 1]) + dn[|dn| - 1]
  }

  /** Element j's range starts after the dofs of the elements before it, from offset s on. */
  function Ranges(dn: seq<seq<nat>>, s: nat): (r: seq<(nat, nat)>)
    ensures |r| == |dn|
  {
    seq(|dn|, j requires 0 <= j < |dn| => (s + |Concat(dn[..j])|, s + |Concat(dn[..j + 1])|))
  }

  /** nd_T: the number of dofs of each element. */
  function Sizes(dn: seq<seq<nat>>): (r: seq<nat>)
    ensures |r| == |dn| && forall j :: 0 <= j < |dn| ==> r[j] == |dn[j]|
  {
    seq(|dn|, j requires 0 <= j < |dn| => |dn[j]|)
  }

  /** The dof lists the finite element space gives for the elements els. */
  function DofsOf(els: seq<nat>, elDofs: seq<seq<nat>>): (r: seq<seq<nat>>)
    requires forall j :: 0 <= j < |els| ==> els[j] < |elDofs|
    ensures |r| == |els| && forall j :: 0 <= j < |els| ==> r[j] == elDofs[els[j]]
  {
    seq(|els|, j requires 0 <= j < |els| => elDofs[els[j]])
  }

  /** `Array::Pos`: the first position of x in s, or -1. */
  function Pos(s: seq<nat>, x: nat): (r: int)
    ensures r == -1 <==> x !in s
    ensures r != -1 ==> 0 <= r < |s| && s[r] == x && x !in s[..r]
  {
    if |s| == 0 then -1
    else if s[0] == x then 0
    else
      var p := Pos(s[1..], x);
      assert s[1..][..if p == -1 then 0 else p] == s[1..1 + if p == -1 then 0 else p];
      if p == -1 then -1 else p + 1
  }

  /** The facets of fs that are among the tent's internal facets, in their order. */
  function Keep(fs: seq<nat>, edges: seq<nat>): seq<nat>
  {
    if |fs| == 0 then []
    else Keep(fs[..|fs| - 1], edges) + (if fs[|fs| - 1] in edges then [fs[|fs| - 1]] else [])
  }

  /** elfnums[j] holds exactly the facets of element j that are internal facets of the tent. */
  lemma {:induction false} KeepMembers(fs: seq<nat>, edges: seq<nat>)
    ensures forall f :: f in Keep(fs, edges) <==> f in fs && f in edges
    ensures |Keep(fs, edges)| <= |fs|
  {
    if |fs| > 0 {
      KeepMembers(fs[..|fs| - 1], edges);
      assert fs == fs[..|fs| - 1] + [fs[|fs| - 1]];
    }
  }

  /** Splitting the element list splits the gathered dofs. */
  lemma {:induction false} ConcatSplit(dn: seq<seq<nat>>, j: nat)
    requires j <= |dn|
    ensures Concat(dn) == Concat(dn[..j]) + Concat(dn[j..])
    decreases |dn|
  {
    if j < |dn| {
      var p := dn[..|dn| - 1];
      ConcatSplit(p, j);
      assert p[..j] == dn[..j];
      assert dn[j..][..|dn[j..]| - 1] == p[j..];
    } else {
      assert dn[..j] == dn;
    }
  }

  /** Gathering one more element appends one range, starting where the dofs so far end. */
  lemma RangesPush(dn: seq<seq<nat>>, x: seq<nat>, s: nat)
    ensures Ranges(dn + [x], s) == Ranges(dn, s) + [(s + |Concat(dn)|, s + |Concat(dn)| + |x|)]
  {
    var d := dn + [x];
    var r, q := Ranges(d, s), Ranges(dn, s);
    assert d[..|dn|] == dn && d[..|dn| + 1] == d;
    assert Concat(d) == Concat(dn) + x by {
      assert d[..|d| - 1] == dn;
    }
    RangeAt(d, s, |dn|);
    forall i | 0 <= i < |dn|
      ensures r[i] == q[i]
    {
      assert d[..i + 1] == dn[..i + 1];
      SamePrefix(d, dn, s, i);
    }
  }

  /** Range i depends only on the first i+1 elements. */
  lemma SamePrefix(a: seq<seq<nat>>, b: seq<seq<nat>>, s: nat, i: nat)
    requires i < |a| && i < |b| && a[..i + 1] == b[..i + 1]
    ensures Ranges(a, s)[i] == Ranges(b, s)[i]
  {
    RangeAt(a, s, i);
    RangeAt(b, s, i);
    assert a[..i] == a[..i + 1][..i] && b[..i] == b[..i + 1][..i];
  }

  /** Range j, read off. */
  lemma RangeAt(dn: seq<seq<nat>>, s: nat, j: nat)
    requires j < |dn|
    ensures Ranges(dn, s)[j] == (s + |Concat(dn[..j])|, s + |Concat(dn[..j + 1])|)
  {
  }

  /** One more element appends its dof list to the gathered dofs. */
  lemma ConcatStep(dn: seq<seq<nat>>, j: nat)
    requires j < |dn|
    ensures Concat(dn[..j + 1]) == Concat(dn[..j]) + dn[j]
  {
    assert dn[..j + 1][..j] == dn[..j];
  }

  /** Range j is as long as element j's dof list, and each range starts where the previous ends. */
  lemma RangesTile(dn: seq<seq<nat>>, s: nat)
    ensures forall j :: 0 <= j < |dn| ==> Ranges(dn, s)[j].1 == Ranges(dn, s)[j].0 + |dn[j]|
    ensures forall i, j :: 0 <= i && j == i + 1 && j < |dn| ==> Ranges(dn, s)[i].1 == Ranges(dn, s)[j].0
  {
    forall j | 0 <= j < |dn|
      ensures Ranges(dn, s)[j].1 == Ranges(dn, s)[j].0 + |dn[j]|
    {
      ConcatStep(dn, j);
    }
  }

  /** The ranges start at s and end where the gathered dofs end. */
  lemma RangesEnds(dn: seq<seq<nat>>, s: nat)
    requires |dn| > 0
    ensures Ranges(dn, s)[0].0 == s
    ensures Ranges(dn, s)[|dn| - 1].1 == s + |Concat(dn)|
  {
    assert dn[..0] == [];
    assert dn[..|dn|] == dn;
  }

  /** The gathered dofs in range j are exactly element j's dofs. */
  lemma RangesHoldDofs(dn: seq<seq<nat>>, j: nat)
    requires j < |dn|
    ensures Ranges(dn, 0)[j].0 <= Ranges(dn, 0)[j].1 <= |Concat(dn)|
    ensures Concat(dn)[Ranges(dn, 0)[j].0 .. Ranges(dn, 0)[j].1] == dn[j]
  {
    ConcatSplit(dn, j + 1);
    ConcatStep(dn, j);
    var c := Concat(dn[..j]);
    assert Concat(dn) == c + dn[j] + Concat(dn[j + 1..]);
    assert Ranges(dn, 0)[j] == (|c|, |c| + |dn[j]|);
  }

  /** The facet loop: facet f of the element goes to its row when `edges.Pos(f) != -1`. */
  method KeepFacets(fs: seq<nat>, edges: seq<nat>) returns (row: seq<nat>)
    ensures row == Keep(fs, edges)
  {
    row := [];
    var i := 0;
    while i < |fs|
      invariant i <= |fs| && row == Keep(fs[..i], edges)
    {
      assert fs[..i + 1][..i] == fs[..i];
      if Pos(edges, fs[i]) != -1 {
        row := row + [fs[i]];
      }
      i := i + 1;
    }
    assert fs[..i] == fs;
  }

  /** The facet table: row j keeps element j's internal facets. */
  function Facets(els: seq<nat>, edges: seq<nat>, elFacets: seq<seq<nat>>): (r: seq<seq<nat>>)
    requires forall j :: 0 <= j < |els| ==> els[j] < |elFacets|
    ensures |r| == |els| && forall j :: 0 <= j < |els| ==> r[j] == Keep(elFacets[els[j]], edges)
  {
    seq(|els|, j requires 0 <= j < |els| => Keep(elFacets[els[j]], edges))
  }

  /**
   * The layout after gathering the dofs of els onto lay: each element's
   * range is appended, its dofs and its dof count are appended, nd is the
   * number of gathered dofs, and elfnums keeps each element's internal facets.
   */
  function Laid(lay: Layout, els: seq<nat>, edges: seq<nat>, elDofs: seq<seq<nat>>, elFacets: seq<seq<nat>>): (r: Layout)
    requires forall j :: 0 <= j < |els| ==> els[j] < |elDofs| && els[j] < |elFacets|
    ensures r.nd == |r.dofs|
  {
    var dn := DofsOf(els, elDofs);
    Layout(lay.ranges + Ranges(dn, |lay.dofs|), lay.dofs + Concat(dn), lay.ndT + Sizes(dn), |lay.dofs| + |Concat(dn)|,
           Facets(els, edges, elFacets))
  }

  /** Laid out from scratch, the ranges tile [0, nd), one per element, each as long as the element's dof list. */
  lemma LaidTiles(els: seq<nat>, edges: seq<nat>, elDofs: seq<seq<nat>>, elFacets: seq<seq<nat>>)
    requires forall j :: 0 <= j < |els| ==> els[j] < |elDofs| && els[j] < |elFacets|
    ensures |Laid(Empty, els, edges, elDofs, elFacets).ranges| == |els|
    ensures |els| > 0 ==> Laid(Empty, els, edges, elDofs, elFacets).ranges[0].0 == 0
    ensures |els| > 0 ==> Laid(Empty, els, edges, elDofs, elFacets).ranges[|els| - 1].1 == Laid(Empty, els, edges, elDofs, elFacets).nd
    ensures forall i, j :: 0 <= i && j == i + 1 && j < |els| ==>
      Laid(Empty, els, edges, elDofs, elFacets).ranges[i].1 == Laid(Empty, els, edges, elDofs, elFacets).ranges[j].0
    ensures forall j :: 0 <= j < |els| ==>
      Laid(Empty, els, edges, elDofs, elFacets).ranges[j].1 == Laid(Empty, els, edges, elDofs, elFacets).ranges[j].0 + |elDofs[els[j]]|
  {
    var dn := DofsOf(els, elDofs);
    var r := Laid(Empty, els, edges, elDofs, elFacets);
    LaidFresh(els, edges, elDofs, elFacets);
    var rs := Ranges(dn, 0);
    RangesTile(dn, 0);
    if |els| > 0 {
      RangesEnds(dn, 0);
    }
    forall j | 0 <= j < |els|
      ensures r.ranges[j].1 == r.ranges[j].0 + |elDofs[els[j]]|
    {
      assert r.ranges[j] == rs[j] && dn[j] == elDofs[els[j]];
    }
  }

  /** From scratch, the layout's ranges and nd are those of the gathered dof lists alone. */
  lemma LaidFresh(els: seq<nat>, edges: seq<nat>, elDofs: seq<seq<nat>>, elFacets: seq<seq<nat>>)
    requires forall j :: 0 <= j < |els| ==> els[j] < |elDofs| && els[j] < |elFacets|
    ensures Laid(Empty, els, edges, elDofs, elFacets).ranges == Ranges(DofsOf(els, elDofs), 0)
    ensures Laid(Empty, els, edges, elDofs, elFacets).nd == |Concat(DofsOf(els, elDofs))|
  {
    assert Empty.ranges + Ranges(DofsOf(els, elDofs), 0) == Ranges(DofsOf(els, elDofs), 0);
  }

  /** Laid out from scratch, element j's range of the gathered dofs holds exactly element j's dofs. */
  lemma LaidHoldsDofs(els: seq<nat>, edges: seq<nat>, elDofs: seq<seq<nat>>, elFacets: seq<seq<nat>>, j: nat)
    requires forall j :: 0 <= j < |els| ==> els[j] < |elDofs| && els[j] < |elFacets|
    requires j < |els|
    ensures Laid(Empty, els, edges, elDofs, elFacets).ranges[j].0 <= Laid(Empty, els, edges, elDofs, elFacets).ranges[j].1 <= Laid(Empty, els, edges, elDofs, elFacets).nd
    ensures Laid(Empty, els, edges, elDofs, elFacets).dofs[Laid(Empty, els, edges, elDofs, elFacets).ranges[j].0 .. Laid(Empty, els, edges, elDofs, elFacets).ranges[j].1] == elDofs[els[j]]
  {
    var dn := DofsOf(els, elDofs);
    var r := Laid(Empty, els, edges, elDofs, elFacets);
    assert Empty.ranges + Ranges(dn, 0) == Ranges(dn, 0);
    assert Empty.dofs + Concat(dn) == Concat(dn);
    RangesHoldDofs(dn, j);
  }

  /** elfnums[j] holds exactly the facets of element j that are internal facets of the tent. */
  lemma LaidFacets(lay: Layout, els: seq<nat>, edges: seq<nat>, elDofs: seq<seq<nat>>, elFacets: seq<seq<nat>>, j: nat)
    requires forall j :: 0 <= j < |els| ==> els[j] < |elDofs| && els[j] < |elFacets|
    requires j < |els|
    ensures forall f :: f in Laid(lay, els, edges, elDofs, elFacets).elfnums[j] <==> f in elFacets[els[j]] && f in edges
  {
    KeepMembers(elFacets[els[j]], edges);
  }

  /** One pass of the gathering loop appends element j's range, dofs and dof count. */
  lemma GatherStep(lay: Layout, dn: seq<seq<nat>>, j: nat)
    requires j < |dn|
    ensures lay.dofs + Concat(dn[..j + 1]) == lay.dofs + Concat(dn[..j]) + dn[j]
    ensures lay.ranges + Ranges(dn[..j + 1], |lay.dofs|) ==
      lay.ranges + Ranges(dn[..j], |lay.dofs|) + [(|lay.dofs + Concat(dn[..j])|, |lay.dofs + Concat(dn[..j])| + |dn[j]|)]
    ensures lay.ndT + Sizes(dn[..j + 1]) == lay.ndT + Sizes(dn[..j]) + [|dn[j]|]
  {
    assert dn[..j + 1] == dn[..j] + [dn[j]];
    ConcatStep(dn, j);
    RangesPush(dn[..j], dn[j], |lay.dofs|);
    assert Sizes(dn[..j + 1]) == Sizes(dn[..j]) + [|dn[j]|];
  }

  /** The per-tent loop of SetupTents over the tent's elements: each element's range, dofs and dof count are appended. */
  method GatherDofs(lay: Layout, els: seq<nat>, elDofs: seq<seq<nat>>) returns (ranges: seq<(nat, nat)>, dofs: seq<nat>, ndT: seq<nat>)
    requires forall j :: 0 <= j < |els| ==> els[j] < |elDofs|
    ensures ranges == lay.ranges + Ranges(DofsOf(els, elDofs), |lay.dofs|)
    ensures dofs == lay.dofs + Concat(DofsOf(els, elDofs))
    ensures ndT == lay.ndT + Sizes(DofsOf(els, elDofs))
  {
    ghost var dn := DofsOf(els, elDofs);
    ranges, dofs, ndT := lay.ranges, lay.dofs, lay.ndT;
    var j := 0;
    while j < |els|
      invariant j <= |els|
      invariant dofs == lay.dofs + Concat(dn[..j])
      invariant ranges == lay.ranges + Ranges(dn[..j], |lay.dofs|)
      invariant ndT == lay.ndT + Sizes(dn[..j])
    {
      var dnums := elDofs[els[j]];
      GatherStep(lay, dn, j);
      ranges := ranges + [(|dofs|, |dofs| + |dnums|)];
      dofs := dofs + dnums;
      ndT := ndT + [|dnums|];
      j := j + 1;
    }
    assert dn[..j] == dn;
  }

  /** The facet loop of SetupTents: row j keeps element j's internal facets. */
  method FacetTable(els: seq<nat>, edges: seq<nat>, elFacets: seq<seq<nat>>) returns (elfnums: seq<seq<nat>>)
    requires forall j :: 0 <= j < |els| ==> els[j] < |elFacets|
    ensures elfnums == Facets(els, edges, elFacets)
  {
    elfnums := [];
    var j := 0;
    while j < |els|
      invariant j <= |els| && |elfnums| == j
      invariant forall i :: 0 <= i < j ==> elfnums[i] == Keep(elFacets[els[i]], edges)
    {
      var row := KeepFacets(elFacets[els[j]], edges);
      elfnums := elfnums + [row];
      j := j + 1;
    }
  }

  /** The layout part of SetupTents for one tent: the dofs are gathered, then the facet table is built. */
  method SetupLayout(lay: Layout, els: seq<nat>, edges: seq<nat>, elDofs: seq<seq<nat>>, elFacets: seq<seq<nat>>)
    returns (r: Layout)
    requires forall j :: 0 <= j < |els| ==> els[j] < |elDofs| && els[j] < |elFacets|
    ensures r == Laid(lay, els, edges, elDofs, elFacets)
  {
    var ranges, dofs, ndT := GatherDofs(lay, els, elDofs);
    var elfnums := FacetTable(els, edges, elFacets);
    r := Layout(ranges, dofs, ndT, |dofs|, elfnums);
  }
}
