/**
 * The preprocessing of tent pitching: the mesh as the scheduler sees it, the
 * edge- and vertex-based time bounds, and the vertex-to-vertex and
 * vertex-to-edge tables.
 */
module TentPrep {
  /** The initial value of every time bound, 1e99. */
  const Big: real := 1e99

  /** `min(a, b)` on doubles. */
  function Min(a: real, b: real): (r: real)
    ensures r <= a && r <= b && (r == a || r == b)
  {
    if b < a then b else a
  }

  /**
   * The mesh: nv vertices, edge e joining edges[e].0 and edges[e].1, the
   * edges of every element, the length of every edge (the distance of its
   * end points), and for each vertex the elements around it and, when D = 3,
   * its facets.
   */
  datatype Mesh = Mesh(nv: nat, edges: seq<(nat, nat)>, elEdges: seq<seq<nat>>, len: seq<real>,
                       vertexEls: seq<seq<nat>>, vertexFacets: seq<seq<nat>>)

  ghost predicate ValidMesh(m: Mesh)
  {
    |m.len| == |m.edges| && |m.vertexEls| == m.nv && |m.vertexFacets| == m.nv &&
    (forall e :: 0 <= e < |m.edges| ==> m.edges[e].0 < m.nv && m.edges[e].1 < m.nv && m.edges[e].0 != m.edges[e].1) &&
    (forall el, j :: 0 <= el < |m.elEdges| && 0 <= j < |m.elEdges[el]| ==> m.elEdges[el][j] < |m.edges|)
  }

  // ---------------------------------------------------------------- the edge bound

  /** edge_refdt[e] once the first k elements are done: the least len[e] / cmax[el] over those containing e, or 1e99. */
  function EdgeRef(m: Mesh, cmax: seq<real>, e: nat, k: nat): real
    requires e < |m.len| && k <= |m.elEdges| && |cmax| == |m.elEdges|
    requires forall el :: 0 <= el < |cmax| ==> cmax[el] != 0.0
  {
    if k == 0 then Big
    else if e in m.elEdges[k - 1] then Min(EdgeRef(m, cmax, e, k - 1), m.len[e] / cmax[k - 1])
    else EdgeRef(m, cmax, e, k - 1)
  }

  /** edge_refdt[e] is the minimum of len[e] / cmax over the elements containing e, and 1e99 when there is none. */
  lemma {:induction false} EdgeRefIsMin(m: Mesh, cmax: seq<real>, e: nat, k: nat)
    requires e < |m.len| && k <= |m.elEdges| && |cmax| == |m.elEdges|
    requires forall el :: 0 <= el < |cmax| ==> cmax[el] != 0.0
    ensures EdgeRef(m, cmax, e, k) <= Big
    ensures forall el :: 0 <= el < k && e in m.elEdges[el] ==> EdgeRef(m, cmax, e, k) <= m.len[e] / cmax[el]
    ensures EdgeRef(m, cmax, e, k) == Big || exists el :: 0 <= el < k && e in m.elEdges[el] && EdgeRef(m, cmax, e, k) == m.len[e] / cmax[el]
    ensures (forall el :: 0 <= el < k ==> e !in m.elEdges[el]) ==> EdgeRef(m, cmax, e, k) == Big
  {
    if k > 0 {
      EdgeRefIsMin(m, cmax, e, k - 1);
    }
  }

  /** The loop over the elements and their edges: edge_refdt[e] = min(edge_refdt[e], len / cmax[el]). */
  method EdgeRefDt(m: Mesh, cmax: seq<real>) returns (edt: seq<real>)
    requires ValidMesh(m) && |cmax| == |m.elEdges|
    requires forall el :: 0 <= el < |cmax| ==> cmax[el] != 0.0
    ensures |edt| == |m.edges| && forall e :: 0 <= e < |edt| ==> edt[e] == EdgeRef(m, cmax, e, |m.elEdges|)
  {
    edt := seq(|m.edges|, _ => Big);
    var el := 0;
    while el < |m.elEdges|
      invariant el <= |m.elEdges| && |edt| == |m.edges|
      invariant forall e :: 0 <= e < |edt| ==> edt[e] == EdgeRef(m, cmax, e, el)
    {
      var j := 0;
      while j < |m.elEdges[el]|
        invariant j <= |m.elEdges[el]| && |edt| == |m.edges|
        invariant forall e :: 0 <= e < |edt| ==>
          edt[e] == if e in m.elEdges[el][..j] then Min(EdgeRef(m, cmax, e, el), m.len[e] / cmax[el]) else EdgeRef(m, cmax, e, el)
      {
        var e := m.elEdges[el][j];
        assert m.elEdges[el][..j + 1] == m.elEdges[el][..j] + [e];
        edt := edt[e := Min(edt[e], m.len[e] / cmax[el])];
        j := j + 1;
      }
      assert m.elEdges[el][..j] == m.elEdges[el];
      el := el + 1;
    }
  }

  // ---------------------------------------------------------------- the vertex bound

  /** vertex_refdt[v] once the first k edges are done: the least edge_refdt over those at v, or 1e99. */
  function VertexRef(m: Mesh, edt: seq<real>, v: nat, k: nat): real
    requires k <= |m.edges| && |edt| == |m.edges|
  {
    if k == 0 then Big
    else if m.edges[k - 1].0 == v || m.edges[k - 1].1 == v then Min(VertexRef(m, edt, v, k - 1), edt[k - 1])
    else VertexRef(m, edt, v, k - 1)
  }

  /** Edge e has v as an end point. */
  predicate At(m: Mesh, e: nat, v: nat)
    requires e < |m.edges|
  {
    m.edges[e].0 == v || m.edges[e].1 == v
  }

  /** vertex_refdt[v] is the minimum of edge_refdt over the edges at v, and 1e99 when there is none. */
  lemma {:induction false} VertexRefIsMin(m: Mesh, edt: seq<real>, v: nat, k: nat)
    requires k <= |m.edges| && |edt| == |m.edges|
    ensures VertexRef(m, edt, v, k) <= Big
    ensures forall e :: 0 <= e < k && At(m, e, v) ==> VertexRef(m, edt, v, k) <= edt[e]
    ensures VertexRef(m, edt, v, k) == Big || exists e :: 0 <= e < k && At(m, e, v) && VertexRef(m, edt, v, k) == edt[e]
    ensures (forall e :: 0 <= e < k ==> !At(m, e, v)) ==> VertexRef(m, edt, v, k) == Big
  {
    if k > 0 {
      VertexRefIsMin(m, edt, v, k - 1);
    }
  }

  /** The loop over the edges lowering the bounds of both end points. */
  method VertexRefDt(m: Mesh, edt: seq<real>) returns (vdt: seq<real>)
    requires ValidMesh(m) && |edt| == |m.edges|
    ensures |vdt| == m.nv && forall v :: 0 <= v < m.nv ==> vdt[v] == VertexRef(m, edt, v, |m.edges|)
  {
    vdt := seq(m.nv, _ => Big);
    var e := 0;
    while e < |m.edges|
      invariant e <= |m.edges| && |vdt| == m.nv
      invariant forall v :: 0 <= v < m.nv ==> vdt[v] == VertexRef(m, edt, v, e)
    {
      var v1, v2 := m.edges[e].0, m.edges[e].1;
      vdt := vdt[v1 := Min(vdt[v1], edt[e])];
      vdt := vdt[v2 := Min(vdt[v2], edt[e])];
      e := e + 1;
    }
  }

  // ---------------------------------------------------------------- the vertex tables

  /** Row v of v2v after the first k edges: the other end point of every edge at v, in edge order. */
  function Adj(m: Mesh, v: nat, k: nat): seq<nat>
    requires k <= |m.edges|
  {
    if k == 0 then []
    else Adj(m, v, k - 1) + (if m.edges[k - 1].0 == v then [m.edges[k - 1].1] else [])
                          + (if m.edges[k - 1].1 == v then [m.edges[k - 1].0] else [])
  }

  /** Row v of v2e after the first k edges: every edge at v, in edge order. */
  function Inc(m: Mesh, v: nat, k: nat): seq<nat>
    requires k <= |m.edges|
  {
    if k == 0 then []
    else Inc(m, v, k - 1) + (if m.edges[k - 1].0 == v then [k - 1] else [])
                          + (if m.edges[k - 1].1 == v then [k - 1] else [])
  }

  /** Edge e joins v and w. */
  predicate Joins(m: Mesh, e: nat, v: nat, w: nat)
    requires e < |m.edges|
  {
    (m.edges[e].0 == v && m.edges[e].1 == w) || (m.edges[e].1 == v && m.edges[e].0 == w)
  }

  /** v2v and v2e are filled in lockstep: entry j of row v of v2e is the edge joining v and entry j of row v of v2v. */
  lemma {:induction false} Lockstep(m: Mesh, v: nat, k: nat)
    requires ValidMesh(m) && k <= |m.edges|
    ensures |Adj(m, v, k)| == |Inc(m, v, k)|
    ensures forall j :: 0 <= j < |Inc(m, v, k)| ==> Inc(m, v, k)[j] < k
    ensures forall j :: 0 <= j < |Inc(m, v, k)| ==> Joins(m, Inc(m, v, k)[j], v, Adj(m, v, k)[j])
  {
    if k > 0 {
      Lockstep(m, v, k - 1);
    }
  }

  /** Every edge at v appears in row v of v2e, and every entry of row v of v2v is a vertex. */
  lemma {:induction false} IncComplete(m: Mesh, v: nat, k: nat)
    requires ValidMesh(m) && k <= |m.edges|
    ensures forall e :: 0 <= e < k && At(m, e, v) ==> e in Inc(m, v, k)
    ensures forall j :: 0 <= j < |Adj(m, v, k)| ==> Adj(m, v, k)[j] < m.nv && Adj(m, v, k)[j] != v
  {
    if k > 0 {
      IncComplete(m, v, k - 1);
    }
  }

  /** The whole v2v table. */
  function V2V(m: Mesh): (t: seq<seq<nat>>)
    ensures |t| == m.nv && forall v :: 0 <= v < m.nv ==> t[v] == Adj(m, v, |m.edges|)
  {
    seq(m.nv, v requires 0 <= v < m.nv => Adj(m, v, |m.edges|))
  }

  /** The table-building loop: for edge e = (v1, v2), v2v gets v1 -> v2 and v2 -> v1, v2e gets v1 -> e and v2 -> e. */
  method BuildTables(m: Mesh) returns (v2v: seq<seq<nat>>, v2e: seq<seq<nat>>)
    requires ValidMesh(m)
    ensures |v2v| == m.nv && |v2e| == m.nv
    ensures forall v :: 0 <= v < m.nv ==> v2v[v] == Adj(m, v, |m.edges|) && v2e[v] == Inc(m, v, |m.edges|)
  {
    v2v := seq(m.nv, _ => []);
    v2e := seq(m.nv, _ => []);
    var e := 0;
    while e < |m.edges|
      invariant e <= |m.edges| && |v2v| == m.nv && |v2e| == m.nv
      invariant forall v :: 0 <= v < m.nv ==> v2v[v] == Adj(m, v, e) && v2e[v] == Inc(m, v, e)
    {
      var v1, v2 := m.edges[e].0, m.edges[e].1;
      v2v := v2v[v1 := v2v[v1] + [v2]];
      v2v := v2v[v2 := v2v[v2] + [v1]];
      v2e := v2e[v1 := v2e[v1] + [e]];
      v2e := v2e[v2 := v2e[v2] + [e]];
      e := e + 1;
    }
  }
  /** v2v's rows list each vertex's neighbours, by the edges in v2e's rows; both tables are symmetric. */
  lemma {:induction false} AdjMembers(m: Mesh, v: nat, w: nat, k: nat)
    requires ValidMesh(m) && k <= |m.edges|
    ensures w in Adj(m, v, k) <==> exists e :: 0 <= e < k && Joins(m, e, v, w)
  {
    if k > 0 {
      AdjMembers(m, v, w, k - 1);
      var ed := m.edges[k - 1];
      var prev, a, b := Adj(m, v, k - 1), (if ed.0 == v then [ed.1] else []), (if ed.1 == v then [ed.0] else []);
      assert Adj(m, v, k) == prev + a + b;
      assert (w in a || w in b) <==> Joins(m, k - 1, v, w);
      if w in Adj(m, v, k) {
        if w in prev {
          var e :| 0 <= e < k - 1 && Joins(m, e, v, w);
          assert 0 <= e < k && Joins(m, e, v, w);
        } else {
          assert 0 <= k - 1 < k && Joins(m, k - 1, v, w);
        }
      } else {
        forall e | 0 <= e < k ensures !Joins(m, e, v, w) {
        }
      }
    }
  }

  /** What the tent pitching loop relies on in the tables: rows in lockstep, entries in range, no vertex its own neighbour. */
  ghost predicate TablesOk(nv: nat, ne: nat, v2v: seq<seq<nat>>, v2e: seq<seq<nat>>)
  {
    |v2v| == nv && |v2e| == nv &&
    (forall v :: 0 <= v < nv ==> |v2e[v]| == |v2v[v]|) &&
    (forall v, k :: 0 <= v < nv && 0 <= k < |v2v[v]| ==> v2v[v][k] < nv && v2v[v][k] != v && v2e[v][k] < ne)
  }

  /** w is a neighbour of v exactly when v is a neighbour of w. */
  ghost predicate Symmetric(nv: nat, v2v: seq<seq<nat>>)
    requires |v2v| == nv
  {
    forall v, w :: 0 <= v < nv && 0 <= w < nv && w in v2v[v] ==> v in v2v[w]
  }

  /** The tables built from a valid mesh are what the tent pitching loop relies on. */
  lemma TablesOkFromMesh(m: Mesh, v2v: seq<seq<nat>>, v2e: seq<seq<nat>>)
    requires ValidMesh(m) && |v2v| == m.nv && |v2e| == m.nv
    requires forall v :: 0 <= v < m.nv ==> v2v[v] == Adj(m, v, |m.edges|) && v2e[v] == Inc(m, v, |m.edges|)
    ensures TablesOk(m.nv, |m.edges|, v2v, v2e)
    ensures Symmetric(m.nv, v2v)
  {
    var E := |m.edges|;
    forall v | 0 <= v < m.nv
      ensures |v2e[v]| == |v2v[v]|
      ensures forall k :: 0 <= k < |v2v[v]| ==> v2v[v][k] < m.nv && v2v[v][k] != v && v2e[v][k] < E
    {
      Lockstep(m, v, E);
      IncComplete(m, v, E);
    }
    forall v, w | 0 <= v < m.nv && 0 <= w < m.nv && w in v2v[v]
      ensures v in v2v[w]
    {
      AdjMembers(m, v, w, E);
      var e :| 0 <= e < E && Joins(m, e, v, w);
      assert Joins(m, e, w, v);
      AdjMembers(m, w, v, E);
    }
  }
}
