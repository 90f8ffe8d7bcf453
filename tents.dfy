/**
 * The tent-pitched slab: the two tent pitching overloads, the dependency
 * table built from the tents, and the dof layout part of setting up the
 * tents.
 */
module Tents {
  import opened TentPrep
  import opened TentLayout
  import opened TentFront
  import opened TentGraph

  /** The internal facets of the tent at vi: the vertex itself in 1-D, its edges in 2-D, its facets in 3-D. */
  function TentEdges(dim: nat, m: Mesh, v2e: seq<seq<nat>>, vi: nat): (r: seq<nat>)
    requires vi < m.nv && |v2e| == m.nv && |m.vertexFacets| == m.nv
    ensures dim == 1 ==> r == [vi]
  {
    if dim == 1 then [vi] else if dim == 2 then v2e[vi] else m.vertexFacets[vi]
  }

  /** The number of dofs of all tents together. */
  function SumNd(tents: seq<Tent>): nat
  {
    if |tents| == 0 then 0 else SumNd(tents[..|tents| - 1]) + tents[|tents| - 1].layout.nd
  }

  /** Freshly pitched tents: each covers the elements around its vertex and has no dof layout yet. */
  ghost predicate Unlaid(m: Mesh, tents: seq<Tent>)
  {
    forall i :: 0 <= i < |tents| ==>
      tents[i].vertex < |m.vertexEls| && tents[i].els == m.vertexEls[tents[i].vertex] && tents[i].layout == Empty
  }

  /** A pitching step keeps the tents fresh. */
  lemma UnlaidStep(m: Mesh, v2v: seq<seq<nat>>, v2e: seq<seq<nat>>, tents: seq<Tent>, tau: seq<real>, level: seq<nat>,
                   latest: seq<int>, vi: nat, ttop: real, edges: seq<nat>)
    requires ValidMesh(m) && TablesOk(m.nv, |m.edges|, v2v, v2e) && vi < m.nv && |tau| == m.nv && |level| == m.nv && |latest| == m.nv
    requires Unlaid(m, tents)
    ensures Unlaid(m, Linked(tents, latest, v2v[vi], |tents|) + [NewTent(vi, ttop, tau, level, v2v, edges, m.vertexEls[vi])])
  {
    var tents' := Linked(tents, latest, v2v[vi], |tents|) + [NewTent(vi, ttop, tau, level, v2v, edges, m.vertexEls[vi])];
    forall i | 0 <= i < |tents|
      ensures tents'[i].vertex == tents[i].vertex && tents'[i].els == tents[i].els && tents'[i].layout == tents[i].layout
    {
    }
  }

  /** A vertex is complete only once its front has reached dt and it has left the ready list; a refined step keeps that. */
  lemma CompleteStep(nv: nat, vi: nat, dt: real, top: (real, bool), tau: seq<real>, tau': seq<real>,
                     complete: seq<bool>, complete': seq<bool>, flag: seq<bool>, flag1: seq<bool>, flag': seq<bool>)
    requires vi < nv && |tau| == nv && |complete| == nv && |flag| == nv && |flag'| == nv && tau[vi] < dt
    requires forall v :: 0 <= v < nv && complete[v] ==> !flag[v] && tau[v] == dt
    requires flag1 == flag[vi := false] && (top.1 ==> top.0 == dt)
    requires complete' == (if top.1 then complete[vi := true] else complete) && tau' == tau[vi := top.0]
    requires forall w :: 0 <= w < nv && complete'[w] ==> flag'[w] == flag1[w]
    ensures forall v :: 0 <= v < nv && complete'[v] ==> !flag'[v] && tau'[v] == dt
  {
  }

  /** One more neighbour: its index, its front time, its raised level and its link each extend the loop's state by one step. */
  lemma NeighbourStep(tents: seq<Tent>, tau: seq<real>, level: seq<nat>, latest: seq<int>, nbs: seq<nat>, j: nat, l: nat, n: nat)
    requires j < |nbs| && |level| == |tau| && |latest| == |tau|
    requires forall k :: 0 <= k < |nbs| ==> nbs[k] < |tau|
    requires -1 <= latest[nbs[j]] < |tents|
    ensures nbs[..j + 1] == nbs[..j] + [nbs[j]]
    ensures Snapshot(tau, nbs[..j + 1]) == Snapshot(tau, nbs[..j]) + [tau[nbs[j]]]
    ensures Raised(level, nbs[..j + 1], l) ==
      var r := Raised(level, nbs[..j], l);
      if r[nbs[j]] < l + 1 then r[nbs[j] := l + 1] else r
    ensures Linked(tents, latest, nbs[..j + 1], n) ==
      var k := Linked(tents, latest, nbs[..j], n);
      var t := latest[nbs[j]];
      if t == -1 then k else k[t := k[t].(dependent := k[t].dependent + [n])]
  {
    assert nbs[..j + 1] == nbs[..j] + [nbs[j]];
    LinkedStep(tents, latest, nbs, j, n);
    RaisedStep(level, nbs, j, l);
  }

  class TentSlab {
    /** The spatial dimension, 1, 2 or 3. */
    const dim: nat
    var tents: seq<Tent>
    /** Row i lists the tents that depend on tent i. */
    var dependency: seq<seq<nat>>
    var spacetimeDofs: nat

    constructor (dim: nat)
      requires 1 <= dim <= 3
      ensures this.dim == dim && tents == [] && dependency == [] && spacetimeDofs == 0
    {
      this.dim := dim;
      tents := [];
      dependency := [];
      spacetimeDofs := 0;
    }

    /**
     * The loop over the anchor's neighbours: record each neighbour and its
     * front time, raise its level to at least l + 1, and record the new tent
     * as dependent on the neighbour's latest tent.
     */
    method Neighbours(nbs: seq<nat>, tau: seq<real>, level: seq<nat>, latest: seq<int>, l: nat)
      returns (nbv: seq<nat>, nbtime: seq<real>, level': seq<nat>)
      modifies this
      requires |level| == |tau| && |latest| == |tau|
      requires forall k :: 0 <= k < |nbs| ==> nbs[k] < |tau|
      requires forall v :: 0 <= v < |latest| ==> -1 <= latest[v] < |tents|
      ensures nbv == nbs && nbtime == Snapshot(tau, nbs)
      ensures level' == Raised(level, nbs, l)
      ensures tents == Linked(old(tents), latest, nbs, old(|tents|))
    {
      ghost var t0 := tents;
      var n: nat := |tents|;
      nbv, nbtime, level' := [], [], level;
      LinkedNone(t0, latest, n);
      assert nbs[..0] == [];
      var j := 0;
      while j < |nbs|
        invariant j <= |nbs| && |tents| == n
        invariant nbv == nbs[..j] && nbtime == Snapshot(tau, nbs[..j])
        invariant level' == Raised(level, nbs[..j], l)
        invariant tents == Linked(t0, latest, nbs[..j], n)
      {
        var nb := nbs[j];
        NeighbourStep(t0, tau, level, latest, nbs, j, l, n);
        nbv := nbv + [nb];
        nbtime := nbtime + [tau[nb]];
        if level'[nb] < l + 1 {
          level' := level'[nb := l + 1];
        }
        if latest[nb] != -1 {
          tents := tents[latest[nb] := tents[latest[nb]].(dependent := tents[latest[nb]].dependent + [n])];
        }
        j := j + 1;
      }
      assert nbs[..j] == nbs;
    }

    /**
     * Pitch a tent at vi with top ttop: its bottom is the front time of vi,
     * vi's front time becomes ttop, the neighbour loop runs, vi's latest
     * tent becomes the new one and vi's level goes up by one.
     */
    method Pitch(m: Mesh, v2v: seq<seq<nat>>, v2e: seq<seq<nat>>, dt: real, vi: nat, ttop: real,
                 tau: seq<real>, level: seq<nat>, latest: seq<int>)
      returns (tau': seq<real>, level': seq<nat>, latest': seq<int>)
      modifies this
      requires ValidMesh(m) && TablesOk(m.nv, |m.edges|, v2v, v2e) && Symmetric(m.nv, v2v)
      requires vi < m.nv && ttop <= dt
      requires FrontOk(m.nv, tau, level, latest, tents) && TentsOk(tents, m.nv, v2v, dt)
      requires LevelsOk(tents, level) && DepsOk(tents)
      ensures tau' == tau[vi := ttop] && latest' == latest[vi := old(|tents|)]
      ensures level' == Raised(level, v2v[vi], level[vi])[vi := level[vi] + 1]
      ensures tents == Linked(old(tents), latest, v2v[vi], old(|tents|)) +
                       [NewTent(vi, ttop, tau, level, v2v, TentEdges(dim, m, v2e, vi), m.vertexEls[vi])]
      ensures FrontOk(m.nv, tau', level', latest', tents) && TentsOk(tents, m.nv, v2v, dt)
      ensures LevelsOk(tents, level') && DepsOk(tents)
    {
      ghost var t0 := tents;
      var n := |tents|;
      var tbot := tau[vi];
      var l := level[vi];
      tau' := tau[vi := ttop];
      var nbv, nbtime;
      nbv, nbtime, level' := Neighbours(v2v[vi], tau', level, latest, l);
      latest' := latest[vi := n];
      level' := level'[vi := l + 1];
      var edges := if dim == 1 then [vi] else if dim == 2 then v2e[vi] else m.vertexFacets[vi];
      var t := Tent(vi, tbot, ttop, l, nbv, nbtime, [], edges, m.vertexEls[vi], Empty);
      tents := tents + [t];
      assert t == NewTent(vi, ttop, tau, level, v2v, t.edges, t.els);
      StepFront(m.nv, |m.edges|, v2v, v2e, t0, tau, level, latest, vi, ttop, t);
      StepTents(m.nv, |m.edges|, v2v, v2e, t0, tau, level, latest, vi, ttop, dt, t);
      StepLevels(m.nv, |m.edges|, v2v, v2e, t0, tau, level, latest, vi, ttop, t);
      StepDeps(m.nv, |m.edges|, v2v, v2e, t0, tau, level, latest, vi, ttop, dt, t);
    }

    /** The ready list of all vertices, in order. */
    method AllReady(nv: nat) returns (ready: seq<nat>)
      ensures ReadyOk(nv, ready, seq(nv, _ => true))
      ensures |ready| == nv && forall i :: 0 <= i < nv ==> ready[i] == i
    {
      ready := [];
      var i := 0;
      while i < nv
        invariant i <= nv && |ready| == i && forall j :: 0 <= j < i ==> ready[j] == j
        invariant forall v :: 0 <= v < nv ==> multiset(ready)[v] == if v < i then 1 else 0
      {
        ready := ready + [i];
        i := i + 1;
      }
    }

    /**
     * One pass of the first overload's loop: pick the ready vertex vi at pos,
     * pitch its tent up to PlainTop, and refresh its neighbours' budgets and
     * the ready list.
     */
    method PlainStep(m: Mesh, v2v: seq<seq<nat>>, v2e: seq<seq<nat>>, edt: seq<real>, vref: seq<real>, dt: real,
                     tau: seq<real>, ktilde: seq<real>, level: seq<nat>, latest: seq<int>, ready: seq<nat>, flag: seq<bool>)
      returns (tau': seq<real>, ktilde': seq<real>, level': seq<nat>, latest': seq<int>, ready': seq<nat>, flag': seq<bool>,
               ghost pos: nat, ghost vi: nat)
      modifies this
      requires ValidMesh(m) && TablesOk(m.nv, |edt|, v2v, v2e) && Symmetric(m.nv, v2v) && |edt| == |m.edges|
      requires |ready| > 0 && |ktilde| == m.nv && |vref| == m.nv
      requires ReadyOk(m.nv, ready, flag) && FrontOk(m.nv, tau, level, latest, tents) && TentsOk(tents, m.nv, v2v, dt)
      requires LevelsOk(tents, level) && DepsOk(tents) && Unlaid(m, tents)
      requires dt >= 0.0 ==> forall v :: 0 <= v < m.nv ==> tau[v] <= dt
      ensures pos < |ready| && vi == ready[pos] && vi < m.nv && IsPick(ready, level, pos)
      ensures tau' == tau[vi := PlainTop(tau[vi], ktilde[vi], dt)] && latest' == latest[vi := old(|tents|)]
      ensures level' == Raised(level, v2v[vi], level[vi])[vi := level[vi] + 1]
      ensures tents == Linked(old(tents), latest, v2v[vi], old(|tents|)) +
                       [NewTent(vi, PlainTop(tau[vi], ktilde[vi], dt), tau, level, v2v, TentEdges(dim, m, v2e, vi), m.vertexEls[vi])]
      ensures |ktilde'| == m.nv &&
        forall w :: 0 <= w < m.nv ==> ktilde'[w] == if w in v2v[vi] && tau'[w] < dt then Kt(tau', edt, v2v, v2e, w) else ktilde[w]
      ensures ready' == DeleteAt(ready, pos) + Admitted(v2v[vi], flag[vi := false], OkPlain(tau', vref, edt, v2v, v2e, dt))
      ensures |flag'| == m.nv && forall w :: 0 <= w < m.nv ==>
        (flag'[w] <==> flag[vi := false][w] || (w in v2v[vi] && OkPlain(tau', vref, edt, v2v, v2e, dt)[w]))
      ensures |tents| == old(|tents|) + 1
      ensures ReadyOk(m.nv, ready', flag') && FrontOk(m.nv, tau', level', latest', tents) && TentsOk(tents, m.nv, v2v, dt)
      ensures LevelsOk(tents, level') && DepsOk(tents) && Unlaid(m, tents)
      ensures dt >= 0.0 ==> forall v :: 0 <= v < m.nv ==> tau'[v] <= dt
    {
      var at := SelectMin(ready, level);
      var v := ready[at];
      pos, vi := at, v;
      DeleteKeepsReady(m.nv, ready, flag, at);
      tau', ktilde', level', latest', ready', flag' :=
        PitchPlain(m, v2v, v2e, edt, vref, dt, v, tau, ktilde, level, latest, DeleteAt(ready, at), flag[v := false]);
    }

    /**
     * The pitching half of PlainStep, for a vertex vi already taken off the
     * ready list: pitch its tent up to PlainTop and refresh its neighbours.
     */
    method PitchPlain(m: Mesh, v2v: seq<seq<nat>>, v2e: seq<seq<nat>>, edt: seq<real>, vref: seq<real>, dt: real,
                      vi: nat, tau: seq<real>, ktilde: seq<real>, level: seq<nat>, latest: seq<int>, ready: seq<nat>, flag: seq<bool>)
      returns (tau': seq<real>, ktilde': seq<real>, level': seq<nat>, latest': seq<int>, ready': seq<nat>, flag': seq<bool>)
      modifies this
      requires ValidMesh(m) && TablesOk(m.nv, |edt|, v2v, v2e) && Symmetric(m.nv, v2v) && |edt| == |m.edges|
      requires vi < m.nv && |ktilde| == m.nv && |vref| == m.nv
      requires ReadyOk(m.nv, ready, flag) && FrontOk(m.nv, tau, level, latest, tents) && TentsOk(tents, m.nv, v2v, dt)
      requires LevelsOk(tents, level) && DepsOk(tents) && Unlaid(m, tents)
      requires dt >= 0.0 ==> forall v :: 0 <= v < m.nv ==> tau[v] <= dt
      ensures tau' == tau[vi := PlainTop(tau[vi], ktilde[vi], dt)] && latest' == latest[vi := old(|tents|)]
      ensures level' == Raised(level, v2v[vi], level[vi])[vi := level[vi] + 1]
      ensures tents == Linked(old(tents), latest, v2v[vi], old(|tents|)) +
                       [NewTent(vi, PlainTop(tau[vi], ktilde[vi], dt), tau, level, v2v, TentEdges(dim, m, v2e, vi), m.vertexEls[vi])]
      ensures |ktilde'| == m.nv &&
        forall w :: 0 <= w < m.nv ==> ktilde'[w] == if w in v2v[vi] && tau'[w] < dt then Kt(tau', edt, v2v, v2e, w) else ktilde[w]
      ensures ready' == ready + Admitted(v2v[vi], flag, OkPlain(tau', vref, edt, v2v, v2e, dt))
      ensures |flag'| == m.nv && forall w :: 0 <= w < m.nv ==>
        (flag'[w] <==> flag[w] || (w in v2v[vi] && OkPlain(tau', vref, edt, v2v, v2e, dt)[w]))
      ensures |tents| == old(|tents|) + 1
      ensures ReadyOk(m.nv, ready', flag') && FrontOk(m.nv, tau', level', latest', tents) && TentsOk(tents, m.nv, v2v, dt)
      ensures LevelsOk(tents, level') && DepsOk(tents) && Unlaid(m, tents)
      ensures dt >= 0.0 ==> forall v :: 0 <= v < m.nv ==> tau'[v] <= dt
    {
      ghost var t0 := tents;
      var ttop := PlainTop(tau[vi], ktilde[vi], dt);
      tau', level', latest' := Pitch(m, v2v, v2e, dt, vi, ttop, tau, level, latest);
      UnlaidStep(m, v2v, v2e, t0, tau, level, latest, vi, ttop, TentEdges(dim, m, v2e, vi));
      ktilde', ready', flag' := RefreshPlain(v2v[vi], tau', ktilde, ready, flag, vref, edt, v2v, v2e, dt);
    }

    /**
     * The first overload: the budget of a vertex is the edge-based bound,
     * refreshed from the neighbours' front times. The loop runs while the
     * ready list is not empty, for at most fuel tents; done tells whether
     * the list ran empty.
     */
    method PitchTents(m: Mesh, dt: real, wavespeed: real, fuel: nat) returns (done: bool)
      modifies this
      requires ValidMesh(m) && wavespeed != 0.0 && tents == []
      ensures |tents| <= fuel
      ensures TentsOk(tents, m.nv, V2V(m), dt) && DepsOk(tents) && Unlaid(m, tents)
      ensures |dependency| == |tents| && forall i :: 0 <= i < |tents| ==> dependency[i] == tents[i].dependent
    {
      var cmax := seq(|m.elEdges|, _ => wavespeed);
      var edt := EdgeRefDt(m, cmax);
      var vref := VertexRefDt(m, edt);
      var tau := seq(m.nv, _ => 0.0);
      var ktilde := vref;
      var ready := AllReady(m.nv);
      var flag := seq(m.nv, _ => true);
      var v2v, v2e := BuildTables(m);
      TablesOkFromMesh(m, v2v, v2e);
      var latest := seq(m.nv, _ => -1);
      var level := seq(m.nv, _ => 0);
      var steps := 0;
      while |ready| > 0 && steps < fuel
        invariant |ktilde| == m.nv && |tents| <= steps <= fuel
        invariant ReadyOk(m.nv, ready, flag) && FrontOk(m.nv, tau, level, latest, tents) && TentsOk(tents, m.nv, v2v, dt)
        invariant LevelsOk(tents, level) && DepsOk(tents) && Unlaid(m, tents)
        invariant dt >= 0.0 ==> forall v :: 0 <= v < m.nv ==> tau[v] <= dt
        decreases fuel - steps
      {
        steps := steps + 1;
        ghost var pos, vi;
        tau, ktilde, level, latest, ready, flag, pos, vi := PlainStep(m, v2v, v2e, edt, vref, dt, tau, ktilde, level, latest, ready, flag);
      }
      done := |ready| == 0;
      assert v2v == V2V(m);
      BuildDependency();
    }

    /**
     * One pass of the refined overload's loop: pick a vertex and recompute
     * its budget; drop it if its front has reached dt or the budget is below
     * half its reference height; otherwise pitch its tent, completing the
     * vertex when the tent reaches dt, and refresh its neighbours.
     */
    method RefinedStep(m: Mesh, v2v: seq<seq<nat>>, v2e: seq<seq<nat>>, vref: seq<real>, gth: (nat, seq<real>) -> real, dt: real,
                       tau: seq<real>, ktilde: seq<real>, level: seq<nat>, latest: seq<int>, ready: seq<nat>, flag: seq<bool>,
                       complete: seq<bool>)
      returns (tau': seq<real>, ktilde': seq<real>, level': seq<nat>, latest': seq<int>, ready': seq<nat>, flag': seq<bool>,
               complete': seq<bool>, ghost pos: nat, ghost vi: nat, ghost k: real)
      modifies this
      requires ValidMesh(m) && TablesOk(m.nv, |m.edges|, v2v, v2e) && Symmetric(m.nv, v2v)
      requires |ready| > 0 && |ktilde| == m.nv && |vref| == m.nv && |complete| == m.nv
      requires ReadyOk(m.nv, ready, flag) && FrontOk(m.nv, tau, level, latest, tents) && TentsOk(tents, m.nv, v2v, dt)
      requires LevelsOk(tents, level) && DepsOk(tents) && Unlaid(m, tents)
      requires dt >= 0.0 ==> forall v :: 0 <= v < m.nv ==> tau[v] <= dt
      requires forall v :: 0 <= v < m.nv && complete[v] ==> !flag[v] && tau[v] == dt
      ensures pos < |ready| && vi == ready[pos] && vi < m.nv && IsPick(ready, level, pos) && Repicks(ktilde[vi], gth(vi, tau), k)
      ensures tau[vi] < dt && k >= 0.5 * vref[vi] ==>
        tau' == tau[vi := RefinedTop(tau[vi], k, dt).0] && latest' == latest[vi := old(|tents|)] &&
        level' == Raised(level, v2v[vi], level[vi])[vi := level[vi] + 1] &&
        tents == Linked(old(tents), latest, v2v[vi], old(|tents|)) +
                 [NewTent(vi, RefinedTop(tau[vi], k, dt).0, tau, level, v2v, TentEdges(dim, m, v2e, vi), m.vertexEls[vi])] &&
        complete' == (if RefinedTop(tau[vi], k, dt).1 then complete[vi := true] else complete) &&
        ready' == DeleteAt(ready, pos) + Admitted(v2v[vi], flag[vi := false], OkRefined(tau', vref, complete', gth, dt))
      ensures tau[vi] < dt && k >= 0.5 * vref[vi] ==> |ktilde'| == m.nv && |flag'| == m.nv && forall w :: 0 <= w < m.nv ==>
        ktilde'[w] == (if w in v2v[vi] && tau'[w] < dt then gth(w, tau') else ktilde[vi := k][w]) &&
        (flag'[w] <==> flag[vi := false][w] || (w in v2v[vi] && OkRefined(tau', vref, complete', gth, dt)[w]))
      ensures !(tau[vi] < dt && k >= 0.5 * vref[vi]) ==>
        tents == old(tents) && tau' == tau && level' == level && latest' == latest && complete' == complete &&
        ktilde' == ktilde[vi := k] && ready' == DeleteAt(ready, pos) && flag' == flag[vi := false]
      ensures |ktilde'| == m.nv && |complete'| == m.nv && |tents| <= old(|tents|) + 1
      ensures ReadyOk(m.nv, ready', flag') && FrontOk(m.nv, tau', level', latest', tents) && TentsOk(tents, m.nv, v2v, dt)
      ensures LevelsOk(tents, level') && DepsOk(tents) && Unlaid(m, tents)
      ensures dt >= 0.0 ==> forall v :: 0 <= v < m.nv ==> tau'[v] <= dt
      ensures forall v :: 0 <= v < m.nv && complete'[v] ==> !flag'[v] && tau'[v] == dt
    {
      var at := SelectMin(ready, level);
      var v := ready[at];
      DeleteKeepsReady(m.nv, ready, flag, at);
      ready' := DeleteAt(ready, at);
      flag' := flag[v := false];
      var budget := Repick(ktilde[v], gth(v, tau));
      pos, vi, k := at, v, budget;
      ktilde' := ktilde[v := budget];
      if tau[v] < dt && budget >= 0.5 * vref[v] {
        tau', ktilde', level', latest', ready', flag', complete' :=
          PitchRefined(m, v2v, v2e, vref, gth, dt, v, tau, ktilde', level, latest, ready', flag', flag, complete);
      } else {
        tau', level', latest', complete' := tau, level, latest, complete;
      }
    }

    /**
     * The pitching half of RefinedStep, for a vertex vi whose front is below
     * dt and whose budget is at least half its reference height: pitch its
     * tent, completing vi when the tent reaches dt, and refresh its neighbours.
     */
    method PitchRefined(m: Mesh, v2v: seq<seq<nat>>, v2e: seq<seq<nat>>, vref: seq<real>, gth: (nat, seq<real>) -> real, dt: real,
                        vi: nat, tau: seq<real>, ktilde: seq<real>, level: seq<nat>, latest: seq<int>, ready: seq<nat>, flag: seq<bool>,
                        ghost flag0: seq<bool>, complete: seq<bool>)
      returns (tau': seq<real>, ktilde': seq<real>, level': seq<nat>, latest': seq<int>, ready': seq<nat>, flag': seq<bool>,
               complete': seq<bool>)
      modifies this
      requires ValidMesh(m) && TablesOk(m.nv, |m.edges|, v2v, v2e) && Symmetric(m.nv, v2v)
      requires vi < m.nv && |ktilde| == m.nv && |vref| == m.nv && |complete| == m.nv && ktilde[vi] >= 0.5 * vref[vi]
      requires ReadyOk(m.nv, ready, flag) && FrontOk(m.nv, tau, level, latest, tents) && TentsOk(tents, m.nv, v2v, dt)
      requires tau[vi] < dt
      requires LevelsOk(tents, level) && DepsOk(tents) && Unlaid(m, tents)
      requires dt >= 0.0 ==> forall v :: 0 <= v < m.nv ==> tau[v] <= dt
      requires |flag0| == m.nv && flag == flag0[vi := false]
      requires forall v :: 0 <= v < m.nv && complete[v] ==> !flag0[v] && tau[v] == dt
      ensures tau' == tau[vi := RefinedTop(tau[vi], ktilde[vi], dt).0] && latest' == latest[vi := old(|tents|)]
      ensures level' == Raised(level, v2v[vi], level[vi])[vi := level[vi] + 1]
      ensures tents == Linked(old(tents), latest, v2v[vi], old(|tents|)) +
                       [NewTent(vi, RefinedTop(tau[vi], ktilde[vi], dt).0, tau, level, v2v, TentEdges(dim, m, v2e, vi), m.vertexEls[vi])]
      ensures complete' == if RefinedTop(tau[vi], ktilde[vi], dt).1 then complete[vi := true] else complete
      ensures ready' == ready + Admitted(v2v[vi], flag, OkRefined(tau', vref, complete', gth, dt))
      ensures |ktilde'| == m.nv && |flag'| == m.nv && forall w :: 0 <= w < m.nv ==>
        ktilde'[w] == (if w in v2v[vi] && tau'[w] < dt then gth(w, tau') else ktilde[w]) &&
        (flag'[w] <==> flag[w] || (w in v2v[vi] && OkRefined(tau', vref, complete', gth, dt)[w]))
      ensures |ktilde'| == m.nv && |complete'| == m.nv && |tents| == old(|tents|) + 1
      ensures ReadyOk(m.nv, ready', flag') && FrontOk(m.nv, tau', level', latest', tents) && TentsOk(tents, m.nv, v2v, dt)
      ensures LevelsOk(tents, level') && DepsOk(tents) && Unlaid(m, tents)
      ensures dt >= 0.0 ==> forall v :: 0 <= v < m.nv ==> tau'[v] <= dt
      ensures forall v :: 0 <= v < m.nv && complete'[v] ==> !flag'[v] && tau'[v] == dt
    {
      ghost var t0 := tents;
      var top := RefinedTop(tau[vi], ktilde[vi], dt);
      complete' := complete;
      if top.1 {
        complete' := complete'[vi := true];
      }
      tau', level', latest' := Pitch(m, v2v, v2e, dt, vi, top.0, tau, level, latest);
      UnlaidStep(m, v2v, v2e, t0, tau, level, latest, vi, top.0, TentEdges(dim, m, v2e, vi));
      ktilde', ready', flag' := RefreshRefined(v2v[vi], tau', ktilde, ready, flag, vref, complete', gth, dt);
      CompleteStep(m.nv, vi, dt, top, tau, tau', complete, complete', flag0, flag, flag');
    }

    /**
     * The refined overload: the budget of a vertex is the height
     * GetTentHeight gives for the current front (gth), and the reference
     * heights are those heights for the initial front.
     */
    method PitchTentsRefined(m: Mesh, dt: real, wavespeed: real, gth: (nat, seq<real>) -> real, fuel: nat)
      returns (done: bool)
      modifies this
      requires ValidMesh(m) && wavespeed != 0.0 && tents == []
      ensures |tents| <= fuel
      ensures TentsOk(tents, m.nv, V2V(m), dt) && DepsOk(tents) && Unlaid(m, tents)
      ensures |dependency| == |tents| && forall i :: 0 <= i < |tents| ==> dependency[i] == tents[i].dependent
    {
      var cmax := seq(|m.elEdges|, _ => wavespeed);
      var edt := EdgeRefDt(m, cmax);
      var vref := VertexRefDt(m, edt);
      var v2v, v2e := BuildTables(m);
      TablesOkFromMesh(m, v2v, v2e);
      var tau := seq(m.nv, _ => 0.0);
      var ready := AllReady(m.nv);
      var i := 0;
      while i < m.nv
        invariant i <= m.nv && |vref| == m.nv
      {
        vref := vref[i := gth(i, tau)];
        i := i + 1;
      }
      var ktilde := vref;
      var flag := seq(m.nv, _ => true);
      var complete := seq(m.nv, _ => false);
      var latest := seq(m.nv, _ => -1);
      var level := seq(m.nv, _ => 0);
      var steps := 0;
      while |ready| > 0 && steps < fuel
        invariant |ktilde| == m.nv && |complete| == m.nv && |tents| <= steps <= fuel
        invariant ReadyOk(m.nv, ready, flag) && FrontOk(m.nv, tau, level, latest, tents) && TentsOk(tents, m.nv, v2v, dt)
        invariant LevelsOk(tents, level) && DepsOk(tents) && Unlaid(m, tents)
        invariant dt >= 0.0 ==> forall v :: 0 <= v < m.nv ==> tau[v] <= dt
        invariant forall v :: 0 <= v < m.nv && complete[v] ==> !flag[v] && tau[v] == dt
        decreases fuel - steps
      {
        steps := steps + 1;
        ghost var pos, vi, k;
        tau, ktilde, level, latest, ready, flag, complete, pos, vi, k :=
          RefinedStep(m, v2v, v2e, vref, gth, dt, tau, ktilde, level, latest, ready, flag, complete);
      }
      done := |ready| == 0;
      assert v2v == V2V(m);
      BuildDependency();
    }

    /** The dependency table: row i receives the dependents of tent i, in order. */
    method BuildDependency()
      modifies this
      ensures tents == old(tents) && spacetimeDofs == old(spacetimeDofs)
      ensures |dependency| == |tents| && forall i :: 0 <= i < |tents| ==> dependency[i] == tents[i].dependent
    {
      var table: seq<seq<nat>> := seq(|tents|, _ => []);
      var i := 0;
      while i < |tents|
        invariant i <= |tents| && |table| == |tents|
        invariant forall j :: 0 <= j < |tents| ==> table[j] == if j < i then tents[j].dependent else []
      {
        var k := 0;
        while k < |tents[i].dependent|
          invariant k <= |tents[i].dependent| && |table| == |tents|
          invariant table[i] == tents[i].dependent[..k]
          invariant forall j :: 0 <= j < |tents| && j != i ==> table[j] == if j < i then tents[j].dependent else []
        {
          assert tents[i].dependent[..k + 1] == tents[i].dependent[..k] + [tents[i].dependent[k]];
          table := table[i := table[i] + [tents[i].dependent[k]]];
          k := k + 1;
        }
        assert tents[i].dependent[..k] == tents[i].dependent;
        i := i + 1;
      }
      dependency := table;
    }

    /**
     * The dof layout part of SetupTents: every tent gathers the dofs of its
     * elements, and the slab counts the dofs of all tents.
     */
    method SetupTents(elDofs: seq<seq<nat>>, elFacets: seq<seq<nat>>)
      modifies this
      requires forall i, j :: 0 <= i < |tents| && 0 <= j < |tents[i].els| ==>
        tents[i].els[j] < |elDofs| && tents[i].els[j] < |elFacets|
      ensures |tents| == old(|tents|) && dependency == old(dependency)
      ensures forall i :: 0 <= i < |tents| ==>
        tents[i] == old(tents[i]).(layout := Laid(old(tents[i]).layout, old(tents[i]).els, old(tents[i]).edges, elDofs, elFacets))
      ensures spacetimeDofs == SumNd(tents)
    {
      spacetimeDofs := 0;
      var i := 0;
      while i < |tents|
        invariant i <= |tents| && |tents| == old(|tents|) && dependency == old(dependency)
        invariant forall j :: 0 <= j < |tents| ==>
          (tents[j] == if j < i then old(tents[j]).(layout := Laid(old(tents[j]).layout, old(tents[j]).els, old(tents[j]).edges, elDofs, elFacets))
                       else old(tents[j]))
        invariant spacetimeDofs == SumNd(tents[..i])
      {
        var t := tents[i];
        var lay := SetupLayout(t.layout, t.els, t.edges, elDofs, elFacets);
        ghost var before := tents;
        tents := tents[i := t.(layout := lay)];
        assert tents[..i + 1][..i] == before[..i];
        spacetimeDofs := spacetimeDofs + lay.nd;
        i := i + 1;
      }
      assert tents[..i] == tents;
    }
  }
}
