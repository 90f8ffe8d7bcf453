/**
 * The tents as a dependency graph: what one pitching step does to the
 * tents, the levels and the latest tent of each vertex, the invariants the
 * pitching loop keeps about them, and the acyclicity of the dependencies.
 */
module TentGraph {
  import opened TentPrep
  import opened TentLayout
  import opened TentFront

  function Max(a: nat, b: nat): (r: nat)
    ensures r >= a && r >= b && (r == a || r == b)
  {
    if a < b then b else a
  }

  /** n copies of x. */
  function Repeat(x: nat, n: nat): (r: seq<nat>)
    ensures |r| == n && forall j :: 0 <= j < n ==> r[j] == x
  {
    seq(n, _ => x)
  }

  /** How many of the neighbours nbs have tent i as their latest tent. */
  function Links(latest: seq<int>, nbs: seq<nat>, i: int): nat
    requires forall k :: 0 <= k < |nbs| ==> nbs[k] < |latest|
  {
    if |nbs| == 0 then 0
    else Links(latest, nbs[..|nbs| - 1], i) + (if latest[nbs[|nbs| - 1]] == i then 1 else 0)
  }

  /** Tent i gets a new dependent exactly when it is the latest tent of some neighbour. */
  lemma {:induction false} LinksCount(latest: seq<int>, nbs: seq<nat>, i: int)
    requires forall k :: 0 <= k < |nbs| ==> nbs[k] < |latest|
    ensures Links(latest, nbs, i) > 0 <==> exists k :: 0 <= k < |nbs| && latest[nbs[k]] == i
  {
    if |nbs| > 0 {
      var p := nbs[..|nbs| - 1];
      LinksCount(latest, p, i);
      if Links(latest, p, i) > 0 {
        var k :| 0 <= k < |p| && latest[p[k]] == i;
        assert latest[nbs[k]] == i;
      }
      if exists k :: 0 <= k < |nbs| && latest[nbs[k]] == i {
        var k :| 0 <= k < |nbs| && latest[nbs[k]] == i;
        if k < |p| {
          assert latest[p[k]] == i;
        }
      }
    }
  }

  /** The tents after the neighbour loop: tent n is recorded as dependent on the latest tent of each neighbour, once per neighbour. */
  function Linked(tents: seq<Tent>, latest: seq<int>, nbs: seq<nat>, n: nat): (r: seq<Tent>)
    requires forall k :: 0 <= k < |nbs| ==> nbs[k] < |latest|
    ensures |r| == |tents|
  {
    seq(|tents|, i requires 0 <= i < |tents| => tents[i].(dependent := tents[i].dependent + Repeat(n, Links(latest, nbs, i))))
  }

  /** Linking no neighbours changes no tent. */
  lemma LinkedNone(tents: seq<Tent>, latest: seq<int>, n: nat)
    ensures Linked(tents, latest, [], n) == tents
  {
    forall i | 0 <= i < |tents|
      ensures Linked(tents, latest, [], n)[i] == tents[i]
    {
      assert tents[i].dependent + Repeat(n, 0) == tents[i].dependent;
    }
  }

  /** Linking one more neighbour appends n to the dependents of that neighbour's latest tent, if it has one. */
  lemma LinkedStep(tents: seq<Tent>, latest: seq<int>, nbs: seq<nat>, j: nat, n: nat)
    requires j < |nbs| && forall k :: 0 <= k < |nbs| ==> nbs[k] < |latest|
    requires -1 <= latest[nbs[j]] < |tents|
    ensures Linked(tents, latest, nbs[..j + 1], n) ==
      var l := Linked(tents, latest, nbs[..j], n);
      var t := latest[nbs[j]];
      if t == -1 then l else l[t := l[t].(dependent := l[t].dependent + [n])]
  {
    assert nbs[..j + 1][..j] == nbs[..j];
    var l := Linked(tents, latest, nbs[..j], n);
    var t := latest[nbs[j]];
    forall i | 0 <= i < |tents|
      ensures Linked(tents, latest, nbs[..j + 1], n)[i] == if i == t then l[t].(dependent := l[t].dependent + [n]) else l[i]
    {
      var c := Links(latest, nbs[..j], i);
      assert Repeat(n, c + 1) == Repeat(n, c) + [n];
      assert tents[i].dependent + Repeat(n, c + 1) == tents[i].dependent + Repeat(n, c) + [n];
    }
  }

  /** Every neighbour's level raised to at least l + 1. */
  function Raised(level: seq<nat>, nbs: seq<nat>, l: nat): (r: seq<nat>)
    ensures |r| == |level|
  {
    seq(|level|, w requires 0 <= w < |level| => if w in nbs then Max(level[w], l + 1) else level[w])
  }

  /** Raising one more neighbour lifts its level to l + 1 if it is below. */
  lemma RaisedStep(level: seq<nat>, nbs: seq<nat>, j: nat, l: nat)
    requires j < |nbs| && nbs[j] < |level|
    ensures Raised(level, nbs[..j + 1], l) ==
      var r := Raised(level, nbs[..j], l);
      if r[nbs[j]] < l + 1 then r[nbs[j] := l + 1] else r
  {
    assert nbs[..j + 1] == nbs[..j] + [nbs[j]];
  }

  /** The front times of the neighbours nbs. */
  function Snapshot(tau: seq<real>, nbs: seq<nat>): (r: seq<real>)
    requires forall k :: 0 <= k < |nbs| ==> nbs[k] < |tau|
    ensures |r| == |nbs| && forall k :: 0 <= k < |nbs| ==> r[k] == tau[nbs[k]]
  {
    seq(|nbs|, k requires 0 <= k < |nbs| => tau[nbs[k]])
  }

  // ---------------------------------------------------------------- invariants

  /** Tent u follows tent t: its level is higher, t's vertex is one of its neighbours, and it saw t's top there. */
  predicate Follows(t: Tent, u: Tent)
  {
    t.level < u.level && t.vertex in u.nbv && |u.nbtime| == |u.nbv| &&
    forall j :: 0 <= j < |u.nbv| && u.nbv[j] == t.vertex ==> u.nbtime[j] == t.ttop
  }

  /** Dependencies point to later tents, and a dependent tent follows the tent it depends on. */
  ghost predicate DepsOk(tents: seq<Tent>)
  {
    forall i, k :: 0 <= i < |tents| && 0 <= k < |tents[i].dependent| ==>
      i < tents[i].dependent[k] < |tents| && Follows(tents[i], tents[tents[i].dependent[k]])
  }

  /** Each tent stands on a vertex, records that vertex's neighbours with their times, and reaches at most dt. */
  ghost predicate TentsOk(tents: seq<Tent>, nv: nat, v2v: seq<seq<nat>>, dt: real)
    requires |v2v| == nv
  {
    forall i :: 0 <= i < |tents| ==>
      tents[i].vertex < nv && tents[i].nbv == v2v[tents[i].vertex] && |tents[i].nbtime| == |tents[i].nbv| && tents[i].ttop <= dt
  }

  /**
   * The front agrees with the tents: a vertex without a tent is still at
   * time 0; otherwise its latest tent stands on it, its front time is that
   * tent's top, and its level is above that tent's level.
   */
  ghost predicate FrontOk(nv: nat, tau: seq<real>, level: seq<nat>, latest: seq<int>, tents: seq<Tent>)
  {
    |tau| == nv && |level| == nv && |latest| == nv &&
    forall v :: 0 <= v < nv ==>
      -1 <= latest[v] < |tents| &&
      (latest[v] == -1 ==> tau[v] == 0.0) &&
      (latest[v] >= 0 ==> tents[latest[v]].vertex == v && tents[latest[v]].ttop == tau[v] && tents[latest[v]].level < level[v])
  }

  /** Every neighbour of a tent has a level above the tent's. */
  ghost predicate LevelsOk(tents: seq<Tent>, level: seq<nat>)
  {
    forall i, k :: 0 <= i < |tents| && 0 <= k < |tents[i].nbv| ==>
      tents[i].nbv[k] < |level| && tents[i].level < level[tents[i].nbv[k]]
  }

  /** The tent pitched at vi with top ttop, from the front before the step. */
  function NewTent(vi: nat, ttop: real, tau: seq<real>, level: seq<nat>, v2v: seq<seq<nat>>, edges: seq<nat>, els: seq<nat>): Tent
    requires vi < |tau| && vi < |level| && vi < |v2v|
    requires forall k :: 0 <= k < |v2v[vi]| ==> v2v[vi][k] < |tau|
  {
    Tent(vi, tau[vi], ttop, level[vi], v2v[vi], Snapshot(tau[vi := ttop], v2v[vi]), [], edges, els, Empty)
  }

  // ---------------------------------------------------------------- one pitching step

  /** A pitching step keeps the front in agreement with the tents. */
  lemma StepFront(nv: nat, ne: nat, v2v: seq<seq<nat>>, v2e: seq<seq<nat>>, tents: seq<Tent>, tau: seq<real>, level: seq<nat>,
                  latest: seq<int>, vi: nat, ttop: real, t: Tent)
    requires TablesOk(nv, ne, v2v, v2e) && vi < nv && FrontOk(nv, tau, level, latest, tents)
    requires t == NewTent(vi, ttop, tau, level, v2v, t.edges, t.els)
    ensures FrontOk(nv, tau[vi := ttop], Raised(level, v2v[vi], level[vi])[vi := level[vi] + 1], latest[vi := |tents|],
                    Linked(tents, latest, v2v[vi], |tents|) + [t])
  {
    var tents' := Linked(tents, latest, v2v[vi], |tents|) + [t];
    var level' := Raised(level, v2v[vi], level[vi])[vi := level[vi] + 1];
    forall v | 0 <= v < nv && v != vi && latest[v] >= 0
      ensures tents'[latest[v]].vertex == v && tents'[latest[v]].ttop == tau[v] && tents'[latest[v]].level < level'[v]
    {
      assert tents'[latest[v]] == tents[latest[v]].(dependent := tents'[latest[v]].dependent);
    }
  }

  /** A pitching step keeps every tent on its vertex, with its neighbours and a top at most dt. */
  lemma StepTents(nv: nat, ne: nat, v2v: seq<seq<nat>>, v2e: seq<seq<nat>>, tents: seq<Tent>, tau: seq<real>, level: seq<nat>,
                  latest: seq<int>, vi: nat, ttop: real, dt: real, t: Tent)
    requires TablesOk(nv, ne, v2v, v2e) && vi < nv && |tau| == nv && |level| == nv && |latest| == nv && ttop <= dt
    requires TentsOk(tents, nv, v2v, dt)
    requires t == NewTent(vi, ttop, tau, level, v2v, t.edges, t.els)
    ensures TentsOk(Linked(tents, latest, v2v[vi], |tents|) + [t], nv, v2v, dt)
  {
  }

  /** A pitching step keeps every tent's neighbours above its level. */
  lemma StepLevels(nv: nat, ne: nat, v2v: seq<seq<nat>>, v2e: seq<seq<nat>>, tents: seq<Tent>, tau: seq<real>, level: seq<nat>,
                   latest: seq<int>, vi: nat, ttop: real, t: Tent)
    requires TablesOk(nv, ne, v2v, v2e) && vi < nv && |tau| == nv && |level| == nv && |latest| == nv
    requires LevelsOk(tents, level)
    requires t == NewTent(vi, ttop, tau, level, v2v, t.edges, t.els)
    ensures LevelsOk(Linked(tents, latest, v2v[vi], |tents|) + [t], Raised(level, v2v[vi], level[vi])[vi := level[vi] + 1])
  {
    var tents' := Linked(tents, latest, v2v[vi], |tents|) + [t];
    var level' := Raised(level, v2v[vi], level[vi])[vi := level[vi] + 1];
    forall i, k | 0 <= i < |tents'| && 0 <= k < |tents'[i].nbv|
      ensures tents'[i].nbv[k] < |level'| && tents'[i].level < level'[tents'[i].nbv[k]]
    {
      if i < |tents| {
        assert tents'[i].nbv == tents[i].nbv && tents'[i].level == tents[i].level;
      } else {
        assert tents'[i].nbv[k] in v2v[vi];
      }
    }
  }

  /** A pitching step records only dependencies on earlier tents, each followed by the new tent. */
  lemma StepDeps(nv: nat, ne: nat, v2v: seq<seq<nat>>, v2e: seq<seq<nat>>, tents: seq<Tent>, tau: seq<real>, level: seq<nat>,
                 latest: seq<int>, vi: nat, ttop: real, dt: real, t: Tent)
    requires TablesOk(nv, ne, v2v, v2e) && Symmetric(nv, v2v) && vi < nv
    requires FrontOk(nv, tau, level, latest, tents) && TentsOk(tents, nv, v2v, dt) && LevelsOk(tents, level) && DepsOk(tents)
    requires t == NewTent(vi, ttop, tau, level, v2v, t.edges, t.els)
    ensures DepsOk(Linked(tents, latest, v2v[vi], |tents|) + [t])
  {
    var n := |tents|;
    var nbs := v2v[vi];
    var tents' := Linked(tents, latest, nbs, n) + [t];
    forall i, k | 0 <= i < |tents'| && 0 <= k < |tents'[i].dependent|
      ensures i < tents'[i].dependent[k] < |tents'| && Follows(tents'[i], tents'[tents'[i].dependent[k]])
    {
      assert i < n;
      assert tents'[i] == tents[i].(dependent := tents[i].dependent + Repeat(n, Links(latest, nbs, i)));
      if k < |tents[i].dependent| {
        var d := tents[i].dependent[k];
        assert tents'[i].dependent[k] == d;
        assert tents'[d] == tents[d].(dependent := tents'[d].dependent);
      } else {
        assert tents'[i].dependent[k] == n;
        LinksCount(latest, nbs, i);
        var j :| 0 <= j < |nbs| && latest[nbs[j]] == i;
        var nb := nbs[j];
        assert tents[i].vertex == nb && tents[i].ttop == tau[nb];
        assert nb != vi;
        assert vi in v2v[nb];
        assert tents[i].nbv == v2v[nb];
        var p :| 0 <= p < |v2v[nb]| && v2v[nb][p] == vi;
        assert tents[i].level < level[tents[i].nbv[p]];
        forall q | 0 <= q < |t.nbv| && t.nbv[q] == nb
          ensures t.nbtime[q] == tents[i].ttop
        {
        }
        assert Follows(tents[i], t);
      }
    }
  }

  // ---------------------------------------------------------------- acyclicity

  /** A chain of tents, each recorded as dependent on the one before. */
  ghost predicate Chain(tents: seq<Tent>, p: seq<nat>)
  {
    (forall j :: 0 <= j < |p| ==> p[j] < |tents|) &&
    (forall j :: 0 <= j < |p| - 1 ==> p[j + 1] in tents[p[j]].dependent)
  }

  /** Along a chain of dependencies the tent numbers increase. */
  lemma {:induction false} ChainRises(tents: seq<Tent>, p: seq<nat>)
    requires DepsOk(tents) && Chain(tents, p) && |p| >= 2
    ensures p[0] < p[|p| - 1]
  {
    assert p[1] in tents[p[0]].dependent;
    var k :| 0 <= k < |tents[p[0]].dependent| && tents[p[0]].dependent[k] == p[1];
    if |p| > 2 {
      assert Chain(tents, p[1..]);
      ChainRises(tents, p[1..]);
    }
  }

  /** The dependency graph has no cycle: no chain of dependencies leads from a tent back to itself. */
  lemma Acyclic(tents: seq<Tent>, p: seq<nat>)
    requires DepsOk(tents) && Chain(tents, p) && |p| >= 2
    ensures p[0] != p[|p| - 1]
  {
    ChainRises(tents, p);
  }
}
