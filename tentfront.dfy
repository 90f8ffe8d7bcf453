/**
 * The advancing front of tent pitching: the tents themselves, the ready
 * list with its flags, the choice of the next vertex, the tent heights, the
 * refresh of the neighbours' budgets, and the invariants the pitching loop
 * keeps.
 */
module TentFront {
  import opened TentPrep
  import opened TentLayout

  /**
   * A tent: its anchor vertex, bottom and top time, level, the neighbour
   * vertices with their front times when it was pitched, the later tents
   * depending on it, its internal facets, its elements and its dof layout.
   */
  datatype Tent = Tent(vertex: nat, tbot: real, ttop: real, level: nat, nbv: seq<nat>, nbtime: seq<real>,
                       dependent: seq<nat>, edges: seq<nat>, els: seq<nat>, layout: Layout)

  // ---------------------------------------------------------------- ready list

  /** Every ready vertex is a vertex, and the flag of v is set exactly when v is in the list once. */
  ghost predicate ReadyOk(nv: nat, ready: seq<nat>, flag: seq<bool>)
  {
    |flag| == nv &&
    (forall i :: 0 <= i < |ready| ==> ready[i] < nv) &&
    (forall v :: 0 <= v < nv ==> multiset(ready)[v] == if flag[v] then 1 else 0)
  }

  /** The ready flags agree with the list, and the list has no duplicates. */
  lemma ReadyOkMeans(nv: nat, ready: seq<nat>, flag: seq<bool>)
    requires ReadyOk(nv, ready, flag)
    ensures forall v :: 0 <= v < nv ==> (flag[v] <==> v in ready)
    ensures forall i, j :: 0 <= i < j < |ready| ==> ready[i] != ready[j]
  {
    forall i, j | 0 <= i < j < |ready|
      ensures ready[i] != ready[j]
    {
      if ready[i] == ready[j] {
        TwoCopies(ready, i, j);
        assert false;
      }
    }
  }

  /** Two equal entries count twice in the multiset. */
  lemma TwoCopies(s: seq<nat>, i: nat, j: nat)
    requires i < j < |s| && s[i] == s[j]
    ensures multiset(s)[s[i]] >= 2
  {
    assert s == s[..j] + s[j..];
    assert s[i] in s[..j] && s[j] in s[j..];
    assert multiset(s)[s[j]] == multiset(s[..j])[s[j]] + multiset(s[j..])[s[j]];
  }

  /** `Array::DeleteElement`: the last entry moves into position i and the list shrinks by one. */
  function DeleteAt(s: seq<nat>, i: nat): (r: seq<nat>)
    requires i < |s|
    ensures |r| == |s| - 1
    ensures multiset(r) == multiset(s) - multiset{s[i]}
  {
    var a, b := s[..i], s[i + 1..];
    assert s == a + [s[i]] + b;
    if i == |s| - 1 then
      assert b == [];
      a
    else
      var c := b[..|b| - 1];
      assert b == c + [s[|s| - 1]];
      assert multiset(s) == multiset(a) + multiset{s[i]} + multiset(c) + multiset{s[|s| - 1]};
      a + [s[|s| - 1]] + c
  }

  /** Taking vertex ready[i] out of the list and clearing its flag keeps the flags and the list in step. */
  lemma DeleteKeepsReady(nv: nat, ready: seq<nat>, flag: seq<bool>, i: nat)
    requires ReadyOk(nv, ready, flag) && i < |ready|
    ensures ReadyOk(nv, DeleteAt(ready, i), flag[ready[i] := false])
  {
    var r := DeleteAt(ready, i);
    forall j | 0 <= j < |r|
      ensures r[j] < nv
    {
      assert r[j] in multiset(r);
      assert r[j] in ready;
    }
  }

  /** Appending a vertex that is not ready and setting its flag keeps the flags and the list in step. */
  lemma AppendKeepsReady(nv: nat, ready: seq<nat>, flag: seq<bool>, v: nat)
    requires ReadyOk(nv, ready, flag) && v < nv && !flag[v]
    ensures ReadyOk(nv, ready + [v], flag[v := true])
  {
  }

  /** What the selection loop promises of its pick pos: the first position of least level below 1000, else 0. */
  predicate IsPick(ready: seq<nat>, level: seq<nat>, pos: nat)
    requires forall i :: 0 <= i < |ready| ==> ready[i] < |level|
  {
    (|ready| > 0 ==> pos < |ready|) &&
    ((forall i :: 0 <= i < |ready| ==> level[ready[i]] >= 1000) ==> pos == 0) &&
    ((exists i :: 0 <= i < |ready| && level[ready[i]] < 1000) ==>
      pos < |ready| && level[ready[pos]] < 1000 &&
      (forall i :: 0 <= i < |ready| ==> level[ready[pos]] <= level[ready[i]]) &&
      (forall i :: 0 <= i < pos ==> level[ready[pos]] < level[ready[i]]))
  }

  /**
   * The selection loop: pos is the first position of least level among the
   * ready vertices, provided that level is below 1000; otherwise 0.
   */
  method SelectMin(ready: seq<nat>, level: seq<nat>) returns (pos: nat)
    requires forall i :: 0 <= i < |ready| ==> ready[i] < |level|
    ensures IsPick(ready, level, pos)
  {
    var minlevel := 1000;
    pos := 0;
    var i := 0;
    while i < |ready|
      invariant i <= |ready| && (|ready| > 0 ==> pos < |ready|)
      invariant minlevel <= 1000
      invariant minlevel < 1000 ==> pos < i && minlevel == level[ready[pos]]
      invariant minlevel == 1000 ==> pos == 0
      invariant forall j :: 0 <= j < i ==> minlevel <= level[ready[j]]
      invariant forall j :: 0 <= j < pos ==> minlevel < level[ready[j]]
      invariant minlevel == 1000 ==> forall j :: 0 <= j < i ==> level[ready[j]] >= 1000
    {
      if level[ready[i]] < minlevel {
        minlevel := level[ready[i]];
        pos := i;
      }
      i := i + 1;
    }
  }

  // ---------------------------------------------------------------- tent heights

  /** The first overload's top: the budget, cut off at the slab height. */
  function PlainTop(tau: real, k: real, dt: real): (t: real)
    ensures t <= dt && (t == dt || t == tau + k)
    ensures k >= 0.0 && tau <= dt ==> tau <= t
  {
    Min(dt, tau + k)
  }

  /**
   * The refined overload's top: dt, marking the vertex complete, when the
   * budget reaches beyond dt; otherwise the full budget, or 0.9 of it when
   * that would leave a gap below dt * 1e-8.
   */
  function RefinedTop(tau: real, k: real, dt: real): (r: (real, bool))
    ensures r.1 <==> tau + k > dt
    ensures r.1 ==> r.0 == dt
    ensures tau < dt ==> r.0 <= dt
    ensures !r.1 ==> r.0 <= tau + k || k < 0.0
    ensures k >= 0.0 && tau <= dt ==> tau <= r.0
  {
    if tau + k > dt then (dt, true)
    else if dt - tau - k < dt * 1e-8 then (tau + 0.9 * k, false)
    else (tau + k, false)
  }

  /** What the refined pick promises of its budget r, from the old budget k and the recomputed height h. */
  predicate Repicks(k: real, h: real, r: real)
  {
    (r == k || r == h) && (k >= 0.0 ==> r <= k) && (h < k ==> r == h) && (r < 0.0 ==> r == h)
  }

  /**
   * The refined overload's pick: the budget k is replaced by the recomputed
   * height h when that is smaller, and by h again when it is still negative.
   */
  method Repick(k: real, h: real) returns (r: real)
    ensures Repicks(k, h, r)
  {
    r := k;
    if h < r {
      r := h;
    }
    if r < 0.0 {
      r := h;
    }
  }

  // ---------------------------------------------------------------- neighbour budgets

  /** The first overload's budget of w over the first k neighbours: the least tau[nb2] - tau[w] + edge_refdt, from 1e99. */
  function Budget(tau: seq<real>, edt: seq<real>, w: nat, row: seq<nat>, erow: seq<nat>, k: nat): real
    requires w < |tau| && k <= |row| <= |erow|
    requires forall j :: 0 <= j < |row| ==> row[j] < |tau| && erow[j] < |edt|
  {
    if k == 0 then Big
    else Min(Budget(tau, edt, w, row, erow, k - 1), tau[row[k - 1]] - tau[w] + edt[erow[k - 1]])
  }

  /** The budget is the minimum of 1e99 and the neighbour terms. */
  lemma {:induction false} BudgetIsMin(tau: seq<real>, edt: seq<real>, w: nat, row: seq<nat>, erow: seq<nat>, k: nat)
    requires w < |tau| && k <= |row| <= |erow|
    requires forall j :: 0 <= j < |row| ==> row[j] < |tau| && erow[j] < |edt|
    ensures Budget(tau, edt, w, row, erow, k) <= Big
    ensures forall j :: 0 <= j < k ==> Budget(tau, edt, w, row, erow, k) <= tau[row[j]] - tau[w] + edt[erow[j]]
    ensures Budget(tau, edt, w, row, erow, k) == Big ||
      exists j :: 0 <= j < k && Budget(tau, edt, w, row, erow, k) == tau[row[j]] - tau[w] + edt[erow[j]]
  {
    if k > 0 {
      BudgetIsMin(tau, edt, w, row, erow, k - 1);
    }
  }

  /** The budget of vertex w over all its neighbours. */
  ghost function Kt(tau: seq<real>, edt: seq<real>, v2v: seq<seq<nat>>, v2e: seq<seq<nat>>, w: nat): real
    requires TablesOk(|tau|, |edt|, v2v, v2e) && w < |tau|
  {
    Budget(tau, edt, w, v2v[w], v2e[w], |v2v[w]|)
  }

  /** The edge-based budget of every vertex. */
  ghost function Budgets(tau: seq<real>, edt: seq<real>, v2v: seq<seq<nat>>, v2e: seq<seq<nat>>): (b: seq<real>)
    requires TablesOk(|tau|, |edt|, v2v, v2e)
    ensures |b| == |tau| && forall w :: 0 <= w < |tau| ==> b[w] == Kt(tau, edt, v2v, v2e, w)
  {
    seq(|tau|, w requires 0 <= w < |tau| => Kt(tau, edt, v2v, v2e, w))
  }

  /** The inner loop of the first overload's refresh: kt = min(kt, tau[nb2] - tau[nb] + edge_refdt[v2e[nb][k]]). */
  method KtLoop(tau: seq<real>, edt: seq<real>, v2v: seq<seq<nat>>, v2e: seq<seq<nat>>, nb: nat) returns (kt: real)
    requires TablesOk(|tau|, |edt|, v2v, v2e) && nb < |tau|
    ensures kt == Kt(tau, edt, v2v, v2e, nb)
  {
    kt := Big;
    var k := 0;
    while k < |v2v[nb]|
      invariant k <= |v2v[nb]| && kt == Budget(tau, edt, nb, v2v[nb], v2e[nb], k)
    {
      var nb2 := v2v[nb][k];
      kt := Min(kt, tau[nb2] - tau[nb] + edt[v2e[nb][k]]);
      k := k + 1;
    }
  }

  // ---------------------------------------------------------------- admitting neighbours

  /** The vertices the refresh appends, in order: those of nbs that qualify and are neither ready nor already appended. */
  function Admitted(nbs: seq<nat>, flag: seq<bool>, ok: seq<bool>): seq<nat>
    requires |ok| == |flag| && forall k :: 0 <= k < |nbs| ==> nbs[k] < |flag|
  {
    if |nbs| == 0 then []
    else
      var a := Admitted(nbs[..|nbs| - 1], flag, ok);
      var nb := nbs[|nbs| - 1];
      if ok[nb] && !flag[nb] && nb !in a then a + [nb] else a
  }

  /** After appending a to the ready list, a vertex is flagged when it was flagged before or is in a. */
  lemma FlagAt(nv: nat, ready: seq<nat>, flag: seq<bool>, a: seq<nat>, flag': seq<bool>, v: nat)
    requires ReadyOk(nv, ready, flag) && ReadyOk(nv, ready + a, flag') && v < nv
    ensures flag'[v] <==> flag[v] || v in a
  {
    ReadyOkMeans(nv, ready, flag);
    ReadyOkMeans(nv, ready + a, flag');
  }

  /** After a refresh loop, a vertex is flagged when it was before or is a neighbour that qualifies. */
  lemma AdmittedFlags(nv: nat, nbs: seq<nat>, flag: seq<bool>, ok: seq<bool>, ready: seq<nat>, flag': seq<bool>)
    requires |ok| == nv && forall k :: 0 <= k < |nbs| ==> nbs[k] < nv
    requires ReadyOk(nv, ready, flag) && ReadyOk(nv, ready + Admitted(nbs, flag, ok), flag')
    ensures forall w :: 0 <= w < nv ==> (flag'[w] <==> flag[w] || (w in nbs && ok[w]))
  {
    AdmittedMembers(nbs, flag, ok);
    ReadyOkMeans(nv, ready, flag);
    ReadyOkMeans(nv, ready + Admitted(nbs, flag, ok), flag');
  }

  /** A neighbour is appended exactly when it qualifies and was not ready, and at most once. */
  lemma {:induction false} AdmittedMembers(nbs: seq<nat>, flag: seq<bool>, ok: seq<bool>)
    requires |ok| == |flag| && forall k :: 0 <= k < |nbs| ==> nbs[k] < |flag|
    ensures forall w :: w in Admitted(nbs, flag, ok) <==> w in nbs && ok[w] && !flag[w]
    ensures forall i, j :: 0 <= i < j < |Admitted(nbs, flag, ok)| ==> Admitted(nbs, flag, ok)[i] != Admitted(nbs, flag, ok)[j]
  {
    if |nbs| > 0 {
      var p := nbs[..|nbs| - 1];
      AdmittedMembers(p, flag, ok);
      assert nbs == p + [nbs[|nbs| - 1]];
    }
  }

  /**
   * The state of a refresh loop after the first j neighbours: each of them
   * below dt has its budget bud, the ready list has gained the admitted ones,
   * and the ready invariant holds.
   */
  ghost predicate Refreshing(nbs: seq<nat>, j: nat, tau: seq<real>, dt: real, bud: seq<real>, ok: seq<bool>,
                             ktilde: seq<real>, ready: seq<nat>, flag: seq<bool>, ktilde': seq<real>, ready': seq<nat>, flag': seq<bool>)
  {
    j <= |nbs| && |bud| == |tau| && |ok| == |tau| && |flag| == |tau| && |ktilde| == |tau| &&
    (forall k :: 0 <= k < |nbs| ==> nbs[k] < |tau|) &&
    |ktilde'| == |tau| && |flag'| == |flag| &&
    (forall w :: 0 <= w < |tau| ==> ktilde'[w] == if w in nbs[..j] && tau[w] < dt then bud[w] else ktilde[w]) &&
    ready' == ready + Admitted(nbs[..j], flag, ok) &&
    ReadyOk(|tau|, ready', flag')
  }

  /** One more neighbour: it takes its budget if below dt, and it is appended when it qualifies and is not flagged yet. */
  lemma RefreshStep(nbs: seq<nat>, j: nat, tau: seq<real>, dt: real, bud: seq<real>, ok: seq<bool>,
                    ktilde: seq<real>, ready: seq<nat>, flag: seq<bool>, ktilde': seq<real>, ready': seq<nat>, flag': seq<bool>,
                    ktilde'': seq<real>, ready'': seq<nat>, flag'': seq<bool>)
    requires Refreshing(nbs, j, tau, dt, bud, ok, ktilde, ready, flag, ktilde', ready', flag') && j < |nbs|
    requires ReadyOk(|tau|, ready, flag)
    requires ktilde'' == if tau[nbs[j]] < dt then ktilde'[nbs[j] := bud[nbs[j]]] else ktilde'
    requires ok[nbs[j]] && !flag'[nbs[j]] ==> ready'' == ready' + [nbs[j]] && flag'' == flag'[nbs[j] := true]
    requires !(ok[nbs[j]] && !flag'[nbs[j]]) ==> ready'' == ready' && flag'' == flag'
    ensures Refreshing(nbs, j + 1, tau, dt, bud, ok, ktilde, ready, flag, ktilde'', ready'', flag'')
  {
    BudgetStep(nbs, j, tau, dt, bud, ktilde, ktilde', ktilde'');
    AdmitStep(nbs, j, tau, ok, ready, flag, ready', flag', ready'', flag'');
  }

  /** The budget side of RefreshStep. */
  lemma BudgetStep(nbs: seq<nat>, j: nat, tau: seq<real>, dt: real, bud: seq<real>, ktilde: seq<real>, ktilde': seq<real>, ktilde'': seq<real>)
    requires j < |nbs| && |bud| == |tau| && |ktilde| == |tau| && |ktilde'| == |tau| && forall k :: 0 <= k < |nbs| ==> nbs[k] < |tau|
    requires forall w :: 0 <= w < |tau| ==> ktilde'[w] == if w in nbs[..j] && tau[w] < dt then bud[w] else ktilde[w]
    requires ktilde'' == if tau[nbs[j]] < dt then ktilde'[nbs[j] := bud[nbs[j]]] else ktilde'
    ensures |ktilde''| == |tau|
    ensures forall w :: 0 <= w < |tau| ==> ktilde''[w] == if w in nbs[..j + 1] && tau[w] < dt then bud[w] else ktilde[w]
  {
    assert nbs[..j + 1] == nbs[..j] + [nbs[j]];
    forall w | 0 <= w < |tau|
      ensures ktilde''[w] == if w in nbs[..j + 1] && tau[w] < dt then bud[w] else ktilde[w]
    {
      assert w in nbs[..j + 1] <==> w in nbs[..j] || w == nbs[j];
    }
  }

  /** The ready side of RefreshStep. */
  lemma AdmitStep(nbs: seq<nat>, j: nat, tau: seq<real>, ok: seq<bool>,
                  ready: seq<nat>, flag: seq<bool>, ready': seq<nat>, flag': seq<bool>, ready'': seq<nat>, flag'': seq<bool>)
    requires j < |nbs| && |ok| == |tau| && |flag| == |tau| && forall k :: 0 <= k < |nbs| ==> nbs[k] < |tau|
    requires ReadyOk(|tau|, ready, flag) && ready' == ready + Admitted(nbs[..j], flag, ok) && ReadyOk(|tau|, ready', flag')
    requires ok[nbs[j]] && !flag'[nbs[j]] ==> ready'' == ready' + [nbs[j]] && flag'' == flag'[nbs[j] := true]
    requires !(ok[nbs[j]] && !flag'[nbs[j]]) ==> ready'' == ready' && flag'' == flag'
    ensures ready'' == ready + Admitted(nbs[..j + 1], flag, ok) && ReadyOk(|tau|, ready'', flag'') && |flag''| == |flag|
  {
    var nb := nbs[j];
    assert nbs[..j + 1][..j] == nbs[..j];
    var a := Admitted(nbs[..j], flag, ok);
    assert Admitted(nbs[..j + 1], flag, ok) == if ok[nb] && !flag[nb] && nb !in a then a + [nb] else a;
    FlagAt(|tau|, ready, flag, a, flag', nb);
    if ok[nb] && !flag'[nb] {
      AppendKeepsReady(|tau|, ready', flag', nb);
    }
  }

  /** A finished refresh loop: every neighbour has been through it. */
  lemma Refreshed(nbs: seq<nat>, tau: seq<real>, dt: real, bud: seq<real>, ok: seq<bool>,
                  ktilde: seq<real>, ready: seq<nat>, flag: seq<bool>, ktilde': seq<real>, ready': seq<nat>, flag': seq<bool>)
    requires Refreshing(nbs, |nbs|, tau, dt, bud, ok, ktilde, ready, flag, ktilde', ready', flag')
    requires ReadyOk(|tau|, ready, flag)
    ensures |ktilde'| == |tau| && forall w :: 0 <= w < |tau| ==> ktilde'[w] == if w in nbs && tau[w] < dt then bud[w] else ktilde[w]
    ensures ready' == ready + Admitted(nbs, flag, ok) && ReadyOk(|tau|, ready', flag')
    ensures |flag'| == |flag| && forall w :: 0 <= w < |tau| ==> (flag'[w] <==> flag[w] || (w in nbs && ok[w]))
  {
    assert nbs[..|nbs|] == nbs;
    AdmittedFlags(|tau|, nbs, flag, ok, ready, flag');
  }

  /** Which vertices the first overload's refresh may append: below dt with a budget above half the reference height. */
  ghost function OkPlain(tau: seq<real>, vref: seq<real>, edt: seq<real>, v2v: seq<seq<nat>>, v2e: seq<seq<nat>>, dt: real): (ok: seq<bool>)
    requires TablesOk(|tau|, |edt|, v2v, v2e) && |vref| == |tau|
    ensures |ok| == |tau|
  {
    seq(|tau|, w requires 0 <= w < |tau| => tau[w] < dt && Kt(tau, edt, v2v, v2e, w) > 0.5 * vref[w])
  }

  /**
   * The first overload's refresh of the neighbours nbs: each one below dt
   * gets its budget recomputed and is appended to the ready list when the
   * budget exceeds half its reference height and it is not ready yet.
   */
  method RefreshPlain(nbs: seq<nat>, tau: seq<real>, ktilde: seq<real>, ready: seq<nat>, flag: seq<bool>,
                      vref: seq<real>, edt: seq<real>, v2v: seq<seq<nat>>, v2e: seq<seq<nat>>, dt: real)
    returns (ktilde': seq<real>, ready': seq<nat>, flag': seq<bool>)
    requires TablesOk(|tau|, |edt|, v2v, v2e) && |ktilde| == |tau| && |vref| == |tau|
    requires ReadyOk(|tau|, ready, flag) && forall k :: 0 <= k < |nbs| ==> nbs[k] < |tau|
    ensures |ktilde'| == |tau|
    ensures forall w :: 0 <= w < |tau| ==> ktilde'[w] == if w in nbs && tau[w] < dt then Kt(tau, edt, v2v, v2e, w) else ktilde[w]
    ensures ready' == ready + Admitted(nbs, flag, OkPlain(tau, vref, edt, v2v, v2e, dt))
    ensures |flag'| == |flag| && forall w :: 0 <= w < |tau| ==> (flag'[w] <==> flag[w] || (w in nbs && OkPlain(tau, vref, edt, v2v, v2e, dt)[w]))
    ensures ReadyOk(|tau|, ready', flag')
  {
    ghost var ok := OkPlain(tau, vref, edt, v2v, v2e, dt);
    ghost var bud := Budgets(tau, edt, v2v, v2e);
    ktilde', ready', flag' := ktilde, ready, flag;
    assert nbs[..0] == [];
    var j := 0;
    while j < |nbs|
      invariant Refreshing(nbs, j, tau, dt, bud, ok, ktilde, ready, flag, ktilde', ready', flag')
    {
      var nb := nbs[j];
      ghost var (k0, r0, f0) := (ktilde', ready', flag');
      assert bud[nb] == Kt(tau, edt, v2v, v2e, nb);
      assert ok[nb] <==> tau[nb] < dt && bud[nb] > 0.5 * vref[nb];
      if tau[nb] < dt {
        var kt := KtLoop(tau, edt, v2v, v2e, nb);
        ktilde' := ktilde'[nb := kt];
        if kt > 0.5 * vref[nb] {
          if !flag'[nb] {
            ready' := ready' + [nb];
            flag' := flag'[nb := true];
          }
        }
      }
      RefreshStep(nbs, j, tau, dt, bud, ok, ktilde, ready, flag, k0, r0, f0, ktilde', ready', flag');
      j := j + 1;
    }
    Refreshed(nbs, tau, dt, bud, ok, ktilde, ready, flag, ktilde', ready', flag');
  }

  /** Which vertices the refined overload's refresh may append: also never a complete one. */
  function OkRefined(tau: seq<real>, vref: seq<real>, complete: seq<bool>, gth: (nat, seq<real>) -> real, dt: real): (ok: seq<bool>)
    requires |vref| == |tau| && |complete| == |tau|
    ensures |ok| == |tau|
  {
    seq(|tau|, w requires 0 <= w < |tau| => tau[w] < dt && gth(w, tau) > 0.5 * vref[w] && !complete[w])
  }

  /**
   * The refined overload's refresh: each neighbour below dt gets the height
   * GetTentHeight gives, and is appended when that exceeds half its
   * reference height and it is neither ready nor complete.
   */
  method RefreshRefined(nbs: seq<nat>, tau: seq<real>, ktilde: seq<real>, ready: seq<nat>, flag: seq<bool>,
                        vref: seq<real>, complete: seq<bool>, gth: (nat, seq<real>) -> real, dt: real)
    returns (ktilde': seq<real>, ready': seq<nat>, flag': seq<bool>)
    requires |ktilde| == |tau| && |vref| == |tau| && |complete| == |tau|
    requires ReadyOk(|tau|, ready, flag) && forall k :: 0 <= k < |nbs| ==> nbs[k] < |tau|
    ensures |ktilde'| == |tau|
    ensures forall w :: 0 <= w < |tau| ==> ktilde'[w] == if w in nbs && tau[w] < dt then gth(w, tau) else ktilde[w]
    ensures ready' == ready + Admitted(nbs, flag, OkRefined(tau, vref, complete, gth, dt))
    ensures |flag'| == |flag| && forall w :: 0 <= w < |tau| ==> (flag'[w] <==> flag[w] || (w in nbs && OkRefined(tau, vref, complete, gth, dt)[w]))
    ensures ReadyOk(|tau|, ready', flag')
    ensures forall w :: 0 <= w < |tau| && complete[w] ==> flag'[w] == flag[w]
  {
    ghost var ok := OkRefined(tau, vref, complete, gth, dt);
    ghost var bud := seq(|tau|, w requires 0 <= w < |tau| => gth(w, tau));
    ktilde', ready', flag' := ktilde, ready, flag;
    assert nbs[..0] == [];
    var j := 0;
    while j < |nbs|
      invariant Refreshing(nbs, j, tau, dt, bud, ok, ktilde, ready, flag, ktilde', ready', flag')
    {
      var nb := nbs[j];
      ghost var (k0, r0, f0) := (ktilde', ready', flag');
      assert bud[nb] == gth(nb, tau);
      assert ok[nb] <==> tau[nb] < dt && bud[nb] > 0.5 * vref[nb] && !complete[nb];
      if tau[nb] < dt {
        ktilde' := ktilde'[nb := gth(nb, tau)];
        if ktilde'[nb] > 0.5 * vref[nb] {
          if !flag'[nb] && !complete[nb] {
            ready' := ready' + [nb];
            flag' := flag'[nb := true];
          }
        }
      }
      RefreshStep(nbs, j, tau, dt, bud, ok, ktilde, ready, flag, k0, r0, f0, ktilde', ready', flag');
      j := j + 1;
    }
    Refreshed(nbs, tau, dt, bud, ok, ktilde, ready, flag, ktilde', ready', flag');
  }
}
