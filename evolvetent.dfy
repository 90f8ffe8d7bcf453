/**
 * The tent evolution driver and its geometry helpers: the space-time
 * vertices of a tent face, the side sort of the face area, the face
 * normal and its orientation, the anisotropic tent diameter and the L2
 * error of a wavefront.
 *
 * Points are given as a sequence indexed by vertex number, each of the
 * spatial dimension; a matrix is a sequence of rows, except the face
 * vertex matrix, which is kept as its sequence of columns.
 */
module EvolveTent {
  import opened TentPrep
  import opened TentLayout
  import opened TentFront
  import opened TentGraph
  import opened Tents

  datatype Option<T> = None | Some(value: T)

  // ---------------------------------------------------------------- driver

  /**
   * EvolveTents up to the per-tent loop, whose body is empty: a slab is
   * made for the mesh and pitched with the wave speed raised by one.
   */
  method EvolveTents(m: Mesh, dim: nat, wavespeed: real, dt: real, fuel: nat) returns (tps: TentSlab)
    requires ValidMesh(m) && 1 <= dim <= 3 && wavespeed + 1.0 != 0.0
    ensures fresh(tps) && tps.dim == dim && |tps.tents| <= fuel
    ensures TentsOk(tps.tents, m.nv, V2V(m), dt) && DepsOk(tps.tents) && Unlaid(m, tps.tents)
    ensures |tps.dependency| == |tps.tents| && forall i :: 0 <= i < |tps.tents| ==> tps.dependency[i] == tps.tents[i].dependent
  {
    tps := new TentSlab(dim);
    var done := tps.PitchTents(m, dt, wavespeed + 1.0, fuel);
  }

  // ---------------------------------------------------------------- face vertices

  /** The time stored with the last occurrence of x among the neighbours, if any. */
  function LastTime(nbv: seq<nat>, nbtime: seq<real>, x: nat): Option<real>
    requires |nbtime| == |nbv|
  {
    if |nbv| == 0 then None
    else if nbv[|nbv| - 1] == x then Some(nbtime[|nbv| - 1])
    else LastTime(nbv[..|nbv| - 1], nbtime[..|nbv| - 1], x)
  }

  /** LastTime finds something exactly for neighbours, and then the time of their last occurrence. */
  lemma {:induction false} LastTimeMeans(nbv: seq<nat>, nbtime: seq<real>, x: nat)
    requires |nbtime| == |nbv|
    ensures LastTime(nbv, nbtime, x) == None <==> x !in nbv
    ensures forall k :: 0 <= k < |nbv| && nbv[k] == x && x !in nbv[k + 1..] ==> LastTime(nbv, nbtime, x) == Some(nbtime[k])
  {
    if |nbv| > 0 {
      var n := |nbv| - 1;
      LastTimeMeans(nbv[..n], nbtime[..n], x);
      assert nbv == nbv[..n] + [nbv[n]];
      forall k | 0 <= k < |nbv| && nbv[k] == x && x !in nbv[k + 1..]
        ensures LastTime(nbv, nbtime, x) == Some(nbtime[k])
      {
        if k < n {
          assert nbv[n] in nbv[k + 1..];
          assert nbv[..n][k + 1..] == nbv[k + 1..n];
        }
      }
    }
  }

  /** The time entry of the face vertex x: ttop or tbot at the anchor, otherwise the neighbour's front time. */
  function FaceTime(t: Tent, x: nat, top: bool): Option<real>
    requires |t.nbtime| == |t.nbv|
  {
    if x == t.vertex then Some(if top then t.ttop else t.tbot) else LastTime(t.nbv, t.nbtime, x)
  }

  /**
   * TentFaceVerts: column i holds the point of the element's vertex vnr[i]
   * and then its time. A vertex that is neither the anchor nor a neighbour
   * gets no time in the source; the model writes 0 there.
   */
  method TentFaceVerts(t: Tent, vnr: seq<nat>, points: seq<seq<real>>, dim: nat, top: bool) returns (v: seq<seq<real>>)
    requires |t.nbtime| == |t.nbv|
    requires forall i :: 0 <= i < |vnr| ==> vnr[i] < |points| && |points[vnr[i]]| == dim
    ensures |v| == |vnr|
    ensures forall i :: 0 <= i < |vnr| ==> |v[i]| == dim + 1 && v[i][..dim] == points[vnr[i]]
    ensures forall i :: 0 <= i < |vnr| && FaceTime(t, vnr[i], top).Some? ==> v[i][dim] == FaceTime(t, vnr[i], top).value
  {
    v := [];
    for ivert := 0 to |vnr|
      invariant |v| == ivert
      invariant forall i :: 0 <= i < ivert ==> |v[i]| == dim + 1 && v[i][..dim] == points[vnr[i]]
      invariant forall i :: 0 <= i < ivert && FaceTime(t, vnr[i], top).Some? ==> v[i][dim] == FaceTime(t, vnr[i], top).value
    {
      var x := vnr[ivert];
      var time := 0.0;
      if x == t.vertex {
        time := if top then t.ttop else t.tbot;
      } else {
        for k := 0 to |t.nbv|
          invariant LastTime(t.nbv[..k], t.nbtime[..k], x).Some? ==> time == LastTime(t.nbv[..k], t.nbtime[..k], x).value
        {
          assert t.nbv[..k + 1][..k] == t.nbv[..k] && t.nbtime[..k + 1][..k] == t.nbtime[..k];
          if x == t.nbv[k] {
            time := t.nbtime[k];
          }
        }
        assert t.nbv[..|t.nbv|] == t.nbv && t.nbtime[..|t.nbv|] == t.nbtime;
      }
      var col := points[x] + [time];
      assert col[..dim] == points[x];
      v := v + [col];
    }
  }

  // ---------------------------------------------------------------- face area

  /** SwapIfGreater: afterwards a >= b, the pair is the input pair in some order, and an ordered pair is kept. */
  method SwapIfGreater(a: real, b: real) returns (a': real, b': real)
    ensures a' >= b'
    ensures (a' == a && b' == b) || (a' == b && b' == a)
    ensures a >= b ==> a' == a && b' == b
  {
    a', b' := a, b;
    if a' < b' {
      var tmp := a';
      a' := b';
      b' := tmp;
    }
  }

  /** The three swaps of TentFaceArea in 2-D sort the side lengths into non-increasing order. */
  method SortSides(a: real, b: real, c: real) returns (a': real, b': real, c': real)
    ensures a' >= b' >= c'
    ensures multiset{a', b', c'} == multiset{a, b, c}
  {
    a', b', c' := a, b, c;
    a', b' := SwapIfGreater(a', b');
    a', c' := SwapIfGreater(a', c');
    b', c' := SwapIfGreater(b', c');
  }

  /** The radicand of the stable Heron formula TentFaceArea evaluates on the sorted sides. */
  function HeronRadicand(a: real, b: real, c: real): real
  {
    (a + (b + c)) * (c - (a - b)) * (c + (a - b)) * (a + (b - c))
  }

  /** On sides sorted as SortSides leaves them and obeying the triangle inequality, the radicand is not negative. */
  lemma HeronNonneg(a: real, b: real, c: real)
    requires a >= b >= c >= 0.0 && a <= b + c
    ensures HeronRadicand(a, b, c) >= 0.0
  {
    var f1, f2, f3, f4 := a + (b + c), c - (a - b), c + (a - b), a + (b - c);
    assert f1 >= 0.0 && f2 >= 0.0 && f3 >= 0.0 && f4 >= 0.0;
    assert f1 * f2 >= 0.0;
    assert f1 * f2 * f3 >= 0.0;
  }

  /** The radicand is sixteen times the squared area whatever the order of the sides: sorting changes only the rounding. */
  lemma HeronSymmetric(a: real, b: real, c: real)
    ensures HeronRadicand(a, b, c) == 2.0 * a * a * b * b + 2.0 * b * b * c * c + 2.0 * c * c * a * a - a * a * a * a - b * b * b * b - c * c * c * c
  {
    var p := (a + (b + c)) * (a + (b - c));
    var q := (c - (a - b)) * (c + (a - b));
    assert p == (a + b) * (a + b) - c * c;
    assert q == c * c - (a - b) * (a - b);
  }

  // ---------------------------------------------------------------- face normal

  function Dot(x: seq<real>, y: seq<real>): real
    requires |x| == |y|
  {
    if |x| == 0 then 0.0 else Dot(x[..|x| - 1], y[..|x| - 1]) + x[|x| - 1] * y[|x| - 1]
  }

  /** The vector x scaled by s. */
  function Scale(x: seq<real>, s: real): (r: seq<real>)
    ensures |r| == |x| && forall i :: 0 <= i < |x| ==> r[i] == s * x[i]
  {
    seq(|x|, i requires 0 <= i < |x| => s * x[i])
  }

  /** Scaling one factor scales the product. */
  lemma {:induction false} DotScale(x: seq<real>, y: seq<real>, s: real)
    requires |x| == |y|
    ensures Dot(Scale(x, s), y) == s * Dot(x, y)
  {
    if |x| > 0 {
      var n := |x| - 1;
      DotScale(x[..n], y[..n], s);
      forall i | 0 <= i < n
        ensures Scale(x, s)[..n][i] == Scale(x[..n], s)[i]
      {
      }
      assert Scale(x, s)[..n] == Scale(x[..n], s);
    }
  }

  /** The edge from column d to column 0 of the square matrix v. */
  function Edge(v: seq<seq<real>>, d: nat): (e: seq<real>)
    requires forall r :: 0 <= r < |v| ==> d < |v[r]| && 0 < |v[r]|
    ensures |e| == |v|
  {
    seq(|v|, r requires 0 <= r < |v| => v[r][0] - v[r][d])
  }

  ghost predicate Square(v: seq<seq<real>>)
  {
    forall r :: 0 <= r < |v| ==> |v[r]| == |v|
  }

  function Det3(a: seq<real>, b: seq<real>, c: seq<real>): real
    requires |a| == 3 && |b| == 3 && |c| == 3
  {
    a[0] * (b[1] * c[2] - b[2] * c[1]) - a[1] * (b[0] * c[2] - b[2] * c[0]) + a[2] * (b[0] * c[1] - b[1] * c[0])
  }

  /** The 2-D normal: the edge from column 0 to column 1 turned by a right angle. */
  function Normal2(v: seq<seq<real>>): (n: seq<real>)
    requires |v| == 2 && Square(v)
    ensures |n| == 2
  {
    [v[1][1] - v[1][0], v[0][0] - v[0][1]]
  }

  /** The 3-D normal: the cross product of the edges from columns 1 and 2 to column 0. */
  function Normal3(v: seq<seq<real>>): (n: seq<real>)
    requires |v| == 3 && Square(v)
    ensures |n| == 3
  {
    var a := Edge(v, 1);
    var b := Edge(v, 2);
    [a[1] * b[2] - a[2] * b[1], a[2] * b[0] - a[0] * b[2], a[0] * b[1] - a[1] * b[0]]
  }

  /** Row k of the differenced 4 x 4 matrix, columns 1 to 3: the edges to column 0. */
  function Minor(v: seq<seq<real>>, k: nat): (r: seq<real>)
    requires |v| == 4 && Square(v) && k < 4
    ensures |r| == 3
  {
    [v[k][0] - v[k][1], v[k][0] - v[k][2], v[k][0] - v[k][3]]
  }

  /** The 4-D normal: entry i is the signed determinant of the differenced matrix without row i and column 0. */
  function Normal4(v: seq<seq<real>>): (n: seq<real>)
    requires |v| == 4 && Square(v)
    ensures |n| == 4
  {
    var m0, m1, m2, m3 := Minor(v, 0), Minor(v, 1), Minor(v, 2), Minor(v, 3);
    [Det3(m1, m2, m3), -Det3(m0, m2, m3), Det3(m0, m1, m3), -Det3(m0, m1, m2)]
  }

  /** The normal before normalisation, for faces of dimension 2, 3 or 4. */
  function RawNormal(v: seq<seq<real>>): (n: seq<real>)
    requires 2 <= |v| <= 4 && Square(v)
    ensures |n| == |v|
  {
    if |v| == 2 then Normal2(v) else if |v| == 3 then Normal3(v) else Normal4(v)
  }

  lemma Dot2(x: seq<real>, y: seq<real>)
    requires |x| == 2 && |y| == 2
    ensures Dot(x, y) == x[0] * y[0] + x[1] * y[1]
  {
    assert x[..1][..0] == [] && y[..1][..0] == [];
    assert Dot(x[..1], y[..1]) == x[0] * y[0];
  }

  lemma Dot3(x: seq<real>, y: seq<real>)
    requires |x| == 3 && |y| == 3
    ensures Dot(x, y) == x[0] * y[0] + x[1] * y[1] + x[2] * y[2]
  {
    Dot2(x[..2], y[..2]);
  }

  lemma Dot4(x: seq<real>, y: seq<real>)
    requires |x| == 4 && |y| == 4
    ensures Dot(x, y) == x[0] * y[0] + x[1] * y[1] + x[2] * y[2] + x[3] * y[3]
  {
    Dot3(x[..3], y[..3]);
  }

  /** Laplace expansion of a 4 x 4 determinant whose first column repeats the first column of the others: it vanishes. */
  lemma LaplaceA(a0: real, b0: real, c0: real, a1: real, b1: real, c1: real,
                a2: real, b2: real, c2: real, a3: real, b3: real, c3: real)
    ensures var r0, r1, r2, r3 := [a0, b0, c0], [a1, b1, c1], [a2, b2, c2], [a3, b3, c3];
      a0 * Det3(r1, r2, r3) - a1 * Det3(r0, r2, r3) + a2 * Det3(r0, r1, r3) - a3 * Det3(r0, r1, r2) == 0.0
  {
  }

  /** Laplace expansion of a 4 x 4 determinant whose first column repeats the second column of the others: it vanishes. */
  lemma LaplaceB(a0: real, b0: real, c0: real, a1: real, b1: real, c1: real,
                a2: real, b2: real, c2: real, a3: real, b3: real, c3: real)
    ensures var r0, r1, r2, r3 := [a0, b0, c0], [a1, b1, c1], [a2, b2, c2], [a3, b3, c3];
      b0 * Det3(r1, r2, r3) - b1 * Det3(r0, r2, r3) + b2 * Det3(r0, r1, r3) - b3 * Det3(r0, r1, r2) == 0.0
  {
  }

  /** Laplace expansion of a 4 x 4 determinant whose first column repeats the third column of the others: it vanishes. */
  lemma LaplaceC(a0: real, b0: real, c0: real, a1: real, b1: real, c1: real,
                a2: real, b2: real, c2: real, a3: real, b3: real, c3: real)
    ensures var r0, r1, r2, r3 := [a0, b0, c0], [a1, b1, c1], [a2, b2, c2], [a3, b3, c3];
      c0 * Det3(r1, r2, r3) - c1 * Det3(r0, r2, r3) + c2 * Det3(r0, r1, r3) - c3 * Det3(r0, r1, r2) == 0.0
  {
  }

  /** In 4-D, the normal is orthogonal to the edge d of the face. */
  lemma Normal4Orthogonal(v: seq<seq<real>>, d: nat)
    requires |v| == 4 && Square(v) && 1 <= d < 4
    ensures Dot(Normal4(v), Edge(v, d)) == 0.0
  {
    var n, e := Normal4(v), Edge(v, d);
    Dot4(n, e);
    var m0, m1, m2, m3 := Minor(v, 0), Minor(v, 1), Minor(v, 2), Minor(v, 3);
    assert e[0] == m0[d - 1] && e[1] == m1[d - 1] && e[2] == m2[d - 1] && e[3] == m3[d - 1];
    assert m0 == [m0[0], m0[1], m0[2]] && m1 == [m1[0], m1[1], m1[2]];
    assert m2 == [m2[0], m2[1], m2[2]] && m3 == [m3[0], m3[1], m3[2]];
    if d == 1 {
      LaplaceA(m0[0], m0[1], m0[2], m1[0], m1[1], m1[2], m2[0], m2[1], m2[2], m3[0], m3[1], m3[2]);
    } else if d == 2 {
      LaplaceB(m0[0], m0[1], m0[2], m1[0], m1[1], m1[2], m2[0], m2[1], m2[2], m3[0], m3[1], m3[2]);
    } else {
      LaplaceC(m0[0], m0[1], m0[2], m1[0], m1[1], m1[2], m2[0], m2[1], m2[2], m3[0], m3[1], m3[2]);
    }
  }

  /** The raw normal is orthogonal to every edge of the face. */
  lemma RawNormalOrthogonal(v: seq<seq<real>>, d: nat)
    requires 2 <= |v| <= 4 && Square(v) && 1 <= d < |v|
    ensures Dot(RawNormal(v), Edge(v, d)) == 0.0
  {
    var n, e := RawNormal(v), Edge(v, d);
    if |v| == 2 {
      Dot2(n, e);
    } else if |v| == 3 {
      Dot3(n, e);
    } else {
      Normal4Orthogonal(v, d);
    }
  }

  /** sgn_nozero: the sign of x, with 1 for 0. */
  function SgnNoZero(x: real): (s: real)
    ensures (s == 1.0 || s == -1.0) && s * x >= 0.0
  {
    if x < 0.0 then -1.0 else 1.0
  }

  /**
   * The orientation step: for top == 1 the normal is flipped so that its
   * time component is not negative, for top == -1 so that it is not
   * positive; any other top leaves it as it is.
   */
  function Orient(n: seq<real>, top: int): (r: seq<real>)
    requires |n| > 0
    ensures |r| == |n|
    ensures top == 1 ==> r[|n| - 1] >= 0.0
    ensures top == -1 ==> r[|n| - 1] <= 0.0
    ensures top != 1 && top != -1 ==> r == n
    ensures r == n || r == Scale(n, -1.0)
  {
    var s := if top == 1 then SgnNoZero(n[|n| - 1]) else if top == -1 then -SgnNoZero(n[|n| - 1]) else 1.0;
    if s == 1.0 then n else Scale(n, -1.0)
  }

  /**
   * TentFaceNormal before the division by its length: the raw normal,
   * oriented by top. It is orthogonal to every edge of the face.
   */
  function TentFaceNormal(v: seq<seq<real>>, top: int): (n: seq<real>)
    requires 2 <= |v| <= 4 && Square(v)
    ensures |n| == |v|
    ensures top == 1 ==> n[|v| - 1] >= 0.0
    ensures top == -1 ==> n[|v| - 1] <= 0.0
  {
    Orient(RawNormal(v), top)
  }

  /** The oriented normal is still orthogonal to every edge of the face. */
  lemma TentFaceNormalOrthogonal(v: seq<seq<real>>, top: int, d: nat)
    requires 2 <= |v| <= 4 && Square(v) && 1 <= d < |v|
    ensures Dot(TentFaceNormal(v, top), Edge(v, d)) == 0.0
  {
    DotScale(RawNormal(v), Edge(v, d), -1.0);
    RawNormalOrthogonal(v, d);
  }

  // ---------------------------------------------------------------- tent diameter

  /** The vertex list of TentAdiam: the anchor twice (bottom and top), then the neighbours. */
  function Verts(t: Tent): seq<nat>
  {
    [t.vertex, t.vertex] + t.nbv
  }

  /** The time list of TentAdiam: tbot, ttop, then the neighbours' front times. */
  function Times(t: Tent): seq<real>
  {
    [t.tbot, t.ttop] + t.nbtime
  }

  /** Conversion of a double to int: truncation toward zero. */
  function Trunc(x: real): (r: int)
    ensures x >= 0.0 ==> 0 <= r && r as real <= x < r as real + 1.0
    ensures x < 0.0 ==> r <= 0 && r as real - 1.0 < x <= r as real
  {
    if x >= 0.0 then x.Floor else -((-x).Floor)
  }

  /** The times as TentAdiam stores them, in an integer array. */
  function TruncAll(s: seq<real>): (r: seq<real>)
    ensures |r| == |s| && forall i :: 0 <= i < |s| ==> r[i] == Trunc(s[i]) as real
  {
    seq(|s|, i requires 0 <= i < |s| => Trunc(s[i]) as real)
  }

  /** The squared Euclidean distance of two points. */
  function SqDist(p: seq<real>, q: seq<real>): (r: real)
    requires |p| == |q|
    ensures r >= 0.0
  {
    if |p| == 0 then 0.0 else SqDist(p[..|p| - 1], q[..|p| - 1]) + (p[|p| - 1] - q[|p| - 1]) * (p[|p| - 1] - q[|p| - 1])
  }

  /** Every listed vertex has a point of the spatial dimension. */
  ghost predicate PointsOk(points: seq<seq<real>>, dim: nat, verts: seq<nat>)
  {
    forall j :: 0 <= j < |verts| ==> verts[j] < |points| && |points[verts[j]]| == dim
  }

  /** The squared space-time distance of the listed vertices j and k. */
  function Dist2(points: seq<seq<real>>, dim: nat, verts: seq<nat>, times: seq<real>, j: nat, k: nat): (r: real)
    requires PointsOk(points, dim, verts) && |times| == |verts| && j < |verts| && k < |verts|
    ensures r >= 0.0
  {
    SqDist(points[verts[j]], points[verts[k]]) + (times[j] - times[k]) * (times[j] - times[k])
  }

  /** The loops of TentAdiam: the square of the largest space-time distance between two listed vertices, or 0. */
  method Adiam2(points: seq<seq<real>>, dim: nat, verts: seq<nat>, times: seq<real>) returns (d2: real)
    requires PointsOk(points, dim, verts) && |times| == |verts|
    ensures d2 >= 0.0
    ensures forall j, k :: 0 <= j < |verts| && 0 <= k < |verts| ==> Dist2(points, dim, verts, times, j, k) <= d2
    ensures d2 == 0.0 || exists j, k :: 0 <= j < |verts| && 0 <= k < |verts| && d2 == Dist2(points, dim, verts, times, j, k)
  {
    var n := |verts|;
    d2 := 0.0;
    for k := 0 to n
      invariant d2 >= 0.0
      invariant forall j, k' :: 0 <= j < n && 0 <= k' < k ==> Dist2(points, dim, verts, times, j, k') <= d2
      invariant d2 == 0.0 || exists j, k' :: 0 <= j < n && 0 <= k' < n && d2 == Dist2(points, dim, verts, times, j, k')
    {
      for j := 0 to n
        invariant d2 >= 0.0
        invariant forall j', k' :: 0 <= j' < n && 0 <= k' < k ==> Dist2(points, dim, verts, times, j', k') <= d2
        invariant forall j' :: 0 <= j' < j ==> Dist2(points, dim, verts, times, j', k) <= d2
        invariant d2 == 0.0 || exists j', k' :: 0 <= j' < n && 0 <= k' < n && d2 == Dist2(points, dim, verts, times, j', k')
      {
        var dist := SqDist(points[verts[j]], points[verts[k]]) + (times[j] - times[k]) * (times[j] - times[k]);
        assert dist == Dist2(points, dim, verts, times, j, k);
        if dist > d2 {
          d2 := dist;
        }
      }
    }
  }

  /** TentAdiam as written: the times pass through an integer array first. The result is the squared diameter. */
  method TentAdiamAsWritten(t: Tent, points: seq<seq<real>>, dim: nat) returns (d2: real)
    requires PointsOk(points, dim, Verts(t)) && |t.nbtime| == |t.nbv|
    ensures forall j, k :: 0 <= j < |Verts(t)| && 0 <= k < |Verts(t)| ==> Dist2(points, dim, Verts(t), TruncAll(Times(t)), j, k) <= d2
    ensures d2 == 0.0 || exists j, k :: 0 <= j < |Verts(t)| && 0 <= k < |Verts(t)| && d2 == Dist2(points, dim, Verts(t), TruncAll(Times(t)), j, k)
  {
    d2 := Adiam2(points, dim, Verts(t), TruncAll(Times(t)));
  }

  /** TentAdiam with the times kept as they are: the squared diameter bounds every pairwise space-time distance. */
  method TentAdiam(t: Tent, points: seq<seq<real>>, dim: nat) returns (d2: real)
    requires PointsOk(points, dim, Verts(t)) && |t.nbtime| == |t.nbv|
    ensures d2 >= 0.0
    ensures forall j, k :: 0 <= j < |Verts(t)| && 0 <= k < |Verts(t)| ==> Dist2(points, dim, Verts(t), Times(t), j, k) <= d2
    ensures d2 == 0.0 || exists j, k :: 0 <= j < |Verts(t)| && 0 <= k < |Verts(t)| && d2 == Dist2(points, dim, Verts(t), Times(t), j, k)
  {
    d2 := Adiam2(points, dim, Verts(t), Times(t));
  }

  /**
   * A tent whose top is 0.5 above its bottom, with one neighbour at
   * distance 1: with truncated times every listed distance is at most 1,
   * so the diameter as written is at most 1, while the anchor's top and
   * the neighbour are 1.25 apart (squared).
   */
  lemma AdiamTruncates()
    ensures var t := Tent(0, 0.0, 0.5, 0, [1], [0.0], [], [], [], Empty);
            var points := [[0.0], [1.0]];
            PointsOk(points, 1, Verts(t)) &&
            (forall j, k :: 0 <= j < 3 && 0 <= k < 3 ==> Dist2(points, 1, Verts(t), TruncAll(Times(t)), j, k) <= 1.0) &&
            Dist2(points, 1, Verts(t), Times(t), 1, 2) == 1.25
  {
    var t := Tent(0, 0.0, 0.5, 0, [1], [0.0], [], [], [], Empty);
    var points := [[0.0], [1.0]];
    assert Verts(t) == [0, 0, 1];
    assert TruncAll(Times(t)) == [0.0, 0.0, 0.0];
    assert [1.0][..0] == [] && [0.0][..0] == [];
    assert SqDist([0.0], [1.0]) == 1.0;
    assert SqDist([1.0], [0.0]) == 1.0;
    assert SqDist([0.0], [0.0]) == 0.0;
    assert SqDist([1.0], [1.0]) == 0.0;
  }

  // ---------------------------------------------------------------- L2 error

  /** The weighted squared differences of the first |weights| entries of two rows. */
  function RowErr(a: seq<real>, b: seq<real>, weights: seq<real>): real
    requires |weights| <= |a| && |weights| <= |b|
  {
    if |weights| == 0 then 0.0
    else
      var i := |weights| - 1;
      RowErr(a, b, weights[..i]) + (a[i] - b[i]) * (a[i] - b[i]) * weights[i]
  }

  /** The sum of RowErr over the first ne rows. */
  function ErrSum(w: seq<seq<real>>, wc: seq<seq<real>>, weights: seq<real>, ne: nat): real
    requires ne <= |w| && ne <= |wc|
    requires forall el :: 0 <= el < ne ==> |weights| <= |w[el]| && |weights| <= |wc[el]|
  {
    if ne == 0 then 0.0 else ErrSum(w, wc, weights, ne - 1) + RowErr(w[ne - 1], wc[ne - 1], weights)
  }

  /** The loops of Postprocess, before the square root: the weighted squared error at the integration points. */
  method Postprocess(w: seq<seq<real>>, wc: seq<seq<real>>, weights: seq<real>, ne: nat) returns (l2error: real)
    requires ne <= |w| && ne <= |wc|
    requires forall el :: 0 <= el < ne ==> |weights| <= |w[el]| && |weights| <= |wc[el]|
    ensures l2error == ErrSum(w, wc, weights, ne)
  {
    l2error := 0.0;
    for elnr := 0 to ne
      invariant l2error == ErrSum(w, wc, weights, elnr)
    {
      ghost var before := l2error;
      for imip := 0 to |weights|
        invariant l2error == before + RowErr(w[elnr], wc[elnr], weights[..imip])
      {
        assert weights[..imip + 1][..imip] == weights[..imip];
        l2error := l2error + (w[elnr][imip] - wc[elnr][imip]) * (w[elnr][imip] - wc[elnr][imip]) * weights[imip];
      }
      assert weights[..|weights|] == weights;
    }
  }

  /** With weights that are not negative, the error is not negative. */
  lemma {:induction false} ErrSumNonneg(w: seq<seq<real>>, wc: seq<seq<real>>, weights: seq<real>, ne: nat)
    requires ne <= |w| && ne <= |wc|
    requires forall el :: 0 <= el < ne ==> |weights| <= |w[el]| && |weights| <= |wc[el]|
    requires forall i :: 0 <= i < |weights| ==> weights[i] >= 0.0
    ensures ErrSum(w, wc, weights, ne) >= 0.0
  {
    if ne > 0 {
      ErrSumNonneg(w, wc, weights, ne - 1);
      RowErrNonneg(w[ne - 1], wc[ne - 1], weights);
    }
  }

  lemma {:induction false} RowErrNonneg(a: seq<real>, b: seq<real>, weights: seq<real>)
    requires |weights| <= |a| && |weights| <= |b|
    requires forall i :: 0 <= i < |weights| ==> weights[i] >= 0.0
    ensures RowErr(a, b, weights) >= 0.0
  {
    if |weights| > 0 {
      var i := |weights| - 1;
      RowErrNonneg(a, b, weights[..i]);
      var d := a[i] - b[i];
      assert d * d >= 0.0;
      assert d * d * weights[i] >= 0.0;
    }
  }

  /** A row that agrees with its reference at the integration points contributes nothing. */
  lemma {:induction false} RowErrZero(a: seq<real>, b: seq<real>, weights: seq<real>)
    requires |weights| <= |a| && |weights| <= |b|
    requires a[..|weights|] == b[..|weights|]
    ensures RowErr(a, b, weights) == 0.0
  {
    if |weights| > 0 {
      var i := |weights| - 1;
      assert a[..i] == a[..|weights|][..i] && b[..i] == b[..|weights|][..i];
      assert a[i] == a[..|weights|][i] && b[i] == b[..|weights|][i];
      RowErrZero(a, b, weights[..i]);
      assert (a[i] - b[i]) * (a[i] - b[i]) * weights[i] == 0.0;
    }
  }

  /** Postprocess reports no error when the wavefronts agree on the values at the integration points. */
  lemma {:induction false} ErrSumZero(w: seq<seq<real>>, wc: seq<seq<real>>, weights: seq<real>, ne: nat)
    requires ne <= |w| && ne <= |wc|
    requires forall el :: 0 <= el < ne ==> |weights| <= |w[el]| && |weights| <= |wc[el]|
    requires forall el :: 0 <= el < ne ==> w[el][..|weights|] == wc[el][..|weights|]
    ensures ErrSum(w, wc, weights, ne) == 0.0
  {
    if ne > 0 {
      ErrSumZero(w, wc, weights, ne - 1);
      RowErrZero(w[ne - 1], wc[ne - 1], weights);
    }
  }

  /** Only the values at the integration points count: the columns after them (the gradients) do not. */
  lemma {:induction false} ErrSumValuesOnly(w: seq<seq<real>>, wc: seq<seq<real>>, w': seq<seq<real>>, weights: seq<real>, ne: nat)
    requires ne <= |w| && ne <= |wc| && ne <= |w'|
    requires forall el :: 0 <= el < ne ==> |weights| <= |w[el]| && |weights| <= |wc[el]| && |weights| <= |w'[el]|
    requires forall el :: 0 <= el < ne ==> w[el][..|weights|] == w'[el][..|weights|]
    ensures ErrSum(w, wc, weights, ne) == ErrSum(w', wc, weights, ne)
  {
    if ne > 0 {
      ErrSumValuesOnly(w, wc, w', weights, ne - 1);
      RowErrValuesOnly(w[ne - 1], w'[ne - 1], wc[ne - 1], weights);
    }
  }

  lemma {:induction false} RowErrValuesOnly(a: seq<real>, a': seq<real>, b: seq<real>, weights: seq<real>)
    requires |weights| <= |a| && |weights| <= |a'| && |weights| <= |b|
    requires a[..|weights|] == a'[..|weights|]
    ensures RowErr(a, b, weights) == RowErr(a', b, weights)
  {
    if |weights| > 0 {
      var i := |weights| - 1;
      assert a[..i] == a[..|weights|][..i] && a'[..i] == a'[..|weights|][..i];
      assert a[i] == a[..|weights|][i] && a'[i] == a'[..|weights|][i];
      RowErrValuesOnly(a, a', b, weights[..i]);
    }
  }
}
