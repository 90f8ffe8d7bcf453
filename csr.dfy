/**
 * Compressed sparse row storage of the basis matrix: `rowptr` (one start
 * offset per row plus the end), `colidx` and `vals`. Row i occupies positions
 * rowptr[i] .. rowptr[i+1]-1 of the other two arrays.
 */
module CsrMatrix {

  datatype Csr = Csr(rowptr: seq<nat>, colidx: seq<nat>, vals: seq<real>)

  predicate WellFormed(m: Csr, nrows: nat, ncols: nat)
  {
    |m.rowptr| == nrows + 1 && m.rowptr[0] == 0 &&
    (forall i, j :: 0 <= i <= j <= nrows ==> m.rowptr[i] <= m.rowptr[j]) &&
    m.rowptr[nrows] == |m.colidx| == |m.vals| &&
    (forall p :: 0 <= p < |m.colidx| ==> m.colidx[p] < ncols)
  }

  /** Σ_p vals[p]·x[cols[p]]. */
  function SparseDot(cols: seq<nat>, vals: seq<real>, x: seq<real>): real
    requires |cols| == |vals| && forall p :: 0 <= p < |cols| ==> cols[p] < |x|
  {
    if |cols| == 0 then 0.0 else vals[0] * x[cols[0]] + SparseDot(cols[1..], vals[1..], x)
  }

  /** The coefficient a sparse list holds for column j (0 if it lists none). */
  function SparseEntry(cols: seq<nat>, vals: seq<real>, j: nat): real
    requires |cols| == |vals|
  {
    if |cols| == 0 then 0.0
    else (if cols[0] == j then vals[0] else 0.0) + SparseEntry(cols[1..], vals[1..], j)
  }

  /** Row i of a compressed matrix times the vector x: the inner loop of every shape evaluation. */
  function RowDot(m: Csr, nrows: nat, ncols: nat, i: nat, x: seq<real>): real
    requires WellFormed(m, nrows, ncols) && i < nrows && |x| == ncols
  {
    var lo, hi := m.rowptr[i], m.rowptr[i + 1];
    SparseDot(m.colidx[lo..hi], m.vals[lo..hi], x)
  }

  /** Entry (i, j) of the dense matrix a compressed matrix represents. */
  function Entry(m: Csr, nrows: nat, ncols: nat, i: nat, j: nat): real
    requires WellFormed(m, nrows, ncols) && i < nrows
  {
    var lo, hi := m.rowptr[i], m.rowptr[i + 1];
    SparseEntry(m.colidx[lo..hi], m.vals[lo..hi], j)
  }

  /** Σ_{j >= from} row[j]·x[j]. */
  function DotFrom(row: seq<real>, x: seq<real>, from: nat): real
    requires |row| == |x|
    decreases |row| - from
  {
    if from >= |row| then 0.0 else row[from] * x[from] + DotFrom(row, x, from + 1)
  }

  function Dot(row: seq<real>, x: seq<real>): real
    requires |row| == |x|
  {
    DotFrom(row, x, 0)
  }

  datatype Entries = Entries(cols: seq<nat>, vals: seq<real>)

  /** The nonzero entries of row[from..], in column order. */
  function Nonzeros(row: seq<real>, from: nat): (e: Entries)
    ensures |e.cols| == |e.vals|
    ensures forall p :: 0 <= p < |e.cols| ==> from <= e.cols[p] < |row|
    decreases |row| - from
  {
    if from >= |row| then Entries([], [])
    else
      var rest := Nonzeros(row, from + 1);
      if row[from] != 0.0 then Entries([from] + rest.cols, [row[from]] + rest.vals) else rest
  }

  /**
   * `MatToCSR`: row by row, record the running entry count as the row start and
   * append the row's nonzero entries; the final count closes the last row.
   */
  function MatToCsr(a: seq<seq<real>>): Csr
  {
    if |a| == 0 then Csr([0], [], [])
    else
      var m := MatToCsr(a[..|a| - 1]);
      var e := Nonzeros(a[|a| - 1], 0);
      Csr(m.rowptr + [|m.colidx| + |e.cols|], m.colidx + e.cols, m.vals + e.vals)
  }

  predicate Rectangular(a: seq<seq<real>>, ncols: nat)
  {
    forall i :: 0 <= i < |a| ==> |a[i]| == ncols
  }

  /** The conversion yields a well-formed matrix, and the slice of row i is exactly that row's nonzero entries. */
  lemma MatToCsrRows(a: seq<seq<real>>, ncols: nat)
    requires Rectangular(a, ncols)
    ensures WellFormed(MatToCsr(a), |a|, ncols)
    ensures forall i :: 0 <= i < |a| ==>
      MatToCsr(a).colidx[MatToCsr(a).rowptr[i]..MatToCsr(a).rowptr[i + 1]] == Nonzeros(a[i], 0).cols &&
      MatToCsr(a).vals[MatToCsr(a).rowptr[i]..MatToCsr(a).rowptr[i + 1]] == Nonzeros(a[i], 0).vals
  {
    MatToCsrShape(a, ncols);
    MatToCsrSlices(a, ncols);
  }

  /** The conversion yields a well-formed matrix. */
  lemma {:induction false} MatToCsrShape(a: seq<seq<real>>, ncols: nat)
    requires Rectangular(a, ncols)
    ensures WellFormed(MatToCsr(a), |a|, ncols)
  {
    if |a| > 0 {
      var a' := a[..|a| - 1];
      MatToCsrShape(a', ncols);
      var m' := MatToCsr(a');
      var e := Nonzeros(a[|a| - 1], 0);
      var m := MatToCsr(a);
      assert m == Csr(m'.rowptr + [|m'.colidx| + |e.cols|], m'.colidx + e.cols, m'.vals + e.vals);
      forall i, j | 0 <= i <= j <= |a| ensures m.rowptr[i] <= m.rowptr[j] {
        if j == |a| && i < j {
          assert m.rowptr[i] == m'.rowptr[i] <= m'.rowptr[|a'|];
        }
      }
      forall p | 0 <= p < |m.colidx| ensures m.colidx[p] < ncols {
        if p >= |m'.colidx| {
          assert m.colidx[p] == e.cols[p - |m'.colidx|];
        }
      }
    }
  }

  /** The slice of row i of the converted matrix is exactly that row's nonzero entries. */
  lemma {:induction false} MatToCsrSlices(a: seq<seq<real>>, ncols: nat)
    requires Rectangular(a, ncols)
    ensures WellFormed(MatToCsr(a), |a|, ncols)
    ensures forall i :: 0 <= i < |a| ==>
      MatToCsr(a).colidx[MatToCsr(a).rowptr[i]..MatToCsr(a).rowptr[i + 1]] == Nonzeros(a[i], 0).cols &&
      MatToCsr(a).vals[MatToCsr(a).rowptr[i]..MatToCsr(a).rowptr[i + 1]] == Nonzeros(a[i], 0).vals
  {
    MatToCsrShape(a, ncols);
    if |a| > 0 {
      var a' := a[..|a| - 1];
      MatToCsrSlices(a', ncols);
      var m' := MatToCsr(a');
      var e := Nonzeros(a[|a| - 1], 0);
      var m := MatToCsr(a);
      assert m == Csr(m'.rowptr + [|m'.colidx| + |e.cols|], m'.colidx + e.cols, m'.vals + e.vals);
      forall i | 0 <= i < |a|
        ensures m.colidx[m.rowptr[i]..m.rowptr[i + 1]] == Nonzeros(a[i], 0).cols
        ensures m.vals[m.rowptr[i]..m.rowptr[i + 1]] == Nonzeros(a[i], 0).vals
      {
        if i < |a'| {
          assert m.rowptr[i] == m'.rowptr[i] && m.rowptr[i + 1] == m'.rowptr[i + 1];
          AppendSlice(m'.colidx, e.cols, m'.rowptr[i], m'.rowptr[i + 1]);
          AppendSlice(m'.vals, e.vals, m'.rowptr[i], m'.rowptr[i + 1]);
          assert a[i] == a'[i];
        } else {
          assert m.rowptr[i] == |m'.colidx| && m.rowptr[i + 1] == |m'.colidx| + |e.cols|;
          AppendSlice(m'.colidx, e.cols, |m'.colidx|, |m'.colidx| + |e.cols|);
          AppendSlice(m'.vals, e.vals, |m'.vals|, |m'.vals| + |e.vals|);
        }
      }
    }
  }

  /** A slice of a concatenation that lies within one of its parts. */
  lemma AppendSlice<T>(s: seq<T>, t: seq<T>, lo: nat, hi: nat)
    requires lo <= hi <= |s| || (lo == |s| && hi == |s| + |t|)
    ensures hi <= |s| ==> (s + t)[lo..hi] == s[lo..hi]
    ensures lo == |s| && hi == |s| + |t| ==> (s + t)[lo..hi] == t
  {
    if hi <= |s| {
      assert forall k :: 0 <= k < hi - lo ==> (s + t)[lo..hi][k] == s[lo..hi][k];
    } else {
      assert forall k :: 0 <= k < hi - lo ==> (s + t)[lo..hi][k] == t[k];
    }
  }

  lemma {:induction false} NonzerosEntry(row: seq<real>, from: nat, j: nat)
    ensures SparseEntry(Nonzeros(row, from).cols, Nonzeros(row, from).vals, j)
      == if from <= j < |row| then row[j] else 0.0
    decreases |row| - from
  {
    if from < |row| {
      NonzerosEntry(row, from + 1, j);
      var rest := Nonzeros(row, from + 1);
      if row[from] != 0.0 {
        var e := Nonzeros(row, from);
        assert e.cols[1..] == rest.cols && e.vals[1..] == rest.vals;
        if from == j {
          assert forall p :: 0 <= p < |rest.cols| ==> rest.cols[p] != j;
          NoColumnEntry(rest.cols, rest.vals, j);
        }
      }
    }
  }

  lemma {:induction false} NoColumnEntry(cols: seq<nat>, vals: seq<real>, j: nat)
    requires |cols| == |vals| && forall p :: 0 <= p < |cols| ==> cols[p] != j
    ensures SparseEntry(cols, vals, j) == 0.0
  {
    if |cols| > 0 {
      NoColumnEntry(cols[1..], vals[1..], j);
    }
  }

  lemma {:induction false} NonzerosDot(row: seq<real>, x: seq<real>, from: nat)
    requires |row| == |x|
    ensures SparseDot(Nonzeros(row, from).cols, Nonzeros(row, from).vals, x) == DotFrom(row, x, from)
    decreases |row| - from
  {
    if from < |row| {
      NonzerosDot(row, x, from + 1);
      var rest := Nonzeros(row, from + 1);
      if row[from] != 0.0 {
        var e := Nonzeros(row, from);
        assert e.cols[1..] == rest.cols && e.vals[1..] == rest.vals;
      }
    }
  }

  /** Round trip: the compressed matrix represents exactly the dense matrix it was built from. */
  lemma MatToCsrRoundTrip(a: seq<seq<real>>, ncols: nat)
    requires Rectangular(a, ncols)
    ensures WellFormed(MatToCsr(a), |a|, ncols)
    ensures forall i, j :: 0 <= i < |a| && 0 <= j < ncols ==> Entry(MatToCsr(a), |a|, ncols, i, j) == a[i][j]
  {
    MatToCsrRows(a, ncols);
    forall i, j | 0 <= i < |a| && 0 <= j < ncols ensures Entry(MatToCsr(a), |a|, ncols, i, j) == a[i][j] {
      NonzerosEntry(a[i], 0, j);
    }
  }

  /** A compressed row times a vector equals the dense row times that vector. */
  lemma MatToCsrRowDot(a: seq<seq<real>>, ncols: nat, i: nat, x: seq<real>)
    requires Rectangular(a, ncols) && i < |a| && |x| == ncols
    ensures WellFormed(MatToCsr(a), |a|, ncols)
    ensures RowDot(MatToCsr(a), |a|, ncols, i, x) == Dot(a[i], x)
  {
    MatToCsrRows(a, ncols);
    NonzerosDot(a[i], x, 0);
  }

  /** The conversion never yields an empty row-start array. */
  lemma {:induction false} MatToCsrNonEmpty(a: seq<seq<real>>)
    ensures |MatToCsr(a).rowptr| == |a| + 1
  {
    if |a| > 0 {
      MatToCsrNonEmpty(a[..|a| - 1]);
    }
  }
}
