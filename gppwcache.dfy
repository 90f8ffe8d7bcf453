/**
 * The store in front of TB: one compressed basis per key (order, first
 * ord*ord entries of gamma), built on the first request for a key and handed
 * out unchanged afterwards. One store exists per space dimension, with that
 * dimension's index map.
 */
module GppwCache {
  import opened Tuples
  import opened CsrMatrix
  import opened GppwBasis
  import opened GppwBuild

  /** The cache key: the order and the leading ord*ord entries of gamma. */
  datatype Key = Key(ord: nat, lead: seq<real>)

  function KeyOf(ord: nat, g: Gamma): (k: Key)
    requires ord * ord <= |g.data|
    ensures k.ord == ord && |k.lead| == ord * ord
    ensures forall i :: 0 <= i < ord * ord ==> k.lead[i] == g.data[i]
  {
    Key(ord, g.data[..ord * ord])
  }

  /** What TB hands back: the stored matrix, or the "failed to generate" exception with its order. */
  datatype Outcome = Found(tb: Csr) | Failed(ord: nat)

  /** The compressed matrix was built, as opposed to the default empty entry of the store. */
  predicate Built(c: Csr)
  {
    |c.rowptr| > 0
  }

  /**
   * The entry c stored under key k is the compression of the basis rows of gamma
   * gam, and gam has the key k.
   */
  ghost predicate Stored(dim: nat, im: seq<nat> -> nat, k: Key, c: Csr, gam: Gamma, rows: seq<seq<real>>)
  {
    ValidSetting(Setting(dim, k.ord, gam, im)) && KeyOf(k.ord, gam) == k &&
    IsGppwBasis(Setting(dim, k.ord, gam, im), rows) && c == MatToCsr(rows)
  }

  /** Every built entry of the store is the compression of the basis of the gamma it was built from. */
  ghost predicate Consistent(dim: nat, im: seq<nat> -> nat, store: map<Key, Csr>, from: map<Key, Gamma>, dense: map<Key, seq<seq<real>>>)
  {
    forall k {:trigger Built(store[k])} :: k in store && Built(store[k]) ==> k in from && k in dense && Stored(dim, im, k, store[k], from[k], dense[k])
  }

  /** Storing a correct entry keeps the store consistent. */
  lemma Insert(dim: nat, im: seq<nat> -> nat, store: map<Key, Csr>, from: map<Key, Gamma>, dense: map<Key, seq<seq<real>>>,
               k: Key, c: Csr, g: Gamma, rows: seq<seq<real>>)
    requires Consistent(dim, im, store, from, dense) && Stored(dim, im, k, c, g, rows)
    ensures Consistent(dim, im, store[k := c], from[k := g], dense[k := rows])
  {
  }

  /** A built entry of a consistent store is the compression of the basis of the gamma it was built from. */
  lemma Lookup(dim: nat, im: seq<nat> -> nat, store: map<Key, Csr>, from: map<Key, Gamma>, dense: map<Key, seq<seq<real>>>, k: Key)
    requires Consistent(dim, im, store, from, dense) && k in store && Built(store[k])
    ensures k in from && k in dense && Stored(dim, im, k, store[k], from[k], dense[k])
  {
  }

  class GppwBasisCache {
    const dim: nat
    const im: seq<nat> -> nat
    var store: map<Key, Csr>
    /** For each built entry, the gamma it was built from and its dense matrix. */
    ghost var from: map<Key, Gamma>
    ghost var dense: map<Key, seq<seq<real>>>

    ghost predicate Valid()
      reads this
    {
      Consistent(dim, im, store, from, dense)
    }

    constructor (dim: nat, im: seq<nat> -> nat)
      ensures this.dim == dim && this.im == im && store == map[] && Valid()
    {
      this.dim := dim;
      this.im := im;
      store := map[];
      from := map[];
      dense := map[];
    }

    /**
     * TB(ord, gamma): on a key whose entry is missing or empty, build the
     * dense basis, compress it and store it; then hand out the stored matrix,
     * or fail when it is empty. The failure cannot happen: a compressed
     * matrix always has its nbasis+1 row starts.
     */
    method TB(ord: nat, g: Gamma) returns (res: Outcome)
      requires Valid() && ValidSetting(Setting(dim, ord, g, im))
      modifies this
      ensures Valid()
      ensures res.Found? && KeyOf(ord, g) in store && res.tb == store[KeyOf(ord, g)]
      ensures KeyOf(ord, g) in from && KeyOf(ord, g) in dense
      ensures Stored(dim, im, KeyOf(ord, g), res.tb, from[KeyOf(ord, g)], dense[KeyOf(ord, g)])
      ensures KeyOf(ord, g) in old(store) && Built(old(store)[KeyOf(ord, g)]) ==>
        unchanged(this) && res.tb == old(store)[KeyOf(ord, g)]
      ensures !(KeyOf(ord, g) in old(store) && Built(old(store)[KeyOf(ord, g)])) ==>
        store == old(store)[KeyOf(ord, g) := res.tb] && from[KeyOf(ord, g)] == g
      ensures WellFormed(res.tb, NBasis(Setting(dim, ord, g, im)), NPoly(Setting(dim, ord, g, im)))
    {
      var key := KeyOf(ord, g);
      if key !in store || !Built(store[key]) {
        Fill(ord, g);
      }
      if !Built(store[key]) {
        res := Failed(ord);
        return;
      }
      Lookup(dim, im, store, from, dense, key);
      res := Found(store[key]);
      ghost var built := Setting(dim, ord, from[key], im);
      assert ValidSetting(built) && IsGppwBasis(built, dense[key]) && res.tb == MatToCsr(dense[key]);
      BasisShape(built, dense[key]);
      assert NBasis(built) == NBasis(Setting(dim, ord, g, im)) && NPoly(built) == NPoly(Setting(dim, ord, g, im));
    }

    /** The build for a missing or empty entry: the compressed basis of gamma goes under its key. */
    method Fill(ord: nat, g: Gamma)
      requires Valid() && ValidSetting(Setting(dim, ord, g, im))
      modifies this
      ensures Valid() && KeyOf(ord, g) in store && KeyOf(ord, g) in dense && Built(store[KeyOf(ord, g)])
      ensures store == old(store)[KeyOf(ord, g) := MatToCsr(dense[KeyOf(ord, g)])]
      ensures from == old(from)[KeyOf(ord, g) := g] && dense.Keys == old(dense).Keys + {KeyOf(ord, g)}
      ensures Stored(dim, im, KeyOf(ord, g), store[KeyOf(ord, g)], g, dense[KeyOf(ord, g)])
    {
      var key := KeyOf(ord, g);
      ghost var rows;
      var c;
      c, rows := Compressed(Setting(dim, ord, g, im));
      Insert(dim, im, store, from, dense, key, c, g, rows);
      store := store[key := c];
      from := from[key := g];
      dense := dense[key := rows];
    }
  }

  /** TB's build for a missing key: the dense basis and its compression. */
  method Compressed(s: Setting) returns (c: Csr, ghost rows: seq<seq<real>>)
    requires ValidSetting(s)
    ensures IsGppwBasis(s, rows) && c == MatToCsr(rows) && Built(c)
  {
    var m := Build(s);
    c := MatToCsr(Rows(m));
    rows := Rows(m);
    MatToCsrNonEmpty(rows);
  }

  /** The dense basis is a rectangular nbasis x npoly matrix, so its compression is well formed. */
  lemma BasisShape(s: Setting, rows: seq<seq<real>>)
    requires ValidSetting(s) && IsGppwBasis(s, rows)
    ensures WellFormed(MatToCsr(rows), NBasis(s), NPoly(s))
  {
    MatToCsrRows(rows, NPoly(s));
  }
}
