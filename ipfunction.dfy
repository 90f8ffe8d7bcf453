/**
 * IntegrationPointFunction: a coefficient function that holds one value per
 * element and integration point. The constructor gives every element a row as
 * long as the integration rule, holding the point numbers 0, 1, ...; Evaluate
 * looks a value up by element and point number, answering 0 (after a message)
 * for a point number outside the row.
 */
module IpFunction {

  /** The table the constructor builds: ne rows of nip entries, entry i being i. */
  function Table(ne: nat, nip: nat): (t: seq<seq<real>>)
    ensures |t| == ne
    ensures forall el :: 0 <= el < ne ==> |t[el]| == nip
    ensures forall el, i :: 0 <= el < ne && 0 <= i < nip ==> t[el][i] == i as real
  {
    seq(ne, _ => Row(nip))
  }

  /** One row of the table: the point numbers 0 .. nip-1. */
  function Row(nip: nat): (r: seq<real>)
    ensures |r| == nip
    ensures forall i :: 0 <= i < nip ==> r[i] == i as real
  {
    seq(nip, i => i as real)
  }

  /** The lookup of Evaluate, with the message for an illegal point number as a flag. */
  datatype Lookup = Lookup(value: real, illegal: bool)

  class IntegrationPointFunction {
    var values: seq<seq<real>>

    /** One row per mesh element, each as long as the integration rule, entry i set to i. */
    constructor (ne: nat, nip: nat)
      ensures values == Table(ne, nip)
    {
      var rows: seq<seq<real>> := [];
      var el := 0;
      while el < ne
        invariant 0 <= el <= ne
        invariant |rows| == el
        invariant forall k :: 0 <= k < el ==> rows[k] == Row(nip)
      {
        var vec: seq<real> := seq(nip, _ => 0.0);
        for i := 0 to nip
          invariant |vec| == nip
          invariant forall j :: 0 <= j < i ==> vec[j] == j as real
        {
          vec := vec[i := i as real];
        }
        rows := rows + [vec];
        el := el + 1;
      }
      values := rows;
    }

    /**
     * Evaluate at point number p of element el, reading the table only: a
     * point number outside [0, |row|) is reported and yields 0; any other
     * yields the stored value. The element number is not checked, so it is
     * the caller's to get right.
     */
    function Evaluate(el: nat, p: int): (r: Lookup)
      reads this
      requires el < |values|
      ensures r.illegal <==> p < 0 || p >= |values[el]|
      ensures r.illegal ==> r.value == 0.0
      ensures !r.illegal ==> 0 <= p < |values[el]| && r.value == values[el][p]
    {
      if p < 0 || p >= |values[el]| then Lookup(0.0, true) else Lookup(values[el][p], false)
    }

    /** PrintTable: the rows it writes out, row by row and entry by entry; the table is not changed. */
    method PrintTable() returns (printed: seq<seq<real>>)
      ensures printed == values
    {
      printed := [];
      for i := 0 to |values|
        invariant printed == values[..i]
      {
        var line: seq<real> := [];
        for j := 0 to |values[i]|
          invariant line == values[i][..j]
        {
          line := line + [values[i][j]];
        }
        assert line == values[i];
        assert values[..i + 1] == values[..i] + [values[i]];
        printed := printed + [line];
      }
      assert values[..|values|] == values;
    }
  }

  /** On the table the constructor builds, a legal point number evaluates to itself and any other to a reported 0. */
  lemma EvaluateFresh(f: IntegrationPointFunction, ne: nat, nip: nat, el: nat, p: int)
    requires f.values == Table(ne, nip) && el < ne
    ensures f.Evaluate(el, p) == if 0 <= p < nip then Lookup(p as real, false) else Lookup(0.0, true)
  {
  }
}
