/** The table-driven bit selection used for every DES permutation, expansion and compression. */
module Permutation {
  import opened Bits

  /** A selection table for an `n`-bit input: every entry is a 1-based input position. */
  predicate IsTable(table: seq<int>, n: nat)
  {
    forall i :: 0 <= i < |table| ==> 1 <= table[i] <= n
  }

  /** permute: output bit `i` is input bit `table[i] - 1`, built one output bit at a time. */
  function Permute(data: Bits, table: seq<int>): (r: Bits)
    requires IsTable(table, |data|)
    ensures |r| == |table|
    ensures forall i :: 0 <= i < |table| ==> r[i] == data[table[i] - 1]
  {
    if |table| == 0 then []
    else Permute(data, table[..|table| - 1]) + [data[table[|table| - 1] - 1]]
  }

  /** The table `a` looked up through `b`: selecting by `a`, then by `b`. */
  function Compose(a: seq<int>, b: seq<int>): (c: seq<int>)
    requires IsTable(b, |a|)
    ensures |c| == |b|
  {
    seq(|b|, i requires 0 <= i < |b| => a[b[i] - 1])
  }

  /** `b` undoes `a` when selecting by `a` and then by `b` gives back every position. */
  predicate Undoes(b: seq<int>, a: seq<int>)
    requires IsTable(b, |a|)
  {
    forall i :: 0 <= i < |b| ==> a[b[i] - 1] == i + 1
  }

  /** A table whose entries are `1, 2, ..., n` changes nothing. */
  lemma PermuteIdentity(data: Bits, table: seq<int>)
    requires |table| == |data|
    requires forall i :: 0 <= i < |table| ==> table[i] == i + 1
    ensures Permute(data, table) == data
  {
  }

  lemma PermuteCompose(data: Bits, a: seq<int>, b: seq<int>)
    requires IsTable(a, |data|) && IsTable(b, |a|)
    ensures IsTable(Compose(a, b), |data|)
    ensures Permute(Permute(data, a), b) == Permute(data, Compose(a, b))
  {
    var c := Compose(a, b);
    var lhs, rhs := Permute(Permute(data, a), b), Permute(data, c);
    forall i | 0 <= i < |b|
      ensures lhs[i] == rhs[i]
    {
      assert c[i] == a[b[i] - 1];
    }
  }

  lemma PermuteUndo(data: Bits, a: seq<int>, b: seq<int>)
    requires IsTable(a, |data|) && IsTable(b, |a|) && |b| == |data|
    requires Undoes(b, a)
    ensures Permute(Permute(data, a), b) == data
  {
  }
}
