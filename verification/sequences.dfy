/** Order reversal of a sequence, as done by building a vector from `rbegin()`/`rend()`. */
module Sequences {

  function Reverse<T>(s: seq<T>): (r: seq<T>)
    ensures |r| == |s|
    ensures forall i :: 0 <= i < |s| ==> r[i] == s[|s| - 1 - i]
  {
    seq(|s|, i requires 0 <= i < |s| => s[|s| - 1 - i])
  }

  lemma ReverseTwice<T>(s: seq<T>)
    ensures Reverse(Reverse(s)) == s
  {
  }

  /** Reversal turns a prefix of the reversed sequence into the reversed suffix. */
  lemma ReversePrefix<T>(s: seq<T>, n: nat)
    requires n <= |s|
    ensures Reverse(s)[..n] == Reverse(s[|s| - n..])
  {
    var a, b := Reverse(s)[..n], Reverse(s[|s| - n..]);
    assert |a| == |b| == n;
    forall i | 0 <= i < n
      ensures a[i] == b[i]
    {
      assert b[i] == s[|s| - n..][n - 1 - i];
    }
  }

  /** A prefix grows by the next element. */
  lemma PrefixGrows<T>(s: seq<T>, i: nat)
    requires i < |s|
    ensures s[..i] + [s[i]] == s[..i + 1]
  {
  }
}
