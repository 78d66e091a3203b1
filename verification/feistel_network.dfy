/** The Feistel network of desEncrypt, over any round function: each round passes the right
    half on as the new left half and XORs the old left half with f(right, key) into the new
    right half. Nothing here depends on what the round function computes. */
module FeistelNetwork {
  import opened Bits
  import opened Sequences

  datatype Halves = Halves(left: Bits, right: Bits)

  type RoundFn = (Bits, Bits) -> Bits

  /** `f` maps every `n`-bit half to an `n`-bit output, whatever the key. */
  ghost predicate KeepsWidth(f: RoundFn, n: nat)
  {
    forall x: Bits, key: Bits {:trigger f(x, key)} :: |x| == n ==> |f(x, key)| == n
  }

  /** Both halves are `n` bits wide. */
  predicate Wide(h: Halves, n: nat)
  {
    |h.left| == n && |h.right| == n
  }

  function Swap(h: Halves): (r: Halves)
    ensures r.left == h.right && r.right == h.left
  {
    Halves(h.right, h.left)
  }

  /** One round under one round key. */
  function Step(f: RoundFn, n: nat, h: Halves, key: Bits): (r: Halves)
    requires KeepsWidth(f, n) && Wide(h, n)
    ensures Wide(r, n)
  {
    Halves(h.right, Xor(h.left, f(h.right, key)))
  }

  /** The rounds under `keys[0]`, `keys[1]`, ... in that order: the last key's round comes
      after all the others. */
  function Rounds(f: RoundFn, n: nat, h: Halves, keys: seq<Bits>): (r: Halves)
    requires KeepsWidth(f, n) && Wide(h, n)
    ensures Wide(r, n)
    decreases |keys|
  {
    if |keys| == 0 then h
    else Step(f, n, Rounds(f, n, h, keys[..|keys| - 1]), keys[|keys| - 1])
  }

  /** A round run on the swapped output of the same round gives the swapped input back. */
  lemma StepUndo(f: RoundFn, n: nat, h: Halves, key: Bits)
    requires KeepsWidth(f, n) && Wide(h, n)
    ensures Step(f, n, Swap(Step(f, n, h, key)), key) == Swap(h)
  {
    XorTwice(h.left, f(h.right, key));
  }

  /** The state after `i + 1` rounds is one round on from the state after `i`. */
  lemma RoundsPrefixStep(f: RoundFn, n: nat, h: Halves, keys: seq<Bits>, i: nat)
    requires KeepsWidth(f, n) && Wide(h, n) && i < |keys|
    ensures Rounds(f, n, h, keys[..i + 1]) == Step(f, n, Rounds(f, n, h, keys[..i]), keys[i])
  {
    var prefix := keys[..i + 1];
    assert prefix[..i] == keys[..i];
  }

  /** One more key at the front is one more round at the start. */
  lemma {:induction false} RoundsPrepend(f: RoundFn, n: nat, h: Halves, key: Bits, keys: seq<Bits>)
    requires KeepsWidth(f, n) && Wide(h, n)
    ensures Rounds(f, n, h, [key] + keys) == Rounds(f, n, Step(f, n, h, key), keys)
    decreases |keys|
  {
    var all := [key] + keys;
    if |keys| == 0 {
      assert all[..0] == [];
    } else {
      var front := keys[..|keys| - 1];
      assert all[..|all| - 1] == [key] + front;
      RoundsPrepend(f, n, h, key, front);
    }
  }

  /** Running the rounds with the keys reversed on the swapped output gives the swapped input:
      the network is undone by itself with the key order reversed. */
  lemma {:induction false} RoundsInverse(f: RoundFn, n: nat, h: Halves, keys: seq<Bits>)
    requires KeepsWidth(f, n) && Wide(h, n)
    ensures Rounds(f, n, Swap(Rounds(f, n, h, keys)), Reverse(keys)) == Swap(h)
    decreases |keys|
  {
    if |keys| > 0 {
      var front, key := keys[..|keys| - 1], keys[|keys| - 1];
      var mid := Rounds(f, n, h, front);
      assert Reverse(keys) == [key] + Reverse(front);
      RoundsPrepend(f, n, Swap(Step(f, n, mid, key)), key, Reverse(front));
      StepUndo(f, n, mid, key);
      RoundsInverse(f, n, h, front);
    }
  }

  /** The rounds followed by the exchange of the two halves. */
  function Network(f: RoundFn, n: nat, h: Halves, keys: seq<Bits>): (r: Halves)
    requires KeepsWidth(f, n) && Wide(h, n)
    ensures Wide(r, n)
  {
    Swap(Rounds(f, n, h, keys))
  }

  /** The network undoes itself when run with the keys in reverse order. */
  lemma NetworkInverse(f: RoundFn, n: nat, h: Halves, keys: seq<Bits>)
    requires KeepsWidth(f, n) && Wide(h, n)
    ensures Network(f, n, Network(f, n, h, keys), Reverse(keys)) == h
  {
    RoundsInverse(f, n, h, keys);
  }
}
