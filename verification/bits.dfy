/** Fixed-width bit blocks and the std::bitset operations the cipher uses.

    A block of N bits is a `seq<bool>` of length N, indexed exactly like a
    `std::bitset<N>`: element `i` is `bits[i]`. The conversion from bytes puts the
    most significant bit of the first byte at index 0, so index 0 is the first bit
    of a block in the sense of the DES tables. */
module Bits {

  type Bits = seq<bool>

  /** Every block of the sequence is `n` bits wide. */
  predicate AllOfWidth(blocks: seq<Bits>, n: nat)
  {
    forall j :: 0 <= j < |blocks| ==> |blocks[j]| == n
  }

  /** An 8-bit character, read as an unsigned value. */
  type Byte = x: int | 0 <= x < 256

  function Pow2(n: nat): (r: nat)
    ensures r > 0
  {
    if n == 0 then 1 else 2 * Pow2(n - 1)
  }

  /** Bit `k` of a non-negative number, i.e. `(c >> k) & 1`: `k` halvings, then the low bit. */
  function Bit(c: nat, k: nat): bool
  {
    if k == 0 then c % 2 == 1 else Bit(c / 2, k - 1)
  }

  /** The low `n` bits of `c`, most significant first: element `j` is bit `n - 1 - j`. */
  function ToBits(c: nat, n: nat): (r: Bits)
    ensures |r| == n
    ensures forall j :: 0 <= j < n ==> r[j] == Bit(c, n - 1 - j)
  {
    if n == 0 then [] else ToBits(c / 2, n - 1) + [c % 2 == 1]
  }

  /** The number whose bits, most significant first, are `b`; the or-ing of
      `b[j] << (|b| - 1 - j)` over all `j` (the shifted bits never overlap). */
  function FromBits(b: Bits): (r: nat)
    ensures r < Pow2(|b|)
  {
    if |b| == 0 then 0 else 2 * FromBits(b[..|b| - 1]) + (if b[|b| - 1] then 1 else 0)
  }

  lemma {:induction false} FromBitsToBits(c: nat, n: nat)
    requires c < Pow2(n)
    ensures FromBits(ToBits(c, n)) == c
  {
    if n > 0 {
      var high := ToBits(c / 2, n - 1);
      assert ToBits(c, n)[..n - 1] == high;
      FromBitsToBits(c / 2, n - 1);
    }
  }

  lemma {:induction false} ToBitsFromBits(b: Bits)
    ensures ToBits(FromBits(b), |b|) == b
  {
    if |b| > 0 {
      var front := b[..|b| - 1];
      ToBitsFromBits(front);
      assert b == front + [b[|b| - 1]];
    }
  }

  lemma Pow2Values()
    ensures Pow2(2) == 4 && Pow2(4) == 16 && Pow2(8) == 256
  {
    assert Pow2(1) == 2;
    assert Pow2(2) == 4;
    assert Pow2(3) == 8;
    assert Pow2(4) == 16;
    assert Pow2(6) == 64;
  }

  /** `a ^ b` on two bitsets of one width. */
  function Xor(a: Bits, b: Bits): (r: Bits)
    requires |a| == |b|
    ensures |r| == |a|
    ensures forall i :: 0 <= i < |r| ==> r[i] == (a[i] != b[i])
  {
    seq(|a|, i requires 0 <= i < |a| => a[i] != b[i])
  }

  lemma XorTwice(a: Bits, b: Bits)
    requires |a| == |b|
    ensures Xor(Xor(a, b), b) == a
  {
  }

  /** `a | b` on two bitsets of one width. */
  function Or(a: Bits, b: Bits): (r: Bits)
    requires |a| == |b|
    ensures |r| == |a|
    ensures forall i :: 0 <= i < |r| ==> r[i] == (a[i] || b[i])
  {
    seq(|a|, i requires 0 <= i < |a| => a[i] || b[i])
  }

  /** `b << n` on a bitset: bit `i` moves to `i + n`, bits past the top are lost. */
  function ShiftUp(b: Bits, n: nat): (r: Bits)
    ensures |r| == |b|
    ensures forall i :: 0 <= i < |r| ==> r[i] == (n <= i && b[i - n])
  {
    seq(|b|, i requires 0 <= i < |b| => n <= i && b[i - n])
  }

  /** `b >> n` on a bitset: bit `i + n` moves to `i`, zeros come in at the top. */
  function ShiftDown(b: Bits, n: nat): (r: Bits)
    ensures |r| == |b|
    ensures forall i :: 0 <= i < |r| ==> r[i] == (i + n < |b| && b[i + n])
  {
    seq(|b|, i requires 0 <= i < |b| => i + n < |b| && b[i + n])
  }
}
