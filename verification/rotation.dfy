/** The 28-bit circular shift of the key schedule. */
module Rotation {
  import opened Bits

  /** Reference rotation of a 28-bit half by `n` toward higher indices: bit `i` moves to
      `(i + n) mod 28`. */
  function Rotate(key: Bits, n: int): (r: Bits)
    requires |key| == 28
    ensures |r| == 28
  {
    seq(28, i requires 0 <= i < 28 => key[(i - n) % 28])
  }

  /** leftShift as written: `(key << shift) | (key >> (28 - shift))`. With `shift` at most 28
      the subtraction stays non-negative. */
  function LeftShift(key: Bits, shift: int): (r: Bits)
    requires |key| == 28 && 0 <= shift <= 28
    ensures |r| == 28
    ensures forall i :: 0 <= i < 28 ==> r[i] == key[(i - shift) % 28]
  {
    Or(ShiftUp(key, shift), ShiftDown(key, |key| - shift))
  }

  /** The rotation that moves bits toward index 0, the first bit: `key[(i + shift) % 28]`. */
  function FipsLeftShift(key: Bits, shift: nat): (r: Bits)
    requires |key| == 28
    ensures |r| == 28
  {
    seq(28, i requires 0 <= i < 28 => key[(i + shift) % 28])
  }

  lemma RotateAdd(key: Bits, a: int, b: int)
    requires |key| == 28
    ensures Rotate(Rotate(key, a), b) == Rotate(key, a + b)
  {
    forall i | 0 <= i < 28
      ensures Rotate(Rotate(key, a), b)[i] == Rotate(key, a + b)[i]
    {
      ModSub(i - b, a);
    }
  }

  lemma ModSub(x: int, a: int)
    ensures (x % 28 - a) % 28 == (x - a) % 28
  {
  }

  /** Rotation toward higher indices by `n` puts the last `n` bits in front. */
  lemma RotateAsSlices(key: Bits, n: int)
    requires |key| == 28 && 0 <= n <= 28
    ensures Rotate(key, n) == key[|key| - n..] + key[..|key| - n]
  {
  }

  lemma RotateZero(key: Bits)
    requires |key| == 28
    ensures Rotate(key, 0) == key
  {
  }

  /** leftShift is a rotation toward higher indices by `shift`. */
  lemma LeftShiftIsRotate(key: Bits, shift: int)
    requires |key| == 28 && 0 <= shift <= 28
    ensures LeftShift(key, shift) == Rotate(key, shift)
  {
  }

  /** leftShift only rearranges bits: the result holds the same bits, so as many set bits. */
  lemma LeftShiftPermutes(key: Bits, shift: int)
    requires |key| == 28 && 0 <= shift <= 28
    ensures multiset(LeftShift(key, shift)) == multiset(key)
    ensures multiset(LeftShift(key, shift))[true] == multiset(key)[true]
  {
    LeftShiftIsRotate(key, shift);
    RotateAsSlices(key, shift);
    assert key == key[..28 - shift] + key[28 - shift..];
  }

  /** leftShift by `shift` is undone by leftShift by `28 - shift`: it is a bijection. */
  lemma LeftShiftInverse(key: Bits, shift: int)
    requires |key| == 28 && 0 <= shift <= 28
    ensures LeftShift(LeftShift(key, shift), 28 - shift) == key
  {
    var once := LeftShift(key, shift);
    var twice := LeftShift(once, 28 - shift);
    forall i | 0 <= i < 28
      ensures twice[i] == key[i]
    {
      var j := (i - (28 - shift)) % 28;
      assert twice[i] == once[j];
      assert once[j] == key[(j - shift) % 28];
      ModSub(i - (28 - shift), shift);
      assert (j - shift) % 28 == i;
    }
  }

  /** The rotation toward the first bit drops the first `shift` bits and appends them. */
  lemma FipsLeftShiftAsSlices(key: Bits, shift: nat)
    requires |key| == 28 && shift <= 28
    ensures FipsLeftShift(key, shift) == key[shift..] + key[..shift]
  {
  }

  lemma FipsLeftShiftIsRotate(key: Bits, shift: nat)
    requires |key| == 28
    ensures FipsLeftShift(key, shift) == Rotate(key, 0 - shift)
  {
  }

  /** leftShift as written turns bits the other way round from the rotation toward the first bit. */
  lemma LeftShiftOpposesFips(key: Bits, shift: int)
    requires |key| == 28 && 0 <= shift <= 28
    ensures LeftShift(key, shift) == FipsLeftShift(key, 28 - shift)
  {
    LeftShiftIsRotate(key, shift);
    FipsLeftShiftIsRotate(key, 28 - shift);
    RotateAdd(key, -(28 - shift), 28);
    assert Rotate(Rotate(key, -(28 - shift)), 28) == Rotate(key, -(28 - shift));
  }

  /** A half whose only set bit is bit 1: leftShift by 1 moves it to bit 2, not to bit 0. */
  lemma LeftShiftMovesAwayFromFirstBit()
    ensures var key := [false, true] + seq(26, _ => false);
      LeftShift(key, 1)[2] && !LeftShift(key, 1)[0] && FipsLeftShift(key, 1)[0]
  {
    var key := [false, true] + seq(26, _ => false);
    assert LeftShift(key, 1)[2] == key[1];
    assert LeftShift(key, 1)[0] == key[27];
    assert FipsLeftShift(key, 1)[0] == key[1];
  }

  /** A rotation by a multiple of half the width lands in the same place in either direction. */
  lemma RotateHalfTurn(key: Bits, n: int)
    requires |key| == 28 && n % 14 == 0
    ensures Rotate(key, n) == Rotate(key, -n)
  {
    forall i | 0 <= i < 28
      ensures Rotate(key, n)[i] == Rotate(key, -n)[i]
    {
      var q := n / 14;
      assert n == 14 * q;
      ModShift(i - n, q);
    }
  }

  lemma ModShift(x: int, q: int)
    ensures (x + 28 * q) % 28 == x % 28
  {
  }

  /** The half whose only set bit is the first. */
  function FirstBitOnly(): (key: Bits)
    ensures |key| == 28
  {
    seq(28, i requires 0 <= i < 28 => i == 0)
  }

  /** The two directions agree on the half with one set bit exactly when the amount is a
      multiple of 14, half the width. */
  lemma OppositeRotationsAgree(n: int)
    ensures Rotate(FirstBitOnly(), n) == Rotate(FirstBitOnly(), -n) <==> n % 14 == 0
  {
    var key := FirstBitOnly();
    if Rotate(key, n) == Rotate(key, -n) {
      var k := n % 28;
      assert Rotate(key, n)[k] == key[(k - n) % 28];
      assert Rotate(key, -n)[k] == key[(k + n) % 28];
      assert (k + n) % 28 == 0;
    }
    if n % 14 == 0 {
      RotateHalfTurn(key, n);
    }
  }
}
