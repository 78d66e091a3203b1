/** generateKeys: the sixteen 48-bit round keys derived from a 64-bit key. */
module KeySchedule {
  import opened Bits
  import opened Permutation
  import opened Rotation
  import opened Sequences
  import opened Tables

  /** Which way each half turns between rounds: leftShift as written turns bits toward higher
      indices; the rotation of FIPS PUB 46-3 turns them toward index 0, the first bit. */
  datatype Direction = TowardHigherIndex | TowardFirstBit

  /** A rotation amount as a signed amount toward higher indices. */
  function Signed(n: int, dir: Direction): int
  {
    match dir
    case TowardHigherIndex => n
    case TowardFirstBit => -n
  }

  function RotateHalf(half: Bits, shift: int, dir: Direction): (r: Bits)
    requires |half| == 28 && 0 <= shift <= 28
    ensures |r| == 28
  {
    match dir
    case TowardHigherIndex => LeftShift(half, shift)
    case TowardFirstBit => FipsLeftShift(half, shift)
  }

  lemma RotateHalfIsRotate(half: Bits, shift: int, dir: Direction)
    requires |half| == 28 && 0 <= shift <= 28
    ensures RotateHalf(half, shift, dir) == Rotate(half, Signed(shift, dir))
  {
    match dir
    case TowardHigherIndex => LeftShiftIsRotate(half, shift);
    case TowardFirstBit => FipsLeftShiftIsRotate(half, shift);
  }

  predicate ValidShifts(shifts: seq<int>)
  {
    forall k :: 0 <= k < |shifts| ==> 0 <= shifts[k] <= 28
  }

  /** The total of the first `k` rotation amounts, `shifts[0] + ... + shifts[k - 1]`. */
  function Total(shifts: seq<int>, k: nat): int
    requires k <= |shifts|
  {
    if k == 0 then 0 else Total(shifts, k - 1) + shifts[k - 1]
  }

  /** A half as the round loop leaves it in round `i`: rotated once by each of
      `shifts[0] .. shifts[i]`, in that order. */
  function HalfAt(half: Bits, shifts: seq<int>, dir: Direction, i: nat): (r: Bits)
    requires |half| == 28 && ValidShifts(shifts) && i < |shifts|
    ensures |r| == 28
    decreases i
  {
    var before := if i == 0 then half else HalfAt(half, shifts, dir, i - 1);
    RotateHalf(before, shifts[i], dir)
  }

  /** Round key `i`: the two halves as they stand in round `i`, joined as `left ++ right`
      and compressed with PC-2. */
  function RoundKey(rkp: seq<int>, left: Bits, right: Bits, shifts: seq<int>, dir: Direction, i: nat): (k: Bits)
    requires |rkp| == 48 && IsTable(rkp, 56) && |left| == 28 && |right| == 28
    requires ValidShifts(shifts) && i < |shifts|
    ensures |k| == 48
  {
    Permute(HalfAt(left, shifts, dir, i) + HalfAt(right, shifts, dir, i), rkp)
  }

  /** PC-1, the split into halves `[0, 28)` and `[28, 56)`, then one key per round. */
  function Schedule(t: Tables, key: Bits, dir: Direction): (keys: seq<Bits>)
    requires WellFormed(t) && |key| == 64
    ensures |keys| == 16
    ensures AllOfWidth(keys, 48)
  {
    var pc1 := Permute(key, t.ikp);
    seq(16, i requires 0 <= i < 16 => RoundKey(t.rkp, pc1[..28], pc1[28..], t.shifts, dir, i))
  }

  /** generateKeys as written. */
  function GenerateKeys(t: Tables, key: Bits): (keys: seq<Bits>)
    requires WellFormed(t) && |key| == 64
    ensures |keys| == 16
    ensures AllOfWidth(keys, 48)
  {
    Schedule(t, key, TowardHigherIndex)
  }

  /** generateKeys with the halves rotated toward the first bit, as FIPS PUB 46-3 does. */
  function FipsGenerateKeys(t: Tables, key: Bits): (keys: seq<Bits>)
    requires WellFormed(t) && |key| == 64
    ensures |keys| == 16
    ensures AllOfWidth(keys, 48)
  {
    Schedule(t, key, TowardFirstBit)
  }

  /** The loop of generateKeys over two named halves, appending one round key per round. */
  method GenerateKeysLoop(t: Tables, key: Bits) returns (res: seq<Bits>)
    requires WellFormed(t) && |key| == 64
    ensures res == GenerateKeys(t, key)
  {
    var pc1 := Permute(key, t.ikp);
    var left, right := pc1[..28], pc1[28..];
    ghost var l0, r0, shifts := left, right, t.shifts;
    ghost var keys := GenerateKeys(t, key);
    assert ValidShifts(shifts);
    res := [];
    var i := 0;
    while i < 16
      invariant 0 <= i <= 16 && |left| == 28 && |right| == 28
      invariant left == if i == 0 then l0 else HalfAt(l0, shifts, TowardHigherIndex, i - 1)
      invariant right == if i == 0 then r0 else HalfAt(r0, shifts, TowardHigherIndex, i - 1)
      invariant res == keys[..i]
    {
      ghost var leftBefore, rightBefore := left, right;
      left := LeftShift(left, t.shifts[i]);
      right := LeftShift(right, t.shifts[i]);
      assert left == HalfAt(l0, shifts, TowardHigherIndex, i) by {
        HalfAtAsWritten(l0, shifts, i, leftBefore);
      }
      assert right == HalfAt(r0, shifts, TowardHigherIndex, i) by {
        HalfAtAsWritten(r0, shifts, i, rightBefore);
      }
      var roundKey := Permute(left + right, t.rkp);
      assert roundKey == keys[i] by {
        GenerateKeysRound(t, key, i, left, right);
      }
      res := res + [roundKey];
      PrefixGrows(keys, i);
      i := i + 1;
    }
    assert keys[..16] == keys;
  }

  /** Round key `i` compresses the two halves the loop holds in round `i`. */
  lemma GenerateKeysRound(t: Tables, key: Bits, i: nat, left: Bits, right: Bits)
    requires WellFormed(t) && |key| == 64 && i < 16
    requires var pc1 := Permute(key, t.ikp);
      && left == HalfAt(pc1[..28], t.shifts, TowardHigherIndex, i)
      && right == HalfAt(pc1[28..], t.shifts, TowardHigherIndex, i)
    ensures GenerateKeys(t, key)[i] == Permute(left + right, t.rkp)
  {
  }

  /** The loop's rotation of the half it holds yields the half of the next round. */
  lemma HalfAtAsWritten(half: Bits, shifts: seq<int>, i: nat, before: Bits)
    requires |half| == 28 && ValidShifts(shifts) && i < |shifts|
    requires before == if i == 0 then half else HalfAt(half, shifts, TowardHigherIndex, i - 1)
    ensures HalfAt(half, shifts, TowardHigherIndex, i) == LeftShift(before, shifts[i])
  {
  }

  lemma SignedAdd(a: int, b: int, dir: Direction)
    ensures Signed(a, dir) + Signed(b, dir) == Signed(a + b, dir)
  {
  }

  /** The half in round `i` is the starting half rotated by the total of the rotation amounts
      of rounds `0 .. i`. */
  lemma {:induction false} HalfAtIsRotate(half: Bits, shifts: seq<int>, dir: Direction, i: nat)
    requires |half| == 28 && ValidShifts(shifts) && i < |shifts|
    ensures HalfAt(half, shifts, dir, i) == Rotate(half, Signed(Total(shifts, i + 1), dir))
    decreases i
  {
    var before := if i == 0 then half else HalfAt(half, shifts, dir, i - 1);
    var a := Signed(Total(shifts, i), dir);
    var b := Signed(shifts[i], dir);
    assert before == Rotate(half, a) by {
      if i == 0 {
        RotateZero(half);
      } else {
        HalfAtIsRotate(half, shifts, dir, i - 1);
      }
    }
    assert HalfAt(half, shifts, dir, i) == Rotate(before, b) by {
      RotateHalfIsRotate(before, shifts[i], dir);
    }
    assert a + b == Signed(Total(shifts, i + 1), dir) by {
      SignedAdd(Total(shifts, i), shifts[i], dir);
    }
    RotateTwice(half, before, HalfAt(half, shifts, dir, i), a, b, Signed(Total(shifts, i + 1), dir));
  }

  /** Rotating by `a` and then by `b` is rotating by their total `n`. */
  lemma RotateTwice(half: Bits, mid: Bits, last: Bits, a: int, b: int, n: int)
    requires |half| == 28 && mid == Rotate(half, a) && last == Rotate(mid, b) && a + b == n
    ensures last == Rotate(half, n)
  {
    RotateAdd(half, a, b);
  }

  /** Key `i` compresses the starting halves, each rotated by the total of the first `i + 1`
      rotation amounts. */
  lemma RoundKeyClosedForm(rkp: seq<int>, left: Bits, right: Bits, shifts: seq<int>, dir: Direction, i: nat)
    requires |rkp| == 48 && IsTable(rkp, 56) && |left| == 28 && |right| == 28
    requires ValidShifts(shifts) && i < |shifts|
    ensures var n := Signed(Total(shifts, i + 1), dir);
      RoundKey(rkp, left, right, shifts, dir, i) == Permute(Rotate(left, n) + Rotate(right, n), rkp)
  {
    HalfAtIsRotate(left, shifts, dir, i);
    HalfAtIsRotate(right, shifts, dir, i);
  }

  /** Round key `i` is PC-2 of the two halves of PC-1(key), each rotated toward higher indices
      by `SHIFTS[0] + ... + SHIFTS[i]`. */
  lemma GenerateKeysClosedForm(t: Tables, key: Bits, i: nat)
    requires WellFormed(t) && |key| == 64 && i < 16
    ensures var pc1 := Permute(key, t.ikp);
      var n := Total(t.shifts, i + 1);
      GenerateKeys(t, key)[i] == Permute(Rotate(pc1[..28], n) + Rotate(pc1[28..], n), t.rkp)
  {
    var pc1 := Permute(key, t.ikp);
    RoundKeyClosedForm(t.rkp, pc1[..28], pc1[28..], t.shifts, TowardHigherIndex, i);
  }

  /** The same with the halves rotated toward the first bit by the accumulated amount. */
  lemma FipsGenerateKeysClosedForm(t: Tables, key: Bits, i: nat)
    requires WellFormed(t) && |key| == 64 && i < 16
    ensures var pc1 := Permute(key, t.ikp);
      var n := Total(t.shifts, i + 1);
      FipsGenerateKeys(t, key)[i] == Permute(Rotate(pc1[..28], -n) + Rotate(pc1[28..], -n), t.rkp)
  {
    var pc1 := Permute(key, t.ikp);
    RoundKeyClosedForm(t.rkp, pc1[..28], pc1[28..], t.shifts, TowardFirstBit, i);
  }
}
