/** Where generateKeys as written meets the schedule of FIPS PUB 46-3: the two rotation
    directions agree exactly on totals that are multiples of 14, half the width of a key half. */
module StandardSchedule {
  import opened Bits
  import opened Permutation
  import opened Rotation
  import opened Tables
  import opened KeySchedule

  /** The rotation amounts of FIPS PUB 46-3, rounds 1 to 16. */
  const StandardShifts: seq<int> := [1, 1, 2, 2, 2, 2, 2, 2, 1, 2, 2, 2, 2, 2, 2, 1]

  /** With the standard amounts, the total after round `i + 1` is a multiple of 14 only after
      rounds 8 and 16 (indices 7 and 15), where it is 14 and 28. */
  lemma StandardHalfTurns(i: nat)
    requires i < 16
    ensures Total(StandardShifts, i + 1) % 14 == 0 <==> i == 7 || i == 15
    ensures Total(StandardShifts, 8) == 14 && Total(StandardShifts, 16) == 28
  {
    var s := StandardShifts;
    assert Total(s, 1) == 1;
    assert Total(s, 2) == 2;
    assert Total(s, 3) == 4;
    assert Total(s, 4) == 6;
    assert Total(s, 5) == 8;
    assert Total(s, 6) == 10;
    assert Total(s, 7) == 12;
    assert Total(s, 8) == 14;
    assert Total(s, 9) == 15;
    assert Total(s, 10) == 17;
    assert Total(s, 11) == 19;
    assert Total(s, 12) == 21;
    assert Total(s, 13) == 23;
    assert Total(s, 14) == 25;
    assert Total(s, 15) == 27;
    assert Total(s, 16) == 28;
  }

  /** Whenever the rotation total of round `i + 1` is a multiple of 14, round key `i` of
      generateKeys as written is that of the standard schedule, whatever the key. */
  lemma AsWrittenAgreesAtHalfTurn(t: Tables, key: Bits, i: nat)
    requires WellFormed(t) && |key| == 64 && i < 16 && Total(t.shifts, i + 1) % 14 == 0
    ensures GenerateKeys(t, key)[i] == FipsGenerateKeys(t, key)[i]
  {
    var pc1 := Permute(key, t.ikp);
    ScheduleKey(t, key, TowardHigherIndex, i);
    ScheduleKey(t, key, TowardFirstBit, i);
    RoundKeysAgreeAtHalfTurn(t.rkp, pc1[..28], pc1[28..], t.shifts, i);
  }

  lemma ScheduleKey(t: Tables, key: Bits, dir: Direction, i: nat)
    requires WellFormed(t) && |key| == 64 && i < 16
    ensures var pc1 := Permute(key, t.ikp);
      Schedule(t, key, dir)[i] == RoundKey(t.rkp, pc1[..28], pc1[28..], t.shifts, dir, i)
  {
  }

  /** Both directions give the same round key when the total is a multiple of 14. */
  lemma RoundKeysAgreeAtHalfTurn(rkp: seq<int>, left: Bits, right: Bits, shifts: seq<int>, i: nat)
    requires |rkp| == 48 && IsTable(rkp, 56) && |left| == 28 && |right| == 28
    requires ValidShifts(shifts) && i < |shifts| && Total(shifts, i + 1) % 14 == 0
    ensures RoundKey(rkp, left, right, shifts, TowardHigherIndex, i)
      == RoundKey(rkp, left, right, shifts, TowardFirstBit, i)
  {
    HalfAgreesAtHalfTurn(left, shifts, i);
    HalfAgreesAtHalfTurn(right, shifts, i);
  }

  /** Both directions leave a half in the same place when the total is a multiple of 14. */
  lemma HalfAgreesAtHalfTurn(half: Bits, shifts: seq<int>, i: nat)
    requires |half| == 28 && ValidShifts(shifts) && i < |shifts| && Total(shifts, i + 1) % 14 == 0
    ensures HalfAt(half, shifts, TowardHigherIndex, i) == HalfAt(half, shifts, TowardFirstBit, i)
  {
    var n := Total(shifts, i + 1);
    HalfAtIsRotate(half, shifts, TowardHigherIndex, i);
    HalfAtIsRotate(half, shifts, TowardFirstBit, i);
    OppositeHalfTurns(half, HalfAt(half, shifts, TowardHigherIndex, i), HalfAt(half, shifts, TowardFirstBit, i),
      Signed(n, TowardHigherIndex), Signed(n, TowardFirstBit), n);
  }

  lemma OppositeHalfTurns(half: Bits, x: Bits, y: Bits, a: int, b: int, n: int)
    requires |half| == 28 && x == Rotate(half, a) && y == Rotate(half, b)
    requires a == n && b == -n && n % 14 == 0
    ensures x == y
  {
    RotateHalfTurn(half, n);
  }

  /** With the standard amounts, round keys 8 and 16 of generateKeys as written are those of
      the standard schedule, whatever the key. */
  lemma AsWrittenAgreesAtHalfTurns(t: Tables, key: Bits, i: nat)
    requires WellFormed(t) && |key| == 64 && t.shifts == StandardShifts && (i == 7 || i == 15)
    ensures GenerateKeys(t, key)[i] == FipsGenerateKeys(t, key)[i]
  {
    assert Total(t.shifts, i + 1) % 14 == 0 by {
      StandardHalfTurns(i);
    }
    AsWrittenAgreesAtHalfTurn(t, key, i);
  }
}
