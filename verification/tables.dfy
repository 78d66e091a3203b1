/** The constant tables the cipher reads. Their values are not part of this model: every
    operation takes them as a parameter that satisfies the shape and range conditions below. */
module Tables {
  import opened Permutation

  datatype Tables = Tables(
    ip: seq<int>,               // initial permutation, 64 -> 64
    fp: seq<int>,               // final permutation, 64 -> 64
    ikp: seq<int>,              // key permutation PC-1, 64 -> 56
    rkp: seq<int>,              // round-key compression PC-2, 56 -> 48
    e: seq<int>,                // expansion of the right half, 32 -> 48
    p: seq<int>,                // permutation after the S-boxes, 32 -> 32
    s: seq<seq<seq<int>>>,      // eight S-boxes of 4 rows by 16 columns
    shifts: seq<int>            // rotation amount of each of the 16 rounds
  )

  predicate SBoxesWellFormed(s: seq<seq<seq<int>>>)
  {
    && |s| == 8
    && (forall g :: 0 <= g < 8 ==> |s[g]| == 4)
    && (forall g, row :: 0 <= g < 8 && 0 <= row < 4 ==> |s[g][row]| == 16)
    && (forall g, row, col :: 0 <= g < 8 && 0 <= row < 4 && 0 <= col < 16 ==> 0 <= s[g][row][col] < 16)
  }

  /** Every table has the width its use expects and every entry is in range. A rotation amount
      may be anything up to the half width: leftShift computes `28 - shift` unsigned. */
  predicate WellFormed(t: Tables)
  {
    && |t.ip| == 64 && IsTable(t.ip, 64)
    && |t.fp| == 64 && IsTable(t.fp, 64)
    && |t.ikp| == 56 && IsTable(t.ikp, 64)
    && |t.rkp| == 48 && IsTable(t.rkp, 56)
    && |t.e| == 48 && IsTable(t.e, 32)
    && |t.p| == 32 && IsTable(t.p, 32)
    && SBoxesWellFormed(t.s)
    && |t.shifts| == 16
    && (forall i :: 0 <= i < 16 ==> 0 <= t.shifts[i] <= 28)
  }

  /** The final permutation undoes the initial one and the initial one undoes the final one. */
  predicate FpInvertsIp(t: Tables)
    requires WellFormed(t)
  {
    Undoes(t.fp, t.ip) && Undoes(t.ip, t.fp)
  }
}
