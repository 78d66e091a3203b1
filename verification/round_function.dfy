/** feistel: the DES round function on a 32-bit half under a 48-bit round key. */
module RoundFunction {
  import opened Bits
  import opened Permutation
  import opened Tables

  function BitValue(b: bool): nat
  {
    if b then 1 else 0
  }

  /** The S-box row for 6-bit group `g`: its first bit, then its last bit. */
  function Row(x: Bits, g: nat): (row: nat)
    requires 6 * g + 6 <= |x|
    ensures row < 4
  {
    2 * BitValue(x[6 * g]) + BitValue(x[6 * g + 5])
  }

  /** The S-box column for 6-bit group `g`: its four middle bits, the first most significant. */
  function Column(x: Bits, g: nat): (col: nat)
    requires 6 * g + 6 <= |x|
    ensures col < 16
  {
    8 * BitValue(x[6 * g + 1]) + 4 * BitValue(x[6 * g + 2])
      + 2 * BitValue(x[6 * g + 3]) + BitValue(x[6 * g + 4])
  }

  /** The value S-box `g` gives for group `g` of the mixed block. */
  function Lookup(t: Tables, x: Bits, g: nat): (v: nat)
    requires SBoxesWellFormed(t.s) && |x| == 48 && g < 8
    ensures v < 16
  {
    t.s[g][Row(x, g)][Column(x, g)]
  }

  /** The looked-up values of groups `g .. 7`, four bits each, most significant first. */
  function Substitute(t: Tables, x: Bits, g: nat): (r: Bits)
    requires SBoxesWellFormed(t.s) && |x| == 48 && g <= 8
    ensures |r| == 4 * (8 - g)
    decreases 8 - g
  {
    if g == 8 then [] else ToBits(Lookup(t, x, g), 4) + Substitute(t, x, g + 1)
  }

  /** The expanded right half XOR-ed with the round key. */
  function Mixed(t: Tables, right: Bits, roundKey: Bits): (x: Bits)
    requires WellFormed(t) && |right| == 32 && |roundKey| == 48
    ensures |x| == 48
  {
    Xor(Permute(right, t.e), roundKey)
  }

  /** feistel: expansion, key mixing, the eight S-boxes, then the permutation P. */
  function Feistel(t: Tables, right: Bits, roundKey: Bits): (r: Bits)
    requires WellFormed(t) && |right| == 32 && |roundKey| == 48
    ensures |r| == 32
  {
    Permute(Substitute(t, Mixed(t, right, roundKey), 0), t.p)
  }

  lemma FromBitsTwo(a: bool, b: bool)
    ensures FromBits([a, b]) == 2 * BitValue(a) + BitValue(b)
  {
    assert [a, b][..1] == [a];
    assert [a][..0] == [];
  }

  lemma FromBitsFour(a: bool, b: bool, c: bool, d: bool)
    ensures FromBits([a, b, c, d]) == 8 * BitValue(a) + 4 * BitValue(b) + 2 * BitValue(c) + BitValue(d)
  {
    assert [a, b, c, d][..3] == [a, b, c];
    assert [a, b, c][..2] == [a, b];
    FromBitsTwo(a, b);
  }

  /** Row and column are the outer two bits and the middle four bits of the group, each read
      as a number most significant bit first. */
  lemma RowColumnMsbFirst(x: Bits, g: nat)
    requires 6 * g + 6 <= |x|
    ensures Row(x, g) == FromBits([x[6 * g], x[6 * g + 5]])
    ensures Column(x, g) == FromBits(x[6 * g + 1 .. 6 * g + 5])
  {
    FromBitsTwo(x[6 * g], x[6 * g + 5]);
    var mid := x[6 * g + 1 .. 6 * g + 5];
    assert mid == [x[6 * g + 1], x[6 * g + 2], x[6 * g + 3], x[6 * g + 4]];
    FromBitsFour(x[6 * g + 1], x[6 * g + 2], x[6 * g + 3], x[6 * g + 4]);
  }

  /** Bits `4(g - h) .. 4(g - h) + 3` of the substitution from group `h` hold group `g`'s value. */
  lemma {:induction false} SubstituteChunk(t: Tables, x: Bits, h: nat, g: nat)
    requires SBoxesWellFormed(t.s) && |x| == 48 && h <= g < 8
    ensures Substitute(t, x, h)[4 * (g - h) .. 4 * (g - h) + 4] == ToBits(Lookup(t, x, g), 4)
    decreases g - h
  {
    var r := Substitute(t, x, h);
    var rest := Substitute(t, x, h + 1);
    assert r == ToBits(Lookup(t, x, h), 4) + rest;
    if h < g {
      SubstituteChunk(t, x, h + 1, g);
      assert r[4 * (g - h) .. 4 * (g - h) + 4] == rest[4 * (g - h - 1) .. 4 * (g - h - 1) + 4];
    }
  }

  /** S-box `g`'s value is written most significant bit first into bits `4g .. 4g + 3`. */
  lemma SubstituteNibble(t: Tables, x: Bits, g: nat)
    requires SBoxesWellFormed(t.s) && |x| == 48 && g < 8
    ensures FromBits(Substitute(t, x, 0)[4 * g .. 4 * g + 4]) == Lookup(t, x, g)
  {
    SubstituteChunk(t, x, 0, g);
    Pow2Values();
    FromBitsToBits(Lookup(t, x, g), 4);
  }

  /** Output bit `i` is bit `3 - j` of S-box `g`'s value, where `P[i] - 1 = 4g + j`: the
      permutation P picks bit `j` of nibble `g`, counted from the most significant. */
  lemma FeistelBit(t: Tables, right: Bits, roundKey: Bits, i: nat, g: nat, j: nat)
    requires WellFormed(t) && |right| == 32 && |roundKey| == 48 && i < 32
    requires j < 4 && t.p[i] - 1 == 4 * g + j
    ensures Feistel(t, right, roundKey)[i] == Bit(Lookup(t, Mixed(t, right, roundKey), g), 3 - j)
  {
    PermutedNibbleBit(t, Mixed(t, right, roundKey), t.p, i, g, j);
  }

  lemma PermutedNibbleBit(t: Tables, x: Bits, p: seq<int>, i: nat, g: nat, j: nat)
    requires SBoxesWellFormed(t.s) && |x| == 48 && |p| == 32 && IsTable(p, 32) && i < 32
    requires j < 4 && p[i] - 1 == 4 * g + j
    ensures Permute(Substitute(t, x, 0), p)[i] == Bit(Lookup(t, x, g), 3 - j)
  {
    var sub := Substitute(t, x, 0);
    SubstituteChunk(t, x, 0, g);
    ChunkBit(sub, g, j, Lookup(t, x, g));
    PermuteSelects(sub, p, i, 4 * g + j);
  }

  lemma PermuteSelects(data: Bits, table: seq<int>, i: nat, q: nat)
    requires IsTable(table, |data|) && i < |table| && table[i] - 1 == q
    ensures Permute(data, table)[i] == data[q]
  {
  }

  lemma ChunkBit(b: Bits, g: nat, j: nat, v: nat)
    requires 4 * g + 4 <= |b| && j < 4
    requires b[4 * g .. 4 * g + 4] == ToBits(v, 4)
    ensures b[4 * g + j] == Bit(v, 3 - j)
  {
    assert b[4 * g + j] == b[4 * g .. 4 * g + 4][j];
  }

  /** The mixed block is the expansion of the right half, bit for bit XOR-ed with the key. */
  lemma MixedBit(t: Tables, right: Bits, roundKey: Bits, i: nat)
    requires WellFormed(t) && |right| == 32 && |roundKey| == 48 && i < 48
    ensures Mixed(t, right, roundKey)[i] == (right[t.e[i] - 1] != roundKey[i])
  {
  }
}
