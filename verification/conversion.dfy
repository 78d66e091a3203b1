/** Conversion between an 8-character string and a 64-bit block: character `i`
    fills bits `8i .. 8i + 7`, its most significant bit first. */
module Conversion {
  import opened Bits

  /** Character `i` of the string, or 0 past its end. */
  function ByteAt(s: seq<Byte>, i: nat): Byte
  {
    if i < |s| then s[i] else 0
  }

  /** The first eight characters of `s`, zero-padded when `s` is shorter. */
  function Pad8(s: seq<Byte>): (r: seq<Byte>)
    ensures |r| == 8
  {
    if |s| >= 8 then s[..8] else s + seq(8 - |s|, _ => 0)
  }

  /** The eight characters strToBitset reads: `str[i]` while `i < str.size()`, 0 after. */
  function Chars8(s: seq<Byte>): (r: seq<Byte>)
    ensures |r| == 8
  {
    seq(8, i requires 0 <= i < 8 => ByteAt(s, i))
  }

  /** The bits of each character in turn, eight per character, most significant first. */
  function PackBytes(bs: seq<Byte>): (r: Bits)
    ensures |r| == 8 * |bs|
  {
    if |bs| == 0 then [] else ToBits(bs[0], 8) + PackBytes(bs[1..])
  }

  /** Consecutive 8-bit groups of a block read back as characters. */
  function UnpackBytes(b: Bits): (r: seq<Byte>)
    requires |b| % 8 == 0
    ensures 8 * |r| == |b|
  {
    if |b| == 0 then []
    else
      Pow2Values();
      [FromBits(b[..8])] + UnpackBytes(b[8..])
  }

  /** strToBitset: the first eight characters, missing ones read as 0. */
  function StrToBitset(s: seq<Byte>): (r: Bits)
    ensures |r| == 64
  {
    PackBytes(Chars8(s))
  }

  /** bitsetToStr: eight characters, one per 8-bit group of the block. */
  function BitsetToStr(b: Bits): (r: seq<Byte>)
    requires |b| == 64
    ensures |r| == 8
  {
    UnpackBytes(b)
  }

  lemma {:induction false} PackBytesChunk(bs: seq<Byte>, n: nat)
    requires n < |bs|
    ensures PackBytes(bs)[8 * n .. 8 * n + 8] == ToBits(bs[n], 8)
  {
    if n > 0 {
      PackBytesChunk(bs[1..], n - 1);
      var r, rest := PackBytes(bs), PackBytes(bs[1..]);
      assert r == ToBits(bs[0], 8) + rest;
      assert r[8 * n .. 8 * n + 8] == rest[8 * (n - 1) .. 8 * (n - 1) + 8];
    }
  }

  lemma {:induction false} UnpackBytesChunk(b: Bits, n: nat)
    requires |b| % 8 == 0 && 8 * n + 8 <= |b|
    ensures ToBits(UnpackBytes(b)[n], 8) == b[8 * n .. 8 * n + 8]
  {
    if n == 0 {
      ToBitsFromBits(b[..8]);
    } else {
      UnpackBytesChunk(b[8..], n - 1);
      assert b[8..][8 * (n - 1) .. 8 * (n - 1) + 8] == b[8 * n .. 8 * n + 8];
    }
  }

  lemma {:induction false} PackUnpack(b: Bits)
    requires |b| % 8 == 0
    ensures PackBytes(UnpackBytes(b)) == b
  {
    if |b| > 0 {
      var u := UnpackBytes(b);
      PackUnpack(b[8..]);
      assert u[1..] == UnpackBytes(b[8..]);
      ToBitsFromBits(b[..8]);
      assert b == b[..8] + b[8..];
    }
  }

  lemma {:induction false} UnpackPack(bs: seq<Byte>)
    ensures UnpackBytes(PackBytes(bs)) == bs
  {
    if |bs| > 0 {
      var b := PackBytes(bs);
      var head := ToBits(bs[0], 8);
      assert b == head + PackBytes(bs[1..]);
      assert b[..8] == head;
      assert b[8..] == PackBytes(bs[1..]);
      Pow2Values();
      FromBitsToBits(bs[0], 8);
      UnpackPack(bs[1..]);
    }
  }

  /** Bit `8i + j` of the block is bit `7 - j` of character `i` (0 past the end of the string). */
  lemma StrToBitsetBit(s: seq<Byte>, i: nat, j: nat)
    requires i < 8 && j < 8
    ensures StrToBitset(s)[8 * i + j] == Bit(ByteAt(s, i), 7 - j)
  {
    var bs := Chars8(s);
    PackBytesChunk(bs, i);
    assert StrToBitset(s)[8 * i + j] == PackBytes(bs)[8 * i .. 8 * i + 8][j];
  }

  /** Bit `7 - j` of character `i` is bit `8i + j` of the block. */
  lemma BitsetToStrBit(b: Bits, i: nat, j: nat)
    requires |b| == 64 && i < 8 && j < 8
    ensures Bit(BitsetToStr(b)[i], 7 - j) == b[8 * i + j]
  {
    UnpackBytesChunk(b, i);
    assert ToBits(BitsetToStr(b)[i], 8)[j] == b[8 * i .. 8 * i + 8][j];
  }

  lemma BitsetStrBitset(b: Bits)
    requires |b| == 64
    ensures StrToBitset(BitsetToStr(b)) == b
  {
    var u := BitsetToStr(b);
    assert Chars8(u) == u;
    PackUnpack(b);
  }

  lemma StrBitsetStr(s: seq<Byte>)
    ensures BitsetToStr(StrToBitset(s)) == Pad8(s)
  {
    var bs := Chars8(s);
    UnpackPack(bs);
    assert bs == Pad8(s);
  }
}
