/** desEncrypt and desDecrypt on 64-bit blocks. */
module Des {
  import opened Bits
  import opened Sequences
  import opened Permutation
  import opened Tables
  import opened KeySchedule
  import opened RoundFunction
  import opened FeistelNetwork

  /** feistel as a round function of the network. Halves and keys of other widths never reach
      it (the source's types are bitset<32> and bitset<48>); for them it returns the half. */
  function DesRound(t: Tables): (f: RoundFn)
    requires WellFormed(t)
    ensures KeepsWidth(f, 32)
  {
    (x: Bits, key: Bits) => if |x| == 32 && |key| == 48 then Feistel(t, x, key) else x
  }

  lemma DesRoundIsFeistel(t: Tables, x: Bits, key: Bits)
    requires WellFormed(t) && |x| == 32 && |key| == 48
    ensures DesRound(t)(x, key) == Feistel(t, x, key)
  {
  }

  /** A block split into bits `[0, 32)` and `[32, 64)`. */
  function Split(block: Bits): (h: Halves)
    requires |block| == 64
    ensures Wide(h, 32) && h.left + h.right == block
  {
    Halves(block[..32], block[32..])
  }

  /** The left half in bits `[0, 32)`, the right half in bits `[32, 64)`. */
  function Join(h: Halves): (block: Bits)
    requires Wide(h, 32)
    ensures |block| == 64 && Split(block) == h
  {
    var block := h.left + h.right;
    assert block[..32] == h.left && block[32..] == h.right;
    block
  }

  /** The halves after the first `i` rounds, starting from the initial permutation. */
  function RoundState(t: Tables, block: Bits, keys: seq<Bits>, i: nat): (h: Halves)
    requires WellFormed(t) && |block| == 64 && i <= |keys|
    ensures Wide(h, 32)
  {
    Rounds(DesRound(t), 32, Split(Permute(block, t.ip)), keys[..i])
  }

  /** The block cipher around a network: the initial permutation, the rounds under `keys`, the
      halves joined right half first, then the final permutation. */
  function Encipher(f: RoundFn, ip: seq<int>, fp: seq<int>, block: Bits, keys: seq<Bits>): (r: Bits)
    requires KeepsWidth(f, 32) && |block| == 64
    requires |ip| == 64 && IsTable(ip, 64) && |fp| == 64 && IsTable(fp, 64)
    ensures |r| == 64
  {
    Permute(Join(Network(f, 32, Split(Permute(block, ip)), keys)), fp)
  }

  /** Enciphering with the keys reversed undoes enciphering when each permutation undoes the
      other, whatever the round function. */
  lemma EncipherUndone(f: RoundFn, ip: seq<int>, fp: seq<int>, block: Bits, keys: seq<Bits>)
    requires KeepsWidth(f, 32) && |block| == 64
    requires |ip| == 64 && IsTable(ip, 64) && |fp| == 64 && IsTable(fp, 64)
    requires Undoes(fp, ip) && Undoes(ip, fp)
    ensures Encipher(f, ip, fp, Encipher(f, ip, fp, block, keys), Reverse(keys)) == block
  {
    var permuted := Permute(block, ip);
    var out := Network(f, 32, Split(permuted), keys);
    var cipher := Encipher(f, ip, fp, block, keys);
    assert Split(Permute(cipher, ip)) == out by {
      PermuteUndo(Join(out), fp, ip);
    }
    assert Network(f, 32, out, Reverse(keys)) == Split(permuted) by {
      NetworkInverse(f, 32, Split(permuted), keys);
    }
    PermuteUndo(block, ip, fp);
  }

  /** desEncrypt: Encipher with feistel under the first sixteen keys. */
  function DesEncrypt(t: Tables, block: Bits, keys: seq<Bits>): (r: Bits)
    requires WellFormed(t) && |block| == 64 && |keys| >= 16 && AllOfWidth(keys, 48)
    ensures |r| == 64
  {
    Encipher(DesRound(t), t.ip, t.fp, block, keys[..16])
  }

  /** With exactly sixteen keys desEncrypt enciphers under all of them. */
  lemma DesEncryptIsEncipher(t: Tables, block: Bits, keys: seq<Bits>)
    requires WellFormed(t) && |block| == 64 && |keys| == 16 && AllOfWidth(keys, 48)
    ensures DesEncrypt(t, block, keys) == Encipher(DesRound(t), t.ip, t.fp, block, keys)
  {
    assert keys[..16] == keys;
  }

  lemma ReverseAllOfWidth(keys: seq<Bits>, n: nat)
    requires AllOfWidth(keys, n)
    ensures AllOfWidth(Reverse(keys), n)
  {
    var rev := Reverse(keys);
    forall j | 0 <= j < |rev|
      ensures |rev[j]| == n
    {
      assert rev[j] == keys[|keys| - 1 - j];
    }
  }

  /** desDecrypt: desEncrypt under the whole key vector in reverse order. */
  function DesDecrypt(t: Tables, block: Bits, keys: seq<Bits>): (r: Bits)
    requires WellFormed(t) && |block| == 64 && |keys| >= 16 && AllOfWidth(keys, 48)
    ensures |r| == 64
  {
    ReverseAllOfWidth(keys, 48);
    DesEncrypt(t, block, Reverse(keys))
  }

  /** One round of the network under feistel. */
  lemma DesStep(t: Tables, h: Halves, key: Bits)
    requires WellFormed(t) && Wide(h, 32) && |key| == 48
    ensures Step(DesRound(t), 32, h, key) == Halves(h.right, Xor(h.left, Feistel(t, h.right, key)))
  {
    DesRoundIsFeistel(t, h.right, key);
  }

  /** The rounds as FIPS PUB 46-3 states them. The state starts as the two halves of the
      initial permutation ... */
  lemma RoundStateStart(t: Tables, block: Bits, keys: seq<Bits>)
    requires WellFormed(t) && |block| == 64
    ensures RoundState(t, block, keys, 0) == Split(Permute(block, t.ip))
  {
    assert keys[..0] == [];
  }

  /** ... round `i` sets L' = R and R' = L xor f(R, K_i) ... */
  lemma RoundStateStep(t: Tables, block: Bits, keys: seq<Bits>, i: nat)
    requires WellFormed(t) && |block| == 64 && i < |keys| && |keys[i]| == 48
    ensures var h := RoundState(t, block, keys, i);
      RoundState(t, block, keys, i + 1) == Halves(h.right, Xor(h.left, Feistel(t, h.right, keys[i])))
  {
    var h := RoundState(t, block, keys, i);
    assert RoundState(t, block, keys, i + 1) == Step(DesRound(t), 32, h, keys[i]) by {
      RoundsPrefixStep(DesRound(t), 32, Split(Permute(block, t.ip)), keys, i);
    }
    DesStep(t, h, keys[i]);
  }

  /** ... and the ciphertext is FP applied to R16 followed by L16. */
  lemma DesEncryptOutput(t: Tables, block: Bits, keys: seq<Bits>)
    requires WellFormed(t) && |block| == 64 && |keys| >= 16 && AllOfWidth(keys, 48)
    ensures var out := RoundState(t, block, keys, 16);
      DesEncrypt(t, block, keys) == Permute(out.right + out.left, t.fp)
  {
  }

  /** When FP undoes IP, the initial permutation of the ciphertext is R16 followed by L16. */
  lemma DesEncryptOutputThroughIp(t: Tables, block: Bits, keys: seq<Bits>)
    requires WellFormed(t) && FpInvertsIp(t) && |block| == 64 && |keys| >= 16 && AllOfWidth(keys, 48)
    ensures var out := RoundState(t, block, keys, 16);
      Permute(DesEncrypt(t, block, keys), t.ip) == out.right + out.left
  {
    var out := RoundState(t, block, keys, 16);
    DesEncryptOutput(t, block, keys);
    PermuteUndo(out.right + out.left, t.fp, t.ip);
  }

  /** Keys after the sixteenth are never read. */
  lemma DesEncryptUsesFirstSixteenKeys(t: Tables, block: Bits, keys: seq<Bits>)
    requires WellFormed(t) && |block| == 64 && |keys| >= 16 && AllOfWidth(keys, 48)
    ensures DesEncrypt(t, block, keys) == DesEncrypt(t, block, keys[..16])
  {
    assert keys[..16][..16] == keys[..16];
  }

  /** desDecrypt uses the LAST sixteen keys, last one first: with exactly sixteen keys that is
      the whole schedule reversed. */
  lemma DesDecryptUsesLastSixteenKeys(t: Tables, block: Bits, keys: seq<Bits>)
    requires WellFormed(t) && |block| == 64 && |keys| >= 16 && AllOfWidth(keys, 48)
    ensures AllOfWidth(Reverse(keys[|keys| - 16..]), 48)
    ensures DesDecrypt(t, block, keys) == DesEncrypt(t, block, Reverse(keys[|keys| - 16..]))
  {
    var last, rev := keys[|keys| - 16..], Reverse(keys);
    ReverseAllOfWidth(keys, 48);
    ReverseAllOfWidth(last, 48);
    assert rev[..16] == Reverse(last) by {
      ReversePrefix(keys, 16);
    }
    assert DesEncrypt(t, block, rev) == DesEncrypt(t, block, rev[..16]) by {
      DesEncryptUsesFirstSixteenKeys(t, block, rev);
    }
  }

  /** Encryption under sixteen keys is undone by encryption under the same keys reversed,
      provided the final permutation and the initial permutation undo each other. */
  lemma EncryptUndone(t: Tables, block: Bits, keys: seq<Bits>)
    requires WellFormed(t) && FpInvertsIp(t) && |block| == 64 && |keys| == 16 && AllOfWidth(keys, 48)
    ensures AllOfWidth(Reverse(keys), 48)
    ensures DesEncrypt(t, DesEncrypt(t, block, keys), Reverse(keys)) == block
  {
    ReverseAllOfWidth(keys, 48);
    var f, rev := DesRound(t), Reverse(keys);
    var cipher := DesEncrypt(t, block, keys);
    DesEncryptIsEncipher(t, block, keys);
    DesEncryptIsEncipher(t, cipher, rev);
    EncipherUndone(f, t.ip, t.fp, block, keys);
  }

  /** Decryption undoes encryption, and encryption undoes decryption, under a key vector whose
      first sixteen keys are its last sixteen (in particular any vector of exactly sixteen),
      provided the final permutation and the initial permutation undo each other. */
  lemma DesRoundTrip(t: Tables, block: Bits, keys: seq<Bits>)
    requires WellFormed(t) && FpInvertsIp(t) && |block| == 64
    requires |keys| >= 16 && AllOfWidth(keys, 48) && keys[..16] == keys[|keys| - 16..]
    ensures DesDecrypt(t, DesEncrypt(t, block, keys), keys) == block
    ensures DesEncrypt(t, DesDecrypt(t, block, keys), keys) == block
  {
    var first := keys[..16];
    ReverseAllOfWidth(first, 48);
    var rev := Reverse(first);
    assert Reverse(rev) == first by {
      ReverseTwice(first);
    }
    assert DesDecrypt(t, DesEncrypt(t, block, keys), keys) == block by {
      DesEncryptUsesFirstSixteenKeys(t, block, keys);
      DesDecryptUsesLastSixteenKeys(t, DesEncrypt(t, block, first), keys);
      EncryptUndone(t, block, first);
    }
    assert DesEncrypt(t, DesDecrypt(t, block, keys), keys) == block by {
      DesDecryptUsesLastSixteenKeys(t, block, keys);
      DesEncryptUsesFirstSixteenKeys(t, DesEncrypt(t, block, rev), keys);
      EncryptUndone(t, block, rev);
    }
  }

  /** Decryption undoes encryption under the round keys of generateKeys, as written and with
      the FIPS rotation alike. */
  lemma ScheduleRoundTrip(t: Tables, key: Bits, dir: Direction, block: Bits)
    requires WellFormed(t) && FpInvertsIp(t) && |key| == 64 && |block| == 64
    ensures DesDecrypt(t, DesEncrypt(t, block, Schedule(t, key, dir)), Schedule(t, key, dir)) == block
  {
    var keys := Schedule(t, key, dir);
    assert keys[..16] == keys[|keys| - 16..];
    DesRoundTrip(t, block, keys);
  }

  /** The round loop of desEncrypt over the first sixteen keys, on two named halves. */
  method RunRounds(t: Tables, left: Bits, right: Bits, keys: seq<Bits>) returns (l: Bits, r: Bits)
    requires WellFormed(t) && |left| == 32 && |right| == 32 && |keys| >= 16 && AllOfWidth(keys, 48)
    ensures Halves(l, r) == Rounds(DesRound(t), 32, Halves(left, right), keys[..16])
  {
    var f := DesRound(t);
    l, r := left, right;
    var i := 0;
    while i < 16
      invariant 0 <= i <= 16
      invariant |l| == 32 && |r| == 32
      invariant Halves(l, r) == Rounds(f, 32, Halves(left, right), keys[..i])
    {
      var newLeft := r;
      var feistelOut := Feistel(t, r, keys[i]);
      var newRight := Xor(l, feistelOut);
      assert Halves(newLeft, newRight) == Step(f, 32, Halves(l, r), keys[i]) by {
        DesStep(t, Halves(l, r), keys[i]);
      }
      RoundsPrefixStep(f, 32, Halves(left, right), keys, i);
      l, r := newLeft, newRight;
      i := i + 1;
    }
  }
}
