# DES block cipher of `utils.h`, modelled in Dafny

`utils.h` implements single-block DES (FIPS PUB 46-3) on `std::bitset` values, except that its
key rotation turns the halves the other way (see "## Findings"). It also
converts between an 8-character string and a 64-bit block. This project models each of its
functions as a pure Dafny function over `seq<bool>`, indexed exactly like the bitset (element
`i` is `bits[i]`, and index 0 is the first bit of the DES tables). It then proves what the
code promises:

- the pointwise meaning of every table-driven permutation;
- that `leftShift` rotates (and in which direction);
- the closed form of the key schedule;
- the bit layout of the round function;
- the structure of the sixteen rounds;
- the two conversion round trips;
- that decryption undoes encryption.

Module layout, one file each:

- `Bits`: bit blocks, bytes, XOR/OR/shift of bitsets, and number ↔ bits conversion.
- `Sequences`: reversal, as in building a vector from `rbegin()`/`rend()`.
- `Conversion`: `strToBitset` and `bitsetToStr`.
- `Permutation`: `permute` and the algebra of selection tables.
- `Rotation`: `leftShift`, the reference rotation, and the rotation toward the first bit.
- `Tables`: the constant tables as one value, with their shape and range conditions.
- `KeySchedule`: `generateKeys`.
- `StandardSchedule`: where `generateKeys` as written and the FIPS PUB 46-3 schedule agree.
- `RoundFunction`: `feistel`.
- `FeistelNetwork`: the round loop over an arbitrary round function.
- `Des`: `desEncrypt` and `desDecrypt`.

`tables.h` is not part of this model. The tables (IP, FP, PC-1 = `IKP`, PC-2 = `RKP`, E, P,
the S-boxes, `SHIFTS`) are a parameter `t: Tables`. `WellFormed(t)` states their widths and
that every entry is in range. The round trips and `DesEncryptOutputThroughIp` also assume
`FpInvertsIp(t)`: FP and IP undo each other.

The round trip is proved once, for any round function (`Des.EncipherUndone`), and then
applied to `feistel`.

## Model

| member | source | states |
|---|---|---|
| Conversion.StrToBitset | utils.h:11-21 | the block is 64 bits wide for a string of any length, empty included; `StrToBitsetBit` gives each bit |
| Conversion.BitsetToStr | utils.h:23-33 | exactly eight characters, each `0..255`; `BitsetToStrBit` gives each bit |
| Conversion.StrToBitsetBit | utils.h:11-21 | bit `8i + j` of the block is bit `7 - j` of character `i`; a character past the end of the string reads as 0 |
| Conversion.BitsetToStrBit | utils.h:23-33 | bit `7 - j` of output character `i` is block bit `8i + j` |
| Conversion.BitsetStrBitset | utils.h:11-33 | converting a block to a string and back gives the block |
| Conversion.StrBitsetStr | utils.h:11-33 | converting a string to a block and back gives its first eight characters, zero-padded when shorter |
| Permutation.Permute | utils.h:36-43 | the output is as long as the table, and output bit `i` is input bit `table[i] - 1`; every entry must lie in `[1, Nin]` |
| Permutation.PermuteUndo | utils.h:36-43 | selecting by `a` and then by a table `b` that undoes `a` gives the input back |
| Permutation.PermuteCompose | utils.h:36-43 | two selections in a row are one selection by the composed table |
| Permutation.PermuteIdentity | utils.h:36-43 | the table `1, 2, ..., n` leaves the data unchanged |
| Rotation.LeftShift | utils.h:46-47 | for `0 <= shift <= 28`, result bit `i` is input bit `(i - shift) mod 28` |
| Rotation.LeftShiftIsRotate | utils.h:46-47 | leftShift equals the reference rotation toward higher indices |
| Rotation.LeftShiftPermutes | utils.h:46-47 | leftShift rearranges the bits: same multiset, hence the same number of set bits |
| Rotation.LeftShiftInverse | utils.h:46-47 | leftShift by `28 - shift` undoes leftShift by `shift`, so leftShift is a bijection |
| Rotation.LeftShiftOpposesFips | utils.h:46-54 | leftShift by `s` equals the commented-out rotation `key[(i + shift) % 28]` by `28 - s`, i.e. the opposite direction |
| Rotation.LeftShiftMovesAwayFromFirstBit | utils.h:46-47 | a half whose only set bit is bit 1: leftShift by 1 moves it to bit 2, while the first-bit rotation moves it to bit 0 |
| Rotation.FipsLeftShiftAsSlices | utils.h:50-54 | the commented-out rotation by `shift` moves the first `shift` bits to the end |
| KeySchedule.Schedule | utils.h:58-90 | for either rotation direction, 16 round keys of 48 bits each |
| KeySchedule.FipsGenerateKeys | utils.h:50-54 | the schedule with the commented-out rotation: 16 round keys of 48 bits each |
| KeySchedule.GenerateKeys | utils.h:58-90 | exactly 16 round keys, each 48 bits wide |
| KeySchedule.HalfAtIsRotate | utils.h:72-76 | the half the loop holds in round `i` is the starting half rotated by `SHIFTS[0] + ... + SHIFTS[i]` |
| KeySchedule.RoundKeyClosedForm | utils.h:72-87 | key `i` of the round loop is PC-2 of both starting halves, each rotated by the total of rotation amounts `0 .. i` |
| KeySchedule.GenerateKeysLoop | utils.h:58-90 | the source's loop, rotating two named halves and appending one PC-2 output per round, yields the sixteen round keys of the schedule |
| KeySchedule.GenerateKeysClosedForm | utils.h:58-90 | round key `i` is PC-2 of the two 28-bit halves of PC-1(key), each rotated toward higher indices by `SHIFTS[0] + ... + SHIFTS[i]` |
| KeySchedule.FipsGenerateKeysClosedForm | utils.h:50-54 | with the commented-out rotation, the halves are instead rotated toward the first bit by that total |
| StandardSchedule.StandardHalfTurns | utils.h:72-76 | with the standard rotation amounts, the total after round `i + 1` is a multiple of 14 exactly for rounds 8 and 16, where it is 14 and 28 |
| StandardSchedule.HalfAgreesAtHalfTurn | utils.h:46-54 | when the total after round `i + 1` is a multiple of 14, both rotation directions leave a half in the same place in round `i` |
| StandardSchedule.AsWrittenAgreesAtHalfTurn | utils.h:46-90 | when that total is a multiple of 14, round key `i` of the as-written schedule equals the standard schedule's, for every key and any tables |
| StandardSchedule.AsWrittenAgreesAtHalfTurns | utils.h:46-90 | with the standard rotation amounts, round keys 8 and 16 of the as-written schedule equal the standard schedule's, for every key |
| Rotation.RotateHalfTurn | utils.h:46-54 | a rotation by a multiple of 14 gives the same half in either direction |
| Rotation.OppositeRotationsAgree | utils.h:46-54 | on the half whose only set bit is the first, the two directions agree exactly when the amount is a multiple of 14 |
| RoundFunction.Row | utils.h:108-109 | the S-box row lies in `0..3` |
| RoundFunction.Column | utils.h:112-115 | the S-box column lies in `0..15` |
| RoundFunction.RowColumnMsbFirst | utils.h:106-115 | the row is the group's outer bits `x[6g], x[6g+5]` and the column its middle bits `x[6g+1..6g+4]`, each read as a number most significant bit first |
| RoundFunction.Lookup | utils.h:118 | the looked-up S-box value lies in `0..15` |
| RoundFunction.SubstituteNibble | utils.h:117-122 | bits `4g .. 4g + 3` of the substituted block, read most significant first, are S-box `g`'s value |
| RoundFunction.MixedBit | utils.h:95-99 | bit `i` of the mixed block is `right[E[i] - 1]` XOR `roundKey[i]` |
| RoundFunction.FeistelBit | utils.h:93-129 | if `P[i] - 1 = 4g + j`, output bit `i` of feistel is bit `3 - j` of S-box `g`'s value for the mixed block |
| RoundFunction.Feistel | utils.h:93-129 | the output of feistel is 32 bits wide |
| FeistelNetwork.Step | utils.h:145-152 | one round keeps both halves `n` bits wide when the round function does |
| FeistelNetwork.Rounds | utils.h:145-152 | any number of rounds keeps both halves `n` bits wide |
| FeistelNetwork.StepUndo | utils.h:145-152 | a round applied to the swapped output of the same round under the same key gives the swapped input back |
| FeistelNetwork.RoundsPrefixStep | utils.h:145-152 | the state after `i + 1` rounds is one round on from the state after `i` rounds |
| FeistelNetwork.RoundsPrepend | utils.h:145-152 | an extra key at the front is an extra round at the start |
| FeistelNetwork.RoundsInverse | utils.h:145-152 | running the rounds, swapping, then running them with the keys reversed gives the swapped input, whatever the round function |
| FeistelNetwork.NetworkInverse | utils.h:145-159 | the rounds followed by the half exchange undo themselves under the reversed keys |
| Des.Encipher | utils.h:132-165 | IP, the network, the halves joined right first, then FP, give a 64-bit block for any width-keeping round function |
| Des.DesEncrypt | utils.h:132-165 | desEncrypt gives a 64-bit ciphertext for every 64-bit block and at least sixteen 48-bit keys; `DesEncryptOutput` and `RoundStateStep` give its content |
| Des.DesDecrypt | utils.h:168-172 | desDecrypt gives a 64-bit block under the same conditions; `DesDecryptUsesLastSixteenKeys` says which keys it uses |
| Des.DesStep | utils.h:145-152 | one round sets `L' = R` and `R' = L XOR feistel(R, K)` |
| Des.RoundStateStart | utils.h:135-142 | before any round, the state is IP(block) split into bits `[0, 32)` and `[32, 64)` |
| Des.RoundStateStep | utils.h:145-152 | round `i` takes the state from `(L, R)` to `(R, L XOR feistel(R, keys[i]))` |
| Des.DesEncryptOutput | utils.h:154-164 | for any well-formed tables, the ciphertext is FP applied to `R16` followed by `L16` |
| Des.DesEncryptOutputThroughIp | utils.h:154-164 | when FP undoes IP, IP of the ciphertext is `R16` followed by `L16` |
| Des.RunRounds | utils.h:145-152 | the source's round loop over two named halves ends in the state of the sixteen rounds under `keys[0 .. 15]` |
| Des.DesEncryptUsesFirstSixteenKeys | utils.h:145-147 | desEncrypt reads only the first sixteen keys |
| Des.EncipherUndone | utils.h:132-165 | for any round function that keeps widths, enciphering with the reversed keys undoes enciphering, when FP and IP undo each other |
| Des.DesEncryptIsEncipher | utils.h:132-165 | with exactly sixteen keys, desEncrypt enciphers under all of them with feistel |
| Des.EncryptUndone | utils.h:132-172 | encryption under sixteen keys is undone by encryption under the same keys reversed |
| Des.DesDecryptUsesLastSixteenKeys | utils.h:168-172 | desDecrypt equals desEncrypt under the last sixteen keys, last first; for exactly sixteen keys this is the whole vector reversed |
| Des.DesRoundTrip | utils.h:132-172 | `desDecrypt(desEncrypt(b, ks), ks) == b` and `desEncrypt(desDecrypt(b, ks), ks) == b` for every key vector whose first sixteen keys are its last sixteen, e.g. any vector of exactly sixteen |
| Des.ScheduleRoundTrip | utils.h:58-90 | decryption undoes encryption under the keys of generateKeys, with either rotation direction |

## Left out

- `main.cpp` is a driver that only prints; it is not modelled.
- The contents of `tables.h` are not modelled. Every table is a parameter constrained by
  `WellFormed` and, for the round trips, by `FpInvertsIp`. The one exception is the standard
  rotation amounts, `StandardSchedule.StandardShifts`, which the Findings lemmas use. The
  FIPS PUB 46-3 known-answer vector is therefore not stated.
- Signed `char`. `strToBitset` reads `(c >> (7 - j)) & 1` for `j < 8`, and `bitsetToStr` or-s bits
  into a `char`. Both see only the eight bits of the character, so characters are modelled as
  unsigned bytes `0..255`. The implementation-defined narrowing of `128..255` into a `char` is not
  modelled.
- Rotation amounts outside `0..28`. `leftShift` is modelled for `0 <= shift <= 28`, where the
  unsigned `key.size() - shift` does not wrap. `WellFormed` allows any `SHIFTS` entry in that
  range, not just 1 and 2.
- `std::vector`/`std::bitset` storage, templates and `constexpr` are not modelled. Bit widths are
  sequence lengths.
- A key vector shorter than sixteen reads past its end in `desEncrypt`; the model requires at least
  sixteen keys.
- The network's round function (`DesRound`) returns the half unchanged for halves other than
  32 bits or keys other than 48 bits. The source's bitset types never produce such arguments.
- Avalanche and timing behaviour are not modelled: they are not functional properties.

## Findings

| source | as written | input that shows it | evidently intended | confidence | as-written member | corrected member |
|---|---|---|---|---|---|---|
| utils.h:47 | the or of `key << shift` and `key >> (28 - shift)` turns each key half toward HIGHER bitset indices: result bit `i` is key bit `(i - shift) mod 28`. Index 0 is the first DES bit (utils.h:18, utils.h:41), so this is the opposite of the left rotation of FIPS PUB 46-3. With the standard rotation amounts, the halves of round keys 1-7 and 9-15 are rotated to different places than the standard's; round keys 8 and 16, whose totals are 14 and 28, coincide with the standard's | the half whose only set bit is index 1, rotated by 1: as written the bit goes to index 2; the standard rotation moves it to index 0 | result bit `i` is key bit `(i + shift) mod 28`, the commented-out loop at utils.h:50-54 | not executed | Rotation.LeftShiftMovesAwayFromFirstBit | KeySchedule.FipsGenerateKeysClosedForm |

The key schedule is written once, over a `Direction`. `GenerateKeys` keeps the rotation as
written. `FipsGenerateKeys` uses the corrected one; `FipsGenerateKeysClosedForm` proves that each
of its halves is rotated toward the first bit by the accumulated amount. The cipher and its round
trip (`Des.ScheduleRoundTrip`) hold for both schedules. Decryption under the as-written schedule
still undoes encryption, so only interoperability with standard DES is affected.
`StandardHalfTurns` and `OppositeRotationsAgree` show where the two schedules part: the two
directions agree exactly for totals that are multiples of 14. `AsWrittenAgreesAtHalfTurns` proves
that round keys 8 and 16 are the same under both.
