# Faro cipher engine, modelled in Dafny

`faro_cipher` is a keyed, deterministic cipher built from card-shuffle permutations of bits.
A key is stretched by PBKDF2 into a round schedule. Each round says:

- which bit shuffle to use (none, in, out, milk or cut; four variants; 1 to 4 steps);
- which of seven keyed bit transforms to use;
- which transform key;
- which chunk size, from 2 to 32 KiB.

Encryption pads the buffer with a filler byte to a multiple of the largest chunk size. Each round then splits the buffer into chunks. Each chunk is turned into bits, padded to a power of two, shuffled, transformed and packed back. Decryption runs the rounds in reverse: transform, inverse shuffle, trim. It finally trims to the recorded original size, after checking a 16-character MD5 key fingerprint. Files are written as records: a 4-byte big-endian length, then the ciphertext of one block.

Four other back ends compute the same kind of pipeline:

- the JIT kernels (`jit_optimized.py`, `jit_cipher.py`): shuffles and transforms selected by integer codes;
- the byte-level "ultra" engine (`algorithmic_optimized.py`, `ultra_cipher.py`): shuffles and transforms whole bytes, with a cache-blocked path and 8-byte padding;
- the batched engine (`optimized.py`): groups chunks into batches and passes bit arrays through a bounded memory pool. As written the pool stores arrays under a key its lookup never matches, so every array it hands out is new (see Findings).

The project has these modules:

| module | file | contents |
|---|---|---|
| `ShuffleSpec` | shuffle_spec.dfy | each shuffle step as a gather index map |
| `Shuffles` | shuffles.dfy | the in-place numpy slice assignments, proved against `ShuffleSpec` |
| `Transforms` | transforms.dfy | the seven transforms |
| `Utils` | utils.dfy | power-of-two padding and the fingerprint |
| `Bits` | bits.dfy | numpy `unpackbits`/`packbits` |
| `Pipeline` | pipeline.dfy | the round pipeline as functions over a chunk step |
| `Chunking` | chunking.dfy | splitting into chunks and joining them |
| `Schedule` | schedule.dfy | the round schedule |
| `Framing` | framing.dfy | the file records |
| `Core` | core.dfy | the reference cipher, `FaroCipher` |
| `JitOptimized`, `JitCipher` | jit_optimized.dfy, jit_cipher.dfy | the JIT back end |
| `Algorithmic`, `Ultra` | algorithmic.dfy, ultra_cipher.dfy | the byte-level back end |
| `Optimized` | optimized.dfy | the batched back end and its pool |

`Wrappers`, `Seqs`, `Arith` and `Permutations` are helpers.

Inputs the cipher takes from outside are parameters of the model:

- PBKDF2-HMAC-SHA256 (section 5.2 of RFC 8018): a `Kdf` function value.
- MD5 (RFC 1321): an `Md5` function value returning 16 bytes.
- numpy's `RandomState` draws: a `Draw` oracle. A choice among a list is the list entry at the drawn index modulo its length.
- File contents: byte sequences.
- numpy's uninitialised `np.empty_like` bytes: a `junk` byte parameter.

## Model

| member | source | states |
|---|---|---|
| ShuffleSpec.InMapsInverse | faro_cipher/shuffles.py:60-81 | for every length n ≥ 2 and variant, the in-shuffle's forward and inverse index maps are inverse bijections, odd n included |
| ShuffleSpec.OutMapsInverse | faro_cipher/shuffles.py:83-98 | the out-shuffle's maps are inverse bijections for variants 1 to 3 at every n, and for variant 0 at even n |
| ShuffleSpec.MilkMapsInverse | faro_cipher/shuffles.py:100-129 | the milk deal (top/bottom alternately) and the scatter of the inverse are inverse bijections for every n |
| ShuffleSpec.CutMapsInverse | faro_cipher/shuffles.py:131-157 | the cut's maps are inverse bijections except for variant 1 at n = 3 |
| ShuffleSpec.SrcMapsInverse | faro_cipher/shuffles.py:56-58 | where both steps run, the forward step's map and the inverse step's map undo each other, for every family |
| ShuffleSpec.StepsUndo | faro_cipher/shuffles.py:188-190 | one inverse step undoes one forward step, and the other way round, on every length where both run |
| ShuffleSpec.InverseUndoesForward | faro_cipher/shuffles.py:187-190 | `steps` inverse steps undo `steps` forward steps |
| ShuffleSpec.ForwardUndoesInverse | faro_cipher/shuffles.py:187-190 | `steps` forward steps undo `steps` inverse steps, so both are bijections |
| ShuffleSpec.FaroShuffleLeavesTrivialInputs | faro_cipher/shuffles.py:44-48 | lengths 0 and 1 and the type none come back unchanged from both functions, whatever the steps and variant |
| ShuffleSpec.VariantModFour | faro_cipher/shuffles.py:50-54 | variants v and v + 4 give the same outcome in both directions |
| ShuffleSpec.EvenLengthRoundTrips | faro_cipher/shuffles.py:22-28 | on an even length every family and variant runs both ways, which makes all four variants reliable for the padded power-of-two inputs |
| ShuffleSpec.FaroShuffleRoundTrip | faro_cipher/shuffles.py:31-287 | where both directions run, the shuffle keeps the length and inverse_faro_shuffle(faro_shuffle(x)) == x; also the other way round |
| ShuffleSpec.FwdSrcInjective | faro_cipher/shuffles.py:56-157 | a forward step sends distinct positions to distinct positions |
| ShuffleSpec.StepPermutes | faro_cipher/shuffles.py:56-157 | one forward step is a permutation: the multiset of bits is unchanged |
| ShuffleSpec.ForwardPermutes | faro_cipher/shuffles.py:56-58 | `steps` forward steps keep the multiset of bits, so the count of 1-bits |
| ShuffleSpec.OutShuffleOfThreeRepeats | faro_cipher/shuffles.py:86-89 | at n = 3 the standard out-shuffle broadcasts a one-element slice: [a, b, c] becomes [a, b, b], which no inverse can undo |
| Shuffles.Assign | faro_cipher/shuffles.py:60-157 | one numpy slice assignment: fails exactly when the two sizes differ and the source is not a single element; otherwise writes exactly the destination positions |
| Shuffles.InStep | faro_cipher/shuffles.py:60-81 | the in-shuffle slice assignments of each variant succeed and compute the forward step |
| Shuffles.OutStep | faro_cipher/shuffles.py:83-98 | the out-shuffle assignments succeed exactly when the shape allows, and then compute the forward step |
| Shuffles.CutStep | faro_cipher/shuffles.py:131-157 | the three cut assignments of each variant succeed exactly when the shape allows, and then compute the forward step |
| Shuffles.CutStep1 | faro_cipher/shuffles.py:142-147 | variant 1 of the cut (the bottom block moved to the middle) fails only at n = 3 |
| Shuffles.MilkStep | faro_cipher/shuffles.py:100-129 | the index loop deals element i from the top or the bottom of the copy and computes the forward step |
| Shuffles.MilkInverseStep | faro_cipher/shuffles.py:228-257 | the scatter loop puts each element back where the milk deal took it from, which computes the inverse step |
| Shuffles.InInverseStep | faro_cipher/shuffles.py:192-212 | the inverse in-shuffle assignments compute the inverse step for every n |
| Shuffles.OutInverseStep | faro_cipher/shuffles.py:214-226 | the inverse out-shuffle assignments fail exactly for variant 0 on odd n, and otherwise compute the inverse step |
| Shuffles.CutInverseStep | faro_cipher/shuffles.py:259-285 | the inverse cut assignments fail exactly for variant 1 at n = 3, and otherwise compute the inverse step |
| Shuffles.AssignPair | faro_cipher/shuffles.py:60-98 | two slice assignments from the same copy succeed exactly when both shapes allow, and then leave both writes in place |
| Shuffles.CutStep0 | faro_cipher/shuffles.py:134-139 | variant 0 of the cut (top block into the middle) succeeds exactly when the shape allows and then computes the forward step |
| Shuffles.CutStep2 | faro_cipher/shuffles.py:146-151 | variant 2 of the cut (middle block to the top) succeeds exactly when the shape allows and then computes the forward step |
| Shuffles.CutStep3 | faro_cipher/shuffles.py:152-157 | variant 3 of the cut (middle block to the bottom) succeeds exactly when the shape allows and then computes the forward step |
| Shuffles.CutInverseStep0 | faro_cipher/shuffles.py:262-267 | the inverse of cut variant 0 succeeds exactly when the shape allows and then computes the inverse step |
| Shuffles.CutInverseStep1 | faro_cipher/shuffles.py:268-273 | the inverse of cut variant 1 fails exactly at n = 3 and otherwise computes the inverse step |
| Shuffles.CutInverseStep2 | faro_cipher/shuffles.py:274-279 | the inverse of cut variant 2 succeeds exactly when the shape allows and then computes the inverse step |
| Shuffles.CutInverseStep3 | faro_cipher/shuffles.py:280-285 | the inverse of cut variant 3 succeeds exactly when the shape allows and then computes the inverse step |
| Shuffles.ForwardFails | faro_cipher/shuffles.py:56-58 | a step whose slice shapes do not fit makes the whole steps loop fail, whatever the number of steps |
| Shuffles.ForwardStep | faro_cipher/shuffles.py:59-157 | one step of the given family in place: success exactly when the shape allows, with the forward step as the array's new contents |
| Shuffles.InverseStep | faro_cipher/shuffles.py:191-285 | the same for the inverse step |
| Shuffles.ForwardSteps | faro_cipher/shuffles.py:56-58 | the steps loop succeeds exactly when every step runs, and leaves the `steps`-fold forward shuffle in the array |
| Shuffles.FaroShuffle | faro_cipher/shuffles.py:31-159 | faro_shuffle on a bit array computes ShuffleSpec.FaroShuffle, including where numpy raises |
| Shuffles.InverseFaroShuffle | faro_cipher/shuffles.py:162-287 | inverse_faro_shuffle on a bit array computes ShuffleSpec.InverseFaroShuffle |
| Transforms.Transform | faro_cipher/transforms.py:22-157 | each transform returns a new sequence of the input's length |
| Transforms.TransformSelfInverse | faro_cipher/transforms.py:1-7 | every registered transform undoes itself under the same key, for every input and key |
| Transforms.FlipsExactly | faro_cipher/transforms.py:27-155 | a flip transform changes bit i exactly where its (key, position) condition holds: enhanced_xor, fibonacci, avalanche, prime_sieve, invert and bit_flip, each with its own condition |
| Transforms.SwapPartnerInvolutive | faro_cipher/transforms.py:139-141 | the swap_pairs partner map is an involution: a bit's partner's partner is the bit |
| Transforms.SwapPairsKeepsOddTail | faro_cipher/transforms.py:139-141 | swap_pairs never touches the last bit of an odd-length input |
| Transforms.FibonacciShortInput | faro_cipher/transforms.py:45-46 | fibonacci returns inputs shorter than two bits unchanged |
| Transforms.ISqrt | faro_cipher/transforms.py:104 | `int(pos**0.5)` as the exact integer square root: r² ≤ x < (r + 1)² |
| Transforms.Xor8 | faro_cipher/transforms.py:79-80 | `(key ^ 17i) % 256` on Python integers, negative operands included, lies in 0..255 |
| Transforms.EnhancedXorTransform | faro_cipher/transforms.py:22-36 | the copy-and-flip loop computes the enhanced_xor transform |
| Transforms.FibonacciTransform | faro_cipher/transforms.py:39-60 | the loop, with its running Fibonacci pair, computes the fibonacci transform |
| Transforms.AvalancheCascadeTransform | faro_cipher/transforms.py:63-86 | the loop computes the avalanche transform |
| Transforms.PrimeSieveTransform | faro_cipher/transforms.py:89-115 | the loop with its bounded trial division computes the prime_sieve transform |
| Transforms.InvertTransform | faro_cipher/transforms.py:118-129 | the loop computes the invert transform |
| Transforms.SwapPairsTransform | faro_cipher/transforms.py:132-143 | the pair loop computes the swap_pairs transform |
| Transforms.BitFlipTransform | faro_cipher/transforms.py:146-157 | the loop computes the bit_flip transform |
| Transforms.FlipLoop | faro_cipher/transforms.py:22-157 | the shared copy-and-flip loop of enhanced_xor, invert, bit_flip and avalanche computes that transform |
| Transforms.ApplyTransform | faro_cipher/transforms.py:160-168 | the registry's function for a transform computes that transform |
| Transforms.TransformByName | faro_cipher/transforms.py:170-172 | get_transform_function finds only the transform registered under the name it is given |
| Transforms.RegistryRoundTrip | faro_cipher/transforms.py:160-172 | every transform is found under its own registry name, so the seven names are distinct |
| Utils.GrowTo | faro_cipher/utils.py:37-41 | the doubling loop ends at a power of two not below n, and does not double past n |
| Utils.TargetLength | faro_cipher/utils.py:32-41 | the padded length is a power of two not below the input length (1 for lengths 0 and 1) |
| Utils.TargetLengthLeast | faro_cipher/utils.py:34-41 | the padded length is the least power of two not below the input length |
| Utils.Padded | faro_cipher/utils.py:22-52 | the padded array has the target length |
| Utils.PaddedShape | faro_cipher/utils.py:43-48 | the padded array starts with the input bits and holds only zeros after them |
| Utils.PaddedPow2 | faro_cipher/utils.py:49-50 | an input whose length is already a power of two comes back unchanged |
| Utils.PaddedEmpty | faro_cipher/utils.py:32-36 | an empty input pads to the single bit 0 |
| Utils.PadToPowerOf2 | faro_cipher/utils.py:22-52 | the loop and the zero fill compute the padded array, and the second result is the original length |
| Utils.Hex | faro_cipher/utils.py:57 | hexdigest writes two characters per byte |
| Utils.HexInjective | faro_cipher/utils.py:57 | equal hex strings of equal-length byte strings come from equal bytes |
| Utils.Fingerprint | faro_cipher/utils.py:54-57 | the fingerprint is 16 characters long |
| Utils.FingerprintMatches | faro_cipher/utils.py:54-61 | two keys' fingerprints match exactly when their MD5 digests agree on the first eight bytes |
| Bits.PackUnpack | faro_cipher/core.py:395-416 | packbits(unpackbits(d)) == d |
| Bits.UnpackPack | faro_cipher/core.py:395-437 | unpackbits(packbits(b)) == b for a whole number of bytes |
| Bits.UnpackedByte | faro_cipher/core.py:395 | the i-th byte packed from the unpacked bits is the i-th byte |
| Bits.PackedBit | faro_cipher/core.py:416 | bit j of the i-th packed byte is the bit it was packed from, most significant first |
| Pipeline.Shuffled | faro_cipher/core.py:403-409 | an even-length bit array shuffles without error and keeps its length |
| Pipeline.Unshuffled | faro_cipher/core.py:428-434 | an even-length bit array unshuffles without error and keeps its length |
| Pipeline.UnshuffleShuffled | faro_cipher/core.py:403-434 | unshuffling a shuffled even-length array gives it back |
| Pipeline.PaddedBits | faro_cipher/core.py:395-400 | a nonempty chunk's bits pad to an even number of at least 8 |
| Pipeline.TrimTo | faro_cipher/core.py:440-441 | the slice `[:n]` keeps the first min(n, len) bytes |
| Pipeline.ChunkRoundTrip | faro_cipher/core.py:389-443 | for a chunk of power-of-two length, encryption keeps the length and decryption gives the chunk back; this holds for the reference step and for the shuffle-only step of the batched engine |
| Pipeline.Split | faro_cipher/core.py:374-378 | the pieces have lengths 1 to size |
| Pipeline.SplitConcat | faro_cipher/core.py:374-387 | joining the pieces of a split gives the data back |
| Pipeline.SplitFull | faro_cipher/core.py:374-378 | a length that is a multiple of the chunk size splits into full chunks only |
| Pipeline.ConcatSplit | faro_cipher/core.py:374-387 | splitting the join of full chunks gives the same chunks back, so the next round sees the same boundaries |
| Pipeline.ProcessAll | faro_cipher/core.py:380-384 | the chunk step keeps the number of chunks |
| Pipeline.ApplyRoundRoundTrip | faro_cipher/core.py:370-387 | a round whose chunk size is a power of two dividing the length keeps the length, and decrypting it gives the data back |
| Pipeline.RoundsRoundTrip | faro_cipher/core.py:355-363 | when every round's chunk size is a power of two dividing the length, encryption keeps the length and running the rounds in reverse undoes running them in order |
| Pipeline.EncRoundsPrefix | faro_cipher/core.py:356-359 | a schedule that encrypts without error also encrypts every prefix of itself without error |
| Pipeline.DecRoundsTotal | faro_cipher/core.py:360-363 | decryption never fails when every chunk size is positive |
| Pipeline.MaxChunk | faro_cipher/core.py:340 | the largest chunk size bounds every round's and is one of them |
| Pipeline.PaddingNeeded | faro_cipher/core.py:349 | the padding is less than the largest chunk and brings the length to a multiple of it; it is 0 when the length already is one |
| Pipeline.PadData | faro_cipher/core.py:347-353 | the padded buffer starts with the data and continues with the filler byte (sum mod 256, or 0 for empty data) |
| Pipeline.Pow2Divides | faro_cipher/core.py:340-353 | a power of two divides every larger power of two, so every round's chunk divides the padded length |
| Pipeline.ProcessDataRoundTrip | faro_cipher/core.py:336-368 | with a well-formed schedule, encryption never fails, gives the padded length, and decryption gives back the padded buffer |
| Chunking.SplitChunks | faro_cipher/core.py:374-378 | the split loop collects exactly the consecutive pieces |
| Chunking.JoinChunks | faro_cipher/core.py:386-387 | `b''.join` concatenates the chunks in order |
| Schedule.Choice | faro_cipher/core.py:184-236 | a draw from a list is a member of the list |
| Schedule.MinValue | faro_cipher/core.py:186-187 | `min(usage.values())` is at most every count and equals one of them |
| Schedule.LeastUsed | faro_cipher/core.py:186-188 | the least-used list is nonempty and holds only types with the minimum count |
| Schedule.LeastUsedMin | faro_cipher/core.py:186-188 | a type in the least-used list has the minimum count |
| Schedule.ChunkSizeFor | faro_cipher/core.py:261-293 | every chunk size is one of 2048, 4096, 8192, 16384 and 32768 |
| Schedule.KeyFor | faro_cipher/core.py:231-236 | every transform key lies in [1000, 100000) |
| Schedule.StepsFor | faro_cipher/core.py:200-205 | every step count lies in 1..4 |
| Schedule.KeyMaterial | faro_cipher/core.py:158-164 | the key material has at least 64 bytes, so the seed slices exist |
| Schedule.Structure | faro_cipher/core.py:155-259 | the schedule of n rounds has n entries |
| Schedule.RoundStructure | faro_cipher/core.py:155-259 | the cipher's schedule has exactly `rounds` entries |
| Schedule.GenerateRoundStructure | faro_cipher/core.py:155-259 | the generation loop, with its two usage dictionaries, computes RoundStructure |
| Schedule.PlanRound | faro_cipher/core.py:184-250 | one pass of the loop builds the entry NextRound describes from the counts so far |
| Schedule.CountRound | faro_cipher/core.py:194-221 | the two `+= 1` updates keep the dictionaries equal to the counts over the rounds built |
| Schedule.AdvanceRound | faro_cipher/core.py:182-250 | one pass of the loop appends the next entry and keeps both dictionaries in step |
| Schedule.SelectShuffle | faro_cipher/core.py:184-194 | the shuffle pick is ShuffleFor, a listed shuffle type |
| Schedule.SelectSteps | faro_cipher/core.py:200-205 | the step pick is StepsFor |
| Schedule.SelectTransform | faro_cipher/core.py:208-221 | the transform pick is TransformFor |
| Schedule.UsageEmpty | faro_cipher/core.py:177-180 | the dictionaries start at zero for every type |
| Schedule.UsageAfter | faro_cipher/core.py:194-221 | appending a round adds one use of its shuffle type and one of its transform |
| Schedule.StructurePrefix | faro_cipher/core.py:182-250 | later rounds never change earlier ones: the schedule for n rounds is a prefix of the one for m ≥ n |
| Schedule.StructureEntry | faro_cipher/core.py:182-250 | round r of any longer schedule is the round planned from the r rounds before it |
| Schedule.NextRoundRanges | faro_cipher/core.py:184-250 | every planned round has a listed shuffle type, variant 0..3, 1..4 steps, a key in [1000, 100000) and a chunk size of 2 to 32 KiB |
| Schedule.TransformForEmphasis | faro_cipher/core.py:208-210 | within the emphasis list's length, the transform follows the list |
| Schedule.TransformForLeastUsed | faro_cipher/core.py:211-216 | past the emphasis list and within the first seven rounds, the transform is a least-used one |
| Schedule.ShuffleForLeastUsed | faro_cipher/core.py:184-190 | within the first five rounds, the shuffle type is a least-used one |
| Schedule.ShuffleCountsSum | faro_cipher/core.py:175-194 | the counts over the five shuffle types add up to the number of rounds |
| Schedule.TransformCountsSum | faro_cipher/core.py:175-221 | the counts over the seven transforms add up to the number of rounds |
| Schedule.ShuffleMinZero | faro_cipher/core.py:184-190 | with fewer than five rounds built, some shuffle type is still unused |
| Schedule.LeastUsedShuffleFresh | faro_cipher/core.py:184-190 | with fewer than five rounds built, a least-used shuffle type appears in none of them |
| Schedule.TransformMinZero | faro_cipher/core.py:211-216 | with fewer than seven rounds built, some transform is still unused |
| Schedule.LeastUsedTransformFresh | faro_cipher/core.py:211-216 | with fewer than seven rounds built, a least-used transform appears in none of them |
| Schedule.FirstShufflesDistinct | faro_cipher/core.py:184-194 | the first min(rounds, 5) rounds use pairwise different shuffle types |
| Schedule.EmphasisFirst | faro_cipher/core.py:208-210 | the first rounds take their transforms from the emphasis list, in order |
| Schedule.FirstTransformsDistinct | faro_cipher/core.py:208-221 | with a repetition-free emphasis list, the first min(rounds, 7) rounds use pairwise different transforms |
| Schedule.StructureRanges | faro_cipher/core.py:184-250 | every schedule entry has a listed shuffle type, variant 0..3, 1..4 steps, a key in [1000, 100000) and a chunk size of 2 to 32 KiB |
| Schedule.ChunkSizesPow2 | faro_cipher/core.py:261-293 | every candidate chunk size is a positive power of two |
| Schedule.RoundStructureWellFormed | faro_cipher/core.py:155-293 | a schedule of at least one round is fit for the pipeline: every chunk size is a positive power of two |
| Core.EmphasisOf | faro_cipher/core.py:33-61 | each profile lists three emphasis transforms |
| Core.Decimal | faro_cipher/core.py:101 | `f"{n}"` writes n's decimal digits: read back by the positional fold `DigitsValue` they give n, and they have no leading zero |
| Core.CustomNamesDiffer | faro_cipher/core.py:101 | distinct round counts give distinct `custom-N` profile names |
| Core.NewCipherErrors | faro_cipher/core.py:90-109 | construction fails exactly for an unknown profile, a round count below 1 or above 100, with the error of the first failed check, and succeeds otherwise |
| Core.NewCipherDefaults | faro_cipher/core.py:90-101 | without an explicit round count a profile keeps its name and its default rounds: 3, 6 and 12 |
| Core.NewCipherCustom | faro_cipher/core.py:99-109 | an explicit round count is kept and renames the profile to custom-N |
| Core.NewCipherValid | faro_cipher/core.py:76-116 | a constructed cipher's schedule has `rounds` entries, and its first min(rounds, 3) transforms are the profile's emphasis list |
| Core.ValidConsistent | faro_cipher/core.py:76-116 | a constructed cipher's fingerprint and schedule meet what encrypt and decrypt rely on |
| Core.SchedulableWellFormed | faro_cipher/core.py:239-293 | a schedule built by the cipher is fit for the pipeline, and its largest chunk size lies between 2048 and 32768 |
| Core.MaxChunkRange | faro_cipher/core.py:340 | the largest chunk size of a schedule lies between 2048 and 32768 |
| Core.ProcessSingleChunk | faro_cipher/core.py:389-443 | _process_single_chunk computes the chunk step: pad, shuffle and transform to encrypt; transform, unshuffle, pack and trim to decrypt; an empty chunk unchanged |
| Core.ProcessChunks | faro_cipher/core.py:380-384 | the chunk loop processes each chunk in order |
| Core.ApplyRoundToData | faro_cipher/core.py:370-387 | _apply_round_to_data splits, processes each chunk and joins; `range` with a step of 0 raises |
| Core.PadToChunk | faro_cipher/core.py:347-353 | the padding step computes PadData |
| Core.RoundsForward | faro_cipher/core.py:356-359 | the encryption loop runs the rounds in schedule order |
| Core.RoundsBackward | faro_cipher/core.py:360-363 | the decryption loop runs the rounds in reverse order |
| Core.ProcessDataVariableChunks | faro_cipher/core.py:336-368 | _process_data_variable_chunks pads, then runs the rounds forward, or in reverse to decrypt |
| Core.EncryptData | faro_cipher/core.py:336-368 | the ciphertext has the padded length |
| Core.Encrypt | faro_cipher/core.py:445-473 | encrypt returns the ciphertext and metadata carrying the version string, the profile, the schedule, the fingerprint and the original size |
| Core.Decrypt | faro_cipher/core.py:475-499 | decrypt refuses a fingerprint mismatch before processing; otherwise it undoes the rounds and trims to the original size |
| Core.DecryptEncryptData | faro_cipher/core.py:336-368 | decrypting the ciphertext gives a buffer that starts with the data |
| Core.CipherRoundTrip | faro_cipher/core.py:445-499 | decrypt(encrypt(d)) == d for every d, the empty one included, under the same key |
| Core.WrongKeyRefused | faro_cipher/core.py:488-490 | metadata from another key is refused exactly when the two keys' MD5 digests differ in their first eight bytes |
| Core.Blocks | faro_cipher/core.py:518-522 | the blocks encrypt_file reads are nonempty and at most 32 KiB |
| Core.EncryptedBlockFits | faro_cipher/core.py:525-529 | each block's ciphertext is shorter than 65536 bytes, so its length fits the 4-byte header |
| Core.EncryptAll | faro_cipher/core.py:518-530 | one ciphertext per block, each short enough for its 4-byte length header |
| Core.EncryptRecord | faro_cipher/core.py:524-530 | the record of a block is its ciphertext's length in four big-endian bytes, then the ciphertext |
| Core.EncryptFile | faro_cipher/core.py:501-542 | encrypt_file writes one record per block read and returns metadata listing each block's original size |
| Core.DecryptedBlocks | faro_cipher/core.py:576-585 | one output piece per record read |
| Core.DecryptRecordBody | faro_cipher/core.py:576-583 | a record's body is decrypted, then cut to its recorded size |
| Core.DecryptRecords | faro_cipher/core.py:563-585 | the reading loop decrypts each record until a short header or short body, and writes the pieces in order |
| Core.DecryptFile | faro_cipher/core.py:544-591 | decrypt_file returns False on a fingerprint mismatch, or on metadata without chunk sizes; otherwise it writes what the reading loop produces and returns True |
| Core.DecryptFileSucceeds | faro_cipher/core.py:556-591 | decrypt_file returns True exactly when the key matches and the metadata lists chunk sizes, however the file is cut |
| Core.DecryptedBlocksRoundTrip | faro_cipher/core.py:518-585 | each block's ciphertext decrypts and trims back to the block |
| Core.FileRoundTrip | faro_cipher/core.py:501-591 | decrypting the file encrypt_file wrote, with its metadata, returns True and writes the original input |
| Framing.Be4 | faro_cipher/core.py:529 | `to_bytes(4, 'big')` writes four bytes |
| Framing.FromBeBe4 | faro_cipher/core.py:529-568 | `from_bytes(…, 'big')` reads back the length that was written |
| Framing.Unframe | faro_cipher/core.py:563-573 | the strict reading reads at most one record per listed size |
| Framing.UnframeRecord | faro_cipher/core.py:565-573 | a whole header and body are read, and the reading goes on after them |
| Framing.UnframeShort | faro_cipher/core.py:566-573 | a short header or a short body stops the reading |
| Framing.UnframeFrame | faro_cipher/core.py:517-573 | reading a framed file with the number of records written gives the bodies back |
| Framing.UnframeLenient | faro_cipher/ultra_cipher.py:288-299 | the ultra reading reads at most one record per listed size, each with a nonempty body |
| Framing.UnframeLenientFrame | faro_cipher/ultra_cipher.py:214-299 | the ultra reading also reads a framed file back, as long as no body is empty |
| Framing.UnframeLenientRecord | faro_cipher/ultra_cipher.py:290-299 | the ultra reading reads a record with a nonempty body whole, then goes on after it |
| JitOptimized.BytesToBitsJit | faro_cipher/jit_optimized.py:27-48 | bytes_to_bits_jit gives 8·n bits, most significant first: numpy's unpackbits |
| JitOptimized.BitsToBytesJit | faro_cipher/jit_optimized.py:50-85 | bits_to_bytes_jit zero-pads to a whole number of bytes and packs most significant first: numpy's packbits |
| JitOptimized.PackBitsAt | faro_cipher/jit_optimized.py:76-82 | the inner loop ORs the eight bits into one byte, the first into the top bit |
| JitOptimized.BytesBitsRoundTrip | faro_cipher/jit_optimized.py:27-85 | bits_to_bytes_jit(bytes_to_bits_jit(b)) == b |
| JitOptimized.PadToPowerOf2Jit | faro_cipher/jit_optimized.py:87-115 | pad_to_power_of_2_jit computes the same target length and zero tail as pad_to_power_of_2 |
| JitOptimized.TargetLengthJit | faro_cipher/jit_optimized.py:97-108 | the doubling loop reaches the same target length as pad_to_power_of_2 |
| JitOptimized.ZeroExtendJit | faro_cipher/jit_optimized.py:110-113 | the copy into a zero array gives the bits followed by zeros |
| JitOptimized.TransformOfCode | faro_cipher/jit_optimized.py:117-185 | a transform runs exactly for codes 0 to 6 |
| JitOptimized.TypeMapsInjective | faro_cipher/jit_optimized.py:569-585 | both type maps are injective, onto 0..6 and 0..4 |
| JitOptimized.TypeMapsAgree | faro_cipher/jit_optimized.py:569-585 | each map sends a transform's or shuffle's registry name to the code that selects that same transform or shuffle |
| JitOptimized.JitTransform | faro_cipher/jit_optimized.py:117-185 | apply_transform_jit keeps the length |
| JitOptimized.JitTransformSelfInverse | faro_cipher/jit_optimized.py:117-185 | for every code, applying the coded transform twice with one key restores the bits |
| JitOptimized.ApplyTransformJit | faro_cipher/jit_optimized.py:117-185 | for codes 0..6 the kernel computes the matching transforms.py function; any other code returns an unchanged copy |
| JitOptimized.InShuffleJit | faro_cipher/jit_optimized.py:269-305 | apply_in_shuffle_jit computes faro_shuffle's in-shuffle, numpy's failures included |
| JitOptimized.InverseInShuffleJit | faro_cipher/jit_optimized.py:307-343 | apply_inverse_in_shuffle_jit computes inverse_faro_shuffle's in-shuffle |
| JitOptimized.OutShuffleJit | faro_cipher/jit_optimized.py:345-375 | apply_out_shuffle_jit computes faro_shuffle's out-shuffle |
| JitOptimized.InverseOutShuffleJit | faro_cipher/jit_optimized.py:377-405 | apply_inverse_out_shuffle_jit computes inverse_faro_shuffle's out-shuffle |
| JitOptimized.MilkShuffleJit | faro_cipher/jit_optimized.py:407-446 | apply_milk_shuffle_jit computes faro_shuffle's milk shuffle |
| JitOptimized.InverseMilkShuffleJit | faro_cipher/jit_optimized.py:448-489 | apply_inverse_milk_shuffle_jit computes inverse_faro_shuffle's milk shuffle |
| JitOptimized.CutShuffleJit | faro_cipher/jit_optimized.py:491-527 | apply_cut_shuffle_jit computes faro_shuffle's cut |
| JitOptimized.CutInverseStepJit1 | faro_cipher/jit_optimized.py:529-566 | the kernel's own variant-1 inverse cut fails exactly at n = 3, and otherwise computes the inverse step |
| JitOptimized.CutInverseStepJit | faro_cipher/jit_optimized.py:540-564 | one pass of the kernel's inverse cut loop succeeds exactly where inverse_faro_shuffle's does and computes the same inverse step |
| JitOptimized.InverseCutShuffleJit | faro_cipher/jit_optimized.py:529-566 | apply_inverse_cut_shuffle_jit computes inverse_faro_shuffle's cut |
| JitOptimized.ShuffleByCode | faro_cipher/jit_optimized.py:221-230 | the encrypt dispatch runs the shuffle whose code it is given; any other code does not shuffle |
| JitOptimized.UnshuffleByCode | faro_cipher/jit_optimized.py:246-254 | the decrypt dispatch runs the matching inverse shuffle |
| JitOptimized.ProcessSingleChunkJit | faro_cipher/jit_optimized.py:187-265 | process_single_chunk_jit computes the coded chunk step: an empty chunk unchanged, the decrypt output trimmed to the chunk's length |
| JitOptimized.JitChunkStepMatches | faro_cipher/jit_optimized.py:187-265 | with a round's codes, the kernel computes the reference _process_single_chunk |
| JitOptimized.JitChunkRoundTrip | faro_cipher/jit_optimized.py:187-265 | for any codes, decrypting an encrypted power-of-two chunk gives it back, at the same length |
| JitOptimized.CodeOrZero | faro_cipher/jit_cipher.py:97-98 | `dict.get(name, 0)`: the mapped code, or 0 for an unknown name |
| JitOptimized.RoundNamesGiveCodes | faro_cipher/jit_cipher.py:97-98 | the names a schedule holds are all found in the maps, under the codes of the same shuffle and transform |
| JitCipher.ProcessSingleChunkJitCipher | faro_cipher/jit_cipher.py:84-111 | with numba or without it, the chunk step is the reference one |
| JitCipher.ProcessChunksJit | faro_cipher/jit_cipher.py:121-128 | the chunk loop processes each chunk in order |
| JitCipher.ApplyRoundToDataJit | faro_cipher/jit_cipher.py:113-130 | a round splits into consecutive chunks and joins their results in the same order, as the reference round does |
| JitCipher.RoundsForwardJit | faro_cipher/jit_cipher.py:150-155 | encryption runs the rounds in schedule order |
| JitCipher.RoundsBackwardJit | faro_cipher/jit_cipher.py:156-162 | decryption runs the rounds in reverse |
| JitCipher.ProcessDataVariableChunksJit | faro_cipher/jit_cipher.py:132-164 | padding and round order are the reference ones |
| JitCipher.EncryptJit | faro_cipher/jit_cipher.py:166-193 | encrypt returns the reference ciphertext with the JIT version string |
| JitCipher.DecryptJit | faro_cipher/jit_cipher.py:195-217 | decrypt refuses a fingerprint mismatch and trims to the original size: the reference decrypt on every input |
| JitCipher.JitEncryptMatchesReference | faro_cipher/jit_cipher.py:166-193 | the JIT cipher writes the reference ciphertext and metadata, except for the version string |
| JitCipher.JitRoundTrip | faro_cipher/jit_cipher.py:166-217 | decrypting what the JIT cipher encrypted gives the data back |
| Algorithmic.SrcMapsInverse | faro_cipher/algorithmic_optimized.py:46-109 | below the odd last position, the byte shuffle's and byte unshuffle's index maps are inverse bijections |
| Algorithmic.ByteShuffled | faro_cipher/algorithmic_optimized.py:46-80 | ultra_fast_byte_shuffle keeps the length |
| Algorithmic.ByteUnshuffled | faro_cipher/algorithmic_optimized.py:83-109 | ultra_fast_inverse_byte_shuffle keeps the length |
| Algorithmic.ByteShuffleUndoesBody | faro_cipher/algorithmic_optimized.py:46-109 | every byte but an odd last one comes back from a shuffle and its inverse, in either order |
| Algorithmic.ByteShuffleOddTail | faro_cipher/algorithmic_optimized.py:60-104 | on an odd length above 1, the last byte of a type-2 round trip is the unwritten byte; for every other type, and at length 1, it is the input's |
| Algorithmic.ByteShuffleRoundTrip | faro_cipher/algorithmic_optimized.py:46-109 | the shuffle and its inverse undo each other, in both orders, for type 1 and the identity types at every length and for type 2 at even lengths |
| Algorithmic.ByteShufflesAreFaroSteps | faro_cipher/algorithmic_optimized.py:60-104 | on even lengths, type 1 is the in-shuffle step of variant 0 and type 2 the out-shuffle step of variant 2, both ways |
| Algorithmic.OutShuffleIgnoresOddTail | faro_cipher/algorithmic_optimized.py:69-75 | the type-2 shuffle of an odd-length buffer never reads its last byte |
| Algorithmic.OutShuffleLosesLastByte | faro_cipher/algorithmic_optimized.py:69-104 | [0, 0, 1] through a type-2 shuffle and back ends in the unwritten byte |
| Algorithmic.FixedByteShuffleRoundTrip | faro_cipher/algorithmic_optimized.py:46-109 | with the odd last byte kept in place for type 2 too, the shuffles undo each other for every length and type |
| Algorithmic.FixedAgreesWhereWritten | faro_cipher/algorithmic_optimized.py:46-109 | where the source's shuffle writes every position, it is the corrected one |
| Algorithmic.UltraFastByteShuffle | faro_cipher/algorithmic_optimized.py:46-80 | the array version computes ByteShuffled in a fresh array |
| Algorithmic.InShuffleLoop | faro_cipher/algorithmic_optimized.py:62-65 | the type-1 loop writes every position below the odd last one from its source |
| Algorithmic.OutShuffleLoop | faro_cipher/algorithmic_optimized.py:71-75 | the type-2 loop writes every position below the odd last one from its source, and nothing else |
| Algorithmic.UltraFastInverseByteShuffle | faro_cipher/algorithmic_optimized.py:83-109 | the array version computes ByteUnshuffled |
| Algorithmic.InUnshuffleLoop | faro_cipher/algorithmic_optimized.py:93-96 | the inverse type-1 loop gathers both halves back |
| Algorithmic.OutUnshuffleLoop | faro_cipher/algorithmic_optimized.py:101-104 | the inverse type-2 loop gathers both halves back and leaves the odd last position alone |
| Algorithmic.ByteTransformed | faro_cipher/algorithmic_optimized.py:116-171 | vectorized_byte_transform keeps the length |
| Algorithmic.ByteTransformSelfInverse | faro_cipher/algorithmic_optimized.py:116-171 | the byte transform undoes itself under the same type and key |
| Algorithmic.ByteTransformMoves | faro_cipher/algorithmic_optimized.py:123-169 | a flip type changes byte i exactly where it selects it, to its complement; the swap type only trades neighbours |
| Algorithmic.ByteFlipsMatchBitTransforms | faro_cipher/algorithmic_optimized.py:126-169 | types 0, 2, 4 and 6 select the positions of the bit transform with the same code; fibonacci does too, for inputs of two or more |
| Algorithmic.VectorizedByteTransform | faro_cipher/algorithmic_optimized.py:116-171 | copy-then-loop computes ByteTransformed |
| Algorithmic.SwapBytePairs | faro_cipher/algorithmic_optimized.py:161-164 | the swap loop computes the swap branch |
| Algorithmic.FlipFibonacciBytes | faro_cipher/algorithmic_optimized.py:133-138 | the fibonacci loop, with its running pair, computes the fibonacci branch |
| Algorithmic.FlipSelectedBytes | faro_cipher/algorithmic_optimized.py:126-169 | the per-position branches compute their flips; an unknown type leaves the copy as it is |
| Algorithmic.Reversed | faro_cipher/algorithmic_optimized.py:407 | `rounds[::-1]` has the same length, position i holding the round at position len - 1 - i |
| Algorithmic.RunRounds | faro_cipher/algorithmic_optimized.py:409-419 | every round keeps the length |
| Algorithmic.EncryptRunsRoundsInOrder | faro_cipher/algorithmic_optimized.py:407-415 | encryption applies the scheduled rounds in order: a round added at the end runs last, transform then shuffle |
| Algorithmic.DecryptRunsRoundsBackwards | faro_cipher/algorithmic_optimized.py:407-419 | decryption undoes the last round first: inverse shuffle, then transform |
| Algorithmic.ProcessEmpty | faro_cipher/algorithmic_optimized.py:401-402 | an empty buffer is returned as it is |
| Algorithmic.RunRoundsRoundTrip | faro_cipher/algorithmic_optimized.py:407-419 | undoing the rounds last to first restores every buffer all of whose rounds can be undone |
| Algorithmic.ProcessRoundTrip | faro_cipher/algorithmic_optimized.py:385-421 | decrypt(encrypt(x)) == x for even-length x, or when no round uses the out-shuffle, whatever the unwritten bytes |
| Algorithmic.ApplyRound | faro_cipher/algorithmic_optimized.py:412-419 | one pass of the loop body computes the round |
| Algorithmic.ApplyRoundList | faro_cipher/algorithmic_optimized.py:409-419 | the loop over the round list computes RunRounds |
| Algorithmic.AlgorithmicOptimizedProcess | faro_cipher/algorithmic_optimized.py:385-421 | the array version computes Processed |
| Algorithmic.CacheProcessed | faro_cipher/algorithmic_optimized.py:241-277 | cache_optimized_chunk_processing keeps the length |
| Algorithmic.CacheSingleBlock | faro_cipher/algorithmic_optimized.py:254-277 | a buffer of at most one block is processed as the whole-buffer path processes it |
| Algorithmic.CacheSplit | faro_cipher/algorithmic_optimized.py:254-275 | the block loop processes the first block on its own and continues with the rest |
| Algorithmic.CacheRoundTrip | faro_cipher/algorithmic_optimized.py:241-277 | decrypting block by block what was encrypted block by block gives the buffer back, for even lengths or no out-shuffle |
| Algorithmic.ProcessBlockInPlace | faro_cipher/algorithmic_optimized.py:255-275 | the block body copies a block out, runs the rounds and writes it back, leaving the rest alone |
| Algorithmic.WriteBack | faro_cipher/algorithmic_optimized.py:275 | the slice assignment replaces exactly the block's positions |
| Algorithmic.CacheOptimizedChunkProcessing | faro_cipher/algorithmic_optimized.py:241-277 | the block loop computes CacheProcessed |
| Algorithmic.ConvertedRounds | faro_cipher/algorithmic_optimized.py:427-439 | the conversion keeps the number of rounds |
| Algorithmic.ConvertRoundStructure | faro_cipher/algorithmic_optimized.py:427-439 | the append loop converts each round in order |
| Algorithmic.ConvertedRoundsDecode | faro_cipher/algorithmic_optimized.py:427-439 | each converted triple decodes back to its round's shuffle type, transform and key |
| Algorithmic.ShiftInRoundTrip | faro_cipher/algorithmic_optimized.py:366 | shifting a byte left with the carry of its neighbour and back restores it |
| Algorithmic.GroupNeighbours | faro_cipher/algorithmic_optimized.py:353-376 | over the whole 8-byte groups, the maps to the previous and to the next group stay in range and are inverse to each other |
| Algorithmic.Bulk | faro_cipher/algorithmic_optimized.py:342-378 | uint64_bulk_processing keeps the length |
| Algorithmic.BulkRoundTrip | faro_cipher/algorithmic_optimized.py:342-378 | rotating every whole group back restores every buffer: the bulk rotation is a bijection |
| Algorithmic.RotatedWordIsBulkGroup | faro_cipher/algorithmic_optimized.py:355-376 | each group is its bytes packed into a little-endian word, rotated left by one and unpacked |
| Algorithmic.LoadWord | faro_cipher/algorithmic_optimized.py:355-362 | the packing step builds the little-endian word of eight bytes |
| Algorithmic.StoreWord | faro_cipher/algorithmic_optimized.py:369-376 | the unpacking step writes the word's eight bytes, least significant first, and nothing else |
| Algorithmic.StoreGroup | faro_cipher/algorithmic_optimized.py:366-376 | rotating one loaded group and unpacking it writes that group's bytes of the bulk result and nothing else |
| Algorithmic.Uint64BulkProcessing | faro_cipher/algorithmic_optimized.py:342-378 | the array version computes Bulk |
| Ultra.NewUltraCipherMatches | faro_cipher/ultra_cipher.py:48-76 | the ultra cipher refuses exactly what the reference refuses, and otherwise runs each scheduled round under its codes |
| Ultra.Pad8 | faro_cipher/ultra_cipher.py:116-120 | the data followed by zeros up to a multiple of 8, fewer than 8 of them |
| Ultra.Pad8Length | faro_cipher/ultra_cipher.py:116-120 | the padded length is ⌈len / 8⌉ · 8 |
| Ultra.UltraProcessedLength | faro_cipher/ultra_cipher.py:101-137 | encryption's output has the padded length; decryption keeps the length |
| Ultra.UltraProcessedRoundTrip | faro_cipher/ultra_cipher.py:101-137 | decryption takes the same path as encryption and gives back the padded buffer |
| Ultra.CopyPrefix | faro_cipher/ultra_cipher.py:119 | the slice assignment copies the data to the front and leaves the zeros after it |
| Ultra.ProcessDataUltra | faro_cipher/ultra_cipher.py:101-137 | _process_data_ultra: an empty buffer unchanged, padding before encryption, the cache path exactly above 65536 bytes with cache optimisation on |
| Ultra.EncryptUltra | faro_cipher/ultra_cipher.py:139-166 | encrypt returns the processed data and metadata with the ultra version and the input length |
| Ultra.DecryptUltra | faro_cipher/ultra_cipher.py:168-190 | decrypt refuses a fingerprint mismatch before processing, and otherwise trims to the original size |
| Ultra.UltraRoundTrip | faro_cipher/ultra_cipher.py:139-190 | decrypt(encrypt(d)) == d under the same key, whatever the unwritten bytes |
| Ultra.UltraWrongKeyRefused | faro_cipher/ultra_cipher.py:175-177 | metadata from another key is refused exactly when the two keys' MD5 digests differ in their first eight bytes |
| Ultra.Read | faro_cipher/ultra_cipher.py:216 | `read(n)` returns a prefix, at most n bytes for a positive n, empty exactly when n is 0 or nothing is left |
| Ultra.ReadBlocks | faro_cipher/ultra_cipher.py:214-218 | the pieces read are nonempty, no longer than the input, and no longer than a positive piece size |
| Ultra.ReadBlocksConcat | faro_cipher/ultra_cipher.py:214-218 | for a size other than 0 the pieces read join back into the input |
| Ultra.ReadBlocksReversible | faro_cipher/ultra_cipher.py:214-218 | when a positive piece size and the input length can both be reversed, so can every piece read, the shorter last one included |
| Ultra.FileBodies | faro_cipher/ultra_cipher.py:226-228 | each piece's ciphertext keeps the piece's length, unpadded |
| Ultra.EncryptFileUltra | faro_cipher/ultra_cipher.py:192-260 | encrypt_file_ultra writes a record per piece and lists each piece's original size |
| Ultra.DecryptedBodies | faro_cipher/ultra_cipher.py:305-308 | one output piece per record read |
| Ultra.DecryptRecordUltra | faro_cipher/ultra_cipher.py:302-308 | a record's body is run backwards and cut to its recorded size |
| Ultra.DecryptFileUltra | faro_cipher/ultra_cipher.py:262-332 | decrypt_file_ultra refuses a fingerprint mismatch; it returns False for metadata without sizes; otherwise it decrypts records until an empty header or body and returns True |
| Ultra.DecryptedBodiesRoundTrip | faro_cipher/ultra_cipher.py:226-308 | reversible pieces decrypt and trim back to the pieces |
| Ultra.UltraFileRoundTrip | faro_cipher/ultra_cipher.py:192-332 | decrypting the file encrypt_file_ultra wrote gives Ok((True, input)) when no round uses the out-shuffle, or when a positive piece size and the input length are both even; a piece size of 0 reads nothing and is excluded |
| Ultra.OddPieceLoses | faro_cipher/ultra_cipher.py:226 | the piece [0, 0, b] through one out-shuffle round and back ends in the unwritten byte |
| Ultra.OnePieceFile | faro_cipher/ultra_cipher.py:214-310 | a file read as one piece decrypts to that piece through the rounds and back, trimmed |
| Ultra.FileOddPieceLoses | faro_cipher/ultra_cipher.py:226-308 | as written, a three-byte file read in pieces of 3 with one out-shuffle round decrypts to [0, 0, junk] |
| Ultra.FixedFileBodies | faro_cipher/ultra_cipher.py:116-120 | each piece padded as _process_data_ultra pads encrypts to a multiple of 8 bytes |
| Ultra.FixedBodiesRoundTrip | faro_cipher/ultra_cipher.py:214-310 | padded pieces decrypt and trim back to the pieces for every length and schedule |
| Ultra.FixedFileRoundTrip | faro_cipher/ultra_cipher.py:192-332 | with the pieces padded, the file round trip gives Ok((True, input)) for every input, nonzero piece size and schedule |
| Optimized.Take | faro_cipher/optimized.py:31-35 | the lookup under a key pops the last array of that key's list exactly when the list is nonempty, and otherwise leaves the pools alone |
| Optimized.Returned | faro_cipher/optimized.py:40-51 | return_array ignores None; otherwise it creates the key if missing and changes no other list |
| Optimized.TakeShrinks | faro_cipher/optimized.py:28-38 | get_array only removes arrays, and the one it pops is no longer pooled |
| Optimized.ReturnedGrows | faro_cipher/optimized.py:40-51 | return_array adds at most the returned array and keeps the lists free of repeats |
| Optimized.PoolOperationsKeepBounded | faro_cipher/optimized.py:28-51 | both operations keep every list within max_pool_size, holding arrays of its length, and return_array adds only `(len, array.dtype)` keys |
| Optimized.RequestMisses | faro_cipher/optimized.py:31-38 | in a pool whose keys all came from return_array, get_array's lookup under `(size, np.uint8)` finds nothing and leaves the pools alone |
| Optimized.ReturnThenRequestMisses | faro_cipher/optimized.py:28-51 | as written, even right after an array of length n is returned, get_array(n) finds nothing to reuse |
| Optimized.ReturnThenTake | faro_cipher/optimized.py:28-51 | looked up under the key return_array stores with, an array returned to a list with room is the next one handed out: the reuse the pool is meant to give |
| Optimized.ReturnToFullList | faro_cipher/optimized.py:50-51 | a full list drops the returned array |
| Optimized.MemoryPool.constructor | faro_cipher/optimized.py:23-26 | a pool starts empty with its bound |
| Optimized.MemoryPool.GetArray | faro_cipher/optimized.py:28-38 | get_array returns a zero-filled array of the size, the last one under `(size, np.uint8)` when there is one, else a new one, and updates the pools as Take says; on a pool whose keys all came from return_array it always makes a new array and leaves the pools unchanged |
| Optimized.MemoryPool.ReturnArray | faro_cipher/optimized.py:40-51 | return_array stores under `(len(array), array.dtype)` as Returned says, so the pooled arrays gain at most the one handed back and every key still comes from return_array |
| Optimized.MemoryPool.Clear | faro_cipher/optimized.py:53-56 | clear empties every pool |
| Optimized.Clamp | faro_cipher/optimized.py:85-86 | max(lo, min(x, hi)) lies in [lo, hi], is x inside it and the nearer bound outside |
| Optimized.ChunkBatch.constructor | faro_cipher/optimized.py:58-64 | a batch starts with one empty slot per chunk |
| Optimized.Filled | faro_cipher/optimized.py:95-157 | every slot holds its chunk's result |
| Optimized.Batched | faro_cipher/optimized.py:173-177 | every batch has 1 to batch_size chunks |
| Optimized.BatchesPartition | faro_cipher/optimized.py:173-177 | the batches partition the chunk list: in order, nothing lost, nothing repeated |
| Optimized.BatchesFull | faro_cipher/optimized.py:173-177 | every batch but the last holds exactly batch_size chunks |
| Optimized.ProcessBatchedFlatten | faro_cipher/optimized.py:180-206 | processing batch by batch and reassembling in batch order gives the chunk-by-chunk result |
| Optimized.Indices | faro_cipher/optimized.py:176 | `range(n)` lists 0 to n - 1 |
| Optimized.MakeBatches | faro_cipher/optimized.py:173-177 | the grouping loop makes one new batch per group, with consecutive indices covering every chunk |
| Optimized.OptimizedEncryptData | faro_cipher/optimized.py:208-241 | the optimized ciphertext has the padded length |
| Optimized.OptimizedRoundTrip | faro_cipher/optimized.py:243-299 | decrypt(encrypt(d)) == d for the optimized cipher under the same key |
| Optimized.TransformDiscarded | faro_cipher/optimized.py:121-126 | as written, the byte [0] through an unshuffled invert round stays [0]; the reference gives [0x24] |
| Optimized.InvertZeroByte | faro_cipher/transforms.py:118-129 | invert with key 1000 flips positions 2 and 5 of a zero byte |
| Optimized.OptimizedCipher.constructor | faro_cipher/optimized.py:71-89 | num_threads is clamped to [1, 16], batch_size to [1, 32], and the pool starts empty |
| Optimized.OptimizedCipher.ShuffleThroughPool | faro_cipher/optimized.py:110-119 | the shuffled (or unshuffled) bits land in a newly made array (the input array itself for shuffle none), which is left out of the pool, and the pool gains nothing but the array handed back |
| Optimized.OptimizedCipher.EncryptChunk | faro_cipher/optimized.py:103-127 | the encrypt branch pads, shuffles and packs; the transform's result is dropped |
| Optimized.OptimizedCipher.DecryptChunk | faro_cipher/optimized.py:129-155 | the decrypt branch unshuffles, packs and trims; the transform's result is dropped |
| Optimized.OptimizedCipher.ProcessChunk | faro_cipher/optimized.py:95-157 | one chunk of a batch: the shuffle-only chunk step, an empty chunk unchanged |
| Optimized.OptimizedCipher.ProcessChunksBatch | faro_cipher/optimized.py:91-159 | every slot of the batch receives its chunk's result |
| Optimized.OptimizedCipher.ProcessBatches | faro_cipher/optimized.py:182-185 | the sequential branch processes each batch and stores it at its index |
| Optimized.OptimizedCipher.ProcessInBatches | faro_cipher/optimized.py:173-204 | going through batches gives the chunk-by-chunk result |
| Optimized.OptimizedCipher.ApplyRoundToDataOptimized | faro_cipher/optimized.py:161-206 | a round splits, batches, processes in order and joins: the round of the shuffle-only chunk step |
| Optimized.OptimizedCipher.RoundsForwardOptimized | faro_cipher/optimized.py:227-232 | encryption runs the rounds in schedule order |
| Optimized.OptimizedCipher.RoundsBackwardOptimized | faro_cipher/optimized.py:233-239 | decryption runs the rounds in reverse |
| Optimized.OptimizedCipher.ProcessDataVariableChunksOptimized | faro_cipher/optimized.py:208-241 | padding and round order are the reference ones |
| Optimized.OptimizedCipher.Encrypt | faro_cipher/optimized.py:243-274 | encrypt returns the optimized ciphertext with its version string; afterwards the pool holds at most 50 lengths |
| Optimized.OptimizedCipher.Decrypt | faro_cipher/optimized.py:276-299 | decrypt refuses a fingerprint mismatch, undoes the rounds and trims to the original size |

## Left out

- The command-line tool, tests, examples, packaging, `legacy.py` and the `__init__` files are not part of this model.
- PBKDF2, MD5 and numpy's random generator are parameters. The weighted probabilities of `np.random.choice` are not modelled: a choice is any member of the candidate list.
- The floating-point entropy scores are left out. They never feed the cipher.
- Timing, throughput printing, banners and warm-ups are left out.
  - A throughput division by a zero elapsed time is not modelled. The clock is outside the model.
- The `benchmark_*`, `analyze_*`, `get_optimization_info` and `get_info` methods are left out.
- `streaming_cipher_process`, `virtual_power_of_2_operations` and `lookup_table_transform` are left out. No cipher path calls them.
- The thread pool branch of `_apply_round_to_data_optimized` and `MemoryPool.lock` are left out. The model is sequential.
- `encrypt_file_jit` and `encrypt_file_optimized` are left out. They write encrypt_file's record format from reads of at least 1 MiB through the modelled pipelines, and have no decrypting counterpart of their own.
- The dtype half of a `MemoryPool` key is modelled only as how it was written (the scalar type `np.uint8` or a dtype object). Every array the cipher pools is `uint8`; `__del__` only calls `clear` and is left out.
- Real file handles are left out. Files are byte sequences, and a read is a prefix of what remains.
- String input (UTF-8 encoding in `encrypt`) is left out. The data is bytes.
- numba's fixed-width integers are modelled as Python's unbounded ones. The keys and positions involved stay far below 2⁶³.
- `np.empty_like` leaves bytes uninitialised. The model takes each such byte as a `junk` parameter, and every lemma holds for every value of it.
- Transforms.ISqrt: `int(pos**0.5)` is computed in floating point; the model uses the exact integer square root, which agrees for the small positions prime_sieve meets.
- Ultra.EncryptFileUltra: requires every piece to be shorter than 2³² bytes (a positive piece size below 2³², or an input shorter than 2³² bytes). A longer piece's length does not fit `to_bytes(4, 'big')`, which raises OverflowError; that error is not modelled.
- Where the code and the design notes disagree, the model follows the code:
  - Chunk sizes range from 2 to 32 KiB.
  - decrypt raises ValueError (`Err(KeyMismatch)`) on a wrong key instead of returning garbage.
  - decrypt_file returns True on a truncated file.
  - The out-shuffle's variant 1 round-trips for every length; only variant 0 needs an even length.

## Findings

| source | as written | input that shows it | evidently intended | confidence | as-written member | corrected member |
|---|---|---|---|---|---|---|
| faro_cipher/optimized.py:121-123 and 134-136 | `_process_chunks_batch` calls the transform but drops the copy it returns, so each chunk is only shuffled | the byte [0] in a round with shuffle none and invert key 1000: the output is [0], the reference gives [0x24] | each chunk is transformed as `_process_single_chunk` does (the Reference chunk step, which still round-trips) | high (not executed) | Optimized.TransformDiscarded | Pipeline.ChunkRoundTrip |
| faro_cipher/optimized.py:31 and 46 | get_array looks up `(size, np.uint8)`, the scalar type; return_array stores under `(len(array), array.dtype)`, a dtype object. The two compare equal but hash differently, so the lookup at line 32 never finds a returned array | return an array of length n, then call get_array(n): a new array is made and the returned one stays pooled | get_array hands back the array return_array stored for that length | high (not executed) | Optimized.ReturnThenRequestMisses | Optimized.ReturnThenTake |
| faro_cipher/algorithmic_optimized.py:69-75 and 100-104 | for an odd length the type-2 byte shuffle never writes the last position of its `np.empty_like` result, and its inverse never writes it either | [0, 0, 1] through type 2 and back ends in the unwritten byte, not 1 | the odd last byte stays in place, as it does for type 1 | high (not executed) | Algorithmic.OutShuffleLosesLastByte | Algorithmic.FixedByteShuffleRoundTrip |
| faro_cipher/ultra_cipher.py:226 | encrypt_file_ultra runs each piece through the rounds without the 8-byte padding of lines 116-120, so odd pieces meet the type-2 shuffle | a file [0, 0, b] read in pieces of 3 with one out-shuffle/invert round (key 1001) decrypts to [0, 0, junk] | each piece is padded before the rounds, as `_process_data_ultra` pads | high (not executed) | Ultra.FileOddPieceLoses | Ultra.FixedFileRoundTrip |
