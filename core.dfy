/**
 * FaroCipher of faro_cipher/core.py: construction and validation, the
 * reference pipeline (per chunk, per round, whole buffer), encrypt and
 * decrypt with their metadata, and the framed file format.
 *
 * MD5, PBKDF2 and numpy's generators come in as an Oracles value; file
 * handles become the file's bytes. A Python exception is an Err result.
 */
module Core {
  import Seqs
  import opened Bits
  import opened Wrappers
  import opened ShuffleSpec
  import opened Transforms
  import opened Utils
  import opened Pipeline
  import opened Chunking
  import Shuffles
  import Schedule
  import Framing

  /** The foreign functions the cipher calls. */
  datatype Oracles = Oracles(md5: Md5, kdf: Schedule.Kdf, draw: Schedule.Draw)

  /** SecurityProfile: performance, balanced and maximum. */
  datatype Profile = Performance | Balanced | Maximum

  function ProfileByName(name: string): Option<Profile>
  {
    if name == "performance" then Some(Performance)
    else if name == "balanced" then Some(Balanced)
    else if name == "maximum" then Some(Maximum)
    else None
  }

  function DefaultRounds(p: Profile): nat
  {
    match p
    case Performance => 3
    case Balanced => 6
    case Maximum => 12
  }

  function EmphasisOf(p: Profile): (e: seq<TransformKind>)
    ensures |e| == 3
  {
    match p
    case Performance => [EnhancedXor, Invert, SwapPairs]
    case Balanced => [AvalancheCascade, EnhancedXor, Fibonacci]
    case Maximum => [AvalancheCascade, PrimeSieve, Fibonacci]
  }

  /** The number a string of decimal digits denotes, most significant digit first. */
  function DigitsValue(s: string): nat
    requires forall i :: 0 <= i < |s| ==> '0' <= s[i] <= '9'
  {
    if |s| == 0 then 0 else 10 * DigitsValue(s[..|s| - 1]) + (s[|s| - 1] as int - '0' as int)
  }

  /** The character of a decimal digit. */
  function DigitChar(d: nat): (c: char)
    requires d < 10
    ensures '0' <= c <= '9' && c as int - '0' as int == d
  {
    ('0' as int + d) as char
  }

  /** The decimal digits of n, as f"{n}" writes them: they denote n, with no leading zero. */
  function Decimal(n: nat): (s: string)
    ensures |s| > 0 && forall i :: 0 <= i < |s| ==> '0' <= s[i] <= '9'
    ensures DigitsValue(s) == n
    ensures s[0] != '0' || s == "0"
  {
    if n < 10 then [DigitChar(n)]
    else
      var s := Decimal(n / 10) + [DigitChar(n % 10)];
      assert s[..|s| - 1] == Decimal(n / 10);
      s
  }

  /** Distinct round counts give distinct custom-N profile names. */
  lemma CustomNamesDiffer(m: nat, n: nat)
    requires m != n
    ensures "custom-" + Decimal(m) != "custom-" + Decimal(n)
  {
    var prefix := "custom-";
    assert (prefix + Decimal(m))[|prefix|..] == Decimal(m);
    assert (prefix + Decimal(n))[|prefix|..] == Decimal(n);
  }

  /** The state a FaroCipher keeps after construction; the human-readable description is left out. */
  datatype Cipher = Cipher(
    key: seq<Byte>,
    chunkSize: int,
    rounds: int,
    profile: string,
    emphasis: seq<TransformKind>,
    fingerprint: string,
    structure: seq<RoundInfo>)

  /**
   * FaroCipher(key, profile, chunk_size, rounds): the profile is checked
   * first, then the round count (the given one, or the profile's default).
   */
  function NewCipher(o: Oracles, key: seq<Byte>, profile: string, chunkSize: int, rounds: Option<int>): Result<Cipher>
  {
    match ProfileByName(profile)
    case None => Err(UnknownProfile)
    case Some(p) =>
      var n := if rounds.Some? then rounds.value else DefaultRounds(p);
      if n < 1 then Err(TooFewRounds)
      else if n > 100 then Err(TooManyRounds)
      else
        var name := if rounds.None? then profile else "custom-" + Decimal(n);
        Ok(Cipher(key, chunkSize, n, name, EmphasisOf(p), Fingerprint(o.md5, key),
                  Schedule.RoundStructure(o.kdf, o.draw, key, n, EmphasisOf(p))))
  }

  /** What construction guarantees about a cipher. */
  ghost predicate Valid(o: Oracles, c: Cipher)
  {
    1 <= c.rounds <= 100 && |c.emphasis| > 0
    && c.fingerprint == Fingerprint(o.md5, c.key)
    && c.structure == Schedule.RoundStructure(o.kdf, o.draw, c.key, c.rounds, c.emphasis)
  }

  /** Construction fails exactly for an unknown profile or a round count outside 1..100, with the error of the first failed check. */
  lemma NewCipherErrors(o: Oracles, key: seq<Byte>, profile: string, chunkSize: int, rounds: Option<int>)
    ensures var r := NewCipher(o, key, profile, chunkSize, rounds);
      && (r == Err(UnknownProfile) <==> profile !in {"performance", "balanced", "maximum"})
      && (r == Err(TooFewRounds) <==> profile in {"performance", "balanced", "maximum"} && rounds.Some? && rounds.value < 1)
      && (r == Err(TooManyRounds) <==> profile in {"performance", "balanced", "maximum"} && rounds.Some? && rounds.value > 100)
      && (r.Ok? <==> profile in {"performance", "balanced", "maximum"} && (rounds.None? || 1 <= rounds.value <= 100))
  {
  }

  /** Without an explicit round count a profile keeps its name and its default number of rounds. */
  lemma NewCipherDefaults(o: Oracles, key: seq<Byte>, profile: string, chunkSize: int)
    requires ProfileByName(profile).Some?
    ensures NewCipher(o, key, profile, chunkSize, None).Ok?
    ensures NewCipher(o, key, profile, chunkSize, None).value.rounds == DefaultRounds(ProfileByName(profile).value)
    ensures NewCipher(o, key, profile, chunkSize, None).value.profile == profile
  {
  }

  /** An explicit round count renames the profile to custom-N. */
  lemma NewCipherCustom(o: Oracles, key: seq<Byte>, profile: string, chunkSize: int, n: int)
    requires ProfileByName(profile).Some? && 1 <= n <= 100
    ensures NewCipher(o, key, profile, chunkSize, Some(n)).Ok?
    ensures NewCipher(o, key, profile, chunkSize, Some(n)).value.rounds == n
    ensures NewCipher(o, key, profile, chunkSize, Some(n)).value.profile == "custom-" + Decimal(n)
  {
  }

  /** A constructed cipher has a schedule of `rounds` entries that begins with the profile's emphasis transforms. */
  lemma NewCipherValid(o: Oracles, key: seq<Byte>, profile: string, chunkSize: int, rounds: Option<int>)
    requires NewCipher(o, key, profile, chunkSize, rounds).Ok?
    ensures var c := NewCipher(o, key, profile, chunkSize, rounds).value;
      Valid(o, c) && |c.structure| == c.rounds
      && forall r :: 0 <= r < 3 && r < c.rounds ==> c.structure[r].transform == c.emphasis[r]
  {
    var c := NewCipher(o, key, profile, chunkSize, rounds).value;
    var km := Schedule.KeyMaterial(o.kdf, c.key, c.rounds);
    forall r | 0 <= r < 3 && r < c.rounds
      ensures c.structure[r].transform == c.emphasis[r]
    {
      Schedule.EmphasisFirst(c.rounds, c.emphasis, km, o.draw, c.rounds, r);
    }
  }

  /** The schedule facts the pipeline relies on. */
  predicate Schedulable(rs: seq<RoundInfo>)
  {
    |rs| > 0 && forall k :: 0 <= k < |rs| ==> rs[k].chunkSize in {2048, 4096, 8192, 16384, 32768}
  }

  /** The facts about a constructed cipher that encrypt and decrypt rely on. */
  predicate Consistent(o: Oracles, c: Cipher)
  {
    Schedulable(c.structure) && c.fingerprint == Fingerprint(o.md5, c.key)
  }

  lemma ValidConsistent(o: Oracles, c: Cipher)
    requires Valid(o, c)
    ensures Consistent(o, c)
  {
    var km := Schedule.KeyMaterial(o.kdf, c.key, c.rounds);
    forall k | 0 <= k < |c.structure|
      ensures c.structure[k].chunkSize in {2048, 4096, 8192, 16384, 32768}
    {
      Schedule.StructureRanges(c.rounds, c.emphasis, km, o.draw, c.rounds, k);
    }
  }

  lemma SchedulableWellFormed(rs: seq<RoundInfo>)
    requires Schedulable(rs)
    ensures WellFormed(rs) && 2048 <= MaxChunk(rs) <= 32768
  {
    forall k | 0 <= k < |rs|
      ensures rs[k].chunkSize > 0 && IsPow2(rs[k].chunkSize)
    {
      Schedule.ChunkSizesPow2(rs[k].chunkSize);
    }
    MaxChunkRange(rs);
  }

  /** The largest chunk size of a schedulable structure lies between 2048 and 32768. */
  lemma MaxChunkRange(rs: seq<RoundInfo>)
    requires Schedulable(rs)
    ensures 2048 <= MaxChunk(rs) <= 32768
  {
    var k :| 0 <= k < |rs| && rs[k].chunkSize == MaxChunk(rs);
  }

  /** _process_single_chunk. */
  method ProcessSingleChunk(r: RoundInfo, chunk: seq<Byte>, encrypt: bool) returns (out: seq<Byte>)
    ensures out == ChunkStep(Reference, r, chunk, encrypt)
  {
    if |chunk| == 0 {
      return chunk;
    }
    var bits := Unpack(chunk);
    if encrypt {
      var padded, originalBitLength := PadToPowerOf2(bits);
      var current := padded;
      assert current == PaddedBits(chunk);
      EvenLengthRoundTrips(r.shuffle, r.variant % 4, |current|);
      FaroShuffleRoundTrip(r.shuffle, r.variant, r.steps, current);
      if r.shuffle != NoShuffle {
        var shuffled := Shuffles.FaroShuffle(current, r.shuffle, r.steps, r.variant);
        current := shuffled.value;
      } else {
        FaroShuffleLeavesTrivialInputs(r.shuffle, r.variant, r.steps, current);
      }
      current := ApplyTransform(r.transform, current, r.key);
      out := Pack(current);
    } else {
      var current := ApplyTransform(r.transform, bits, r.key);
      EvenLengthRoundTrips(r.shuffle, r.variant % 4, |current|);
      FaroShuffleRoundTrip(r.shuffle, r.variant, r.steps, current);
      if r.shuffle != NoShuffle {
        var unshuffled := Shuffles.InverseFaroShuffle(current, r.shuffle, r.steps, r.variant);
        current := unshuffled.value;
      } else {
        FaroShuffleLeavesTrivialInputs(r.shuffle, r.variant, r.steps, current);
      }
      out := TrimTo(Pack(current), |chunk|);
    }
  }

  /** _apply_round_to_data: split into the round's chunk size, process each chunk, join. */
  method ApplyRoundToData(r: RoundInfo, data: seq<Byte>, encrypt: bool) returns (out: Option<seq<Byte>>)
    ensures out == ApplyRound(Reference, r, data, encrypt)
  {
    if r.chunkSize == 0 {
      return None;
    } else if r.chunkSize < 0 {
      return Some([]);
    }
    var chunks := SplitChunks(data, r.chunkSize);
    var processed := ProcessChunks(r, chunks, encrypt);
    var joined := JoinChunks(processed);
    return Some(joined);
  }

  /** The loop of _apply_round_to_data that processes each chunk in order. */
  method ProcessChunks(r: RoundInfo, chunks: seq<seq<Byte>>, encrypt: bool) returns (processed: seq<seq<Byte>>)
    ensures processed == ProcessAll(Reference, r, chunks, encrypt)
  {
    ghost var all := ProcessAll(Reference, r, chunks, encrypt);
    processed := [];
    for k := 0 to |chunks|
      invariant processed == all[..k]
    {
      var p := ProcessSingleChunk(r, chunks[k], encrypt);
      Seqs.TakeSnoc(all, k);
      processed := processed + [p];
    }
    Seqs.TakeAll(all);
  }

  /** _process_data_variable_chunks: pad to the largest chunk size, then the rounds in order, or in reverse to decrypt. */
  method ProcessDataVariableChunks(rs: seq<RoundInfo>, data: seq<Byte>, encrypt: bool) returns (out: seq<Byte>)
    requires Schedulable(rs)
    ensures Some(out) == ProcessData(Reference, rs, data, encrypt)
  {
    SchedulableWellFormed(rs);
    var maxChunkSize := MaxChunk(rs);
    if encrypt {
      var current := PadToChunk(data, maxChunkSize);
      ProcessDataRoundTrip(Reference, rs, data);
      out := RoundsForward(rs, current);
    } else {
      out := RoundsBackward(rs, data);
    }
  }

  /** The padding step of _process_data_variable_chunks: the filler byte repeated up to the next multiple of the largest chunk size. */
  method PadToChunk(data: seq<Byte>, maxChunkSize: int) returns (current: seq<Byte>)
    requires maxChunkSize > 0
    ensures current == PadData(data, maxChunkSize)
  {
    current := data;
    var paddingNeeded := (maxChunkSize - |data| % maxChunkSize) % maxChunkSize;
    if paddingNeeded > 0 {
      var paddingByte: Byte := if |data| > 0 then (ByteSum(data) % 256) as Byte else 0;
      current := data + seq(paddingNeeded, _ => paddingByte);
    }
  }

  /** Encryption's loop over the round structure in order. */
  method RoundsForward(rs: seq<RoundInfo>, data: seq<Byte>) returns (out: seq<Byte>)
    requires EncRounds(Reference, rs, data).Some?
    ensures Some(out) == EncRounds(Reference, rs, data)
  {
    var current := data;
    for k := 0 to |rs|
      invariant EncRounds(Reference, rs[..k], data) == Some(current)
    {
      EncRoundsPrefix(Reference, rs, k + 1, data);
      assert rs[..k + 1][..k] == rs[..k];
      var next := ApplyRoundToData(rs[k], current, true);
      current := next.value;
    }
    assert rs[..|rs|] == rs;
    out := current;
  }

  /** Decryption's loop over the reversed round structure. */
  method RoundsBackward(rs: seq<RoundInfo>, data: seq<Byte>) returns (out: seq<Byte>)
    requires forall k :: 0 <= k < |rs| ==> rs[k].chunkSize > 0
    ensures Some(out) == DecRounds(Reference, rs, data)
  {
    var current := data;
    assert rs[..|rs|] == rs;
    for k := 0 to |rs|
      invariant DecRounds(Reference, rs, data) == DecRounds(Reference, rs[..|rs| - k], current)
    {
      var i := |rs| - 1 - k;
      DecRoundsStep(Reference, rs, i, current);
      var next := ApplyRoundToData(rs[i], current, false);
      current := next.value;
    }
    out := current;
  }


  /** EncryptionMetadata. */
  datatype Metadata = Metadata(
    version: string,
    profile: string,
    rounds: int,
    chunkSize: int,
    structure: seq<RoundInfo>,
    fingerprint: string,
    originalSize: Option<nat>,
    chunkSizes: Option<seq<nat>>)

  /** encrypt's result dictionary. */
  datatype Encrypted = Encrypted(data: seq<Byte>, metadata: Metadata)

  const Version: string := "faro_cipher_v1.0"

  /** The ciphertext of a buffer: the padded data through every round. */
  function EncryptData(c: Cipher, data: seq<Byte>): (enc: seq<Byte>)
    requires Schedulable(c.structure)
    ensures |enc| == |PadData(data, MaxChunk(c.structure))|
  {
    SchedulableWellFormed(c.structure);
    ProcessDataRoundTrip(Reference, c.structure, data);
    ProcessData(Reference, c.structure, data, true).value
  }

  /** The rounds undone in reverse; never fails for positive chunk sizes. */
  function DecryptData(c: Cipher, data: seq<Byte>): seq<Byte>
    requires Schedulable(c.structure)
  {
    SchedulableWellFormed(c.structure);
    DecRoundsTotal(Reference, c.structure, data);
    ProcessData(Reference, c.structure, data, false).value
  }

  function EncryptResult(c: Cipher, data: seq<Byte>): Encrypted
    requires Schedulable(c.structure)
  {
    Encrypted(EncryptData(c, data),
              Metadata(Version, c.profile, c.rounds, c.chunkSize, c.structure, c.fingerprint, Some(|data|), None))
  }

  /** decrypt: refuse metadata made under another key, otherwise undo the rounds and trim to the recorded size. */
  function DecryptResult(o: Oracles, c: Cipher, e: Encrypted): Result<seq<Byte>>
    requires Schedulable(c.structure)
  {
    if !KeyCompatible(o.md5, c.key, e.metadata.fingerprint) then Err(KeyMismatch)
    else
      var d := DecryptData(c, e.data);
      var size := e.metadata.originalSize;
      Ok(if size.Some? && |d| > size.value then d[..size.value] else d)
  }

  /** encrypt (for bytes input). */
  method Encrypt(c: Cipher, data: seq<Byte>) returns (result: Encrypted)
    requires Schedulable(c.structure)
    ensures result == EncryptResult(c, data)
  {
    var encryptedData := ProcessDataVariableChunks(c.structure, data, true);
    var metadata := Metadata(Version, c.profile, c.rounds, c.chunkSize, c.structure, c.fingerprint, Some(|data|), None);
    result := Encrypted(encryptedData, metadata);
  }

  /** decrypt. */
  method Decrypt(o: Oracles, c: Cipher, e: Encrypted) returns (result: Result<seq<Byte>>)
    requires Schedulable(c.structure)
    ensures result == DecryptResult(o, c, e)
  {
    if !KeyCompatible(o.md5, c.key, e.metadata.fingerprint) {
      return Err(KeyMismatch);
    }
    var decryptedData := ProcessDataVariableChunks(c.structure, e.data, false);
    if e.metadata.originalSize.Some? && |decryptedData| > e.metadata.originalSize.value {
      decryptedData := decryptedData[..e.metadata.originalSize.value];
    }
    return Ok(decryptedData);
  }

  /** Decrypting the padded ciphertext gives the padded buffer; cutting it to the original length gives the data. */
  lemma DecryptEncryptData(c: Cipher, data: seq<Byte>)
    requires Schedulable(c.structure)
    ensures |EncryptData(c, data)| >= |data|
    ensures |DecryptData(c, EncryptData(c, data))| >= |data|
    ensures DecryptData(c, EncryptData(c, data))[..|data|] == data
  {
    SchedulableWellFormed(c.structure);
    ProcessDataRoundTrip(Reference, c.structure, data);
  }

  /** decrypt(encrypt(d)) == d under the same key. */
  lemma CipherRoundTrip(o: Oracles, c: Cipher, data: seq<Byte>)
    requires Consistent(o, c)
    ensures DecryptResult(o, c, EncryptResult(c, data)) == Ok(data)
  {
    var e := EncryptResult(c, data);
    DecryptEncryptData(c, data);
    var d := DecryptData(c, e.data);
    assert e.metadata.originalSize == Some(|data|);
    assert KeyCompatible(o.md5, c.key, e.metadata.fingerprint);
    assert d[..|data|] == data;
    if |d| == |data| {
      assert d == d[..|data|];
    }
  }

  /** A cipher under another key decrypts only when the two keys' MD5 digests agree on their first eight bytes. */
  lemma WrongKeyRefused(o: Oracles, c1: Cipher, c2: Cipher, data: seq<Byte>)
    requires Consistent(o, c1) && Consistent(o, c2)
    ensures DecryptResult(o, c2, EncryptResult(c1, data)) == Err(KeyMismatch)
      <==> o.md5(c1.key)[..8] != o.md5(c2.key)[..8]
  {
    FingerprintMatches(o.md5, c1.key, c2.key);
  }

  /** The blocks encrypt_file reads: max_chunk_size bytes at a time. */
  function Blocks(c: Cipher, input: seq<Byte>): (blocks: seq<seq<Byte>>)
    requires Schedulable(c.structure)
    ensures forall k :: 0 <= k < |blocks| ==> 0 < |blocks[k]| <= 32768
  {
    SchedulableWellFormed(c.structure);
    Split(input, MaxChunk(c.structure))
  }

  /** Each block's ciphertext is shorter than two largest chunks, so its length fits the 4-byte header. */
  lemma EncryptedBlockFits(c: Cipher, block: seq<Byte>)
    requires Schedulable(c.structure) && |block| <= 32768
    ensures |EncryptData(c, block)| < 65536
  {
    SchedulableWellFormed(c.structure);
  }

  /** The ciphertext of each block. */
  function EncryptAll(c: Cipher, blocks: seq<seq<Byte>>): (encs: seq<seq<Byte>>)
    requires Schedulable(c.structure) && forall k :: 0 <= k < |blocks| ==> |blocks[k]| <= 32768
    ensures |encs| == |blocks| && Framing.Framable(encs)
  {
    var encs := seq(|blocks|, k requires 0 <= k < |blocks| => EncryptData(c, blocks[k]));
    assert Framing.Framable(encs) by {
      forall k | 0 <= k < |encs|
        ensures |encs[k]| < Framing.Two32
      {
        EncryptedBlockFits(c, blocks[k]);
      }
    }
    encs
  }

  lemma EncryptAllSnoc(c: Cipher, blocks: seq<seq<Byte>>, block: seq<Byte>)
    requires Schedulable(c.structure) && forall k :: 0 <= k < |blocks| ==> |blocks[k]| <= 32768
    requires |block| <= 32768
    ensures EncryptAll(c, blocks + [block]) == EncryptAll(c, blocks) + [EncryptData(c, block)]
  {
  }

  function EncryptedBlocks(c: Cipher, input: seq<Byte>): (encs: seq<seq<Byte>>)
    requires Schedulable(c.structure)
    ensures |encs| == |Blocks(c, input)| && Framing.Framable(encs)
  {
    EncryptAll(c, Blocks(c, input))
  }

  function BlockSizes(blocks: seq<seq<Byte>>): (sizes: seq<nat>)
    ensures |sizes| == |blocks| && forall k :: 0 <= k < |blocks| ==> sizes[k] == |blocks[k]|
  {
    seq(|blocks|, k requires 0 <= k < |blocks| => |blocks[k]|)
  }

  /** encrypt_file's output file: one record per block. */
  function EncryptedFile(c: Cipher, input: seq<Byte>): seq<Byte>
    requires Schedulable(c.structure)
  {
    Framing.Frame(EncryptedBlocks(c, input))
  }

  /** encrypt_file's metadata: the largest chunk size and each block's length, no original size. */
  function FileMetadata(c: Cipher, input: seq<Byte>): Metadata
    requires Schedulable(c.structure)
  {
    Metadata(Version, c.profile, c.rounds, MaxChunk(c.structure), c.structure, c.fingerprint, None, Some(BlockSizes(Blocks(c, input))))
  }

  lemma BlockSizesSnoc(blocks: seq<seq<Byte>>, block: seq<Byte>)
    ensures BlockSizes(blocks + [block]) == BlockSizes(blocks) + [|block|]
  {
  }

  /** The blocks before pos: the split of the input is those blocks followed by the split of the rest. */
  ghost predicate BlocksUpTo(input: seq<Byte>, size: nat, pos: nat, blocks: seq<seq<Byte>>)
    requires 0 < size
  {
    && pos <= |input|
    && Split(input, size) == blocks + Split(input[pos..], size)
    && (forall k :: 0 <= k < |blocks| ==> |blocks[k]| <= size)
  }

  lemma BlocksUpToStep(input: seq<Byte>, size: nat, pos: nat, blocks: seq<seq<Byte>>)
    requires 0 < size && BlocksUpTo(input, size, pos, blocks) && pos < |input|
    ensures pos < MinNat(pos + size, |input|) <= |input|
    ensures BlocksUpTo(input, size, MinNat(pos + size, |input|), blocks + [input[pos..MinNat(pos + size, |input|)]])
  {
    var next := MinNat(pos + size, |input|);
    var block := input[pos..next];
    var blocks' := blocks + [block];
    SplitStep(input, pos, size);
    assert blocks + Split(input[pos..], size) == blocks' + Split(input[next..], size);
    forall k | 0 <= k < |blocks'|
      ensures |blocks'[k]| <= size
    {
      if k < |blocks| {
        assert blocks'[k] == blocks[k];
      }
    }
  }

  lemma BlocksUpToEnd(input: seq<Byte>, size: nat, blocks: seq<seq<Byte>>)
    requires 0 < size && BlocksUpTo(input, size, |input|, blocks)
    ensures blocks == Split(input, size)
  {
    assert input[|input|..] == [];
    assert blocks + [] == blocks;
  }

  /** What encrypt_file has written for the blocks so far: their records and their lengths. */
  ghost predicate WrittenUpTo(c: Cipher, blocks: seq<seq<Byte>>, output: seq<Byte>, chunkSizes: seq<nat>)
    requires Schedulable(c.structure)
  {
    && (forall k :: 0 <= k < |blocks| ==> |blocks[k]| <= 32768)
    && output == Framing.Frame(EncryptAll(c, blocks)) && chunkSizes == BlockSizes(blocks)
  }

  lemma WrittenUpToStep(c: Cipher, blocks: seq<seq<Byte>>, output: seq<Byte>, chunkSizes: seq<nat>, block: seq<Byte>)
    requires Schedulable(c.structure) && WrittenUpTo(c, blocks, output, chunkSizes) && |block| <= 32768
    ensures WrittenUpTo(c, blocks + [block], output + Framing.Be4(|EncryptData(c, block)|) + EncryptData(c, block), chunkSizes + [|block|])
  {
    var enc := EncryptData(c, block);
    var blocks' := blocks + [block];
    forall k | 0 <= k < |blocks'|
      ensures |blocks'[k]| <= 32768
    {
      if k < |blocks| {
        assert blocks'[k] == blocks[k];
      }
    }
    EncryptAllSnoc(c, blocks, block);
    Framing.FrameSnoc(EncryptAll(c, blocks), enc);
    BlockSizesSnoc(blocks, block);
  }

  /** Before the first block nothing is read and nothing written. */
  lemma EncryptLoopStart(c: Cipher, input: seq<Byte>)
    requires Schedulable(c.structure)
    ensures 0 < MaxChunk(c.structure) && BlocksUpTo(input, MaxChunk(c.structure), 0, []) && WrittenUpTo(c, [], [], [])
  {
    MaxChunkRange(c.structure);
    assert input[0..] == input;
    assert Framing.Frame(EncryptAll(c, [])) == [];
  }

  lemma EncryptLoopStep(c: Cipher, input: seq<Byte>, size: nat, pos: nat, blocks: seq<seq<Byte>>, output: seq<Byte>,
                        chunkSizes: seq<nat>, record: seq<Byte>, pos': nat, blocks': seq<seq<Byte>>, output': seq<Byte>, chunkSizes': seq<nat>)
    requires Schedulable(c.structure) && size == MaxChunk(c.structure) && pos < |input|
    requires BlocksUpTo(input, size, pos, blocks) && WrittenUpTo(c, blocks, output, chunkSizes)
    requires pos' == MinNat(pos + size, |input|) && blocks' == blocks + [input[pos..pos']]
    requires |input[pos..pos']| <= 32768
    requires record == Framing.Be4(|EncryptData(c, input[pos..pos'])|) + EncryptData(c, input[pos..pos'])
    requires chunkSizes' == chunkSizes + [|input[pos..pos']|] && output' == output + record
    ensures pos < pos' && BlocksUpTo(input, size, pos', blocks') && WrittenUpTo(c, blocks', output', chunkSizes')
  {
    SchedulableWellFormed(c.structure);
    BlocksUpToStep(input, size, pos, blocks);
    var enc := EncryptData(c, input[pos..pos']);
    Seqs.ConcatAssoc(output, Framing.Be4(|enc|), enc);
    WrittenUpToStep(c, blocks, output, chunkSizes, input[pos..pos']);
  }

  /** The record the loop of encrypt_file writes for one block: the ciphertext's length in four bytes, then the ciphertext. */
  method EncryptRecord(c: Cipher, dataChunk: seq<Byte>) returns (record: seq<Byte>)
    requires Schedulable(c.structure) && |dataChunk| <= 32768
    ensures |EncryptData(c, dataChunk)| < Framing.Two32
    ensures record == Framing.Be4(|EncryptData(c, dataChunk)|) + EncryptData(c, dataChunk)
  {
    var encryptedChunk := ProcessDataVariableChunks(c.structure, dataChunk, true);
    assert encryptedChunk == EncryptData(c, dataChunk);
    EncryptedBlockFits(c, dataChunk);
    record := Framing.Be4(|encryptedChunk|) + encryptedChunk;
  }

  /** encrypt_file over the input file's bytes. */
  method EncryptFile(c: Cipher, input: seq<Byte>) returns (output: seq<Byte>, metadata: Metadata)
    requires Schedulable(c.structure)
    ensures output == EncryptedFile(c, input) && metadata == FileMetadata(c, input)
  {
    MaxChunkRange(c.structure);
    var maxChunkSize := MaxChunk(c.structure);
    var chunkSizes: seq<nat> := [];
    output := [];
    ghost var blocks: seq<seq<Byte>> := [];
    var pos := 0;
    EncryptLoopStart(c, input);
    while pos < |input|
      invariant BlocksUpTo(input, maxChunkSize, pos, blocks)
      invariant WrittenUpTo(c, blocks, output, chunkSizes)
      decreases |input| - pos
    {
      var next := MinNat(pos + maxChunkSize, |input|);
      var dataChunk := input[pos..next];
      var originalSize: nat := |dataChunk|;
      assert originalSize <= 32768;
      var record := EncryptRecord(c, dataChunk);
      ghost var pos0, blocks0, output0, sizes0 := pos, blocks, output, chunkSizes;
      chunkSizes := chunkSizes + [originalSize];
      output := output + record;
      blocks := blocks + [dataChunk];
      pos := next;
      EncryptLoopStep(c, input, maxChunkSize, pos0, blocks0, output0, sizes0, record, pos, blocks, output, chunkSizes);
    }
    BlocksUpToEnd(input, maxChunkSize, blocks);
    metadata := Metadata(Version, c.profile, c.rounds, maxChunkSize, c.structure, c.fingerprint, None, Some(chunkSizes));
  }

  /** The plaintext of the records read back: each decrypted and cut to its recorded size. */
  function DecryptedBlocks(c: Cipher, bodies: seq<seq<Byte>>, sizes: seq<nat>): (out: seq<seq<Byte>>)
    requires Schedulable(c.structure) && |bodies| <= |sizes|
    ensures |out| == |bodies|
  {
    seq(|bodies|, k requires 0 <= k < |bodies| => TrimTo(DecryptData(c, bodies[k]), sizes[k]))
  }

  /**
   * decrypt_file: false (and nothing written) for another key or metadata
   * without chunk sizes; otherwise true, with the records read until the
   * first short header or body.
   */
  function DecryptFileResult(o: Oracles, c: Cipher, file: seq<Byte>, metadata: Metadata): (bool, seq<Byte>)
    requires Schedulable(c.structure)
  {
    if !KeyCompatible(o.md5, c.key, metadata.fingerprint) || metadata.chunkSizes.None? then (false, [])
    else
      var sizes := metadata.chunkSizes.value;
      (true, Concat(DecryptedBlocks(c, Framing.Unframe(file, |sizes|), sizes)))
  }

  /** The records decrypt_file has read: the first idx records of the file, ending before pos. */
  ghost predicate ReadUpTo(file: seq<Byte>, count: nat, idx: nat, pos: nat, bodies: seq<seq<Byte>>)
  {
    && idx <= count && pos <= |file| && |bodies| == idx
    && Framing.Unframe(file, count) == bodies + Framing.Unframe(file[pos..], count - idx)
  }

  lemma ReadUpToStep(file: seq<Byte>, count: nat, idx: nat, pos: nat, bodies: seq<seq<Byte>>, len: nat, body: seq<Byte>,
                     idx': nat, pos': nat, bodies': seq<seq<Byte>>)
    requires ReadUpTo(file, count, idx, pos, bodies) && idx < count
    requires pos + 4 <= |file| && len == Framing.FromBe(file[pos..pos + 4]) && |file| - pos - 4 >= len
    requires body == file[pos + 4..pos + 4 + len]
    requires idx' == idx + 1 && pos' == pos + 4 + len && bodies' == bodies + [body]
    ensures ReadUpTo(file, count, idx', pos', bodies')
  {
    Framing.UnframeRecord(file, pos, count - idx);
    Framing.UnframeSame(file[pos'..], file[pos + 4 + len..], count - idx', count - idx - 1);
    Seqs.ShiftHead(Framing.Unframe(file, count), bodies, Framing.Unframe(file[pos..], count - idx), body,
                   Framing.Unframe(file[pos'..], count - idx'));
  }

  lemma ReadUpToStop(file: seq<Byte>, count: nat, idx: nat, pos: nat, bodies: seq<seq<Byte>>)
    requires ReadUpTo(file, count, idx, pos, bodies)
    requires idx == count || |file| - pos < 4 || |file| - pos - 4 < Framing.FromBe(file[pos..pos + 4])
    ensures bodies == Framing.Unframe(file, count)
  {
    if idx < count {
      Framing.UnframeShort(file, pos, count - idx);
    }
    assert bodies + [] == bodies;
  }

  lemma DecryptedBlocksSnoc(c: Cipher, bodies: seq<seq<Byte>>, body: seq<Byte>, sizes: seq<nat>)
    requires Schedulable(c.structure) && |bodies| < |sizes|
    ensures Concat(DecryptedBlocks(c, bodies + [body], sizes))
      == Concat(DecryptedBlocks(c, bodies, sizes)) + TrimTo(DecryptData(c, body), sizes[|bodies|])
  {
    var all := DecryptedBlocks(c, bodies + [body], sizes);
    assert all[..|all| - 1] == DecryptedBlocks(c, bodies, sizes);
  }

  /** decrypt_file over the encrypted file's bytes; returns the success flag and the bytes written. */
  method DecryptFile(o: Oracles, c: Cipher, file: seq<Byte>, metadata: Metadata) returns (ok: bool, output: seq<Byte>)
    requires Schedulable(c.structure)
    ensures (ok, output) == DecryptFileResult(o, c, file, metadata)
  {
    if !KeyCompatible(o.md5, c.key, metadata.fingerprint) || metadata.chunkSizes.None? {
      return false, [];
    }
    ok := true;
    output := DecryptRecords(c, file, metadata.chunkSizes.value);
  }

  /** One record of decrypt_file: the body decrypted, then cut to the size the metadata lists for it. */
  method DecryptRecordBody(c: Cipher, encryptedChunk: seq<Byte>, originalSize: nat) returns (decryptedChunk: seq<Byte>)
    requires Schedulable(c.structure)
    ensures decryptedChunk == TrimTo(DecryptData(c, encryptedChunk), originalSize)
  {
    decryptedChunk := ProcessDataVariableChunks(c.structure, encryptedChunk, false);
    if |decryptedChunk| > originalSize {
      decryptedChunk := decryptedChunk[..originalSize];
    }
  }

  /** decrypt_file's reading loop: each record decrypted and cut to its size, until a short header or body. */
  method DecryptRecords(c: Cipher, file: seq<Byte>, sizes: seq<nat>) returns (output: seq<Byte>)
    requires Schedulable(c.structure)
    ensures output == Concat(DecryptedBlocks(c, Framing.Unframe(file, |sizes|), sizes))
  {
    output := [];
    ghost var bodies: seq<seq<Byte>> := [];
    var pos: nat := 0;
    var idx: nat := 0;
    while idx < |sizes|
      invariant ReadUpTo(file, |sizes|, idx, pos, bodies)
      invariant output == Concat(DecryptedBlocks(c, bodies, sizes))
      decreases |sizes| - idx
    {
      var originalSize := sizes[idx];
      if |file| - pos < 4 {
        break;
      }
      var chunkLen := Framing.FromBe(file[pos..pos + 4]);
      if |file| - pos - 4 < chunkLen {
        break;
      }
      var encryptedChunk := file[pos + 4..pos + 4 + chunkLen];
      var decryptedChunk := DecryptRecordBody(c, encryptedChunk, originalSize);
      DecryptedBlocksSnoc(c, bodies, encryptedChunk, sizes);
      output := output + decryptedChunk;
      ghost var idx0, pos0, bodies0 := idx, pos, bodies;
      bodies := bodies + [encryptedChunk];
      pos := pos + 4 + chunkLen;
      idx := idx + 1;
      ReadUpToStep(file, |sizes|, idx0, pos0, bodies0, chunkLen, encryptedChunk, idx, pos, bodies);
    }
    ReadUpToStop(file, |sizes|, idx, pos, bodies);
  }

  /** decrypt_file succeeds exactly when the key matches and the metadata lists chunk sizes, however the file is cut. */
  lemma DecryptFileSucceeds(o: Oracles, c: Cipher, file: seq<Byte>, metadata: Metadata)
    requires Schedulable(c.structure)
    ensures DecryptFileResult(o, c, file, metadata).0
      <==> KeyCompatible(o.md5, c.key, metadata.fingerprint) && metadata.chunkSizes.Some?
  {
  }

  /** Each block's ciphertext decrypts and trims back to the block. */
  lemma DecryptedBlocksRoundTrip(c: Cipher, blocks: seq<seq<Byte>>)
    requires Schedulable(c.structure) && forall k :: 0 <= k < |blocks| ==> |blocks[k]| <= 32768
    ensures DecryptedBlocks(c, EncryptAll(c, blocks), BlockSizes(blocks)) == blocks
  {
    var encs := EncryptAll(c, blocks);
    var out := DecryptedBlocks(c, encs, BlockSizes(blocks));
    forall k | 0 <= k < |blocks|
      ensures out[k] == blocks[k]
    {
      DecryptEncryptData(c, blocks[k]);
    }
  }

  /** Decrypting the file encrypt_file wrote, with its metadata, writes the original input. */
  lemma FileRoundTrip(o: Oracles, c: Cipher, input: seq<Byte>)
    requires Consistent(o, c)
    ensures DecryptFileResult(o, c, EncryptedFile(c, input), FileMetadata(c, input)) == (true, input)
  {
    MaxChunkRange(c.structure);
    var blocks := Blocks(c, input);
    var encs := EncryptedBlocks(c, input);
    Framing.UnframeFrame(encs);
    DecryptedBlocksRoundTrip(c, blocks);
    SplitConcat(input, MaxChunk(c.structure));
  }
}
