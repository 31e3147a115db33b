/**
 * JITFaroCipher of faro_cipher/jit_cipher.py: the reference cipher whose
 * chunk step calls the numba kernel with integer codes looked up from the
 * round's shuffle and transform names.
 *
 * Whether numba is installed is the parameter `hasNumba`; without it the
 * chunk step falls back to the reference one. Either way every method here
 * computes what the reference pipeline computes, so JIT ciphertext and
 * reference ciphertext are the same bytes.
 */
module JitCipher {
  import Seqs
  import opened Bits
  import opened Wrappers
  import opened ShuffleSpec
  import opened Transforms
  import opened Pipeline
  import opened Chunking
  import opened JitOptimized
  import Core

  /** _process_single_chunk_jit. */
  method ProcessSingleChunkJitCipher(hasNumba: bool, r: RoundInfo, chunk: seq<Byte>, encrypt: bool) returns (out: seq<Byte>)
    ensures out == ChunkStep(Reference, r, chunk, encrypt)
  {
    if |chunk| == 0 {
      return chunk;
    }
    if !hasNumba {
      out := Core.ProcessSingleChunk(r, chunk, encrypt);
      return;
    }
    var shuffleTypeInt := CodeOrZero(ShuffleTypeMap, ShuffleName(r.shuffle));
    var transformTypeInt := CodeOrZero(TransformTypeMap, TransformName(r.transform));
    RoundNamesGiveCodes(r);
    out := ProcessSingleChunkJit(chunk, shuffleTypeInt, r.steps, r.variant, transformTypeInt, r.key, encrypt);
    JitChunkStepMatches(r, chunk, encrypt);
  }

  /** _apply_round_to_data_jit: split, process each chunk, join; range() with step 0 raises. */
  method ApplyRoundToDataJit(hasNumba: bool, r: RoundInfo, data: seq<Byte>, encrypt: bool) returns (out: Option<seq<Byte>>)
    ensures out == ApplyRound(Reference, r, data, encrypt)
  {
    if r.chunkSize == 0 {
      return None;
    } else if r.chunkSize < 0 {
      return Some([]);
    }
    var chunks := SplitChunks(data, r.chunkSize);
    var processed := ProcessChunksJit(hasNumba, r, chunks, encrypt);
    var joined := JoinChunks(processed);
    return Some(joined);
  }

  /** The loop of _apply_round_to_data_jit over the chunks. */
  method ProcessChunksJit(hasNumba: bool, r: RoundInfo, chunks: seq<seq<Byte>>, encrypt: bool) returns (processed: seq<seq<Byte>>)
    ensures processed == ProcessAll(Reference, r, chunks, encrypt)
  {
    ghost var all := ProcessAll(Reference, r, chunks, encrypt);
    processed := [];
    for k := 0 to |chunks|
      invariant processed == all[..k]
    {
      var p := ProcessSingleChunkJitCipher(hasNumba, r, chunks[k], encrypt);
      Seqs.TakeSnoc(all, k);
      processed := processed + [p];
    }
    Seqs.TakeAll(all);
  }

  /** _process_data_variable_chunks_jit: the reference padding, then the rounds in order or in reverse. */
  method ProcessDataVariableChunksJit(hasNumba: bool, rs: seq<RoundInfo>, data: seq<Byte>, encrypt: bool) returns (out: seq<Byte>)
    requires Core.Schedulable(rs)
    ensures Some(out) == ProcessData(Reference, rs, data, encrypt)
  {
    Core.SchedulableWellFormed(rs);
    var maxChunkSize := MaxChunk(rs);
    if encrypt {
      var current := Core.PadToChunk(data, maxChunkSize);
      ProcessDataRoundTrip(Reference, rs, data);
      out := RoundsForwardJit(hasNumba, rs, current);
    } else {
      out := RoundsBackwardJit(hasNumba, rs, data);
    }
  }

  /** The encryption loop over the rounds in order. */
  method RoundsForwardJit(hasNumba: bool, rs: seq<RoundInfo>, data: seq<Byte>) returns (out: seq<Byte>)
    requires EncRounds(Reference, rs, data).Some?
    ensures Some(out) == EncRounds(Reference, rs, data)
  {
    var current := data;
    for k := 0 to |rs|
      invariant EncRounds(Reference, rs[..k], data) == Some(current)
    {
      EncRoundsPrefix(Reference, rs, k + 1, data);
      assert rs[..k + 1][..k] == rs[..k];
      var next := ApplyRoundToDataJit(hasNumba, rs[k], current, true);
      current := next.value;
    }
    assert rs[..|rs|] == rs;
    out := current;
  }

  /** The decryption loop over the rounds in reverse. */
  method RoundsBackwardJit(hasNumba: bool, rs: seq<RoundInfo>, data: seq<Byte>) returns (out: seq<Byte>)
    requires forall k :: 0 <= k < |rs| ==> rs[k].chunkSize > 0
    ensures Some(out) == DecRounds(Reference, rs, data)
  {
    var current := data;
    assert rs[..|rs|] == rs;
    for k := 0 to |rs|
      invariant DecRounds(Reference, rs, data) == DecRounds(Reference, rs[..|rs| - k], current)
    {
      var i := |rs| - 1 - k;
      DecRoundsStep(Reference, rs, i, current);
      var next := ApplyRoundToDataJit(hasNumba, rs[i], current, false);
      current := next.value;
    }
    out := current;
  }

  const JitVersion: string := "faro_cipher_jit_v1.0"

  /** encrypt's result: the reference ciphertext, with the JIT version string in the metadata. */
  function JitEncryptResult(c: Core.Cipher, data: seq<Byte>): Core.Encrypted
    requires Core.Schedulable(c.structure)
  {
    Core.Encrypted(Core.EncryptData(c, data),
      Core.Metadata(JitVersion, c.profile, c.rounds, c.chunkSize, c.structure, c.fingerprint, Some(|data|), None))
  }

  /** encrypt. */
  method EncryptJit(hasNumba: bool, c: Core.Cipher, data: seq<Byte>) returns (result: Core.Encrypted)
    requires Core.Schedulable(c.structure)
    ensures result == JitEncryptResult(c, data)
  {
    var encryptedData := ProcessDataVariableChunksJit(hasNumba, c.structure, data, true);
    var metadata := Core.Metadata(JitVersion, c.profile, c.rounds, c.chunkSize, c.structure, c.fingerprint, Some(|data|), None);
    result := Core.Encrypted(encryptedData, metadata);
  }

  /** decrypt: the same checks and trimming as the reference decrypt, so the same result on every input. */
  method DecryptJit(hasNumba: bool, o: Core.Oracles, c: Core.Cipher, e: Core.Encrypted) returns (result: Result<seq<Byte>>)
    requires Core.Schedulable(c.structure)
    ensures result == Core.DecryptResult(o, c, e)
  {
    if !Utils.KeyCompatible(o.md5, c.key, e.metadata.fingerprint) {
      return Err(KeyMismatch);
    }
    var decryptedData := ProcessDataVariableChunksJit(hasNumba, c.structure, e.data, false);
    if e.metadata.originalSize.Some? && |decryptedData| > e.metadata.originalSize.value {
      decryptedData := decryptedData[..e.metadata.originalSize.value];
    }
    return Ok(decryptedData);
  }

  /** The JIT cipher writes the reference ciphertext and metadata, except for the version string. */
  lemma JitEncryptMatchesReference(c: Core.Cipher, data: seq<Byte>)
    requires Core.Schedulable(c.structure)
    ensures JitEncryptResult(c, data).data == Core.EncryptResult(c, data).data
    ensures JitEncryptResult(c, data).metadata == Core.EncryptResult(c, data).metadata.(version := JitVersion)
  {
  }

  /** Decrypting what the JIT cipher encrypted gives the data back. */
  lemma JitRoundTrip(o: Core.Oracles, c: Core.Cipher, data: seq<Byte>)
    requires Core.Consistent(o, c)
    ensures Core.DecryptResult(o, c, JitEncryptResult(c, data)) == Ok(data)
  {
    Core.CipherRoundTrip(o, c, data);
    assert Core.DecryptResult(o, c, JitEncryptResult(c, data)) == Core.DecryptResult(o, c, Core.EncryptResult(c, data));
  }
}
