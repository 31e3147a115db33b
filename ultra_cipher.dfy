/**
 * UltraFaroCipher of faro_cipher/ultra_cipher.py: the byte-level pipeline of
 * faro_cipher/algorithmic_optimized.py behind the reference cipher's key,
 * schedule and metadata.
 *
 * encrypt pads the buffer with zeros to a multiple of 8 bytes and runs the
 * converted rounds over it, block by block when cache optimisation is on and
 * the buffer is longer than 64 KiB; decrypt runs them backwards and cuts the
 * result to the recorded size. The file methods read the input in pieces of
 * the caller's size and frame each piece's ciphertext as the reference file
 * layout does, but without padding the piece first.
 *
 * The unwritten bytes np.empty_like leaves in an odd-length out-shuffle are
 * the parameter `junk`, as in Algorithmic.
 */
module Ultra {
  import opened Bits
  import opened Wrappers
  import opened Algorithmic
  import Pipeline
  import Chunking
  import Framing
  import Utils
  import Core
  import JitOptimized
  import Arith
  import Seqs

  /** The state of an UltraFaroCipher: the reference cipher, the cache switch and the converted rounds. */
  datatype UltraCipher = UltraCipher(base: Core.Cipher, cacheOptimize: bool, optimizedRounds: seq<OptRound>)

  const UltraVersion: string := "faro_cipher_ultra_v1.0"

  /** Above this many bytes, with cache optimisation on, the buffer is processed block by block. */
  const CacheThreshold: nat := 64 * 1024

  /** UltraFaroCipher(key, profile, chunk_size, rounds, cache_optimize): the reference construction, then the rounds converted to codes. */
  function NewUltraCipher(o: Core.Oracles, key: seq<Byte>, profile: string, chunkSize: int, rounds: Option<int>, cacheOptimize: bool): Result<UltraCipher>
  {
    match Core.NewCipher(o, key, profile, chunkSize, rounds)
    case Err(e) => Err(e)
    case Ok(c) => Ok(UltraCipher(c, cacheOptimize, ConvertedRounds(c.structure)))
  }

  /** The ultra cipher refuses exactly what the reference cipher refuses, and otherwise runs each scheduled round under its codes. */
  lemma NewUltraCipherMatches(o: Core.Oracles, key: seq<Byte>, profile: string, chunkSize: int, rounds: Option<int>, cacheOptimize: bool)
    ensures var r := NewUltraCipher(o, key, profile, chunkSize, rounds, cacheOptimize);
      var c := Core.NewCipher(o, key, profile, chunkSize, rounds);
      && (r.Err? <==> c.Err?)
      && (r.Err? ==> r.error == c.error)
      && (r.Ok? ==> r.value.base == c.value && r.value.cacheOptimize == cacheOptimize
                    && |r.value.optimizedRounds| == |c.value.structure|
                    && forall k :: 0 <= k < |c.value.structure| ==>
                         JitOptimized.ShuffleOfCode(r.value.optimizedRounds[k].shuffleType) == c.value.structure[k].shuffle
                         && JitOptimized.TransformOfCode(r.value.optimizedRounds[k].transformType) == Some(c.value.structure[k].transform)
                         && r.value.optimizedRounds[k].key == c.value.structure[k].key)
  {
    var c := Core.NewCipher(o, key, profile, chunkSize, rounds);
    if c.Ok? {
      forall k | 0 <= k < |c.value.structure|
        ensures JitOptimized.ShuffleOfCode(ConvertedRounds(c.value.structure)[k].shuffleType) == c.value.structure[k].shuffle
        ensures JitOptimized.TransformOfCode(ConvertedRounds(c.value.structure)[k].transformType) == Some(c.value.structure[k].transform)
        ensures ConvertedRounds(c.value.structure)[k].key == c.value.structure[k].key
      {
        ConvertedRoundsDecode(c.value.structure, k);
      }
    }
  }

  /** How many zero bytes encrypt appends: none for a multiple of 8, otherwise up to the next one. */
  function PadLength(n: nat): nat
  {
    if n % 8 != 0 then 8 - n % 8 else 0
  }

  /** The buffer encrypt processes: the data followed by zeros, up to a multiple of 8. */
  function Pad8(data: seq<Byte>): (padded: seq<Byte>)
    ensures |padded| % 8 == 0 && |data| <= |padded| < |data| + 8
    ensures padded[..|data|] == data
    ensures forall i :: |data| <= i < |padded| ==> padded[i] == 0
  {
    data + seq(PadLength(|data|), _ => 0)
  }

  /** The padded length is the length rounded up to a multiple of 8. */
  lemma Pad8Length(data: seq<Byte>)
    ensures |Pad8(data)| == (|data| + 7) / 8 * 8
  {
    var n, p := |data|, |Pad8(data)|;
    Arith.DivModUnique(n + 7, p / 8, 8, n + 7 - p);
  }

  /** _process_data_ultra: an empty buffer comes back as it is; encryption pads first; large buffers go block by block when cache optimisation is on. */
  function UltraProcessed(u: UltraCipher, data: seq<Byte>, encrypt: bool, junk: Byte): (out: seq<Byte>)
  {
    if |data| == 0 then data
    else
      var d := if encrypt then Pad8(data) else data;
      if u.cacheOptimize && |d| > CacheThreshold then CacheProcessed(d, u.optimizedRounds, encrypt, junk)
      else Processed(d, u.optimizedRounds, encrypt, junk)
  }

  /** Encryption's output is the input length rounded up to a multiple of 8; decryption keeps the length. */
  lemma UltraProcessedLength(u: UltraCipher, data: seq<Byte>, junk: Byte)
    ensures |UltraProcessed(u, data, true, junk)| == (|data| + 7) / 8 * 8
    ensures |UltraProcessed(u, data, false, junk)| == |data|
  {
    Pad8Length(data);
  }

  /** Decrypting encryption's output takes the same path and gives back the padded buffer. */
  lemma UltraProcessedRoundTrip(u: UltraCipher, data: seq<Byte>, junk1: Byte, junk2: Byte)
    ensures UltraProcessed(u, UltraProcessed(u, data, true, junk1), false, junk2) == Pad8(data)
  {
    var d := Pad8(data);
    PaddedReversible(data, u.optimizedRounds);
    if |data| > 0 {
      if u.cacheOptimize && |d| > CacheThreshold {
        CacheRoundTrip(d, u.optimizedRounds, junk1, junk2);
      } else {
        ProcessRoundTrip(d, u.optimizedRounds, junk1, junk2);
      }
    }
  }

  /** A padded buffer has an even length, so every round can be undone. */
  lemma PaddedReversible(data: seq<Byte>, rounds: seq<OptRound>)
    ensures Reversible(|Pad8(data)|, rounds)
  {
    Arith.ModTransitive(|Pad8(data)|, 8, 2);
  }

  /** padded_array[:len(data_array)] = data_array. */
  method CopyPrefix(padded: array<Byte>, data: array<Byte>)
    requires padded != data && data.Length <= padded.Length
    modifies padded
    ensures padded[..] == data[..] + old(padded[data.Length..])
  {
    ghost var rest := padded[data.Length..];
    for i := 0 to data.Length
      invariant padded[..i] == data[..i] && padded[i..] == old(padded[i..])
    {
      padded[i] := data[i];
    }
    assert padded[..] == padded[..data.Length] + padded[data.Length..];
  }

  /** _process_data_ultra. */
  method ProcessDataUltra(u: UltraCipher, data: seq<Byte>, encrypt: bool, junk: Byte) returns (out: seq<Byte>)
    ensures out == UltraProcessed(u, data, encrypt, junk)
  {
    if |data| == 0 {
      return data;
    }
    var dataArray := new Byte[|data|](i requires 0 <= i < |data| => data[i]);
    if encrypt && dataArray.Length % 8 != 0 {
      var paddingNeeded := 8 - dataArray.Length % 8;
      var paddedArray := new Byte[dataArray.Length + paddingNeeded](_ => 0);
      CopyPrefix(paddedArray, dataArray);
      assert paddedArray[..] == Pad8(data);
      dataArray := paddedArray;
    }
    assert dataArray[..] == if encrypt then Pad8(data) else data;
    // Both directions choose between the two paths in the same way.
    var processedArray;
    if u.cacheOptimize && dataArray.Length > 64 * 1024 {
      processedArray := CacheOptimizedChunkProcessing(dataArray, u.optimizedRounds, encrypt, junk);
    } else {
      processedArray := AlgorithmicOptimizedProcess(dataArray, u.optimizedRounds, encrypt, junk);
    }
    out := processedArray[..];
  }

  /** encrypt's result: the processed data, with the ultra version string and the input length in the metadata. */
  function UltraEncryptResult(u: UltraCipher, data: seq<Byte>, junk: Byte): Core.Encrypted
  {
    var c := u.base;
    Core.Encrypted(UltraProcessed(u, data, true, junk),
      Core.Metadata(UltraVersion, c.profile, c.rounds, c.chunkSize, c.structure, c.fingerprint, Some(|data|), None))
  }

  /** decrypt: refuse metadata made under another key, otherwise run the rounds backwards and cut to the recorded size. */
  function UltraDecryptResult(o: Core.Oracles, u: UltraCipher, e: Core.Encrypted, junk: Byte): Result<seq<Byte>>
  {
    if !Utils.KeyCompatible(o.md5, u.base.key, e.metadata.fingerprint) then Err(KeyMismatch)
    else
      var d := UltraProcessed(u, e.data, false, junk);
      var size := e.metadata.originalSize;
      Ok(if size.Some? && |d| > size.value then d[..size.value] else d)
  }

  /** encrypt (for bytes input). */
  method EncryptUltra(u: UltraCipher, data: seq<Byte>, junk: Byte) returns (result: Core.Encrypted)
    ensures result == UltraEncryptResult(u, data, junk)
  {
    var encryptedData := ProcessDataUltra(u, data, true, junk);
    var c := u.base;
    var metadata := Core.Metadata(UltraVersion, c.profile, c.rounds, c.chunkSize, c.structure, c.fingerprint, Some(|data|), None);
    result := Core.Encrypted(encryptedData, metadata);
  }

  /** decrypt. */
  method DecryptUltra(o: Core.Oracles, u: UltraCipher, e: Core.Encrypted, junk: Byte) returns (result: Result<seq<Byte>>)
    ensures result == UltraDecryptResult(o, u, e, junk)
  {
    if !Utils.KeyCompatible(o.md5, u.base.key, e.metadata.fingerprint) {
      return Err(KeyMismatch);
    }
    var decryptedData := ProcessDataUltra(u, e.data, false, junk);
    if e.metadata.originalSize.Some? && |decryptedData| > e.metadata.originalSize.value {
      decryptedData := decryptedData[..e.metadata.originalSize.value];
    }
    return Ok(decryptedData);
  }

  /** decrypt(encrypt(d)) == d under the same key, whatever the unwritten bytes are: the padded length is even. */
  lemma UltraRoundTrip(o: Core.Oracles, u: UltraCipher, data: seq<Byte>, junk1: Byte, junk2: Byte)
    requires u.base.fingerprint == Utils.Fingerprint(o.md5, u.base.key)
    ensures UltraDecryptResult(o, u, UltraEncryptResult(u, data, junk1), junk2) == Ok(data)
  {
    UltraProcessedRoundTrip(u, data, junk1, junk2);
    var d := Pad8(data);
    if |d| == |data| {
      assert d == d[..|data|];
    }
  }

  /** Metadata made by an ultra cipher under another key is refused exactly when the two keys' MD5 digests differ in their first eight bytes. */
  lemma UltraWrongKeyRefused(o: Core.Oracles, u1: UltraCipher, u2: UltraCipher, data: seq<Byte>, junk1: Byte, junk2: Byte)
    requires u1.base.fingerprint == Utils.Fingerprint(o.md5, u1.base.key)
    ensures UltraDecryptResult(o, u2, UltraEncryptResult(u1, data, junk1), junk2) == Err(KeyMismatch)
      <==> o.md5(u1.base.key)[..8] != o.md5(u2.base.key)[..8]
  {
    Utils.FingerprintMatches(o.md5, u1.base.key, u2.base.key);
  }

  /** infile.read(n) at the start of data: everything for a negative n, otherwise at most n bytes. */
  function Read(data: seq<Byte>, n: int): (r: seq<Byte>)
    ensures |r| <= |data| && r == data[..|r|]
    ensures |r| == 0 <==> n == 0 || |data| == 0
    ensures n > 0 ==> |r| <= n
  {
    if n < 0 then data else data[..Chunking.MinNat(n, |data|)]
  }

  /** The pieces encrypt_file_ultra's loop reads, until a read returns nothing. */
  function ReadBlocks(data: seq<Byte>, n: int): (blocks: seq<seq<Byte>>)
    ensures forall k :: 0 <= k < |blocks| ==> 0 < |blocks[k]| <= |data| && (n > 0 ==> |blocks[k]| <= n)
    decreases |data|
  {
    var block := Read(data, n);
    if |block| == 0 then [] else [block] + ReadBlocks(data[|block|..], n)
  }

  /** For a size other than 0 the pieces read join back into the input. */
  lemma {:induction false} ReadBlocksConcat(data: seq<Byte>, n: int)
    requires n != 0
    ensures Pipeline.Concat(ReadBlocks(data, n)) == data
    decreases |data|
  {
    var block := Read(data, n);
    if |block| > 0 {
      var rest := data[|block|..];
      assert data == block + rest;
      var later := ReadBlocks(rest, n);
      assert ReadBlocks(data, n) == [block] + later;
      ReadBlocksConcat(rest, n);
      Pipeline.ConcatCons(block, later);
    } else {
      assert data == [];
    }
  }

  /** With a piece size and an input length both even (or no out-shuffle round), every piece can be decrypted back. */
  lemma {:induction false} ReadBlocksReversible(data: seq<Byte>, n: int, rounds: seq<OptRound>)
    requires n < 0 || Reversible(n, rounds)
    requires Reversible(|data|, rounds)
    ensures forall k :: 0 <= k < |ReadBlocks(data, n)| ==> Reversible(|ReadBlocks(data, n)[k]|, rounds)
    decreases |data|
  {
    var block := Read(data, n);
    if |block| > 0 {
      var rest := data[|block|..];
      assert Reversible(|rest|, rounds) by {
        if |data| % 2 == 0 && n >= 0 && n % 2 == 0 && n < |data| {
          assert |rest| == |data| - n;
        }
      }
      ReadBlocksReversible(rest, n, rounds);
      assert ReadBlocks(data, n) == [block] + ReadBlocks(rest, n);
    }
  }

  /** The ciphertext of each piece: the piece through the rounds, not padded. */
  function FileBodies(u: UltraCipher, blocks: seq<seq<Byte>>, junk: Byte): (bodies: seq<seq<Byte>>)
    ensures |bodies| == |blocks| && forall k :: 0 <= k < |blocks| ==> |bodies[k]| == |blocks[k]|
  {
    seq(|blocks|, k requires 0 <= k < |blocks| => Processed(blocks[k], u.optimizedRounds, true, junk))
  }

  /** Every piece read is shorter than 2^32 bytes, so its length fits the 4-byte record header: a positive piece size below that, or a short input. */
  predicate PiecesFit(input: seq<Byte>, chunkSize: int)
  {
    0 < chunkSize < Framing.Two32 || |input| < Framing.Two32
  }

  /** encrypt_file_ultra's output file: a record per piece. */
  function UltraEncryptedFile(u: UltraCipher, input: seq<Byte>, chunkSize: int, junk: Byte): seq<Byte>
    requires PiecesFit(input, chunkSize)
  {
    Framing.Frame(FileBodies(u, ReadBlocks(input, chunkSize), junk))
  }

  /** encrypt_file_ultra's metadata: the piece size it was given and each piece's length, no original size. */
  function UltraFileMetadata(u: UltraCipher, input: seq<Byte>, chunkSize: int): Core.Metadata
  {
    var c := u.base;
    Core.Metadata(UltraVersion, c.profile, c.rounds, chunkSize, c.structure, c.fingerprint, None,
                  Some(Core.BlockSizes(ReadBlocks(input, chunkSize))))
  }

  /** When the pieces fit, their records can all be framed, and none is empty. */
  lemma FileBodiesFramable(u: UltraCipher, input: seq<Byte>, chunkSize: int, junk: Byte)
    requires PiecesFit(input, chunkSize)
    ensures var bodies := FileBodies(u, ReadBlocks(input, chunkSize), junk);
      Framing.Framable(bodies) && forall k :: 0 <= k < |bodies| ==> |bodies[k]| > 0
  {
    var blocks := ReadBlocks(input, chunkSize);
    var bodies := FileBodies(u, blocks, junk);
    forall k | 0 <= k < |bodies|
      ensures 0 < |bodies[k]| < Framing.Two32
    {
      assert |bodies[k]| == |blocks[k]|;
    }
  }

  lemma FileBodiesSnoc(u: UltraCipher, blocks: seq<seq<Byte>>, block: seq<Byte>, junk: Byte)
    ensures FileBodies(u, blocks + [block], junk) == FileBodies(u, blocks, junk) + [Processed(block, u.optimizedRounds, true, junk)]
  {
  }

  /** The pieces read before pos: the pieces of the input are those followed by the pieces of the rest. */
  ghost predicate ReadBefore(input: seq<Byte>, chunkSize: int, pos: nat, blocks: seq<seq<Byte>>)
  {
    && pos <= |input|
    && ReadBlocks(input, chunkSize) == blocks + ReadBlocks(input[pos..], chunkSize)
    && (forall k :: 0 <= k < |blocks| ==> |blocks[k]| <= |input|)
  }

  /** What encrypt_file_ultra has written for the pieces read so far: their records and their lengths. */
  ghost predicate WrittenFor(u: UltraCipher, junk: Byte, blocks: seq<seq<Byte>>, output: seq<Byte>, chunkSizes: seq<nat>)
  {
    && Framing.Framable(FileBodies(u, blocks, junk))
    && output == Framing.Frame(FileBodies(u, blocks, junk))
    && chunkSizes == Core.BlockSizes(blocks)
  }

  lemma ReadBeforeStep(input: seq<Byte>, chunkSize: int, pos: nat, blocks: seq<seq<Byte>>, block: seq<Byte>, pos': nat, blocks': seq<seq<Byte>>)
    requires ReadBefore(input, chunkSize, pos, blocks)
    requires block == Read(input[pos..], chunkSize) && |block| > 0
    requires pos' == pos + |block| && blocks' == blocks + [block]
    ensures pos < pos' && ReadBefore(input, chunkSize, pos', blocks')
  {
    var rest := input[pos..];
    assert rest[|block|..] == input[pos'..];
    var later := ReadBlocks(input[pos'..], chunkSize);
    assert ReadBlocks(rest, chunkSize) == [block] + later;
    Seqs.ConcatAssoc(blocks, [block], later);
    forall k | 0 <= k < |blocks'|
      ensures |blocks'[k]| <= |input|
    {
      if k < |blocks| {
        assert blocks'[k] == blocks[k];
      }
    }
  }

  lemma WrittenForStep(u: UltraCipher, junk: Byte, blocks: seq<seq<Byte>>, output: seq<Byte>, chunkSizes: seq<nat>,
                       block: seq<Byte>, enc: seq<Byte>, blocks': seq<seq<Byte>>, output': seq<Byte>, chunkSizes': seq<nat>)
    requires WrittenFor(u, junk, blocks, output, chunkSizes)
    requires enc == Processed(block, u.optimizedRounds, true, junk) && |enc| < Framing.Two32
    requires blocks' == blocks + [block] && chunkSizes' == chunkSizes + [|block|] && output' == output + Framing.Be4(|enc|) + enc
    ensures WrittenFor(u, junk, blocks', output', chunkSizes')
  {
    FileBodiesSnoc(u, blocks, block, junk);
    Framing.FrameSnoc(FileBodies(u, blocks, junk), enc);
    Core.BlockSizesSnoc(blocks, block);
  }

  /** One piece of encrypt_file_ultra: copied into a fresh buffer and run forwards through the optimized rounds. */
  method EncryptPiece(u: UltraCipher, piece: seq<Byte>, junk: Byte) returns (enc: seq<Byte>)
    ensures enc == Processed(piece, u.optimizedRounds, true, junk)
  {
    var buffer := new Byte[|piece|](i requires 0 <= i < |piece| => piece[i]);
    assert buffer[..] == piece;
    var encrypted := AlgorithmicOptimizedProcess(buffer, u.optimizedRounds, true, junk);
    enc := encrypted[..];
  }

  /** encrypt_file_ultra over the input file's bytes, read chunkSize bytes at a time. */
  method EncryptFileUltra(u: UltraCipher, input: seq<Byte>, chunkSize: int, junk: Byte) returns (output: seq<Byte>, metadata: Core.Metadata)
    requires PiecesFit(input, chunkSize)
    ensures output == UltraEncryptedFile(u, input, chunkSize, junk) && metadata == UltraFileMetadata(u, input, chunkSize)
  {
    var chunkSizes: seq<nat> := [];
    output := [];
    ghost var blocks: seq<seq<Byte>> := [];
    var pos := 0;
    while true
      invariant ReadBefore(input, chunkSize, pos, blocks)
      invariant WrittenFor(u, junk, blocks, output, chunkSizes)
      decreases |input| - pos
    {
      var dataChunk := Read(input[pos..], chunkSize);
      if |dataChunk| == 0 {
        break;
      }
      var encryptedChunk := EncryptPiece(u, dataChunk, junk);
      ghost var pos0, blocks0, output0, sizes0 := pos, blocks, output, chunkSizes;
      chunkSizes := chunkSizes + [|dataChunk|];
      output := output + Framing.Be4(|encryptedChunk|) + encryptedChunk;
      blocks := blocks + [dataChunk];
      pos := pos + |dataChunk|;
      ReadBeforeStep(input, chunkSize, pos0, blocks0, dataChunk, pos, blocks);
      WrittenForStep(u, junk, blocks0, output0, sizes0, dataChunk, encryptedChunk, blocks, output, chunkSizes);
    }
    assert ReadBlocks(input[pos..], chunkSize) == [];
    assert blocks + [] == blocks;
    var c := u.base;
    metadata := Core.Metadata(UltraVersion, c.profile, c.rounds, chunkSize, c.structure, c.fingerprint, None, Some(chunkSizes));
  }

  /** Each record read back: run backwards, then cut to the size the metadata lists for it. */
  function DecryptedBodies(u: UltraCipher, bodies: seq<seq<Byte>>, sizes: seq<nat>, junk: Byte): (out: seq<seq<Byte>>)
    requires |bodies| <= |sizes|
    ensures |out| == |bodies|
  {
    seq(|bodies|, k requires 0 <= k < |bodies| => Pipeline.TrimTo(Processed(bodies[k], u.optimizedRounds, false, junk), sizes[k]))
  }

  /**
   * decrypt_file_ultra: KeyMismatch (raised before its try block) for another
   * key; false for metadata without chunk sizes (iterating None raises inside
   * the try block, which returns False); otherwise true, with the records
   * read leniently, one per listed size.
   */
  function UltraDecryptFileResult(o: Core.Oracles, u: UltraCipher, file: seq<Byte>, metadata: Core.Metadata, junk: Byte): Result<(bool, seq<Byte>)>
  {
    if !Utils.KeyCompatible(o.md5, u.base.key, metadata.fingerprint) then Err(KeyMismatch)
    else if metadata.chunkSizes.None? then Ok((false, []))
    else
      var sizes := metadata.chunkSizes.value;
      Ok((true, Pipeline.Concat(DecryptedBodies(u, Framing.UnframeLenient(file, |sizes|), sizes, junk))))
  }

  /** The records decrypt_file_ultra has read: the first idx records of the lenient reading, ending before pos. */
  ghost predicate ReadUpTo(file: seq<Byte>, count: nat, idx: nat, pos: nat, bodies: seq<seq<Byte>>)
  {
    && idx <= count && pos <= |file| && |bodies| == idx
    && Framing.UnframeLenient(file, count) == bodies + Framing.UnframeLenient(file[pos..], count - idx)
  }

  /** The lenient reading at pos reads a record whose header read (up to 4 bytes) and body read (up to the length it gives) are non-empty. */
  lemma UnframeLenientAt(file: seq<Byte>, pos: nat, count: nat, header: seq<Byte>, body: seq<Byte>, next: nat)
    requires count > 0 && pos <= |file|
    requires header == Read(file[pos..], 4) && |header| > 0
    requires body == Read(file[pos + |header|..], Framing.FromBe(header)) && |body| > 0
    requires next == pos + |header| + |body|
    ensures next <= |file|
    ensures Framing.UnframeLenient(file[pos..], count) == [body] + Framing.UnframeLenient(file[next..], count - 1)
  {
    var rest := file[pos..];
    assert rest[|header|..] == file[pos + |header|..];
    assert rest[|header|..][|body|..] == file[next..];
  }

  /** The lenient reading at pos stops when the header read or the body read comes back empty. */
  lemma UnframeLenientStops(file: seq<Byte>, pos: nat, count: nat, header: seq<Byte>)
    requires pos <= |file|
    requires header == Read(file[pos..], 4)
    requires |header| == 0 || |Read(file[pos + |header|..], Framing.FromBe(header))| == 0
    ensures Framing.UnframeLenient(file[pos..], count) == []
  {
    var rest := file[pos..];
    if |header| > 0 {
      assert rest[|header|..] == file[pos + |header|..];
    }
  }

  lemma ReadUpToShift(file: seq<Byte>, count: nat, idx: nat, pos: nat, bodies: seq<seq<Byte>>, body: seq<Byte>, idx': nat, pos': nat)
    requires ReadUpTo(file, count, idx, pos, bodies) && idx < count && idx' == idx + 1 && pos' <= |file|
    requires Framing.UnframeLenient(file[pos..], count - idx) == [body] + Framing.UnframeLenient(file[pos'..], count - idx - 1)
    ensures ReadUpTo(file, count, idx', pos', bodies + [body])
  {
    Framing.UnframeLenientSame(file[pos'..], file[pos'..], count - idx - 1, count - idx');
    Seqs.ShiftHead(Framing.UnframeLenient(file, count), bodies, Framing.UnframeLenient(file[pos..], count - idx), body,
                   Framing.UnframeLenient(file[pos'..], count - idx'));
  }

  lemma ReadUpToStep(file: seq<Byte>, count: nat, idx: nat, pos: nat, bodies: seq<seq<Byte>>, header: seq<Byte>, body: seq<Byte>,
                     idx': nat, pos': nat, bodies': seq<seq<Byte>>)
    requires ReadUpTo(file, count, idx, pos, bodies) && idx < count
    requires header == Read(file[pos..], 4) && |header| > 0
    requires pos + |header| <= |file| && body == Read(file[pos + |header|..], Framing.FromBe(header)) && |body| > 0
    requires idx' == idx + 1 && pos' == pos + |header| + |body| && bodies' == bodies + [body]
    ensures ReadUpTo(file, count, idx', pos', bodies')
  {
    UnframeLenientAt(file, pos, count - idx, header, body, pos');
    ReadUpToShift(file, count, idx, pos, bodies, body, idx', pos');
  }

  lemma ReadUpToStop(file: seq<Byte>, count: nat, idx: nat, pos: nat, bodies: seq<seq<Byte>>, header: seq<Byte>)
    requires ReadUpTo(file, count, idx, pos, bodies)
    requires header == Read(file[pos..], 4)
    requires idx == count || |header| == 0 || |Read(file[pos + |header|..], Framing.FromBe(header))| == 0
    ensures bodies == Framing.UnframeLenient(file, count)
  {
    if idx < count {
      UnframeLenientStops(file, pos, count - idx, header);
    }
    assert bodies + [] == bodies;
  }

  lemma DecryptedBodiesSnoc(u: UltraCipher, bodies: seq<seq<Byte>>, body: seq<Byte>, sizes: seq<nat>, junk: Byte)
    requires |bodies| < |sizes|
    ensures Pipeline.Concat(DecryptedBodies(u, bodies + [body], sizes, junk))
      == Pipeline.Concat(DecryptedBodies(u, bodies, sizes, junk)) + Pipeline.TrimTo(Processed(body, u.optimizedRounds, false, junk), sizes[|bodies|])
  {
    var all := DecryptedBodies(u, bodies + [body], sizes, junk);
    assert all[..|all| - 1] == DecryptedBodies(u, bodies, sizes, junk);
  }

  /** One record of decrypt_file_ultra: the body run backwards through the rounds, then cut to its recorded size. */
  method DecryptRecordUltra(u: UltraCipher, encryptedChunk: seq<Byte>, expectedSize: nat, junk: Byte) returns (decryptedChunk: seq<Byte>)
    ensures decryptedChunk == Pipeline.TrimTo(Processed(encryptedChunk, u.optimizedRounds, false, junk), expectedSize)
  {
    var chunkArray := new Byte[|encryptedChunk|](i requires 0 <= i < |encryptedChunk| => encryptedChunk[i]);
    assert chunkArray[..] == encryptedChunk;
    var decryptedArray := AlgorithmicOptimizedProcess(chunkArray, u.optimizedRounds, false, junk);
    decryptedChunk := decryptedArray[..];
    if |decryptedChunk| > expectedSize {
      decryptedChunk := decryptedChunk[..expectedSize];
    }
  }

  /** decrypt_file_ultra over the encrypted file's bytes; the flag it returns and the bytes it writes. */
  method DecryptFileUltra(o: Core.Oracles, u: UltraCipher, file: seq<Byte>, metadata: Core.Metadata, junk: Byte) returns (result: Result<(bool, seq<Byte>)>)
    ensures result == UltraDecryptFileResult(o, u, file, metadata, junk)
  {
    if !Utils.KeyCompatible(o.md5, u.base.key, metadata.fingerprint) {
      return Err(KeyMismatch);
    }
    if metadata.chunkSizes.None? {
      return Ok((false, []));
    }
    var sizes := metadata.chunkSizes.value;
    var output: seq<Byte> := [];
    ghost var bodies: seq<seq<Byte>> := [];
    var pos: nat := 0;
    var idx: nat := 0;
    while idx < |sizes|
      invariant ReadUpTo(file, |sizes|, idx, pos, bodies)
      invariant output == Pipeline.Concat(DecryptedBodies(u, bodies, sizes, junk))
      decreases |sizes| - idx
    {
      var expectedSize := sizes[idx];
      var sizeBytes := Read(file[pos..], 4);
      if |sizeBytes| == 0 {
        break;
      }
      var chunkLen := Framing.FromBe(sizeBytes);
      var encryptedChunk := Read(file[pos + |sizeBytes|..], chunkLen);
      if |encryptedChunk| == 0 {
        break;
      }
      var decryptedChunk := DecryptRecordUltra(u, encryptedChunk, expectedSize, junk);
      DecryptedBodiesSnoc(u, bodies, encryptedChunk, sizes, junk);
      output := output + decryptedChunk;
      ghost var idx0, pos0, bodies0 := idx, pos, bodies;
      bodies := bodies + [encryptedChunk];
      pos := pos + |sizeBytes| + |encryptedChunk|;
      idx := idx + 1;
      ReadUpToStep(file, |sizes|, idx0, pos0, bodies0, sizeBytes, encryptedChunk, idx, pos, bodies);
    }
    ReadUpToStop(file, |sizes|, idx, pos, bodies, Read(file[pos..], 4));
    return Ok((true, output));
  }

  /** Decrypting the encrypted pieces, each trimmed to its own length, gives the pieces back. */
  lemma DecryptedBodiesRoundTrip(u: UltraCipher, blocks: seq<seq<Byte>>, junk1: Byte, junk2: Byte)
    requires forall k :: 0 <= k < |blocks| ==> Reversible(|blocks[k]|, u.optimizedRounds)
    ensures DecryptedBodies(u, FileBodies(u, blocks, junk1), Core.BlockSizes(blocks), junk2) == blocks
  {
    var out := DecryptedBodies(u, FileBodies(u, blocks, junk1), Core.BlockSizes(blocks), junk2);
    forall k | 0 <= k < |blocks|
      ensures out[k] == blocks[k]
    {
      ProcessRoundTrip(blocks[k], u.optimizedRounds, junk1, junk2);
    }
  }

  /**
   * Decrypting the file encrypt_file_ultra wrote, with its metadata, writes
   * the input back when every piece can be reversed: the piece size and the
   * input length both even, or no out-shuffle round.
   */
  lemma UltraFileRoundTrip(o: Core.Oracles, u: UltraCipher, input: seq<Byte>, chunkSize: int, junk1: Byte, junk2: Byte)
    requires u.base.fingerprint == Utils.Fingerprint(o.md5, u.base.key)
    requires PiecesFit(input, chunkSize) && chunkSize != 0
    requires chunkSize < 0 || Reversible(chunkSize, u.optimizedRounds)
    requires Reversible(|input|, u.optimizedRounds)
    ensures UltraDecryptFileResult(o, u, UltraEncryptedFile(u, input, chunkSize, junk1), UltraFileMetadata(u, input, chunkSize), junk2)
      == Ok((true, input))
  {
    var blocks := ReadBlocks(input, chunkSize);
    ReadBlocksConcat(input, chunkSize);
    ReadBlocksReversible(input, chunkSize, u.optimizedRounds);
    var bodies := FileBodies(u, blocks, junk1);
    var sizes := Core.BlockSizes(blocks);
    FileBodiesFramable(u, input, chunkSize, junk1);
    Framing.UnframeLenientFrame(bodies);
    assert Framing.UnframeLenient(UltraEncryptedFile(u, input, chunkSize, junk1), |sizes|) == bodies;
    DecryptedBodiesRoundTrip(u, blocks, junk1, junk2);
    assert UltraFileMetadata(u, input, chunkSize).chunkSizes == Some(sizes);
  }

  /** An out-shuffle round with the invert transform and key 1001, a key the schedule can draw: it flips every third byte from the second. */
  const OutInvert: OptRound := OptRound(2, 4, 1001)

  /** As written, the three-byte piece [0, 0, b] through OutInvert and back ends in the inverse shuffle's unwritten byte instead of b. */
  lemma OddPieceLoses(b: Byte, junk1: Byte, junk2: Byte)
    ensures Processed(Processed([0, 0, b], [OutInvert], true, junk1), [OutInvert], false, junk2) == [0, 0, junk2]
  {
    var t := ByteTransformed([0, 0, b], 4, 1001);
    assert t == [0, 0xFF, b] by {
      assert !ByteFlips(4, 1001, 0) && ByteFlips(4, 1001, 1) && !ByteFlips(4, 1001, 2);
    }
    var s := ByteShuffled(t, 2, junk1);
    assert [OutInvert][1..] == [];
    assert RunRounds([0, 0, b], [OutInvert], true, junk1) == RunRounds(s, [], true, junk1);
    assert Reversed([OutInvert]) == [OutInvert];
    ByteShuffleUndoesBody(t, 2, junk1, junk2);
    ByteShuffleOddTail(t, 2, junk1, junk2);
    var back := ByteUnshuffled(s, 2, junk2);
    assert back == [0, 0xFF, junk2];
    var plain := ByteTransformed(back, 4, 1001);
    assert plain == [0, 0, junk2] by {
      assert !ByteFlips(4, 1001, 0) && ByteFlips(4, 1001, 1) && !ByteFlips(4, 1001, 2);
    }
    assert RunRounds(s, [OutInvert], false, junk2) == RunRounds(plain, [], false, junk2);
  }

  /** A file read as one piece decrypts to that piece through the rounds and back, trimmed to its length. */
  lemma OnePieceFile(o: Core.Oracles, u: UltraCipher, input: seq<Byte>, junk1: Byte, junk2: Byte)
    requires u.base.fingerprint == Utils.Fingerprint(o.md5, u.base.key)
    requires 0 < |input| < Framing.Two32
    ensures UltraDecryptFileResult(o, u, UltraEncryptedFile(u, input, |input|, junk1), UltraFileMetadata(u, input, |input|), junk2)
      == Ok((true, Pipeline.TrimTo(Processed(Processed(input, u.optimizedRounds, true, junk1), u.optimizedRounds, false, junk2), |input|)))
  {
    var blocks := ReadBlocks(input, |input|);
    assert blocks == [input] by {
      var block := Read(input, |input|);
      assert block == input;
      assert input[|block|..] == [];
      assert ReadBlocks(input[|block|..], |input|) == [];
    }
    var sizes := Core.BlockSizes(blocks);
    var bodies := FileBodies(u, blocks, junk1);
    assert Framing.UnframeLenient(Framing.Frame(bodies), |sizes|) == bodies by {
      assert |sizes| == |bodies| == 1 && |bodies[0]| == |input|;
      Framing.UnframeLenientFrame(bodies);
    }
    var back := Pipeline.TrimTo(Processed(bodies[0], u.optimizedRounds, false, junk2), |input|);
    assert Pipeline.Concat(DecryptedBodies(u, bodies, sizes, junk2)) == back by {
      var out := DecryptedBodies(u, bodies, sizes, junk2);
      assert out == [back];
      assert Pipeline.Concat(out) == Pipeline.Concat([]) + back;
    }
  }

  /**
   * As written, a file of the three bytes [0, 0, b] read in pieces of 3 with
   * the single round OutInvert decrypts to [0, 0, junk2]: the last byte is
   * lost whenever the inverse shuffle's unwritten byte is not b.
   */
  lemma FileOddPieceLoses(o: Core.Oracles, u: UltraCipher, b: Byte, junk1: Byte, junk2: Byte)
    requires u.base.fingerprint == Utils.Fingerprint(o.md5, u.base.key)
    requires u.optimizedRounds == [OutInvert]
    ensures UltraDecryptFileResult(o, u, UltraEncryptedFile(u, [0, 0, b], 3, junk1), UltraFileMetadata(u, [0, 0, b], 3), junk2)
      == Ok((true, [0, 0, junk2]))
  {
    OnePieceFile(o, u, [0, 0, b], junk1, junk2);
    OddPieceLoses(b, junk1, junk2);
  }

  /** The pieces as evidently intended: each padded to a multiple of 8 before the rounds, as _process_data_ultra does. */
  function FixedFileBodies(u: UltraCipher, blocks: seq<seq<Byte>>, junk: Byte): (bodies: seq<seq<Byte>>)
    ensures |bodies| == |blocks|
    ensures forall k :: 0 <= k < |blocks| ==> |bodies[k]| == |Pad8(blocks[k])| && |bodies[k]| % 8 == 0
  {
    seq(|blocks|, k requires 0 <= k < |blocks| => Processed(Pad8(blocks[k]), u.optimizedRounds, true, junk))
  }

  /** The encrypted file as evidently intended: a record per padded piece. */
  function FixedEncryptedFile(u: UltraCipher, input: seq<Byte>, chunkSize: int, junk: Byte): seq<Byte>
    requires |input| + 8 <= Framing.Two32
  {
    var blocks := ReadBlocks(input, chunkSize);
    assert Framing.Framable(FixedFileBodies(u, blocks, junk)) by {
      forall k | 0 <= k < |blocks|
        ensures |FixedFileBodies(u, blocks, junk)[k]| < Framing.Two32
      {
        assert |Pad8(blocks[k])| < |blocks[k]| + 8;
      }
    }
    Framing.Frame(FixedFileBodies(u, blocks, junk))
  }

  /** Each padded piece decrypts and trims back to the piece, for every length and every rounds. */
  lemma FixedBodiesRoundTrip(u: UltraCipher, blocks: seq<seq<Byte>>, junk1: Byte, junk2: Byte)
    ensures DecryptedBodies(u, FixedFileBodies(u, blocks, junk1), Core.BlockSizes(blocks), junk2) == blocks
  {
    var out := DecryptedBodies(u, FixedFileBodies(u, blocks, junk1), Core.BlockSizes(blocks), junk2);
    forall k | 0 <= k < |blocks|
      ensures out[k] == blocks[k]
    {
      PaddedPieceRoundTrip(u, blocks[k], junk1, junk2);
    }
  }

  /** One padded piece decrypts to the padded buffer, which trims back to the piece. */
  lemma PaddedPieceRoundTrip(u: UltraCipher, block: seq<Byte>, junk1: Byte, junk2: Byte)
    ensures Pipeline.TrimTo(Processed(Processed(Pad8(block), u.optimizedRounds, true, junk1), u.optimizedRounds, false, junk2), |block|) == block
  {
    PaddedReversible(block, u.optimizedRounds);
    ProcessRoundTrip(Pad8(block), u.optimizedRounds, junk1, junk2);
  }

  /** With the pieces padded, decrypt_file_ultra gives every input back, whatever its length, the piece size and the rounds. */
  lemma FixedFileRoundTrip(o: Core.Oracles, u: UltraCipher, input: seq<Byte>, chunkSize: int, junk1: Byte, junk2: Byte)
    requires u.base.fingerprint == Utils.Fingerprint(o.md5, u.base.key)
    requires |input| + 8 <= Framing.Two32 && chunkSize != 0
    ensures UltraDecryptFileResult(o, u, FixedEncryptedFile(u, input, chunkSize, junk1), UltraFileMetadata(u, input, chunkSize), junk2)
      == Ok((true, input))
  {
    var blocks := ReadBlocks(input, chunkSize);
    ReadBlocksConcat(input, chunkSize);
    var bodies := FixedFileBodies(u, blocks, junk1);
    forall k | 0 <= k < |blocks|
      ensures |bodies[k]| > 0
    {
      assert |Pad8(blocks[k])| >= |blocks[k]|;
    }
    Framing.UnframeLenientFrame(bodies);
    FixedBodiesRoundTrip(u, blocks, junk1, junk2);
  }
}
