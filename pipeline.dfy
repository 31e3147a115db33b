/**
 * The byte pipeline that faro_cipher/core.py runs for every round, stated
 * as functions: the per-chunk step (bits, power-of-two padding, shuffle,
 * transform, bytes), the split of a buffer into a round's chunks, the
 * padding of the whole buffer to the largest chunk size, and the order in
 * which encryption and decryption apply the rounds.
 *
 * The batched pipeline of faro_cipher/optimized.py shares everything but
 * the chunk step, which there keeps only the shuffle (Engine.ShuffleOnly).
 *
 * An exception of the source is a None result.
 */
module Pipeline {
  import opened Bits
  import opened Wrappers
  import opened ShuffleSpec
  import opened Transforms
  import opened Utils
  import opened Arith
  import Seqs

  /** One entry of the round structure: the fields the pipeline reads, plus the round's seed. */
  datatype RoundInfo = RoundInfo(
    shuffle: ShuffleKind,
    variant: int,
    steps: int,
    transform: TransformKind,
    key: int,
    seed: nat,
    chunkSize: int)

  /** The per-chunk step of the reference pipeline, or the optimized one that drops the transform's result. */
  datatype Engine = Reference | ShuffleOnly

  /** An even-length bit array shuffles without error: faro_shuffle's result. */
  function Shuffled(kind: ShuffleKind, variant: int, steps: int, bits: seq<Bit>): (s: seq<Bit>)
    requires |bits| % 2 == 0
    ensures |s| == |bits|
  {
    EvenLengthRoundTrips(kind, variant % 4, |bits|);
    FaroShuffleRoundTrip(kind, variant, steps, bits);
    FaroShuffle(kind, variant, steps, bits).value
  }

  /** inverse_faro_shuffle's result on an even-length bit array. */
  function Unshuffled(kind: ShuffleKind, variant: int, steps: int, bits: seq<Bit>): (s: seq<Bit>)
    requires |bits| % 2 == 0
    ensures |s| == |bits|
  {
    EvenLengthRoundTrips(kind, variant % 4, |bits|);
    FaroShuffleRoundTrip(kind, variant, steps, bits);
    InverseFaroShuffle(kind, variant, steps, bits).value
  }

  /** Unshuffling an even-length shuffled array gives it back. */
  lemma UnshuffleShuffled(kind: ShuffleKind, variant: int, steps: int, bits: seq<Bit>)
    requires |bits| % 2 == 0
    ensures Unshuffled(kind, variant, steps, Shuffled(kind, variant, steps, bits)) == bits
  {
    EvenLengthRoundTrips(kind, variant % 4, |bits|);
    FaroShuffleRoundTrip(kind, variant, steps, bits);
  }

  function ShuffleBits(r: RoundInfo, bits: seq<Bit>): (s: seq<Bit>)
    requires |bits| % 2 == 0
    ensures |s| == |bits|
  {
    Shuffled(r.shuffle, r.variant, r.steps, bits)
  }

  function UnshuffleBits(r: RoundInfo, bits: seq<Bit>): (s: seq<Bit>)
    requires |bits| % 2 == 0
    ensures |s| == |bits|
  {
    Unshuffled(r.shuffle, r.variant, r.steps, bits)
  }

  lemma Pow2Even(p: nat)
    requires IsPow2(p) && p >= 2
    ensures p % 2 == 0
  {
  }

  /** The bits of a nonempty chunk padded to a power of two: an even number of at least 8. */
  function PaddedBits(c: seq<Byte>): (bits: seq<Bit>)
    requires |c| > 0
    ensures |bits| == TargetLength(8 * |c|) && |bits| >= 8 && |bits| % 2 == 0
  {
    Pow2Even(TargetLength(8 * |c|));
    Padded(Unpack(c))
  }

  /** Python's slice c[:n] of a decrypted chunk that may be longer than the input chunk. */
  function TrimTo(out: seq<Byte>, n: nat): (t: seq<Byte>)
    ensures |t| == if |out| > n then n else |out|
    ensures t == out[..|t|]
  {
    if |out| > n then out[..n] else out
  }

  /**
   * _process_single_chunk: an empty chunk is returned unchanged. Encryption
   * pads the chunk's bits to a power of two, shuffles them, applies the
   * transform and packs them back; decryption applies the transform, the
   * inverse shuffle, packs and trims to the input chunk's length. The
   * ShuffleOnly engine skips the transform both ways.
   */
  function ChunkStep(e: Engine, r: RoundInfo, c: seq<Byte>, encrypt: bool): (out: seq<Byte>)
  {
    if |c| == 0 then c
    else if encrypt then
      var shuffled := ShuffleBits(r, PaddedBits(c));
      Pack(if e == Reference then Transform(r.transform, r.key, shuffled) else shuffled)
    else
      var bits := Unpack(c);
      var flipped := if e == Reference then Transform(r.transform, r.key, bits) else bits;
      assert |flipped| == 2 * (4 * |c|);
      TrimTo(Pack(UnshuffleBits(r, flipped)), |c|)
  }

  lemma Pow2Times8(n: nat)
    requires IsPow2(n)
    ensures IsPow2(8 * n)
  {
    var n2, n4 := 2 * n, 4 * n;
    Pow2Double(n);
    assert 2 * n2 == n4;
    Pow2Double(n2);
    assert 2 * n4 == 8 * n;
    Pow2Double(n4);
  }

  /**
   * A chunk whose length is a power of two keeps its length, and decrypting
   * the encrypted chunk with the same round gives it back, for both engines.
   */
  lemma ChunkRoundTrip(e: Engine, r: RoundInfo, c: seq<Byte>)
    requires IsPow2(|c|)
    ensures |ChunkStep(e, r, c, true)| == |c|
    ensures ChunkStep(e, r, ChunkStep(e, r, c, true), false) == c
  {
    var bits := Unpack(c);
    DivModUnique(|bits|, |c|, 8, 0);
    DivModUnique(|bits| + 7, |c|, 8, 7);
    Pow2Times8(|c|);
    PaddedPow2(bits);
    assert PaddedBits(c) == bits;
    var s := ShuffleBits(r, bits);
    var t := if e == Reference then Transform(r.transform, r.key, s) else s;
    var enc := Pack(t);
    assert ChunkStep(e, r, c, true) == enc;
    assert |enc| == |c|;
    UnpackPack(t);
    if e == Reference {
      TransformSelfInverse(r.transform, r.key, s);
    }
    var flipped := if e == Reference then Transform(r.transform, r.key, Unpack(enc)) else Unpack(enc);
    assert flipped == s;
    UnshuffleShuffled(r.shuffle, r.variant, r.steps, bits);
    assert UnshuffleBits(r, s) == bits;
    PackUnpack(c);
  }

  /** The consecutive pieces data[i:i + size] for i = 0, size, 2 * size, ... */
  function Split(data: seq<Byte>, size: nat): (chunks: seq<seq<Byte>>)
    requires size > 0
    ensures forall k :: 0 <= k < |chunks| ==> 0 < |chunks[k]| <= size
    decreases |data|
  {
    if |data| == 0 then []
    else if |data| <= size then [data]
    else [data[..size]] + Split(data[size..], size)
  }

  /** b''.join: the chunks one after another. */
  function Concat(chunks: seq<seq<Byte>>): (data: seq<Byte>)
  {
    if chunks == [] then [] else Concat(chunks[..|chunks| - 1]) + chunks[|chunks| - 1]
  }

  lemma {:induction false} ConcatCons(c: seq<Byte>, rest: seq<seq<Byte>>)
    ensures Concat([c] + rest) == c + Concat(rest)
    decreases |rest|
  {
    if rest == [] {
      assert [c] + rest == [c];
      assert Concat([c]) == Concat([]) + c;
    } else {
      var all, init := [c] + rest, rest[..|rest| - 1];
      assert all[..|all| - 1] == [c] + init && all[|all| - 1] == rest[|rest| - 1];
      ConcatCons(c, init);
      assert Concat(all) == (c + Concat(init)) + rest[|rest| - 1];
      assert Concat(rest) == Concat(init) + rest[|rest| - 1];
    }
  }

  /** Joining the pieces of a split gives the data back. */
  lemma {:induction false} SplitConcat(data: seq<Byte>, size: nat)
    requires size > 0
    ensures Concat(Split(data, size)) == data
    decreases |data|
  {
    if |data| == 0 {
    } else if |data| <= size {
      assert Concat([data]) == Concat([]) + data;
    } else {
      SplitConcat(data[size..], size);
      ConcatCons(data[..size], Split(data[size..], size));
    }
  }

  /** A length that is a multiple of the chunk size splits into full chunks only. */
  lemma {:induction false} SplitFull(data: seq<Byte>, size: nat)
    requires size > 0 && |data| % size == 0
    ensures forall k :: 0 <= k < |Split(data, size)| ==> |Split(data, size)[k]| == size
    decreases |data|
  {
    if |data| > size {
      MultipleMinus(|data|, size);
      SplitFull(data[size..], size);
    }
  }

  /** Full chunks join to size times their number of bytes. */
  lemma {:induction false} ConcatFullLength(chunks: seq<seq<Byte>>, size: nat)
    requires forall k :: 0 <= k < |chunks| ==> |chunks[k]| == size
    ensures |Concat(chunks)| == size * |chunks|
    decreases |chunks|
  {
    if chunks != [] {
      var init := chunks[..|chunks| - 1];
      ConcatFullLength(init, size);
      assert size * |chunks| == size * |init| + size;
    }
  }

  /** Splitting the join of full chunks gives the same chunks: the split of the next round sees the same boundaries. */
  lemma {:induction false} ConcatSplit(chunks: seq<seq<Byte>>, size: nat)
    requires size > 0
    requires forall k :: 0 <= k < |chunks| ==> |chunks[k]| == size
    ensures |Concat(chunks)| == size * |chunks|
    ensures Split(Concat(chunks), size) == chunks
    decreases |chunks|
  {
    ConcatFullLength(chunks, size);
    if chunks != [] {
      var c, rest := chunks[0], chunks[1..];
      assert chunks == [c] + rest;
      ConcatCons(c, rest);
      ConcatSplit(rest, size);
      var data := c + Concat(rest);
      if rest == [] {
        assert data == c;
      } else {
        assert |Concat(rest)| >= |rest[|rest| - 1]| == size;
        assert data[..size] == c && data[size..] == Concat(rest);
      }
    }
  }

  /** The chunk step of one engine, round and direction, as a value. */
  function ChunkFn(e: Engine, r: RoundInfo, encrypt: bool): seq<Byte> -> seq<Byte>
  {
    c => ChunkStep(e, r, c, encrypt)
  }

  /** The chunk step applied to each chunk, in order. */
  function ProcessAll(e: Engine, r: RoundInfo, chunks: seq<seq<Byte>>, encrypt: bool): (out: seq<seq<Byte>>)
    ensures |out| == |chunks|
  {
    Seqs.Map(ChunkFn(e, r, encrypt), chunks)
  }

  /**
   * _apply_round_to_data: split into the round's chunk size, process each
   * chunk, join. A chunk size of 0 makes Python's range raise ValueError; a
   * negative one gives an empty range and so empty output.
   */
  function ApplyRound(e: Engine, r: RoundInfo, data: seq<Byte>, encrypt: bool): (out: Option<seq<Byte>>)
  {
    if r.chunkSize == 0 then None
    else if r.chunkSize < 0 then Some([])
    else Some(Concat(ProcessAll(e, r, Split(data, r.chunkSize), encrypt)))
  }

  /** A round whose chunk size is a power of two dividing the data's length keeps the length and is undone by its decryption. */
  lemma ApplyRoundRoundTrip(e: Engine, r: RoundInfo, data: seq<Byte>)
    requires r.chunkSize > 0 && IsPow2(r.chunkSize) && |data| % r.chunkSize == 0
    ensures ApplyRound(e, r, data, true).Some?
    ensures |ApplyRound(e, r, data, true).value| == |data|
    ensures ApplyRound(e, r, ApplyRound(e, r, data, true).value, false) == Some(data)
  {
    var size := r.chunkSize;
    var chunks := Split(data, size);
    SplitFull(data, size);
    SplitConcat(data, size);
    var enc := ProcessAll(e, r, chunks, true);
    forall k | 0 <= k < |chunks|
      ensures |enc[k]| == size && ChunkStep(e, r, enc[k], false) == chunks[k]
    {
      ChunkRoundTrip(e, r, chunks[k]);
    }
    ConcatSplit(enc, size);
    ConcatSplit(chunks, size);
    assert ProcessAll(e, r, enc, false) == chunks;
  }

  /** Encryption applies the rounds in schedule order. */
  function EncRounds(e: Engine, rs: seq<RoundInfo>, data: seq<Byte>): Option<seq<Byte>>
    decreases |rs|
  {
    if rs == [] then Some(data)
    else match EncRounds(e, rs[..|rs| - 1], data)
      case None => None
      case Some(x) => ApplyRound(e, rs[|rs| - 1], x, true)
  }

  /** Decryption applies the rounds in reverse schedule order. */
  function DecRounds(e: Engine, rs: seq<RoundInfo>, data: seq<Byte>): Option<seq<Byte>>
    decreases |rs|
  {
    if rs == [] then Some(data)
    else match ApplyRound(e, rs[|rs| - 1], data, false)
      case None => None
      case Some(x) => DecRounds(e, rs[..|rs| - 1], x)
  }

  /** Every chunk size is a positive power of two dividing n. */
  predicate ChunksDivide(rs: seq<RoundInfo>, n: nat)
  {
    forall k :: 0 <= k < |rs| ==> rs[k].chunkSize > 0 && IsPow2(rs[k].chunkSize) && n % rs[k].chunkSize == 0
  }

  /** Decrypting the rounds in reverse undoes encrypting them in order. */
  lemma {:induction false} RoundsRoundTrip(e: Engine, rs: seq<RoundInfo>, data: seq<Byte>)
    requires ChunksDivide(rs, |data|)
    ensures EncRounds(e, rs, data).Some? && |EncRounds(e, rs, data).value| == |data|
    ensures DecRounds(e, rs, EncRounds(e, rs, data).value) == Some(data)
    decreases |rs|
  {
    if rs != [] {
      var init := rs[..|rs| - 1];
      var last := rs[|rs| - 1];
      assert ChunksDivide(init, |data|) by {
        forall k | 0 <= k < |init| ensures init[k] == rs[k] { }
      }
      RoundsRoundTrip(e, init, data);
      var x := EncRounds(e, init, data).value;
      ApplyRoundRoundTrip(e, last, x);
      var y := ApplyRound(e, last, x, true).value;
      assert EncRounds(e, rs, data) == Some(y);
      assert DecRounds(e, rs, y) == DecRounds(e, init, x);
    }
  }

  /** A schedule that encrypts without error also encrypts every prefix of itself without error. */
  lemma {:induction false} EncRoundsPrefix(e: Engine, rs: seq<RoundInfo>, k: nat, data: seq<Byte>)
    requires k <= |rs| && EncRounds(e, rs, data).Some?
    ensures EncRounds(e, rs[..k], data).Some?
    decreases |rs|
  {
    if k < |rs| {
      var init := rs[..|rs| - 1];
      assert init[..k] == rs[..k];
      EncRoundsPrefix(e, init, k, data);
    } else {
      assert rs[..k] == rs;
    }
  }

  /** Decryption never fails when every chunk size is positive. */
  lemma {:induction false} DecRoundsTotal(e: Engine, rs: seq<RoundInfo>, data: seq<Byte>)
    requires forall k :: 0 <= k < |rs| ==> rs[k].chunkSize > 0
    ensures DecRounds(e, rs, data).Some?
    decreases |rs|
  {
    if rs != [] {
      var init := rs[..|rs| - 1];
      assert forall k :: 0 <= k < |init| ==> init[k] == rs[k];
      DecRoundsTotal(e, init, ApplyRound(e, rs[|rs| - 1], data, false).value);
    }
  }

  /** Undoing the rounds up to i undoes round i, then the rounds before it. */
  lemma DecRoundsStep(e: Engine, rs: seq<RoundInfo>, i: nat, current: seq<Byte>)
    requires i < |rs| && rs[i].chunkSize > 0
    ensures ApplyRound(e, rs[i], current, false).Some?
    ensures DecRounds(e, rs[..i + 1], current) == DecRounds(e, rs[..i], ApplyRound(e, rs[i], current, false).value)
  {
    var pre := rs[..i + 1];
    assert pre[..|pre| - 1] == rs[..i] && pre[|pre| - 1] == rs[i];
  }

  /** The largest round chunk size. */
  function MaxChunk(rs: seq<RoundInfo>): (m: int)
    requires |rs| > 0
    ensures forall k :: 0 <= k < |rs| ==> rs[k].chunkSize <= m
    ensures exists k :: 0 <= k < |rs| && rs[k].chunkSize == m
    decreases |rs|
  {
    if |rs| == 1 then rs[0].chunkSize
    else
      var m := MaxChunk(rs[1..]);
      assert forall k :: 1 <= k < |rs| ==> rs[k] == rs[1..][k - 1];
      if rs[0].chunkSize > m then rs[0].chunkSize else m
  }

  /** sum(data) as an unbounded integer. */
  function ByteSum(data: seq<Byte>): nat
  {
    if data == [] then 0 else ByteSum(data[..|data| - 1]) + data[|data| - 1] as nat
  }

  /** The padding byte: the sum of the data modulo 256, or 0 for empty data. */
  function Filler(data: seq<Byte>): Byte
  {
    if |data| == 0 then 0 else (ByteSum(data) % 256) as Byte
  }

  /** (m - len % m) % m with Python's modulo, for m != 0: always 0 when m is negative. */
  function PaddingNeeded(len: nat, m: int): (p: nat)
    requires m != 0
    ensures m > 0 ==> p < m && (len + p) % m == 0
    ensures m > 0 && len % m == 0 ==> p == 0
  {
    if m < 0 then 0 else PaddingReachesMultiple(len, m); (m - len % m) % m
  }

  /** The encrypt-side buffer: the data followed by PaddingNeeded copies of the filler byte. */
  function PadData(data: seq<Byte>, m: int): (padded: seq<Byte>)
    requires m != 0
    ensures |padded| == |data| + PaddingNeeded(|data|, m) && padded[..|data|] == data
    ensures forall i :: |data| <= i < |padded| ==> padded[i] == Filler(data)
  {
    data + seq(PaddingNeeded(|data|, m), _ => Filler(data))
  }

  /**
   * _process_data_variable_chunks: max() of an empty round structure raises,
   * and so does the modulo by a largest chunk size of 0 when encrypting.
   */
  function ProcessData(e: Engine, rs: seq<RoundInfo>, data: seq<Byte>, encrypt: bool): Option<seq<Byte>>
  {
    if |rs| == 0 then None
    else if encrypt then
      if MaxChunk(rs) == 0 then None else EncRounds(e, rs, PadData(data, MaxChunk(rs)))
    else DecRounds(e, rs, data)
  }

  /** All chunk sizes are positive powers of two, as the schedule guarantees. */
  predicate WellFormed(rs: seq<RoundInfo>)
  {
    |rs| > 0 && forall k :: 0 <= k < |rs| ==> rs[k].chunkSize > 0 && IsPow2(rs[k].chunkSize)
  }

  lemma {:induction false} Pow2Divides(p: nat, q: nat)
    requires IsPow2(p) && IsPow2(q) && p <= q
    ensures q % p == 0
    decreases q
  {
    if p == 1 {
      DivModUnique(q, q, 1, 0);
    } else {
      Pow2Divides(p / 2, q / 2);
      var c := (q / 2) / (p / 2);
      DivModUnique(q / 2, c, p / 2, 0);
      assert q == c * p;
      DivModUnique(q, c, p, 0);
    }
  }

  /**
   * For a well-formed schedule, encryption yields the padded length and
   * decryption gives back the padded buffer, which starts with the data.
   */
  lemma ProcessDataRoundTrip(e: Engine, rs: seq<RoundInfo>, data: seq<Byte>)
    requires WellFormed(rs)
    ensures ProcessData(e, rs, data, true).Some?
    ensures |ProcessData(e, rs, data, true).value| == |PadData(data, MaxChunk(rs))|
    ensures ProcessData(e, rs, ProcessData(e, rs, data, true).value, false) == Some(PadData(data, MaxChunk(rs)))
  {
    var m := MaxChunk(rs);
    var padded := PadData(data, m);
    forall k | 0 <= k < |rs|
      ensures |padded| % rs[k].chunkSize == 0
    {
      assert IsPow2(m);
      Pow2Divides(rs[k].chunkSize, m);
      ModTransitive(|padded|, m, rs[k].chunkSize);
    }
    RoundsRoundTrip(e, rs, padded);
  }
}
