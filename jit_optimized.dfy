/**
 * The numba kernels of faro_cipher/jit_optimized.py: bytes to bits and
 * back, power-of-two padding, the transforms and shuffles selected by
 * integer codes, and the per-chunk step built from them.
 *
 * The kernels repeat the slice assignments and index loops of shuffles.py
 * and transforms.py, so each is proved to compute the reference function
 * (Unpack, Pack, Padded, Transform, FaroShuffle); the one kernel that
 * orders its slice assignments differently (the inverse cut, variant 1)
 * has a step of its own.
 */
module JitOptimized {
  import opened Bits
  import opened Wrappers
  import opened ShuffleSpec
  import opened Transforms
  import opened Utils
  import opened Pipeline
  import Shuffles
  import Arith

  lemma Times8(n: nat)
    ensures (8 * n) % 8 == 0 && (8 * n) % 2 == 0 && (8 * n + 7) / 8 == n
  {
    Arith.DivModUnique(8 * n, n, 8, 0);
    Arith.DivModUnique(8 * n, 4 * n, 2, 0);
    Arith.DivModUnique(8 * n + 7, n, 8, 7);
  }

  lemma DivMod8(i: nat, j: nat)
    requires j < 8
    ensures (8 * i + j) / 8 == i && (8 * i + j) % 8 == j
  {
    Arith.DivModUnique(8 * i + j, i, 8, j);
  }

  /** bytes_to_bits_jit: eight bits per byte, most significant first. */
  method BytesToBitsJit(data: seq<Byte>) returns (bits: seq<Bit>)
    ensures bits == Unpack(data)
    ensures |bits| == 8 * |data|
  {
    var nBytes := |data|;
    var a := new Bit[nBytes * 8](_ => 0);
    for i := 0 to nBytes
      invariant forall k :: 0 <= k < 8 * i ==> a[k] == BitAt(data[k / 8], k % 8)
    {
      var byteVal := data[i];
      for j := 0 to 8
        invariant forall k :: 0 <= k < 8 * i + j ==> a[k] == BitAt(data[k / 8], k % 8)
      {
        DivMod8(i, j);
        a[i * 8 + j] := (byteVal >> (7 - j)) & 1;
      }
    }
    bits := a[..];
  }

  /** The byte bits_to_bytes_jit has built after the first j bits of the byte starting at `start`. */
  function PartialByte(bits: seq<Bit>, start: nat, j: nat): Byte
    requires j <= 8 && start + j <= |bits|
  {
    if j == 0 then 0
    else PartialByte(bits, start, j - 1) | (if bits[start + j - 1] != 0 then Mask(j - 1) else 0)
  }

  /** The byte with only bit j set, counting from the most significant. */
  function Mask(j: nat): Byte
    requires j < 8
  {
    if j == 0 then 0x80 else if j == 1 then 0x40 else if j == 2 then 0x20 else if j == 3 then 0x10
    else if j == 4 then 0x08 else if j == 5 then 0x04 else if j == 6 then 0x02 else 0x01
  }

  lemma MaskIsShift(j: nat)
    requires j < 8
    ensures (1 as Byte) << (7 - j) == Mask(j)
  {
    if j == 0 {
    } else if j == 1 {
    } else if j == 2 {
    } else if j == 3 {
    } else if j == 4 {
    } else if j == 5 {
    } else if j == 6 {
    }
  }

  /** Eight bits of a zero-padded array pack to the byte np.packbits makes of the original bits. */
  lemma PartialByteFull(bits: seq<Bit>, padded: seq<Bit>, start: nat)
    requires |bits| <= |padded| && padded[..|bits|] == bits && start + 8 <= |padded|
    requires forall k :: |bits| <= k < |padded| ==> padded[k] == 0
    ensures PartialByte(padded, start, 8) == PackByte(bits, start)
  {
    forall k | start <= k < start + 8
      ensures padded[k] == BitOr(bits, k)
    {
      if k < |bits| {
        assert padded[k] == padded[..|bits|][k];
      }
    }
    var x0: Byte, x1: Byte, x2: Byte, x3: Byte := padded[start], padded[start + 1], padded[start + 2], padded[start + 3];
    var x4: Byte, x5: Byte, x6: Byte, x7: Byte := padded[start + 4], padded[start + 5], padded[start + 6], padded[start + 7];
    assert PartialByte(padded, start, 1) == x0 << 7;
    assert PartialByte(padded, start, 2) == (x0 << 7) | (x1 << 6);
    assert PartialByte(padded, start, 3) == (x0 << 7) | (x1 << 6) | (x2 << 5);
    assert PartialByte(padded, start, 4) == (x0 << 7) | (x1 << 6) | (x2 << 5) | (x3 << 4);
    assert PartialByte(padded, start, 5) == (x0 << 7) | (x1 << 6) | (x2 << 5) | (x3 << 4) | (x4 << 3);
    assert PartialByte(padded, start, 6) == (x0 << 7) | (x1 << 6) | (x2 << 5) | (x3 << 4) | (x4 << 3) | (x5 << 2);
    assert PartialByte(padded, start, 7) == (x0 << 7) | (x1 << 6) | (x2 << 5) | (x3 << 4) | (x4 << 3) | (x5 << 2) | (x6 << 1);
  }

  /** bits_to_bytes_jit: zero-pad to a whole number of bytes, then pack most significant bit first. */
  method BitsToBytesJit(bits: seq<Bit>) returns (bytes: seq<Byte>)
    ensures bytes == Pack(bits)
  {
    var nBits := |bits|;
    var padded := bits;
    var remainder := nBits % 8;
    if remainder != 0 {
      var padding := 8 - remainder;
      padded := bits + Zeros(padding);
      nBits := |padded|;
    }
    assert padded[..|bits|] == bits;
    assert nBits == |padded| && nBits % 8 == 0;
    var nBytes := nBits / 8;
    assert nBytes == (|bits| + 7) / 8;
    var a := new Byte[nBytes](_ => 0);
    for i := 0 to nBytes
      invariant forall k :: 0 <= k < i ==> a[k] == PackByte(bits, 8 * k)
    {
      var byteVal := PackBitsAt(padded, 8 * i);
      PartialByteFull(bits, padded, 8 * i);
      a[i] := byteVal;
    }
    bytes := a[..];
  }

  /** The inner loop of bits_to_bytes_jit: the eight bits from start, the first one in the top bit. */
  method PackBitsAt(padded: seq<Bit>, start: nat) returns (byteVal: Byte)
    requires start + 8 <= |padded|
    ensures byteVal == PartialByte(padded, start, 8)
  {
    byteVal := 0;
    for j := 0 to 8
      invariant byteVal == PartialByte(padded, start, j)
    {
      ghost var previous := byteVal;
      if padded[start + j] != 0 {
        byteVal := byteVal | ((1 as Byte) << (7 - j));
      }
      PartialByteStep(padded, start, j, previous, byteVal);
    }
  }

  lemma PartialByteStep(padded: seq<Bit>, start: nat, j: nat, previous: Byte, next: Byte)
    requires j < 8 && start + j < |padded| && previous == PartialByte(padded, start, j)
    requires next == if padded[start + j] != 0 then previous | ((1 as Byte) << (7 - j)) else previous
    ensures next == PartialByte(padded, start, j + 1)
  {
    MaskIsShift(j);
    if padded[start + j] == 0 {
      assert previous | 0 == previous;
    }
  }

  /** bytes_to_bits_jit then bits_to_bytes_jit gives the bytes back. */
  lemma BytesBitsRoundTrip(data: seq<Byte>)
    ensures Pack(Unpack(data)) == data && |Unpack(data)| == 8 * |data|
  {
    PackUnpack(data);
  }

  /** pad_to_power_of_2_jit: the same target length and zero tail as pad_to_power_of_2. */
  method PadToPowerOf2Jit(bits: seq<Bit>) returns (padded: seq<Bit>, originalLength: nat)
    ensures padded == Padded(bits) && originalLength == |bits|
  {
    originalLength := |bits|;
    var targetLength := TargetLengthJit(originalLength);
    if targetLength > originalLength {
      padded := ZeroExtendJit(bits, targetLength);
    } else {
      padded := bits;
    }
  }

  /** The doubling loop of pad_to_power_of_2_jit. */
  method TargetLengthJit(originalLength: nat) returns (targetLength: nat)
    ensures targetLength == TargetLength(originalLength)
  {
    targetLength := 1;
    if originalLength > 1 {
      while targetLength < originalLength
        invariant IsPow2(targetLength)
        invariant GrowTo(targetLength, originalLength) == GrowTo(1, originalLength)
        decreases originalLength - targetLength
      {
        ghost var previous := targetLength;
        targetLength := targetLength * 2;
        GrowStep(previous, targetLength, originalLength);
      }
    }
  }

  /** The copy into np.zeros(target_length): the bits followed by zeros. */
  method ZeroExtendJit(bits: seq<Bit>, targetLength: nat) returns (padded: seq<Bit>)
    requires targetLength >= |bits|
    ensures padded == bits + Zeros(targetLength - |bits|)
  {
    var a := new Bit[targetLength](_ => 0);
    for i := 0 to |bits|
      invariant forall j :: 0 <= j < targetLength ==> a[j] == if j < i then bits[j] else 0
    {
      a[i] := bits[i];
    }
    padded := a[..];
  }

  /** TRANSFORM_TYPE_MAP, read backwards: the transform apply_transform_jit runs for a code, None for a plain copy. */
  function TransformOfCode(code: int): (k: Option<TransformKind>)
    ensures k.Some? <==> 0 <= code <= 6
  {
    if code == 0 then Some(EnhancedXor)
    else if code == 1 then Some(Fibonacci)
    else if code == 2 then Some(AvalancheCascade)
    else if code == 3 then Some(PrimeSieve)
    else if code == 4 then Some(Invert)
    else if code == 5 then Some(SwapPairs)
    else if code == 6 then Some(BitFlip)
    else None
  }

  function TransformCode(kind: TransformKind): nat
  {
    match kind
    case EnhancedXor => 0
    case Fibonacci => 1
    case AvalancheCascade => 2
    case PrimeSieve => 3
    case Invert => 4
    case SwapPairs => 5
    case BitFlip => 6
  }

  /** SHUFFLE_TYPE_MAP, read backwards: codes 1 to 4 select a family, any other code no shuffle. */
  function ShuffleOfCode(code: int): ShuffleKind
  {
    if code == 1 then In
    else if code == 2 then Out
    else if code == 3 then Milk
    else if code == 4 then Cut
    else NoShuffle
  }

  function ShuffleCode(kind: ShuffleKind): nat
  {
    match kind
    case NoShuffle => 0
    case In => 1
    case Out => 2
    case Milk => 3
    case Cut => 4
  }

  const TransformTypeMap: map<string, int> := map[
    "enhanced_xor" := 0, "fibonacci" := 1, "avalanche_cascade" := 2, "prime_sieve" := 3,
    "invert" := 4, "swap_pairs" := 5, "bit_flip" := 6]

  const ShuffleTypeMap: map<string, int> := map["none" := 0, "in" := 1, "out" := 2, "milk" := 3, "cut" := 4]

  /** The two maps give distinct names distinct codes, and their codes are exactly 0..6 and 0..4. */
  lemma TypeMapsInjective()
    ensures forall a, b :: a in TransformTypeMap && b in TransformTypeMap && TransformTypeMap[a] == TransformTypeMap[b] ==> a == b
    ensures forall a, b :: a in ShuffleTypeMap && b in ShuffleTypeMap && ShuffleTypeMap[a] == ShuffleTypeMap[b] ==> a == b
    ensures TransformTypeMap.Values == {0, 1, 2, 3, 4, 5, 6}
    ensures ShuffleTypeMap.Values == {0, 1, 2, 3, 4}
  {
    assert TransformTypeMap["enhanced_xor"] == 0 && TransformTypeMap["fibonacci"] == 1;
    assert TransformTypeMap["avalanche_cascade"] == 2 && TransformTypeMap["prime_sieve"] == 3;
    assert TransformTypeMap["invert"] == 4 && TransformTypeMap["swap_pairs"] == 5 && TransformTypeMap["bit_flip"] == 6;
    assert ShuffleTypeMap["none"] == 0 && ShuffleTypeMap["in"] == 1 && ShuffleTypeMap["out"] == 2;
    assert ShuffleTypeMap["milk"] == 3 && ShuffleTypeMap["cut"] == 4;
  }

  /** Each map sends the registry name of a transform or shuffle to the code that selects that same transform or shuffle. */
  lemma TypeMapsAgree(t: TransformKind, s: ShuffleKind)
    ensures TransformName(t) in TransformTypeMap && TransformTypeMap[TransformName(t)] == TransformCode(t)
    ensures TransformOfCode(TransformCode(t)) == Some(t)
    ensures ShuffleName(s) in ShuffleTypeMap && ShuffleTypeMap[ShuffleName(s)] == ShuffleCode(s)
    ensures ShuffleOfCode(ShuffleCode(s)) == s
  {
  }

  /** apply_transform_jit on a code: the matching transform, or the input itself for a code outside 0..6. */
  function JitTransform(code: int, key: int, bits: seq<Bit>): (r: seq<Bit>)
    ensures |r| == |bits|
  {
    match TransformOfCode(code)
    case None => bits
    case Some(kind) => Transform(kind, key, bits)
  }

  /** Whatever the code, applying the coded transform twice with one key restores the bits. */
  lemma JitTransformSelfInverse(code: int, key: int, bits: seq<Bit>)
    ensures |JitTransform(code, key, bits)| == |bits|
    ensures JitTransform(code, key, JitTransform(code, key, bits)) == bits
  {
    if TransformOfCode(code).Some? {
      TransformSelfInverse(TransformOfCode(code).value, key, bits);
    }
  }

  /** apply_transform_jit: the index loop of the coded transform, or a copy. */
  method ApplyTransformJit(bits: seq<Bit>, transformType: int, key: int) returns (r: seq<Bit>)
    ensures r == JitTransform(transformType, key, bits)
    ensures transformType < 0 || transformType > 6 ==> r == bits
  {
    var kind := TransformOfCode(transformType);
    if kind.None? {
      return bits;
    }
    r := ApplyTransform(kind.value, bits, key);
  }

  /** apply_in_shuffle_jit: the in-shuffle slices of faro_shuffle. */
  method InShuffleJit(bits: seq<Bit>, steps: int, variant: int) returns (r: Option<seq<Bit>>)
    ensures r == FaroShuffle(In, variant, steps, bits)
  {
    r := Shuffles.FaroShuffle(bits, In, steps, variant);
  }

  /** apply_inverse_in_shuffle_jit. */
  method InverseInShuffleJit(bits: seq<Bit>, steps: int, variant: int) returns (r: Option<seq<Bit>>)
    ensures r == InverseFaroShuffle(In, variant, steps, bits)
  {
    r := Shuffles.InverseFaroShuffle(bits, In, steps, variant);
  }

  /** apply_out_shuffle_jit. */
  method OutShuffleJit(bits: seq<Bit>, steps: int, variant: int) returns (r: Option<seq<Bit>>)
    ensures r == FaroShuffle(Out, variant, steps, bits)
  {
    r := Shuffles.FaroShuffle(bits, Out, steps, variant);
  }

  /** apply_inverse_out_shuffle_jit. */
  method InverseOutShuffleJit(bits: seq<Bit>, steps: int, variant: int) returns (r: Option<seq<Bit>>)
    ensures r == InverseFaroShuffle(Out, variant, steps, bits)
  {
    r := Shuffles.InverseFaroShuffle(bits, Out, steps, variant);
  }

  /** apply_milk_shuffle_jit. */
  method MilkShuffleJit(bits: seq<Bit>, steps: int, variant: int) returns (r: Option<seq<Bit>>)
    ensures r == FaroShuffle(Milk, variant, steps, bits)
  {
    r := Shuffles.FaroShuffle(bits, Milk, steps, variant);
  }

  /** apply_inverse_milk_shuffle_jit: scattering into a copy and keeping the copy is the scatter of inverse_faro_shuffle. */
  method InverseMilkShuffleJit(bits: seq<Bit>, steps: int, variant: int) returns (r: Option<seq<Bit>>)
    ensures r == InverseFaroShuffle(Milk, variant, steps, bits)
  {
    r := Shuffles.InverseFaroShuffle(bits, Milk, steps, variant);
  }

  /** apply_cut_shuffle_jit. */
  method CutShuffleJit(bits: seq<Bit>, steps: int, variant: int) returns (r: Option<seq<Bit>>)
    ensures r == FaroShuffle(Cut, variant, steps, bits)
  {
    r := Shuffles.FaroShuffle(bits, Cut, steps, variant);
  }

  /** Which of the kernel's variant-1 assignments numpy accepts: at three elements the middle one is refused. */
  lemma CutInvFitsJit1(n: nat)
    requires n >= 2
    ensures var cutSize, cutPos := CutSize(n), n / 2;
      Shuffles.Assignable(Shuffles.Range(n, 0, cutPos - cutSize), Shuffles.Range(n, 0, cutPos - cutSize))
      && (Shuffles.Assignable(Shuffles.Range(n, cutPos - cutSize, n - cutSize), Shuffles.Range(n, cutPos, n)) <==> n != 3)
      && (n != 3 ==> Shuffles.Assignable(Shuffles.Range(n, n - cutSize, n), Shuffles.Range(n, cutPos - cutSize, cutPos)))
  {
    if n == 3 {
      Shuffles.CutSlicesAtThree();
      assert Shuffles.Range(3, -1, 2) == Shuffles.Slice(2, Shuffles.Unit, 0);
    } else {
      Shuffles.CutSizes(n);
    }
  }

  /**
   * Variant 1 of the inverse cut step as the kernel orders it: the middle
   * slice is written before the tail. At three elements the middle
   * assignment is the one numpy refuses.
   */
  method CutInverseStepJit1(a: array<Bit>) returns (ok: bool)
    requires a.Length >= 2
    modifies a
    ensures ok == InverseShapeOk(Cut, 1, a.Length)
    ensures ok ==> a[..] == StepInv(Cut, 1, old(a[..]))
  {
    var temp := a[..];
    var n, cutSize, cutPos := a.Length, CutSize(a.Length), a.Length / 2;
    Shuffles.CutSizes(n);
    Shuffles.CutInvFits1(n);
    CutInvFitsJit1(n);
    ok := Shuffles.Assign(a, Shuffles.Range(n, 0, cutPos - cutSize), temp, Shuffles.Range(n, 0, cutPos - cutSize));
    if !ok { return; }
    ok := Shuffles.Assign(a, Shuffles.Range(n, cutPos - cutSize, n - cutSize), temp, Shuffles.Range(n, cutPos, n));
    if !ok { return; }
    ok := Shuffles.Assign(a, Shuffles.Range(n, n - cutSize, n), temp, Shuffles.Range(n, cutPos - cutSize, cutPos));
    if !ok { return; }
    Shuffles.CutInvSlicesJit1(temp);
  }

  method CutInverseStepJit(a: array<Bit>, v: nat) returns (ok: bool)
    requires v < 4 && a.Length >= 2
    modifies a
    ensures ok == InverseShapeOk(Cut, v, a.Length)
    ensures ok ==> a[..] == StepInv(Cut, v, old(a[..]))
  {
    if v == 1 {
      ok := CutInverseStepJit1(a);
    } else {
      ok := Shuffles.CutInverseStep(a, v);
    }
  }

  /** apply_inverse_cut_shuffle_jit: the same undoing as inverse_faro_shuffle, with its own variant-1 step. */
  method InverseCutShuffleJit(bits: seq<Bit>, steps: int, variant: int) returns (r: Option<seq<Bit>>)
    ensures r == InverseFaroShuffle(Cut, variant, steps, bits)
  {
    var result := new Bit[|bits|](i requires 0 <= i < |bits| => bits[i]);
    var n := result.Length;
    if n <= 1 {
      return Some(bits);
    }
    var v := variant % 4;
    assert v % 4 == v;
    if steps <= 0 {
      return Some(bits);
    }
    var remaining := steps;
    while remaining > 0
      invariant 0 <= remaining <= steps
      invariant remaining < steps ==> InverseShapeOk(Cut, v, n)
      invariant remaining < steps ==> Inverse(Cut, v, remaining, result[..]) == Inverse(Cut, v, steps, bits)
      invariant remaining == steps ==> result[..] == bits
    {
      var ok := CutInverseStepJit(result, v);
      if !ok {
        return None;
      }
      remaining := remaining - 1;
    }
    return Some(result[..]);
  }

  /** process_single_chunk_jit on codes: the reference chunk step with coded shuffle and transform. */
  function JitChunkStep(shuffleType: int, steps: int, variant: int, transformType: int, key: int, c: seq<Byte>, encrypt: bool): seq<Byte>
  {
    if |c| == 0 then c
    else if encrypt then
      Pack(JitTransform(transformType, key, Shuffled(ShuffleOfCode(shuffleType), variant, steps, PaddedBits(c))))
    else
      var flipped := JitTransform(transformType, key, Unpack(c));
      assert |flipped| == 8 * |c|;
      TrimTo(Pack(Unshuffled(ShuffleOfCode(shuffleType), variant, steps, flipped)), |c|)
  }

  /** The shuffle process_single_chunk_jit dispatches to by code. */
  method ShuffleByCode(bits: seq<Bit>, shuffleType: int, steps: int, variant: int) returns (r: seq<Bit>)
    requires |bits| % 2 == 0
    ensures r == Shuffled(ShuffleOfCode(shuffleType), variant, steps, bits)
  {
    var kind := ShuffleOfCode(shuffleType);
    EvenLengthRoundTrips(kind, variant % 4, |bits|);
    FaroShuffleRoundTrip(kind, variant, steps, bits);
    var s: Option<seq<Bit>>;
    if shuffleType == 1 {
      s := InShuffleJit(bits, steps, variant);
    } else if shuffleType == 2 {
      s := OutShuffleJit(bits, steps, variant);
    } else if shuffleType == 3 {
      s := MilkShuffleJit(bits, steps, variant);
    } else if shuffleType == 4 {
      s := CutShuffleJit(bits, steps, variant);
    } else {
      FaroShuffleLeavesTrivialInputs(kind, variant, steps, bits);
      s := Some(bits);
    }
    r := s.value;
  }

  /** The inverse shuffle process_single_chunk_jit dispatches to by code. */
  method UnshuffleByCode(bits: seq<Bit>, shuffleType: int, steps: int, variant: int) returns (r: seq<Bit>)
    requires |bits| % 2 == 0
    ensures r == Unshuffled(ShuffleOfCode(shuffleType), variant, steps, bits)
  {
    var kind := ShuffleOfCode(shuffleType);
    EvenLengthRoundTrips(kind, variant % 4, |bits|);
    FaroShuffleRoundTrip(kind, variant, steps, bits);
    var s: Option<seq<Bit>>;
    if shuffleType == 1 {
      s := InverseInShuffleJit(bits, steps, variant);
    } else if shuffleType == 2 {
      s := InverseOutShuffleJit(bits, steps, variant);
    } else if shuffleType == 3 {
      s := InverseMilkShuffleJit(bits, steps, variant);
    } else if shuffleType == 4 {
      s := InverseCutShuffleJit(bits, steps, variant);
    } else {
      FaroShuffleLeavesTrivialInputs(kind, variant, steps, bits);
      s := Some(bits);
    }
    r := s.value;
  }

  /** process_single_chunk_jit. */
  method ProcessSingleChunkJit(chunkBytes: seq<Byte>, shuffleType: int, shuffleSteps: int, shuffleVariant: int,
                               transformType: int, transformKey: int, encrypt: bool) returns (out: seq<Byte>)
    ensures out == JitChunkStep(shuffleType, shuffleSteps, shuffleVariant, transformType, transformKey, chunkBytes, encrypt)
  {
    if |chunkBytes| == 0 {
      return chunkBytes;
    }
    var bits := BytesToBitsJit(chunkBytes);
    if encrypt {
      var padded, originalBitLength := PadToPowerOf2Jit(bits);
      assert padded == PaddedBits(chunkBytes);
      var current := ShuffleByCode(padded, shuffleType, shuffleSteps, shuffleVariant);
      current := ApplyTransformJit(current, transformType, transformKey);
      out := BitsToBytesJit(current);
    } else {
      var current := ApplyTransformJit(bits, transformType, transformKey);
      JitTransformSelfInverse(transformType, transformKey, bits);
      current := UnshuffleByCode(current, shuffleType, shuffleSteps, shuffleVariant);
      out := BitsToBytesJit(current);
      out := TrimTo(out, |chunkBytes|);
    }
  }

  /** With the codes of a round's shuffle and transform, the kernel computes the reference chunk step. */
  lemma JitChunkStepMatches(r: RoundInfo, c: seq<Byte>, encrypt: bool)
    ensures JitChunkStep(ShuffleCode(r.shuffle), r.steps, r.variant, TransformCode(r.transform), r.key, c, encrypt)
      == ChunkStep(Reference, r, c, encrypt)
  {
    TypeMapsAgree(r.transform, r.shuffle);
  }

  /** For any codes, decrypting an encrypted chunk of power-of-two length gives it back, at the same length. */
  lemma JitChunkRoundTrip(shuffleType: int, steps: int, variant: int, transformType: int, key: int, c: seq<Byte>)
    requires IsPow2(|c|)
    ensures |JitChunkStep(shuffleType, steps, variant, transformType, key, c, true)| == |c|
    ensures JitChunkStep(shuffleType, steps, variant, transformType, key,
      JitChunkStep(shuffleType, steps, variant, transformType, key, c, true), false) == c
  {
    var kind := ShuffleOfCode(shuffleType);
    var bits := Unpack(c);
    Pow2Times8(|c|);
    PaddedPow2(bits);
    assert PaddedBits(c) == bits;
    var s := Shuffled(kind, variant, steps, bits);
    var t := JitTransform(transformType, key, s);
    JitTransformSelfInverse(transformType, key, s);
    assert |t| == 8 * |c|;
    Times8(|c|);
    var enc := Pack(t);
    assert |enc| == |c|;
    UnpackPack(t);
    assert JitTransform(transformType, key, Unpack(enc)) == s;
    UnshuffleShuffled(kind, variant, steps, bits);
    PackUnpack(c);
  }

  /** dict.get(name, 0). */
  function CodeOrZero(m: map<string, int>, name: string): (code: int)
    ensures name !in m ==> code == 0
    ensures name in m ==> code == m[name]
  {
    if name in m then m[name] else 0
  }

  /** The names a round structure holds are found in the maps, under the codes of the same shuffle and transform. */
  lemma RoundNamesGiveCodes(r: RoundInfo)
    ensures CodeOrZero(ShuffleTypeMap, ShuffleName(r.shuffle)) == ShuffleCode(r.shuffle)
    ensures CodeOrZero(TransformTypeMap, TransformName(r.transform)) == TransformCode(r.transform)
  {
    TypeMapsAgree(r.transform, r.shuffle);
  }
}
