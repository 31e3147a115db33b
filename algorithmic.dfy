/**
 * The byte-level rounds of faro_cipher/algorithmic_optimized.py, which the
 * ultra cipher runs instead of the bit-level pipeline: a round transforms
 * whole bytes (a flip is XOR 0xFF, a swap exchanges two neighbouring bytes)
 * and shuffles the bytes of the whole buffer, with no padding to a power
 * of two.
 *
 * The shuffles fill a fresh `np.empty_like` array. On an odd length the
 * out-shuffle (type 2) and both inverse shuffles of type 2 never write the
 * last position, so that byte is whatever the allocation left there; the
 * functions below take it as the parameter `junk`.
 */
module Algorithmic {
  import opened Bits
  import opened Wrappers
  import opened ShuffleSpec
  import opened Transforms
  import Seqs
  import Arith
  import Pipeline
  import Chunking
  import JitOptimized

  /** One round in the form the byte pipeline takes: (shuffle_type, transform_type, key). */
  datatype OptRound = OptRound(shuffleType: int, transformType: int, key: int)

  /** Where ultra_fast_byte_shuffle takes output position j from, below the odd last position 2 * (n / 2). */
  function ShuffleSrc(shuffleType: int, n: nat, j: nat): (s: nat)
    requires j < 2 * (n / 2)
    ensures s < 2 * (n / 2)
  {
    var mid := n / 2;
    if shuffleType == 1 then (if j % 2 == 0 then j / 2 else mid + j / 2)
    else (if j % 2 == 0 then mid + j / 2 else j / 2)
  }

  /** Where ultra_fast_inverse_byte_shuffle takes output position j from. */
  function UnshuffleSrc(shuffleType: int, n: nat, j: nat): (s: nat)
    requires j < 2 * (n / 2)
    ensures s < 2 * (n / 2)
  {
    var mid := n / 2;
    if shuffleType == 1 then (if j < mid then 2 * j else 2 * (j - mid) + 1)
    else (if j < mid then 2 * j + 1 else 2 * (j - mid))
  }

  /** The two index maps are inverse bijections of 0 .. 2 * (n / 2). */
  lemma SrcMapsInverse(shuffleType: int, n: nat, j: nat)
    requires j < 2 * (n / 2)
    ensures ShuffleSrc(shuffleType, n, UnshuffleSrc(shuffleType, n, j)) == j
    ensures UnshuffleSrc(shuffleType, n, ShuffleSrc(shuffleType, n, j)) == j
  {
    var mid := n / 2;
    if j < mid {
      Arith.DivModUnique(2 * j, j, 2, 0);
      Arith.DivModUnique(2 * j + 1, j, 2, 1);
    } else {
      Arith.DivModUnique(2 * (j - mid), j - mid, 2, 0);
      Arith.DivModUnique(2 * (j - mid) + 1, j - mid, 2, 1);
    }
    Arith.DivModUnique(j, j / 2, 2, j % 2);
  }

  /** The loop iteration i of either shuffle writes output positions 2i and 2i + 1. */
  lemma ShuffleSrcAt(shuffleType: int, n: nat, i: nat)
    requires i < n / 2
    ensures ShuffleSrc(shuffleType, n, 2 * i) == if shuffleType == 1 then i else n / 2 + i
    ensures ShuffleSrc(shuffleType, n, 2 * i + 1) == if shuffleType == 1 then n / 2 + i else i
  {
    Arith.DivModUnique(2 * i, i, 2, 0);
    Arith.DivModUnique(2 * i + 1, i, 2, 1);
  }

  /**
   * ultra_fast_byte_shuffle. Type 1 deals the first half and the second
   * half alternately (an odd last byte stays where it is); type 2 deals the
   * second half first and leaves an odd last position unwritten; any other
   * type copies.
   */
  function ByteShuffled(data: seq<Byte>, shuffleType: int, junk: Byte): (r: seq<Byte>)
    ensures |r| == |data|
  {
    var n := |data|;
    if n <= 1 || (shuffleType != 1 && shuffleType != 2) then data
    else
      seq(n, j requires 0 <= j < n =>
        if j < 2 * (n / 2) then data[ShuffleSrc(shuffleType, n, j)]
        else if shuffleType == 1 then data[j] else junk)
  }

  /** ultra_fast_inverse_byte_shuffle: gathers the two halves back from the even and odd positions. */
  function ByteUnshuffled(data: seq<Byte>, shuffleType: int, junk: Byte): (r: seq<Byte>)
    ensures |r| == |data|
  {
    var n := |data|;
    if n <= 1 || (shuffleType != 1 && shuffleType != 2) then data
    else
      seq(n, j requires 0 <= j < n =>
        if j < 2 * (n / 2) then data[UnshuffleSrc(shuffleType, n, j)]
        else if shuffleType == 1 then data[j] else junk)
  }

  /** Every byte but an odd last one comes back from a shuffle and its inverse, in either order. */
  lemma ByteShuffleUndoesBody(data: seq<Byte>, shuffleType: int, junk1: Byte, junk2: Byte)
    ensures forall j :: 0 <= j < 2 * (|data| / 2) ==> ByteUnshuffled(ByteShuffled(data, shuffleType, junk1), shuffleType, junk2)[j] == data[j]
    ensures forall j :: 0 <= j < 2 * (|data| / 2) ==> ByteShuffled(ByteUnshuffled(data, shuffleType, junk1), shuffleType, junk2)[j] == data[j]
  {
    var n := |data|;
    if n > 1 && (shuffleType == 1 || shuffleType == 2) {
      forall j | 0 <= j < 2 * (n / 2)
        ensures ByteUnshuffled(ByteShuffled(data, shuffleType, junk1), shuffleType, junk2)[j] == data[j]
        ensures ByteShuffled(ByteUnshuffled(data, shuffleType, junk1), shuffleType, junk2)[j] == data[j]
      {
        SrcMapsInverse(shuffleType, n, j);
      }
    }
  }

  /** Where an odd-length round trip puts the last byte: back in place for type 1, the inverse's unwritten byte for type 2. */
  lemma ByteShuffleOddTail(data: seq<Byte>, shuffleType: int, junk1: Byte, junk2: Byte)
    requires |data| % 2 == 1
    ensures ByteUnshuffled(ByteShuffled(data, shuffleType, junk1), shuffleType, junk2)[|data| - 1]
      == if |data| > 1 && shuffleType == 2 then junk2 else data[|data| - 1]
    ensures ByteShuffled(ByteUnshuffled(data, shuffleType, junk1), shuffleType, junk2)[|data| - 1]
      == if |data| > 1 && shuffleType == 2 then junk2 else data[|data| - 1]
  {
  }

  /** Undoing a shuffle restores the bytes, and so does shuffling an unshuffled buffer, except for type 2 on an odd length. */
  lemma ByteShuffleRoundTrip(data: seq<Byte>, shuffleType: int, junk1: Byte, junk2: Byte)
    requires |data| % 2 == 0 || shuffleType != 2
    ensures ByteUnshuffled(ByteShuffled(data, shuffleType, junk1), shuffleType, junk2) == data
    ensures ByteShuffled(ByteUnshuffled(data, shuffleType, junk1), shuffleType, junk2) == data
  {
    ByteShuffleUndoesBody(data, shuffleType, junk1, junk2);
    if |data| % 2 == 1 {
      ByteShuffleOddTail(data, shuffleType, junk1, junk2);
    }
  }

  /** On an even length the two byte shuffles are steps of the card shuffles: type 1 the in-shuffle, type 2 the out-shuffle of variant 2. */
  lemma ByteShufflesAreFaroSteps(data: seq<Byte>, junk: Byte)
    requires |data| >= 2 && |data| % 2 == 0
    ensures ByteShuffled(data, 1, junk) == StepFwd(In, 0, data)
    ensures ByteUnshuffled(data, 1, junk) == StepInv(In, 0, data)
    ensures ByteShuffled(data, 2, junk) == StepFwd(Out, 2, data)
    ensures ByteUnshuffled(data, 2, junk) == StepInv(Out, 2, data)
  {
  }

  /** As written, the out-shuffle of an odd-length buffer never reads its last byte: two buffers that differ only there shuffle alike. */
  lemma OutShuffleIgnoresOddTail(a: seq<Byte>, b: seq<Byte>, junk: Byte)
    requires |a| == |b| && |a| % 2 == 1 && |a| > 1 && a[..|a| - 1] == b[..|b| - 1]
    ensures ByteShuffled(a, 2, junk) == ByteShuffled(b, 2, junk)
  {
    var n := |a|;
    Arith.DivModUnique(n, n / 2, 2, 1);
    forall j | 0 <= j < n
      ensures ByteShuffled(a, 2, junk)[j] == ByteShuffled(b, 2, junk)[j]
    {
      if j < n - 1 {
        var src := ShuffleSrc(2, n, j);
        assert a[src] == a[..n - 1][src] && b[src] == b[..n - 1][src];
      }
    }
  }

  /** The three-byte buffer [0, 0, 1] loses its last byte through a type-2 shuffle and back unless the unwritten byte happens to be 1. */
  lemma OutShuffleLosesLastByte(junk1: Byte, junk2: Byte)
    ensures ByteUnshuffled(ByteShuffled([0, 0, 1], 2, junk1), 2, junk2) == [0, 0, junk2]
  {
    ByteShuffleUndoesBody([0, 0, 1], 2, junk1, junk2);
    ByteShuffleOddTail([0, 0, 1], 2, junk1, junk2);
  }

  /** The shuffle as evidently intended: on an odd length the last byte stays in place for type 2 as it does for type 1. */
  function FixedByteShuffled(data: seq<Byte>, shuffleType: int): (r: seq<Byte>)
  {
    ByteShuffled(data, shuffleType, if |data| > 0 then data[|data| - 1] else 0)
  }

  function FixedByteUnshuffled(data: seq<Byte>, shuffleType: int): (r: seq<Byte>)
  {
    ByteUnshuffled(data, shuffleType, if |data| > 0 then data[|data| - 1] else 0)
  }

  /** The corrected shuffles undo each other for every length and type. */
  lemma FixedByteShuffleRoundTrip(data: seq<Byte>, shuffleType: int)
    ensures FixedByteUnshuffled(FixedByteShuffled(data, shuffleType), shuffleType) == data
    ensures FixedByteShuffled(FixedByteUnshuffled(data, shuffleType), shuffleType) == data
  {
    var s := FixedByteShuffled(data, shuffleType);
    var u := FixedByteUnshuffled(data, shuffleType);
    if |data| % 2 == 0 || shuffleType != 2 {
      ByteShuffleRoundTrip(data, shuffleType, if |data| > 0 then data[|data| - 1] else 0, if |data| > 0 then s[|data| - 1] else 0);
      ByteShuffleRoundTrip(data, shuffleType, if |data| > 0 then data[|data| - 1] else 0, if |data| > 0 then u[|data| - 1] else 0);
    } else {
      var n := |data|;
      ByteShuffleUndoesBody(data, shuffleType, data[n - 1], s[n - 1]);
      ByteShuffleUndoesBody(data, shuffleType, data[n - 1], u[n - 1]);
      ByteShuffleOddTail(data, shuffleType, data[n - 1], s[n - 1]);
      ByteShuffleOddTail(data, shuffleType, data[n - 1], u[n - 1]);
    }
  }

  /** Where the source's shuffle writes every position, it is the corrected one. */
  lemma FixedAgreesWhereWritten(data: seq<Byte>, shuffleType: int, junk: Byte)
    requires |data| % 2 == 0 || shuffleType != 2
    ensures ByteShuffled(data, shuffleType, junk) == FixedByteShuffled(data, shuffleType)
    ensures ByteUnshuffled(data, shuffleType, junk) == FixedByteUnshuffled(data, shuffleType)
  {
  }

  /** ultra_fast_byte_shuffle on an array: a copy for n <= 1, else the interleave written into a fresh array. */
  method UltraFastByteShuffle(data: array<Byte>, shuffleType: int, junk: Byte) returns (result: array<Byte>)
    ensures fresh(result) && result[..] == ByteShuffled(data[..], shuffleType, junk)
  {
    var n := data.Length;
    if n <= 1 {
      result := new Byte[n](k requires 0 <= k < n reads data => data[k]);
      return;
    }
    result := new Byte[n](_ => junk);
    if shuffleType == 1 {
      InShuffleLoop(data, result);
      if n % 2 == 1 {
        result[n - 1] := data[n - 1];
      }
    } else if shuffleType == 2 {
      OutShuffleLoop(data, result);
    } else {
      forall k | 0 <= k < n {
        result[k] := data[k];
      }
    }
  }

  /** The loop of ultra_fast_byte_shuffle for type 1: result[2i] = data[i], result[2i + 1] = data[mid + i]. */
  method InShuffleLoop(data: array<Byte>, result: array<Byte>)
    requires data != result && result.Length == data.Length >= 2
    modifies result
    ensures forall k :: 0 <= k < result.Length ==>
      result[k] == if k < 2 * (data.Length / 2) then data[ShuffleSrc(1, data.Length, k)] else old(result[k])
  {
    var n, mid := data.Length, data.Length / 2;
    for i := 0 to mid
      invariant forall k :: 0 <= k < n ==> result[k] == if k < 2 * i then data[ShuffleSrc(1, n, k)] else old(result[k])
    {
      ShuffleSrcAt(1, n, i);
      result[2 * i] := data[i];
      if 2 * i + 1 < n {
        result[2 * i + 1] := data[mid + i];
      }
    }
  }

  /** The loop of ultra_fast_byte_shuffle for type 2: result[2i] = data[mid + i], result[2i + 1] = data[i]. */
  method OutShuffleLoop(data: array<Byte>, result: array<Byte>)
    requires data != result && result.Length == data.Length >= 2
    modifies result
    ensures forall k :: 0 <= k < result.Length ==>
      result[k] == if k < 2 * (data.Length / 2) then data[ShuffleSrc(2, data.Length, k)] else old(result[k])
  {
    var n, mid := data.Length, data.Length / 2;
    for i := 0 to mid
      invariant forall k :: 0 <= k < n ==> result[k] == if k < 2 * i then data[ShuffleSrc(2, n, k)] else old(result[k])
    {
      ShuffleSrcAt(2, n, i);
      if 2 * i < n {
        result[2 * i] := data[mid + i];
      }
      if 2 * i + 1 < n {
        result[2 * i + 1] := data[i];
      }
    }
  }

  /** ultra_fast_inverse_byte_shuffle on an array. */
  method UltraFastInverseByteShuffle(data: array<Byte>, shuffleType: int, junk: Byte) returns (result: array<Byte>)
    ensures fresh(result) && result[..] == ByteUnshuffled(data[..], shuffleType, junk)
  {
    var n := data.Length;
    if n <= 1 {
      result := new Byte[n](k requires 0 <= k < n reads data => data[k]);
      return;
    }
    result := new Byte[n](_ => junk);
    if shuffleType == 1 {
      InUnshuffleLoop(data, result);
      if n % 2 == 1 {
        result[n - 1] := data[n - 1];
      }
    } else if shuffleType == 2 {
      OutUnshuffleLoop(data, result);
    } else {
      forall k | 0 <= k < n {
        result[k] := data[k];
      }
    }
  }

  /** The loop of ultra_fast_inverse_byte_shuffle for type 1: result[i] = data[2i], result[mid + i] = data[2i + 1]. */
  method InUnshuffleLoop(data: array<Byte>, result: array<Byte>)
    requires data != result && result.Length == data.Length >= 2
    modifies result
    ensures forall k :: 0 <= k < result.Length ==>
      result[k] == if k < 2 * (data.Length / 2) then data[UnshuffleSrc(1, data.Length, k)] else old(result[k])
  {
    var n, mid := data.Length, data.Length / 2;
    for i := 0 to mid
      invariant forall k :: 0 <= k < n ==>
        result[k] == if k < i || mid <= k < mid + i then data[UnshuffleSrc(1, n, k)] else old(result[k])
    {
      result[i] := data[2 * i];
      if mid + i < n {
        result[mid + i] := data[2 * i + 1];
      }
    }
  }

  /** The loop of ultra_fast_inverse_byte_shuffle for type 2: result[i] = data[2i + 1], result[mid + i] = data[2i]. */
  method OutUnshuffleLoop(data: array<Byte>, result: array<Byte>)
    requires data != result && result.Length == data.Length >= 2
    modifies result
    ensures forall k :: 0 <= k < result.Length ==>
      result[k] == if k < 2 * (data.Length / 2) then data[UnshuffleSrc(2, data.Length, k)] else old(result[k])
  {
    var n, mid := data.Length, data.Length / 2;
    for i := 0 to mid
      invariant forall k :: 0 <= k < n ==>
        result[k] == if k < i || mid <= k < mid + i then data[UnshuffleSrc(2, n, k)] else old(result[k])
    {
      if 2 * i + 1 < n {
        result[i] := data[2 * i + 1];
      }
      result[mid + i] := data[2 * i];
    }
  }

  /**
   * Whether vectorized_byte_transform flips byte i (XOR 0xFF): the test of
   * each flipping type, with prime_sieve reduced to "not divisible by 2, 3
   * or 5" and fibonacci applied at any length. Types 5 (swap) and unknown
   * types flip nothing.
   */
  predicate ByteFlips(transformType: int, key: int, i: nat)
  {
    if transformType == 0 then (key % 256 + i * 7) % 256 % 3 == 0
    else if transformType == 1 then FibPair(key, i).0 % 4 == 0
    else if transformType == 2 then
      (key + i * 7) % 256 % 8 == 0 || (key * 3 + i * 13) % 256 % 7 == 1 || Xor8(key, i * 17) % 9 == 3
    else if transformType == 3 then
      var pos := i + 2 + key % 97;
      pos % 2 != 0 && pos % 3 != 0 && pos % 5 != 0
    else if transformType == 4 then (i + key) % 3 == 0
    else if transformType == 6 then (i * key) % 7 == 0
    else false
  }

  /** vectorized_byte_transform: type 5 swaps the selected even-aligned byte pairs, the others flip the bytes ByteFlips selects. */
  function ByteTransformed(data: seq<Byte>, transformType: int, key: int): (r: seq<Byte>)
    ensures |r| == |data|
  {
    if transformType == 5 then seq(|data|, i requires 0 <= i < |data| => data[SwapPartner(key, |data|, i)])
    else seq(|data|, i requires 0 <= i < |data| => if ByteFlips(transformType, key, i) then data[i] ^ 0xFF else data[i])
  }

  /** The byte transform undoes itself under the same type and key. */
  lemma ByteTransformSelfInverse(data: seq<Byte>, transformType: int, key: int)
    ensures ByteTransformed(ByteTransformed(data, transformType, key), transformType, key) == data
  {
    var once := ByteTransformed(data, transformType, key);
    forall i | 0 <= i < |data|
      ensures ByteTransformed(once, transformType, key)[i] == data[i]
    {
      if transformType == 5 {
        SwapPartnerInvolutive(key, |data|, i);
      }
    }
  }

  /** A flipping type changes byte i exactly where it selects it, to its complement; a swap only trades neighbours. */
  lemma ByteTransformMoves(data: seq<Byte>, transformType: int, key: int, i: nat)
    requires i < |data|
    ensures transformType != 5 ==>
      (ByteTransformed(data, transformType, key)[i] != data[i] <==> ByteFlips(transformType, key, i))
      && (ByteFlips(transformType, key, i) ==> ByteTransformed(data, transformType, key)[i] == data[i] ^ 0xFF)
    ensures transformType == 5 ==>
      var j := SwapPartner(key, |data|, i);
      ByteTransformed(data, transformType, key)[i] == data[j] && (j == i || j == i + 1 || j + 1 == i)
  {
  }

  /** Types 0, 2, 4 and 6 select the same positions as the bit-level transforms of the same code; fibonacci does on inputs of two or more. */
  lemma ByteFlipsMatchBitTransforms(transformType: int, key: int, n: nat, i: nat)
    ensures transformType in {0, 2, 4, 6} ==>
      (ByteFlips(transformType, key, i) <==> Flips(JitOptimized.TransformOfCode(transformType).value, key, n, i))
    ensures transformType == 1 && n >= 2 ==> (ByteFlips(1, key, i) <==> Flips(Fibonacci, key, n, i))
  {
    if transformType == 0 {
      assert (key % 256 + i * 7) % 256 == (key + i * 7) % 256 by {
        Arith.DivModUnique(key, key / 256, 256, key % 256);
        Arith.DivModUnique(key + i * 7, key / 256 + (key % 256 + i * 7) / 256, 256, (key % 256 + i * 7) % 256);
      }
    }
  }

  /** vectorized_byte_transform on an array: copy, then flip or swap in an index loop. */
  method VectorizedByteTransform(data: array<Byte>, transformType: int, key: int) returns (result: array<Byte>)
    ensures fresh(result) && result[..] == ByteTransformed(data[..], transformType, key)
  {
    var n := data.Length;
    result := new Byte[n](k requires 0 <= k < n reads data => data[k]);
    if transformType == 5 {
      SwapBytePairs(result, key);
    } else if transformType == 1 {
      FlipFibonacciBytes(result, key);
    } else {
      FlipSelectedBytes(result, transformType, key);
    }
  }

  /** The swap_pairs branch: for i = 0, 2, 4, ... below n - 1, swap bytes i and i + 1 when (i + key) mod 4 is 0. */
  method SwapBytePairs(result: array<Byte>, key: int)
    modifies result
    ensures result[..] == ByteTransformed(old(result[..]), 5, key)
  {
    ghost var data := result[..];
    var n := result.Length;
    var i := 0;
    while i < n - 1
      invariant i % 2 == 0 && 0 <= i <= n + 1
      invariant result[..] == SwappedBelow(data, key, i)
    {
      ghost var before := result[..];
      if (i + key) % 4 == 0 {
        result[i], result[i + 1] := result[i + 1], result[i];
        assert result[..] == before[i := before[i + 1]][i + 1 := before[i]];
      }
      SwapPairStep(data, key, i, before, result[..]);
      i := i + 2;
    }
    SwapPairsDone(data, key, i);
  }

  /** The bytes with the pairs below i swapped and the rest as they were. */
  ghost function SwappedBelow(data: seq<Byte>, key: int, i: nat): (r: seq<Byte>)
    ensures |r| == |data|
  {
    seq(|data|, j requires 0 <= j < |data| => if j < i then data[SwapPartner(key, |data|, j)] else data[j])
  }

  /** Swapping the pair at i, or not, extends the swapped prefix by that pair. */
  lemma SwapPairStep(data: seq<Byte>, key: int, i: nat, before: seq<Byte>, after: seq<Byte>)
    requires i % 2 == 0 && i + 1 < |data| && before == SwappedBelow(data, key, i)
    requires after == if (i + key) % 4 == 0 then before[i := before[i + 1]][i + 1 := before[i]] else before
    ensures after == SwappedBelow(data, key, i + 2)
  {
    var next := SwappedBelow(data, key, i + 2);
    forall j | 0 <= j < |data| ensures after[j] == next[j] {
      if j == i + 1 {
        assert (j - 1 + key) % 4 == (i + key) % 4;
      }
    }
  }

  /** Once i reaches n - 1 every pair has been visited. */
  lemma SwapPairsDone(data: seq<Byte>, key: int, i: nat)
    requires i % 2 == 0 && |data| - 1 <= i
    ensures SwappedBelow(data, key, i) == ByteTransformed(data, 5, key)
  {
    var done := ByteTransformed(data, 5, key);
    forall j | 0 <= j < |data| ensures SwappedBelow(data, key, i)[j] == done[j] {
      if j >= i {
        assert j == i && SwapPartner(key, |data|, j) == j;
      }
    }
  }

  /** The fibonacci branch: walk (fib_a, fib_b) from the key and flip byte i when fib_a mod 4 is 0. */
  method FlipFibonacciBytes(result: array<Byte>, key: int)
    modifies result
    ensures result[..] == ByteTransformed(old(result[..]), 1, key)
  {
    ghost var data := result[..];
    var n := result.Length;
    var fibA, fibB := key % 100, (key / 100) % 100;
    for i := 0 to n
      invariant (fibA, fibB) == FibPair(key, i)
      invariant forall j :: 0 <= j < n ==> result[j] == if j < i && ByteFlips(1, key, j) then data[j] ^ 0xFF else data[j]
    {
      if fibA % 4 == 0 {
        result[i] := result[i] ^ 0xFF;
      }
      fibA, fibB := fibB, (fibA + fibB) % 1000;
    }
  }

  /** The test vectorized_byte_transform's loop makes at position i: whether that byte is flipped. */
  method SelectsByte(transformType: int, key: int, keyByte: int, basePrime: int, i: nat) returns (flip: bool)
    requires transformType != 1 && keyByte == key % 256 && basePrime == 2 + key % 97
    ensures flip == ByteFlips(transformType, key, i)
  {
    flip := false;
    if transformType == 0 {
      var pattern := (keyByte + i * 7) % 256;
      flip := pattern % 3 == 0;
    } else if transformType == 2 {
      var pattern1 := (key + i * 7) % 256;
      var pattern2 := (key * 3 + i * 13) % 256;
      var pattern3 := Xor8(key, i * 17);
      flip := pattern1 % 8 == 0 || pattern2 % 7 == 1 || pattern3 % 9 == 3;
    } else if transformType == 3 {
      var pos := i + basePrime;
      flip := pos % 2 != 0 && pos % 3 != 0 && pos % 5 != 0;
    } else if transformType == 4 {
      flip := (i + key) % 3 == 0;
    } else if transformType == 6 {
      flip := (i * key) % 7 == 0;
    }
  }

  /** The branches that test each position on its own (types 0, 2, 3, 4 and 6); any other type leaves the copy as it is. */
  method FlipSelectedBytes(result: array<Byte>, transformType: int, key: int)
    requires transformType != 1 && transformType != 5
    modifies result
    ensures result[..] == ByteTransformed(old(result[..]), transformType, key)
  {
    ghost var data := result[..];
    var n := result.Length;
    var keyByte := key % 256;
    var basePrime := 2 + key % 97;
    for i := 0 to n
      invariant forall j :: 0 <= j < n ==>
        result[j] == if j < i && ByteFlips(transformType, key, j) then data[j] ^ 0xFF else data[j]
    {
      var flip := SelectsByte(transformType, key, keyByte, basePrime, i);
      if flip {
        result[i] := result[i] ^ 0xFF;
      }
    }
  }

  /** Encryption's round: transform first, then shuffle. */
  function EncryptRound(data: seq<Byte>, r: OptRound, junk: Byte): (out: seq<Byte>)
  {
    ByteShuffled(ByteTransformed(data, r.transformType, r.key), r.shuffleType, junk)
  }

  /** Decryption's round: inverse shuffle first, then the (self-inverse) transform. */
  function DecryptRound(data: seq<Byte>, r: OptRound, junk: Byte): (out: seq<Byte>)
  {
    ByteTransformed(ByteUnshuffled(data, r.shuffleType, junk), r.transformType, r.key)
  }

  function RoundStep(data: seq<Byte>, r: OptRound, encrypt: bool, junk: Byte): (out: seq<Byte>)
  {
    if encrypt then EncryptRound(data, r, junk) else DecryptRound(data, r, junk)
  }

  /** rounds[::-1]. */
  function Reversed<T>(s: seq<T>): (r: seq<T>)
    ensures |r| == |s|
    ensures forall i :: 0 <= i < |s| ==> r[i] == s[|s| - 1 - i]
  {
    if s == [] then [] else [s[|s| - 1]] + Reversed(s[..|s| - 1])
  }

  /** The order the rounds run in: as scheduled to encrypt, last first to decrypt. */
  function RoundList(rounds: seq<OptRound>, encrypt: bool): seq<OptRound>
  {
    if encrypt then rounds else Reversed(rounds)
  }

  /** The loop over round_list, front to back; every round keeps the length. */
  function RunRounds(data: seq<Byte>, roundList: seq<OptRound>, encrypt: bool, junk: Byte): (out: seq<Byte>)
    ensures |out| == |data|
    decreases |roundList|
  {
    if roundList == [] then data
    else RunRounds(RoundStep(data, roundList[0], encrypt, junk), roundList[1..], encrypt, junk)
  }

  /** algorithmic_optimized_process: an empty buffer comes back as it is, any other runs the rounds in order. */
  function Processed(data: seq<Byte>, rounds: seq<OptRound>, encrypt: bool, junk: Byte): (out: seq<Byte>)
  {
    if |data| == 0 then data else RunRounds(data, RoundList(rounds, encrypt), encrypt, junk)
  }

  /** Every round can be undone: the length is even, or no round uses the out-shuffle. */
  predicate Reversible(n: nat, rounds: seq<OptRound>)
  {
    n % 2 == 0 || forall k :: 0 <= k < |rounds| ==> rounds[k].shuffleType != 2
  }

  /** Running one more round at the end of the list applies it to the result of the others. */
  lemma {:induction false} RunRoundsSnoc(data: seq<Byte>, roundList: seq<OptRound>, r: OptRound, encrypt: bool, junk: Byte)
    ensures RunRounds(data, roundList + [r], encrypt, junk) == RoundStep(RunRounds(data, roundList, encrypt, junk), r, encrypt, junk)
    decreases |roundList|
  {
    if roundList == [] {
      assert [] + [r] == [r];
    } else {
      assert (roundList + [r])[1..] == roundList[1..] + [r];
      RunRoundsSnoc(RoundStep(data, roundList[0], encrypt, junk), roundList[1..], r, encrypt, junk);
    }
  }

  /** Encryption applies the scheduled rounds in order: a round added at the end runs last, transform then shuffle. */
  lemma EncryptRunsRoundsInOrder(data: seq<Byte>, rounds: seq<OptRound>, r: OptRound, junk: Byte)
    requires |data| > 0
    ensures Processed(data, rounds + [r], true, junk)
      == ByteShuffled(ByteTransformed(Processed(data, rounds, true, junk), r.transformType, r.key), r.shuffleType, junk)
  {
    RunRoundsSnoc(data, rounds, r, true, junk);
  }

  /** Decryption runs the schedule backwards: the last round is undone first, inverse shuffle then transform. */
  lemma DecryptRunsRoundsBackwards(data: seq<Byte>, rounds: seq<OptRound>, r: OptRound, junk: Byte)
    requires |data| > 0
    ensures Processed(data, rounds + [r], false, junk)
      == Processed(ByteTransformed(ByteUnshuffled(data, r.shuffleType, junk), r.transformType, r.key), rounds, false, junk)
  {
    assert (rounds + [r])[..|rounds|] == rounds;
    assert Reversed(rounds + [r]) == [r] + Reversed(rounds);
    assert ([r] + Reversed(rounds))[1..] == Reversed(rounds);
  }

  /** An empty buffer is returned as it is, whichever the direction. */
  lemma ProcessEmpty(rounds: seq<OptRound>, encrypt: bool, junk: Byte)
    ensures Processed([], rounds, encrypt, junk) == []
  {
  }

  /** Undoing the rounds last to first restores a buffer that every round can reverse, whatever the unwritten bytes were. */
  lemma {:induction false} RunRoundsRoundTrip(data: seq<Byte>, rounds: seq<OptRound>, junk1: Byte, junk2: Byte)
    requires Reversible(|data|, rounds)
    ensures RunRounds(RunRounds(data, rounds, true, junk1), Reversed(rounds), false, junk2) == data
    decreases |rounds|
  {
    if rounds != [] {
      var init, r := rounds[..|rounds| - 1], rounds[|rounds| - 1];
      assert rounds == init + [r];
      assert Reversible(|data|, init) by {
        if |data| % 2 == 1 {
          forall k | 0 <= k < |init|
            ensures init[k].shuffleType != 2
          {
            assert init[k] == rounds[k];
          }
        }
      }
      var mid := RunRounds(data, init, true, junk1);
      RunRoundsSnoc(data, init, r, true, junk1);
      var t := ByteTransformed(mid, r.transformType, r.key);
      assert Reversed(rounds) == [r] + Reversed(init);
      assert ([r] + Reversed(init))[1..] == Reversed(init);
      ByteShuffleRoundTrip(t, r.shuffleType, junk1, junk2);
      ByteTransformSelfInverse(mid, r.transformType, r.key);
      assert DecryptRound(EncryptRound(mid, r, junk1), r, junk2) == mid;
      RunRoundsRoundTrip(data, init, junk1, junk2);
    }
  }

  /** Decrypting an encrypted buffer gives it back when its length is even (or no round uses the out-shuffle). */
  lemma ProcessRoundTrip(data: seq<Byte>, rounds: seq<OptRound>, junk1: Byte, junk2: Byte)
    requires Reversible(|data|, rounds)
    ensures Processed(Processed(data, rounds, true, junk1), rounds, false, junk2) == data
  {
    if |data| > 0 {
      RunRoundsRoundTrip(data, rounds, junk1, junk2);
    }
  }

  /** One pass of the loop body over round_list. */
  method ApplyRound(data: array<Byte>, r: OptRound, encrypt: bool, junk: Byte) returns (result: array<Byte>)
    ensures fresh(result) && result[..] == RoundStep(data[..], r, encrypt, junk)
  {
    if encrypt {
      var transformed := VectorizedByteTransform(data, r.transformType, r.key);
      result := UltraFastByteShuffle(transformed, r.shuffleType, junk);
    } else {
      var unshuffled := UltraFastInverseByteShuffle(data, r.shuffleType, junk);
      result := VectorizedByteTransform(unshuffled, r.transformType, r.key);
    }
  }

  /** The loop over round_list on an array. */
  method ApplyRoundList(data: array<Byte>, roundList: seq<OptRound>, encrypt: bool, junk: Byte) returns (result: array<Byte>)
    ensures fresh(result) && result[..] == RunRounds(data[..], roundList, encrypt, junk)
  {
    result := new Byte[data.Length](k requires 0 <= k < data.Length reads data => data[k]);
    assert result[..] == data[..] && roundList[0..] == roundList;
    for idx := 0 to |roundList|
      invariant fresh(result)
      invariant RunRounds(data[..], roundList, encrypt, junk) == RunRounds(result[..], roundList[idx..], encrypt, junk)
    {
      assert roundList[idx..][1..] == roundList[idx + 1..];
      result := ApplyRound(result, roundList[idx], encrypt, junk);
    }
  }

  /** algorithmic_optimized_process on an array. */
  method AlgorithmicOptimizedProcess(data: array<Byte>, rounds: seq<OptRound>, encrypt: bool, junk: Byte) returns (result: array<Byte>)
    ensures fresh(result) && result[..] == Processed(data[..], rounds, encrypt, junk)
  {
    if data.Length == 0 {
      result := new Byte[0];
      return;
    }
    var roundList := if encrypt then rounds else Reversed(rounds);
    result := ApplyRoundList(data, roundList, encrypt, junk);
  }

  /** The block size of cache_optimized_chunk_processing. */
  const CacheBlockSize: nat := 65536

  /** cache_optimized_chunk_processing: every 65536-byte block (the last one shorter) runs all the rounds on its own. */
  function CacheProcessed(data: seq<Byte>, rounds: seq<OptRound>, encrypt: bool, junk: Byte): (out: seq<Byte>)
    ensures |out| == |data|
    decreases |data|
  {
    if |data| == 0 then []
    else
      var blockEnd := Chunking.MinNat(CacheBlockSize, |data|);
      RunRounds(data[..blockEnd], RoundList(rounds, encrypt), encrypt, junk)
        + CacheProcessed(data[blockEnd..], rounds, encrypt, junk)
  }

  /** Processing data[start:] block by block is processing the block at start, then the rest. */
  lemma CacheStep(data: seq<Byte>, start: nat, rounds: seq<OptRound>, encrypt: bool, junk: Byte)
    requires start < |data|
    ensures var blockEnd := Chunking.MinNat(start + CacheBlockSize, |data|);
      CacheProcessed(data[start..], rounds, encrypt, junk)
        == RunRounds(data[start..blockEnd], RoundList(rounds, encrypt), encrypt, junk)
           + CacheProcessed(data[blockEnd..], rounds, encrypt, junk)
  {
    var blockEnd := Chunking.MinNat(start + CacheBlockSize, |data|);
    assert data[start..] == data[start..blockEnd] + data[blockEnd..];
    CacheSplit(data[start..], data[start..blockEnd], data[blockEnd..], rounds, encrypt, junk);
  }

  /** A buffer of at most one block is processed exactly as the whole-buffer path processes it. */
  lemma CacheSingleBlock(data: seq<Byte>, rounds: seq<OptRound>, encrypt: bool, junk: Byte)
    requires |data| <= CacheBlockSize
    ensures CacheProcessed(data, rounds, encrypt, junk) == Processed(data, rounds, encrypt, junk)
  {
    if |data| > 0 {
      assert data[..|data|] == data;
      assert data[|data|..] == [];
    }
  }

  /** A buffer whose first block is a: block by block, it is a through the rounds, then the rest block by block. */
  lemma CacheSplit(x: seq<Byte>, a: seq<Byte>, b: seq<Byte>, rounds: seq<OptRound>, encrypt: bool, junk: Byte)
    requires x == a + b && |x| > 0 && |a| == Chunking.MinNat(CacheBlockSize, |x|)
    ensures CacheProcessed(x, rounds, encrypt, junk)
      == RunRounds(a, RoundList(rounds, encrypt), encrypt, junk) + CacheProcessed(b, rounds, encrypt, junk)
  {
    assert x[..|a|] == a && x[|a|..] == b;
  }

  /** Decrypting block by block what was encrypted block by block gives the buffer back when its length is even (or no round uses the out-shuffle). */
  lemma {:induction false} CacheRoundTrip(data: seq<Byte>, rounds: seq<OptRound>, junk1: Byte, junk2: Byte)
    requires Reversible(|data|, rounds)
    ensures CacheProcessed(CacheProcessed(data, rounds, true, junk1), rounds, false, junk2) == data
    decreases |data|
  {
    if |data| > 0 {
      var blockEnd := Chunking.MinNat(CacheBlockSize, |data|);
      var block, rest := data[..blockEnd], data[blockEnd..];
      assert data == block + rest;
      var encBlock := RunRounds(block, rounds, true, junk1);
      var encRest := CacheProcessed(rest, rounds, true, junk1);
      CacheSplit(data, block, rest, rounds, true, junk1);
      CacheSplit(encBlock + encRest, encBlock, encRest, rounds, false, junk2);
      ReversibleBlocks(|data|, |block|, rounds);
      RunRoundsRoundTrip(block, rounds, junk1, junk2);
      CacheRoundTrip(rest, rounds, junk1, junk2);
    }
  }

  /** The first block of a reversible buffer, and what follows it, are reversible too. */
  lemma ReversibleBlocks(n: nat, m: nat, rounds: seq<OptRound>)
    requires Reversible(n, rounds) && m == Chunking.MinNat(CacheBlockSize, n)
    ensures Reversible(m, rounds) && Reversible(n - m, rounds)
  {
    if n % 2 == 0 {
      if m == CacheBlockSize {
        assert m == 2 * 32768;
      }
      assert m % 2 == 0;
      assert (n - m) % 2 == 0;
    }
  }

  /** The body of the block loop: data[start:end] copied out, run through the rounds and written back in place. */
  method ProcessBlockInPlace(result: array<Byte>, blockStart: nat, blockEnd: nat, roundList: seq<OptRound>, encrypt: bool, junk: Byte)
    requires blockStart <= blockEnd <= result.Length
    modifies result
    ensures result[..] == old(result[..blockStart]) + RunRounds(old(result[blockStart..blockEnd]), roundList, encrypt, junk) + old(result[blockEnd..])
  {
    var block := new Byte[blockEnd - blockStart](k requires 0 <= k < blockEnd - blockStart reads result => result[blockStart + k]);
    assert block[..] == result[blockStart..blockEnd];
    block := ApplyRoundList(block, roundList, encrypt, junk);
    WriteBack(result, blockStart, block);
  }

  /** result[start:start + len(block)] = block. */
  method WriteBack(result: array<Byte>, blockStart: nat, block: array<Byte>)
    requires blockStart + block.Length <= result.Length && block != result
    modifies result
    ensures result[..] == old(result[..blockStart]) + block[..] + old(result[blockStart + block.Length..])
  {
    forall k | blockStart <= k < blockStart + block.Length {
      result[k] := block[k - blockStart];
    }
  }

  /** cache_optimized_chunk_processing on an array: each block is copied out, processed and written back into the result. */
  method CacheOptimizedChunkProcessing(data: array<Byte>, rounds: seq<OptRound>, encrypt: bool, junk: Byte) returns (result: array<Byte>)
    ensures fresh(result) && result[..] == CacheProcessed(data[..], rounds, encrypt, junk)
  {
    var n := data.Length;
    result := new Byte[n](k requires 0 <= k < n reads data => data[k]);
    ghost var input := data[..];
    ghost var done := 0;
    var blockStart := 0;
    while blockStart < n
      invariant fresh(result) && result.Length == n
      invariant done == Chunking.MinNat(blockStart, n)
      invariant CacheProcessed(input, rounds, encrypt, junk) == result[..done] + CacheProcessed(input[done..], rounds, encrypt, junk)
      invariant result[done..] == input[done..]
      decreases n - blockStart
    {
      var blockEnd := Chunking.MinNat(blockStart + CacheBlockSize, n);
      var roundList := if encrypt then rounds else Reversed(rounds);
      ghost var before := result[..];
      ProcessBlockInPlace(result, blockStart, blockEnd, roundList, encrypt, junk);
      ghost var done0 := done;
      blockStart := blockStart + CacheBlockSize;
      done := blockEnd;
      CacheLoopStep(input, rounds, encrypt, junk, before, done0, done, result[..]);
    }
    assert result[..done] == result[..];
  }

  /** One pass of the block loop keeps the processed prefix in step with CacheProcessed. */
  lemma CacheLoopStep(input: seq<Byte>, rounds: seq<OptRound>, encrypt: bool, junk: Byte,
                      before: seq<Byte>, done0: nat, done: nat, after: seq<Byte>)
    requires |before| == |input| && done0 < |input| && done == Chunking.MinNat(done0 + CacheBlockSize, |input|)
    requires CacheProcessed(input, rounds, encrypt, junk) == before[..done0] + CacheProcessed(input[done0..], rounds, encrypt, junk)
    requires before[done0..] == input[done0..]
    requires after == before[..done0] + RunRounds(before[done0..done], RoundList(rounds, encrypt), encrypt, junk) + before[done..]
    ensures CacheProcessed(input, rounds, encrypt, junk) == after[..done] + CacheProcessed(input[done..], rounds, encrypt, junk)
    ensures after[done..] == input[done..]
  {
    CacheStep(input, done0, rounds, encrypt, junk);
    var mid := RunRounds(before[done0..done], RoundList(rounds, encrypt), encrypt, junk);
    assert before[done0..done] == input[done0..done] by {
      assert before[done0..][..done - done0] == before[done0..done];
      assert input[done0..][..done - done0] == input[done0..done];
    }
    assert before[done..] == input[done..] by {
      assert before[done0..][done - done0..] == before[done..];
      assert input[done0..][done - done0..] == input[done..];
    }
    Seqs.SplitThree(before[..done0], mid, before[done..], after);
    Seqs.ConcatAssoc(before[..done0], mid, CacheProcessed(input[done..], rounds, encrypt, junk));
  }

  /** The (shuffle_type, transform_type, key) triple of one scheduled round. */
  function OptRoundOf(r: Pipeline.RoundInfo): OptRound
  {
    OptRound(JitOptimized.ShuffleCode(r.shuffle), JitOptimized.TransformCode(r.transform), r.key)
  }

  /** The whole schedule in the byte pipeline's form. */
  function ConvertedRounds(structure: seq<Pipeline.RoundInfo>): (opt: seq<OptRound>)
    ensures |opt| == |structure|
  {
    seq(|structure|, k requires 0 <= k < |structure| => OptRoundOf(structure[k]))
  }

  /** convert_round_structure_for_optimization: look each round's names up in the two code maps (0 when absent) and keep its key. */
  method ConvertRoundStructure(structure: seq<Pipeline.RoundInfo>) returns (optimizedRounds: seq<OptRound>)
    ensures optimizedRounds == ConvertedRounds(structure)
  {
    optimizedRounds := [];
    for k := 0 to |structure|
      invariant optimizedRounds == ConvertedRounds(structure[..k])
    {
      var roundInfo := structure[k];
      var shuffleType := JitOptimized.CodeOrZero(JitOptimized.ShuffleTypeMap, ShuffleName(roundInfo.shuffle));
      var transformType := JitOptimized.CodeOrZero(JitOptimized.TransformTypeMap, TransformName(roundInfo.transform));
      JitOptimized.RoundNamesGiveCodes(roundInfo);
      optimizedRounds := optimizedRounds + [OptRound(shuffleType, transformType, roundInfo.key)];
      assert structure[..k + 1][..k] == structure[..k];
    }
    assert structure[..|structure|] == structure;
  }

  /** The conversion loses nothing the byte rounds use: each triple decodes back to its round's shuffle kind, transform kind and key. */
  lemma ConvertedRoundsDecode(structure: seq<Pipeline.RoundInfo>, k: nat)
    requires k < |structure|
    ensures JitOptimized.ShuffleOfCode(ConvertedRounds(structure)[k].shuffleType) == structure[k].shuffle
    ensures JitOptimized.TransformOfCode(ConvertedRounds(structure)[k].transformType) == Some(structure[k].transform)
    ensures ConvertedRounds(structure)[k].key == structure[k].key
  {
    JitOptimized.TypeMapsAgree(structure[k].transform, structure[k].shuffle);
  }

  /** Eight bytes as a little-endian 64-bit word. */
  function Word(b: seq<Byte>): bv64
    requires |b| == 8
  {
    (b[0] as bv64) | (b[1] as bv64 << 8) | (b[2] as bv64 << 16) | (b[3] as bv64 << 24)
      | (b[4] as bv64 << 32) | (b[5] as bv64 << 40) | (b[6] as bv64 << 48) | (b[7] as bv64 << 56)
  }

  /** The eight bytes of a word, least significant first. */
  function WordBytes(w: bv64): (b: seq<Byte>)
    ensures |b| == 8
  {
    [(w & 0xFF) as Byte, ((w >> 8) & 0xFF) as Byte, ((w >> 16) & 0xFF) as Byte, ((w >> 24) & 0xFF) as Byte,
     ((w >> 32) & 0xFF) as Byte, ((w >> 40) & 0xFF) as Byte, ((w >> 48) & 0xFF) as Byte, ((w >> 56) & 0xFF) as Byte]
  }

  /** Rotate a 64-bit word left by one bit. */
  function RotateLeft(w: bv64): bv64 { (w << 1) | (w >> 63) }

  /** A byte shifted left by one, taking in the top bit of carry. */
  function ShiftInLeft(b: Byte, carry: Byte): Byte { (b << 1) | (carry >> 7) }

  /** A byte shifted right by one, taking in the bottom bit of carry. */
  function ShiftInRight(b: Byte, carry: Byte): Byte { (b >> 1) | (carry << 7) }

  lemma ShiftInRoundTrip(a: Byte, b: Byte, c: Byte)
    ensures ShiftInRight(ShiftInLeft(b, a), ShiftInLeft(c, b)) == b
    ensures ShiftInLeft(ShiftInRight(b, c), ShiftInRight(a, b)) == b
  {
  }

  /** The bytes covered by whole 8-byte groups. */
  function WholeGroups(n: nat): nat { n - n % 8 }

  /** The less significant neighbour of byte k inside its little-endian group (wrapping to the top byte). */
  function GroupPrev(k: nat): nat { if k % 8 == 0 then k + 7 else k - 1 }

  /** The more significant neighbour of byte k inside its group (wrapping to the bottom byte). */
  function GroupNext(k: nat): nat { if k % 8 == 7 then k - 7 else k + 1 }

  lemma GroupNeighbours(k: nat, n: nat)
    requires k < WholeGroups(n)
    ensures GroupPrev(k) < WholeGroups(n) && GroupNext(k) < WholeGroups(n)
    ensures GroupNext(GroupPrev(k)) == k && GroupPrev(GroupNext(k)) == k
  {
  }

  /**
   * uint64_bulk_processing, byte by byte: rotating a little-endian word left by one bit moves
   * the top bit of each byte into the bottom of the next byte up, and the top bit of the word
   * into the bottom byte; a tail of under 8 bytes is copied.
   */
  function Bulk(data: seq<Byte>): (out: seq<Byte>)
    ensures |out| == |data|
  {
    seq(|data|, k requires 0 <= k < |data| =>
      if k < WholeGroups(|data|) then GroupNeighbours(k, |data|); ShiftInLeft(data[k], data[GroupPrev(k)]) else data[k])
  }

  /** Rotating every whole group right by one bit instead. */
  function BulkInverse(data: seq<Byte>): (out: seq<Byte>)
    ensures |out| == |data|
  {
    seq(|data|, k requires 0 <= k < |data| =>
      if k < WholeGroups(|data|) then GroupNeighbours(k, |data|); ShiftInRight(data[k], data[GroupNext(k)]) else data[k])
  }

  /** The bulk rotation is a bijection of byte buffers: rotating back restores every buffer. */
  lemma BulkRoundTrip(data: seq<Byte>)
    ensures BulkInverse(Bulk(data)) == data
    ensures Bulk(BulkInverse(data)) == data
  {
    var n := |data|;
    forall k | 0 <= k < n ensures BulkInverse(Bulk(data))[k] == data[k] && Bulk(BulkInverse(data))[k] == data[k] {
      if k < WholeGroups(n) {
        GroupNeighbours(k, n);
        ShiftInRoundTrip(data[GroupPrev(k)], data[k], data[GroupNext(k)]);
      }
    }
  }

  lemma WordRotationBytes(b0: Byte, b1: Byte, b2: Byte, b3: Byte, b4: Byte, b5: Byte, b6: Byte, b7: Byte)
    ensures WordBytes(RotateLeft(Word([b0, b1, b2, b3, b4, b5, b6, b7]))) ==
      [ShiftInLeft(b0, b7), ShiftInLeft(b1, b0), ShiftInLeft(b2, b1), ShiftInLeft(b3, b2),
       ShiftInLeft(b4, b3), ShiftInLeft(b5, b4), ShiftInLeft(b6, b5), ShiftInLeft(b7, b6)]
  {
  }

  lemma BulkGroup(data: seq<Byte>, i: nat)
    requires i % 8 == 0 && i + 8 <= |data|
    ensures Bulk(data)[i..i + 8] ==
      [ShiftInLeft(data[i], data[i + 7]), ShiftInLeft(data[i + 1], data[i]), ShiftInLeft(data[i + 2], data[i + 1]), ShiftInLeft(data[i + 3], data[i + 2]),
       ShiftInLeft(data[i + 4], data[i + 3]), ShiftInLeft(data[i + 5], data[i + 4]), ShiftInLeft(data[i + 6], data[i + 5]), ShiftInLeft(data[i + 7], data[i + 6])]
  {
    var b := Bulk(data);
    Seqs.SliceOfEight(b, i);
    assert b[i] == ShiftInLeft(data[i], data[i + 7]) by { BulkAt(data, i, 0); }
    assert b[i + 1] == ShiftInLeft(data[i + 1], data[i]) by { BulkAt(data, i, 1); }
    assert b[i + 2] == ShiftInLeft(data[i + 2], data[i + 1]) by { BulkAt(data, i, 2); }
    assert b[i + 3] == ShiftInLeft(data[i + 3], data[i + 2]) by { BulkAt(data, i, 3); }
    assert b[i + 4] == ShiftInLeft(data[i + 4], data[i + 3]) by { BulkAt(data, i, 4); }
    assert b[i + 5] == ShiftInLeft(data[i + 5], data[i + 4]) by { BulkAt(data, i, 5); }
    assert b[i + 6] == ShiftInLeft(data[i + 6], data[i + 5]) by { BulkAt(data, i, 6); }
    assert b[i + 7] == ShiftInLeft(data[i + 7], data[i + 6]) by { BulkAt(data, i, 7); }
  }

  /** Byte j of the group at i takes its carry from the byte below it, the bottom byte from the top one. */
  lemma BulkAt(data: seq<Byte>, i: nat, j: nat)
    requires i % 8 == 0 && i + 8 <= |data| && j < 8
    ensures Bulk(data)[i + j] == ShiftInLeft(data[i + j], data[if j == 0 then i + 7 else i + j - 1])
  {
    Arith.DivModUnique(i + j, i / 8, 8, j);
    Arith.DivModUnique(|data|, |data| / 8, 8, |data| % 8);
    assert i + j < WholeGroups(|data|);
  }

  /** Each group of Bulk is the group's bytes packed into a word, rotated left and unpacked. */
  lemma RotatedWordIsBulkGroup(data: seq<Byte>, i: nat)
    requires i % 8 == 0 && i + 8 <= |data|
    ensures WordBytes(RotateLeft(Word(data[i..i + 8]))) == Bulk(data)[i..i + 8]
  {
    assert data[i..i + 8] == [data[i], data[i + 1], data[i + 2], data[i + 3], data[i + 4], data[i + 5], data[i + 6], data[i + 7]];
    WordRotationBytes(data[i], data[i + 1], data[i + 2], data[i + 3], data[i + 4], data[i + 5], data[i + 6], data[i + 7]);
    BulkGroup(data, i);
  }

  /** The packing step: data[i] | data[i + 1] << 8 | ... | data[i + 7] << 56. */
  method LoadWord(data: array<Byte>, i: nat) returns (chunk: bv64)
    requires i + 8 <= data.Length
    ensures chunk == Word(data[i..i + 8])
  {
    chunk := (data[i] as bv64) | (data[i + 1] as bv64 << 8) | (data[i + 2] as bv64 << 16) | (data[i + 3] as bv64 << 24)
      | (data[i + 4] as bv64 << 32) | (data[i + 5] as bv64 << 40) | (data[i + 6] as bv64 << 48) | (data[i + 7] as bv64 << 56);
    ghost var group := data[i..i + 8];
    assert group[0] == data[i] && group[1] == data[i + 1] && group[2] == data[i + 2] && group[3] == data[i + 3];
    assert group[4] == data[i + 4] && group[5] == data[i + 5] && group[6] == data[i + 6] && group[7] == data[i + 7];
  }

  /** The unpacking step: the eight bytes of a word written at i, least significant first. */
  method StoreWord(result: array<Byte>, i: nat, rotated: bv64)
    requires i + 8 <= result.Length
    modifies result
    ensures result[..] == old(result[..i]) + WordBytes(rotated) + old(result[i + 8..])
  {
    result[i] := (rotated & 0xFF) as Byte;
    result[i + 1] := ((rotated >> 8) & 0xFF) as Byte;
    result[i + 2] := ((rotated >> 16) & 0xFF) as Byte;
    result[i + 3] := ((rotated >> 24) & 0xFF) as Byte;
    result[i + 4] := ((rotated >> 32) & 0xFF) as Byte;
    result[i + 5] := ((rotated >> 40) & 0xFF) as Byte;
    result[i + 6] := ((rotated >> 48) & 0xFF) as Byte;
    result[i + 7] := ((rotated >> 56) & 0xFF) as Byte;
  }

  /** Writing the rotated word of the group at i puts Bulk's group there. */
  method StoreGroup(result: array<Byte>, i: nat, rotated: bv64, ghost input: seq<Byte>)
    requires i % 8 == 0 && i + 8 <= result.Length == |input| && rotated == RotateLeft(Word(input[i..i + 8]))
    modifies result
    ensures result[..] == old(result[..i]) + Bulk(input)[i..i + 8] + old(result[i + 8..])
  {
    RotatedWordIsBulkGroup(input, i);
    StoreWord(result, i, rotated);
  }

  /** The copy after the groups below i are processed: Bulk's bytes below i, the input's from i on. */
  ghost function BulkBelow(input: seq<Byte>, i: nat): (r: seq<Byte>)
    requires i <= |input|
  {
    Bulk(input)[..i] + input[i..]
  }

  /** Storing the group at i extends the processed prefix by that group and leaves the rest as it was. */
  lemma BulkLoopStep(input: seq<Byte>, i: nat, before: seq<Byte>, after: seq<Byte>)
    requires i + 8 <= |input| && before == BulkBelow(input, i)
    requires after == before[..i] + Bulk(input)[i..i + 8] + before[i + 8..]
    ensures after == BulkBelow(input, i + 8)
  {
    var b := Bulk(input);
    assert before[..i] == b[..i];
    assert before[i + 8..] == input[i + 8..];
    assert b[..i] + b[i..i + 8] == b[..i + 8];
  }

  /** Past the last whole group the tail is as it was: the processed prefix and the tail make up Bulk. */
  lemma BulkLoopDone(input: seq<Byte>, i: nat)
    requires i % 8 == 0 && i <= |input| < i + 8
    ensures BulkBelow(input, i) == Bulk(input)
  {
    var n := |input|;
    Arith.DivModUnique(n, i / 8, 8, n - i);
    assert i == WholeGroups(n);
    var r, b := BulkBelow(input, i), Bulk(input);
    forall k | 0 <= k < n ensures r[k] == b[k] {
      if k >= i {
        assert r[k] == input[i..][k - i];
      }
    }
  }

  /** The load and the rotation of one group: chunk << 1 | chunk >> 63. */
  method LoadRotated(data: array<Byte>, i: nat) returns (rotated: bv64)
    requires i + 8 <= data.Length
    ensures rotated == RotateLeft(Word(data[i..i + 8]))
  {
    var chunk := LoadWord(data, i);
    rotated := (chunk << 1) | (chunk >> 63);
  }

  /** uint64_bulk_processing on an array: pack, rotate and unpack each group of 8 in a copy. */
  method Uint64BulkProcessing(data: array<Byte>) returns (result: array<Byte>)
    ensures fresh(result) && result[..] == Bulk(data[..])
  {
    var n := data.Length;
    result := new Byte[n](k requires 0 <= k < n reads data => data[k]);
    ghost var input := data[..];
    var i := 0;
    while i + 8 <= n
      invariant i <= n && i % 8 == 0 && fresh(result) && result.Length == n
      invariant data[..] == input
      invariant result[..] == BulkBelow(input, i)
      decreases n - i
    {
      var rotated := LoadRotated(data, i);
      ghost var before := result[..];
      StoreGroup(result, i, rotated, input);
      BulkLoopStep(input, i, before, result[..]);
      Arith.MultiplePlus(i, 8);
      i := i + 8;
    }
    BulkLoopDone(input, i);
  }
}
