/**
 * OptimizedFaroCipher of faro_cipher/optimized.py: the reference pipeline
 * with a pool of reusable bit arrays, chunks grouped into batches, and the
 * sequential batch loop.
 *
 * The chunk step writes the transform's result nowhere (the transforms
 * return copies), so every chunk is only shuffled: Engine.ShuffleOnly.
 * The round trip still holds; the ciphertext differs from the reference
 * one (see TransformDiscarded).
 *
 * Pooled arrays are array<Bit>: the pool is only ever asked for uint8
 * arrays, and they only ever hold bits.
 */
module Optimized {
  import Seqs
  import opened Bits
  import opened Wrappers
  import opened ShuffleSpec
  import opened Transforms
  import opened Utils
  import opened Pipeline
  import opened Chunking
  import Shuffles
  import Core

  /** The value of max_pool_size when MemoryPool() is built without one. */
  const DefaultMaxPoolSize: int := 100

  /**
   * The dtype half of a pool key. get_array keys by its dtype argument, the
   * scalar type np.uint8; return_array keys by array.dtype, a dtype object.
   * The two compare equal but hash differently, so as dictionary keys they
   * never meet.
   */
  datatype KeyDtype = ScalarType | DtypeObject

  /** A pool key: the array length and how the dtype was written. */
  datatype PoolKey = PoolKey(size: nat, dtype: KeyDtype)

  /** get_array's key, (size, np.uint8). */
  function RequestKey(size: nat): (k: PoolKey)
    ensures k.size == size && k.dtype == ScalarType
  {
    PoolKey(size, ScalarType)
  }

  /** return_array's key, (len(array), array.dtype). */
  function StoreKey(a: array<Bit>): (k: PoolKey)
    ensures k.size == a.Length && k.dtype == DtypeObject
  {
    PoolKey(a.Length, DtypeObject)
  }

  /** No list is longer than the bound (none at all when it is not positive), and every pooled array has its key's length. */
  predicate Bounded(pools: map<PoolKey, seq<array<Bit>>>, maxPoolSize: int)
  {
    forall key :: key in pools ==>
      (|pools[key]| == 0 || |pools[key]| <= maxPoolSize) &&
      forall k :: 0 <= k < |pools[key]| ==> pools[key][k].Length == key.size
  }

  /** Every key was made by return_array. */
  predicate StoredKeysOnly(pools: map<PoolKey, seq<array<Bit>>>)
  {
    forall key :: key in pools ==> key.dtype == DtypeObject
  }

  /** get_array's lookup under a key: the last array of the key's list, popped, or None when there is none and a new one is made. */
  function Take(pools: map<PoolKey, seq<array<Bit>>>, key: PoolKey): (r: (Option<array<Bit>>, map<PoolKey, seq<array<Bit>>>))
    ensures r.0.Some? <==> key in pools && |pools[key]| > 0
    ensures r.0.None? ==> r.1 == pools
    ensures r.0.Some? ==> r.0.value == pools[key][|pools[key]| - 1] && r.1 == pools[key := pools[key][..|pools[key]| - 1]]
  {
    if key in pools && |pools[key]| > 0 then
      var list := pools[key];
      (Some(list[|list| - 1]), pools[key := list[..|list| - 1]])
    else (None, pools)
  }

  /** return_array: None is ignored; otherwise the array's list is created if missing and the array appended while the list is shorter than the bound. */
  function Returned(pools: map<PoolKey, seq<array<Bit>>>, maxPoolSize: int, a: array?<Bit>): (r: map<PoolKey, seq<array<Bit>>>)
    ensures a == null ==> r == pools
    ensures a != null ==> StoreKey(a) in r && r.Keys == pools.Keys + {StoreKey(a)}
    ensures forall key :: key in pools && (a == null || key != StoreKey(a)) ==> r[key] == pools[key]
  {
    if a == null then pools
    else
      var arr: array<Bit> := a;
      var key := StoreKey(arr);
      var list := if key in pools then pools[key] else [];
      pools[key := if |list| < maxPoolSize then list + [arr] else list]
  }

  /** Every array the pools hold. */
  ghost function PooledOf(pools: map<PoolKey, seq<array<Bit>>>): set<array<Bit>>
  {
    set key, k | key in pools && 0 <= k < |pools[key]| :: pools[key][k]
  }

  /** No array sits twice in one list. */
  ghost predicate DistinctOf(pools: map<PoolKey, seq<array<Bit>>>)
  {
    forall key, j, k :: key in pools && 0 <= j < k < |pools[key]| ==> pools[key][j] != pools[key][k]
  }

  /**
   * get_array only removes arrays; the one it pops was held, and is no
   * longer held when no list repeats an array and every key came from
   * return_array (so lists under different keys hold different lengths).
   */
  lemma TakeShrinks(pools: map<PoolKey, seq<array<Bit>>>, maxPoolSize: int, key: PoolKey)
    requires Bounded(pools, maxPoolSize)
    ensures PooledOf(Take(pools, key).1) <= PooledOf(pools)
    ensures Take(pools, key).0.Some? ==> Take(pools, key).0.value in PooledOf(pools)
    ensures DistinctOf(pools) ==> DistinctOf(Take(pools, key).1)
    ensures DistinctOf(pools) && StoredKeysOnly(pools) && Take(pools, key).0.Some? ==> Take(pools, key).0.value !in PooledOf(Take(pools, key).1)
  {
    var (got, rest) := Take(pools, key);
    forall b | b in PooledOf(rest) ensures b in PooledOf(pools) {
      var s, k :| s in rest && 0 <= k < |rest[s]| && rest[s][k] == b;
      assert pools[s][k] == b;
    }
    if got.Some? {
      var last := |pools[key]| - 1;
      assert pools[key][last] in PooledOf(pools);
    }
  }

  /** return_array adds at most the returned array, and keeps the lists free of repeats when the array was not already held. */
  lemma ReturnedGrows(pools: map<PoolKey, seq<array<Bit>>>, maxPoolSize: int, a: array?<Bit>)
    ensures forall b :: b in PooledOf(Returned(pools, maxPoolSize, a)) ==> b in PooledOf(pools) || b == a
    ensures DistinctOf(pools) && (a == null || a !in PooledOf(pools)) ==> DistinctOf(Returned(pools, maxPoolSize, a))
  {
    var after := Returned(pools, maxPoolSize, a);
    if a != null {
      var key := StoreKey(a);
      forall b | b in PooledOf(after) && b != a ensures b in PooledOf(pools) {
        var s, k :| s in after && 0 <= k < |after[s]| && after[s][k] == b;
        assert s in pools && pools[s][k] == b;
      }
      if DistinctOf(pools) && a !in PooledOf(pools) {
        forall s, j, k | s in after && 0 <= j < k < |after[s]| ensures after[s][j] != after[s][k] {
          if s == key && k == |after[s]| - 1 && (s !in pools || after[s] != pools[s]) {
            assert after[s][j] == pools[s][j];
            assert pools[s][j] in PooledOf(pools);
          }
        }
      }
    }
  }

  /** Taking from and returning to a bounded pool keeps it bounded, and returning keeps every key one return_array made. */
  lemma PoolOperationsKeepBounded(pools: map<PoolKey, seq<array<Bit>>>, maxPoolSize: int, key: PoolKey, a: array?<Bit>)
    requires Bounded(pools, maxPoolSize)
    ensures Bounded(Take(pools, key).1, maxPoolSize)
    ensures Take(pools, key).0.Some? ==> Take(pools, key).0.value.Length == key.size
    ensures Bounded(Returned(pools, maxPoolSize, a), maxPoolSize)
    ensures StoredKeysOnly(pools) ==> StoredKeysOnly(Returned(pools, maxPoolSize, a))
  {
  }

  /** get_array's lookup never finds what return_array stored: its key's dtype half is the scalar type. */
  lemma RequestMisses(pools: map<PoolKey, seq<array<Bit>>>, size: nat)
    requires StoredKeysOnly(pools)
    ensures Take(pools, RequestKey(size)) == (None, pools)
  {
  }

  /** Even right after an array of the size is returned to a list with room, get_array of that size makes a new one. */
  lemma ReturnThenRequestMisses(pools: map<PoolKey, seq<array<Bit>>>, maxPoolSize: int, a: array<Bit>)
    requires StoredKeysOnly(pools)
    ensures Take(Returned(pools, maxPoolSize, a), RequestKey(a.Length)).0 == None
  {
    var after := Returned(pools, maxPoolSize, a);
    assert StoredKeysOnly(after);
    RequestMisses(after, a.Length);
  }

  /** With the key return_array uses, an array returned to a list with room is the next one handed out. */
  lemma ReturnThenTake(pools: map<PoolKey, seq<array<Bit>>>, maxPoolSize: int, a: array<Bit>)
    requires (if StoreKey(a) in pools then |pools[StoreKey(a)]| else 0) < maxPoolSize
    ensures Take(Returned(pools, maxPoolSize, a), StoreKey(a)).0 == Some(a)
    ensures Take(Returned(pools, maxPoolSize, a), StoreKey(a)).1 == pools[StoreKey(a) := if StoreKey(a) in pools then pools[StoreKey(a)] else []]
  {
    var key := StoreKey(a);
    var list := if key in pools then pools[key] else [];
    var after := Returned(pools, maxPoolSize, a);
    assert after[key] == list + [a];
    assert (list + [a])[..|list|] == list;
  }

  /** A full list drops the returned array: only the key is added. */
  lemma ReturnToFullList(pools: map<PoolKey, seq<array<Bit>>>, maxPoolSize: int, a: array<Bit>)
    requires StoreKey(a) in pools && |pools[StoreKey(a)]| >= maxPoolSize
    ensures Returned(pools, maxPoolSize, a) == pools
  {
  }

  /** MemoryPool: lists of reusable arrays keyed by length and dtype. The lock is left out: the model is sequential. */
  class MemoryPool {
    var pools: map<PoolKey, seq<array<Bit>>>
    var maxPoolSize: int

    ghost predicate Valid()
      reads this
    {
      Bounded(pools, maxPoolSize)
    }

    /** Every key came from return_array, as in every pool get_array and return_array alone have touched. */
    ghost predicate StoredOnly()
      reads this
    {
      StoredKeysOnly(pools)
    }

    ghost predicate Distinct()
      reads this
    {
      DistinctOf(pools)
    }

    ghost function Pooled(): set<array<Bit>>
      reads this
    {
      PooledOf(pools)
    }

    /** The array get_array(size) would pop, if any. */
    ghost function Top(size: nat): (t: set<array<Bit>>)
      reads this
      ensures t <= Pooled()
    {
      var key := RequestKey(size);
      if key in pools && |pools[key]| > 0 then
        var k := |pools[key]| - 1;
        assert pools[key][k] in Pooled();
        {pools[key][k]}
      else {}
    }

    constructor(maxPoolSize: int)
      ensures pools == map[] && this.maxPoolSize == maxPoolSize
      ensures Valid() && StoredOnly() && Distinct()
    {
      pools := map[];
      this.maxPoolSize := maxPoolSize;
    }

    /**
     * get_array: a zero-filled array of the size, the last one pooled under
     * (size, np.uint8) when there is one, otherwise a new one. A pool whose
     * keys all came from return_array has no such list, so it is left alone.
     */
    method GetArray(size: nat) returns (a: array<Bit>)
      requires Valid()
      modifies this, Top(size)
      ensures Valid() && maxPoolSize == old(maxPoolSize)
      ensures a.Length == size && a[..] == Zeros(size)
      ensures pools == Take(old(pools), RequestKey(size)).1
      ensures Take(old(pools), RequestKey(size)).0 == Some(a) || (Take(old(pools), RequestKey(size)).0 == None && fresh(a))
      ensures old(StoredOnly()) ==> fresh(a) && pools == old(pools)
      ensures fresh(a) || a in old(Pooled())
      ensures Pooled() <= old(Pooled())
      ensures old(StoredOnly()) ==> StoredOnly() && a !in Pooled()
      ensures old(Distinct()) ==> Distinct()
    {
      var poolKey := RequestKey(size);
      PoolOperationsKeepBounded(pools, maxPoolSize, poolKey, null);
      TakeShrinks(pools, maxPoolSize, poolKey);
      if poolKey in pools && |pools[poolKey]| > 0 {
        var list := pools[poolKey];
        a := list[|list| - 1];
        pools := pools[poolKey := list[..|list| - 1]];
        forall i | 0 <= i < a.Length {
          a[i] := 0;
        }
      } else {
        a := new Bit[size](_ => 0);
      }
    }

    /** return_array. */
    method ReturnArray(a: array?<Bit>)
      requires Valid()
      modifies this
      ensures Valid() && maxPoolSize == old(maxPoolSize)
      ensures pools == Returned(old(pools), maxPoolSize, a)
      ensures old(StoredOnly()) ==> StoredOnly()
      ensures forall b :: b in Pooled() ==> b in old(Pooled()) || b == a
      ensures a != null ==> Pooled() <= old(Pooled()) + {a as array<Bit>}
      ensures old(Distinct()) && (a == null || a !in old(Pooled())) ==> Distinct()
    {
      ghost var before := pools;
      if a != null {
        var arr: array<Bit> := a;
        var poolKey := StoreKey(arr);
        if poolKey !in pools {
          pools := pools[poolKey := []];
        }
        if |pools[poolKey]| < maxPoolSize {
          pools := pools[poolKey := pools[poolKey] + [arr]];
        }
      }
      assert pools == Returned(before, maxPoolSize, a);
      PoolOperationsKeepBounded(before, maxPoolSize, RequestKey(0), a);
      ReturnedGrows(before, maxPoolSize, a);
    }

    /** clear. */
    method Clear()
      modifies this
      ensures pools == map[] && maxPoolSize == old(maxPoolSize)
      ensures Valid() && StoredOnly() && Distinct()
    {
      pools := map[];
    }
  }

  /** max(lo, min(x, hi)): the value itself inside [lo, hi], the nearer bound outside. */
  function Clamp(x: int, lo: int, hi: int): (r: int)
    requires lo <= hi
    ensures lo <= r <= hi
    ensures lo <= x <= hi ==> r == x
    ensures x < lo ==> r == lo
    ensures x > hi ==> r == hi
  {
    if x < lo then lo else if x > hi then hi else x
  }

  /** ChunkBatch: a group of consecutive chunks, their positions, and a slot per chunk for its result. */
  class ChunkBatch {
    const chunks: seq<seq<Byte>>
    const chunkIndices: seq<nat>
    var processedChunks: seq<Option<seq<Byte>>>

    constructor(chunks: seq<seq<Byte>>, chunkIndices: seq<nat>)
      ensures this.chunks == chunks && this.chunkIndices == chunkIndices
      ensures processedChunks == seq(|chunks|, _ => None)
    {
      this.chunks := chunks;
      this.chunkIndices := chunkIndices;
      processedChunks := seq(|chunks|, _ => None);
    }
  }

  /** Every slot of a batch holds its chunk's result. */
  function Filled(results: seq<seq<Byte>>): (slots: seq<Option<seq<Byte>>>)
    ensures |slots| == |results| && forall k :: 0 <= k < |slots| ==> slots[k] == Some(results[k])
  {
    seq(|results|, k requires 0 <= k < |results| => Some(results[k]))
  }

  /** The consecutive groups chunks[i:i + size] for i = 0, size, 2 * size, ... */
  function Batched(chunks: seq<seq<Byte>>, size: nat): (groups: seq<seq<seq<Byte>>>)
    requires size > 0
    ensures forall j :: 0 <= j < |groups| ==> 0 < |groups[j]| <= size
    decreases |chunks|
  {
    if |chunks| == 0 then []
    else if |chunks| <= size then [chunks]
    else [chunks[..size]] + Batched(chunks[size..], size)
  }

  /** The groups one after another. */
  function Flatten<T>(groups: seq<seq<T>>): seq<T>
  {
    if groups == [] then [] else Flatten(groups[..|groups| - 1]) + groups[|groups| - 1]
  }

  lemma {:induction false} FlattenCons<T>(g: seq<T>, rest: seq<seq<T>>)
    ensures Flatten([g] + rest) == g + Flatten(rest)
    decreases |rest|
  {
    if rest == [] {
      assert Flatten([g]) == Flatten<T>([]) + g;
    } else {
      var all := [g] + rest;
      assert all[..|all| - 1] == [g] + rest[..|rest| - 1];
      FlattenCons(g, rest[..|rest| - 1]);
    }
  }

  /** The batches partition the chunk list: in order, nothing lost, nothing repeated. */
  lemma {:induction false} BatchesPartition(chunks: seq<seq<Byte>>, size: nat)
    requires size > 0
    ensures Flatten(Batched(chunks, size)) == chunks
    decreases |chunks|
  {
    if |chunks| == 0 {
    } else if |chunks| <= size {
      assert Flatten([chunks]) == Flatten<seq<Byte>>([]) + chunks;
    } else {
      BatchesPartition(chunks[size..], size);
      FlattenCons(chunks[..size], Batched(chunks[size..], size));
    }
  }

  /** Every batch but the last holds exactly size chunks. */
  lemma {:induction false} BatchesFull(chunks: seq<seq<Byte>>, size: nat)
    requires size > 0
    ensures forall j :: 0 <= j < |Batched(chunks, size)| - 1 ==> |Batched(chunks, size)[j]| == size
    decreases |chunks|
  {
    if |chunks| > size {
      BatchesFull(chunks[size..], size);
    }
  }

  /** The chunk step over each batch. */
  function ProcessBatched(e: Engine, r: RoundInfo, groups: seq<seq<seq<Byte>>>, encrypt: bool): (out: seq<seq<seq<Byte>>>)
    ensures |out| == |groups|
  {
    seq(|groups|, j requires 0 <= j < |groups| => ProcessAll(e, r, groups[j], encrypt))
  }

  lemma ProcessAllAppend(e: Engine, r: RoundInfo, xs: seq<seq<Byte>>, ys: seq<seq<Byte>>, encrypt: bool)
    ensures ProcessAll(e, r, xs + ys, encrypt) == ProcessAll(e, r, xs, encrypt) + ProcessAll(e, r, ys, encrypt)
  {
    Seqs.MapAppend(ChunkFn(e, r, encrypt), xs, ys);
  }

  /** Processing batch by batch and reassembling in batch order gives the chunk-by-chunk result. */
  lemma {:induction false} ProcessBatchedFlatten(e: Engine, r: RoundInfo, groups: seq<seq<seq<Byte>>>, encrypt: bool)
    ensures Flatten(ProcessBatched(e, r, groups, encrypt)) == ProcessAll(e, r, Flatten(groups), encrypt)
    decreases |groups|
  {
    if groups != [] {
      var init := groups[..|groups| - 1];
      assert ProcessBatched(e, r, groups, encrypt)[..|groups| - 1] == ProcessBatched(e, r, init, encrypt);
      ProcessBatchedFlatten(e, r, init, encrypt);
      ProcessAllAppend(e, r, Flatten(init), groups[|groups| - 1], encrypt);
    }
  }

  /** The chunk list of each batch. */
  function BatchChunks(batches: seq<ChunkBatch>): seq<seq<seq<Byte>>>
  {
    seq(|batches|, j requires 0 <= j < |batches| => batches[j].chunks)
  }

  /** The index list of each batch. */
  function BatchIndices(batches: seq<ChunkBatch>): seq<seq<nat>>
  {
    seq(|batches|, j requires 0 <= j < |batches| => batches[j].chunkIndices)
  }

  /** 0, 1, ..., n - 1. */
  function Indices(n: nat): (ix: seq<nat>)
    ensures |ix| == n && forall k :: 0 <= k < n ==> ix[k] == k
  {
    seq(n, k requires 0 <= k < n => k)
  }

  /** The group that starts at position i of the chunk list, clipped at the end. */
  lemma BatchedStep(chunks: seq<seq<Byte>>, i: nat, size: nat)
    requires size > 0 && i < |chunks|
    ensures Batched(chunks[i..], size) == [chunks[i..MinNat(i + size, |chunks|)]] + Batched(chunks[MinNat(i + size, |chunks|)..], size)
  {
    var end := MinNat(i + size, |chunks|);
    var rest := chunks[i..];
    if |rest| > size {
      assert rest[..size] == chunks[i..end] && rest[size..] == chunks[end..];
    } else {
      assert rest == chunks[i..end] && chunks[end..] == [];
    }
  }

  /** Appending a batch appends its chunks and its indices. */
  lemma BatchesSnoc(batches: seq<ChunkBatch>, batch: ChunkBatch, i: nat, end: nat)
    requires i <= end && batch.chunkIndices == seq(end - i, k requires 0 <= k < end - i => i + k)
    requires Flatten(BatchIndices(batches)) == Indices(i)
    ensures BatchChunks(batches + [batch]) == BatchChunks(batches) + [batch.chunks]
    ensures Flatten(BatchIndices(batches + [batch])) == Indices(end)
  {
    assert BatchIndices(batches + [batch])[..|batches|] == BatchIndices(batches);
  }

  /** The grouping loop of _apply_round_to_data_optimized: one new batch per group, numbered consecutively. */
  method MakeBatches(chunks: seq<seq<Byte>>, batchSize: nat) returns (batches: seq<ChunkBatch>)
    requires batchSize > 0
    ensures BatchChunks(batches) == Batched(chunks, batchSize)
    ensures Flatten(BatchIndices(batches)) == Indices(|chunks|)
    ensures forall j :: 0 <= j < |batches| ==> fresh(batches[j]) && |batches[j].processedChunks| == |batches[j].chunks|
    ensures forall j, k :: 0 <= j < k < |batches| ==> batches[j] != batches[k]
  {
    batches := [];
    ghost var done := 0;
    var i := 0;
    while i < |chunks|
      invariant done == MinNat(i, |chunks|)
      invariant Batched(chunks, batchSize) == BatchChunks(batches) + Batched(chunks[done..], batchSize)
      invariant Flatten(BatchIndices(batches)) == Indices(done)
      invariant forall j :: 0 <= j < |batches| ==> fresh(batches[j]) && |batches[j].processedChunks| == |batches[j].chunks|
      invariant forall j, k :: 0 <= j < k < |batches| ==> batches[j] != batches[k]
      decreases |chunks| - i
    {
      var end := MinNat(i + batchSize, |chunks|);
      var batchChunks := chunks[i..end];
      var batchIndices := seq(end - i, k requires 0 <= k < end - i => i + k);
      var batch := new ChunkBatch(batchChunks, batchIndices);
      ghost var before, done0 := batches, done;
      batches := batches + [batch];
      i := i + batchSize;
      done := end;
      BatchLoopStep(chunks, batchSize, before, batch, done0, done, batches);
    }
    assert chunks[done..] == [];
  }

  /** One pass of the grouping loop appends the next group's chunks and indices. */
  lemma BatchLoopStep(chunks: seq<seq<Byte>>, size: nat, before: seq<ChunkBatch>, batch: ChunkBatch, done0: nat, done: nat, after: seq<ChunkBatch>)
    requires size > 0 && done0 < |chunks| && done == MinNat(done0 + size, |chunks|)
    requires batch.chunks == chunks[done0..done] && batch.chunkIndices == seq(done - done0, k requires 0 <= k < done - done0 => done0 + k)
    requires Batched(chunks, size) == BatchChunks(before) + Batched(chunks[done0..], size)
    requires Flatten(BatchIndices(before)) == Indices(done0)
    requires after == before + [batch]
    ensures Batched(chunks, size) == BatchChunks(after) + Batched(chunks[done..], size)
    ensures Flatten(BatchIndices(after)) == Indices(done)
  {
    BatchedStep(chunks, done0, size);
    BatchesSnoc(before, batch, done0, done);
    Seqs.ConcatAssoc(BatchChunks(before), [batch.chunks], Batched(chunks[done..], size));
  }

  /** The ciphertext the optimized cipher writes: the padded data through every round, each chunk only shuffled. */
  function OptimizedEncryptData(c: Core.Cipher, data: seq<Byte>): (enc: seq<Byte>)
    requires Core.Schedulable(c.structure)
    ensures |enc| == |PadData(data, MaxChunk(c.structure))|
  {
    Core.SchedulableWellFormed(c.structure);
    ProcessDataRoundTrip(ShuffleOnly, c.structure, data);
    ProcessData(ShuffleOnly, c.structure, data, true).value
  }

  /** The rounds undone in reverse, each chunk only unshuffled. */
  function OptimizedDecryptData(c: Core.Cipher, data: seq<Byte>): seq<Byte>
    requires Core.Schedulable(c.structure)
  {
    Core.SchedulableWellFormed(c.structure);
    DecRoundsTotal(ShuffleOnly, c.structure, data);
    ProcessData(ShuffleOnly, c.structure, data, false).value
  }

  const OptimizedVersion: string := "faro_cipher_optimized_v1.0"

  function OptimizedEncryptResult(c: Core.Cipher, data: seq<Byte>): Core.Encrypted
    requires Core.Schedulable(c.structure)
  {
    Core.Encrypted(OptimizedEncryptData(c, data),
      Core.Metadata(OptimizedVersion, c.profile, c.rounds, c.chunkSize, c.structure, c.fingerprint, Some(|data|), None))
  }

  /** decrypt: refuse metadata made under another key, otherwise undo the rounds and trim to the recorded size. */
  function OptimizedDecryptResult(o: Core.Oracles, c: Core.Cipher, e: Core.Encrypted): Result<seq<Byte>>
    requires Core.Schedulable(c.structure)
  {
    if !KeyCompatible(o.md5, c.key, e.metadata.fingerprint) then Err(KeyMismatch)
    else
      var d := OptimizedDecryptData(c, e.data);
      var size := e.metadata.originalSize;
      Ok(if size.Some? && |d| > size.value then d[..size.value] else d)
  }

  /** decrypt(encrypt(d)) == d for the optimized cipher under the same key. */
  lemma OptimizedRoundTrip(o: Core.Oracles, c: Core.Cipher, data: seq<Byte>)
    requires Core.Consistent(o, c)
    ensures OptimizedDecryptResult(o, c, OptimizedEncryptResult(c, data)) == Ok(data)
  {
    Core.SchedulableWellFormed(c.structure);
    ProcessDataRoundTrip(ShuffleOnly, c.structure, data);
    var e := OptimizedEncryptResult(c, data);
    assert e.data == ProcessData(ShuffleOnly, c.structure, data, true).value;
    var d := OptimizedDecryptData(c, e.data);
    assert d == PadData(data, MaxChunk(c.structure));
    assert KeyCompatible(o.md5, c.key, e.metadata.fingerprint);
    assert e.metadata.originalSize == Some(|data|);
    assert d[..|data|] == data;
    if |d| == |data| {
      assert d == d[..|data|];
    }
  }

  /**
   * The transform's result is dropped: with the shuffle 'none' and the
   * invert transform under key 1000 (a key the schedule can draw), the chunk
   * 0x00 encrypts to 0x00 here and to 0x24 (bits 2 and 5 set) in the
   * reference pipeline.
   */
  lemma TransformDiscarded()
    ensures var r := RoundInfo(NoShuffle, 0, 1, Invert, 1000, 0, 8192);
      ChunkStep(ShuffleOnly, r, [0], true) == [0] && ChunkStep(Reference, r, [0], true) == [0x24]
  {
    var r := RoundInfo(NoShuffle, 0, 1, Invert, 1000, 0, 8192);
    var bits := Unpack([0]);
    assert bits == [0, 0, 0, 0, 0, 0, 0, 0];
    assert IsPow2(8);
    PaddedPow2(bits);
    FaroShuffleLeavesTrivialInputs(NoShuffle, 0, 1, bits);
    assert ShuffleBits(r, PaddedBits([0])) == bits;
    InvertZeroByte();
    PackSamples();
  }

  /** invert with key 1000 on the eight bits of a zero byte flips positions 2 and 5. */
  lemma InvertZeroByte()
    ensures Transform(Invert, 1000, [0, 0, 0, 0, 0, 0, 0, 0]) == [0, 0, 1, 0, 0, 1, 0, 0]
  {
  }

  lemma PackSamples()
    ensures Pack([0, 0, 1, 0, 0, 1, 0, 0]) == [0x24]
    ensures Pack([0, 0, 0, 0, 0, 0, 0, 0]) == [0]
  {
  }

  /** The shuffle-only engine's encrypt step of a non-empty chunk: pad, shuffle, pack. */
  lemma ShuffleOnlyEncryptStep(r: RoundInfo, c: seq<Byte>)
    requires |c| > 0
    ensures ChunkStep(ShuffleOnly, r, c, true) == Pack(ShuffleBits(r, PaddedBits(c)))
  {
  }

  /** The shuffle-only engine's decrypt step of a non-empty chunk: unshuffle, pack, trim. */
  lemma ShuffleOnlyDecryptStep(r: RoundInfo, c: seq<Byte>)
    requires |c| > 0
    ensures |Unpack(c)| == 2 * (4 * |c|)
    ensures ChunkStep(ShuffleOnly, r, c, false) == TrimTo(Pack(UnshuffleBits(r, Unpack(c))), |c|)
  {
  }

  /** OptimizedFaroCipher: the reference cipher's round structure and key, the thread and batch settings, and the pool. */
  class OptimizedCipher {
    const cipher: Core.Cipher
    const numThreads: int
    const batchSize: int
    const pool: MemoryPool

    ghost predicate Valid()
      reads this, pool
    {
      pool.Valid() && pool.StoredOnly() && pool.Distinct() && batchSize >= 1
    }

    /** Clamps num_threads to [1, 16] and batch_size to [1, 32] and starts with an empty pool of the default bound. */
    constructor(c: Core.Cipher, numThreads: int, batchSize: int)
      ensures cipher == c && this.numThreads == Clamp(numThreads, 1, 16) && this.batchSize == Clamp(batchSize, 1, 32)
      ensures fresh(pool) && pool.pools == map[] && pool.maxPoolSize == DefaultMaxPoolSize
      ensures Valid()
    {
      cipher := c;
      this.numThreads := Clamp(numThreads, 1, 16);
      this.batchSize := Clamp(batchSize, 1, 32);
      pool := new MemoryPool(DefaultMaxPoolSize);
    }

    /** numpy's a[:len(s)] = s on an array of that length. */
    static method CopyInto(a: array<Bit>, s: seq<Bit>)
      requires a.Length == |s|
      modifies a
      ensures a[..] == s
    {
      forall i | 0 <= i < a.Length {
        a[i] := s[i];
      }
    }

    /** The shuffle_type != 'none' step: a second pooled array receives the (inverse) shuffle and the first goes back to the pool. */
    method ShuffleThroughPool(cur: array<Bit>, r: RoundInfo, forward: bool) returns (next: array<Bit>)
      requires Valid() && cur !in pool.Pooled() && cur.Length % 2 == 0
      modifies pool, pool.Pooled()
      ensures Valid() && next !in pool.Pooled()
      ensures next[..] == if forward then Shuffled(r.shuffle, r.variant, r.steps, old(cur[..]))
                          else Unshuffled(r.shuffle, r.variant, r.steps, old(cur[..]))
      ensures next == cur || fresh(next)
      ensures pool.Pooled() <= old(pool.Pooled()) + {cur}
    {
      var bits := cur[..];
      EvenLengthRoundTrips(r.shuffle, r.variant % 4, |bits|);
      FaroShuffleRoundTrip(r.shuffle, r.variant, r.steps, bits);
      if r.shuffle == NoShuffle {
        FaroShuffleLeavesTrivialInputs(r.shuffle, r.variant, r.steps, bits);
        return cur;
      }
      next := pool.GetArray(cur.Length);
      if forward {
        var shuffled := Shuffles.FaroShuffle(cur[..], r.shuffle, r.steps, r.variant);
        CopyInto(next, shuffled.value);
      } else {
        var unshuffled := Shuffles.InverseFaroShuffle(cur[..], r.shuffle, r.steps, r.variant);
        CopyInto(next, unshuffled.value);
      }
      pool.ReturnArray(cur);
    }

    /** The encrypt branch: pad the bits to a power of two, shuffle, run the transform, pack. */
    method EncryptChunk(r: RoundInfo, chunk: seq<Byte>) returns (out: seq<Byte>)
      requires Valid() && |chunk| > 0
      modifies pool, pool.Pooled()
      ensures Valid()
      ensures forall b :: b in pool.Pooled() ==> b in old(pool.Pooled()) || fresh(b)
      ensures out == ChunkStep(ShuffleOnly, r, chunk, true)
    {
      ShuffleOnlyEncryptStep(r, chunk);
      var bits := Unpack(chunk);
      var padded, _ := PadToPowerOf2(bits);
      assert padded == PaddedBits(chunk);
      var cur := pool.GetArray(|padded|);
      CopyInto(cur, padded);
      cur := ShuffleThroughPool(cur, r, true);
      var _ := ApplyTransform(r.transform, cur[..], r.key);
      out := Pack(cur[..]);
      pool.ReturnArray(cur);
    }

    /** The decrypt branch: run the transform, unshuffle, pack, trim to the chunk's length. */
    method DecryptChunk(r: RoundInfo, chunk: seq<Byte>) returns (out: seq<Byte>)
      requires Valid() && |chunk| > 0
      modifies pool, pool.Pooled()
      ensures Valid()
      ensures forall b :: b in pool.Pooled() ==> b in old(pool.Pooled()) || fresh(b)
      ensures out == ChunkStep(ShuffleOnly, r, chunk, false)
    {
      ShuffleOnlyDecryptStep(r, chunk);
      var bits := Unpack(chunk);
      Arith.DivModUnique(|bits|, 4 * |chunk|, 2, 0);
      var cur := pool.GetArray(|bits|);
      CopyInto(cur, bits);
      var _ := ApplyTransform(r.transform, cur[..], r.key);
      cur := ShuffleThroughPool(cur, r, false);
      out := TrimTo(Pack(cur[..]), |chunk|);
      pool.ReturnArray(cur);
    }

    /**
     * The body of _process_chunks_batch for one chunk. The bits go through
     * pooled arrays; the transform runs on them, but what it returns is
     * dropped, so only the shuffle reaches the result.
     */
    method ProcessChunk(r: RoundInfo, chunk: seq<Byte>, encrypt: bool) returns (out: seq<Byte>)
      requires Valid()
      modifies pool, pool.Pooled()
      ensures Valid()
      ensures forall b :: b in pool.Pooled() ==> b in old(pool.Pooled()) || fresh(b)
      ensures out == ChunkStep(ShuffleOnly, r, chunk, encrypt)
    {
      if |chunk| == 0 {
        return chunk;
      }
      if encrypt {
        out := EncryptChunk(r, chunk);
      } else {
        out := DecryptChunk(r, chunk);
      }
    }

    /** _process_chunks_batch: fills the batch's slot for each of its chunks. */
    method ProcessChunksBatch(batch: ChunkBatch, r: RoundInfo, encrypt: bool) returns (result: ChunkBatch)
      requires Valid() && |batch.processedChunks| == |batch.chunks|
      modifies batch, pool, pool.Pooled()
      ensures Valid() && result == batch
      ensures batch.processedChunks == Filled(ProcessAll(ShuffleOnly, r, batch.chunks, encrypt))
      ensures forall b :: b in pool.Pooled() ==> b in old(pool.Pooled()) || fresh(b)
    {
      for i := 0 to |batch.chunks|
        invariant Valid() && |batch.processedChunks| == |batch.chunks|
        invariant forall k :: 0 <= k < i ==> batch.processedChunks[k] == Some(ChunkStep(ShuffleOnly, r, batch.chunks[k], encrypt))
        invariant forall b :: b in pool.Pooled() ==> b in old(pool.Pooled()) || fresh(b)
      {
        var processed := ProcessChunk(r, batch.chunks[i], encrypt);
        batch.processedChunks := batch.processedChunks[i := Some(processed)];
      }
      return batch;
    }

    /** The single-threaded branch of _apply_round_to_data_optimized: each batch in turn, its result stored at its index. */
    method ProcessBatches(batches: seq<ChunkBatch>, r: RoundInfo, encrypt: bool) returns (processedBatches: seq<ChunkBatch?>)
      requires Valid()
      requires forall j :: 0 <= j < |batches| ==> |batches[j].processedChunks| == |batches[j].chunks|
      requires forall j, k :: 0 <= j < k < |batches| ==> batches[j] != batches[k]
      modifies pool, pool.Pooled(), set j | 0 <= j < |batches| :: batches[j]
      ensures Valid()
      ensures |processedBatches| == |batches|
      ensures forall j :: 0 <= j < |batches| ==>
        processedBatches[j] == batches[j] && batches[j].processedChunks == Filled(ProcessAll(ShuffleOnly, r, batches[j].chunks, encrypt))
      ensures forall b :: b in pool.Pooled() ==> b in old(pool.Pooled()) || fresh(b)
    {
      processedBatches := seq(|batches|, _ => null);
      for i := 0 to |batches|
        invariant Valid() && |processedBatches| == |batches|
        invariant forall j :: 0 <= j < i ==>
          processedBatches[j] == batches[j] && batches[j].processedChunks == Filled(ProcessAll(ShuffleOnly, r, batches[j].chunks, encrypt))
        invariant forall j :: i <= j < |batches| ==> |batches[j].processedChunks| == |batches[j].chunks|
        invariant forall b :: b in pool.Pooled() ==> b in old(pool.Pooled()) || fresh(b)
      {
        var processed := ProcessChunksBatch(batches[i], r, encrypt);
        processedBatches := processedBatches[i := processed];
      }
    }

    /** The reassembly loop: every batch's results, in batch order. */
    static method Recombine(processedBatches: seq<ChunkBatch?>, ghost results: seq<seq<seq<Byte>>>) returns (resultChunks: seq<seq<Byte>>)
      requires |results| == |processedBatches|
      requires forall j :: 0 <= j < |processedBatches| ==> processedBatches[j] != null && processedBatches[j].processedChunks == Filled(results[j])
      ensures resultChunks == Flatten(results)
    {
      resultChunks := [];
      for i := 0 to |processedBatches|
        invariant resultChunks == Flatten(results[..i])
      {
        var slots := processedBatches[i].processedChunks;
        var values := seq(|slots|, k requires 0 <= k < |slots| && slots[k].Some? => slots[k].value);
        assert values == results[i];
        assert results[..i + 1][..i] == results[..i];
        resultChunks := resultChunks + values;
      }
      assert results[..|processedBatches|] == results;
    }

    /** _apply_round_to_data_optimized: split, group into batches, process them in order, reassemble, join. */
    method ApplyRoundToDataOptimized(data: seq<Byte>, r: RoundInfo, encrypt: bool) returns (out: Option<seq<Byte>>)
      requires Valid()
      modifies pool, pool.Pooled()
      ensures Valid()
      ensures forall b :: b in pool.Pooled() ==> b in old(pool.Pooled()) || fresh(b)
      ensures out == ApplyRound(ShuffleOnly, r, data, encrypt)
    {
      if r.chunkSize == 0 {
        return None;
      } else if r.chunkSize < 0 {
        return Some([]);
      }
      var chunks := SplitChunks(data, r.chunkSize);
      var resultChunks := ProcessInBatches(chunks, r, encrypt);
      var joined := JoinChunks(resultChunks);
      return Some(joined);
    }

    /** From the chunk list to the processed chunk list through batches: the chunk-by-chunk result. */
    method ProcessInBatches(chunks: seq<seq<Byte>>, r: RoundInfo, encrypt: bool) returns (resultChunks: seq<seq<Byte>>)
      requires Valid()
      modifies pool, pool.Pooled()
      ensures Valid()
      ensures forall b :: b in pool.Pooled() ==> b in old(pool.Pooled()) || fresh(b)
      ensures resultChunks == ProcessAll(ShuffleOnly, r, chunks, encrypt)
    {
      var batches := MakeBatches(chunks, batchSize);
      var processedBatches := ProcessBatches(batches, r, encrypt);
      ghost var groups := Batched(chunks, batchSize);
      ghost var results := ProcessBatched(ShuffleOnly, r, groups, encrypt);
      assert forall j :: 0 <= j < |batches| ==> batches[j].chunks == groups[j] by {
        assert BatchChunks(batches) == groups;
      }
      resultChunks := Recombine(processedBatches, results);
      ProcessBatchedFlatten(ShuffleOnly, r, groups, encrypt);
      BatchesPartition(chunks, batchSize);
    }

    /** Encryption's loop over the round structure in order. */
    method RoundsForwardOptimized(data: seq<Byte>) returns (out: seq<Byte>)
      requires Valid() && EncRounds(ShuffleOnly, cipher.structure, data).Some?
      modifies pool, pool.Pooled()
      ensures Valid()
      ensures forall b :: b in pool.Pooled() ==> b in old(pool.Pooled()) || fresh(b)
      ensures Some(out) == EncRounds(ShuffleOnly, cipher.structure, data)
    {
      var rs := cipher.structure;
      var current := data;
      for k := 0 to |rs|
        invariant Valid()
        invariant forall b :: b in pool.Pooled() ==> b in old(pool.Pooled()) || fresh(b)
        invariant EncRounds(ShuffleOnly, rs[..k], data) == Some(current)
      {
        EncRoundsPrefix(ShuffleOnly, rs, k + 1, data);
        assert rs[..k + 1][..k] == rs[..k];
        var next := ApplyRoundToDataOptimized(current, rs[k], true);
        current := next.value;
      }
      assert rs[..|rs|] == rs;
      out := current;
    }

    /** Decryption's loop over the reversed round structure. */
    method RoundsBackwardOptimized(data: seq<Byte>) returns (out: seq<Byte>)
      requires Valid() && forall k :: 0 <= k < |cipher.structure| ==> cipher.structure[k].chunkSize > 0
      modifies pool, pool.Pooled()
      ensures Valid()
      ensures forall b :: b in pool.Pooled() ==> b in old(pool.Pooled()) || fresh(b)
      ensures Some(out) == DecRounds(ShuffleOnly, cipher.structure, data)
    {
      var rs := cipher.structure;
      var current := data;
      assert rs[..|rs|] == rs;
      for k := 0 to |rs|
        invariant Valid()
        invariant forall b :: b in pool.Pooled() ==> b in old(pool.Pooled()) || fresh(b)
        invariant DecRounds(ShuffleOnly, rs, data) == DecRounds(ShuffleOnly, rs[..|rs| - k], current)
      {
        var i := |rs| - 1 - k;
        DecRoundsStep(ShuffleOnly, rs, i, current);
        var next := ApplyRoundToDataOptimized(current, rs[i], false);
        current := next.value;
      }
      out := current;
    }

    /** _process_data_variable_chunks_optimized: the reference padding, then the rounds in order, or in reverse to decrypt. */
    method ProcessDataVariableChunksOptimized(data: seq<Byte>, encrypt: bool) returns (out: seq<Byte>)
      requires Valid() && Core.Schedulable(cipher.structure)
      modifies pool, pool.Pooled()
      ensures Valid()
      ensures forall b :: b in pool.Pooled() ==> b in old(pool.Pooled()) || fresh(b)
      ensures Some(out) == ProcessData(ShuffleOnly, cipher.structure, data, encrypt)
    {
      var rs := cipher.structure;
      Core.SchedulableWellFormed(rs);
      var maxChunkSize := MaxChunk(rs);
      if encrypt {
        var current := Core.PadToChunk(data, maxChunkSize);
        ProcessDataRoundTrip(ShuffleOnly, rs, data);
        out := RoundsForwardOptimized(current);
      } else {
        out := RoundsBackwardOptimized(data);
      }
    }

    /** encrypt: the metadata carries the optimized version string; a pool holding more than 50 lengths is emptied afterwards. */
    method Encrypt(data: seq<Byte>) returns (result: Core.Encrypted)
      requires Valid() && Core.Schedulable(cipher.structure)
      modifies pool, pool.Pooled()
      ensures Valid()
      ensures result == OptimizedEncryptResult(cipher, data)
      ensures |pool.pools| <= 50
    {
      var encryptedData := ProcessDataVariableChunksOptimized(data, true);
      var c := cipher;
      var metadata := Core.Metadata(OptimizedVersion, c.profile, c.rounds, c.chunkSize, c.structure, c.fingerprint, Some(|data|), None);
      if |pool.pools| > 50 {
        pool.Clear();
      }
      result := Core.Encrypted(encryptedData, metadata);
    }

    /** decrypt. */
    method Decrypt(o: Core.Oracles, e: Core.Encrypted) returns (result: Result<seq<Byte>>)
      requires Valid() && Core.Schedulable(cipher.structure)
      modifies pool, pool.Pooled()
      ensures Valid()
      ensures result == OptimizedDecryptResult(o, cipher, e)
    {
      if !KeyCompatible(o.md5, cipher.key, e.metadata.fingerprint) {
        return Err(KeyMismatch);
      }
      var decryptedData := ProcessDataVariableChunksOptimized(e.data, false);
      if e.metadata.originalSize.Some? && |decryptedData| > e.metadata.originalSize.value {
        decryptedData := decryptedData[..e.metadata.originalSize.value];
      }
      return Ok(decryptedData);
    }
  }
}
