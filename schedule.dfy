/**
 * The key-derived round structure of faro_cipher/core.py
 * (_generate_optimized_round_structure and _select_chunk_size_for_round).
 *
 * PBKDF2-HMAC-SHA256 (section 5.2 of RFC 8018) and numpy's RandomState are
 * parameters. A draw function stands for the generators: draw(seed, j) is
 * the raw value behind the j-th choice or randint call on RandomState(seed),
 * and a choice from a list picks list[draw % len]. Because the draw values
 * are arbitrary, this covers every element the weighted choices can return;
 * the weights themselves are not modelled.
 */
module Schedule {
  import Seqs
  import opened Bits
  import opened ShuffleSpec
  import opened Transforms
  import opened Pipeline
  import Utils
  import Framing

  /** PBKDF2, left abstract: any function of (password, salt, iterations, dklen) that returns dklen bytes. */
  type Kdf = f: (seq<Byte>, seq<Byte>, nat, nat) -> seq<Byte> | forall p, s, it, len :: |f(p, s, it, len)| == len
    witness (p: seq<Byte>, s: seq<Byte>, it: nat, len: nat) => seq(len, _ => 0)

  /** draw(seed, j): the value behind the j-th random choice made by RandomState(seed). */
  type Draw = (nat, nat) -> nat

  const Two32: nat := 0x1_0000_0000

  /** The keys of RELIABLE_SHUFFLE_VARIANTS and of AVAILABLE_TRANSFORMS, in dictionary order. */
  const ShuffleTypes: seq<ShuffleKind> := [NoShuffle, In, Out, Milk, Cut]
  const TransformTypes: seq<TransformKind> := [EnhancedXor, Fibonacci, AvalancheCascade, PrimeSieve, Invert, SwapPairs, BitFlip]

  /** b'FaroCipherEntropy2024'. */
  const Salt: seq<Byte> := [0x46, 0x61, 0x72, 0x6f, 0x43, 0x69, 0x70, 0x68, 0x65, 0x72, 0x45, 0x6e, 0x74, 0x72, 0x6f, 0x70, 0x79, 0x32, 0x30, 0x32, 0x34]

  /** An unweighted choice, and the model of a weighted one. */
  function Choice<T>(xs: seq<T>, d: nat): (x: T)
    requires |xs| > 0
    ensures x in xs
  {
    xs[d % |xs|]
  }

  /** How many rounds of the prefix use shuffle type t. */
  function ShuffleCount(p: seq<RoundInfo>, t: ShuffleKind): nat
  {
    if p == [] then 0 else ShuffleCount(p[..|p| - 1], t) + (if p[|p| - 1].shuffle == t then 1 else 0)
  }

  function TransformCount(p: seq<RoundInfo>, t: TransformKind): nat
  {
    if p == [] then 0 else TransformCount(p[..|p| - 1], t) + (if p[|p| - 1].transform == t then 1 else 0)
  }

  /** shuffle_usage after the rounds of the prefix. */
  function ShuffleUsage(p: seq<RoundInfo>): map<ShuffleKind, nat>
  {
    map t | t in ShuffleTypes :: ShuffleCount(p, t)
  }

  function TransformUsage(p: seq<RoundInfo>): map<TransformKind, nat>
  {
    map t | t in TransformTypes :: TransformCount(p, t)
  }

  /** min(usage.values()) over the listed keys. */
  function MinValue<T>(xs: seq<T>, usage: map<T, nat>): (m: nat)
    requires |xs| > 0 && forall i :: 0 <= i < |xs| ==> xs[i] in usage
    ensures forall i :: 0 <= i < |xs| ==> m <= usage[xs[i]]
    ensures exists i :: 0 <= i < |xs| && usage[xs[i]] == m
    decreases |xs|
  {
    if |xs| == 1 then usage[xs[0]]
    else
      var rest := MinValue(xs[1..], usage);
      assert forall i :: 1 <= i < |xs| ==> xs[i] == xs[1..][i - 1];
      if usage[xs[0]] < rest then usage[xs[0]] else rest
  }

  /** The listed keys whose usage is c, in list order. */
  function WithUsage<T>(xs: seq<T>, usage: map<T, nat>, c: nat): (ys: seq<T>)
    requires forall i :: 0 <= i < |xs| ==> xs[i] in usage
    ensures forall i :: 0 <= i < |ys| ==> ys[i] in usage && usage[ys[i]] == c
    ensures (exists i :: 0 <= i < |xs| && usage[xs[i]] == c) ==> |ys| > 0
    decreases |xs|
  {
    if xs == [] then []
    else
      assert forall i :: 1 <= i < |xs| ==> xs[i] == xs[1..][i - 1];
      (if usage[xs[0]] == c then [xs[0]] else []) + WithUsage(xs[1..], usage, c)
  }

  /** The least used types: [s for s in types if usage[s] == min(usage.values())]. */
  function LeastUsed<T>(xs: seq<T>, usage: map<T, nat>): (ys: seq<T>)
    requires |xs| > 0 && forall i :: 0 <= i < |xs| ==> xs[i] in usage
    ensures |ys| > 0 && forall i :: 0 <= i < |ys| ==> ys[i] in usage && usage[ys[i]] == MinValue(xs, usage)
  {
    WithUsage(xs, usage, MinValue(xs, usage))
  }

  /** A least used type has the minimum count. */
  lemma LeastUsedMin<T>(xs: seq<T>, usage: map<T, nat>, t: T)
    requires |xs| > 0 && forall i :: 0 <= i < |xs| ==> xs[i] in usage
    requires t in LeastUsed(xs, usage)
    ensures t in usage && usage[t] == MinValue(xs, usage)
  {
    var ys := LeastUsed(xs, usage);
    var k :| 0 <= k < |ys| && ys[k] == t;
  }

  /** _select_chunk_size_for_round: the candidate sizes by round position. */
  function ChunkSizeFor(rounds: int, r: nat, d: nat): (size: int)
    ensures size in {2048, 4096, 8192, 16384, 32768}
  {
    if r < 3 then Choice([2048, 4096, 8192], d)
    else if r < rounds / 3 then Choice([4096, 8192, 16384], d)
    else if r < 2 * rounds / 3 then Choice([8192, 16384, 32768], d)
    else if r < rounds - 3 then Choice([2048, 4096, 8192, 16384], d)
    else Choice([4096, 8192], d)
  }

  /** randint(lo, hi) for the transform's key range: [1000, 50000), [2000, 100000) or [1500, 75000). */
  function KeyFor(t: TransformKind, d: nat): (key: int)
    ensures 1000 <= key < 100000
  {
    if t in {EnhancedXor, Invert, BitFlip} then 1000 + d % 49000
    else if t in {AvalancheCascade, PrimeSieve} then 2000 + d % 98000
    else 1500 + d % 73500
  }

  /** key_material[lo:hi], for indices already inside the buffer. */
  function SliceBytes(km: seq<Byte>, lo: nat, hi: nat): seq<Byte>
    requires lo <= |km| && hi <= |km|
  {
    if lo <= hi then km[lo..hi] else []
  }

  /** The three generator seeds: master_seed, master_seed + 1 and master_seed + 2, modulo 2**32. */
  function MasterSeed(km: seq<Byte>): nat
    requires |km| >= 4
  {
    Framing.FromBe(km[..4]) % Two32
  }

  /** The shuffle type of round r: among the least used ones for the first five rounds, any type afterwards. */
  function ShuffleFor(km: seq<Byte>, draw: Draw, r: nat, p: seq<RoundInfo>): ShuffleKind
    requires |km| >= 4
  {
    var d := draw(MasterSeed(km), 2 * r);
    if r < |ShuffleTypes| then Choice(LeastUsed(ShuffleTypes, ShuffleUsage(p)), d) else Choice(ShuffleTypes, d)
  }

  /** The transform of round r: the emphasis list first, then the least used, then any. */
  function TransformFor(emphasis: seq<TransformKind>, km: seq<Byte>, draw: Draw, r: nat, p: seq<RoundInfo>): TransformKind
    requires |km| >= 4 && |emphasis| > 0
  {
    if r < |emphasis| then emphasis[r % |emphasis|]
    else
      var d := draw((MasterSeed(km) + 1) % Two32, r - |emphasis|);
      if r < |TransformTypes| then Choice(LeastUsed(TransformTypes, TransformUsage(p)), d) else Choice(TransformTypes, d)
  }

  /** Shuffle steps: lighter in the first three rounds, heavier in the last three. */
  function StepsFor(rounds: int, km: seq<Byte>, draw: Draw, r: nat): (steps: int)
    requires |km| >= 4
    ensures 1 <= steps <= 4
  {
    var d := draw((MasterSeed(km) + 2) % Two32, r);
    if r < 3 then Choice([1, 2, 3], d)
    else if r < rounds - 3 then Choice([1, 2, 3, 4], d)
    else Choice([2, 3, 4], d)
  }

  /** The entry of round r, given the entries before it. */
  function NextRound(rounds: int, emphasis: seq<TransformKind>, km: seq<Byte>, draw: Draw, r: nat, p: seq<RoundInfo>): RoundInfo
    requires |km| >= 4 && |emphasis| > 0
  {
    var shuffle := ShuffleFor(km, draw, r, p);
    var variant := Choice([0, 1, 2, 3], draw(MasterSeed(km), 2 * r + 1));
    var steps := StepsFor(rounds, km, draw, r);
    var transform := TransformFor(emphasis, km, draw, r, p);
    var roundSeed := Framing.FromBe(SliceBytes(km, (4 * r) % |km|, (4 * r + 4) % |km|));
    var key := KeyFor(transform, draw(roundSeed % Two32, 0));
    var chunkSize := ChunkSizeFor(rounds, r, draw(roundSeed % Two32, 1));
    RoundInfo(shuffle, variant, steps, transform, key, roundSeed, chunkSize)
  }

  /** The first n entries of the structure. */
  function Structure(rounds: int, emphasis: seq<TransformKind>, km: seq<Byte>, draw: Draw, n: nat): (s: seq<RoundInfo>)
    requires |km| >= 4 && |emphasis| > 0
    ensures |s| == n
  {
    if n == 0 then []
    else
      var p := Structure(rounds, emphasis, km, draw, n - 1);
      p + [NextRound(rounds, emphasis, km, draw, n - 1, p)]
  }

  /** The key material: PBKDF2 over the key with 10000 + 1000 * rounds iterations, max(64, 8 * rounds) bytes. */
  function KeyMaterial(kdf: Kdf, key: seq<Byte>, rounds: nat): (km: seq<Byte>)
    ensures |km| >= 64
  {
    kdf(key, Salt, 10000 + rounds * 1000, if rounds * 8 > 64 then rounds * 8 else 64)
  }

  /** The round structure of a cipher with this key and round count. */
  function RoundStructure(kdf: Kdf, draw: Draw, key: seq<Byte>, rounds: nat, emphasis: seq<TransformKind>): (s: seq<RoundInfo>)
    requires |emphasis| > 0
    ensures |s| == rounds
  {
    Structure(rounds, emphasis, KeyMaterial(kdf, key, rounds), draw, rounds)
  }

  /** _generate_optimized_round_structure, without the advisory entropy scores. */
  method GenerateRoundStructure(kdf: Kdf, draw: Draw, key: seq<Byte>, rounds: nat, emphasis: seq<TransformKind>)
    returns (structure: seq<RoundInfo>)
    requires |emphasis| > 0
    ensures structure == RoundStructure(kdf, draw, key, rounds, emphasis)
  {
    var km := kdf(key, Salt, 10000 + rounds * 1000, if rounds * 8 > 64 then rounds * 8 else 64);
    assert km == KeyMaterial(kdf, key, rounds);
    var shuffleUsage: map<ShuffleKind, nat> := map t | t in ShuffleTypes :: 0;
    var transformUsage: map<TransformKind, nat> := map t | t in TransformTypes :: 0;
    structure := [];
    UsageEmpty();
    for roundNum := 0 to rounds
      invariant structure == Structure(rounds, emphasis, km, draw, roundNum)
      invariant shuffleUsage == ShuffleUsage(structure)
      invariant transformUsage == TransformUsage(structure)
    {
      structure, shuffleUsage, transformUsage := AdvanceRound(rounds, emphasis, km, draw, roundNum, structure, shuffleUsage, transformUsage);
    }
  }

  /** The loop body: plan round roundNum, count its types, and append it. */
  method AdvanceRound(rounds: int, emphasis: seq<TransformKind>, km: seq<Byte>, draw: Draw, roundNum: nat,
                      structure: seq<RoundInfo>, shuffleUsage: map<ShuffleKind, nat>, transformUsage: map<TransformKind, nat>)
    returns (structure': seq<RoundInfo>, shuffleUsage': map<ShuffleKind, nat>, transformUsage': map<TransformKind, nat>)
    requires |km| >= 4 && |emphasis| > 0
    requires shuffleUsage == ShuffleUsage(structure) && transformUsage == TransformUsage(structure)
    ensures structure' == structure + [NextRound(rounds, emphasis, km, draw, roundNum, structure)]
    ensures shuffleUsage' == ShuffleUsage(structure') && transformUsage' == TransformUsage(structure')
  {
    var entry := PlanRound(rounds, emphasis, km, draw, roundNum, structure, shuffleUsage, transformUsage);
    shuffleUsage', transformUsage' := CountRound(structure, entry, shuffleUsage, transformUsage);
    structure' := structure + [entry];
  }

  /** shuffle_usage[shuffle_type] += 1 and transform_usage[transform_type] += 1. */
  method CountRound(structure: seq<RoundInfo>, entry: RoundInfo, shuffleUsage: map<ShuffleKind, nat>, transformUsage: map<TransformKind, nat>)
    returns (shuffleUsage': map<ShuffleKind, nat>, transformUsage': map<TransformKind, nat>)
    requires entry.shuffle in ShuffleTypes && entry.transform in TransformTypes
    requires shuffleUsage == ShuffleUsage(structure) && transformUsage == TransformUsage(structure)
    ensures shuffleUsage' == ShuffleUsage(structure + [entry]) && transformUsage' == TransformUsage(structure + [entry])
  {
    shuffleUsage' := shuffleUsage[entry.shuffle := shuffleUsage[entry.shuffle] + 1];
    transformUsage' := transformUsage[entry.transform := transformUsage[entry.transform] + 1];
    UsageAfter(structure, entry);
  }

  /** One iteration of the generation loop: the entry of round roundNum, from the usage counts so far. */
  method PlanRound(rounds: int, emphasis: seq<TransformKind>, km: seq<Byte>, draw: Draw, roundNum: nat,
                   structure: seq<RoundInfo>, shuffleUsage: map<ShuffleKind, nat>, transformUsage: map<TransformKind, nat>)
    returns (entry: RoundInfo)
    requires |km| >= 4 && |emphasis| > 0
    requires shuffleUsage == ShuffleUsage(structure) && transformUsage == TransformUsage(structure)
    ensures entry == NextRound(rounds, emphasis, km, draw, roundNum, structure)
    ensures entry.shuffle in ShuffleTypes && entry.transform in TransformTypes
  {
    var masterSeed := MasterSeed(km);
    var shuffleType := SelectShuffle(km, draw, roundNum, structure, shuffleUsage);
    var shuffleVariant := Choice([0, 1, 2, 3], draw(masterSeed, 2 * roundNum + 1));
    var shuffleSteps := SelectSteps(rounds, km, draw, roundNum);
    var transformType := SelectTransform(emphasis, km, draw, roundNum, structure, transformUsage);
    var roundSeed := Framing.FromBe(SliceBytes(km, (4 * roundNum) % |km|, (4 * roundNum + 4) % |km|));
    var roundRng := roundSeed % Two32;
    var transformKey := KeyFor(transformType, draw(roundRng, 0));
    var chunkSize := ChunkSizeFor(rounds, roundNum, draw(roundRng, 1));
    entry := RoundInfo(shuffleType, shuffleVariant, shuffleSteps, transformType, transformKey, roundSeed, chunkSize);
    TransformTypesComplete(transformType);
  }

  /** The shuffle type: balanced over the least used types for the first five rounds. */
  method SelectShuffle(km: seq<Byte>, draw: Draw, roundNum: nat, structure: seq<RoundInfo>, shuffleUsage: map<ShuffleKind, nat>)
    returns (shuffleType: ShuffleKind)
    requires |km| >= 4 && shuffleUsage == ShuffleUsage(structure)
    ensures shuffleType == ShuffleFor(km, draw, roundNum, structure) && shuffleType in ShuffleTypes
  {
    var shuffleSeed := MasterSeed(km);
    if roundNum < |ShuffleTypes| {
      var available := LeastUsed(ShuffleTypes, shuffleUsage);
      shuffleType := Choice(available, draw(shuffleSeed, 2 * roundNum));
    } else {
      shuffleType := Choice(ShuffleTypes, draw(shuffleSeed, 2 * roundNum));
    }
  }

  /** The number of shuffle steps for the round's position. */
  method SelectSteps(rounds: int, km: seq<Byte>, draw: Draw, roundNum: nat) returns (shuffleSteps: int)
    requires |km| >= 4
    ensures shuffleSteps == StepsFor(rounds, km, draw, roundNum)
  {
    var paramSeed := (MasterSeed(km) + 2) % Two32;
    var d := draw(paramSeed, roundNum);
    if roundNum < 3 {
      shuffleSteps := Choice([1, 2, 3], d);
    } else if roundNum < rounds - 3 {
      shuffleSteps := Choice([1, 2, 3, 4], d);
    } else {
      shuffleSteps := Choice([2, 3, 4], d);
    }
  }

  /** The transform: the emphasis list first, then balanced over the least used, then any. */
  method SelectTransform(emphasis: seq<TransformKind>, km: seq<Byte>, draw: Draw, roundNum: nat,
                         structure: seq<RoundInfo>, transformUsage: map<TransformKind, nat>)
    returns (transformType: TransformKind)
    requires |km| >= 4 && |emphasis| > 0 && transformUsage == TransformUsage(structure)
    ensures transformType == TransformFor(emphasis, km, draw, roundNum, structure)
  {
    var transformSeed := (MasterSeed(km) + 1) % Two32;
    if roundNum < |emphasis| {
      transformType := emphasis[roundNum % |emphasis|];
    } else if roundNum < |TransformTypes| {
      var available := LeastUsed(TransformTypes, transformUsage);
      transformType := Choice(available, draw(transformSeed, roundNum - |emphasis|));
    } else {
      transformType := Choice(TransformTypes, draw(transformSeed, roundNum - |emphasis|));
    }
  }

  /** Every transform kind is one of the registered types. */
  lemma TransformTypesComplete(t: TransformKind)
    ensures t in TransformTypes
  {
  }

  /** Before the first round every type has been used zero times. */
  lemma UsageEmpty()
    ensures ShuffleUsage([]) == map t | t in ShuffleTypes :: 0
    ensures TransformUsage([]) == map t | t in TransformTypes :: 0
  {
  }

  /** Appending a round adds one use of its shuffle type and of its transform. */
  lemma UsageAfter(p: seq<RoundInfo>, x: RoundInfo)
    requires x.shuffle in ShuffleTypes && x.transform in TransformTypes
    ensures ShuffleUsage(p + [x]) == ShuffleUsage(p)[x.shuffle := ShuffleUsage(p)[x.shuffle] + 1]
    ensures TransformUsage(p + [x]) == TransformUsage(p)[x.transform := TransformUsage(p)[x.transform] + 1]
  {
    ShuffleUsageAfter(p, x);
    TransformUsageAfter(p, x);
  }

  lemma ShuffleUsageAfter(p: seq<RoundInfo>, x: RoundInfo)
    requires x.shuffle in ShuffleTypes
    ensures ShuffleUsage(p + [x]) == ShuffleUsage(p)[x.shuffle := ShuffleUsage(p)[x.shuffle] + 1]
  {
    var u := ShuffleUsage(p + [x]);
    var v := ShuffleUsage(p)[x.shuffle := ShuffleUsage(p)[x.shuffle] + 1];
    forall t | t in ShuffleTypes
      ensures u[t] == v[t]
    {
      Seqs.SnocPrefix(p, x);
    }
    assert u.Keys == v.Keys;
  }

  lemma TransformUsageAfter(p: seq<RoundInfo>, x: RoundInfo)
    requires x.transform in TransformTypes
    ensures TransformUsage(p + [x]) == TransformUsage(p)[x.transform := TransformUsage(p)[x.transform] + 1]
  {
    var u := TransformUsage(p + [x]);
    var v := TransformUsage(p)[x.transform := TransformUsage(p)[x.transform] + 1];
    forall t | t in TransformTypes
      ensures u[t] == v[t]
    {
      Seqs.SnocPrefix(p, x);
    }
    assert u.Keys == v.Keys;
  }

  /** Later rounds never change earlier ones: the structure for n rounds is a prefix of the one for m. */
  lemma {:induction false} StructurePrefix(rounds: int, emphasis: seq<TransformKind>, km: seq<Byte>, draw: Draw, n: nat, m: nat)
    requires |km| >= 4 && |emphasis| > 0 && n <= m
    ensures Structure(rounds, emphasis, km, draw, m)[..n] == Structure(rounds, emphasis, km, draw, n)
    decreases m
  {
    if n < m {
      StructurePrefix(rounds, emphasis, km, draw, n, m - 1);
      StructureDropLast(rounds, emphasis, km, draw, m);
      Seqs.PrefixOfPrefix(Structure(rounds, emphasis, km, draw, m), Structure(rounds, emphasis, km, draw, m - 1), Structure(rounds, emphasis, km, draw, n), n);
    } else {
      Seqs.TakeAll(Structure(rounds, emphasis, km, draw, m));
    }
  }

  /** Dropping the last round of a structure leaves the structure one round shorter. */
  lemma StructureDropLast(rounds: int, emphasis: seq<TransformKind>, km: seq<Byte>, draw: Draw, m: nat)
    requires |km| >= 4 && |emphasis| > 0 && m > 0
    ensures Structure(rounds, emphasis, km, draw, m)[..m - 1] == Structure(rounds, emphasis, km, draw, m - 1)
  {
    var p := Structure(rounds, emphasis, km, draw, m - 1);
    Seqs.SnocPrefix(p, NextRound(rounds, emphasis, km, draw, m - 1, p));
  }

  /** Round r of any longer structure is NextRound applied to the r rounds before it. */
  lemma StructureEntry(rounds: int, emphasis: seq<TransformKind>, km: seq<Byte>, draw: Draw, n: nat, r: nat)
    requires |km| >= 4 && |emphasis| > 0 && r < n
    ensures Structure(rounds, emphasis, km, draw, n)[r] == NextRound(rounds, emphasis, km, draw, r, Structure(rounds, emphasis, km, draw, r))
  {
    StructurePrefix(rounds, emphasis, km, draw, r + 1, n);
    var s := Structure(rounds, emphasis, km, draw, n);
    assert s[r] == s[..r + 1][r];
  }

  /** The shuffle and transform of a round are the ones ShuffleFor and TransformFor select. */
  lemma NextRoundSelects(rounds: int, emphasis: seq<TransformKind>, km: seq<Byte>, draw: Draw, r: nat, p: seq<RoundInfo>)
    requires |km| >= 4 && |emphasis| > 0
    ensures NextRound(rounds, emphasis, km, draw, r, p).shuffle == ShuffleFor(km, draw, r, p)
    ensures NextRound(rounds, emphasis, km, draw, r, p).transform == TransformFor(emphasis, km, draw, r, p)
  {
  }

  /** Every round is in range: a listed shuffle type, variant 0-3, 1-4 steps, a key in [1000, 100000) and a chunk size of 2 to 32 KiB. */
  lemma NextRoundRanges(rounds: int, emphasis: seq<TransformKind>, km: seq<Byte>, draw: Draw, r: nat, p: seq<RoundInfo>)
    requires |km| >= 4 && |emphasis| > 0
    ensures var e := NextRound(rounds, emphasis, km, draw, r, p);
      e.shuffle in ShuffleTypes && 0 <= e.variant < 4 && 1 <= e.steps <= 4
      && 1000 <= e.key < 100000 && e.chunkSize in {2048, 4096, 8192, 16384, 32768}
  {
  }

  /** Within the emphasis list's length, TransformFor follows the list. */
  lemma TransformForEmphasis(emphasis: seq<TransformKind>, km: seq<Byte>, draw: Draw, r: nat, p: seq<RoundInfo>)
    requires |km| >= 4 && |emphasis| > 0 && r < |emphasis|
    ensures TransformFor(emphasis, km, draw, r, p) == emphasis[r]
  {
  }

  /** Past the emphasis list and within the first seven rounds, TransformFor picks a least used transform. */
  lemma TransformForLeastUsed(emphasis: seq<TransformKind>, km: seq<Byte>, draw: Draw, r: nat, p: seq<RoundInfo>)
    requires |km| >= 4 && |emphasis| > 0 && |emphasis| <= r < |TransformTypes|
    ensures TransformFor(emphasis, km, draw, r, p) in LeastUsed(TransformTypes, TransformUsage(p))
  {
  }

  /** Within the first five rounds, ShuffleFor picks a least used shuffle type. */
  lemma ShuffleForLeastUsed(km: seq<Byte>, draw: Draw, r: nat, p: seq<RoundInfo>)
    requires |km| >= 4 && r < |ShuffleTypes|
    ensures ShuffleFor(km, draw, r, p) in LeastUsed(ShuffleTypes, ShuffleUsage(p))
  {
  }

  /** A type with no recorded use appears in no round of the prefix. */
  lemma {:induction false} UnusedShuffleAbsent(p: seq<RoundInfo>, t: ShuffleKind)
    requires ShuffleCount(p, t) == 0
    ensures forall i :: 0 <= i < |p| ==> p[i].shuffle != t
  {
    if p != [] {
      UnusedShuffleAbsent(p[..|p| - 1], t);
      assert forall i :: 0 <= i < |p| - 1 ==> p[i] == p[..|p| - 1][i];
    }
  }

  lemma {:induction false} UnusedTransformAbsent(p: seq<RoundInfo>, t: TransformKind)
    requires TransformCount(p, t) == 0
    ensures forall i :: 0 <= i < |p| ==> p[i].transform != t
  {
    if p != [] {
      UnusedTransformAbsent(p[..|p| - 1], t);
      assert forall i :: 0 <= i < |p| - 1 ==> p[i] == p[..|p| - 1][i];
    }
  }

  /** The counts over all five shuffle types add up to the number of rounds. */
  lemma {:induction false} ShuffleCountsSum(p: seq<RoundInfo>)
    ensures ShuffleCount(p, NoShuffle) + ShuffleCount(p, In) + ShuffleCount(p, Out) + ShuffleCount(p, Milk) + ShuffleCount(p, Cut) == |p|
  {
    if p != [] {
      ShuffleCountsSum(p[..|p| - 1]);
    }
  }

  /** The counts over all seven transforms add up to the number of rounds. */
  lemma {:induction false} TransformCountsSum(p: seq<RoundInfo>)
    ensures TransformCount(p, EnhancedXor) + TransformCount(p, Fibonacci) + TransformCount(p, AvalancheCascade)
          + TransformCount(p, PrimeSieve) + TransformCount(p, Invert) + TransformCount(p, SwapPairs) + TransformCount(p, BitFlip) == |p|
  {
    if p != [] {
      TransformCountsSum(p[..|p| - 1]);
    }
  }

  /** While fewer than five rounds exist, some shuffle type is unused, so the least used ones are unused. */
  lemma LeastUsedShuffleFresh(p: seq<RoundInfo>, t: ShuffleKind)
    requires |p| < |ShuffleTypes| && t in LeastUsed(ShuffleTypes, ShuffleUsage(p))
    ensures forall i :: 0 <= i < |p| ==> p[i].shuffle != t
  {
    LeastUsedMin(ShuffleTypes, ShuffleUsage(p), t);
    ShuffleMinZero(p);
    UnusedShuffleAbsent(p, t);
  }

  /** Fewer than five rounds leave some shuffle type at zero uses. */
  lemma ShuffleMinZero(p: seq<RoundInfo>)
    requires |p| < |ShuffleTypes|
    ensures MinValue(ShuffleTypes, ShuffleUsage(p)) == 0
  {
    var usage := ShuffleUsage(p);
    var m := MinValue(ShuffleTypes, usage);
    ShuffleCountsSum(p);
    assert usage[ShuffleTypes[0]] >= m && usage[ShuffleTypes[1]] >= m && usage[ShuffleTypes[2]] >= m;
    assert usage[ShuffleTypes[3]] >= m && usage[ShuffleTypes[4]] >= m;
  }

  /** While fewer than seven rounds exist, the least used transforms are unused. */
  lemma LeastUsedTransformFresh(p: seq<RoundInfo>, t: TransformKind)
    requires |p| < |TransformTypes| && t in LeastUsed(TransformTypes, TransformUsage(p))
    ensures forall i :: 0 <= i < |p| ==> p[i].transform != t
  {
    assert TransformCount(p, t) == 0 by {
      var usage := TransformUsage(p);
      LeastUsedMin(TransformTypes, usage, t);
      TransformMinZero(p);
      assert usage[t] == TransformCount(p, t);
    }
    UnusedTransformAbsent(p, t);
  }

  /** Fewer than seven rounds leave some transform at zero uses. */
  lemma TransformMinZero(p: seq<RoundInfo>)
    requires |p| < |TransformTypes|
    ensures MinValue(TransformTypes, TransformUsage(p)) == 0
  {
    var usage := TransformUsage(p);
    var m := MinValue(TransformTypes, usage);
    TransformCountsSum(p);
    assert usage[TransformTypes[0]] >= m && usage[TransformTypes[1]] >= m && usage[TransformTypes[2]] >= m;
    assert usage[TransformTypes[3]] >= m && usage[TransformTypes[4]] >= m;
    assert usage[TransformTypes[5]] >= m && usage[TransformTypes[6]] >= m;
  }

  /** The first five rounds (or all of them, if fewer) use pairwise different shuffle types. */
  lemma FirstShufflesDistinct(rounds: int, emphasis: seq<TransformKind>, km: seq<Byte>, draw: Draw, n: nat, i: nat, j: nat)
    requires |km| >= 4 && |emphasis| > 0 && i < j < n && j < |ShuffleTypes|
    ensures Structure(rounds, emphasis, km, draw, n)[i].shuffle != Structure(rounds, emphasis, km, draw, n)[j].shuffle
  {
    var s := Structure(rounds, emphasis, km, draw, n);
    var p := Structure(rounds, emphasis, km, draw, j);
    StructureEntry(rounds, emphasis, km, draw, n, j);
    StructurePrefix(rounds, emphasis, km, draw, j, n);
    NextRoundSelects(rounds, emphasis, km, draw, j, p);
    ShuffleForLeastUsed(km, draw, j, p);
    LeastUsedShuffleFresh(p, s[j].shuffle);
    assert p[i] == s[i];
  }

  /** The first rounds take their transforms from the emphasis list, in order. */
  lemma EmphasisFirst(rounds: int, emphasis: seq<TransformKind>, km: seq<Byte>, draw: Draw, n: nat, r: nat)
    requires |km| >= 4 && |emphasis| > 0 && r < n && r < |emphasis|
    ensures Structure(rounds, emphasis, km, draw, n)[r].transform == emphasis[r]
  {
    var p := Structure(rounds, emphasis, km, draw, r);
    StructureEntry(rounds, emphasis, km, draw, n, r);
    NextRoundSelects(rounds, emphasis, km, draw, r, p);
    TransformForEmphasis(emphasis, km, draw, r, p);
  }

  /** With a repetition-free emphasis list, the first seven rounds use pairwise different transforms. */
  lemma FirstTransformsDistinct(rounds: int, emphasis: seq<TransformKind>, km: seq<Byte>, draw: Draw, n: nat, i: nat, j: nat)
    requires |km| >= 4 && |emphasis| > 0 && i < j < n && j < |TransformTypes|
    requires forall a, b :: 0 <= a < b < |emphasis| ==> emphasis[a] != emphasis[b]
    ensures Structure(rounds, emphasis, km, draw, n)[i].transform != Structure(rounds, emphasis, km, draw, n)[j].transform
  {
    if j < |emphasis| {
      EmphasisFirst(rounds, emphasis, km, draw, n, i);
      EmphasisFirst(rounds, emphasis, km, draw, n, j);
    } else {
      var s := Structure(rounds, emphasis, km, draw, n);
      var p := Structure(rounds, emphasis, km, draw, j);
      StructureEntry(rounds, emphasis, km, draw, n, j);
      StructurePrefix(rounds, emphasis, km, draw, j, n);
      NextRoundSelects(rounds, emphasis, km, draw, j, p);
      TransformForLeastUsed(emphasis, km, draw, j, p);
      LeastUsedTransformFresh(p, s[j].transform);
      assert p[i] == s[i];
    }
  }

  /** Every entry of a structure is in range. */
  lemma StructureRanges(rounds: int, emphasis: seq<TransformKind>, km: seq<Byte>, draw: Draw, n: nat, r: nat)
    requires |km| >= 4 && |emphasis| > 0 && r < n
    ensures var e := Structure(rounds, emphasis, km, draw, n)[r];
      e.shuffle in ShuffleTypes && 0 <= e.variant < 4 && 1 <= e.steps <= 4
      && 1000 <= e.key < 100000 && e.chunkSize in {2048, 4096, 8192, 16384, 32768}
  {
    StructureEntry(rounds, emphasis, km, draw, n, r);
    NextRoundRanges(rounds, emphasis, km, draw, r, Structure(rounds, emphasis, km, draw, r));
  }

  /** Chunk sizes are powers of two. */
  lemma ChunkSizesPow2(size: int)
    requires size in {2048, 4096, 8192, 16384, 32768}
    ensures size > 0 && Utils.IsPow2(size)
  {
    assert Utils.IsPow2(2048) by {
      assert Utils.IsPow2(1) && Utils.IsPow2(2) && Utils.IsPow2(4) && Utils.IsPow2(8) && Utils.IsPow2(16);
      assert Utils.IsPow2(32) && Utils.IsPow2(64) && Utils.IsPow2(128) && Utils.IsPow2(256) && Utils.IsPow2(512);
      assert Utils.IsPow2(1024);
    }
  }

  /** A structure with at least one round is fit for the data pipeline: every chunk size is a positive power of two. */
  lemma RoundStructureWellFormed(kdf: Kdf, draw: Draw, key: seq<Byte>, rounds: nat, emphasis: seq<TransformKind>)
    requires |emphasis| > 0 && rounds > 0
    ensures WellFormed(RoundStructure(kdf, draw, key, rounds, emphasis))
  {
    var km := KeyMaterial(kdf, key, rounds);
    var s := Structure(rounds, emphasis, km, draw, rounds);
    forall k | 0 <= k < |s|
      ensures s[k].chunkSize > 0 && Utils.IsPow2(s[k].chunkSize)
    {
      StructureRanges(rounds, emphasis, km, draw, rounds, k);
      ChunkSizesPow2(s[k].chunkSize);
    }
  }
}
