/**
 * The seven keyed transforms of faro_cipher/transforms.py.
 *
 * Six of them flip a bit (b becomes 1 - b) at the positions a condition on
 * (key, position) selects; swap_pairs exchanges the two bits of selected
 * even-aligned pairs. Because the choice of positions never looks at the
 * bits, applying a transform twice with the same key restores the input.
 * Transform states each one as a function of the whole input; the methods
 * below are the index loops of the source, proved against it.
 */
module Transforms {
  import opened Bits
  import opened Wrappers

  datatype TransformKind =
    | EnhancedXor
    | Fibonacci
    | AvalancheCascade
    | PrimeSieve
    | Invert
    | SwapPairs
    | BitFlip

  function Flip(b: Bit): Bit { 1 - b }

  /** `(a ^ b) % 256` on Python integers: the low eight bits of a two's complement XOR are the XOR of the low eight bits. */
  function Xor8(a: int, b: int): (x: nat)
    ensures x < 256
  {
    (((a % 256) as bv8) ^ ((b % 256) as bv8)) as nat
  }

  /** The pair (fib_a, fib_b) of fibonacci_transform before it looks at position i. */
  function FibPair(key: int, i: nat): (nat, nat)
  {
    if i == 0 then (key % 100, (key / 100) % 100)
    else
      var (a, b) := FibPair(key, i - 1);
      (b, (a + b) % 1000)
  }

  /** The integer square root, standing for `int(pos**0.5)`. */
  function ISqrt(x: nat): (r: nat)
    ensures r * r <= x < (r + 1) * (r + 1)
  {
    if x == 0 then 0
    else
      var r := ISqrt(x - 1);
      if (r + 1) * (r + 1) <= x then r + 1 else r
  }

  function Min(a: int, b: int): int { if a < b then a else b }

  /** The primality test of prime_sieve_transform: no trial divisor below min(isqrt(pos) + 1, 20) divides pos. */
  predicate SievePrime(pos: int)
  {
    pos >= 2 && forall d :: 2 <= d < Min(ISqrt(pos) + 1, 20) ==> pos % d != 0
  }

  /** Whether the flip transform `kind` flips position i of an n-bit input. */
  predicate Flips(kind: TransformKind, key: int, n: nat, i: nat)
  {
    match kind
    case EnhancedXor => (key + i * 7) % 256 % 3 == 0
    case Fibonacci => n >= 2 && FibPair(key, i).0 % 4 == 0
    case AvalancheCascade =>
      (key + i * 7) % 256 % 8 == 0 || (key * 3 + i * 13) % 256 % 7 == 1 || Xor8(key, i * 17) % 9 == 3
    case PrimeSieve => SievePrime(i + 2 + key % 97)
    case Invert => (i + key) % 3 == 0
    case SwapPairs => false
    case BitFlip => (i * key) % 7 == 0
  }

  /** The position whose bit swap_pairs_transform moves to position i. */
  function SwapPartner(key: int, n: nat, i: nat): (j: nat)
    requires i < n
    ensures j < n
  {
    if i % 2 == 0 && i + 1 < n && (i + key) % 4 == 0 then i + 1
    else if i % 2 == 1 && (i - 1 + key) % 4 == 0 then i - 1
    else i
  }

  /** The output of transform `kind` with `key` on the bit sequence t. */
  function Transform(kind: TransformKind, key: int, t: seq<Bit>): (r: seq<Bit>)
    ensures |r| == |t|
  {
    if kind == SwapPairs then seq(|t|, i requires 0 <= i < |t| => t[SwapPartner(key, |t|, i)])
    else seq(|t|, i requires 0 <= i < |t| => if Flips(kind, key, |t|, i) then Flip(t[i]) else t[i])
  }

  lemma SwapPartnerInvolutive(key: int, n: nat, i: nat)
    requires i < n
    ensures SwapPartner(key, n, SwapPartner(key, n, i)) == i
  {
  }

  /** Every transform undoes itself under the same key. */
  lemma TransformSelfInverse(kind: TransformKind, key: int, t: seq<Bit>)
    ensures Transform(kind, key, Transform(kind, key, t)) == t
  {
    var once := Transform(kind, key, t);
    forall i | 0 <= i < |t|
      ensures Transform(kind, key, once)[i] == t[i]
    {
      if kind == SwapPairs {
        SwapPartnerInvolutive(key, |t|, i);
      }
    }
  }

  /** The bit at position i changes exactly where the transform flips it (for the flip transforms). */
  lemma FlipsExactly(kind: TransformKind, key: int, t: seq<Bit>, i: nat)
    requires kind != SwapPairs && i < |t|
    ensures Transform(kind, key, t)[i] != t[i] <==> Flips(kind, key, |t|, i)
  {
  }

  /** swap_pairs never moves the last bit of an odd-length input. */
  lemma SwapPairsKeepsOddTail(key: int, t: seq<Bit>)
    requires |t| % 2 == 1
    ensures Transform(SwapPairs, key, t)[|t| - 1] == t[|t| - 1]
  {
  }

  /** fibonacci_transform leaves inputs shorter than two bits alone. */
  lemma FibonacciShortInput(key: int, t: seq<Bit>)
    requires |t| < 2
    ensures Transform(Fibonacci, key, t) == t
  {
  }

  /** The loop shared by the flip transforms: flip the positions `kind` selects, one at a time, in a copy. */
  method FlipLoop(bits: seq<Bit>, kind: TransformKind, key: int) returns (r: seq<Bit>)
    requires kind in {EnhancedXor, Invert, BitFlip, AvalancheCascade}
    ensures r == Transform(kind, key, bits)
  {
    var result := new Bit[|bits|](i requires 0 <= i < |bits| => bits[i]);
    for i := 0 to result.Length
      invariant forall j :: 0 <= j < result.Length ==>
        result[j] == if j < i && Flips(kind, key, |bits|, j) then Flip(bits[j]) else bits[j]
    {
      var flip;
      if kind == EnhancedXor {
        var pattern := (key + i * 7) % 256;
        flip := pattern % 3 == 0;
      } else if kind == Invert {
        flip := (i + key) % 3 == 0;
      } else if kind == BitFlip {
        flip := (i * key) % 7 == 0;
      } else {
        var pattern1 := (key + i * 7) % 256;
        var pattern2 := (key * 3 + i * 13) % 256;
        var pattern3 := Xor8(key, i * 17);
        flip := pattern1 % 8 == 0 || pattern2 % 7 == 1 || pattern3 % 9 == 3;
      }
      if flip {
        result[i] := 1 - result[i];
      }
    }
    return result[..];
  }

  /** enhanced_xor_transform: flip bit i when (key + 7i) mod 256 is a multiple of 3. */
  method EnhancedXorTransform(bits: seq<Bit>, key: int) returns (r: seq<Bit>)
    ensures r == Transform(EnhancedXor, key, bits)
  {
    r := FlipLoop(bits, EnhancedXor, key);
  }

  /** avalanche_cascade_transform: flip bit i when any of three (key, i) patterns matches. */
  method AvalancheCascadeTransform(bits: seq<Bit>, key: int) returns (r: seq<Bit>)
    ensures r == Transform(AvalancheCascade, key, bits)
  {
    if |bits| == 0 {
      return bits;
    }
    r := FlipLoop(bits, AvalancheCascade, key);
  }

  /** invert_transform: flip bit i when (i + key) mod 3 is 0. */
  method InvertTransform(bits: seq<Bit>, key: int) returns (r: seq<Bit>)
    ensures r == Transform(Invert, key, bits)
  {
    r := FlipLoop(bits, Invert, key);
  }

  /** bit_flip_transform: flip bit i when (i * key) mod 7 is 0. */
  method BitFlipTransform(bits: seq<Bit>, key: int) returns (r: seq<Bit>)
    ensures r == Transform(BitFlip, key, bits)
  {
    r := FlipLoop(bits, BitFlip, key);
  }

  /** fibonacci_transform: walk the pair (a, b) from the key and flip bit i when a mod 4 is 0. */
  method FibonacciTransform(bits: seq<Bit>, key: int) returns (r: seq<Bit>)
    ensures r == Transform(Fibonacci, key, bits)
  {
    var result := new Bit[|bits|](i requires 0 <= i < |bits| => bits[i]);
    var n := result.Length;
    if n < 2 {
      return result[..];
    }
    var fibA, fibB := key % 100, (key / 100) % 100;
    for i := 0 to n
      invariant (fibA, fibB) == FibPair(key, i)
      invariant forall j :: 0 <= j < n ==>
        result[j] == if j < i && Flips(Fibonacci, key, n, j) then Flip(bits[j]) else bits[j]
    {
      if fibA % 4 == 0 {
        result[i] := 1 - result[i];
      }
      fibA, fibB := fibB, (fibA + fibB) % 1000;
    }
    return result[..];
  }

  /** prime_sieve_transform: flip bit i when i + 2 + key mod 97 passes the bounded trial division. */
  method PrimeSieveTransform(bits: seq<Bit>, key: int) returns (r: seq<Bit>)
    ensures r == Transform(PrimeSieve, key, bits)
  {
    var result := new Bit[|bits|](i requires 0 <= i < |bits| => bits[i]);
    var n := result.Length;
    var basePrime := 2 + key % 97;
    for i := 0 to n
      invariant forall j :: 0 <= j < n ==>
        result[j] == if j < i && Flips(PrimeSieve, key, n, j) then Flip(bits[j]) else bits[j]
    {
      var pos := i + basePrime;
      var isPrimePos := true;
      if pos < 2 {
        isPrimePos := false;
      } else {
        var limit := Min(ISqrt(pos) + 1, 20);
        var j := 2;
        while j < limit
          invariant 2 <= j && isPrimePos
          invariant forall d :: 2 <= d < j ==> pos % d != 0
        {
          if pos % j == 0 {
            isPrimePos := false;
            break;
          }
          j := j + 1;
        }
      }
      assert isPrimePos == SievePrime(pos);
      if isPrimePos {
        result[i] := 1 - result[i];
      }
    }
    return result[..];
  }

  /** swap_pairs_transform: for even i with i + 1 < n, swap bits i and i + 1 when (i + key) mod 4 is 0. */
  method SwapPairsTransform(bits: seq<Bit>, key: int) returns (r: seq<Bit>)
    ensures r == Transform(SwapPairs, key, bits)
  {
    var result := new Bit[|bits|](i requires 0 <= i < |bits| => bits[i]);
    var n := result.Length;
    var i := 0;
    while i < n - 1
      invariant i % 2 == 0 && 0 <= i <= n + 1
      invariant forall j :: 0 <= j < n ==>
        result[j] == if j < i then bits[SwapPartner(key, n, j)] else bits[j]
    {
      if (i + key) % 4 == 0 {
        result[i], result[i + 1] := result[i + 1], result[i];
      }
      i := i + 2;
    }
    return result[..];
  }

  /** Runs the transform of the given kind, as the registry's function for that name does. */
  method ApplyTransform(kind: TransformKind, bits: seq<Bit>, key: int) returns (r: seq<Bit>)
    ensures r == Transform(kind, key, bits)
  {
    match kind
    case EnhancedXor => r := EnhancedXorTransform(bits, key);
    case Fibonacci => r := FibonacciTransform(bits, key);
    case AvalancheCascade => r := AvalancheCascadeTransform(bits, key);
    case PrimeSieve => r := PrimeSieveTransform(bits, key);
    case Invert => r := InvertTransform(bits, key);
    case SwapPairs => r := SwapPairsTransform(bits, key);
    case BitFlip => r := BitFlipTransform(bits, key);
  }

  /** The registry key of each transform in AVAILABLE_TRANSFORMS. */
  function TransformName(kind: TransformKind): string
  {
    match kind
    case EnhancedXor => "enhanced_xor"
    case Fibonacci => "fibonacci"
    case AvalancheCascade => "avalanche_cascade"
    case PrimeSieve => "prime_sieve"
    case Invert => "invert"
    case SwapPairs => "swap_pairs"
    case BitFlip => "bit_flip"
  }

  /** get_transform_function: the transform registered under `name`, or None. */
  function TransformByName(name: string): (k: Option<TransformKind>)
    ensures k.Some? ==> TransformName(k.value) == name
  {
    if name == "enhanced_xor" then Some(EnhancedXor)
    else if name == "fibonacci" then Some(Fibonacci)
    else if name == "avalanche_cascade" then Some(AvalancheCascade)
    else if name == "prime_sieve" then Some(PrimeSieve)
    else if name == "invert" then Some(Invert)
    else if name == "swap_pairs" then Some(SwapPairs)
    else if name == "bit_flip" then Some(BitFlip)
    else None
  }

  /** Every transform is found under its own name, so the registry names seven distinct transforms. */
  lemma RegistryRoundTrip(kind: TransformKind)
    ensures TransformByName(TransformName(kind)) == Some(kind)
  {
  }
}
