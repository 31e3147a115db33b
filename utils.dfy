/**
 * faro_cipher/utils.py: padding a bit array to a power-of-two length, and
 * the key fingerprint (the first 16 hex digits of the key's MD5 digest).
 * MD5 itself is a parameter of type Md5: any function returning 16 bytes.
 */
module Utils {
  import opened Bits

  predicate IsPow2(n: nat)
    decreases n
  {
    n == 1 || (n >= 2 && n % 2 == 0 && IsPow2(n / 2))
  }

  lemma Pow2Double(p: nat)
    requires IsPow2(p)
    ensures IsPow2(2 * p)
  {
    assert (2 * p) / 2 == p;
  }

  /** Doubling from p until the value reaches n. */
  function GrowTo(p: nat, n: nat): (q: nat)
    requires IsPow2(p)
    ensures IsPow2(q) && q >= n && q >= p
    ensures q == p || q / 2 < n
    decreases n - p
  {
    if p >= n then p else Pow2Double(p); GrowTo(2 * p, n)
  }

  /** The length pad_to_power_of_2 pads to: 1 for lengths 0 and 1, otherwise the least power of two not below n. */
  function TargetLength(n: nat): (p: nat)
    ensures IsPow2(p) && p >= n
  {
    if n <= 1 then 1 else GrowTo(1, n)
  }

  lemma {:induction false} Pow2Doubles(p: nat, q: nat)
    requires IsPow2(p) && IsPow2(q) && p < q
    ensures 2 * p <= q
    decreases q
  {
    if p == 1 {
    } else {
      Pow2Doubles(p / 2, q / 2);
    }
  }

  lemma {:induction false} GrowToLeast(p: nat, n: nat, q: nat)
    requires IsPow2(p) && IsPow2(q) && p <= q && n <= q
    ensures GrowTo(p, n) <= q
    decreases n - p
  {
    if p < n {
      Pow2Doubles(p, q);
      Pow2Double(p);
      GrowToLeast(2 * p, n, q);
    }
  }

  /** No power of two at least n is smaller than TargetLength(n). */
  lemma TargetLengthLeast(n: nat, q: nat)
    requires IsPow2(q) && q >= n
    ensures TargetLength(n) <= q
  {
    if n > 1 {
      GrowToLeast(1, n, q);
    } else {
      assert q >= 1;
    }
  }

  function Zeros(k: nat): (z: seq<Bit>)
    ensures |z| == k && forall i :: 0 <= i < k ==> z[i] == 0
  {
    seq(k, _ => 0)
  }

  /** pad_to_power_of_2's padded array: the input followed by zeros up to TargetLength. */
  function Padded(bits: seq<Bit>): (r: seq<Bit>)
    ensures |r| == TargetLength(|bits|)
  {
    bits + Zeros(TargetLength(|bits|) - |bits|)
  }

  /** The padded array starts with the input and holds only zeros after it. */
  lemma PaddedShape(bits: seq<Bit>)
    ensures Padded(bits)[..|bits|] == bits
    ensures forall i :: |bits| <= i < |Padded(bits)| ==> Padded(bits)[i] == 0
  {
  }

  /** An input whose length is already a power of two comes back unchanged. */
  lemma PaddedPow2(bits: seq<Bit>)
    requires IsPow2(|bits|)
    ensures Padded(bits) == bits
  {
    TargetLengthLeast(|bits|, |bits|);
  }

  /** An empty input pads to the single bit 0. */
  lemma PaddedEmpty()
    ensures Padded([]) == [0]
  {
  }

  /** pad_to_power_of_2: the padded array and the original length. */
  method PadToPowerOf2(bits: seq<Bit>) returns (padded: seq<Bit>, originalLength: nat)
    ensures padded == Padded(bits) && originalLength == |bits|
  {
    originalLength := |bits|;
    var targetLength: nat;
    if originalLength <= 1 {
      targetLength := 1;
    } else {
      targetLength := 1;
      while targetLength < originalLength
        invariant IsPow2(targetLength)
        invariant GrowTo(targetLength, originalLength) == GrowTo(1, originalLength)
        decreases originalLength - targetLength
      {
        ghost var previous := targetLength;
        targetLength := targetLength * 2;
        GrowStep(previous, targetLength, originalLength);
      }
    }
    if targetLength > originalLength {
      var a := new Bit[targetLength](_ => 0);
      for i := 0 to originalLength
        invariant forall j :: 0 <= j < targetLength ==> a[j] == if j < i then bits[j] else 0
      {
        a[i] := bits[i];
      }
      padded := a[..];
      assert padded == bits + Zeros(targetLength - originalLength);
    } else {
      padded := bits;
    }
  }

  /** One doubling step of the loop keeps the power of two it ends on. */
  lemma GrowStep(p: nat, q: nat, n: nat)
    requires IsPow2(p) && p < n && q == 2 * p
    ensures IsPow2(q) && GrowTo(q, n) == GrowTo(p, n)
  {
    Pow2Double(p);
  }

  /** MD5 (RFC 1321), left abstract: any function that yields a 16-byte digest. */
  type Md5 = f: seq<Byte> -> seq<Byte> | forall k :: |f(k)| == 16
    witness (k: seq<Byte>) => seq(16, _ => 0)

  /** One lowercase hexadecimal digit. */
  function HexDigit(x: Byte): char
    requires x < 16
  {
    "0123456789abcdef"[x as int]
  }

  /** Python's hexdigest: two lowercase digits per byte, high nibble first. */
  function Hex(s: seq<Byte>): (h: seq<char>)
    ensures |h| == 2 * |s|
  {
    if s == [] then [] else [HexDigit(s[0] >> 4), HexDigit(s[0] & 15)] + Hex(s[1..])
  }

  /** generate_key_fingerprint: the first 16 characters of the MD5 hexdigest. */
  function Fingerprint(md5: Md5, key: seq<Byte>): (fp: string)
    ensures |fp| == 16
  {
    Hex(md5(key))[..16]
  }

  /** verify_key_compatibility. */
  predicate KeyCompatible(md5: Md5, key: seq<Byte>, fingerprint: string)
  {
    Fingerprint(md5, key) == fingerprint
  }

  lemma HexDigitInjective(x: Byte, y: Byte)
    requires x < 16 && y < 16 && HexDigit(x) == HexDigit(y)
    ensures x == y
  {
  }

  lemma NibblesDetermineByte(a: Byte, b: Byte)
    requires a >> 4 == b >> 4 && a & 15 == b & 15
    ensures a == b
  {
  }

  lemma {:induction false} HexPrefix(s: seq<Byte>, k: nat)
    requires k <= |s|
    ensures Hex(s)[..2 * k] == Hex(s[..k])
  {
    if k > 0 {
      HexPrefix(s[1..], k - 1);
      assert s[..k][1..] == s[1..][..k - 1];
    }
  }

  lemma {:induction false} HexInjective(a: seq<Byte>, b: seq<Byte>)
    requires |a| == |b| && Hex(a) == Hex(b)
    ensures a == b
  {
    if a != [] {
      var ha, hb := Hex(a), Hex(b);
      assert ha[0] == hb[0] && ha[1] == hb[1];
      HexDigitInjective(a[0] >> 4, b[0] >> 4);
      HexDigitInjective(a[0] & 15, b[0] & 15);
      NibblesDetermineByte(a[0], b[0]);
      assert Hex(a[1..]) == ha[2..] == hb[2..] == Hex(b[1..]);
      HexInjective(a[1..], b[1..]);
    }
  }

  /** Two keys have the same fingerprint exactly when their MD5 digests agree on the first eight bytes. */
  lemma FingerprintMatches(md5: Md5, key1: seq<Byte>, key2: seq<Byte>)
    ensures Fingerprint(md5, key1) == Fingerprint(md5, key2) <==> md5(key1)[..8] == md5(key2)[..8]
  {
    HexPrefix(md5(key1), 8);
    HexPrefix(md5(key2), 8);
    if Fingerprint(md5, key1) == Fingerprint(md5, key2) {
      HexInjective(md5(key1)[..8], md5(key2)[..8]);
    }
  }
}
