/**
 * faro_shuffle and inverse_faro_shuffle of faro_cipher/shuffles.py, run on
 * an array one numpy slice assignment at a time.
 *
 * Each step copies the array to `temp` and overwrites slices of it from
 * slices of `temp`. A slice assignment whose sizes differ raises ValueError
 * unless the source has exactly one element, which numpy broadcasts; the
 * methods return false (and the shuffles None) where numpy raises.
 */
module Shuffles {
  import opened Bits
  import opened Wrappers
  import opened ShuffleSpec
  import Arith

  datatype Stride = Unit | Two

  /** A basic slice of a one-dimensional array, normalised to its first index, stride and length. */
  datatype Slice = Slice(lo: nat, stride: Stride, count: nat)

  /** The array index of the slice's k-th element. */
  function Index(s: Slice, k: nat): nat
  {
    s.lo + (if s.stride == Two then 2 * k else k)
  }

  predicate Within(s: Slice, len: nat)
  {
    s.count == 0 || Index(s, s.count - 1) < len
  }

  /** Which element of the slice array index i is, when it is one. */
  function Offset(s: Slice, i: nat): nat
    requires s.lo <= i
  {
    if s.stride == Unit then i - s.lo else (i - s.lo) / 2
  }

  predicate Covers(s: Slice, i: nat)
  {
    s.lo <= i && (s.stride == Unit || (i - s.lo) % 2 == 0) && Offset(s, i) < s.count
  }

  /** A slice bound as Python reads it: negative counts from the end, and both ends are clamped. */
  function Bound(len: nat, x: int): (b: nat)
    ensures b <= len
  {
    if x < 0 then (if len + x < 0 then 0 else len + x) else if x > len then len else x
  }

  /** a[start:stop] on an array of length len. */
  function Range(len: nat, start: int, stop: int): (s: Slice)
    ensures Within(s, len)
  {
    var lo, hi := Bound(len, start), Bound(len, stop);
    Slice(lo, Unit, if lo < hi then hi - lo else 0)
  }

  /** a[start::2] on an array of length len. */
  function Every2(len: nat, start: nat): (s: Slice)
    ensures Within(s, len)
  {
    Slice(start, Two, if start < len then (len - start + 1) / 2 else 0)
  }

  /** s[:k] for a slice s and k >= 0. */
  function Take(s: Slice, k: nat): Slice
  {
    Slice(s.lo, s.stride, if k < s.count then k else s.count)
  }

  /** numpy accepts `dst = src` when the sizes agree or the source has one element to broadcast. */
  predicate Assignable(dst: Slice, from: Slice)
  {
    from.count == dst.count || from.count == 1
  }

  /** The array after `a[dst] = src[from]`. */
  function Assigned<T>(a: seq<T>, dst: Slice, src: seq<T>, from: Slice): (r: seq<T>)
    requires Within(dst, |a|) && Within(from, |src|) && Assignable(dst, from)
    ensures |r| == |a|
  {
    seq(|a|, i requires 0 <= i < |a| =>
      if Covers(dst, i) then src[Index(from, if from.count == 1 then 0 else Offset(dst, i))] else a[i])
  }

  /** One numpy slice assignment `a[dst] = src[from]`; false where numpy raises ValueError. */
  method Assign(a: array<Bit>, dst: Slice, src: seq<Bit>, from: Slice) returns (ok: bool)
    requires Within(dst, a.Length) && Within(from, |src|)
    modifies a
    ensures ok == Assignable(dst, from)
    ensures ok ==> a[..] == Assigned(old(a[..]), dst, src, from)
    ensures !ok ==> a[..] == old(a[..])
  {
    if !Assignable(dst, from) {
      return false;
    }
    ghost var before := a[..];
    for k := 0 to dst.count
      invariant forall i :: 0 <= i < a.Length ==>
        a[i] == if Covers(Slice(dst.lo, dst.stride, k), i)
                then src[Index(from, if from.count == 1 then 0 else Offset(dst, i))]
                else before[i]
    {
      a[Index(dst, k)] := src[Index(from, if from.count == 1 then 0 else k)];
      forall i | 0 <= i < a.Length
        ensures a[i] == if Covers(Slice(dst.lo, dst.stride, k + 1), i)
                        then src[Index(from, if from.count == 1 then 0 else Offset(dst, i))]
                        else before[i]
      {
        CoversStep(dst, k, i);
      }
    }
    return true;
  }

  /** The first k + 1 elements of a slice cover what the first k cover and the k-th element's index. */
  lemma CoversStep(dst: Slice, k: nat, i: nat)
    ensures Covers(Slice(dst.lo, dst.stride, k + 1), i) <==> Covers(Slice(dst.lo, dst.stride, k), i) || i == Index(dst, k)
    ensures i == Index(dst, k) ==> Offset(dst, i) == k
  {
    if dst.stride == Two && dst.lo <= i {
      var d := i - dst.lo;
      Arith.DivModUnique(d, d / 2, 2, d % 2);
      if i == Index(dst, k) {
        Arith.DivModUnique(d, k, 2, 0);
      }
    }
  }

  /** temp = a.copy(); a[d1] = temp[f1]; a[d2] = temp[f2]: false where either assignment raises. */
  method AssignPair(a: array<Bit>, d1: Slice, f1: Slice, d2: Slice, f2: Slice) returns (ok: bool)
    requires Within(d1, a.Length) && Within(f1, a.Length) && Within(d2, a.Length) && Within(f2, a.Length)
    modifies a
    ensures ok == (Assignable(d1, f1) && Assignable(d2, f2))
    ensures ok ==> a[..] == Assigned(Assigned(old(a[..]), d1, old(a[..]), f1), d2, old(a[..]), f2)
  {
    var temp := a[..];
    ok := Assign(a, d1, temp, f1);
    if !ok { return; }
    ok := Assign(a, d2, temp, f2);
  }

  lemma AssignedAt<T>(a: seq<T>, dst: Slice, src: seq<T>, from: Slice, i: nat)
    requires Within(dst, |a|) && Within(from, |src|) && Assignable(dst, from) && i < |a|
    ensures Covers(dst, i) ==> Assigned(a, dst, src, from)[i] == src[Index(from, if from.count == 1 then 0 else Offset(dst, i))]
    ensures !Covers(dst, i) ==> Assigned(a, dst, src, from)[i] == a[i]
  {
  }

  /** An assignment between slices of equal size copies element by element. */
  lemma AssignedEqualSizes<T>(a: seq<T>, dst: Slice, src: seq<T>, from: Slice, i: nat)
    requires Within(dst, |a|) && Within(from, |src|) && from.count == dst.count && i < |a|
    ensures Covers(dst, i) ==> Assigned(a, dst, src, from)[i] == src[Index(from, Offset(dst, i))]
    ensures !Covers(dst, i) ==> Assigned(a, dst, src, from)[i] == a[i]
  {
  }

  lemma Every2At(n: nat, start: nat, i: nat)
    requires start < 2 && i < n
    ensures Covers(Every2(n, start), i) <==> i % 2 == start
    ensures Covers(Every2(n, start), i) ==> Offset(Every2(n, start), i) == i / 2
  {
  }

  /** The two interleaved halves a[0::2] and a[1::2] hold n - n / 2 and n / 2 elements. */
  lemma Every2Sizes(n: nat)
    requires n >= 1
    ensures Every2(n, 0) == Slice(0, Two, n - n / 2)
    ensures Every2(n, 1) == Slice(1, Two, n / 2)
  {
  }

  /** The cut size and cut position of the two-card cut. */
  lemma CutSizes(n: nat)
    requires n >= 2
    ensures n == 2 ==> CutSize(n) == 1 && n / 2 == 1
    ensures n == 3 ==> CutSize(n) == 2 && n / 2 == 1
    ensures n >= 4 ==> CutSize(n) == 2 && 2 <= n / 2 && n / 2 + 2 <= n
  {
  }

  /** At three elements the bounds cut_pos - cut_size become -1, which Python reads from the end. */
  lemma CutSlicesAtThree()
    ensures Range(3, 0, -1) == Slice(0, Unit, 2)
    ensures Range(3, -1, 1) == Slice(2, Unit, 0)
    ensures Range(3, 1, 3) == Slice(1, Unit, 2)
  {
  }

  lemma RangeAt(n: nat, lo: nat, hi: nat, i: nat)
    requires lo <= hi <= n
    ensures Range(n, lo, hi) == Slice(lo, Unit, hi - lo)
    ensures Covers(Range(n, lo, hi), i) <==> lo <= i < hi
    ensures Covers(Range(n, lo, hi), i) ==> Offset(Range(n, lo, hi), i) == i - lo
  {
  }

  /** a[dlo:dhi] = src[flo:fhi], element by element. */
  lemma RangeFromRange<T>(a: seq<T>, src: seq<T>, dlo: nat, dhi: nat, flo: nat, fhi: nat, i: nat)
    requires dlo <= dhi <= |a| && flo <= fhi <= |src| && dhi - dlo == fhi - flo && i < |a|
    ensures Assigned(a, Range(|a|, dlo, dhi), src, Range(|src|, flo, fhi))[i]
      == if dlo <= i < dhi then src[flo + (i - dlo)] else a[i]
  {
    RangeAt(|a|, dlo, dhi, i);
    RangeAt(|src|, flo, fhi, 0);
    AssignedEqualSizes(a, Range(|a|, dlo, dhi), src, Range(|src|, flo, fhi), i);
  }

  /** Three successive range assignments from the same source: the last one that covers i decides. */
  lemma ThreeRanges<T>(t: seq<T>, i: nat, d1: nat, e1: nat, f1: nat, g1: nat, d2: nat, e2: nat, f2: nat, g2: nat,
                       d3: nat, e3: nat, f3: nat, g3: nat)
    requires i < |t| && d1 <= e1 <= |t| && f1 <= g1 <= |t| && e1 - d1 == g1 - f1
    requires d2 <= e2 <= |t| && f2 <= g2 <= |t| && e2 - d2 == g2 - f2
    requires d3 <= e3 <= |t| && f3 <= g3 <= |t| && e3 - d3 == g3 - f3
    ensures Assigned(Assigned(Assigned(t, Range(|t|, d1, e1), t, Range(|t|, f1, g1)), Range(|t|, d2, e2), t, Range(|t|, f2, g2)),
               Range(|t|, d3, e3), t, Range(|t|, f3, g3))[i]
      == if d3 <= i < e3 then t[f3 + (i - d3)] else if d2 <= i < e2 then t[f2 + (i - d2)]
         else if d1 <= i < e1 then t[f1 + (i - d1)] else t[i]
  {
    var a1 := Assigned(t, Range(|t|, d1, e1), t, Range(|t|, f1, g1));
    var a2 := Assigned(a1, Range(|t|, d2, e2), t, Range(|t|, f2, g2));
    RangeFromRange(t, t, d1, e1, f1, g1, i);
    RangeFromRange(a1, t, d2, e2, f2, g2, i);
    RangeFromRange(a2, t, d3, e3, f3, g3, i);
  }

  /** a[s::2] = src[flo:fhi], for s of 0 or 1. */
  lemma Every2FromRange<T>(a: seq<T>, src: seq<T>, s: nat, flo: nat, fhi: nat, i: nat)
    requires s < 2 && flo <= fhi <= |src| && i < |a|
    requires fhi - flo == if s == 0 then |a| - |a| / 2 else |a| / 2
    ensures Assigned(a, Every2(|a|, s), src, Range(|src|, flo, fhi))[i]
      == if i % 2 == s then src[flo + i / 2] else a[i]
  {
    Every2Sizes(|a|);
    Every2At(|a|, s, i);
    RangeAt(|src|, flo, fhi, 0);
    AssignedEqualSizes(a, Every2(|a|, s), src, Range(|src|, flo, fhi), i);
  }

  /** a[dlo:dhi] = src[s::2], for s of 0 or 1. */
  lemma RangeFromEvery2<T>(a: seq<T>, src: seq<T>, dlo: nat, dhi: nat, s: nat, i: nat)
    requires s < 2 && dlo <= dhi <= |a| && 1 <= |src| && i < |a|
    requires dhi - dlo == if s == 0 then |src| - |src| / 2 else |src| / 2
    ensures Assigned(a, Range(|a|, dlo, dhi), src, Every2(|src|, s))[i]
      == if dlo <= i < dhi then src[2 * (i - dlo) + s] else a[i]
  {
    Every2Sizes(|src|);
    RangeAt(|a|, dlo, dhi, i);
    AssignedEqualSizes(a, Range(|a|, dlo, dhi), src, Every2(|src|, s), i);
  }

  /** a[s1::2] = t[f1:g1] and then a[s2::2] = t[f2:g2]: the later assignment decides where both cover i. */
  lemma TwoEvery2FromRange<T>(t: seq<T>, i: nat, s1: nat, f1: nat, g1: nat, s2: nat, f2: nat, g2: nat)
    requires i < |t| && s1 < 2 && s2 < 2 && f1 <= g1 <= |t| && f2 <= g2 <= |t|
    requires g1 - f1 == Every2(|t|, s1).count && g2 - f2 == Every2(|t|, s2).count
    ensures Assigned(Assigned(t, Every2(|t|, s1), t, Range(|t|, f1, g1)), Every2(|t|, s2), t, Range(|t|, f2, g2))[i]
      == if i % 2 == s2 then t[f2 + i / 2] else if i % 2 == s1 then t[f1 + i / 2] else t[i]
  {
    var a1 := Assigned(t, Every2(|t|, s1), t, Range(|t|, f1, g1));
    Every2Sizes(|t|);
    Every2FromRange(t, t, s1, f1, g1, i);
    Every2FromRange(a1, t, s2, f2, g2, i);
  }

  /** a[d1:e1] = t[s1::2] and then a[d2:e2] = t[s2::2]: the later assignment decides where both cover i. */
  lemma TwoRangeFromEvery2<T>(t: seq<T>, i: nat, d1: nat, e1: nat, s1: nat, d2: nat, e2: nat, s2: nat)
    requires i < |t| && s1 < 2 && s2 < 2 && d1 <= e1 <= |t| && d2 <= e2 <= |t|
    requires e1 - d1 == Every2(|t|, s1).count && e2 - d2 == Every2(|t|, s2).count
    ensures Assigned(Assigned(t, Range(|t|, d1, e1), t, Every2(|t|, s1)), Range(|t|, d2, e2), t, Every2(|t|, s2))[i]
      == if d2 <= i < e2 then t[2 * (i - d2) + s2] else if d1 <= i < e1 then t[2 * (i - d1) + s1] else t[i]
  {
    var a1 := Assigned(t, Range(|t|, d1, e1), t, Every2(|t|, s1));
    Every2Sizes(|t|);
    RangeFromEvery2(t, t, d1, e1, s1, i);
    RangeFromEvery2(a1, t, d2, e2, s2, i);
  }

  /** a[dlo:dhi] = src[s::2][:k], for s of 0 or 1; a single element is broadcast. */
  lemma RangeFromTake<T>(a: seq<T>, src: seq<T>, dlo: nat, dhi: nat, s: nat, k: nat, i: nat)
    requires s < 2 && dlo <= dhi <= |a| && 1 <= |src| && i < |a|
    requires Assignable(Range(|a|, dlo, dhi), Take(Every2(|src|, s), k))
    ensures var from := Take(Every2(|src|, s), k);
      Assigned(a, Range(|a|, dlo, dhi), src, from)[i]
      == if dlo <= i < dhi then src[s + 2 * (if from.count == 1 then 0 else i - dlo)] else a[i]
  {
    Every2Sizes(|src|);
    RangeAt(|a|, dlo, dhi, i);
    AssignedAt(a, Range(|a|, dlo, dhi), src, Take(Every2(|src|, s), k), i);
  }

  lemma InFwdSlices0At<T>(t: seq<T>, i: nat)
    requires |t| >= 2 && i < |t|
    ensures var n, mid := |t|, |t| / 2; var even, odd := n - mid, mid;
      Assigned(Assigned(t, Every2(n, 0), t, Range(n, 0, even)), Every2(n, 1), t, Range(n, even, even + odd))[i] == StepFwd(In, 0, t)[i]
  {
    var n, mid := |t|, |t| / 2;
    var even, odd := n - mid, mid;
    Every2Sizes(n);
    TwoEvery2FromRange(t, i, 0, 0, even, 1, even, even + odd);
  }

  lemma InFwdSlices0<T>(t: seq<T>, n: nat, mid: nat, even: nat, odd: nat)
    requires |t| >= 2 && n == |t| && mid == n / 2 && even == n - mid && odd == mid
    ensures Assigned(Assigned(t, Every2(n, 0), t, Range(n, 0, even)), Every2(n, 1), t, Range(n, even, even + odd)) == StepFwd(In, 0, t)
  {
    forall i | 0 <= i < |t| {
      InFwdSlices0At(t, i);
    }
  }

  lemma InFwdSlices1At<T>(t: seq<T>, i: nat)
    requires |t| >= 2 && i < |t|
    ensures var n, mid := |t|, |t| / 2; var even, odd := n - mid, mid;
      Assigned(Assigned(t, Every2(n, 0), t, Range(n, mid, mid + even)), Every2(n, 1), t, Range(n, 0, odd))[i] == StepFwd(In, 1, t)[i]
  {
    assert StepFwd(In, 1, t)[i] == t[InFwdSrc(1, |t|, i)];
    var n, mid := |t|, |t| / 2;
    var even, odd := n - mid, mid;
    Every2Sizes(n);
    TwoEvery2FromRange(t, i, 0, mid, mid + even, 1, 0, odd);
  }

  lemma InFwdSlices1<T>(t: seq<T>, n: nat, mid: nat, even: nat, odd: nat)
    requires |t| >= 2 && n == |t| && mid == n / 2 && even == n - mid && odd == mid
    ensures Assigned(Assigned(t, Every2(n, 0), t, Range(n, mid, mid + even)), Every2(n, 1), t, Range(n, 0, odd)) == StepFwd(In, 1, t)
  {
    forall i | 0 <= i < |t| {
      InFwdSlices1At(t, i);
    }
  }

  lemma InFwdSlices2At<T>(t: seq<T>, i: nat)
    requires |t| >= 2 && i < |t|
    ensures var n, mid := |t|, |t| / 2; var even, odd := n - mid, mid;
      Assigned(Assigned(t, Every2(n, 1), t, Range(n, 0, odd)), Every2(n, 0), t, Range(n, odd, odd + even))[i] == StepFwd(In, 2, t)[i]
  {
    assert StepFwd(In, 2, t)[i] == t[InFwdSrc(2, |t|, i)];
    var n, mid := |t|, |t| / 2;
    var even, odd := n - mid, mid;
    Every2Sizes(n);
    TwoEvery2FromRange(t, i, 1, 0, odd, 0, odd, odd + even);
  }

  lemma InFwdSlices2<T>(t: seq<T>, n: nat, mid: nat, even: nat, odd: nat)
    requires |t| >= 2 && n == |t| && mid == n / 2 && even == n - mid && odd == mid
    ensures Assigned(Assigned(t, Every2(n, 1), t, Range(n, 0, odd)), Every2(n, 0), t, Range(n, odd, odd + even)) == StepFwd(In, 2, t)
  {
    forall i | 0 <= i < |t| {
      InFwdSlices2At(t, i);
    }
  }

  lemma InFwdSlices3At<T>(t: seq<T>, i: nat)
    requires |t| >= 2 && i < |t|
    ensures var n, mid := |t|, |t| / 2; var even, odd := n - mid, mid;
      Assigned(Assigned(t, Every2(n, 1), t, Range(n, even, even + odd)), Every2(n, 0), t, Range(n, 0, even))[i] == StepFwd(In, 3, t)[i]
  {
    assert StepFwd(In, 3, t)[i] == t[InFwdSrc(3, |t|, i)];
    var n, mid := |t|, |t| / 2;
    var even, odd := n - mid, mid;
    Every2Sizes(n);
    TwoEvery2FromRange(t, i, 1, even, even + odd, 0, 0, even);
  }

  lemma InFwdSlices3<T>(t: seq<T>, n: nat, mid: nat, even: nat, odd: nat)
    requires |t| >= 2 && n == |t| && mid == n / 2 && even == n - mid && odd == mid
    ensures Assigned(Assigned(t, Every2(n, 1), t, Range(n, even, even + odd)), Every2(n, 0), t, Range(n, 0, even)) == StepFwd(In, 3, t)
  {
    forall i | 0 <= i < |t| {
      InFwdSlices3At(t, i);
    }
  }

  lemma OutFwdSlices0At<T>(t: seq<T>, i: nat)
    requires |t| >= 2 && (|t| % 2 == 0 || |t| == 3) && i < |t|
    ensures var n, mid := |t|, |t| / 2; var remaining := n - mid;
      Assigned(Assigned(t, Range(n, 0, mid), t, Take(Every2(n, 0), mid)), Range(n, mid, n), t, Take(Every2(n, 1), remaining))[i] == StepFwd(Out, 0, t)[i]
  {
    assert StepFwd(Out, 0, t)[i] == t[OutFwdSrc(0, |t|, i)];
    var n, mid := |t|, |t| / 2;
    var remaining := n - mid;
    var a1 := Assigned(t, Range(n, 0, mid), t, Take(Every2(n, 0), mid));
    var a2 := Assigned(a1, Range(n, mid, n), t, Take(Every2(n, 1), remaining));
    Every2Sizes(n);
    RangeFromTake(t, t, 0, mid, 0, mid, i);
    RangeFromTake(a1, t, mid, n, 1, remaining, i);
  }

  lemma OutFwdSlices0<T>(t: seq<T>)
    requires |t| >= 2 && (|t| % 2 == 0 || |t| == 3)
    ensures var n, mid := |t|, |t| / 2; var remaining := n - mid;
      Assigned(Assigned(t, Range(n, 0, mid), t, Take(Every2(n, 0), mid)), Range(n, mid, n), t, Take(Every2(n, 1), remaining)) == StepFwd(Out, 0, t)
  {
    forall i | 0 <= i < |t| {
      OutFwdSlices0At(t, i);
    }
  }

  lemma OutFwdSlices1At<T>(t: seq<T>, i: nat)
    requires |t| >= 2 && i < |t|
    ensures var n, mid := |t|, |t| / 2; var remaining := n - mid;
      Assigned(Assigned(t, Range(n, 0, mid), t, Take(Every2(n, 1), mid)), Range(n, mid, n), t, Take(Every2(n, 0), remaining))[i] == StepFwd(Out, 1, t)[i]
  {
    assert StepFwd(Out, 1, t)[i] == t[OutFwdSrc(1, |t|, i)];
    var n, mid := |t|, |t| / 2;
    var remaining := n - mid;
    var a1 := Assigned(t, Range(n, 0, mid), t, Take(Every2(n, 1), mid));
    var a2 := Assigned(a1, Range(n, mid, n), t, Take(Every2(n, 0), remaining));
    Every2Sizes(n);
    RangeFromTake(t, t, 0, mid, 1, mid, i);
    RangeFromTake(a1, t, mid, n, 0, remaining, i);
  }

  lemma OutFwdSlices1<T>(t: seq<T>)
    requires |t| >= 2
    ensures var n, mid := |t|, |t| / 2; var remaining := n - mid;
      Assigned(Assigned(t, Range(n, 0, mid), t, Take(Every2(n, 1), mid)), Range(n, mid, n), t, Take(Every2(n, 0), remaining)) == StepFwd(Out, 1, t)
  {
    forall i | 0 <= i < |t| {
      OutFwdSlices1At(t, i);
    }
  }

  lemma OutFwdSlices2At<T>(t: seq<T>, i: nat)
    requires |t| >= 2 && i < |t|
    ensures var n, mid := |t|, |t| / 2; var remaining := n - mid;
      Assigned(Assigned(t, Every2(n, 1), t, Range(n, 0, mid)), Every2(n, 0), t, Range(n, mid, n))[i] == StepFwd(Out, 2, t)[i]
  {
    assert StepFwd(Out, 2, t)[i] == t[OutFwdSrc(2, |t|, i)];
    var n, mid := |t|, |t| / 2;
    var remaining := n - mid;
    Every2Sizes(n);
    TwoEvery2FromRange(t, i, 1, 0, mid, 0, mid, n);
  }

  lemma OutFwdSlices2<T>(t: seq<T>)
    requires |t| >= 2
    ensures var n, mid := |t|, |t| / 2; var remaining := n - mid;
      Assigned(Assigned(t, Every2(n, 1), t, Range(n, 0, mid)), Every2(n, 0), t, Range(n, mid, n)) == StepFwd(Out, 2, t)
  {
    forall i | 0 <= i < |t| {
      OutFwdSlices2At(t, i);
    }
  }

  lemma OutFwdSlices3At<T>(t: seq<T>, i: nat)
    requires |t| >= 2 && i < |t|
    ensures var n, mid := |t|, |t| / 2; var remaining := n - mid;
      Assigned(Assigned(t, Every2(n, 0), t, Range(n, mid, n)), Every2(n, 1), t, Range(n, 0, mid))[i] == StepFwd(Out, 3, t)[i]
  {
    assert StepFwd(Out, 3, t)[i] == t[OutFwdSrc(3, |t|, i)];
    var n, mid := |t|, |t| / 2;
    var remaining := n - mid;
    Every2Sizes(n);
    TwoEvery2FromRange(t, i, 0, mid, n, 1, 0, mid);
  }

  lemma OutFwdSlices3<T>(t: seq<T>)
    requires |t| >= 2
    ensures var n, mid := |t|, |t| / 2; var remaining := n - mid;
      Assigned(Assigned(t, Every2(n, 0), t, Range(n, mid, n)), Every2(n, 1), t, Range(n, 0, mid)) == StepFwd(Out, 3, t)
  {
    forall i | 0 <= i < |t| {
      OutFwdSlices3At(t, i);
    }
  }

  lemma CutFwdSlices0At<T>(t: seq<T>, n: nat, cutSize: nat, cutPos: nat, i: nat)
    requires |t| >= 2 && i < |t| && n == |t| && cutSize == CutSize(n) && cutPos == n / 2
    ensures Assigned(Assigned(Assigned(t, Range(n, 0, cutPos), t, Range(n, cutSize, cutSize + cutPos)), Range(n, cutPos, cutPos + cutSize), t, Range(n, 0, cutSize)), Range(n, cutPos + cutSize, n), t, Range(n, cutSize + cutPos, n))[i] == StepFwd(Cut, 0, t)[i]
  {
    assert StepFwd(Cut, 0, t)[i] == t[CutFwdSrc(0, |t|, i)];
    CutSizes(n);
    ThreeRanges(t, i, 0, cutPos, cutSize, cutSize + cutPos, cutPos, cutPos + cutSize, 0, cutSize, cutPos + cutSize, n, cutSize + cutPos, n);
  }

  lemma CutFwdSlices0<T>(t: seq<T>)
    requires |t| >= 2
    ensures var n, cutSize, cutPos := |t|, CutSize(|t|), |t| / 2;
      Assigned(Assigned(Assigned(t, Range(n, 0, cutPos), t, Range(n, cutSize, cutSize + cutPos)), Range(n, cutPos, cutPos + cutSize), t, Range(n, 0, cutSize)), Range(n, cutPos + cutSize, n), t, Range(n, cutSize + cutPos, n)) == StepFwd(Cut, 0, t)
  {
    var n, cutSize, cutPos := |t|, CutSize(|t|), |t| / 2;
    forall i | 0 <= i < n {
      CutFwdSlices0At(t, n, cutSize, cutPos, i);
    }
  }

  lemma CutFwdSlices1At<T>(t: seq<T>, n: nat, cutSize: nat, cutPos: nat, i: nat)
    requires |t| >= 2 && |t| != 3 && i < |t| && n == |t| && cutSize == CutSize(n) && cutPos == n / 2
    ensures Assigned(Assigned(Assigned(t, Range(n, 0, cutPos - cutSize), t, Range(n, 0, cutPos - cutSize)), Range(n, cutPos - cutSize, cutPos), t, Range(n, n - cutSize, n)), Range(n, cutPos, n), t, Range(n, cutPos - cutSize, n - cutSize))[i] == StepFwd(Cut, 1, t)[i]
  {
    assert StepFwd(Cut, 1, t)[i] == t[CutFwdSrc(1, |t|, i)];
    CutSizes(n);
    ThreeRanges(t, i, 0, cutPos - cutSize, 0, cutPos - cutSize, cutPos - cutSize, cutPos, n - cutSize, n, cutPos, n, cutPos - cutSize, n - cutSize);
  }

  lemma CutFwdSlices1<T>(t: seq<T>)
    requires |t| >= 2 && |t| != 3
    ensures var n, cutSize, cutPos := |t|, CutSize(|t|), |t| / 2;
      Assigned(Assigned(Assigned(t, Range(n, 0, cutPos - cutSize), t, Range(n, 0, cutPos - cutSize)), Range(n, cutPos - cutSize, cutPos), t, Range(n, n - cutSize, n)), Range(n, cutPos, n), t, Range(n, cutPos - cutSize, n - cutSize)) == StepFwd(Cut, 1, t)
  {
    var n, cutSize, cutPos := |t|, CutSize(|t|), |t| / 2;
    forall i | 0 <= i < n {
      CutFwdSlices1At(t, n, cutSize, cutPos, i);
    }
  }

  lemma CutFwdSlices2At<T>(t: seq<T>, n: nat, cutSize: nat, cutPos: nat, i: nat)
    requires |t| >= 2 && i < |t| && n == |t| && cutSize == CutSize(n) && cutPos == n / 2
    ensures Assigned(Assigned(Assigned(t, Range(n, 0, cutSize), t, Range(n, cutPos, cutPos + cutSize)), Range(n, cutSize, cutPos + cutSize), t, Range(n, 0, cutPos)), Range(n, cutPos + cutSize, n), t, Range(n, cutPos + cutSize, n))[i] == StepFwd(Cut, 2, t)[i]
  {
    assert StepFwd(Cut, 2, t)[i] == t[CutFwdSrc(2, |t|, i)];
    CutSizes(n);
    ThreeRanges(t, i, 0, cutSize, cutPos, cutPos + cutSize, cutSize, cutPos + cutSize, 0, cutPos, cutPos + cutSize, n, cutPos + cutSize, n);
  }

  lemma CutFwdSlices2<T>(t: seq<T>)
    requires |t| >= 2
    ensures var n, cutSize, cutPos := |t|, CutSize(|t|), |t| / 2;
      Assigned(Assigned(Assigned(t, Range(n, 0, cutSize), t, Range(n, cutPos, cutPos + cutSize)), Range(n, cutSize, cutPos + cutSize), t, Range(n, 0, cutPos)), Range(n, cutPos + cutSize, n), t, Range(n, cutPos + cutSize, n)) == StepFwd(Cut, 2, t)
  {
    var n, cutSize, cutPos := |t|, CutSize(|t|), |t| / 2;
    forall i | 0 <= i < n {
      CutFwdSlices2At(t, n, cutSize, cutPos, i);
    }
  }

  lemma CutFwdSlices3At<T>(t: seq<T>, n: nat, cutSize: nat, cutPos: nat, i: nat)
    requires |t| >= 2 && n == |t| && cutSize == CutSize(n) && cutPos == n / 2 && i < n
    ensures Assigned(Assigned(Assigned(t, Range(n, 0, cutPos), t, Range(n, 0, cutPos)), Range(n, cutPos, n - cutSize), t, Range(n, cutPos + cutSize, n)), Range(n, n - cutSize, n), t, Range(n, cutPos, cutPos + cutSize))[i] == StepFwd(Cut, 3, t)[i]
  {
    assert StepFwd(Cut, 3, t)[i] == t[CutFwdSrc(3, |t|, i)];
    CutSizes(n);
    ThreeRanges(t, i, 0, cutPos, 0, cutPos, cutPos, n - cutSize, cutPos + cutSize, n, n - cutSize, n, cutPos, cutPos + cutSize);
  }

  lemma CutFwdSlices3<T>(t: seq<T>)
    requires |t| >= 2
    ensures var n, cutSize, cutPos := |t|, CutSize(|t|), |t| / 2;
      Assigned(Assigned(Assigned(t, Range(n, 0, cutPos), t, Range(n, 0, cutPos)), Range(n, cutPos, n - cutSize), t, Range(n, cutPos + cutSize, n)), Range(n, n - cutSize, n), t, Range(n, cutPos, cutPos + cutSize)) == StepFwd(Cut, 3, t)
  {
    var n, cutSize, cutPos := |t|, CutSize(|t|), |t| / 2;
    forall i | 0 <= i < n {
      CutFwdSlices3At(t, n, cutSize, cutPos, i);
    }
  }

  lemma InInvSlices0At<T>(t: seq<T>, i: nat)
    requires |t| >= 2 && i < |t|
    ensures var n, mid := |t|, |t| / 2; var even, odd := n - mid, mid;
      Assigned(Assigned(t, Range(n, 0, even), t, Every2(n, 0)), Range(n, even, even + odd), t, Every2(n, 1))[i] == StepInv(In, 0, t)[i]
  {
    assert StepInv(In, 0, t)[i] == t[InInvSrc(0, |t|, i)];
    var n, mid := |t|, |t| / 2;
    var even, odd := n - mid, mid;
    Every2Sizes(n);
    TwoRangeFromEvery2(t, i, 0, even, 0, even, even + odd, 1);
  }

  lemma InInvSlices0<T>(t: seq<T>, n: nat, mid: nat, even: nat, odd: nat)
    requires |t| >= 2 && n == |t| && mid == n / 2 && even == n - mid && odd == mid
    ensures Assigned(Assigned(t, Range(n, 0, even), t, Every2(n, 0)), Range(n, even, even + odd), t, Every2(n, 1)) == StepInv(In, 0, t)
  {
    forall i | 0 <= i < |t| {
      InInvSlices0At(t, i);
    }
  }

  lemma InInvSlices1At<T>(t: seq<T>, i: nat)
    requires |t| >= 2 && i < |t|
    ensures var n, mid := |t|, |t| / 2; var even, odd := n - mid, mid;
      Assigned(Assigned(t, Range(n, 0, odd), t, Every2(n, 1)), Range(n, mid, mid + even), t, Every2(n, 0))[i] == StepInv(In, 1, t)[i]
  {
    assert StepInv(In, 1, t)[i] == t[InInvSrc(1, |t|, i)];
    var n, mid := |t|, |t| / 2;
    var even, odd := n - mid, mid;
    Every2Sizes(n);
    TwoRangeFromEvery2(t, i, 0, odd, 1, mid, mid + even, 0);
  }

  lemma InInvSlices1<T>(t: seq<T>, n: nat, mid: nat, even: nat, odd: nat)
    requires |t| >= 2 && n == |t| && mid == n / 2 && even == n - mid && odd == mid
    ensures Assigned(Assigned(t, Range(n, 0, odd), t, Every2(n, 1)), Range(n, mid, mid + even), t, Every2(n, 0)) == StepInv(In, 1, t)
  {
    forall i | 0 <= i < |t| {
      InInvSlices1At(t, i);
    }
  }

  lemma InInvSlices2At<T>(t: seq<T>, i: nat)
    requires |t| >= 2 && i < |t|
    ensures var n, mid := |t|, |t| / 2; var even, odd := n - mid, mid;
      Assigned(Assigned(t, Range(n, 0, odd), t, Every2(n, 1)), Range(n, odd, odd + even), t, Every2(n, 0))[i] == StepInv(In, 2, t)[i]
  {
    assert StepInv(In, 2, t)[i] == t[InInvSrc(2, |t|, i)];
    var n, mid := |t|, |t| / 2;
    var even, odd := n - mid, mid;
    Every2Sizes(n);
    TwoRangeFromEvery2(t, i, 0, odd, 1, odd, odd + even, 0);
  }

  lemma InInvSlices2<T>(t: seq<T>, n: nat, mid: nat, even: nat, odd: nat)
    requires |t| >= 2 && n == |t| && mid == n / 2 && even == n - mid && odd == mid
    ensures Assigned(Assigned(t, Range(n, 0, odd), t, Every2(n, 1)), Range(n, odd, odd + even), t, Every2(n, 0)) == StepInv(In, 2, t)
  {
    forall i | 0 <= i < |t| {
      InInvSlices2At(t, i);
    }
  }

  lemma InInvSlices3At<T>(t: seq<T>, i: nat)
    requires |t| >= 2 && i < |t|
    ensures var n, mid := |t|, |t| / 2; var even, odd := n - mid, mid;
      Assigned(Assigned(t, Range(n, 0, even), t, Every2(n, 0)), Range(n, even, even + odd), t, Every2(n, 1))[i] == StepInv(In, 3, t)[i]
  {
    assert StepInv(In, 3, t)[i] == t[InInvSrc(3, |t|, i)];
    var n, mid := |t|, |t| / 2;
    var even, odd := n - mid, mid;
    Every2Sizes(n);
    TwoRangeFromEvery2(t, i, 0, even, 0, even, even + odd, 1);
  }

  lemma InInvSlices3<T>(t: seq<T>, n: nat, mid: nat, even: nat, odd: nat)
    requires |t| >= 2 && n == |t| && mid == n / 2 && even == n - mid && odd == mid
    ensures Assigned(Assigned(t, Range(n, 0, even), t, Every2(n, 0)), Range(n, even, even + odd), t, Every2(n, 1)) == StepInv(In, 3, t)
  {
    forall i | 0 <= i < |t| {
      InInvSlices3At(t, i);
    }
  }

  lemma OutInvSlices0At<T>(t: seq<T>, i: nat)
    requires |t| >= 2 && |t| % 2 == 0 && i < |t|
    ensures var n, mid := |t|, |t| / 2; var remaining := n - mid;
      Assigned(Assigned(t, Every2(n, 0), t, Range(n, 0, mid)), Every2(n, 1), t, Range(n, mid, n))[i] == StepInv(Out, 0, t)[i]
  {
    assert StepInv(Out, 0, t)[i] == t[OutInvSrc(0, |t|, i)];
    var n, mid := |t|, |t| / 2;
    var remaining := n - mid;
    Every2Sizes(n);
    TwoEvery2FromRange(t, i, 0, 0, mid, 1, mid, n);
  }

  lemma OutInvSlices0<T>(t: seq<T>)
    requires |t| >= 2 && |t| % 2 == 0
    ensures var n, mid := |t|, |t| / 2; var remaining := n - mid;
      Assigned(Assigned(t, Every2(n, 0), t, Range(n, 0, mid)), Every2(n, 1), t, Range(n, mid, n)) == StepInv(Out, 0, t)
  {
    forall i | 0 <= i < |t| {
      OutInvSlices0At(t, i);
    }
  }

  lemma OutInvSlices1At<T>(t: seq<T>, i: nat)
    requires |t| >= 2 && i < |t|
    ensures var n, mid := |t|, |t| / 2; var remaining := n - mid;
      Assigned(Assigned(t, Every2(n, 1), t, Range(n, 0, mid)), Every2(n, 0), t, Range(n, mid, n))[i] == StepInv(Out, 1, t)[i]
  {
    assert StepInv(Out, 1, t)[i] == t[OutInvSrc(1, |t|, i)];
    var n, mid := |t|, |t| / 2;
    var remaining := n - mid;
    Every2Sizes(n);
    TwoEvery2FromRange(t, i, 1, 0, mid, 0, mid, n);
  }

  lemma OutInvSlices1<T>(t: seq<T>)
    requires |t| >= 2
    ensures var n, mid := |t|, |t| / 2; var remaining := n - mid;
      Assigned(Assigned(t, Every2(n, 1), t, Range(n, 0, mid)), Every2(n, 0), t, Range(n, mid, n)) == StepInv(Out, 1, t)
  {
    forall i | 0 <= i < |t| {
      OutInvSlices1At(t, i);
    }
  }

  lemma OutInvSlices2At<T>(t: seq<T>, i: nat)
    requires |t| >= 2 && i < |t|
    ensures var n, mid := |t|, |t| / 2; var remaining := n - mid;
      Assigned(Assigned(t, Range(n, 0, mid), t, Every2(n, 1)), Range(n, mid, n), t, Every2(n, 0))[i] == StepInv(Out, 2, t)[i]
  {
    assert StepInv(Out, 2, t)[i] == t[OutInvSrc(2, |t|, i)];
    var n, mid := |t|, |t| / 2;
    var remaining := n - mid;
    Every2Sizes(n);
    TwoRangeFromEvery2(t, i, 0, mid, 1, mid, n, 0);
  }

  lemma OutInvSlices2<T>(t: seq<T>)
    requires |t| >= 2
    ensures var n, mid := |t|, |t| / 2; var remaining := n - mid;
      Assigned(Assigned(t, Range(n, 0, mid), t, Every2(n, 1)), Range(n, mid, n), t, Every2(n, 0)) == StepInv(Out, 2, t)
  {
    forall i | 0 <= i < |t| {
      OutInvSlices2At(t, i);
    }
  }

  lemma OutInvSlices3At<T>(t: seq<T>, i: nat)
    requires |t| >= 2 && i < |t|
    ensures var n, mid := |t|, |t| / 2; var remaining := n - mid;
      Assigned(Assigned(t, Range(n, mid, n), t, Every2(n, 0)), Range(n, 0, mid), t, Every2(n, 1))[i] == StepInv(Out, 3, t)[i]
  {
    assert StepInv(Out, 3, t)[i] == t[OutInvSrc(3, |t|, i)];
    var n, mid := |t|, |t| / 2;
    var remaining := n - mid;
    Every2Sizes(n);
    TwoRangeFromEvery2(t, i, mid, n, 0, 0, mid, 1);
  }

  lemma OutInvSlices3<T>(t: seq<T>)
    requires |t| >= 2
    ensures var n, mid := |t|, |t| / 2; var remaining := n - mid;
      Assigned(Assigned(t, Range(n, mid, n), t, Every2(n, 0)), Range(n, 0, mid), t, Every2(n, 1)) == StepInv(Out, 3, t)
  {
    forall i | 0 <= i < |t| {
      OutInvSlices3At(t, i);
    }
  }

  lemma CutInvSlices0At<T>(t: seq<T>, n: nat, cutSize: nat, cutPos: nat, i: nat)
    requires |t| >= 2 && i < |t| && n == |t| && cutSize == CutSize(n) && cutPos == n / 2
    ensures Assigned(Assigned(Assigned(t, Range(n, 0, cutSize), t, Range(n, cutPos, cutPos + cutSize)), Range(n, cutSize, cutSize + cutPos), t, Range(n, 0, cutPos)), Range(n, cutSize + cutPos, n), t, Range(n, cutPos + cutSize, n))[i] == StepInv(Cut, 0, t)[i]
  {
    assert StepInv(Cut, 0, t)[i] == t[CutInvSrc(0, |t|, i)];
    CutSizes(n);
    ThreeRanges(t, i, 0, cutSize, cutPos, cutPos + cutSize, cutSize, cutSize + cutPos, 0, cutPos, cutSize + cutPos, n, cutPos + cutSize, n);
  }

  lemma CutInvSlices0<T>(t: seq<T>)
    requires |t| >= 2
    ensures var n, cutSize, cutPos := |t|, CutSize(|t|), |t| / 2;
      Assigned(Assigned(Assigned(t, Range(n, 0, cutSize), t, Range(n, cutPos, cutPos + cutSize)), Range(n, cutSize, cutSize + cutPos), t, Range(n, 0, cutPos)), Range(n, cutSize + cutPos, n), t, Range(n, cutPos + cutSize, n)) == StepInv(Cut, 0, t)
  {
    var n, cutSize, cutPos := |t|, CutSize(|t|), |t| / 2;
    forall i | 0 <= i < n {
      CutInvSlices0At(t, n, cutSize, cutPos, i);
    }
  }

  lemma CutInvSlices1At<T>(t: seq<T>, n: nat, cutSize: nat, cutPos: nat, i: nat)
    requires |t| >= 2 && |t| != 3 && i < |t| && n == |t| && cutSize == CutSize(n) && cutPos == n / 2
    ensures Assigned(Assigned(Assigned(t, Range(n, 0, cutPos - cutSize), t, Range(n, 0, cutPos - cutSize)), Range(n, n - cutSize, n), t, Range(n, cutPos - cutSize, cutPos)), Range(n, cutPos - cutSize, n - cutSize), t, Range(n, cutPos, n))[i] == StepInv(Cut, 1, t)[i]
  {
    assert StepInv(Cut, 1, t)[i] == t[CutInvSrc(1, |t|, i)];
    CutSizes(n);
    ThreeRanges(t, i, 0, cutPos - cutSize, 0, cutPos - cutSize, n - cutSize, n, cutPos - cutSize, cutPos, cutPos - cutSize, n - cutSize, cutPos, n);
  }

  lemma CutInvSlices1<T>(t: seq<T>)
    requires |t| >= 2 && |t| != 3
    ensures var n, cutSize, cutPos := |t|, CutSize(|t|), |t| / 2;
      Assigned(Assigned(Assigned(t, Range(n, 0, cutPos - cutSize), t, Range(n, 0, cutPos - cutSize)), Range(n, n - cutSize, n), t, Range(n, cutPos - cutSize, cutPos)), Range(n, cutPos - cutSize, n - cutSize), t, Range(n, cutPos, n)) == StepInv(Cut, 1, t)
  {
    var n, cutSize, cutPos := |t|, CutSize(|t|), |t| / 2;
    forall i | 0 <= i < n {
      CutInvSlices1At(t, n, cutSize, cutPos, i);
    }
  }

  lemma CutInvSlices2At<T>(t: seq<T>, n: nat, cutSize: nat, cutPos: nat, i: nat)
    requires |t| >= 2 && i < |t| && n == |t| && cutSize == CutSize(n) && cutPos == n / 2
    ensures Assigned(Assigned(Assigned(t, Range(n, 0, cutPos), t, Range(n, cutSize, cutPos + cutSize)), Range(n, cutPos, cutPos + cutSize), t, Range(n, 0, cutSize)), Range(n, cutPos + cutSize, n), t, Range(n, cutPos + cutSize, n))[i] == StepInv(Cut, 2, t)[i]
  {
    assert StepInv(Cut, 2, t)[i] == t[CutInvSrc(2, |t|, i)];
    CutSizes(n);
    ThreeRanges(t, i, 0, cutPos, cutSize, cutPos + cutSize, cutPos, cutPos + cutSize, 0, cutSize, cutPos + cutSize, n, cutPos + cutSize, n);
  }

  lemma CutInvSlices2<T>(t: seq<T>)
    requires |t| >= 2
    ensures var n, cutSize, cutPos := |t|, CutSize(|t|), |t| / 2;
      Assigned(Assigned(Assigned(t, Range(n, 0, cutPos), t, Range(n, cutSize, cutPos + cutSize)), Range(n, cutPos, cutPos + cutSize), t, Range(n, 0, cutSize)), Range(n, cutPos + cutSize, n), t, Range(n, cutPos + cutSize, n)) == StepInv(Cut, 2, t)
  {
    var n, cutSize, cutPos := |t|, CutSize(|t|), |t| / 2;
    forall i | 0 <= i < n {
      CutInvSlices2At(t, n, cutSize, cutPos, i);
    }
  }

  lemma CutInvSlices3At<T>(t: seq<T>, n: nat, cutSize: nat, cutPos: nat, i: nat)
    requires |t| >= 2 && i < |t| && n == |t| && cutSize == CutSize(n) && cutPos == n / 2
    ensures Assigned(Assigned(Assigned(t, Range(n, 0, cutPos), t, Range(n, 0, cutPos)), Range(n, cutPos, cutPos + cutSize), t, Range(n, n - cutSize, n)), Range(n, cutPos + cutSize, n), t, Range(n, cutPos, n - cutSize))[i] == StepInv(Cut, 3, t)[i]
  {
    assert StepInv(Cut, 3, t)[i] == t[CutInvSrc(3, |t|, i)];
    CutSizes(n);
    ThreeRanges(t, i, 0, cutPos, 0, cutPos, cutPos, cutPos + cutSize, n - cutSize, n, cutPos + cutSize, n, cutPos, n - cutSize);
  }

  lemma CutInvSlices3<T>(t: seq<T>)
    requires |t| >= 2
    ensures var n, cutSize, cutPos := |t|, CutSize(|t|), |t| / 2;
      Assigned(Assigned(Assigned(t, Range(n, 0, cutPos), t, Range(n, 0, cutPos)), Range(n, cutPos, cutPos + cutSize), t, Range(n, n - cutSize, n)), Range(n, cutPos + cutSize, n), t, Range(n, cutPos, n - cutSize)) == StepInv(Cut, 3, t)
  {
    var n, cutSize, cutPos := |t|, CutSize(|t|), |t| / 2;
    forall i | 0 <= i < n {
      CutInvSlices3At(t, n, cutSize, cutPos, i);
    }
  }

  /** Which slice assignments of variant 1 numpy accepts; at three elements one of them raises. */
  lemma CutFwdFits1(n: nat)
    requires n >= 2
    ensures var cutSize, cutPos := CutSize(n), n / 2;
      ForwardShapeOk(Cut, 1, n) == (n != 3)
      && Assignable(Range(n, 0, cutPos - cutSize), Range(n, 0, cutPos - cutSize))
      && (Assignable(Range(n, cutPos - cutSize, cutPos), Range(n, n - cutSize, n)) <==> n != 3)
      && (n != 3 ==> Assignable(Range(n, cutPos, n), Range(n, cutPos - cutSize, n - cutSize)))
  {
    if n == 3 { CutSlicesAtThree(); } else { CutSizes(n); }
  }

  /** Which slice assignments of variant 1 numpy accepts; at three elements one of them raises. */
  lemma CutInvFits1(n: nat)
    requires n >= 2
    ensures var cutSize, cutPos := CutSize(n), n / 2;
      InverseShapeOk(Cut, 1, n) == (n != 3)
      && Assignable(Range(n, 0, cutPos - cutSize), Range(n, 0, cutPos - cutSize))
      && (Assignable(Range(n, n - cutSize, n), Range(n, cutPos - cutSize, cutPos)) <==> n != 3)
      && (n != 3 ==> Assignable(Range(n, cutPos - cutSize, n - cutSize), Range(n, cutPos, n)))
  {
    if n == 3 { CutSlicesAtThree(); } else { CutSizes(n); }
  }

  lemma CutInvSlicesJit1At<T>(t: seq<T>, i: nat)
    requires |t| >= 2 && |t| != 3 && i < |t|
    ensures var n, cutSize, cutPos := |t|, CutSize(|t|), |t| / 2;
      Assigned(Assigned(Assigned(t, Range(n, 0, cutPos - cutSize), t, Range(n, 0, cutPos - cutSize)), Range(n, cutPos - cutSize, n - cutSize), t, Range(n, cutPos, n)), Range(n, n - cutSize, n), t, Range(n, cutPos - cutSize, cutPos))[i] == StepInv(Cut, 1, t)[i]
  {
    assert StepInv(Cut, 1, t)[i] == t[CutInvSrc(1, |t|, i)];
    var n, cutSize, cutPos := |t|, CutSize(|t|), |t| / 2;
    CutSizes(n);
    ThreeRanges(t, i, 0, cutPos - cutSize, 0, cutPos - cutSize, cutPos - cutSize, n - cutSize, cutPos, n, n - cutSize, n, cutPos - cutSize, cutPos);
  }

  lemma CutInvSlicesJit1<T>(t: seq<T>)
    requires |t| >= 2 && |t| != 3
    ensures var n, cutSize, cutPos := |t|, CutSize(|t|), |t| / 2;
      Assigned(Assigned(Assigned(t, Range(n, 0, cutPos - cutSize), t, Range(n, 0, cutPos - cutSize)), Range(n, cutPos - cutSize, n - cutSize), t, Range(n, cutPos, n)), Range(n, n - cutSize, n), t, Range(n, cutPos - cutSize, cutPos)) == StepInv(Cut, 1, t)
  {
    forall i | 0 <= i < |t| {
      CutInvSlicesJit1At(t, i);
    }
  }

  /** One in-shuffle step of faro_shuffle. */
  method InStep(a: array<Bit>, v: nat) returns (ok: bool)
    requires v < 4 && a.Length >= 2
    modifies a
    ensures ok == ForwardShapeOk(In, v, a.Length)
    ensures ok ==> a[..] == StepFwd(In, v, old(a[..]))
  {
    var n, mid := a.Length, a.Length / 2;
    var even, odd := n - mid, mid;
    Every2Sizes(n);
    if v == 0 {
      InFwdSlices0(a[..], n, mid, even, odd);
      ok := AssignPair(a, Every2(n, 0), Range(n, 0, even), Every2(n, 1), Range(n, even, even + odd));
    } else if v == 1 {
      InFwdSlices1(a[..], n, mid, even, odd);
      ok := AssignPair(a, Every2(n, 0), Range(n, mid, mid + even), Every2(n, 1), Range(n, 0, odd));
    } else if v == 2 {
      InFwdSlices2(a[..], n, mid, even, odd);
      ok := AssignPair(a, Every2(n, 1), Range(n, 0, odd), Every2(n, 0), Range(n, odd, odd + even));
    } else {
      InFwdSlices3(a[..], n, mid, even, odd);
      ok := AssignPair(a, Every2(n, 1), Range(n, even, even + odd), Every2(n, 0), Range(n, 0, even));
    }
  }

  /** One out-shuffle step of faro_shuffle. */
  method OutStep(a: array<Bit>, v: nat) returns (ok: bool)
    requires v < 4 && a.Length >= 2
    modifies a
    ensures ok == ForwardShapeOk(Out, v, a.Length)
    ensures ok ==> a[..] == StepFwd(Out, v, old(a[..]))
  {
    ghost var temp := a[..];
    var n, mid := a.Length, a.Length / 2;
    var remaining := n - mid;
    Every2Sizes(n);
    if v == 0 {
      ok := AssignPair(a, Range(n, 0, mid), Take(Every2(n, 0), mid), Range(n, mid, n), Take(Every2(n, 1), remaining));
      if ok { OutFwdSlices0(temp); }
    } else if v == 1 {
      ok := AssignPair(a, Range(n, 0, mid), Take(Every2(n, 1), mid), Range(n, mid, n), Take(Every2(n, 0), remaining));
      if ok { OutFwdSlices1(temp); }
    } else if v == 2 {
      ok := AssignPair(a, Every2(n, 1), Range(n, 0, mid), Every2(n, 0), Range(n, mid, n));
      if ok { OutFwdSlices2(temp); }
    } else {
      ok := AssignPair(a, Every2(n, 0), Range(n, mid, n), Every2(n, 1), Range(n, 0, mid));
      if ok { OutFwdSlices3(temp); }
    }
  }

  /** Variant 0 of the cut step. */
  method CutStep0(a: array<Bit>) returns (ok: bool)
    requires a.Length >= 2
    modifies a
    ensures ok == ForwardShapeOk(Cut, 0, a.Length)
    ensures ok ==> a[..] == StepFwd(Cut, 0, old(a[..]))
  {
    var temp := a[..];
    var n, cutSize, cutPos := a.Length, CutSize(a.Length), a.Length / 2;
    CutSizes(n);
    ok := Assign(a, Range(n, 0, cutPos), temp, Range(n, cutSize, cutSize + cutPos));
    if !ok { return; }
    ok := Assign(a, Range(n, cutPos, cutPos + cutSize), temp, Range(n, 0, cutSize));
    if !ok { return; }
    ok := Assign(a, Range(n, cutPos + cutSize, n), temp, Range(n, cutSize + cutPos, n));
    if !ok { return; }
    CutFwdSlices0(temp);
  }

  /** Variant 1 of the cut step. */
  method CutStep1(a: array<Bit>) returns (ok: bool)
    requires a.Length >= 2
    modifies a
    ensures ok == ForwardShapeOk(Cut, 1, a.Length)
    ensures ok ==> a[..] == StepFwd(Cut, 1, old(a[..]))
  {
    var temp := a[..];
    var n, cutSize, cutPos := a.Length, CutSize(a.Length), a.Length / 2;
    CutSizes(n);
    CutFwdFits1(n);
    ok := Assign(a, Range(n, 0, cutPos - cutSize), temp, Range(n, 0, cutPos - cutSize));
    if !ok { return; }
    ok := Assign(a, Range(n, cutPos - cutSize, cutPos), temp, Range(n, n - cutSize, n));
    if !ok { return; }
    ok := Assign(a, Range(n, cutPos, n), temp, Range(n, cutPos - cutSize, n - cutSize));
    if !ok { return; }
    CutFwdSlices1(temp);
  }

  /** Variant 2 of the cut step. */
  method CutStep2(a: array<Bit>) returns (ok: bool)
    requires a.Length >= 2
    modifies a
    ensures ok == ForwardShapeOk(Cut, 2, a.Length)
    ensures ok ==> a[..] == StepFwd(Cut, 2, old(a[..]))
  {
    var temp := a[..];
    var n, cutSize, cutPos := a.Length, CutSize(a.Length), a.Length / 2;
    CutSizes(n);
    ok := Assign(a, Range(n, 0, cutSize), temp, Range(n, cutPos, cutPos + cutSize));
    if !ok { return; }
    ok := Assign(a, Range(n, cutSize, cutPos + cutSize), temp, Range(n, 0, cutPos));
    if !ok { return; }
    ok := Assign(a, Range(n, cutPos + cutSize, n), temp, Range(n, cutPos + cutSize, n));
    if !ok { return; }
    CutFwdSlices2(temp);
  }

  /** Variant 3 of the cut step. */
  method CutStep3(a: array<Bit>) returns (ok: bool)
    requires a.Length >= 2
    modifies a
    ensures ok == ForwardShapeOk(Cut, 3, a.Length)
    ensures ok ==> a[..] == StepFwd(Cut, 3, old(a[..]))
  {
    var temp := a[..];
    var n, cutSize, cutPos := a.Length, CutSize(a.Length), a.Length / 2;
    CutSizes(n);
    ok := Assign(a, Range(n, 0, cutPos), temp, Range(n, 0, cutPos));
    if !ok { return; }
    ok := Assign(a, Range(n, cutPos, n - cutSize), temp, Range(n, cutPos + cutSize, n));
    if !ok { return; }
    ok := Assign(a, Range(n, n - cutSize, n), temp, Range(n, cutPos, cutPos + cutSize));
    if !ok { return; }
    CutFwdSlices3(temp);
  }

  /** One two-card cut step of faro_shuffle. */
  method CutStep(a: array<Bit>, v: nat) returns (ok: bool)
    requires v < 4 && a.Length >= 2
    modifies a
    ensures ok == ForwardShapeOk(Cut, v, a.Length)
    ensures ok ==> a[..] == StepFwd(Cut, v, old(a[..]))
  {
    if v == 0 {
      ok := CutStep0(a);
    } else if v == 1 {
      ok := CutStep1(a);
    } else if v == 2 {
      ok := CutStep2(a);
    } else {
      ok := CutStep3(a);
    }
  }

  /** One in-shuffle step of inverse_faro_shuffle. */
  method InInverseStep(a: array<Bit>, v: nat) returns (ok: bool)
    requires v < 4 && a.Length >= 2
    modifies a
    ensures ok == InverseShapeOk(In, v, a.Length)
    ensures ok ==> a[..] == StepInv(In, v, old(a[..]))
  {
    var n, mid := a.Length, a.Length / 2;
    var even, odd := n - mid, mid;
    Every2Sizes(n);
    if v == 0 {
      InInvSlices0(a[..], n, mid, even, odd);
      ok := AssignPair(a, Range(n, 0, even), Every2(n, 0), Range(n, even, even + odd), Every2(n, 1));
    } else if v == 1 {
      InInvSlices1(a[..], n, mid, even, odd);
      ok := AssignPair(a, Range(n, 0, odd), Every2(n, 1), Range(n, mid, mid + even), Every2(n, 0));
    } else if v == 2 {
      InInvSlices2(a[..], n, mid, even, odd);
      ok := AssignPair(a, Range(n, 0, odd), Every2(n, 1), Range(n, odd, odd + even), Every2(n, 0));
    } else {
      InInvSlices3(a[..], n, mid, even, odd);
      ok := AssignPair(a, Range(n, 0, even), Every2(n, 0), Range(n, even, even + odd), Every2(n, 1));
    }
  }

  /** One out-shuffle step of inverse_faro_shuffle. */
  method OutInverseStep(a: array<Bit>, v: nat) returns (ok: bool)
    requires v < 4 && a.Length >= 2
    modifies a
    ensures ok == InverseShapeOk(Out, v, a.Length)
    ensures ok ==> a[..] == StepInv(Out, v, old(a[..]))
  {
    ghost var temp := a[..];
    var n, mid := a.Length, a.Length / 2;
    var remaining := n - mid;
    Every2Sizes(n);
    if v == 0 {
      ok := AssignPair(a, Every2(n, 0), Range(n, 0, mid), Every2(n, 1), Range(n, mid, n));
      if ok { OutInvSlices0(temp); }
    } else if v == 1 {
      ok := AssignPair(a, Every2(n, 1), Range(n, 0, mid), Every2(n, 0), Range(n, mid, n));
      if ok { OutInvSlices1(temp); }
    } else if v == 2 {
      ok := AssignPair(a, Range(n, 0, mid), Every2(n, 1), Range(n, mid, n), Every2(n, 0));
      if ok { OutInvSlices2(temp); }
    } else {
      ok := AssignPair(a, Range(n, mid, n), Every2(n, 0), Range(n, 0, mid), Every2(n, 1));
      if ok { OutInvSlices3(temp); }
    }
  }

  /** Variant 0 of the cut step. */
  method CutInverseStep0(a: array<Bit>) returns (ok: bool)
    requires a.Length >= 2
    modifies a
    ensures ok == InverseShapeOk(Cut, 0, a.Length)
    ensures ok ==> a[..] == StepInv(Cut, 0, old(a[..]))
  {
    var temp := a[..];
    var n, cutSize, cutPos := a.Length, CutSize(a.Length), a.Length / 2;
    CutSizes(n);
    ok := Assign(a, Range(n, 0, cutSize), temp, Range(n, cutPos, cutPos + cutSize));
    if !ok { return; }
    ok := Assign(a, Range(n, cutSize, cutSize + cutPos), temp, Range(n, 0, cutPos));
    if !ok { return; }
    ok := Assign(a, Range(n, cutSize + cutPos, n), temp, Range(n, cutPos + cutSize, n));
    if !ok { return; }
    CutInvSlices0(temp);
  }

  /** Variant 1 of the cut step. */
  method CutInverseStep1(a: array<Bit>) returns (ok: bool)
    requires a.Length >= 2
    modifies a
    ensures ok == InverseShapeOk(Cut, 1, a.Length)
    ensures ok ==> a[..] == StepInv(Cut, 1, old(a[..]))
  {
    var temp := a[..];
    var n, cutSize, cutPos := a.Length, CutSize(a.Length), a.Length / 2;
    CutSizes(n);
    CutInvFits1(n);
    ok := Assign(a, Range(n, 0, cutPos - cutSize), temp, Range(n, 0, cutPos - cutSize));
    if !ok { return; }
    ok := Assign(a, Range(n, n - cutSize, n), temp, Range(n, cutPos - cutSize, cutPos));
    if !ok { return; }
    ok := Assign(a, Range(n, cutPos - cutSize, n - cutSize), temp, Range(n, cutPos, n));
    if !ok { return; }
    CutInvSlices1(temp);
  }

  /** Variant 2 of the cut step. */
  method CutInverseStep2(a: array<Bit>) returns (ok: bool)
    requires a.Length >= 2
    modifies a
    ensures ok == InverseShapeOk(Cut, 2, a.Length)
    ensures ok ==> a[..] == StepInv(Cut, 2, old(a[..]))
  {
    var temp := a[..];
    var n, cutSize, cutPos := a.Length, CutSize(a.Length), a.Length / 2;
    CutSizes(n);
    ok := Assign(a, Range(n, 0, cutPos), temp, Range(n, cutSize, cutPos + cutSize));
    if !ok { return; }
    ok := Assign(a, Range(n, cutPos, cutPos + cutSize), temp, Range(n, 0, cutSize));
    if !ok { return; }
    ok := Assign(a, Range(n, cutPos + cutSize, n), temp, Range(n, cutPos + cutSize, n));
    if !ok { return; }
    CutInvSlices2(temp);
  }

  /** Variant 3 of the cut step. */
  method CutInverseStep3(a: array<Bit>) returns (ok: bool)
    requires a.Length >= 2
    modifies a
    ensures ok == InverseShapeOk(Cut, 3, a.Length)
    ensures ok ==> a[..] == StepInv(Cut, 3, old(a[..]))
  {
    var temp := a[..];
    var n, cutSize, cutPos := a.Length, CutSize(a.Length), a.Length / 2;
    CutSizes(n);
    ok := Assign(a, Range(n, 0, cutPos), temp, Range(n, 0, cutPos));
    if !ok { return; }
    ok := Assign(a, Range(n, cutPos, cutPos + cutSize), temp, Range(n, n - cutSize, n));
    if !ok { return; }
    ok := Assign(a, Range(n, cutPos + cutSize, n), temp, Range(n, cutPos, n - cutSize));
    if !ok { return; }
    CutInvSlices3(temp);
  }

  /** One two-card cut step of inverse_faro_shuffle. */
  method CutInverseStep(a: array<Bit>, v: nat) returns (ok: bool)
    requires v < 4 && a.Length >= 2
    modifies a
    ensures ok == InverseShapeOk(Cut, v, a.Length)
    ensures ok ==> a[..] == StepInv(Cut, v, old(a[..]))
  {
    if v == 0 {
      ok := CutInverseStep0(a);
    } else if v == 1 {
      ok := CutInverseStep1(a);
    } else if v == 2 {
      ok := CutInverseStep2(a);
    } else {
      ok := CutInverseStep3(a);
    }
  }
  /** Whether the milk shuffle's i-th dealt element comes from the top (variants 0 and 3 start with the top, 1 and 2 with the bottom). */
  predicate MilkFromTop(v: nat, i: nat)
  {
    if v == 0 then i % 2 == 0
    else if v == 1 then i % 2 != 0
    else if v == 2 then (i + 1) % 2 == 0
    else (i + 1) % 2 != 0
  }

  /** The position the milk shuffle deals its i-th element from, as faro_shuffle indexes it. */
  function MilkPosition(v: nat, n: nat, i: nat): (j: nat)
    requires v < 4 && i < n
    ensures j == MilkFwdSrc(v, n, i)
  {
    if MilkFromTop(v, i) then i / 2 else n - 1 - i / 2
  }

  /** One milk step of faro_shuffle: element i is taken from the top or the bottom of the copy. */
  method MilkStep(a: array<Bit>, v: nat)
    requires v < 4 && a.Length >= 2
    modifies a
    ensures a[..] == StepFwd(Milk, v, old(a[..]))
  {
    var temp := a[..];
    var n := a.Length;
    for i := 0 to n
      invariant forall j :: 0 <= j < i ==> a[j] == temp[MilkFwdSrc(v, n, j)]
    {
      a[i] := temp[MilkPosition(v, n, i)];
    }
  }

  /** One milk step of inverse_faro_shuffle: element i of the copy is put back where the milk shuffle dealt it from. */
  method MilkInverseStep(a: array<Bit>, v: nat)
    requires v < 4 && a.Length >= 2
    modifies a
    ensures a[..] == StepInv(Milk, v, old(a[..]))
  {
    var temp := a[..];
    var n := a.Length;
    for i := 0 to n
      invariant forall j :: 0 <= j < n && MilkInvSrc(v, n, j) < i ==> a[j] == temp[MilkInvSrc(v, n, j)]
    {
      var p := MilkPosition(v, n, i);
      a[p] := temp[i];
      forall j | 0 <= j < n && MilkInvSrc(v, n, j) < i + 1
        ensures a[j] == temp[MilkInvSrc(v, n, j)]
      {
        MilkDealtFrom(v, n, i, j);
      }
    }
    assert forall j :: 0 <= j < n ==> a[j] == temp[InvSrc(Milk, v, n, j)];
  }

  /** Position j gets the element the inverse milk step puts back from i exactly when the milk shuffle deals i from j. */
  lemma MilkDealtFrom(v: nat, n: nat, i: nat, j: nat)
    requires v < 4 && 2 <= n && i < n && j < n
    ensures MilkInvSrc(v, n, j) == i <==> MilkPosition(v, n, i) == j
  {
    MilkMapsInverse(v, n, i);
    MilkMapsInverse(v, n, j);
  }

  /** One forward step of the given kind; false where numpy raises. */
  method ForwardStep(kind: ShuffleKind, a: array<Bit>, v: nat) returns (ok: bool)
    requires v < 4 && a.Length >= 2 && kind != NoShuffle
    modifies a
    ensures ok == ForwardShapeOk(kind, v, a.Length)
    ensures ok ==> a[..] == StepFwd(kind, v, old(a[..]))
  {
    match kind
    case In => ok := InStep(a, v);
    case Out => ok := OutStep(a, v);
    case Milk => MilkStep(a, v); ok := true;
    case Cut => ok := CutStep(a, v);
  }

  /** One inverse step of the given kind; false where numpy raises. */
  method InverseStep(kind: ShuffleKind, a: array<Bit>, v: nat) returns (ok: bool)
    requires v < 4 && a.Length >= 2 && kind != NoShuffle
    modifies a
    ensures ok == InverseShapeOk(kind, v, a.Length)
    ensures ok ==> a[..] == StepInv(kind, v, old(a[..]))
  {
    match kind
    case In => ok := InInverseStep(a, v);
    case Out => ok := OutInverseStep(a, v);
    case Milk => MilkInverseStep(a, v); ok := true;
    case Cut => ok := CutInverseStep(a, v);
  }

  /** faro_shuffle on a bit array: None where numpy raises ValueError. */
  method FaroShuffle(bits: seq<Bit>, kind: ShuffleKind, steps: int, variant: int) returns (r: Option<seq<Bit>>)
    ensures r == ShuffleSpec.FaroShuffle(kind, variant, steps, bits)
  {
    var result := new Bit[|bits|](i requires 0 <= i < |bits| => bits[i]);
    var n := result.Length;
    if n <= 1 || kind == NoShuffle {
      return Some(bits);
    }
    assert result[..] == bits;
    var v := variant % 4;
    var ok := ForwardSteps(result, kind, v, steps);
    if ok {
      r := Some(result[..]);
    } else {
      r := None;
    }
  }

  /** The loop of faro_shuffle: `steps` forward steps in place; false where numpy raises. */
  method ForwardSteps(a: array<Bit>, kind: ShuffleKind, v: nat, steps: int) returns (ok: bool)
    requires a.Length > 1 && kind != NoShuffle && v < 4
    modifies a
    ensures ok == ForwardRuns(kind, v, steps, a.Length)
    ensures ok ==> a[..] == Forward(kind, v, if steps < 0 then 0 else steps, old(a[..]))
  {
    ghost var bits := a[..];
    ghost var total: nat := if steps < 0 then 0 else steps;
    assert v % 4 == v;
    var step := 0;
    while step < steps
      invariant 0 <= step <= total
      invariant ForwardRuns(kind, v, step, |bits|)
      invariant a[..] == Forward(kind, v, step, bits)
    {
      ghost var before := a[..];
      ok := ForwardStep(kind, a, v);
      if !ok {
        ForwardFails(kind, v, steps, a.Length);
        return;
      }
      ForwardNext(kind, v, step, bits, before, a[..]);
      step := step + 1;
    }
    assert step == total;
    ok := true;
  }

  /** A step that numpy refuses makes the whole forward run fail. */
  lemma ForwardFails(kind: ShuffleKind, v: nat, steps: int, n: nat)
    requires n > 1 && kind != NoShuffle && v < 4 && steps > 0 && !ForwardShapeOk(kind, v, n)
    ensures !ForwardRuns(kind, v, steps, n)
  {
    assert v % 4 == v;
  }

  /** One more successful step extends the forward run by one. */
  lemma ForwardNext(kind: ShuffleKind, v: nat, k: nat, t: seq<Bit>, prev: seq<Bit>, next: seq<Bit>)
    requires |t| > 1 && kind != NoShuffle && v < 4 && ForwardShapeOk(kind, v, |t|)
    requires ForwardRuns(kind, v, k, |t|) && prev == Forward(kind, v, k, t) && next == StepFwd(kind, v, prev)
    ensures ForwardRuns(kind, v, k + 1, |t|)
    ensures forall j :: j == k + 1 ==> next == Forward(kind, v, j, t)
  {
    assert v % 4 == v;
  }

  /** inverse_faro_shuffle on a bit array: None where numpy raises ValueError. */
  method InverseFaroShuffle(bits: seq<Bit>, kind: ShuffleKind, steps: int, variant: int) returns (r: Option<seq<Bit>>)
    ensures r == ShuffleSpec.InverseFaroShuffle(kind, variant, steps, bits)
  {
    var result := new Bit[|bits|](i requires 0 <= i < |bits| => bits[i]);
    var n := result.Length;
    if n <= 1 || kind == NoShuffle {
      return Some(bits);
    }
    var v := variant % 4;
    assert v % 4 == v;
    if steps <= 0 {
      return Some(bits);
    }
    var remaining := steps;
    while remaining > 0
      invariant 0 <= remaining <= steps
      invariant remaining < steps ==> InverseShapeOk(kind, v, n)
      invariant remaining < steps ==> Inverse(kind, v, remaining, result[..]) == Inverse(kind, v, steps, bits)
      invariant remaining == steps ==> result[..] == bits
    {
      var ok := InverseStep(kind, result, v);
      if !ok {
        return None;
      }
      remaining := remaining - 1;
    }
    return Some(result[..]);
  }
}
