/**
 * The card-shuffle permutations of faro_cipher/shuffles.py, stated as index maps.
 *
 * One step of a shuffle family rebuilds the array from a copy `temp` of it:
 * the element at position i afterwards is temp[FwdSrc(kind, v, n, i)]
 * (forward) or temp[InvSrc(kind, v, n, i)] (inverse). The maps are the
 * meaning of the numpy slice assignments that the Shuffles module models
 * one by one. A few shapes make numpy raise instead of shuffling; the
 * predicates ForwardShapeOk and InverseShapeOk say which.
 */
module ShuffleSpec {
  import Permutations
  import opened Wrappers

  datatype ShuffleKind = NoShuffle | In | Out | Milk | Cut

  /** The shuffle_type strings faro_shuffle accepts. */
  function ShuffleName(kind: ShuffleKind): string
  {
    match kind
    case NoShuffle => "none"
    case In => "in"
    case Out => "out"
    case Milk => "milk"
    case Cut => "cut"
  }

  /** The cut family moves two elements, or one when there are only two. */
  function CutSize(n: nat): nat { if n > 2 then 2 else 1 }

  /**
   * A forward step succeeds except for the standard out-shuffle on an odd
   * length other than 3 (its second slice is one element short and numpy
   * cannot broadcast it) and the bottom cut on length 3 (an empty
   * destination slice meets a two-element source).
   */
  predicate ForwardShapeOk(kind: ShuffleKind, v: nat, n: nat)
  {
    match kind
    case Out => v != 0 || n % 2 == 0 || n == 3
    case Cut => v != 1 || n != 3
    case _ => true
  }

  /** An inverse step succeeds except for the standard out-shuffle on any odd length and the bottom cut on length 3. */
  predicate InverseShapeOk(kind: ShuffleKind, v: nat, n: nat)
  {
    match kind
    case Out => v != 0 || n % 2 == 0
    case Cut => v != 1 || n != 3
    case _ => true
  }

  /** Where the forward step takes position i's new element from. */
  function FwdSrc(kind: ShuffleKind, v: nat, n: nat, i: nat): (j: nat)
    requires v < 4 && 2 <= n && i < n && ForwardShapeOk(kind, v, n)
    ensures j < n
  {
    match kind
    case NoShuffle => i
    case In => InFwdSrc(v, n, i)
    case Out => OutFwdSrc(v, n, i)
    case Milk => MilkFwdSrc(v, n, i)
    case Cut => CutFwdSrc(v, n, i)
  }

  /** Where the inverse step takes position i's new element from. */
  function InvSrc(kind: ShuffleKind, v: nat, n: nat, i: nat): (j: nat)
    requires v < 4 && 2 <= n && i < n && InverseShapeOk(kind, v, n)
    ensures j < n
  {
    match kind
    case NoShuffle => i
    case In => InInvSrc(v, n, i)
    case Out => OutInvSrc(v, n, i)
    case Milk => MilkInvSrc(v, n, i)
    case Cut => CutInvSrc(v, n, i)
  }

  /** In-shuffle: variants 0 and 3 interleave the first half (longer when n is odd) with the second; 1 and 2 put the second half first. */
  function InFwdSrc(v: nat, n: nat, i: nat): (j: nat)
    requires v < 4 && i < n
    ensures j < n
  {
    var m := n / 2;
    if v == 0 || v == 3 then (if i % 2 == 0 then i / 2 else n - m + i / 2)
    else (if i % 2 == 0 then m + i / 2 else i / 2)
  }

  function InInvSrc(v: nat, n: nat, i: nat): (j: nat)
    requires v < 4 && i < n
    ensures j < n
  {
    var m := n / 2;
    if v == 0 || v == 3 then (if i < n - m then 2 * i else 2 * (i - (n - m)) + 1)
    else (if i < m then 2 * i + 1 else 2 * (i - m))
  }

  /**
   * Out-shuffle: variant 0 deals the even positions to the front half, and
   * on length 3 its broadcast repeats element 1; variant 1 deals the odd
   * positions first; variants 2 and 3 interleave the second half with the first.
   */
  function OutFwdSrc(v: nat, n: nat, i: nat): (j: nat)
    requires v < 4 && i < n && (v != 0 || n % 2 == 0 || n == 3)
    ensures j < n
  {
    var m := n / 2;
    if v == 0 then (if i < m then 2 * i else if n == 3 then 1 else 2 * (i - m) + 1)
    else if v == 1 then (if i < m then 2 * i + 1 else 2 * (i - m))
    else (if i % 2 == 0 then m + i / 2 else i / 2)
  }

  function OutInvSrc(v: nat, n: nat, i: nat): (j: nat)
    requires v < 4 && i < n && (v != 0 || n % 2 == 0)
    ensures j < n
  {
    var m := n / 2;
    if v == 0 then (if i % 2 == 0 then i / 2 else m + i / 2)
    else if v == 1 then (if i % 2 == 1 then i / 2 else m + i / 2)
    else (if i < m then 2 * i + 1 else 2 * (i - m))
  }

  /** Milk shuffle: alternately the next element from the top and from the bottom; variant 2 deals like 1 and 3 like 0. */
  function MilkFwdSrc(v: nat, n: nat, i: nat): (j: nat)
    requires v < 4 && i < n
    ensures j < n
  {
    if v == 0 || v == 3 then (if i % 2 == 0 then i / 2 else n - 1 - i / 2)
    else (if i % 2 == 0 then n - 1 - i / 2 else i / 2)
  }

  function MilkInvSrc(v: nat, n: nat, i: nat): (j: nat)
    requires v < 4 && i < n
    ensures j < n
  {
    var m := n / 2;
    if v == 0 || v == 3 then (if i < n - m then 2 * i else 2 * (n - 1 - i) + 1)
    else (if i < m then 2 * i + 1 else 2 * (n - 1 - i))
  }

  /**
   * Two-card cut with c = CutSize(n) cards at p = n / 2: variant 0 moves the
   * top c cards to p, 1 moves the bottom c cards to just before p, 2 moves
   * the c cards at p to the top and 3 moves them to the bottom.
   */
  function CutFwdSrc(v: nat, n: nat, i: nat): (j: nat)
    requires v < 4 && 2 <= n && i < n && (v != 1 || n != 3)
    ensures j < n
  {
    var m, c := n / 2, CutSize(n);
    if v == 0 then (if i < m then i + c else if i < m + c then i - m else i)
    else if v == 1 then (if i < m - c then i else if i < m then n - c + (i - (m - c)) else i - c)
    else if v == 2 then (if i < c then m + i else if i < m + c then i - c else i)
    else (if i < m then i else if i < n - c then i + c else m + (i - (n - c)))
  }

  function CutInvSrc(v: nat, n: nat, i: nat): (j: nat)
    requires v < 4 && 2 <= n && i < n && (v != 1 || n != 3)
    ensures j < n
  {
    var m, c := n / 2, CutSize(n);
    if v == 0 then (if i < c then m + i else if i < c + m then i - c else i)
    else if v == 1 then (if i < m - c then i else if i < n - c then m + (i - (m - c)) else m - c + (i - (n - c)))
    else if v == 2 then (if i < m then i + c else if i < m + c then i - m else i)
    else (if i < m then i else if i < m + c then n - c + (i - m) else i - c)
  }

  /** Where both steps are defined, the two maps are inverse to each other. */
  lemma SrcMapsInverse(kind: ShuffleKind, v: nat, n: nat, i: nat)
    requires v < 4 && 2 <= n && i < n
    requires ForwardShapeOk(kind, v, n) && InverseShapeOk(kind, v, n)
    ensures FwdSrc(kind, v, n, InvSrc(kind, v, n, i)) == i
    ensures InvSrc(kind, v, n, FwdSrc(kind, v, n, i)) == i
  {
    match kind
    case NoShuffle =>
    case In => InMapsInverse(v, n, i);
    case Out => OutMapsInverse(v, n, i);
    case Milk => MilkMapsInverse(v, n, i);
    case Cut => CutMapsInverse(v, n, i);
  }

  lemma InMapsInverse(v: nat, n: nat, i: nat)
    requires v < 4 && 2 <= n && i < n
    ensures FwdSrc(In, v, n, InvSrc(In, v, n, i)) == i
    ensures InvSrc(In, v, n, FwdSrc(In, v, n, i)) == i
  {
  }

  lemma OutMapsInverse(v: nat, n: nat, i: nat)
    requires v < 4 && 2 <= n && i < n && (v != 0 || n % 2 == 0)
    ensures FwdSrc(Out, v, n, InvSrc(Out, v, n, i)) == i
    ensures InvSrc(Out, v, n, FwdSrc(Out, v, n, i)) == i
  {
    if v == 0 {
      OutEvenMapsInverse(n, i);
    } else if v == 1 {
      OutOddMapsInverse(n, i);
    } else {
      OutInterleaveMapsInverse(v, n, i);
    }
  }

  /** Variant 0: evens to the front half, on an even length. */
  lemma OutEvenMapsInverse(n: nat, i: nat)
    requires 2 <= n && i < n && n % 2 == 0
    ensures OutFwdSrc(0, n, OutInvSrc(0, n, i)) == i
    ensures OutInvSrc(0, n, OutFwdSrc(0, n, i)) == i
  {
    assert n == 2 * (n / 2) && i == 2 * (i / 2) + i % 2;
  }

  /** Variant 1: odds to the front half. */
  lemma OutOddMapsInverse(n: nat, i: nat)
    requires 2 <= n && i < n
    ensures OutFwdSrc(1, n, OutInvSrc(1, n, i)) == i
    ensures OutInvSrc(1, n, OutFwdSrc(1, n, i)) == i
  {
    assert n == 2 * (n / 2) + n % 2 && i == 2 * (i / 2) + i % 2;
  }

  /** Variants 2 and 3: the second half interleaved with the first. */
  lemma OutInterleaveMapsInverse(v: nat, n: nat, i: nat)
    requires 2 <= v < 4 && 2 <= n && i < n
    ensures OutFwdSrc(v, n, OutInvSrc(v, n, i)) == i
    ensures OutInvSrc(v, n, OutFwdSrc(v, n, i)) == i
  {
    assert n == 2 * (n / 2) + n % 2 && i == 2 * (i / 2) + i % 2;
  }

  lemma MilkMapsInverse(v: nat, n: nat, i: nat)
    requires v < 4 && 2 <= n && i < n
    ensures FwdSrc(Milk, v, n, InvSrc(Milk, v, n, i)) == i
    ensures InvSrc(Milk, v, n, FwdSrc(Milk, v, n, i)) == i
  {
  }

  lemma CutMapsInverse(v: nat, n: nat, i: nat)
    requires v < 4 && 2 <= n && i < n && (v != 1 || n != 3)
    ensures FwdSrc(Cut, v, n, InvSrc(Cut, v, n, i)) == i
    ensures InvSrc(Cut, v, n, FwdSrc(Cut, v, n, i)) == i
  {
  }

  function StepFwd<T>(kind: ShuffleKind, v: nat, t: seq<T>): (r: seq<T>)
    requires v < 4 && 2 <= |t| && ForwardShapeOk(kind, v, |t|)
    ensures |r| == |t|
  {
    seq(|t|, i requires 0 <= i < |t| => t[FwdSrc(kind, v, |t|, i)])
  }

  function StepInv<T>(kind: ShuffleKind, v: nat, t: seq<T>): (r: seq<T>)
    requires v < 4 && 2 <= |t| && InverseShapeOk(kind, v, |t|)
    ensures |r| == |t|
  {
    seq(|t|, i requires 0 <= i < |t| => t[InvSrc(kind, v, |t|, i)])
  }

  /** True when `steps` forward steps run without numpy raising. */
  predicate ForwardRuns(kind: ShuffleKind, v: nat, steps: int, n: nat)
  {
    n <= 1 || kind == NoShuffle || steps <= 0 || ForwardShapeOk(kind, v % 4, n)
  }

  predicate InverseRuns(kind: ShuffleKind, v: nat, steps: int, n: nat)
  {
    n <= 1 || kind == NoShuffle || steps <= 0 || InverseShapeOk(kind, v % 4, n)
  }

  /** faro_shuffle: `steps` forward steps; lengths 0 and 1 and the kind 'none' are left alone. */
  function Forward<T>(kind: ShuffleKind, v: nat, steps: nat, t: seq<T>): (r: seq<T>)
    requires ForwardRuns(kind, v, steps, |t|)
    ensures |r| == |t|
  {
    if |t| <= 1 || kind == NoShuffle || steps == 0 then t
    else StepFwd(kind, v % 4, Forward(kind, v, steps - 1, t))
  }

  /** inverse_faro_shuffle: `steps` inverse steps. */
  function Inverse<T>(kind: ShuffleKind, v: nat, steps: nat, t: seq<T>): (r: seq<T>)
    requires InverseRuns(kind, v, steps, |t|)
    ensures |r| == |t|
  {
    if |t| <= 1 || kind == NoShuffle || steps == 0 then t
    else Inverse(kind, v, steps - 1, StepInv(kind, v % 4, t))
  }

  /** The outcome of faro_shuffle: the shuffled array, or None where numpy raises ValueError. */
  function FaroShuffle<T>(kind: ShuffleKind, variant: int, steps: int, t: seq<T>): Option<seq<T>>
  {
    var v := variant % 4;
    if ForwardRuns(kind, v, steps, |t|) then Some(Forward(kind, v, if steps < 0 then 0 else steps, t)) else None
  }

  function InverseFaroShuffle<T>(kind: ShuffleKind, variant: int, steps: int, t: seq<T>): Option<seq<T>>
  {
    var v := variant % 4;
    if InverseRuns(kind, v, steps, |t|) then Some(Inverse(kind, v, if steps < 0 then 0 else steps, t)) else None
  }

  /** Both kinds of step run on this length, so they undo each other. */
  predicate RoundTrips(kind: ShuffleKind, v: nat, n: nat)
  {
    ForwardShapeOk(kind, v % 4, n) && InverseShapeOk(kind, v % 4, n)
  }

  lemma StepsUndo<T>(kind: ShuffleKind, v: nat, t: seq<T>)
    requires v < 4 && 2 <= |t| && RoundTrips(kind, v, |t|)
    ensures StepInv(kind, v, StepFwd(kind, v, t)) == t
    ensures StepFwd(kind, v, StepInv(kind, v, t)) == t
  {
    var n := |t|;
    forall i | 0 <= i < n
      ensures StepInv(kind, v, StepFwd(kind, v, t))[i] == t[i]
      ensures StepFwd(kind, v, StepInv(kind, v, t))[i] == t[i]
    {
      SrcMapsInverse(kind, v, n, i);
    }
  }

  /** The inverse shuffle undoes the forward shuffle with the same parameters. */
  lemma {:induction false} InverseUndoesForward<T>(kind: ShuffleKind, v: nat, steps: nat, t: seq<T>)
    requires |t| <= 1 || kind == NoShuffle || steps == 0 || RoundTrips(kind, v, |t|)
    ensures Inverse(kind, v, steps, Forward(kind, v, steps, t)) == t
  {
    if |t| <= 1 || kind == NoShuffle || steps == 0 {
    } else {
      var prev := Forward(kind, v, steps - 1, t);
      StepsUndo(kind, v % 4, prev);
      InverseUndoesForward(kind, v, steps - 1, t);
    }
  }

  /** The forward shuffle undoes the inverse shuffle, so both are bijections. */
  lemma {:induction false} ForwardUndoesInverse<T>(kind: ShuffleKind, v: nat, steps: nat, t: seq<T>)
    requires |t| <= 1 || kind == NoShuffle || steps == 0 || RoundTrips(kind, v, |t|)
    ensures Forward(kind, v, steps, Inverse(kind, v, steps, t)) == t
  {
    if |t| <= 1 || kind == NoShuffle || steps == 0 {
    } else {
      var first := StepInv(kind, v % 4, t);
      assert Inverse(kind, v, steps, t) == Inverse(kind, v, steps - 1, first);
      ForwardUndoesInverse(kind, v, steps - 1, first);
      assert Forward(kind, v, steps - 1, Inverse(kind, v, steps, t)) == first;
      StepsUndo(kind, v % 4, t);
    }
  }

  /** Lengths 0 and 1 and the kind 'none' come back unchanged from both directions, whatever the steps and variant. */
  lemma FaroShuffleLeavesTrivialInputs<T>(kind: ShuffleKind, variant: int, steps: int, t: seq<T>)
    requires |t| <= 1 || kind == NoShuffle
    ensures FaroShuffle(kind, variant, steps, t) == Some(t)
    ensures InverseFaroShuffle(kind, variant, steps, t) == Some(t)
  {
    var s: nat := if steps < 0 then 0 else steps;
    if s > 0 {
      assert Forward(kind, variant % 4, s, t) == t;
      assert Inverse(kind, variant % 4, s, t) == t;
    }
  }

  /** Only the variant modulo 4 matters: variants v and v + 4 shuffle alike. */
  lemma VariantModFour<T>(kind: ShuffleKind, variant: int, steps: int, t: seq<T>)
    ensures FaroShuffle(kind, variant + 4, steps, t) == FaroShuffle(kind, variant, steps, t)
    ensures InverseFaroShuffle(kind, variant + 4, steps, t) == InverseFaroShuffle(kind, variant, steps, t)
  {
    assert (variant + 4) % 4 == variant % 4;
  }

  /** Every family and variant runs, both ways, on an even length. */
  lemma EvenLengthRoundTrips(kind: ShuffleKind, v: nat, n: nat)
    requires n % 2 == 0
    ensures RoundTrips(kind, v, n)
  {
  }

  /**
   * inverse_faro_shuffle undoes faro_shuffle, and the other way round, for
   * the same steps and variant wherever both directions run; the output
   * keeps the input's length.
   */
  lemma FaroShuffleRoundTrip<T>(kind: ShuffleKind, variant: int, steps: int, t: seq<T>)
    requires |t| <= 1 || kind == NoShuffle || steps <= 0 || RoundTrips(kind, variant % 4, |t|)
    ensures FaroShuffle(kind, variant, steps, t).Some? && |FaroShuffle(kind, variant, steps, t).value| == |t|
    ensures InverseFaroShuffle(kind, variant, steps, t).Some? && |InverseFaroShuffle(kind, variant, steps, t).value| == |t|
    ensures InverseFaroShuffle(kind, variant, steps, FaroShuffle(kind, variant, steps, t).value) == Some(t)
    ensures FaroShuffle(kind, variant, steps, InverseFaroShuffle(kind, variant, steps, t).value) == Some(t)
  {
    var v := variant % 4;
    assert v % 4 == v;
    var s: nat := if steps < 0 then 0 else steps;
    InverseUndoesForward(kind, v, s, t);
    ForwardUndoesInverse(kind, v, s, t);
  }

  /** The forward map sends distinct positions to distinct positions. */
  lemma FwdSrcInjective(kind: ShuffleKind, v: nat, n: nat, i: nat, k: nat)
    requires v < 4 && 2 <= n && i < n && k < n && RoundTrips(kind, v, n)
    ensures i != k ==> FwdSrc(kind, v, n, i) != FwdSrc(kind, v, n, k)
  {
    SrcMapsInverse(kind, v, n, i);
    SrcMapsInverse(kind, v, n, k);
  }

  lemma StepPermutes<T>(kind: ShuffleKind, v: nat, t: seq<T>)
    requires v < 4 && 2 <= |t| && RoundTrips(kind, v, |t|)
    ensures multiset(StepFwd(kind, v, t)) == multiset(t)
  {
    var n := |t|;
    var f := (i: nat) => if i < n then FwdSrc(kind, v, n, i) else 0;
    var r := StepFwd(kind, v, t);
    forall i | 0 <= i < n
      ensures f(i) < n && r[i] == t[f(i)]
    {
      assert f(i) == FwdSrc(kind, v, n, i);
    }
    forall i, k | 0 <= i < k < n
      ensures f(i) != f(k)
    {
      FwdSrcInjective(kind, v, n, i, k);
    }
    Permutations.GatherPreservesMultiset(t, r, f);
  }

  /** Where it round-trips, the forward shuffle only reorders: it keeps every element and so the count of 1-bits. */
  lemma {:induction false} ForwardPermutes<T>(kind: ShuffleKind, v: nat, steps: nat, t: seq<T>)
    requires |t| <= 1 || kind == NoShuffle || steps == 0 || RoundTrips(kind, v, |t|)
    ensures multiset(Forward(kind, v, steps, t)) == multiset(t)
  {
    if |t| <= 1 || kind == NoShuffle || steps == 0 {
    } else {
      var prev := Forward(kind, v, steps - 1, t);
      ForwardPermutes(kind, v, steps - 1, t);
      StepPermutes(kind, v % 4, prev);
      assert Forward(kind, v, steps, t) == StepFwd(kind, v % 4, prev);
    }
  }

  /**
   * On length 3 the standard out-shuffle repeats its second element and
   * drops the third, so it is not a permutation there.
   */
  lemma OutShuffleOfThreeRepeats(a: int, b: int, c: int)
    ensures StepFwd(Out, 0, [a, b, c]) == [a, b, b]
  {
  }
}
