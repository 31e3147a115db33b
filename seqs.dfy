/** Facts about slices and concatenation, stated once for any element type. */
module Seqs {
  lemma TakeSnoc<T>(s: seq<T>, k: nat)
    requires k < |s|
    ensures s[..k + 1] == s[..k] + [s[k]]
  {
  }

  lemma SnocPrefix<T>(p: seq<T>, x: T)
    ensures (p + [x])[..|p|] == p
  {
  }

  lemma TakeTake<T>(s: seq<T>, n: nat, k: nat)
    requires n <= k <= |s|
    ensures s[..k][..n] == s[..n]
  {
  }

  lemma PrefixOfPrefix<T>(s: seq<T>, t: seq<T>, u: seq<T>, n: nat)
    requires |t| <= |s| && s[..|t|] == t && n <= |t| && t[..n] == u
    ensures s[..n] == u
  {
    assert s[..|t|][..n] == s[..n];
  }

  /** The two ends of a three-part concatenation. */
  lemma SplitThree<T>(a: seq<T>, b: seq<T>, c: seq<T>, s: seq<T>)
    requires s == a + b + c
    ensures s[..|a| + |b|] == a + b && s[|a| + |b|..] == c
  {
  }

  lemma TakeSplit<T>(s: seq<T>, i: nat, j: nat)
    requires i <= j <= |s|
    ensures s[..i] + s[i..j] == s[..j]
  {
  }

  lemma DropDrop<T>(s: seq<T>, i: nat, k: nat)
    requires i + k <= |s|
    ensures s[i..][k..] == s[i + k..]
  {
  }

  lemma SliceOfEight<T>(s: seq<T>, i: nat)
    requires i + 8 <= |s|
    ensures s[i..i + 8] == [s[i], s[i + 1], s[i + 2], s[i + 3], s[i + 4], s[i + 5], s[i + 6], s[i + 7]]
  {
  }

  lemma HeadTail<T>(s: seq<T>)
    requires |s| > 0
    ensures [s[0]] + s[1..] == s
  {
  }

  lemma TakeAll<T>(s: seq<T>)
    ensures s[..|s|] == s
  {
  }

  /** Moving the head of the middle part onto the end of the prefix. */
  lemma ShiftHead<T>(whole: seq<T>, prefix: seq<T>, middle: seq<T>, x: T, rest: seq<T>)
    requires whole == prefix + middle && middle == [x] + rest
    ensures whole == (prefix + [x]) + rest
  {
    assert prefix + ([x] + rest) == (prefix + [x]) + rest;
  }

  lemma ConcatAssoc<T>(a: seq<T>, b: seq<T>, c: seq<T>)
    ensures a + (b + c) == (a + b) + c
  {
  }

  /** f applied to each element, in order. */
  function Map<A, B>(f: A -> B, s: seq<A>): (r: seq<B>)
    ensures |r| == |s|
  {
    seq(|s|, i requires 0 <= i < |s| => f(s[i]))
  }

  lemma MapAppend<A, B>(f: A -> B, xs: seq<A>, ys: seq<A>)
    ensures Map(f, xs + ys) == Map(f, xs) + Map(f, ys)
  {
    var lhs, rhs := Map(f, xs + ys), Map(f, xs) + Map(f, ys);
    forall k | 0 <= k < |lhs| ensures lhs[k] == rhs[k] {
      if k < |xs| {
        assert (xs + ys)[k] == xs[k];
      } else {
        assert (xs + ys)[k] == ys[k - |xs|];
      }
    }
  }
}
