/** Gathering a sequence through an injective index map permutes it. */
module Permutations {

  lemma RemoveAt<T>(s: seq<T>, j: nat)
    requires j < |s|
    ensures multiset(s) == multiset(s[..j] + s[j + 1..]) + multiset{s[j]}
  {
    assert s == s[..j] + [s[j]] + s[j + 1..];
  }

  /** If r[i] == s[f(i)] for every position and f is injective, r holds exactly the elements of s. */
  lemma {:induction false} GatherPreservesMultiset<T>(s: seq<T>, r: seq<T>, f: nat -> nat)
    requires |r| == |s|
    requires forall i :: 0 <= i < |s| ==> f(i) < |s| && r[i] == s[f(i)]
    requires forall i, k :: 0 <= i < k < |s| ==> f(i) != f(k)
    ensures multiset(r) == multiset(s)
    decreases |s|
  {
    if |s| == 0 {
      return;
    }
    var n := |s|;
    var j := f(n - 1);
    var s' := s[..j] + s[j + 1..];
    var r' := r[..n - 1];
    var f' := (i: nat) => if f(i) <= j then f(i) else f(i) - 1;
    forall i | 0 <= i < n - 1
      ensures f'(i) < n - 1 && r'[i] == s'[f'(i)]
    {
      assert f(i) != j;
    }
    forall i, k | 0 <= i < k < n - 1
      ensures f'(i) != f'(k)
    {
      assert f(i) != j && f(k) != j && f(i) != f(k);
    }
    GatherPreservesMultiset(s', r', f');
    assert r[n - 1] == s[j];
    GatherLast(s, r, j, s', r');
  }

  /** The last step of the gathering: r's last element is s[j], and the rest holds what s holds without it. */
  lemma GatherLast<T>(s: seq<T>, r: seq<T>, j: nat, s': seq<T>, r': seq<T>)
    requires 0 < |r| && j < |s| && r[|r| - 1] == s[j]
    requires s' == s[..j] + s[j + 1..] && r' == r[..|r| - 1] && multiset(r') == multiset(s')
    ensures multiset(r) == multiset(s)
  {
    RemoveAt(s, j);
    assert r == r' + [r[|r| - 1]];
  }
}
