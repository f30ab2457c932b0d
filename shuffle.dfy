/** The in-place shuffle that choose_palette and compose_wallpaper apply to
    their lists (random.shuffle). The random numbers are an input: for
    i = n-1 down to 1 the shuffle draws j in [0, i] and swaps positions i and j,
    so draws[k] is the j drawn when i = n-1-k. */
module Shuffle {

  /** draws[..] is a valid prefix of the draws for a list of length n. */
  predicate ValidPrefix(n: nat, draws: seq<nat>) {
    |draws| <= (if n == 0 then 0 else n - 1) &&
    forall k :: 0 <= k < |draws| ==> draws[k] <= n - 1 - k
  }

  /** The complete draws of one shuffle of a list of length n. */
  predicate ValidDraws(n: nat, draws: seq<nat>) {
    ValidPrefix(n, draws) && |draws| == (if n == 0 then 0 else n - 1)
  }

  /** s with positions i and j exchanged. */
  function Swap<T>(s: seq<T>, i: nat, j: nat): (r: seq<T>)
    requires i < |s| && j < |s|
    ensures |r| == |s| && r[i] == s[j] && r[j] == s[i]
    ensures forall k :: 0 <= k < |s| && k != i && k != j ==> r[k] == s[k]
  {
    s[i := s[j]][j := s[i]]
  }

  /** The list after the first |draws| swaps of the shuffle. */
  function Shuffled<T>(s: seq<T>, draws: seq<nat>): (r: seq<T>)
    requires ValidPrefix(|s|, draws)
    ensures |r| == |s|
  {
    if draws == [] then s
    else
      assert ValidPrefix(|s|, draws[..|draws| - 1]);
      Swap(Shuffled(s, draws[..|draws| - 1]), |s| - |draws|, draws[|draws| - 1])
  }

  /** One more draw is one more swap. */
  lemma ShuffledStep<T>(s: seq<T>, draws: seq<nat>)
    requires ValidPrefix(|s|, draws) && draws != []
    ensures ValidPrefix(|s|, draws[..|draws| - 1])
    ensures Shuffled(s, draws) == Swap(Shuffled(s, draws[..|draws| - 1]), |s| - |draws|, draws[|draws| - 1])
  {
  }

  lemma SwapPermutes<T>(s: seq<T>, i: nat, j: nat)
    requires i < |s| && j < |s|
    ensures multiset(Swap(s, i, j)) == multiset(s)
  {
    var t := s[i := s[j]];
    assert multiset(t) == multiset(s) - multiset{s[i]} + multiset{s[j]};
    assert multiset(t[j := s[i]]) == multiset(t) - multiset{t[j]} + multiset{s[i]};
  }

  /** The shuffle rearranges the list: the result is a permutation of the input. */
  lemma {:induction false} ShuffledPermutes<T>(s: seq<T>, draws: seq<nat>)
    requires ValidPrefix(|s|, draws)
    ensures multiset(Shuffled(s, draws)) == multiset(s)
  {
    if draws != [] {
      var d := draws[..|draws| - 1];
      assert ValidPrefix(|s|, d);
      ShuffledPermutes(s, d);
      SwapPermutes(Shuffled(s, d), |s| - |draws|, draws[|draws| - 1]);
    }
  }

  predicate Distinct<T(==)>(s: seq<T>) {
    forall i, j :: 0 <= i < j < |s| ==> s[i] != s[j]
  }

  /** An element that occurs once occurs once after the shuffle: a list without
      repetitions stays without repetitions. */
  lemma {:induction false} ShuffledDistinct<T>(s: seq<T>, draws: seq<nat>)
    requires ValidPrefix(|s|, draws) && Distinct(s)
    ensures Distinct(Shuffled(s, draws))
  {
    if draws != [] {
      var d := draws[..|draws| - 1];
      assert ValidPrefix(|s|, d);
      ShuffledDistinct(s, d);
      var t := Shuffled(s, d);
      var i, j := |s| - |draws|, draws[|draws| - 1];
      var u := Swap(t, i, j);
      forall a, b | 0 <= a < b < |u| ensures u[a] != u[b] {
        var a' := if a == i then j else if a == j then i else a;
        var b' := if b == i then j else if b == j then i else b;
        assert u[a] == t[a'] && u[b] == t[b'] && a' != b';
      }
    }
  }

  /** The positions 0 .. n-1. */
  function Indices(n: nat): (r: seq<nat>)
    ensures |r| == n && forall k :: 0 <= k < n ==> r[k] == k
  {
    seq(n, k => k)
  }

  /** The permutation a shuffle applies: position k of the result holds
      element Permutation(n, draws)[k] of the input. */
  function Permutation(n: nat, draws: seq<nat>): (p: seq<nat>)
    requires ValidPrefix(n, draws)
    ensures |p| == n
  {
    Shuffled(Indices(n), draws)
  }

  /** The shuffled list is the input read through its permutation. */
  lemma {:induction false} ShuffledAt<T>(s: seq<T>, draws: seq<nat>)
    requires ValidPrefix(|s|, draws)
    ensures forall k :: 0 <= k < |s| ==> Permutation(|s|, draws)[k] < |s|
    ensures forall k :: 0 <= k < |s| ==> Shuffled(s, draws)[k] == s[Permutation(|s|, draws)[k]]
  {
    if draws != [] {
      var d := draws[..|draws| - 1];
      ShuffledStep(s, draws);
      ShuffledStep(Indices(|s|), draws);
      ShuffledAt(s, d);
    } else {
      assert Permutation(|s|, draws) == Indices(|s|);
    }
  }

  /** The permutation mentions every position exactly once. */
  lemma PermutationIsPermutation(n: nat, draws: seq<nat>)
    requires ValidPrefix(n, draws)
    ensures multiset(Permutation(n, draws)) == multiset(Indices(n))
    ensures Distinct(Permutation(n, draws))
  {
    ShuffledPermutes(Indices(n), draws);
    ShuffledDistinct(Indices(n), draws);
  }

  /** The shuffle as random.shuffle performs it: in place, i from n-1 down to 1. */
  method ShuffleInPlace<T>(a: array<T>, draws: seq<nat>)
    requires ValidDraws(a.Length, draws)
    modifies a
    ensures a[..] == Shuffled(old(a[..]), draws)
  {
    var i := a.Length - 1;
    while i >= 1
      invariant 0 <= a.Length - 1 - i <= |draws|
      invariant a.Length == 0 || i >= 0
      invariant ValidPrefix(a.Length, draws[..a.Length - 1 - i])
      invariant a[..] == Shuffled(old(a[..]), draws[..a.Length - 1 - i])
    {
      var k := a.Length - 1 - i;
      var j := draws[k];
      ghost var before := a[..];
      a[i], a[j] := a[j], a[i];
      assert draws[..k + 1][..k] == draws[..k];
      assert a[..] == Swap(before, i, j);
      i := i - 1;
    }
    assert draws[..a.Length - 1 - i] == draws;
  }
}
