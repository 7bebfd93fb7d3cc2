/** `shuffleArray`: the Durstenfeld form of the Fisher-Yates shuffle, run on
    a copy of its argument. The random draws are supplied by the caller:
    `draws[i]` is the index `j` picked when the loop is at `i`, which
    `Math.floor(Math.random() * (i + 1))` keeps within `0..i`. */
module Shuffle {

  /** `p` lists each of `0..n-1` exactly once. */
  ghost predicate IsPermutation(p: seq<nat>, n: nat) {
    && |p| == n
    && (forall k :: 0 <= k < n ==> p[k] < n)
    && (forall k, l :: 0 <= k < l < n ==> p[k] != p[l])
  }

  /** A draw for each of the first `n` positions, each within the range
      `Math.random` yields; later draws are not used. */
  predicate ValidDraws(draws: seq<nat>, n: nat) {
    |draws| >= n && forall i :: 0 <= i < n ==> draws[i] <= i
  }

  /** Exchanges two positions of a sequence, which keeps its multiset. */
  function Swapped<T>(s: seq<T>, i: nat, j: nat): (t: seq<T>)
    requires i < |s| && j < |s|
    ensures |t| == |s| && multiset(t) == multiset(s)
  {
    s[i := s[j]][j := s[i]]
  }

  /** Exchanging two entries of a permutation gives a permutation. */
  lemma SwapKeepsPermutation(p: seq<nat>, n: nat, i: nat, j: nat)
    requires IsPermutation(p, n) && i < n && j < n
    ensures IsPermutation(Swapped(p, i, j), n)
  {
    var q := Swapped(p, i, j);
    forall k, l | 0 <= k < l < n ensures q[k] != q[l] {
      var k' := if k == i then j else if k == j then i else k;
      var l' := if l == i then j else if l == j then i else l;
      assert q[k] == p[k'] && q[l] == p[l'] && k' != l';
    }
  }

  /** `a[i], a[j] = a[j], a[i]`. */
  method Swap<T>(a: array<T>, i: nat, j: nat)
    requires i < a.Length && j < a.Length
    modifies a
    ensures a[..] == Swapped(old(a[..]), i, j)
  {
    a[i], a[j] := a[j], a[i];
  }

  /** The result is a rearrangement of `arr`: position `k` holds the element
      that was at `perm[k]`, and `perm` is a permutation, so the result has
      the same length and the same multiset of elements. The argument, a
      value, is left as it was. */
  method ShuffleArray<T>(arr: seq<T>, draws: seq<nat>) returns (r: seq<T>, ghost perm: seq<nat>)
    requires ValidDraws(draws, |arr|)
    ensures |r| == |arr| && multiset(r) == multiset(arr)
    ensures IsPermutation(perm, |arr|)
    ensures forall k :: 0 <= k < |arr| ==> r[k] == arr[perm[k]]
  {
    var a := new T[|arr|](k requires 0 <= k < |arr| => arr[k]);
    assert a[..] == arr;
    perm := seq(|arr|, k => k);
    var i := |arr| - 1;
    while i > 0
      invariant a.Length == |arr| && -1 <= i < |arr|
      invariant multiset(a[..]) == multiset(arr)
      invariant IsPermutation(perm, |arr|)
      invariant forall k :: 0 <= k < |arr| ==> a[k] == arr[perm[k]]
    {
      var j := draws[i];
      Swap(a, i, j);
      SwapKeepsPermutation(perm, |arr|, i, j);
      perm := Swapped(perm, i, j);
      assert forall k :: 0 <= k < |arr| ==> a[k] == a[..][k];
      i := i - 1;
    }
    r := a[..];
  }
}
