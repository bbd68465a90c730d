/** Rearranging a stretch of a sequence. */
module Shuffle {

  /** `s'` is `s` with the elements from `lo` to `hi` in another order. */
  ghost predicate Shuffled<T>(s: seq<T>, s': seq<T>, lo: int, hi: int) {
    && |s| == |s'| && 0 <= lo <= hi <= |s|
    && multiset(s[lo..hi]) == multiset(s'[lo..hi])
    && forall i :: 0 <= i < lo || hi <= i < |s| ==> s'[i] == s[i]
  }

  lemma ShuffledSelf<T>(s: seq<T>, lo: int, hi: int)
    requires 0 <= lo <= hi <= |s|
    ensures Shuffled(s, s, lo, hi)
  {
  }

  lemma ShuffledSame<T>(s: seq<T>, s': seq<T>, lo: int, hi: int)
    requires Shuffled(s, s', lo, hi)
    ensures |s| == |s'|
  {
  }

  lemma ShuffledTrans<T>(s: seq<T>, s': seq<T>, s'': seq<T>, lo: int, hi: int)
    requires Shuffled(s, s', lo, hi) && Shuffled(s', s'', lo, hi)
    ensures Shuffled(s, s'', lo, hi)
  {
    assert forall i :: 0 <= i < lo || hi <= i < |s| ==> s''[i] == s'[i] == s[i];
  }

  /** A rearranged part is a rearranged whole. */
  lemma ShuffledWiden<T>(s: seq<T>, s': seq<T>, lo: int, hi: int, lo': int, hi': int)
    requires Shuffled(s, s', lo, hi) && 0 <= lo' <= lo && hi <= hi' <= |s|
    ensures Shuffled(s, s', lo', hi')
  {
    assert s[lo'..hi'] == s[lo'..lo] + s[lo..hi] + s[hi..hi'];
    assert s'[lo'..hi'] == s'[lo'..lo] + s'[lo..hi] + s'[hi..hi'];
    assert s[lo'..lo] == s'[lo'..lo] && s[hi..hi'] == s'[hi..hi'];
  }

  lemma ShuffledSwap<T>(s: seq<T>, i: int, j: int, lo: int, hi: int)
    requires 0 <= lo <= i < hi <= |s| && lo <= j < hi
    ensures Shuffled(s, s[i := s[j]][j := s[i]], lo, hi)
  {
    var part, part' := s[lo..hi], s[i := s[j]][j := s[i]][lo..hi];
    assert part' == part[i - lo := part[j - lo]][j - lo := part[i - lo]];
  }

  /** Every element of a rearranged stretch was in the stretch before. */
  lemma ShuffledFrom<T>(s: seq<T>, s': seq<T>, lo: int, hi: int, i: int) returns (j: int)
    requires Shuffled(s, s', lo, hi) && lo <= i < hi
    ensures lo <= j < hi && s[j] == s'[i]
  {
    assert s'[i] == s'[lo..hi][i - lo];
    assert s'[i] in multiset(s[lo..hi]);
    assert s'[i] in s[lo..hi];
    var k :| 0 <= k < hi - lo && s[lo..hi][k] == s'[i];
    j := lo + k;
  }

  lemma ShuffledAll<T>(s: seq<T>, s': seq<T>)
    requires Shuffled(s, s', 0, |s|)
    ensures multiset(s) == multiset(s')
  {
    assert s[0..|s|] == s && s'[0..|s|] == s';
  }

  method Swap<T>(a: array<T>, i: nat, j: nat, ghost lo: nat, ghost hi: nat)
    requires lo <= i < hi <= a.Length && lo <= j < hi
    modifies a
    ensures a[..] == old(a[..])[i := old(a[j])][j := old(a[i])]
    ensures Shuffled(old(a[..]), a[..], lo, hi)
  {
    ShuffledSwap(a[..], i, j, lo, hi);
    a[i], a[j] := a[j], a[i];
    assert a[..] == old(a[..])[i := old(a[j])][j := old(a[i])];
  }
}
