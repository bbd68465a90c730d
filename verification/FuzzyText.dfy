/** Text, patterns and bonuses of the fuzzy matcher, and the prefilter that rejects hopeless texts.

    Characters are bytes.  `tolower` is that of the "C" locale. */
module FuzzyText {
  import opened Integers

  const SCORE_MATCH: int := 16
  const SCORE_GAP_START: int := -3
  const SCORE_GAP_EXTENSION: int := -1
  const BONUS_BOUNDARY: int := SCORE_MATCH / 2
  const BONUS_NON_WORD: int := SCORE_MATCH / 2
  const BONUS_CAMEL_123: int := BONUS_BOUNDARY + SCORE_GAP_EXTENSION
  const BONUS_CONSECUTIVE: int := -(SCORE_GAP_START + SCORE_GAP_EXTENSION)
  const BONUS_FIRST_CHAR_MULTIPLIER: int := 2

  datatype Class = NonWord | Lower | Upper | Number

  predicate IsLower(c: nat) { 'a' as nat <= c <= 'z' as nat }

  predicate IsUpper(c: nat) { 'A' as nat <= c <= 'Z' as nat }

  predicate IsDigit(c: nat) { '0' as nat <= c <= '9' as nat }

  function ClassOf(c: u8): Class {
    if IsLower(c) then Lower else if IsUpper(c) then Upper else if IsDigit(c) then Number else NonWord
  }

  function ToLower(c: u8): u8 {
    if IsUpper(c) then c + 32 else c
  }

  /** A text character as it is compared with the pattern. */
  function Fold(caseSensitive: bool, c: u8): u8 {
    if caseSensitive then c else ToLower(c)
  }

  function Folded(caseSensitive: bool, text: seq<u8>): (t: seq<u8>) {
    seq(|text|, i requires 0 <= i < |text| => Fold(caseSensitive, text[i]))
  }

  /** Without regard to case the 26 upper-case letters, and nothing else, become lower case. */
  lemma FoldedInNumbers(caseSensitive: bool, text: seq<u8>)
    ensures var t := Folded(caseSensitive, text);
            |t| == |text| && forall i :: 0 <= i < |t| ==>
                                           t[i] == if !caseSensitive &&
                                           65 <= text[i] <= 90 then text[i] + 32 else text[i]
  {
  }

  /** `bonus_for`: never negative, at most BONUS_BOUNDARY. */
  function BonusFor(prev: Class, cur: Class): (b: int)
    ensures 0 <= b <= BONUS_BOUNDARY
    ensures prev == NonWord || cur == NonWord ==> b == 8
    ensures (prev == Lower && cur == Upper) || (prev in {Lower, Upper} && cur == Number) ==> b == 7
    ensures prev != NonWord && cur in {Lower, Upper} && !(prev == Lower && cur == Upper) ==> b == 0
    ensures prev == cur == Number ==> b == 0
  {
    if prev == NonWord && cur != NonWord then BONUS_BOUNDARY
    else if (prev == Lower && cur == Upper) || (prev != Number && cur == Number) then BONUS_CAMEL_123
    else if cur == NonWord then BONUS_NON_WORD
    else 0
  }

  // ---------------------------------------------------------------- embeddings

  predicate Increasing(ps: seq<nat>) {
    forall i, j :: 0 <= i < j < |ps| ==> ps[i] < ps[j]
  }

  /** Positions in `t` from `lo` up to `hi` that spell `pat`. */
  predicate Embeds(t: seq<u8>, pat: seq<u8>, lo: int, hi: int, ps: seq<nat>) {
    && |ps| == |pat| && Increasing(ps)
    && forall k :: 0 <= k < |ps| ==> lo <= ps[k] < hi && ps[k] < |t| && t[ps[k]] == pat[k]
  }

  ghost predicate Subsequence(t: seq<u8>, pat: seq<u8>, lo: int, hi: int) {
    exists ps :: Embeds(t, pat, lo, hi, ps)
  }

  /** How many characters of `pat` the greedy scan of `t` from `lo` to `hi` has found. */
  function Found(t: seq<u8>, pat: seq<u8>, lo: nat, hi: nat): (n: nat)
    requires lo <= hi <= |t|
    ensures n <= |pat| && n <= hi - lo
    decreases hi
  {
    if lo == hi then 0
    else
      var n := Found(t, pat, lo, hi - 1);
      if n < |pat| && t[hi - 1] == pat[n] then n + 1 else n
  }

  lemma {:induction false} FoundMonotone(t: seq<u8>, pat: seq<u8>, lo: nat, mid: nat, hi: nat)
    requires lo <= mid <= hi <= |t|
    ensures Found(t, pat, lo, mid) <= Found(t, pat, lo, hi)
    decreases hi
  {
    if mid < hi {
      FoundMonotone(t, pat, lo, mid, hi - 1);
    }
  }

  /** The greedy scan finds as much as any embedding. */
  lemma {:induction false} FoundIsMost(t: seq<u8>, pat: seq<u8>, lo: nat, hi: nat, ps: seq<nat>)
    requires lo <= hi <= |t| && |ps| <= |pat| && Embeds(t, pat[..|ps|], lo, hi, ps)
    ensures |ps| <= Found(t, pat, lo, hi)
    decreases hi
  {
    if |ps| > 0 {
      var last := |ps| - 1;
      var rest := ps[..last];
      assert lo <= ps[last] < hi;
      assert Embeds(t, pat[..last], lo, ps[last], rest) by {
        assert pat[..|ps|][..last] == pat[..last];
      }
      FoundIsMost(t, pat, lo, ps[last], rest);
      assert t[ps[last]] == pat[last];
      FoundMonotone(t, pat, lo, ps[last] + 1, hi);
    }
  }

  /** What the greedy scan has found is an embedding. */
  lemma {:induction false} FoundEmbeds(t: seq<u8>, pat: seq<u8>, lo: nat, hi: nat) returns (ps: seq<nat>)
    requires lo <= hi <= |t|
    ensures Embeds(t, pat[..Found(t, pat, lo, hi)], lo, hi, ps)
    decreases hi
  {
    if lo == hi {
      ps := [];
    } else {
      ps := FoundEmbeds(t, pat, lo, hi - 1);
      var n := Found(t, pat, lo, hi - 1);
      if n < |pat| && t[hi - 1] == pat[n] {
        ps := ps + [hi - 1];
      }
    }
  }

  lemma {:induction false} FoundAll(t: seq<u8>, pat: seq<u8>, lo: nat, hi: nat)
    requires lo <= hi <= |t|
    ensures Found(t, pat, lo, hi) == |pat| <==> Subsequence(t, pat, lo, hi)
  {
    assert pat[..|pat|] == pat;
    if Found(t, pat, lo, hi) == |pat| {
      var ps := FoundEmbeds(t, pat, lo, hi);
    }
    if Subsequence(t, pat, lo, hi) {
      var ps :| Embeds(t, pat, lo, hi, ps);
      FoundIsMost(t, pat, lo, hi, ps);
    }
  }

  // ---------------------------------------------------------------- the prefilter

  /** The prefilter compares raw text bytes: a lower-case pattern letter also matches its upper case. */
  predicate MayMatch(caseSensitive: bool, c: u8, b: u8) {
    c == b || (!caseSensitive && IsLower(b) && c == b - 32)
  }

  lemma FoldMayMatch(caseSensitive: bool, c: u8, b: u8)
    requires Fold(caseSensitive, c) == b
    ensures MayMatch(caseSensitive, c, b)
  {
  }

  /** `index_byte` on the slice from `from` up to `end`. */
  method IndexByte(text: seq<u8>, from: nat, end: nat, b: u8) returns (idx: int)
    requires from <= end <= |text| <= INT32_MAX
    ensures idx == -1 || 0 <= idx < end - from
    ensures idx == -1 ==> forall i :: from <= i < end ==> text[i] != b
    ensures idx >= 0 ==> text[from + idx] == b && forall i :: from <= i < from + idx ==> text[i] != b
  {
    var i := from;
    while i < end
      invariant from <= i <= end && forall j :: from <= j < i ==> text[j] != b
    {
      if text[i] == b {
        return i - from;
      }
      i := i + 1;
    }
    return -1;
  }

  /** `try_skip`: the first position from `from` on that may match. */
  method TrySkip(text: seq<u8>, caseSensitive: bool, b: u8, from: nat) returns (idx: int)
    requires from <= |text| <= INT32_MAX
    ensures idx == -1 || from <= idx < |text|
    ensures idx == -1 ==> forall i :: from <= i < |text| ==> !MayMatch(caseSensitive, text[i], b)
    ensures idx >= 0 ==> MayMatch(caseSensitive, text[idx], b) &&
                         forall i :: from <= i < idx ==> !MayMatch(caseSensitive, text[i], b)
  {
    idx := IndexByte(text, from, |text|, b);
    if idx == 0 {
      return from;
    }
    if !caseSensitive && IsLower(b) {
      var end := |text|;
      if idx > 0 {
        end := from + idx;
      }
      var uidx := IndexByte(text, from, end, b - 32);
      if uidx >= 0 {
        idx := uidx;
      }
    }
    if idx < 0 {
      return -1;
    }
    return from + idx;
  }

  /** `ascii_fuzzy_index` never rejects a text that contains the pattern, and what it skips is not needed:
      every embedding lies behind the index it returns. */
  method AsciiFuzzyIndex(text: seq<u8>, pattern: seq<u8>, caseSensitive: bool) returns (first: int)
    requires |text| < INT32_MAX
    ensures first == -1 || 0 <= first <= |text|
    ensures first == -1 ==> !Subsequence(Folded(caseSensitive, text), pattern, 0, |text|)
    ensures first >= 0 && |pattern| > 0 ==>
              forall i :: 0 <= i < |text| && Folded(caseSensitive, text)[i] == pattern[0] ==> first == 0 || first < i
  {
    ghost var t := Folded(caseSensitive, text);
    first := 0;
    var idx := 0;
    var pidx := 0;
    while pidx < |pattern|
      invariant 0 <= pidx <= |pattern| && 0 <= idx <= |text| && 0 <= first <= |text|
      invariant Found(t, pattern, 0, idx) <= pidx && (pidx == 0 ==> idx == first == 0)
      invariant pidx > 0 ==> forall i :: 0 <= i < |text| && t[i] == pattern[0] ==> first == 0 || first < i
    {
      ghost var from := idx;
      idx := TrySkip(text, caseSensitive, pattern[pidx], idx);
      if idx < 0 {
        NotFurther(text, caseSensitive, pattern, from, |text|, pidx);
        FoundAll(t, pattern, 0, |text|);
        return -1;
      }
      NotFurther(text, caseSensitive, pattern, from, idx, pidx);
      if pidx == 0 && idx > 0 {
        first := idx - 1;
      }
      if pidx == 0 {
        forall i | 0 <= i < |text| && t[i] == pattern[0]
          ensures idx <= i
        {
          FoldMayMatch(caseSensitive, text[i], pattern[0]);
        }
      }
      idx := idx + 1;
      pidx := pidx + 1;
    }
  }

  /** Where nothing may match, the greedy scan stands still. */
  lemma {:induction false} NotFurther(text: seq<u8>, caseSensitive: bool, pattern: seq<u8>, from: nat, end: nat,
                                      pidx: nat)
    requires from <= end <= |text| && pidx < |pattern|
    requires Found(Folded(caseSensitive, text), pattern, 0, from) <= pidx
    requires forall i :: from <= i < end ==> !MayMatch(caseSensitive, text[i], pattern[pidx])
    ensures Found(Folded(caseSensitive, text), pattern, 0, end) <= pidx
    decreases end
  {
    if from < end {
      NotFurther(text, caseSensitive, pattern, from, end - 1, pidx);
      if Fold(caseSensitive, text[end - 1]) == pattern[pidx] {
        FoldMayMatch(caseSensitive, text[end - 1], pattern[pidx]);
      }
    }
  }

  /** Characters in front of the first occurrence of the first pattern character do not matter. */
  lemma SkipFront(t: seq<u8>, pat: seq<u8>, lo: nat)
    requires |pat| > 0 && lo <= |t| && forall i :: 0 <= i < |t| && t[i] == pat[0] ==> lo <= i
    ensures Subsequence(t, pat, 0, |t|) <==> Subsequence(t, pat, lo, |t|)
  {
    if Subsequence(t, pat, 0, |t|) {
      var ps :| Embeds(t, pat, 0, |t|, ps);
      assert lo <= ps[0];
      assert Embeds(t, pat, lo, |t|, ps);
    }
    if Subsequence(t, pat, lo, |t|) {
      var ps :| Embeds(t, pat, lo, |t|, ps);
      assert Embeds(t, pat, 0, |t|, ps);
    }
  }

  // ---------------------------------------------------------------- positions that leave no gap

  lemma {:induction false} AtLeast(ps: seq<nat>, s: nat, k: nat)
    requires Increasing(ps) && k < |ps| && forall i :: 0 <= i < |ps| ==> s <= ps[i]
    ensures ps[k] >= s + k
  {
    if k > 0 {
      AtLeast(ps, s, k - 1);
    }
  }

  lemma {:induction false} AtMost(ps: seq<nat>, hi: nat, k: nat)
    requires Increasing(ps) && k < |ps| && forall i :: 0 <= i < |ps| ==> ps[i] < hi
    ensures ps[k] + |ps| <= hi + k
    decreases |ps| - k
  {
    if k + 1 < |ps| {
      AtMost(ps, hi, k + 1);
    }
  }

  /** Strictly increasing positions that fill a span are its positions. */
  lemma {:induction false} NoRoom(ps: seq<nat>, s: nat)
    requires Increasing(ps) && forall i :: 0 <= i < |ps| ==> s <= ps[i] < s + |ps|
    ensures ps == seq(|ps|, i => s + i)
  {
    forall k | 0 <= k < |ps|
      ensures ps[k] == s + k
    {
      AtLeast(ps, s, k);
      AtMost(ps, s + |ps|, k);
    }
  }
}
