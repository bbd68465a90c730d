/** The two-pass greedy matcher: the earliest end, and for it the latest start. */
module FuzzyV1 {
  import opened Integers
  import opened FuzzyText
  import opened FuzzyPoints

  datatype Result = Result(start: int, end: int, score: int)

  const NO_MATCH := Result(-1, -1, 0)

  // ---------------------------------------------------------------- the backward pass

  /** How many characters of `pat`, from its end, the scan of `t` from `hi` down to `lo` has found. */
  function FoundBack(t: seq<u8>, pat: seq<u8>, lo: nat, hi: nat): (n: nat)
    requires lo <= hi <= |t|
    ensures n <= |pat|
    decreases hi - lo
  {
    if lo == hi then 0
    else
      var n := FoundBack(t, pat, lo + 1, hi);
      if n < |pat| && t[lo] == pat[|pat| - 1 - n] then n + 1 else n
  }

  lemma {:induction false} FoundBackMonotone(t: seq<u8>, pat: seq<u8>, lo: nat, mid: nat, hi: nat)
    requires lo <= mid <= hi <= |t|
    ensures FoundBack(t, pat, mid, hi) <= FoundBack(t, pat, lo, hi)
    decreases mid - lo
  {
    if lo < mid {
      FoundBackMonotone(t, pat, lo + 1, mid, hi);
    }
  }

  /** The backward scan finds as much as any embedding of an end of the pattern. */
  lemma {:induction false} FoundBackIsMost(t: seq<u8>, pat: seq<u8>, lo: nat, hi: nat, ps: seq<nat>)
    requires lo <= hi <= |t| && |ps| <= |pat| && Embeds(t, pat[|pat| - |ps|..], lo, hi, ps)
    ensures |ps| <= FoundBack(t, pat, lo, hi)
    decreases |ps|
  {
    if |ps| > 0 {
      var rest := ps[1..];
      assert lo <= ps[0] < hi && t[ps[0]] == pat[|pat| - |ps|];
      assert Embeds(t, pat[|pat| - |rest|..], ps[0] + 1, hi, rest) by {
        assert pat[|pat| - |ps|..][1..] == pat[|pat| - |rest|..];
      }
      FoundBackIsMost(t, pat, ps[0] + 1, hi, rest);
      FoundBackMonotone(t, pat, lo, ps[0], hi);
    }
  }

  lemma {:induction false} BackNone(t: seq<u8>, pat: seq<u8>, lo: nat, hi: nat)
    requires lo <= hi <= |t| && FoundBack(t, pat, lo, hi) < |pat|
    ensures !Subsequence(t, pat, lo, hi)
  {
    if Subsequence(t, pat, lo, hi) {
      var ps :| Embeds(t, pat, lo, hi, ps);
      assert pat[0..] == pat;
      FoundBackIsMost(t, pat, lo, hi, ps);
    }
  }

  // ---------------------------------------------------------------- the score of an alignment

  /** `bonus_at`. */
  function BonusAt(text: seq<u8>, p: nat): (b: int)
    requires p < |text|
    ensures 0 <= b <= BONUS_BOUNDARY
  {
    BonusFor(if p > 0 then ClassOf(text[p - 1]) else NonWord, ClassOf(text[p]))
  }

  predicate Continues(ps: seq<nat>, k: nat)
    requires k < |ps|
  {
    k > 0 && ps[k] == ps[k - 1] + 1
  }

  /** The bonus that a run of adjacent matches passes on: that of its first character, or of its last
      word boundary. */
  function RunBonus(text: seq<u8>, ps: seq<nat>, k: nat): (b: int)
    requires k < |ps| && forall i :: 0 <= i <= k ==> ps[i] < |text|
    ensures 0 <= b <= BONUS_BOUNDARY
  {
    var own := BonusAt(text, ps[k]);
    if Continues(ps, k) && own != BONUS_BOUNDARY then RunBonus(text, ps, k - 1) else own
  }

  function Max(a: int, b: int): int { if a >= b then a else b }

  function MatchBonus(text: seq<u8>, ps: seq<nat>, k: nat): (b: int)
    requires k < |ps| && forall i :: 0 <= i <= k ==> ps[i] < |text|
    ensures 0 <= b <= BONUS_BOUNDARY
  {
    var own := BonusAt(text, ps[k]);
    if Continues(ps, k) then Max(Max(own, RunBonus(text, ps, k)), BONUS_CONSECUTIVE) else own
  }

  function GapPenalty(n: nat): int {
    if n == 0 then 0 else SCORE_GAP_START + (n - 1) * SCORE_GAP_EXTENSION
  }

  /** The score of the first `n` matches of an alignment. */
  function Score(text: seq<u8>, ps: seq<nat>, n: nat): (s: int)
    requires n <= |ps| && Increasing(ps) && forall i :: 0 <= i < n ==> ps[i] < |text|
    ensures s <= if n == 0 then 0 else 24 * n + 8
  {
    if n == 0 then 0
    else
      var k := n - 1;
      Score(text, ps, k) + SCORE_MATCH +
      (if k == 0 then MatchBonus(text, ps, k) * BONUS_FIRST_CHAR_MULTIPLIER
       else MatchBonus(text, ps, k) + GapPenalty(ps[k] - ps[k - 1] - 1))
  }

  lemma {:induction false} RunBonusPrefix(text: seq<u8>, ps: seq<nat>, qs: seq<nat>, k: nat)
    requires k < |ps| <= |qs| && qs[..|ps|] == ps && forall i :: 0 <= i <= k ==> ps[i] < |text|
    ensures forall i :: 0 <= i <= k ==> qs[i] == ps[i]
    ensures RunBonus(text, qs, k) == RunBonus(text, ps, k) && MatchBonus(text, qs, k) == MatchBonus(text, ps, k)
    decreases k
  {
    assert forall i :: 0 <= i <= k ==> qs[i] == qs[..|ps|][i];
    if k > 0 {
      RunBonusPrefix(text, ps, qs, k - 1);
    }
  }

  /** The score of the first matches does not depend on the later ones. */
  lemma {:induction false} ScorePrefix(text: seq<u8>, ps: seq<nat>, qs: seq<nat>, n: nat)
    requires n <= |ps| <= |qs| && qs[..|ps|] == ps && Increasing(ps) && Increasing(qs)
    requires forall i :: 0 <= i < n ==> ps[i] < |text|
    ensures forall i :: 0 <= i < n ==> qs[i] == ps[i]
    ensures Score(text, qs, n) == Score(text, ps, n)
    decreases n
  {
    if n > 0 {
      ScorePrefix(text, ps, qs, n - 1);
      RunBonusPrefix(text, ps, qs, n - 1);
    }
  }

  /** One more match. */
  lemma {:induction false} ScoreNext(text: seq<u8>, ps: seq<nat>, p: nat)
    requires Increasing(ps + [p]) && p < |text| && forall i :: 0 <= i < |ps| ==> ps[i] < |text|
    ensures var qs, k := ps + [p], |ps|;
            Increasing(ps) && (k > 0 ==> ps[k - 1] < p) && Score(text, qs, k + 1) == Score(text, ps, k) + SCORE_MATCH +
            (if k == 0 then MatchBonus(text, qs, k) * BONUS_FIRST_CHAR_MULTIPLIER
             else MatchBonus(text, qs, k) + GapPenalty(p - ps[k - 1] - 1))
  {
    var qs := ps + [p];
    assert qs[..|ps|] == ps && qs[|ps|] == p;
    assert |ps| > 0 ==> qs[|ps| - 1] == ps[|ps| - 1];
    assert forall i, j :: 0 <= i < j < |ps| ==> ps[i] == qs[i] && ps[j] == qs[j];
    ScorePrefix(text, ps, qs, |ps|);
  }

  lemma {:induction false} NextBonus(text: seq<u8>, ps: seq<nat>, p: nat)
    requires p < |text| && forall i :: 0 <= i < |ps| ==> ps[i] < |text|
    ensures var qs, k := ps + [p], |ps|;
            var adjacent, own := k > 0 && p == ps[k - 1] + 1, BonusAt(text, p);
            var run := if adjacent && own != BONUS_BOUNDARY then RunBonus(text, ps, k - 1) else own;
            (forall i :: 0 <= i <= k ==> qs[i] < |text|) && RunBonus(text, qs, k) == run &&
            MatchBonus(text, qs, k) == if adjacent then Max(Max(own, run), BONUS_CONSECUTIVE) else own
  {
    var qs, k := ps + [p], |ps|;
    assert qs[..k] == ps;
    if k > 0 {
      RunBonusPrefix(text, ps, qs, k - 1);
    }
  }

  // ---------------------------------------------------------------- the score in numbers

  /** What a bonus is, byte by byte. */
  lemma BonusInNumbers(text: seq<u8>, p: nat)
    requires p < |text|
    ensures p == 0 ==> BonusAt(text, p) == 8
    ensures p > 0 ==>
              var a, b := text[p - 1], text[p];
              var letter, word := 65 <= a <= 90 || 97 <= a <= 122, 48 <= b <= 57 || 65 <= b <= 90 || 97 <= b <= 122;
              BonusAt(text, p) ==
              if !word || !(letter || 48 <= a <= 57) then 8
              else if (97 <= a <= 122 && 65 <= b <= 90) || (letter && 48 <= b <= 57) then 7
              else 0
    ensures BonusAt(text, p) == Place(text, p)
  {
  }

  lemma {:induction false} RunBonusInNumbers(text: seq<u8>, ps: seq<nat>, k: nat)
    requires k < |ps| && Inside(text, ps, k + 1)
    ensures RunBonus(text, ps, k) == if EdgeInRun(text, ps, k) then 8 else Place(text, ps[RunStart(ps, k)])
    decreases k
  {
    hide BonusAt, Place, WordEdge;
    BonusInNumbers(text, ps[k]);
    PlaceAtEdge(text, ps[k]);
    if Continues(ps, k) {
      RunBonusInNumbers(text, ps, k - 1);
      assert RunStart(ps, k) == RunStart(ps, k - 1);
      if EdgeInRun(text, ps, k - 1) {
        var j :| RunStart(ps, k - 1) <= j <= k - 1 && WordEdge(text, ps[j]);
        assert EdgeInRun(text, ps, k);
      }
    } else if EdgeInRun(text, ps, k) {
      assert RunStart(ps, k) == k;
    }
  }

  lemma PlaceAtEdge(text: seq<u8>, p: nat)
    requires p < |text|
    ensures WordEdge(text, p) <==> Place(text, p) == 8
    ensures Place(text, p) == 7 <==> Hump(text, p) && !WordEdge(text, p)
    ensures Place(text, p) in {0, 7, 8}
  {
  }

  lemma {:induction false} MatchBonusInNumbers(text: seq<u8>, ps: seq<nat>, k: nat)
    requires k < |ps| && Inside(text, ps, k + 1)
    ensures MatchBonus(text, ps, k) == Gain(text, ps, k)
  {
    hide BonusAt, Place, WordEdge, Hump, RunBonus;
    var h := RunStart(ps, k);
    BonusInNumbers(text, ps[k]);
    PlaceAtEdge(text, ps[k]);
    PlaceAtEdge(text, ps[h]);
    RunBonusInNumbers(text, ps, k);
    if WordEdge(text, ps[k]) || WordEdge(text, ps[h]) {
      assert EdgeInRun(text, ps, k);
    }
  }

  lemma {:induction false} IncreasingInside(text: seq<u8>, ps: seq<nat>, n: nat)
    requires n <= |ps| && Increasing(ps) && forall i :: 0 <= i < n ==> ps[i] < |text|
    ensures Inside(text, ps, n)
  {
  }

  /** The score of an alignment: 16 for each match, what the places are worth, the first one twice, and
      minus g + 2 for each gap of g > 0 characters. */
  lemma {:induction false} ScoreInNumbers(text: seq<u8>, ps: seq<nat>, n: nat)
    requires n <= |ps| && Increasing(ps) && forall i :: 0 <= i < n ==> ps[i] < |text|
    ensures Inside(text, ps, n)
    ensures Score(text, ps, n) ==
            if n == 0 then 0 else 16 * n + Gains(text, ps, n) + Place(text, ps[0]) - Gaps(ps, n)
    decreases n
  {
    hide MatchBonus, Gain, BonusAt, Place;
    IncreasingInside(text, ps, n);
    if n > 0 {
      ScoreInNumbers(text, ps, n - 1);
      MatchBonusInNumbers(text, ps, n - 1);
      if n == 1 {
        FirstGain(text, ps);
      }
    }
  }

  lemma {:induction false} FirstGain(text: seq<u8>, ps: seq<nat>)
    requires |ps| > 0 && Inside(text, ps, 1)
    ensures Gain(text, ps, 0) == Place(text, ps[0])
  {
  }

  /** Of an embedding. */
  lemma {:induction false} ScoreIsPoints(t: seq<u8>, pat: seq<u8>, lo: int, hi: int, text: seq<u8>, ps: seq<nat>)
    requires Embeds(t, pat, lo, hi, ps) && hi <= |text|
    ensures Increasing(ps) && (forall i :: 0 <= i < |ps| ==> ps[i] < |text|)
    ensures Inside(text, ps, |ps|) && Score(text, ps, |ps|) == Points(text, ps)
  {
    hide Score, Gains, Gaps, Place;
    ScoreInNumbers(text, ps, |ps|);
  }

  /** One more match behind `ps`: 16 and, next to the last match, at least 4; else what its place is worth, less
      3 for opening the gap and 1 for every further character in it. */
  lemma {:induction false} NextMatchInNumbers(text: seq<u8>, ps: seq<nat>, p: nat)
    requires |ps| > 0 && Increasing(ps + [p]) && p < |text| && forall i :: 0 <= i < |ps| ==> ps[i] < |text|
    ensures Increasing(ps) && ps[|ps| - 1] < p
    ensures var more, skipped := Score(text, ps + [p], |ps| + 1) - Score(text, ps, |ps|), p - ps[|ps| - 1] - 1;
            if skipped == 0 then more in {20, 23, 24} else more == 16 + Place(text, p) - 3 - (skipped - 1)
  {
    hide MatchBonus, BonusAt, Place, Score, RunBonus;
    ScoreNext(text, ps, p);
    NextBonus(text, ps, p);
    BonusInNumbers(text, p);
    BonusInNumbers(text, ps[|ps| - 1]);
    PlaceAtEdge(text, p);
    RunBonusRange(text, ps, |ps| - 1);
  }

  lemma {:induction false} RunBonusRange(text: seq<u8>, ps: seq<nat>, k: nat)
    requires k < |ps| && forall i :: 0 <= i <= k ==> ps[i] < |text|
    ensures RunBonus(text, ps, k) in {0, 7, 8}
    decreases k
  {
    hide BonusAt, Place;
    BonusInNumbers(text, ps[k]);
    PlaceAtEdge(text, ps[k]);
    if Continues(ps, k) {
      RunBonusRange(text, ps, k - 1);
    }
  }

  /** The text with one more character at `q`, and the positions of an alignment in it. */
  function Inserted(text: seq<u8>, q: nat, b: u8): seq<u8>
    requires q <= |text|
  {
    text[..q] + [b] + text[q..]
  }

  function Moved(ps: seq<nat>, q: nat): (qs: seq<nat>) {
    seq(|ps|, i requires 0 <= i < |ps| => if ps[i] < q then ps[i] else ps[i] + 1)
  }

  /** One more character inside a gap costs exactly 1, whatever it is. */
  lemma {:induction false} WiderGap(text: seq<u8>, ps: seq<nat>, q: nat, b: u8, k: nat)
    requires Increasing(ps) && (forall i :: 0 <= i < |ps| ==> ps[i] < |text|)
    requires 0 < k < |ps| && ps[k - 1] < q < ps[k]
    ensures var text', qs := Inserted(text, q, b), Moved(ps, q);
            Increasing(qs) && (forall i :: 0 <= i < |qs| ==> qs[i] < |text'|) &&
            Score(text', qs, |qs|) == Score(text, ps, |ps|) - 1
  {
    hide Score;
    WiderGapFrom(text, ps, q, b, k, |ps|);
  }

  lemma {:induction false} WiderGapFrom(text: seq<u8>, ps: seq<nat>, q: nat, b: u8, k: nat, n: nat)
    requires Increasing(ps) && (forall i :: 0 <= i < |ps| ==> ps[i] < |text|)
    requires 0 < k < |ps| && ps[k - 1] < q < ps[k] && n <= |ps|
    ensures var text', qs := Inserted(text, q, b), Moved(ps, q);
            Increasing(qs) && (forall i :: 0 <= i < |qs| ==> qs[i] < |text'|) &&
            Score(text', qs, n) == Score(text, ps, n) - if n <= k then 0 else 1
    decreases n
  {
    hide MatchBonus, Score, GapPenalty, Inserted, Moved;
    var text', qs := Inserted(text, q, b), Moved(ps, q);
    MovedIncreasing(ps, q);
    MovedInside(text, ps, q, b);
    ScoreStep(text, ps, n);
    ScoreStep(text', qs, n);
    if n > 0 {
      WiderGapFrom(text, ps, q, b, k, n - 1);
      SameMatchBonus(text, ps, q, b, k, n - 1);
      if n > 1 {
        SameSide(ps, q, k, n - 1);
        SameSide(ps, q, k, n - 2);
        WiderPenalty(ps[n - 1] - ps[n - 2] - 1);
      }
    }
  }

  lemma WiderPenalty(n: nat)
    ensures n > 0 ==> GapPenalty(n + 1) == GapPenalty(n) - 1
  {
  }

  lemma {:induction false} ScoreStep(text: seq<u8>, ps: seq<nat>, n: nat)
    requires n <= |ps| && Increasing(ps) && forall i :: 0 <= i < n ==> ps[i] < |text|
    ensures Score(text, ps, n) ==
            if n == 0 then 0
            else if n == 1 then 16 + MatchBonus(text, ps, 0) * 2
            else Score(text, ps, n - 1) + 16 + MatchBonus(text, ps, n - 1) + GapPenalty(ps[n - 1] - ps[n - 2] - 1)
  {
    hide MatchBonus, GapPenalty;
  }

  lemma MovedInside(text: seq<u8>, ps: seq<nat>, q: nat, b: u8)
    requires Increasing(ps) && q <= |text| && forall i :: 0 <= i < |ps| ==> ps[i] < |text|
    ensures |Moved(ps, q)| == |ps| && forall i :: 0 <= i < |ps| ==> Moved(ps, q)[i] < |Inserted(text, q, b)|
  {
  }

  lemma MovedIncreasing(ps: seq<nat>, q: nat)
    requires Increasing(ps)
    ensures Increasing(Moved(ps, q))
  {
  }

  lemma SameSide(ps: seq<nat>, q: nat, k: nat, i: nat)
    requires Increasing(ps) && 0 < k < |ps| && ps[k - 1] < q < ps[k] && i < |ps|
    ensures Moved(ps, q)[i] == if i < k then ps[i] else ps[i] + 1
  {
  }

  lemma {:induction false} SameMatchBonus(text: seq<u8>, ps: seq<nat>, q: nat, b: u8, k: nat, i: nat)
    requires Increasing(ps) && (forall i :: 0 <= i < |ps| ==> ps[i] < |text|)
    requires 0 < k < |ps| && ps[k - 1] < q < ps[k] && i < |ps|
    ensures var text', qs := Inserted(text, q, b), Moved(ps, q);
            (forall i :: 0 <= i < |qs| ==> qs[i] < |text'|) &&
            RunBonus(text', qs, i) == RunBonus(text, ps, i) && MatchBonus(text', qs, i) == MatchBonus(text, ps, i)
    decreases i
  {
    hide BonusAt;
    var text', qs := Inserted(text, q, b), Moved(ps, q);
    SameSide(ps, q, k, i);
    SameBonus(text, ps, q, b, k, i);
    if i > 0 {
      SameSide(ps, q, k, i - 1);
      SameMatchBonus(text, ps, q, b, k, i - 1);
    }
  }

  lemma {:induction false} SameBonus(text: seq<u8>, ps: seq<nat>, q: nat, b: u8, k: nat, i: nat)
    requires Increasing(ps) && (forall i :: 0 <= i < |ps| ==> ps[i] < |text|)
    requires 0 < k < |ps| && ps[k - 1] < q < ps[k] && i < |ps|
    ensures var text', qs := Inserted(text, q, b), Moved(ps, q);
            qs[i] < |text'| && BonusAt(text', qs[i]) == BonusAt(text, ps[i])
  {
    var text', qs := Inserted(text, q, b), Moved(ps, q);
    SameSide(ps, q, k, i);
    assert i >= k ==> ps[i] > q;
    assert text'[qs[i]] == text[ps[i]];
    assert ps[i] > 0 ==> text'[qs[i] - 1] == text[ps[i] - 1];
  }

  /** Score, run length and run bonus after the characters up to `idx`. */
  ghost predicate Tally(text: seq<u8>, ps: seq<nat>, lo: nat, idx: nat, score: int, consecutive: nat, inGap: bool,
                        firstBonus: int)
    requires Increasing(ps) && idx <= |text| && forall i :: 0 <= i < |ps| ==> lo <= ps[i] < idx
  {
    var n := |ps|;
    if n == 0 then score == 0 && consecutive == 0 && idx == lo
    else
      var gap := idx - 1 - ps[n - 1];
      score == Score(text, ps, n) + GapPenalty(gap) && (consecutive > 0 <==> gap == 0) && (inGap <==> gap > 0) &&
      (gap == 0 ==> firstBonus == RunBonus(text, ps, n - 1))
  }

  lemma TallyMatch(text: seq<u8>, ps: seq<nat>, lo: nat, idx: nat, score: int, consecutive: nat, inGap: bool,
                   firstBonus: int)
    requires lo <= idx < |text| && Increasing(ps + [idx]) && Increasing(ps)
    requires forall i :: 0 <= i < |ps| ==> lo <= ps[i] < idx
    requires Tally(text, ps, lo, idx, score, consecutive, inGap, firstBonus)
    ensures var own := BonusAt(text, idx);
            var first := if consecutive == 0 || own == BONUS_BOUNDARY then own else firstBonus;
            var bonus := if consecutive == 0 then own else Max(Max(own, first), BONUS_CONSECUTIVE);
            var gain := SCORE_MATCH + bonus * if |ps| == 0 then BONUS_FIRST_CHAR_MULTIPLIER else 1;
            (forall i :: 0 <= i < |ps + [idx]| ==> lo <= (ps + [idx])[i] < idx + 1) &&
            Tally(text, ps + [idx], lo, idx + 1, score + gain, consecutive + 1, false, first)
  {
    hide BonusAt, RunBonus, MatchBonus, Score;
    ScoreNone(text, ps);
    ScoreNext(text, ps, idx);
    NextBonus(text, ps, idx);
    assert (ps + [idx])[|ps|] == idx;
  }

  lemma {:induction false} ScoreNone(text: seq<u8>, ps: seq<nat>)
    requires Increasing(ps)
    ensures Score(text, ps, 0) == 0
  {
  }

  lemma {:induction false} TallyEnd(text: seq<u8>, ps: seq<nat>, lo: nat, idx: nat, score: int, consecutive: nat,
                                    inGap: bool,
                                    firstBonus: int)
    requires Increasing(ps) && idx <= |text| && forall i :: 0 <= i < |ps| ==> lo <= ps[i] < idx
    requires Tally(text, ps, lo, idx, score, consecutive, inGap, firstBonus)
    requires |ps| > 0 && ps[|ps| - 1] == idx - 1
    ensures score == Score(text, ps, |ps|)
  {
    hide Score, RunBonus;
  }

  lemma TallyStart(text: seq<u8>, lo: nat)
    requires lo <= |text|
    ensures Increasing([]) && Tally(text, [], lo, lo, 0, 0, false, 0)
  {
  }

  lemma GrownIncreasing(ps: seq<nat>, lo: nat, p: nat)
    requires Increasing(ps) && forall i :: 0 <= i < |ps| ==> lo <= ps[i] < p
    ensures Increasing(ps + [p])
  {
  }

  lemma {:induction false} FoundStart(t: seq<u8>, pat: seq<u8>, lo: nat)
    requires lo <= |t|
    ensures Found(t, pat, lo, lo) == 0
  {
  }

  lemma FoundNext(t: seq<u8>, pat: seq<u8>, lo: nat, idx: nat)
    requires lo <= idx < |t|
    ensures var n := Found(t, pat, lo, idx);
            Found(t, pat, lo, idx + 1) == if n < |pat| && t[idx] == pat[n] then n + 1 else n
  {
  }

  lemma TallyGap(text: seq<u8>, ps: seq<nat>, lo: nat, idx: nat, score: int, consecutive: nat, inGap: bool,
                 firstBonus: int)
    requires lo <= idx < |text| && |ps| > 0 && Increasing(ps)
    requires forall i :: 0 <= i < |ps| ==> lo <= ps[i] < idx
    requires Tally(text, ps, lo, idx, score, consecutive, inGap, firstBonus)
    ensures Tally(text, ps, lo, idx + 1, score + if inGap then SCORE_GAP_EXTENSION else SCORE_GAP_START, 0, true, 0)
  {
    hide BonusAt, RunBonus, MatchBonus, Score;
  }

  /** `calculate_score` of the span from `sidx` to `eidx`.  It never looks for a character behind the end
      of the pattern, because the whole pattern is found no earlier than at the end of the span. */
  method CalculateScore(caseSensitive: bool, text: seq<u8>, pattern: seq<u8>, sidx: nat, eidx: nat)
    returns (score: int, pos: seq<nat>)
    requires sidx < eidx <= |text| && |pattern| > 0 && Fold(caseSensitive, text[sidx]) == pattern[0]
    requires forall e :: sidx <= e < eidx ==> Found(Folded(caseSensitive, text), pattern, sidx, e) < |pattern|
    requires Found(Folded(caseSensitive, text), pattern, sidx, eidx) == |pattern|
    ensures Embeds(Folded(caseSensitive, text), pattern, sidx, eidx, pos)
    ensures pos[0] == sidx && pos[|pos| - 1] == eidx - 1
    ensures score == Score(text, pos, |pos|) && Inside(text, pos, |pos|) && score == Points(text, pos)
  {
    hide Score, RunBonus, MatchBonus, Tally, Found, Increasing, ClassOf, Points, Inside;
    ghost var t := Folded(caseSensitive, text);
    var pidx := 0;
    FoundStart(t, pattern, sidx);
    TallyStart(text, sidx);
    var consecutive, inGap, firstBonus := 0, false, 0;
    var prevClass := NonWord;
    if sidx > 0 {
      prevClass := ClassOf(text[sidx - 1]);
    }
    score, pos := 0, [];
    var idx := sidx;
    while idx < eidx
      invariant sidx <= idx <= eidx && pidx == |pos| == Found(t, pattern, sidx, idx)
      invariant Increasing(pos) && forall k :: 0 <= k < |pos| ==> sidx <= pos[k] < idx && t[pos[k]] == pattern[k]
      invariant prevClass == if idx > 0 then ClassOf(text[idx - 1]) else NonWord
      invariant Tally(text, pos, sidx, idx, score, consecutive, inGap, firstBonus)
      invariant if pidx > 0 then pos[0] == sidx else idx == sidx
      invariant pidx == |pattern| ==> pos[pidx - 1] == idx - 1
    {
      var c, cls := Fold(caseSensitive, text[idx]), ClassOf(text[idx]);
      FoundNext(t, pattern, sidx, idx);
      if c == pattern[pidx] {
        ghost var before := pos;
        pos := pos + [idx];
        GrownIncreasing(before, sidx, idx);
        TallyMatch(text, before, sidx, idx, score, consecutive, inGap, firstBonus);
        var bonus := BonusFor(prevClass, cls);
        if consecutive == 0 {
          firstBonus := bonus;
        } else {
          if bonus == BONUS_BOUNDARY {
            firstBonus := bonus;
          }
          bonus := Max(Max(bonus, firstBonus), BONUS_CONSECUTIVE);
        }
        score := score + SCORE_MATCH;
        if pidx == 0 {
          score := score + bonus * BONUS_FIRST_CHAR_MULTIPLIER;
        } else {
          score := score + bonus;
        }
        inGap := false;
        consecutive := consecutive + 1;
        pidx := pidx + 1;
      } else {
        TallyGap(text, pos, sidx, idx, score, consecutive, inGap, firstBonus);
        score := score + if inGap then SCORE_GAP_EXTENSION else SCORE_GAP_START;
        inGap := true;
        consecutive := 0;
        firstBonus := 0;
      }
      prevClass := cls;
      idx := idx + 1;
    }
    TallyEnd(text, pos, sidx, idx, score, consecutive, inGap, firstBonus);
    ScoreIsPoints(t, pattern, sidx, eidx, text, pos);
  }

  // ---------------------------------------------------------------- the matcher

  /** The forward pass: the earliest end of an embedding, and the first place where one can start. */
  method ForwardPass(caseSensitive: bool, text: seq<u8>, pattern: seq<u8>) returns (sidx: int, eidx: int)
    requires |pattern| > 0
    ensures var t := Folded(caseSensitive, text);
            if eidx < 0 then Found(t, pattern, 0, |t|) < |pattern|
            else 0 <= sidx < eidx <= |t| && Found(t, pattern, 0, eidx) == |pattern| &&
                 (forall e :: 0 <= e < eidx ==> Found(t, pattern, 0, e) < |pattern|) &&
                 t[sidx] == pattern[0] && forall i :: 0 <= i < sidx ==> t[i] != pattern[0]
  {
    hide Found;
    ghost var t := Folded(caseSensitive, text);
    FoundStart(t, pattern, 0);
    sidx, eidx := -1, -1;
    var pidx, idx := 0, 0;
    while idx < |text|
      invariant 0 <= idx <= |text| && pidx == Found(t, pattern, 0, idx) < |pattern| && eidx == -1
      invariant forall e :: 0 <= e <= idx ==> Found(t, pattern, 0, e) < |pattern|
      invariant if pidx == 0 then sidx == -1 && forall i :: 0 <= i < idx ==> t[i] != pattern[0]
                else 0 <= sidx < idx && t[sidx] == pattern[0] && forall i :: 0 <= i < sidx ==> t[i] != pattern[0]
    {
      FoundNext(t, pattern, 0, idx);
      if Fold(caseSensitive, text[idx]) == pattern[pidx] {
        if sidx < 0 {
          sidx := idx;
        }
        pidx := pidx + 1;
        if pidx == |pattern| {
          eidx := idx + 1;
          return;
        }
      }
      idx := idx + 1;
    }
  }

  lemma {:induction false} FoundBackStart(t: seq<u8>, pat: seq<u8>, hi: nat)
    requires hi <= |t|
    ensures FoundBack(t, pat, hi, hi) == 0
  {
  }

  lemma FoundBackNext(t: seq<u8>, pat: seq<u8>, lo: nat, hi: nat)
    requires lo < hi <= |t|
    ensures var n := FoundBack(t, pat, lo + 1, hi);
            FoundBack(t, pat, lo, hi) == if n < |pat| && t[lo] == pat[|pat| - 1 - n] then n + 1 else n
  {
  }

  /** The backward pass: the latest start for the end that was found.  Its index is unsigned, so the loop
      condition alone would not stop it at 0; it always leaves by its break. */
  method BackwardPass(caseSensitive: bool, text: seq<u8>, pattern: seq<u8>, sidx: nat, eidx: nat) returns (start: nat)
    requires sidx < eidx <= |text| && |pattern| > 0
    requires Subsequence(Folded(caseSensitive, text), pattern, sidx, eidx)
    ensures sidx <= start < eidx && FoundBack(Folded(caseSensitive, text), pattern, start, eidx) == |pattern|
    ensures FoundBack(Folded(caseSensitive, text), pattern, start + 1, eidx) < |pattern|
    ensures Fold(caseSensitive, text[start]) == pattern[0]
  {
    hide FoundBack, Subsequence;
    ghost var t := Folded(caseSensitive, text);
    AllBack(t, pattern, sidx, eidx);
    FoundBackStart(t, pattern, eidx);
    var pidx := |pattern| - 1;
    var idx := eidx - 1;
    while idx >= sidx
      invariant sidx <= idx < eidx && 0 <= pidx < |pattern|
      invariant |pattern| - 1 - pidx == FoundBack(t, pattern, idx + 1, eidx)
      decreases idx
    {
      FoundBackNext(t, pattern, idx, eidx);
      if Fold(caseSensitive, text[idx]) == pattern[pidx] {
        pidx := pidx - 1;
        if pidx < 0 {
          start := idx;
          break;
        }
      }
      assert idx > sidx;
      idx := idx - 1;
    }
  }

  lemma {:induction false} AllBack(t: seq<u8>, pat: seq<u8>, lo: nat, hi: nat)
    requires lo <= hi <= |t| && Subsequence(t, pat, lo, hi)
    ensures FoundBack(t, pat, lo, hi) == |pat|
  {
    hide FoundBack;
    if FoundBack(t, pat, lo, hi) < |pat| {
      BackNone(t, pat, lo, hi);
    }
  }

  lemma EmbedsCons(t: seq<u8>, pat: seq<u8>, b: u8, lo: nat, hi: nat, ps: seq<nat>)
    requires lo < hi <= |t| && t[lo] == b && Embeds(t, pat, lo + 1, hi, ps)
    ensures Embeds(t, [b] + pat, lo, hi, [lo] + ps)
  {
  }

  /** What the backward scan has found is an embedding of an end of the pattern. */
  lemma {:induction false} BackEmbeds(t: seq<u8>, pat: seq<u8>, lo: nat, hi: nat) returns (ps: seq<nat>)
    requires lo <= hi <= |t|
    ensures Embeds(t, pat[|pat| - FoundBack(t, pat, lo, hi)..], lo, hi, ps)
    decreases hi - lo
  {
    if lo == hi {
      ps := [];
    } else {
      ps := BackEmbeds(t, pat, lo + 1, hi);
      var n := FoundBack(t, pat, lo + 1, hi);
      if n < |pat| && t[lo] == pat[|pat| - 1 - n] {
        EmbedsCons(t, pat[|pat| - n..], pat[|pat| - 1 - n], lo, hi, ps);
        assert pat[|pat| - 1 - n..] == [pat[|pat| - 1 - n]] + pat[|pat| - n..];
        ps := [lo] + ps;
      }
    }
  }

  /** Some embedding ends before `end` and starts at `start`, none ends earlier, and none that ends
      before `end` starts later. */
  ghost predicate EarliestLatest(t: seq<u8>, pat: seq<u8>, start: int, end: int) {
    && 0 <= start < end <= |t| && Subsequence(t, pat, start, end)
    && (forall e :: 0 <= e < end ==> !Subsequence(t, pat, 0, e))
    && (forall s :: start < s <= end ==> !Subsequence(t, pat, s, end))
  }

  lemma SubsequenceWiden(t: seq<u8>, pat: seq<u8>, lo: int, hi: int, lo': int, hi': int)
    requires Subsequence(t, pat, lo, hi) && lo' <= lo && hi <= hi'
    ensures Subsequence(t, pat, lo', hi')
  {
    var ps :| Embeds(t, pat, lo, hi, ps);
    assert Embeds(t, pat, lo', hi', ps);
  }

  lemma {:induction false} ForwardSpan(t: seq<u8>, pat: seq<u8>, sidx: nat, eidx: nat)
    requires |pat| > 0 && sidx < eidx <= |t| && Found(t, pat, 0, eidx) == |pat|
    requires forall i :: 0 <= i < sidx ==> t[i] != pat[0]
    ensures Subsequence(t, pat, sidx, eidx)
  {
    FoundAll(t, pat, 0, eidx);
    var ps :| Embeds(t, pat, 0, eidx, ps);
    assert t[ps[0]] == pat[0];
    assert Embeds(t, pat, sidx, eidx, ps);
  }

  lemma SpanFound(t: seq<u8>, pat: seq<u8>, start: nat, eidx: nat)
    requires |pat| > 0 && start < eidx <= |t|
    requires forall e :: 0 <= e < eidx ==> Found(t, pat, 0, e) < |pat|
    requires FoundBack(t, pat, start, eidx) == |pat| && FoundBack(t, pat, start + 1, eidx) < |pat|
    ensures EarliestLatest(t, pat, start, eidx)
    ensures Found(t, pat, start, eidx) == |pat|
    ensures forall e :: start <= e < eidx ==> Found(t, pat, start, e) < |pat|
  {
    hide Found, FoundBack, Subsequence, Embeds;
    SpanSubsequence(t, pat, start, eidx);
    FoundAll(t, pat, start, eidx);
    BackNone(t, pat, start + 1, eidx);
    forall e | 0 <= e < eidx
      ensures !Subsequence(t, pat, 0, e)
      ensures start <= e ==> Found(t, pat, start, e) < |pat|
    {
      FoundAll(t, pat, 0, e);
      if start <= e {
        FoundAll(t, pat, start, e);
        if Subsequence(t, pat, start, e) {
          SubsequenceWiden(t, pat, start, e, 0, e);
        }
      }
    }
    forall s | start < s <= eidx
      ensures !Subsequence(t, pat, s, eidx)
    {
      if Subsequence(t, pat, s, eidx) {
        SubsequenceWiden(t, pat, s, eidx, start + 1, eidx);
      }
    }
  }

  lemma {:induction false} SpanSubsequence(t: seq<u8>, pat: seq<u8>, start: nat, eidx: nat)
    requires start < eidx <= |t| && FoundBack(t, pat, start, eidx) == |pat|
    ensures Subsequence(t, pat, start, eidx)
  {
    var ps := BackEmbeds(t, pat, start, eidx);
    assert pat[|pat| - |pat|..] == pat;
  }

  /** `fzf_fuzzy_match_v1` succeeds exactly when the pattern is a subsequence of the folded text; then it
      returns the earliest end and for it the latest start, with the positions of an embedding that
      fills that span and the score of that embedding. */
  method FuzzyMatchV1(caseSensitive: bool, text: seq<u8>, pattern: seq<u8>) returns (r: Result, pos: seq<nat>)
    requires |text| < INT32_MAX
    ensures |pattern| == 0 ==> r == Result(0, 0, 0) && pos == []
    ensures |pattern| > 0 ==>
              var t := Folded(caseSensitive, text);
              if !Subsequence(t, pattern, 0, |t|) then r == Result(-1, -1, 0) && pos == []
              else EarliestLatest(t, pattern, r.start, r.end) && Embeds(t, pattern, r.start, r.end, pos) &&
                   pos[0] == r.start && pos[|pos| - 1] == r.end - 1 && r.score == Score(text, pos, |pos|) &&
                   Inside(text, pos, |pos|) && r.score == Points(text, pos)
  {
    hide Found, FoundBack, Subsequence, Score, Embeds, Points, Inside;
    pos := [];
    if |pattern| == 0 {
      return Result(0, 0, 0), [];
    }
    ghost var t := Folded(caseSensitive, text);
    var first := AsciiFuzzyIndex(text, pattern, caseSensitive);
    if first < 0 {
      return NO_MATCH, [];
    }
    FoundAll(t, pattern, 0, |t|);
    var sidx, eidx := ForwardPass(caseSensitive, text, pattern);
    if sidx >= 0 && eidx >= 0 {
      FoundAll(t, pattern, 0, eidx);
      SubsequenceWiden(t, pattern, 0, eidx, 0, |t|);
      ForwardSpan(t, pattern, sidx, eidx);
      var start := BackwardPass(caseSensitive, text, pattern, sidx, eidx);
      SpanFound(t, pattern, start, eidx);
      var score;
      score, pos := CalculateScore(caseSensitive, text, pattern, start, eidx);
      return Result(start, eidx, score), pos;
    }
    return NO_MATCH, [];
  }
}
