/** The exact matcher: the best placed occurrence of the whole pattern. */
module FuzzyExact {
  import opened Integers
  import opened FuzzyText
  import opened FuzzyPoints
  import opened FuzzyV1

  predicate OccursAt(t: seq<u8>, pat: seq<u8>, s: nat) {
    s + |pat| <= |t| && forall k :: 0 <= k < |pat| ==> t[s + k] == pat[k]
  }

  /** Among the occurrences that start before `hi`, `s` is the first with the highest bonus; a negative
      `s` says that there is none. */
  ghost predicate BestOccurrence(text: seq<u8>, t: seq<u8>, pat: seq<u8>, hi: int, s: int)
    requires |t| == |text| && |pat| > 0
  {
    if s < 0 then forall o: nat :: OccursAt(t, pat, o) ==> o >= hi
    else
      && OccursAt(t, pat, s) && s < hi
      && forall o: nat :: OccursAt(t, pat, o) && o < hi ==>
                            BonusAt(text, o) <= BonusAt(text, s) && (o < s ==> BonusAt(text, o) < BonusAt(text, s))
  }

  lemma NoneYet(text: seq<u8>, t: seq<u8>, pat: seq<u8>)
    requires |t| == |text| && |pat| > 0
    ensures BestOccurrence(text, t, pat, 0, -1)
  {
  }

  lemma NextStart(text: seq<u8>, t: seq<u8>, pat: seq<u8>, start: nat, s: int, s': int)
    requires |t| == |text| && |pat| > 0 && BestOccurrence(text, t, pat, start, s)
    requires if OccursAt(t, pat, start) && (s < 0 || BonusAt(text, start) > BonusAt(text, s)) then s' == start
             else s' == s
    ensures BestOccurrence(text, t, pat, start + 1, s')
  {
    hide BonusAt;
  }

  /** An occurrence is an embedding without gaps, and the greedy scan follows it. */
  lemma {:induction false} OccurrenceFound(t: seq<u8>, pat: seq<u8>, s: nat, n: nat)
    requires OccursAt(t, pat, s) && n <= |pat|
    ensures Found(t, pat, s, s + n) == n
  {
    if n > 0 {
      OccurrenceFound(t, pat, s, n - 1);
    }
  }

  lemma OccurrenceEmbeds(t: seq<u8>, pat: seq<u8>, s: nat)
    requires OccursAt(t, pat, s)
    ensures Subsequence(t, pat, 0, |t|)
  {
    OccurrenceFound(t, pat, s, |pat|);
    FoundAll(t, pat, s, s + |pat|);
    SubsequenceWiden(t, pat, s, s + |pat|, 0, |t|);
  }

  /** `s` is the first occurrence at a word edge; if there is none, the first at a hump or at a digit behind a
      letter; if there is none either, the first one. */
  ghost predicate BestByBytes(text: seq<u8>, t: seq<u8>, pat: seq<u8>, s: nat)
    requires |t| == |text| && |pat| > 0
  {
    && OccursAt(t, pat, s)
    && if exists o: nat :: OccursAt(t, pat, o) && WordEdge(text, o) then
         WordEdge(text, s) && forall o: nat :: OccursAt(t, pat, o) && WordEdge(text, o) ==> s <= o
       else if exists o: nat :: OccursAt(t, pat, o) && Hump(text, o) then
         Hump(text, s) && forall o: nat :: OccursAt(t, pat, o) && Hump(text, o) ==> s <= o
       else forall o: nat :: OccursAt(t, pat, o) ==> s <= o
  }

  lemma {:induction false} BestInBytes(text: seq<u8>, t: seq<u8>, pat: seq<u8>, s: nat)
    requires |t| == |text| && |pat| > 0 && BestOccurrence(text, t, pat, |t|, s)
    ensures BestByBytes(text, t, pat, s)
  {
    hide BonusAt, Place, WordEdge, Hump, OccursAt;
    assert OccursAt(t, pat, s);
    forall o: nat | OccursAt(t, pat, o)
      ensures o < |t| && Place(text, o) <= Place(text, s) && (o < s ==> Place(text, o) < Place(text, s))
      ensures (WordEdge(text, o) <==> Place(text, o) == 8) && Place(text, o) in {0, 7, 8}
      ensures Place(text, o) == 7 <==> Hump(text, o) && !WordEdge(text, o)
    {
      OccursInside(t, pat, o);
      OccursInside(t, pat, s);
      BonusInNumbers(text, o);
      BonusInNumbers(text, s);
      PlaceAtEdge(text, o);
    }
  }

  lemma OccursInside(t: seq<u8>, pat: seq<u8>, o: nat)
    requires |pat| > 0 && OccursAt(t, pat, o)
    ensures o < |t|
  {
  }

  /** The search loop: after a mismatch and after an occurrence it goes back to the character behind the
      start of the attempt. */
  method BestPlace(caseSensitive: bool, text: seq<u8>, pattern: seq<u8>) returns (best: int)
    requires |pattern| > 0
    ensures BestOccurrence(text, Folded(caseSensitive, text), pattern, |text|, best)
    ensures best >= 0 ==> BestByBytes(text, Folded(caseSensitive, text), pattern, best)
  {
    hide BestOccurrence, BonusAt, BestByBytes;
    ghost var t := Folded(caseSensitive, text);
    NoneYet(text, t, pattern);
    var pidx, idx := 0, 0;
    var bonus, bestBonus := 0, -1;
    best := -1;
    while idx < |text|
      invariant 0 <= pidx <= idx <= |text| && pidx < |pattern|
      invariant forall k :: 0 <= k < pidx ==> t[idx - pidx + k] == pattern[k]
      invariant BestOccurrence(text, t, pattern, idx - pidx, best)
      invariant best < |text|
      invariant bestBonus == (if best < 0 then -1 else BonusAt(text, best)) && bestBonus < BONUS_BOUNDARY
      invariant pidx > 0 ==> bonus == BonusAt(text, idx - pidx)
      decreases |text| - (idx - pidx), |text| - idx
    {
      ghost var start, before := idx - pidx, best;
      if Fold(caseSensitive, text[idx]) == pattern[pidx] {
        if pidx == 0 {
          bonus := BonusAt(text, idx);
        }
        pidx := pidx + 1;
        if pidx == |pattern| {
          assert OccursAt(t, pattern, start);
          if bonus > bestBonus {
            best, bestBonus := idx - pidx + 1, bonus;
          }
          NextStart(text, t, pattern, start, before, best);
          if bonus == BONUS_BOUNDARY {
            NothingBetter(text, t, pattern, start + 1, best);
            BestInBytes(text, t, pattern, best);
            return;
          }
          idx := idx - (pidx - 1);
          pidx := 0;
        }
      } else {
        assert !OccursAt(t, pattern, start) by {
          assert t[start + pidx] != pattern[pidx];
        }
        NextStart(text, t, pattern, start, before, best);
        idx := idx - pidx;
        pidx := 0;
      }
      idx := idx + 1;
    }
    NoneBehind(text, t, pattern, idx - pidx, best);
    if best >= 0 {
      BestInBytes(text, t, pattern, best);
    }
  }

  lemma NothingBetter(text: seq<u8>, t: seq<u8>, pat: seq<u8>, hi: nat, s: nat)
    requires |t| == |text| && |pat| > 0 && hi <= |t| && BestOccurrence(text, t, pat, hi, s)
    requires BonusAt(text, s) == BONUS_BOUNDARY
    ensures BestOccurrence(text, t, pat, |t|, s)
  {
  }

  lemma NoneBehind(text: seq<u8>, t: seq<u8>, pat: seq<u8>, hi: nat, s: int)
    requires |t| == |text| && |pat| > 0 && hi <= |t| < hi + |pat| && BestOccurrence(text, t, pat, hi, s)
    ensures BestOccurrence(text, t, pat, |t|, s)
  {
    hide BonusAt;
  }

  /** `fzf_exact_match_naive`: fails exactly when the pattern does not occur in the folded text; else it
      reports the first of the occurrences with the highest bonus, with the score of that alignment. */
  method ExactMatchNaive(caseSensitive: bool, text: seq<u8>, pattern: seq<u8>) returns (r: Result, pos: seq<nat>)
    requires |text| < INT32_MAX
    ensures |pattern| == 0 ==> r == Result(0, 0, 0) && pos == []
    ensures |pattern| > 0 ==>
              BestOccurrence(text, Folded(caseSensitive, text), pattern, |text|, r.start) &&
              (r.start < 0 ==> r == Result(-1, -1, 0) && pos == []) &&
              (r.start >= 0 ==> r.end == r.start + |pattern| <= |text| && pos == seq(|pattern|, i => r.start + i) &&
                                r.score == Score(text, pos, |pos|) &&
                                BestByBytes(text, Folded(caseSensitive, text), pattern, r.start) &&
                                Inside(text, pos, |pos|) && r.score == Points(text, pos))
  {
    hide Found, Score, Points, BestByBytes;
    pos := [];
    if |pattern| == 0 {
      return Result(0, 0, 0), [];
    }
    ghost var t := Folded(caseSensitive, text);
    if |text| < |pattern| {
      return NO_MATCH, [];
    }
    var first := AsciiFuzzyIndex(text, pattern, caseSensitive);
    if first < 0 {
      forall o: nat | OccursAt(t, pattern, o)
        ensures false
      {
        OccurrenceEmbeds(t, pattern, o);
      }
      return NO_MATCH, [];
    }
    var best := BestPlace(caseSensitive, text, pattern);
    if best >= 0 {
      forall e | best <= e <= best + |pattern|
        ensures Found(t, pattern, best, e) == e - best
      {
        OccurrenceFound(t, pattern, best, e - best);
      }
      assert t[best + 0] == pattern[0];
      var score;
      score, pos := CalculateScore(caseSensitive, text, pattern, best, best + |pattern|);
      NoGaps(t, pattern, best, pos);
      return Result(best, best + |pattern|, score), pos;
    }
    return NO_MATCH, [];
  }

  /** An embedding in a span of the length of the pattern has no gaps. */
  lemma NoGaps(t: seq<u8>, pat: seq<u8>, s: nat, ps: seq<nat>)
    requires Embeds(t, pat, s, s + |pat|, ps)
    ensures ps == seq(|pat|, i => s + i)
  {
    NoRoom(ps, s);
  }
}
