/** What an alignment is worth, in bytes and numbers: nothing here depends on the classes, the bonuses and the
    penalties with which the matchers compute. */
module FuzzyPoints {
  import opened Integers

  /** A letter or a digit. */
  predicate Alnum(c: u8) {
    48 <= c <= 57 || 65 <= c <= 90 || 97 <= c <= 122
  }

  /** The start of the text, the start of a word, or a character that belongs to no word. */
  predicate WordEdge(text: seq<u8>, p: nat)
    requires p < |text|
  {
    p == 0 || !Alnum(text[p]) || !Alnum(text[p - 1])
  }

  /** An upper-case letter behind a lower-case one, or a digit behind a letter. */
  predicate Hump(text: seq<u8>, p: nat)
    requires p < |text|
  {
    p > 0 && ((97 <= text[p - 1] <= 122 && 65 <= text[p] <= 90) ||
              ((65 <= text[p - 1] <= 90 || 97 <= text[p - 1] <= 122) && 48 <= text[p] <= 57))
  }

  /** What a place is worth by itself. */
  function Place(text: seq<u8>, p: nat): (b: int)
    requires p < |text|
  {
    if WordEdge(text, p) then 8 else if Hump(text, p) then 7 else 0
  }

  predicate Inside(text: seq<u8>, ps: seq<nat>, n: nat) {
    n <= |ps| && (forall i :: 0 <= i < n ==> ps[i] < |text|) && forall i :: 0 < i < n ==> ps[i - 1] < ps[i]
  }

  /** The first match of the run of adjacent matches that match `k` belongs to. */
  function RunStart(ps: seq<nat>, k: nat): (h: nat)
    requires k < |ps|
    ensures h <= k
  {
    if k > 0 && ps[k] == ps[k - 1] + 1 then RunStart(ps, k - 1) else k
  }

  /** Some match of the run up to `k` stands at a word edge. */
  predicate EdgeInRun(text: seq<u8>, ps: seq<nat>, k: nat)
    requires k < |ps| && Inside(text, ps, k + 1)
  {
    exists j :: RunStart(ps, k) <= j <= k && WordEdge(text, ps[j])
  }

  /** What match `k` is worth for its place: inside a run never less than 4, and what the start of the run
      or a word edge in it was worth. */
  function Gain(text: seq<u8>, ps: seq<nat>, k: nat): (b: int)
    requires k < |ps| && Inside(text, ps, k + 1)
  {
    var h := RunStart(ps, k);
    if h == k then Place(text, ps[k])
    else if EdgeInRun(text, ps, k) then 8
    else if Hump(text, ps[h]) || Hump(text, ps[k]) then 7
    else 4
  }

  function Gains(text: seq<u8>, ps: seq<nat>, n: nat): (b: int)
    requires Inside(text, ps, n)
  {
    if n == 0 then 0 else Gains(text, ps, n - 1) + Gain(text, ps, n - 1)
  }

  /** A gap of g > 0 characters costs g + 2. */
  function Gaps(ps: seq<nat>, n: nat): (c: int)
    requires n <= |ps|
  {
    if n <= 1 then 0
    else
      var skipped: int := ps[n - 1] as int - ps[n - 2] - 1;
      Gaps(ps, n - 1) + if skipped > 0 then skipped + 2 else 0
  }

  /** 16 for each match and what its place is worth, twice for the first match, less what the gaps cost. */
  function Points(text: seq<u8>, ps: seq<nat>): (s: int)
    requires Inside(text, ps, |ps|)
  {
    if |ps| == 0 then 0
    else 16 * |ps| + Gains(text, ps, |ps|) + Place(text, ps[0]) - Gaps(ps, |ps|)
  }
}
