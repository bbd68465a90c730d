/** The dynamic program of the fuzzy matcher and the traceback through its matrix.

    `Value` says what the program computes, as a recurrence over integers without bounds.  The matrix has
    one row per pattern character; row `i` starts at column `f[i]`, and the cells in front of that are never
    written.  The traceback may still look at some of them, so what they hold must not matter: nothing below
    assumes anything about them. */
module FuzzyV2 {
  import opened Integers
  import opened FuzzyText
  import opened FuzzyPoints
  import opened FuzzyV1

  /** The longest pattern for which no score leaves 16 bits. */
  const MAX_PATTERN: nat := 1364

  /** A text, its folded form, a pattern, the first possible place of each pattern character, and the width
      of a row. */
  datatype Grid = Grid(text: seq<u8>, t: seq<u8>, pat: seq<u8>, f: seq<int>, width: nat)

  ghost predicate GridOk(g: Grid) {
    && |g.text| == |g.t| && 0 < |g.pat| == |g.f| && g.pat != [] && 0 <= g.f[0]
    && (forall i, j :: 0 <= i < j < |g.f| ==> g.f[i] < g.f[j])
    && g.f[|g.f| - 1] < g.f[0] + g.width <= |g.t|
    && (forall i :: 0 <= i < |g.f| ==> g.f[i] < |g.t| && g.t[g.f[i]] == g.pat[i])
  }

  /** Column `col` belongs to the written part of row `i`. */
  predicate InRow(g: Grid, i: nat, col: int)
    requires |g.f| > 0
  {
    i < |g.f| && g.f[i] <= col < g.f[0] + g.width
  }

  // ---------------------------------------------------------------- the recurrence

  /** A cell: its score, the length of the run of matches that ends in it, and whether a gap goes on behind it. */
  datatype CellValue = CellValue(score: int, run: int, gap: bool)

  /** The bonus of a position, 0 outside the text. */
  function Bonus(text: seq<u8>, p: int): (b: int)
    ensures 0 <= b <= BONUS_BOUNDARY
  {
    if 0 <= p < |text| then BonusAt(text, p) else 0
  }

  function Penalty(v: CellValue): int {
    if v.gap then SCORE_GAP_EXTENSION else SCORE_GAP_START
  }

  /** A cell of the first row, in a row that starts at `lo`. */
  function First(text: seq<u8>, t: seq<u8>, b: u8, lo: nat, k: nat): (v: CellValue)
    requires lo <= k < |t|
    ensures 0 <= v.score <= 32 && 0 <= v.run <= 1
    decreases k
  {
    if t[k] == b then CellValue(SCORE_MATCH + Bonus(text, k) * BONUS_FIRST_CHAR_MULTIPLIER, 1, false)
    else if k == lo then CellValue(0, 0, true)
    else
      var left := First(text, t, b, lo, k - 1);
      CellValue(Max(left.score + Penalty(left), 0), 0, true)
  }

  /** The bonus of a match at `col` that ends a run of `run` matches. */
  function RunBonusAt(text: seq<u8>, col: int, run: int): (b: int)
    ensures 0 <= b <= BONUS_BOUNDARY
  {
    var own := Bonus(text, col);
    if own != BONUS_BOUNDARY && run > 1 then Max(own, Max(BONUS_CONSECUTIVE, Bonus(text, col - run + 1))) else own
  }

  /** A cell of a later row, from its diagonal and its left neighbour: the better of a match and a gap. */
  function Later(text: seq<u8>, col: int, isMatch: bool, diag: CellValue, left: CellValue): (v: CellValue) {
    var s2 := left.score + Penalty(left);
    if !isMatch then CellValue(Max(s2, 0), 0, 0 < s2)
    else
      var own, b := Bonus(text, col), RunBonusAt(text, col, diag.run + 1);
      var s1 := diag.score + SCORE_MATCH;
      if s1 + b < s2 then CellValue(Max(Max(s1 + own, s2), 0), 0, s1 + own < s2)
      else CellValue(Max(s1 + b, 0), if own == BONUS_BOUNDARY then 1 else diag.run + 1, false)
  }

  /** What the cell in row `i` and column `col` is to hold. */
  ghost function Value(g: Grid, i: nat, col: int): (v: CellValue)
    requires GridOk(g) && InRow(g, i, col)
    ensures 0 <= v.score <= 24 * (i + 1) + 8 && 0 <= v.run <= i + 1
    decreases i, col
  {
    if i == 0 then First(g.text, g.t, g.pat[0], g.f[0], col)
    else
      InRowStart(g, i, col);
      Later(g.text, col, g.t[col] == g.pat[i], Value(g, i - 1, col - 1), LeftValue(g, i, col))
  }

  /** The left neighbour; in front of the first cell of a row there is nothing. */
  ghost function LeftValue(g: Grid, i: nat, col: int): (v: CellValue)
    requires GridOk(g) && InRow(g, i, col)
    ensures 0 <= v.score <= 24 * (i + 1) + 8 && 0 <= v.run <= i + 1
    decreases i, col, 0
  {
    if col == g.f[i] then CellValue(0, 0, false)
    else
      InRowStart(g, i, col);
      Value(g, i, col - 1)
  }

  lemma InRowStart(g: Grid, i: nat, col: int)
    requires GridOk(g) && InRow(g, i, col)
    ensures 0 <= g.f[0] <= g.f[i] <= col && (i > 0 ==> g.f[0] <= g.f[i - 1] < g.f[i] && InRow(g, i - 1, col - 1))
  {
  }

  ghost function DiagScore(g: Grid, i: nat, col: int): (s: int)
    requires GridOk(g) && InRow(g, i, col)
    ensures s >= 0
  {
    if i == 0 then 0
    else
      InRowStart(g, i, col);
      Value(g, i - 1, col - 1).score
  }

  /** A match scores at least 16 more than the cell it came from; anything else is 0 or less than its left
      neighbour. */
  lemma {:induction false} ValueFits(g: Grid, i: nat, col: int)
    requires GridOk(g) && InRow(g, i, col)
    ensures var s := Value(g, i, col).score;
            if g.t[col] == g.pat[i] then s >= DiagScore(g, i, col) + SCORE_MATCH
            else s == 0 || s < LeftValue(g, i, col).score
  {
    InRowStart(g, i, col);
  }

  // ---------------------------------------------------------------- how large scores get

  /** Where all places have the highest bonus and follow each other, the bound is attained. */
  lemma {:induction false} DiagonalValue(g: Grid, i: nat)
    requires GridOk(g) && i < |g.f| && g.f[0] == 0
    requires forall j :: 0 <= j <= i ==> g.f[j] == j && Bonus(g.text, j) == BONUS_BOUNDARY
    ensures Value(g, i, i).score == 24 * (i + 1) + 8
  {
    if i > 0 {
      DiagonalValue(g, i - 1);
      InRowStart(g, i, i);
      assert g.t[g.f[i]] == g.pat[i];
    } else {
      assert g.t[g.f[0]] == g.pat[0];
    }
  }

  /** The grid of `m` equal characters in a text of `n` of them. */
  function Uniform(b: u8, n: nat, m: nat): Grid {
    var s := seq(n, _ => b);
    Grid(s, s, seq(m, _ => b), seq(m, i => i), n)
  }

  /** The bound on patterns is exact: `m` characters that are no word characters, in a text of at least as many,
      score 24m + 8, which leaves 16 bits if and only if there are more than 1364 of them. */
  lemma {:induction false} ScoreBoundIsExact(b: u8, n: nat, m: nat)
    requires ClassOf(b) == NonWord && 0 < m <= n
    ensures var g := Uniform(b, n, m);
            IsGrid(g, g.text, g.t, g.pat) && GridOk(g) && InRow(g, m - 1, m - 1) &&
            Value(g, m - 1, m - 1).score == 24 * m + 8 && (Value(g, m - 1, m - 1).score >= 0x8000 <==> m > MAX_PATTERN)
  {
    hide Value, IsGrid, GridOk, Bonus;
    var g := Uniform(b, n, m);
    UniformIsGrid(b, n, m);
    UniformPlaces(b, n, m);
    GridIsOk(g);
    DiagonalValue(g, m - 1);
  }

  lemma UniformPlaces(b: u8, n: nat, m: nat)
    requires ClassOf(b) == NonWord && 0 < m <= n
    ensures var g := Uniform(b, n, m);
            |g.f| == m && g.f[0] == 0 && InRow(g, m - 1, m - 1) &&
            forall j :: 0 <= j < m ==> g.f[j] == j && Bonus(g.text, j) == BONUS_BOUNDARY
  {
  }

  lemma UniformIsGrid(b: u8, n: nat, m: nat)
    requires 0 < m <= n
    ensures var g := Uniform(b, n, m); IsGrid(g, g.text, g.t, g.pat)
  {
  }

  // ---------------------------------------------------------------- the grid of a text and a pattern

  function Behind(f: seq<int>, i: nat, lo: int): int
    requires i <= |f|
  {
    if i == 0 then lo else f[i - 1] + 1
  }

  /** No place between the last one and `f[i]` would do for pattern character `i`. */
  predicate Earliest(t: seq<u8>, pat: seq<u8>, f: seq<int>, i: nat, lo: int)
    requires i < |f| && i < |pat| && 0 <= Behind(f, i, lo) && f[i] <= |t|
  {
    forall k :: Behind(f, i, lo) <= k < f[i] ==> t[k] != pat[i]
  }

  /** The grid of a text and a pattern: the places are the first possible ones, and the columns go up to the
      last place of the last pattern character. */
  ghost predicate IsGrid(g: Grid, text: seq<u8>, t: seq<u8>, pat: seq<u8>) {
    && GridOk(g) && g.text == text && g.t == t && g.pat == pat
    && (forall i :: 0 <= i < |g.f| ==> 0 <= Behind(g.f, i, 0) && Earliest(t, pat, g.f, i, 0))
    && t[g.f[0] + g.width - 1] == pat[|pat| - 1]
    && forall k :: g.f[0] + g.width <= k < |t| ==> t[k] != pat[|pat| - 1]
  }

  lemma {:induction false} PlacesUnique(g: Grid, g': Grid, n: nat)
    requires IsGrid(g, g.text, g.t, g.pat) && IsGrid(g', g.text, g.t, g.pat) && n <= |g.pat|
    ensures g.f[..n] == g'.f[..n]
  {
    if n > 0 {
      var i := n - 1;
      PlacesUnique(g, g', i);
      assert i > 0 ==> g.f[i - 1] == g.f[..i][i - 1] && g'.f[i - 1] == g'.f[..i][i - 1];
      assert Earliest(g.t, g.pat, g.f, i, 0) && Earliest(g.t, g.pat, g'.f, i, 0);
      assert g.f[..n] == g.f[..i] + [g.f[i]] && g'.f[..n] == g'.f[..i] + [g'.f[i]];
    }
  }

  /** There is only one. */
  lemma GridUnique(g: Grid, g': Grid)
    requires IsGrid(g, g.text, g.t, g.pat) && IsGrid(g', g.text, g.t, g.pat)
    ensures g == g'
  {
    PlacesUnique(g, g', |g.pat|);
    assert g.f[..|g.pat|] == g.f && g'.f[..|g.pat|] == g'.f;
  }

  /** The first of the best cells of the last row, among its columns before `col`. */
  ghost predicate Best(g: Grid, col: int, maxScore: int, maxPos: int)
    requires GridOk(g)
  {
    var i := |g.f| - 1;
    && maxScore >= 0
    && (forall k :: InRow(g, i, k) && k < col ==> Value(g, i, k).score <= maxScore)
    && (maxScore > 0 ==> InRow(g, i, maxPos) && maxPos < col && Value(g, i, maxPos).score == maxScore &&
                         forall k :: InRow(g, i, k) && k < maxPos ==> Value(g, i, k).score < maxScore)
  }

  // ---------------------------------------------------------------- the flat matrix

  /** Where row `i` starts in the flat matrix. */
  function RowStart(i: nat, width: nat): (k: nat) {
    if i == 0 then 0 else RowStart(i - 1, width) + width
  }

  lemma {:induction false} RowStartTimes(i: nat, width: nat)
    ensures RowStart(i, width) == i * width
  {
    if i > 0 {
      RowStartTimes(i - 1, width);
    }
  }

  lemma {:induction false} RowsApart(i: nat, j: nat, width: nat)
    requires i < j
    ensures RowStart(i, width) + width <= RowStart(j, width)
  {
    if i + 1 < j {
      RowsApart(i, j - 1, width);
    }
  }

  function Cell(g: Grid, i: nat, col: int): int
    requires |g.f| > 0
  {
    RowStart(i, g.width) + col - g.f[0]
  }

  predicate Sized(g: Grid, h: seq<i16>, c: seq<i16>) {
    |h| == |c| == RowStart(|g.f|, g.width)
  }

  lemma CellInside(g: Grid, i: nat, col: int)
    requires GridOk(g) && i < |g.f| && g.f[0] <= col < g.f[0] + g.width
    ensures RowStart(i, g.width) <= Cell(g, i, col) < RowStart(i + 1, g.width) <= RowStart(|g.f|, g.width)
  {
    if i + 1 < |g.f| {
      RowsApart(i + 1, |g.f|, g.width);
    }
  }

  /** A cell of an earlier row, or an earlier cell of the same row, lies elsewhere. */
  lemma CellsApart(g: Grid, i: nat, col: int, r: nat, k: int)
    requires GridOk(g) && i < |g.f| && g.f[0] <= col < g.f[0] + g.width && g.f[0] <= k < g.f[0] + g.width
    requires r < i || (r == i && k < col)
    ensures Cell(g, r, k) < Cell(g, i, col)
  {
    if r < i {
      RowsApart(r, i, g.width);
    }
  }

  /** The cell holds what it is to hold. */
  ghost predicate CellOk(g: Grid, h: seq<i16>, c: seq<i16>, i: nat, col: int)
    requires GridOk(g) && InRow(g, i, col) && Sized(g, h, c)
  {
    InRowStart(g, i, col);
    CellInside(g, i, col);
    h[Cell(g, i, col)] == Value(g, i, col).score && c[Cell(g, i, col)] == Value(g, i, col).run
  }

  /** All rows before `i`, and row `i` up to column `col`. */
  ghost predicate Written(g: Grid, h: seq<i16>, c: seq<i16>, i: nat, col: int)
    requires GridOk(g) && Sized(g, h, c)
  {
    && (forall r, k :: 0 <= r < i && InRow(g, r, k) ==> CellOk(g, h, c, r, k))
    && (forall k :: InRow(g, i, k) && k < col ==> CellOk(g, h, c, i, k))
  }

  // ---------------------------------------------------------------- writing one cell

  /** Writing at or behind `Cell(i, col)` keeps everything written before it. */
  lemma WrittenKept(g: Grid, h: seq<i16>, c: seq<i16>, h': seq<i16>, c': seq<i16>, i: nat, col: int)
    requires GridOk(g) && Sized(g, h, c) && Sized(g, h', c') && InRow(g, i, col)
    requires Written(g, h, c, i, col)
    requires forall j :: 0 <= j < Cell(g, i, col) && j < |h| ==> h'[j] == h[j] && c'[j] == c[j]
    ensures Written(g, h', c', i, col)
  {
    hide Cell, GridOk, Value;
    forall r, k | 0 <= r < i && InRow(g, r, k)
      ensures CellOk(g, h', c', r, k)
    {
      CellUnmoved(g, i, col, r, k);
      assert CellOk(g, h, c, r, k);
    }
    forall k | InRow(g, i, k) && k < col
      ensures CellOk(g, h', c', i, k)
    {
      CellUnmoved(g, i, col, i, k);
      assert CellOk(g, h, c, i, k);
    }
  }

  lemma CellUnmoved(g: Grid, i: nat, col: int, r: nat, k: int)
    requires GridOk(g) && InRow(g, i, col) && InRow(g, r, k) && (r < i || (r == i && k < col))
    ensures 0 <= Cell(g, r, k) < Cell(g, i, col) < RowStart(|g.f|, g.width)
  {
    InRowStart(g, i, col);
    InRowStart(g, r, k);
    CellInside(g, i, col);
    CellInside(g, r, k);
    CellsApart(g, i, col, r, k);
  }

  lemma WrittenNext(g: Grid, h: seq<i16>, c: seq<i16>, i: nat, col: int)
    requires GridOk(g) && Sized(g, h, c) && InRow(g, i, col)
    requires Written(g, h, c, i, col) && CellOk(g, h, c, i, col)
    ensures Written(g, h, c, i, col + 1)
  {
    hide CellOk, GridOk;
  }

  /** A full row is a written row. */
  lemma WrittenRow(g: Grid, h: seq<i16>, c: seq<i16>, i: nat)
    requires GridOk(g) && Sized(g, h, c) && i + 1 < |g.f| && Written(g, h, c, i, g.f[0] + g.width)
    ensures Written(g, h, c, i + 1, g.f[i + 1])
  {
    hide CellOk, GridOk;
  }

  /** Writing inside row `i` before its first cell keeps the earlier rows. */
  lemma {:induction false} RowsKept(g: Grid, h: seq<i16>, c: seq<i16>, h': seq<i16>, c': seq<i16>, i: nat)
    requires GridOk(g) && Sized(g, h, c) && Sized(g, h', c') && i < |g.f| && Written(g, h, c, i, g.f[i])
    requires forall j :: 0 <= j < RowStart(i, g.width) && j < |h| ==> h'[j] == h[j] && c'[j] == c[j]
    ensures Written(g, h', c', i, g.f[i])
  {
    hide GridOk, Value;
    forall r, k | 0 <= r < i && InRow(g, r, k)
      ensures CellOk(g, h', c', r, k)
    {
      InRowStart(g, r, k);
      CellInside(g, r, k);
      RowsApart(r, i, g.width);
      assert CellOk(g, h, c, r, k);
    }
  }

  lemma {:induction false} BestNext(g: Grid, col: int, maxScore: int, maxPos: int)
    requires GridOk(g) && InRow(g, |g.f| - 1, col) && Best(g, col, maxScore, maxPos)
    ensures var s := Value(g, |g.f| - 1, col).score;
            Best(g, col + 1, if s > maxScore then s else maxScore, if s > maxScore then col else maxPos)
  {
    hide Value, GridOk;
  }

  // ---------------------------------------------------------------- filling a row

  /** The bonuses from `lo` on. */
  predicate Bonuses(text: seq<u8>, bo: seq<i16>, lo: int) {
    |bo| == |text| && forall k :: 0 <= lo <= k < |bo| ==> bo[k] == BonusAt(text, k)
  }

  /** A cell from its diagonal and from what its left neighbour leaves: the better of a match and a gap. */
  ghost predicate ScoredInNumbers(text: seq<u8>, isMatch: bool, diag: int, left: int, cDiag: int, inGap: bool, col: int,
                                  v: CellValue)
    requires 0 <= cDiag <= col < |text|
  {
    var rest := left - if inGap then 1 else 3;
    if !isMatch then v == CellValue(if rest > 0 then rest else 0, 0, rest > 0)
    else
      var own, first := Place(text, col), Place(text, col - cDiag);
      var bonus := if own == 8 || cDiag == 0 then own else if first == 8 then 8 else if own == 7 || first == 7 then 7
                   else 4;
      v == if diag + 16 + bonus < rest then CellValue(rest, 0, true)
           else CellValue(diag + 16 + bonus, if own == 8 then 1 else cDiag + 1, false)
  }

  /** One cell, from its diagonal and from its left neighbour, in 16 bits.  The look-back at the bonus of the
      first character of a run stays behind column `lo`. */
  method ScoreCell(ghost text: seq<u8>, isMatch: bool, diag: i16, left: i16, cDiag: i16, inGap: bool, bo: array<i16>,
                   col: nat, ghost pidx: nat, ghost lo: int)
    returns (score: i16, consecutive: i16, gap: bool)
    requires 0 < pidx < MAX_PATTERN && 0 <= lo && lo + pidx <= col < bo.Length && Bonuses(text, bo[..], lo)
    requires 0 <= diag <= 24 * pidx + 8 && 0 <= left <= 24 * (pidx + 1) + 8 && 0 <= cDiag <= pidx
    ensures forall g, n :: Later(text, col, isMatch, CellValue(diag, cDiag, g), CellValue(left, n, inGap)) ==
                           CellValue(score, consecutive, gap)
    ensures ScoredInNumbers(text, isMatch, diag, left, cDiag, inGap, col, CellValue(score, consecutive, gap))
  {
    assert |bo[..]| == |text|;
    BonusIsPlace(text, col);
    BonusIsPlace(text, col - cDiag);
    PlaceAtEdge(text, col);
    PlaceAtEdge(text, col - cDiag);
    hide Place, BonusAt;
    var s1: i16, s2: i16 := 0, left + if inGap then SCORE_GAP_EXTENSION else SCORE_GAP_START;
    consecutive := 0;
    assert bo[col] == bo[..][col];
    if isMatch {
      s1 := diag + SCORE_MATCH;
      var b := bo[col];
      consecutive := cDiag + 1;
      if b == BONUS_BOUNDARY {
        consecutive := 1;
      } else if consecutive > 1 {
        var first := bo[col - consecutive + 1];
        assert first == bo[..][col - consecutive + 1];
        b := Max(b, Max(BONUS_CONSECUTIVE, first));
      }
      if s1 + b < s2 {
        s1 := s1 + bo[col];
        consecutive := 0;
      } else {
        s1 := s1 + b;
      }
    }
    gap := s1 < s2;
    score := Max(Max(s1, s2), 0);
  }

  /** The right cell extends what is written. */
  lemma {:induction false} NewCell(g: Grid, h: seq<i16>, c: seq<i16>, i: nat, col: int, s: i16, n: i16)
    requires GridOk(g) && Sized(g, h, c) && InRow(g, i, col) && Written(g, h, c, i, col)
    requires s == Value(g, i, col).score && n == Value(g, i, col).run
    ensures 0 <= Cell(g, i, col) < |h|
    ensures Written(g, h[Cell(g, i, col) := s], c[Cell(g, i, col) := n], i, col + 1)
  {
    hide Written, Value;
    InRowStart(g, i, col);
    CellInside(g, i, col);
    var h', c' := h[Cell(g, i, col) := s], c[Cell(g, i, col) := n];
    WrittenKept(g, h, c, h', c', i, col);
    assert CellOk(g, h', c', i, col);
    WrittenNext(g, h', c', i, col);
  }

  /** What stands on the diagonal, and where. */
  lemma DiagonalCell(g: Grid, h: seq<i16>, c: seq<i16>, i: nat, col: int)
    requires GridOk(g) && Sized(g, h, c) && InRow(g, i, col) && i > 0 && Written(g, h, c, i, col)
    ensures InRow(g, i - 1, col - 1)
    ensures var k, diag := Cell(g, i, col), Value(g, i - 1, col - 1);
            0 <= k - g.width - 1 < k < |h| && h[k - g.width - 1] == diag.score && c[k - g.width - 1] == diag.run
  {
    hide Value;
    InRowStart(g, i, col);
    CellInside(g, i, col);
    CellInside(g, i - 1, col - 1);
    assert CellOk(g, h, c, i - 1, col - 1);
  }

  /** Row characters are at least as far apart as their numbers. */
  lemma {:induction false} RowOffset(g: Grid, i: nat)
    requires GridOk(g) && i < |g.f|
    ensures g.f[i] >= g.f[0] + i && g.f[0] >= 0
  {
    if i > 0 {
      assert g.f[i - 1] < g.f[i];
      RowOffset(g, i - 1);
    }
  }

  lemma ValueLater(g: Grid, i: nat, col: int)
    requires GridOk(g) && InRow(g, i, col) && i > 0
    ensures InRow(g, i - 1, col - 1)
    ensures Value(g, i, col) ==
            Later(g.text, col, g.t[col] == g.pat[i], Value(g, i - 1, col - 1), LeftValue(g, i, col))
  {
    InRowStart(g, i, col);
  }

  /** One cell of row `pidx`, at index `k` of the flat matrix. */
  method FillCell(ghost g: Grid, pidx: nat, col: nat, k: nat, width: nat, isMatch: bool, left: i16, inGap: bool,
                  bo: array<i16>, h: array<i16>, c: array<i16>)
    returns (score: i16, gap: bool)
    requires GridOk(g) && 0 < pidx < |g.f| <= MAX_PATTERN && InRow(g, pidx, col) && k == Cell(g, pidx, col)
    requires width == g.width && isMatch == (g.t[col] == g.pat[pidx])
    requires h != c && h != bo && c != bo && Sized(g, h[..], c[..]) && Bonuses(g.text, bo[..], g.f[0])
    requires Written(g, h[..], c[..], pidx, col)
    requires left == LeftValue(g, pidx, col).score && inGap == LeftValue(g, pidx, col).gap
    modifies h, c
    ensures Written(g, h[..], c[..], pidx, col + 1)
    ensures 0 <= k < h.Length && h[..] == old(h[..])[k := score]
    ensures score == Value(g, pidx, col).score && gap == Value(g, pidx, col).gap
  {
    hide Written, Value, LeftValue, Later, Bonuses;
    DiagonalCell(g, h[..], c[..], pidx, col);
    RowOffset(g, pidx);
    ValueLater(g, pidx, col);
    ghost var hs, cs := h[..], c[..];
    var diag, cDiag := h[k - width - 1], c[k - width - 1];
    ghost var diagonal := Value(g, pidx - 1, col - 1);
    assert diagonal == CellValue(diag, cDiag, diagonal.gap);
    assert col < bo.Length && |bo[..]| == bo.Length by { BonusLength(g.text, bo[..], g.f[0]); }
    var consecutive;
    score, consecutive, gap := ScoreCell(g.text, isMatch, diag, left, cDiag, inGap, bo, col, pidx, g.f[0]);
    assert Value(g, pidx, col) == CellValue(score, consecutive, gap);
    c[k] := consecutive;
    NewCell(g, hs, cs, pidx, col, score, consecutive);
    h[k] := score;
    assert h[..] == hs[k := score] && c[..] == cs[k := consecutive];
  }

  lemma BonusLength(text: seq<u8>, bo: seq<i16>, lo: int)
    requires Bonuses(text, bo, lo)
    ensures |bo| == |text|
  {
  }

  /** Row `pidx` of the matrix; the best cell of the last row is remembered. */
  method FillRow(ghost g: Grid, pidx: nat, pchar: u8, foff: nat, f0: nat, lastIdx: nat, width: nat, isLast: bool,
                 t: array<int>, bo: array<i16>, h: array<i16>, c: array<i16>, maxScore0: i16, maxPos0: nat)
    returns (maxScore: i16, maxPos: nat)
    requires GridOk(g) && 0 < pidx < |g.f| <= MAX_PATTERN && pchar == g.pat[pidx] && foff == g.f[pidx] && f0 == g.f[0]
    requires width == g.width && lastIdx + 1 == f0 + width && isLast == (pidx == |g.f| - 1)
    requires h != c && h != bo && c != bo && Sized(g, h[..], c[..])
    requires t.Length == |g.t| && Bonuses(g.text, bo[..], f0) && forall k :: f0 <= k < t.Length ==> t[k] == g.t[k]
    requires Written(g, h[..], c[..], pidx, foff)
    requires isLast ==> Best(g, foff, maxScore0, maxPos0)
    modifies h, c
    ensures Written(g, h[..], c[..], pidx, f0 + width)
    ensures if isLast then Best(g, f0 + width, maxScore, maxPos) else maxScore == maxScore0 && maxPos == maxPos0
  {
    hide Written, Best, RowStart, Bonuses, Value;
    maxScore, maxPos := maxScore0, maxPos0;
    RowStartTimes(pidx, width);
    InRowStart(g, pidx, foff);
    CellInside(g, pidx, foff - 1);
    var base := pidx * width + foff - f0;
    var inGap := false;
    ghost var hs, cs := h[..], c[..];
    h[base - 1] := 0;
    RowsKept(g, hs, cs, h[..], c[..], pidx);
    var j := 0;
    while j < lastIdx + 1 - foff
      invariant 0 <= j <= lastIdx + 1 - foff && 0 < base + j <= h.Length
      invariant Sized(g, h[..], c[..]) && Written(g, h[..], c[..], pidx, foff + j)
      invariant j > 0 ==> InRow(g, pidx, foff + j - 1)
      invariant h[base + j - 1] == if j == 0 then 0 else Value(g, pidx, foff + j - 1).score
      invariant inGap == if j == 0 then false else Value(g, pidx, foff + j - 1).gap
      invariant if isLast then Best(g, foff + j, maxScore, maxPos) else maxScore == maxScore0 && maxPos == maxPos0
    {
      var col := j + foff;
      CellInside(g, pidx, col);
      var score;
      score, inGap := FillCell(g, pidx, col, base + j, width, t[col] == pchar, h[base + j - 1], inGap, bo, h, c);
      if isLast {
        BestNext(g, col, maxScore, maxPos);
        if score > maxScore {
          maxScore, maxPos := score, col;
        }
      }
      j := j + 1;
    }
  }

  /** Rows 1 to M - 1. */
  method FillRows(ghost g: Grid, pattern: seq<u8>, f: array<int>, lastIdx: nat, width: nat, t: array<int>,
                  bo: array<i16>, h: array<i16>, c: array<i16>)
    returns (maxScore: i16, maxPos: nat)
    requires GridOk(g) && 2 <= |g.f| <= MAX_PATTERN && pattern == g.pat && f[..] == g.f
    requires width == g.width && lastIdx + 1 == g.f[0] + width
    requires h != c && h != bo && c != bo && Sized(g, h[..], c[..]) && f.Length == |g.f|
    requires t.Length == |g.t| && Bonuses(g.text, bo[..], g.f[0])
    requires forall k :: g.f[0] <= k < t.Length ==> t[k] == g.t[k]
    requires Written(g, h[..], c[..], 0, g.f[0] + width)
    modifies h, c
    ensures Written(g, h[..], c[..], |g.f| - 1, g.f[0] + width) && Best(g, g.f[0] + width, maxScore, maxPos)
  {
    hide Written, Best, Bonuses, RowStart, Value;
    maxScore, maxPos := 0, 0;
    var f0 := f[0];
    assert f0 == f[..][0];
    var off := 0;
    while off < |pattern| - 1
      invariant 0 <= off <= |pattern| - 1 && f[..] == g.f
      invariant Sized(g, h[..], c[..]) && Written(g, h[..], c[..], off, f0 + width)
      invariant forall k :: f0 <= k < t.Length ==> t[k] == g.t[k]
      invariant if off == |pattern| - 1 then Best(g, f0 + width, maxScore, maxPos) else maxScore == maxPos == 0
    {
      var pidx := off + 1;
      var foff := f[pidx];
      assert foff == f[..][pidx];
      WrittenRow(g, h[..], c[..], off);
      if pidx == |pattern| - 1 {
        BestNone(g, foff);
      }
      maxScore, maxPos := FillRow(g, pidx, pattern[pidx], foff, f0, lastIdx, width, pidx == |pattern| - 1, t, bo, h, c,
                                  maxScore, maxPos);
      off := off + 1;
    }
  }

  lemma BestNone(g: Grid, col: int)
    requires GridOk(g) && col == g.f[|g.f| - 1]
    ensures Best(g, col, 0, 0)
  {
  }

  // ---------------------------------------------------------------- the recurrence in numbers

  lemma BonusIsPlace(text: seq<u8>, p: nat)
    requires p < |text|
    ensures Bonus(text, p) == Place(text, p)
  {
    BonusInNumbers(text, p);
  }

  /** What is left of a cell one column further on: 3 less behind a match, 1 less inside a gap. */
  ghost function Faded(g: Grid, i: nat, col: int): (s: int)
    requires GridOk(g) && InRow(g, i, col)
  {
    Value(g, i, col).score - if Value(g, i, col).gap then 1 else 3
  }

  /** A cell of the first row, from its left neighbour. */
  lemma {:induction false} FirstInNumbers(g: Grid, col: nat)
    requires GridOk(g) && InRow(g, 0, col)
    ensures var v := Value(g, 0, col);
            if g.t[col] == g.pat[0] then v == CellValue(16 + 2 * Place(g.text, col), 1, false)
            else col > g.f[0] && v.run == 0 && v.gap &&
                 v.score == if Faded(g, 0, col - 1) > 0 then Faded(g, 0, col - 1) else 0
  {
    hide Bonus, Place;
    BonusIsPlace(g.text, col);
    assert g.t[g.f[0]] == g.pat[0];
  }

  /** A cell of a later row, from its diagonal and its left neighbour. */
  lemma {:induction false} CellInNumbers(g: Grid, i: nat, col: nat)
    requires GridOk(g) && InRow(g, i, col) && i > 0
    ensures InRow(g, i - 1, col - 1) && (col > g.f[i] ==> InRow(g, i, col - 1))
    ensures var v, d := Value(g, i, col), Value(g, i - 1, col - 1);
            var left := if col == g.f[i] then -3 else Faded(g, i, col - 1);
            0 <= d.run <= col < |g.text| &&
            if g.t[col] != g.pat[i] then v == CellValue(if left > 0 then left else 0, 0, left > 0)
            else
              var own, first := Place(g.text, col), Place(g.text, col - d.run);
              var bonus := if own == 8 || d.run == 0 then own else if first == 8 then 8
                           else if own == 7 || first == 7 then 7 else 4;
              v == if d.score + 16 + bonus < left then CellValue(left, 0, true)
                   else CellValue(d.score + 16 + bonus, if own == 8 then 1 else d.run + 1, false)
  {
    hide Bonus, Place, Value, LeftValue;
    InRowStart(g, i, col);
    RowOffset(g, i);
    ValueLater(g, i, col);
    LeftAt(g, i, col);
    var d := Value(g, i - 1, col - 1);
    BonusIsPlace(g.text, col);
    BonusIsPlace(g.text, col - d.run);
    PlaceAtEdge(g.text, col);
    PlaceAtEdge(g.text, col - d.run);
  }

  lemma {:induction false} LeftAt(g: Grid, i: nat, col: int)
    requires GridOk(g) && InRow(g, i, col)
    ensures LeftValue(g, i, col) == if col == g.f[i] then CellValue(0, 0, false) else Value(g, i, col - 1)
  {
    hide Value;
  }

  /** Behind the first place of a pattern character, `n` columns without a match cost n + 2, down to 0. */
  lemma {:induction false} GapInNumbers(g: Grid, i: nat, n: nat)
    requires GridOk(g) && i < |g.f| && InRow(g, i, g.f[i] + n)
    requires forall c :: g.f[i] < c <= g.f[i] + n ==> g.t[c] != g.pat[i]
    ensures InRow(g, i, g.f[i])
    ensures var v, s := Value(g, i, g.f[i] + n), Value(g, i, g.f[i]).score;
            s >= 16 && v.score == (if n == 0 then s else if s - n - 2 > 0 then s - n - 2 else 0) &&
            (n == 0 ==> !v.gap) && (n > 0 && v.score > 0 ==> v.gap)
    decreases n
  {
    hide Value, Place;
    var col := g.f[i] + n;
    RowOffset(g, i);
    assert g.t[g.f[i]] == g.pat[i];
    if i == 0 {
      FirstInNumbers(g, col);
    } else {
      CellInNumbers(g, i, col);
    }
    if n > 0 {
      GapInNumbers(g, i, n - 1);
    } else {
      PlaceAtEdge(g.text, col);
    }
  }

  // ---------------------------------------------------------------- cells and alignments

  /** `ps` places the pattern up to character `i` at or in front of `col`, and its score, less what the gap up
      to `col` costs, is not more than that of the cell; in a narrow grid it is the same. */
  ghost predicate Backs(g: Grid, i: nat, col: int, ps: seq<nat>)
    requires GridOk(g) && InRow(g, i, col)
  {
    && |ps| == i + 1 && Increasing(ps) && ps[i] <= col && g.f[0] <= ps[0]
    && (forall k :: 0 <= k <= i ==> ps[k] < |g.text| && g.t[ps[k]] == g.pat[k])
    && Tallied(Value(g, i, col), Score(g.text, ps, i + 1), RunBonus(g.text, ps, i), col - ps[i], g.text, col, g.width)
  }

  predicate Tallied(v: CellValue, score: int, bonus: int, gap: int, text: seq<u8>, col: int, width: nat) {
    && gap >= 0 && score + GapPenalty(gap) <= v.score
    && (v.run > 0 <==> gap == 0) && (v.run > 0 ==> bonus == Bonus(text, col - v.run + 1))
    && (v.gap ==> gap > 0) && (gap > 0 ==> v.gap || v.score == 0)
    && (width <= 14 ==> v.score == score + GapPenalty(gap) && score >= 16)
  }

  /** The gap goes on. */
  lemma TalliedGap(v: CellValue, w: CellValue, score: int, bonus: int, gap: int, text: seq<u8>, col: int, width: nat)
    requires Tallied(v, score, bonus, gap, text, col, width) && v.score >= 0 && gap + 1 < width
    requires w.run == 0 && w.score == Max(v.score + Penalty(v), 0)
    requires (w.score > 0 ==> w.gap) && (w.gap ==> w.score >= 0)
    ensures Tallied(w, score, bonus, gap + 1, text, col + 1, width)
  {
  }

  lemma {:induction false} FirstBacked(g: Grid, col: nat)
    requires GridOk(g) && InRow(g, 0, col) && g.t[col] == g.pat[0]
    ensures Backs(g, 0, col, [col])
  {
    hide BonusAt, Place, Score, Value;
    FirstInNumbers(g, col);
    ScoreStep(g.text, [col], 1);
    BonusIsPlace(g.text, col);
    BonusInNumbers(g.text, col);
    PlaceAtEdge(g.text, col);
  }

  lemma {:induction false} MatchBacked(g: Grid, i: nat, col: nat, qs: seq<nat>)
    requires GridOk(g) && InRow(g, i, col) && i > 0 && g.t[col] == g.pat[i] && InRow(g, i - 1, col - 1)
    requires Backs(g, i - 1, col - 1, qs) && Value(g, i, col).run > 0
    ensures Backs(g, i, col, qs + [col])
  {
    hide BonusAt, Place, Value, Score, RunBonus, MatchBonus;
    var ps, d := qs + [col], Value(g, i - 1, col - 1);
    CellInNumbers(g, i, col);
    assert Increasing(ps);
    ScoreNext(g.text, qs, col);
    NextBonus(g.text, qs, col);
    BonusInNumbers(g.text, col);
    BonusIsPlace(g.text, col);
    BonusIsPlace(g.text, col - d.run);
    PlaceAtEdge(g.text, col);
    PlaceAtEdge(g.text, col - d.run);
    assert forall k :: 0 <= k < i ==> ps[k] == qs[k];
  }

  lemma {:induction false} GapBacked(g: Grid, i: nat, col: nat, ps: seq<nat>)
    requires GridOk(g) && InRow(g, i, col) && col > g.f[i] && InRow(g, i, col - 1)
    requires Backs(g, i, col - 1, ps) && Value(g, i, col).run == 0
    ensures Backs(g, i, col, ps)
  {
    hide Bonus, Place, Value, Score, RunBonus, Tallied;
    if i == 0 {
      FirstInNumbers(g, col);
    } else {
      CellInNumbers(g, i, col);
    }
    RowOffset(g, i);
    TalliedGap(Value(g, i, col - 1), Value(g, i, col), Score(g.text, ps, i + 1), RunBonus(g.text, ps, i),
               col - 1 - ps[i], g.text, col - 1, g.width);
  }

  /** Every cell is backed by an alignment. */
  lemma {:induction false} CellIsBacked(g: Grid, i: nat, col: nat) returns (ps: seq<nat>)
    requires GridOk(g) && InRow(g, i, col)
    ensures Backs(g, i, col, ps)
    decreases i, col
  {
    hide Value, Backs;
    InRowStart(g, i, col);
    RowOffset(g, i);
    assert g.t[g.f[i]] == g.pat[i];
    if i == 0 {
      FirstInNumbers(g, col);
    } else {
      CellInNumbers(g, i, col);
    }
    if Value(g, i, col).run > 0 {
      if i == 0 {
        FirstBacked(g, col);
        ps := [col];
      } else {
        ps := CellIsBacked(g, i - 1, col - 1);
        MatchBacked(g, i, col, ps);
        ps := ps + [col];
      }
    } else {
      ps := CellIsBacked(g, i, col - 1);
      GapBacked(g, i, col, ps);
    }
  }

  // ---------------------------------------------------------------- the traceback

  /** The best cell is one with a match, and it is better than what it came from: the traceback takes it. */
  lemma BestIsTaken(g: Grid, maxScore: int, maxPos: int)
    requires GridOk(g) && Best(g, g.f[0] + g.width, maxScore, maxPos)
    ensures var i := |g.f| - 1;
            InRow(g, i, maxPos) && maxScore == Value(g, i, maxPos).score >= SCORE_MATCH &&
            maxScore > DiagScore(g, i, maxPos) && maxScore > LeftValue(g, i, maxPos).score
  {
    var i := |g.f| - 1;
    assert InRow(g, i, g.f[i]);
    ValueFits(g, i, g.f[i]);
    assert Value(g, i, g.f[i]).score >= SCORE_MATCH;
    assert InRow(g, i, maxPos);
    ValueFits(g, i, maxPos);
    LeftOf(g, i, maxPos);
  }

  lemma LeftOf(g: Grid, i: nat, col: int)
    requires GridOk(g) && InRow(g, i, col)
    ensures col > g.f[i] ==> InRow(g, i, col - 1) && LeftValue(g, i, col) == Value(g, i, col - 1)
    ensures col == g.f[i] ==> LeftValue(g, i, col).score == 0
  {
  }

  /** Strictly decreasing positions that spell the pattern backwards, as far as they go. */
  predicate Backwards(t: seq<u8>, pat: seq<u8>, ps: seq<nat>) {
    && |ps| <= |pat|
    && (forall a, b :: 0 <= a < b < |ps| ==> ps[a] > ps[b])
    && forall k :: 0 <= k < |ps| ==> ps[k] < |t| && t[ps[k]] == pat[|pat| - 1 - k]
  }

  lemma NothingBackwards(g: Grid)
    ensures Backwards(g.t, g.pat, [])
  {
  }

  lemma BackwardsMore(t: seq<u8>, pat: seq<u8>, ps: seq<nat>, j: nat)
    requires Backwards(t, pat, ps) && |ps| < |pat| && j < |t| && t[j] == pat[|pat| - 1 - |ps|]
    requires forall k :: 0 <= k < |ps| ==> j < ps[k]
    ensures Backwards(t, pat, ps + [j])
  {
  }

  /** What the traceback sees at one cell, all in one place. */
  lemma {:induction false} TraceCell(g: Grid, h: seq<i16>, c: seq<i16>, i: nat, col: int)
    requires GridOk(g) && Sized(g, h, c) && InRow(g, i, col) && Written(g, h, c, |g.f| - 1, g.f[0] + g.width)
    ensures var s, s1, s2 := Value(g, i, col).score, DiagScore(g, i, col), LeftValue(g, i, col).score;
            (s > s1 && s >= s2 ==> g.t[col] == g.pat[i]) && (col == g.f[i] ==> s > s1 && s > s2)
    ensures var k := Cell(g, i, col);
            0 <= k < |h| && Value(g, i, col).score == h[k] &&
            (if col > g.f[i] then k > 0 && LeftValue(g, i, col).score == h[k - 1]
             else LeftValue(g, i, col).score == 0) &&
            (if i > 0 then k >= g.width + 1 && DiagScore(g, i, col) == h[k - g.width - 1]
             else DiagScore(g, i, col) == 0)
    ensures i > 0 ==> g.f[i - 1] < g.f[i]
  {
    hide Value, LeftValue, DiagScore, CellOk, Cell;
    TraceTaken(g, i, col);
    TracePlaces(g, h, c, i, col);
    InRowStart(g, i, col);
  }

  lemma {:induction false} TraceTaken(g: Grid, i: nat, col: int)
    requires GridOk(g) && InRow(g, i, col)
    ensures var s, s1, s2 := Value(g, i, col).score, DiagScore(g, i, col), LeftValue(g, i, col).score;
            (s > s1 && s >= s2 ==> g.t[col] == g.pat[i]) && (col == g.f[i] ==> s > s1 && s > s2)
  {
    hide Value, DiagScore;
    ValueFits(g, i, col);
  }

  lemma {:induction false} TracePlaces(g: Grid, h: seq<i16>, c: seq<i16>, i: nat, col: int)
    requires GridOk(g) && Sized(g, h, c) && InRow(g, i, col) && Written(g, h, c, |g.f| - 1, g.f[0] + g.width)
    ensures var k := Cell(g, i, col);
            0 <= k < |h| && Value(g, i, col).score == h[k] &&
            (if col > g.f[i] then k > 0 && LeftValue(g, i, col).score == h[k - 1]
             else LeftValue(g, i, col).score == 0) &&
            (if i > 0 then k >= g.width + 1 && DiagScore(g, i, col) == h[k - g.width - 1]
             else DiagScore(g, i, col) == 0)
  {
    hide Value, LeftValue, Written, GridOk, RowStart;
    Holds(g, h, c, i, col);
    LeftOf(g, i, col);
    InRowStart(g, i, col);
    if i > 0 {
      Holds(g, h, c, i - 1, col - 1);
      RowAbove(g, i);
    }
    if col > g.f[i] {
      Holds(g, h, c, i, col - 1);
    }
  }

  lemma RowAbove(g: Grid, i: nat)
    requires i > 0
    ensures RowStart(i, g.width) == RowStart(i - 1, g.width) + g.width
  {
  }

  lemma {:induction false} Holds(g: Grid, h: seq<i16>, c: seq<i16>, i: nat, col: int)
    requires GridOk(g) && Sized(g, h, c) && InRow(g, i, col) && Written(g, h, c, |g.f| - 1, g.f[0] + g.width)
    ensures 0 <= Cell(g, i, col) < |h| && h[Cell(g, i, col)] == Value(g, i, col).score
  {
    hide Value;
    assert CellOk(g, h, c, i, col);
    InRowStart(g, i, col);
    CellInside(g, i, col);
  }

  /** A cell that the traceback visits: whether matches are preferred there, and whether it is taken. */
  datatype Visit = Visit(i: nat, j: nat, prefer: bool, taken: bool)

  /** A cell is taken if it is better than its diagonal and better than its left neighbour, or as good as that when
      matches are preferred. */
  ghost predicate Decided(g: Grid, v: Visit)
    requires GridOk(g)
  {
    InRow(g, v.i, v.j) &&
    var s, diag, left := Value(g, v.i, v.j).score, DiagScore(g, v.i, v.j), LeftValue(g, v.i, v.j).score;
    v.taken <==> s > diag && (s > left || (s == left && v.prefer))
  }

  /** The next cell lies one column to the left, behind a cell that is taken one row up.  Matches are preferred there
      if a run of at least two ends in this cell or one goes on behind it; nothing is said when that is for a cell
      that was never written to tell. */
  ghost predicate Leads(g: Grid, v: Visit, w: Visit)
    requires GridOk(g) && InRow(g, v.i, v.j)
  {
    && w.i == v.i - (if v.taken then 1 else 0) && w.j == v.j - 1
    && (Value(g, v.i, v.j).run > 1 ==> w.prefer)
    && (Value(g, v.i, v.j).run <= 1 && v.i + 1 == |g.f| ==> !w.prefer)
    && (Value(g, v.i, v.j).run <= 1 && v.i + 1 < |g.f| && InRow(g, v.i + 1, v.j + 1) ==>
          (w.prefer <==> Value(g, v.i + 1, v.j + 1).run > 0))
  }

  /** A way through the matrix, from the last character at `maxPos` on. */
  ghost predicate Way(g: Grid, maxPos: int, path: seq<Visit>)
    requires GridOk(g)
  {
    |path| > 0 &&
    var n := |path| - 1;
    InRow(g, path[n].i, path[n].j) &&
    if n == 0 then path[0].i == |g.f| - 1 && path[0].j == maxPos && path[0].prefer
    else Way(g, maxPos, path[..n]) && Decided(g, path[n - 1]) && Leads(g, path[n - 1], path[n])
  }

  /** The columns of the cells that are taken. */
  function Taken(path: seq<Visit>): (pos: seq<nat>) {
    if |path| == 0 then []
    else
      var n := |path| - 1;
      if path[n].taken then Taken(path[..n]) + [path[n].j] else Taken(path[..n])
  }

  /** The positions are those of the cells taken on a way that ends with the first character. */
  ghost predicate TracedBy(g: Grid, maxPos: int, pos: seq<nat>)
    requires GridOk(g)
  {
    exists path :: Way(g, maxPos, path) && WayEnds(g, path) && pos == Taken(path)
  }

  ghost predicate WayEnds(g: Grid, path: seq<Visit>)
    requires GridOk(g)
  {
    |path| > 0 && path[|path| - 1].i == 0 && path[|path| - 1].taken && Decided(g, path[|path| - 1])
  }

  lemma {:induction false} WayStarts(g: Grid, maxPos: nat)
    requires GridOk(g) && InRow(g, |g.f| - 1, maxPos)
    ensures Way(g, maxPos, [] + [Visit(|g.f| - 1, maxPos, true, false)]) && Taken([]) == []
  {
    var v := Visit(|g.f| - 1, maxPos, true, false);
    assert [] + [v] == [v];
  }

  /** The last visit is decided. */
  lemma {:induction false} WayDecided(g: Grid, maxPos: int, path: seq<Visit>, i: nat, j: nat, prefer: bool, taken: bool)
    requires GridOk(g) && Way(g, maxPos, path + [Visit(i, j, prefer, false)])
    ensures Way(g, maxPos, path + [Visit(i, j, prefer, taken)])
    ensures Taken(path + [Visit(i, j, prefer, taken)]) == if taken then Taken(path) + [j] else Taken(path)
  {
    hide Decided, Leads;
    var v, w := Visit(i, j, prefer, false), Visit(i, j, prefer, taken);
    assert (path + [v])[..|path|] == path == (path + [w])[..|path|];
    if |path| > 0 {
      LeadsSame(g, path[|path| - 1], v, w);
    }
  }

  lemma LeadsSame(g: Grid, u: Visit, v: Visit, w: Visit)
    requires GridOk(g) && InRow(g, u.i, u.j) && Leads(g, u, v) && w == v.(taken := w.taken)
    ensures Leads(g, u, w)
  {
  }

  lemma {:induction false} WayMore(g: Grid, maxPos: int, path: seq<Visit>, v: Visit, w: Visit)
    requires GridOk(g) && Way(g, maxPos, path + [v]) && Decided(g, v) && InRow(g, v.i, v.j) && Leads(g, v, w)
    requires InRow(g, w.i, w.j)
    ensures Way(g, maxPos, path + [v] + [w])
  {
    hide Decided, Leads;
    assert (path + [v] + [w])[..|path| + 1] == path + [v];
  }

  lemma {:induction false} VisitDecided(g: Grid, v: Visit)
    requires GridOk(g) && InRow(g, v.i, v.j)
    requires var s, diag, left := Value(g, v.i, v.j).score, DiagScore(g, v.i, v.j), LeftValue(g, v.i, v.j).score;
             v.taken == (s > diag && (s > left || (s == left && v.prefer)))
    ensures Decided(g, v)
  {
  }

  lemma {:induction false} WayDone(g: Grid, maxPos: int, path: seq<Visit>, v: Visit)
    requires GridOk(g) && Way(g, maxPos, path + [v]) && v.i == 0 && v.taken && Decided(g, v)
    ensures TracedBy(g, maxPos, Taken(path + [v]))
  {
    hide Way, Decided, Taken;
    assert (path + [v])[|path + [v]| - 1] == v;
    assert WayEnds(g, path + [v]);
  }

  /** One more cell is decided. */
  lemma {:induction false} VisitCell(g: Grid, maxPos: int, path: seq<Visit>, v: Visit)
    requires GridOk(g) && InRow(g, v.i, v.j) && Way(g, maxPos, path + [v.(taken := false)])
    requires var s, diag, left := Value(g, v.i, v.j).score, DiagScore(g, v.i, v.j), LeftValue(g, v.i, v.j).score;
             v.taken == (s > diag && (s > left || (s == left && v.prefer)))
    ensures Way(g, maxPos, path + [v]) && Decided(g, v)
    ensures Taken(path + [v]) == if v.taken then Taken(path) + [v.j] else Taken(path)
    ensures v.taken && v.i == 0 ==> TracedBy(g, maxPos, Taken(path) + [v.j])
  {
    hide Way, Decided, Taken, Value, DiagScore, LeftValue, TracedBy;
    WayDecided(g, maxPos, path, v.i, v.j, v.prefer, v.taken);
    VisitDecided(g, v);
    if v.taken && v.i == 0 {
      WayDone(g, maxPos, path, v);
    }
  }

  lemma {:induction false} VisitNext(g: Grid, h: seq<i16>, c: seq<i16>, maxPos: int, path: seq<Visit>, v: Visit,
                                     prefer: bool)
    requires GridOk(g) && Sized(g, h, c) && InRow(g, v.i, v.j) && Written(g, h, c, |g.f| - 1, g.f[0] + g.width)
    requires v.j > 0 && (v.taken ==> v.i > 0) && Way(g, maxPos, path + [v]) && Decided(g, v)
    requires InRow(g, if v.taken then v.i - 1 else v.i, v.j - 1)
    requires var k := RowStart(v.i, g.width) + v.j - g.f[0];
             0 <= k < |c| && prefer == (c[k] > 1 || (k + g.width + 1 < |c| && c[k + g.width + 1] > 0))
    ensures Way(g, maxPos, path + [v] + [Visit(v.i - (if v.taken then 1 else 0), v.j - 1, prefer, false)])
  {
    hide Way, Decided, Leads, Written, RowStart;
    VisitLeads(g, h, c, v, prefer);
    WayMore(g, maxPos, path, v, Visit(v.i - (if v.taken then 1 else 0), v.j - 1, prefer, false));
  }

  /** What the run lengths around a cell say, as far as they were written. */
  lemma {:induction false} VisitLeads(g: Grid, h: seq<i16>, c: seq<i16>, v: Visit, prefer: bool)
    requires GridOk(g) && Sized(g, h, c) && InRow(g, v.i, v.j) && Written(g, h, c, |g.f| - 1, g.f[0] + g.width)
    requires v.j > 0 && (v.taken ==> v.i > 0)
    requires var k := RowStart(v.i, g.width) + v.j - g.f[0];
             0 <= k < |c| && prefer == (c[k] > 1 || (k + g.width + 1 < |c| && c[k + g.width + 1] > 0))
    ensures Leads(g, v, Visit(v.i - (if v.taken then 1 else 0), v.j - 1, prefer, false))
  {
    hide Value, Written, RowStart;
    RunHolds(g, h, c, v.i, v.j);
    RowAbove(g, v.i + 1);
    if v.i + 1 < |g.f| {
      if InRow(g, v.i + 1, v.j + 1) {
        RunHolds(g, h, c, v.i + 1, v.j + 1);
      }
    } else {
      RowInside(g, v.i, v.j);
    }
  }

  lemma {:induction false} RowInside(g: Grid, i: nat, col: int)
    requires GridOk(g) && i + 1 == |g.f| && InRow(g, i, col)
    ensures RowStart(i, g.width) + col - g.f[0] + g.width + 1 >= RowStart(|g.f|, g.width)
  {
    InRowStart(g, i, col);
    RowAbove(g, i + 1);
  }

  lemma {:induction false} RunHolds(g: Grid, h: seq<i16>, c: seq<i16>, i: nat, col: int)
    requires GridOk(g) && Sized(g, h, c) && InRow(g, i, col) && Written(g, h, c, |g.f| - 1, g.f[0] + g.width)
    ensures var k := RowStart(i, g.width) + col - g.f[0]; 0 <= k < |c| && c[k] == Value(g, i, col).run
  {
    hide Value;
    assert CellOk(g, h, c, i, col);
    InRowStart(g, i, col);
    CellInside(g, i, col);
  }

  /** The traceback: whatever the cells that were never written hold, it stays in the written part of the
      matrix, ends, and lists one position for each pattern character, from the last to the first. */
  method Traceback(ghost g: Grid, f: array<int>, h: array<i16>, c: array<i16>, width: nat, maxPos: nat,
                   ghost maxScore: int)
    returns (pos: seq<nat>, start: nat)
    requires GridOk(g) && f[..] == g.f && width == g.width && h != c && Sized(g, h[..], c[..])
    requires Written(g, h[..], c[..], |g.f| - 1, g.f[0] + g.width)
    requires Best(g, g.f[0] + g.width, maxScore, maxPos)
    ensures |pos| == |g.pat| && Backwards(g.t, g.pat, pos)
    ensures pos[0] == maxPos && pos[|pos| - 1] == start
    ensures TracedBy(g, maxPos, pos)
  {
    hide Written, Best, RowStart, Value, LeftValue, DiagScore, Way, Decided, Taken, TracedBy, Backwards;
    ghost var hs, cs := h[..], c[..];
    BestIsTaken(g, maxScore, maxPos);
    var f0 := f[0];
    assert f0 == f[..][0];
    pos := [];
    var i, j := f.Length - 1, maxPos;
    var preferMatch := true;
    ghost var path: seq<Visit> := [];
    WayStarts(g, maxPos);
    NothingBackwards(g);
    while true
      invariant 0 <= i < |g.f| && InRow(g, i, j)
      invariant Way(g, maxPos, path + [Visit(i, j, preferMatch, false)]) && pos == Taken(path)
      invariant |pos| == |g.f| - 1 - i && Backwards(g.t, g.pat, pos) && forall k :: 0 <= k < |pos| ==> j < pos[k]
      invariant if |pos| == 0 then j == maxPos else pos[0] == maxPos
      decreases j
    {
      TraceCell(g, hs, cs, i, j);
      RowStartTimes(i, width);
      var ii, j0 := i * width, j - f0;
      var fi := f[i];
      assert fi == f[..][i];
      var s := h[ii + j0];
      var s1, s2 := 0, 0;
      if i > 0 && j >= fi {
        s1 := h[ii - width + j0 - 1];
      }
      if j > fi {
        s2 := h[ii + j0 - 1];
      }
      ghost var v := Visit(i, j, preferMatch, s > s1 && (s > s2 || (s == s2 && preferMatch)));
      VisitCell(g, maxPos, path, v);
      if s > s1 && (s > s2 || (s == s2 && preferMatch)) {
        BackwardsMore(g.t, g.pat, pos, j);
        pos := pos + [j];
        if i == 0 {
          break;
        }
        i := i - 1;
      }
      preferMatch := c[ii + j0] > 1 || (ii + width + j0 + 1 < c.Length && c[ii + width + j0 + 1] > 0);
      j := j - 1;
      VisitNext(g, hs, cs, maxPos, path, v, preferMatch);
      path := path + [v];
    }
    start := j;
  }

  // ---------------------------------------------------------------- the first pass

  /** Row 0 of the first pass, which starts at `lo`. */
  ghost predicate FirstCells(text: seq<u8>, t: seq<u8>, first: u8, h0: seq<i16>, c0: seq<i16>, lo: nat, hi: nat)
    requires lo <= hi <= |t| == |h0| == |c0|
  {
    forall k :: lo <= k < hi ==> FirstCell(text, t, first, h0, c0, lo, k)
  }

  ghost predicate FirstCell(text: seq<u8>, t: seq<u8>, first: u8, h0: seq<i16>, c0: seq<i16>, lo: nat, k: nat)
    requires lo <= k < |t| == |h0| == |c0|
  {
    h0[k] == First(text, t, first, lo, k).score && c0[k] == First(text, t, first, lo, k).run
  }

  /** The first places that were found for the pattern characters in front of `hi`: as many as there are, and
      the first possible ones. */
  ghost predicate FirstPlaces(t: seq<u8>, pat: seq<u8>, f: seq<int>, n: nat, lo: nat, hi: nat)
    requires n <= |pat| <= |f| && lo <= hi <= |t|
  {
    && (forall i, j :: 0 <= i < j < n ==> f[i] < f[j])
    && (forall i :: 0 <= i < n ==> lo <= f[i] < hi && t[f[i]] == pat[i])
    && (forall i :: 0 <= i < n ==> 0 <= Behind(f, i, lo) && Earliest(t, pat, f, i, lo))
    && (n < |pat| ==> forall k :: Behind(f, n, lo) <= k < hi && 0 <= k ==> t[k] != pat[n])
  }

  /** The last place of the last pattern character in front of `hi`. */
  predicate LastPlace(t: seq<u8>, b: u8, last: nat, hi: nat)
    requires hi <= |t|
  {
    last < hi && t[last] == b && forall k :: last < k < hi ==> t[k] != b
  }

  /** The score of a pattern of one character at `k`. */
  function SingleScore(text: seq<u8>, k: nat): int
    requires k < |text|
  {
    SCORE_MATCH + BonusAt(text, k) * BONUS_FIRST_CHAR_MULTIPLIER
  }

  /** `p` is the best place for a pattern of one character. */
  ghost predicate BestSingle(text: seq<u8>, t: seq<u8>, b: u8, p: int, score: int)
    requires |t| == |text|
  {
    0 <= p < |t| && t[p] == b && score == SingleScore(text, p) &&
    (forall k :: 0 <= k < |t| && t[k] == b ==> SingleScore(text, k) <= score) &&
    forall k :: 0 <= k < p && t[k] == b ==> SingleScore(text, k) < score
  }

  lemma FirstCellsNext(text: seq<u8>, t: seq<u8>, first: u8, h0: seq<i16>, c0: seq<i16>, lo: nat, k: nat, s: i16,
                       n: i16)
    requires lo <= k < |t| == |h0| == |c0| && FirstCells(text, t, first, h0, c0, lo, k)
    requires FirstCell(text, t, first, h0[k := s], c0[k := n], lo, k)
    ensures FirstCells(text, t, first, h0[k := s], c0[k := n], lo, k + 1)
  {
    hide First;
    var h', c' := h0[k := s], c0[k := n];
    forall j | lo <= j < k
      ensures FirstCell(text, t, first, h', c', lo, j)
    {
      assert FirstCell(text, t, first, h0, c0, lo, j);
    }
  }

  /** The score of one character in row 0. */
  method FirstScore(ghost text: seq<u8>, ghost t: seq<u8>, ghost first: u8, isFirst: bool, bonus: i16, prevH0: i16,
                    inGap: bool, ghost lo: nat, k: nat, h0: array<i16>, c0: array<i16>)
    returns (score: i16)
    requires h0 != c0 && lo <= k < |t| == h0.Length == c0.Length && isFirst == (t[k] == first)
    requires 0 <= bonus <= BONUS_BOUNDARY && (isFirst ==> bonus == Bonus(text, k))
    requires if k > lo then
               prevH0 == First(text, t, first, lo, k - 1).score && inGap == First(text, t, first, lo, k - 1).gap
             else prevH0 == 0
    requires FirstCells(text, t, first, h0[..], c0[..], lo, k)
    modifies h0, c0
    ensures FirstCells(text, t, first, h0[..], c0[..], lo, k + 1)
    ensures score == First(text, t, first, lo, k).score && isFirst == !First(text, t, first, lo, k).gap
  {
    ghost var hs, cs := h0[..], c0[..];
    if isFirst {
      score := SCORE_MATCH + bonus * BONUS_FIRST_CHAR_MULTIPLIER;
      h0[k], c0[k] := score, 1;
    } else {
      score := Max(prevH0 + if inGap then SCORE_GAP_EXTENSION else SCORE_GAP_START, 0);
      h0[k], c0[k] := score, 0;
    }
    FirstCellsNext(text, t, first, hs, cs, lo, k, score, if isFirst then 1 else 0);
    assert h0[..] == hs[k := score] && c0[..] == cs[k := if isFirst then 1 else 0];
  }

  /** In row 0 nothing in front of an occurrence of the first character matters behind it. */
  lemma {:induction false} FirstFrom(text: seq<u8>, t: seq<u8>, b: u8, lo: nat, mid: nat, k: nat)
    requires lo <= mid <= k < |t| && t[mid] == b
    ensures First(text, t, b, lo, k) == First(text, t, b, mid, k)
    decreases k
  {
    if mid < k {
      FirstFrom(text, t, b, lo, mid, k - 1);
    }
  }

  /** The search for the first place of each pattern character. */
  method Locate(ghost t: seq<u8>, pattern: seq<u8>, c: u8, k: nat, f: array<int>, pidx0: nat, lastIdx0: nat,
                ghost lo: nat)
    returns (pidx: nat, lastIdx: nat)
    requires 0 < |pattern| == f.Length && lo <= k < |t| && c == t[k]
    requires pidx0 == Found(t, pattern, lo, k) && FirstPlaces(t, pattern, f[..], pidx0, lo, k)
    requires pidx0 == |pattern| ==> f[pidx0 - 1] <= lastIdx0 && LastPlace(t, pattern[pidx0 - 1], lastIdx0, k)
    modifies f
    ensures pidx == Found(t, pattern, lo, k + 1) && FirstPlaces(t, pattern, f[..], pidx, lo, k + 1)
    ensures pidx == |pattern| ==> f[pidx - 1] <= lastIdx && LastPlace(t, pattern[pidx - 1], lastIdx, k + 1)
  {
    pidx, lastIdx := pidx0, lastIdx0;
    ghost var fs := f[..];
    var pchar := pattern[if pidx < |pattern| then pidx else |pattern| - 1];
    if c == pchar {
      if pidx < |pattern| {
        f[pidx] := k;
        assert f[..] == fs[pidx := k];
        PlacesNext(t, pattern, fs, pidx, lo, k);
        pidx := pidx + 1;
      } else {
        PlacesPass(t, pattern, fs, pidx, lo, k);
      }
      lastIdx := k;
    } else {
      PlacesPass(t, pattern, fs, pidx, lo, k);
    }
  }

  lemma PlacesNext(t: seq<u8>, pat: seq<u8>, f: seq<int>, n: nat, lo: nat, k: nat)
    requires n < |pat| <= |f| && lo <= k < |t| && FirstPlaces(t, pat, f, n, lo, k) && t[k] == pat[n]
    ensures FirstPlaces(t, pat, f[n := k], n + 1, lo, k + 1)
  {
    var f' := f[n := k];
    forall i | 0 <= i < n + 1
      ensures 0 <= Behind(f', i, lo) && Earliest(t, pat, f', i, lo)
    {
      assert Behind(f', i, lo) == Behind(f, i, lo);
      if i < n {
        assert Earliest(t, pat, f, i, lo);
      }
    }
  }

  lemma PlacesPass(t: seq<u8>, pat: seq<u8>, f: seq<int>, n: nat, lo: nat, k: nat)
    requires n <= |pat| <= |f| && lo <= k < |t| && FirstPlaces(t, pat, f, n, lo, k) && (n < |pat| ==> t[k] != pat[n])
    ensures FirstPlaces(t, pat, f, n, lo, k + 1)
  {
  }

  /** The best place so far for a pattern of one character. */
  ghost predicate BestSoFar(text: seq<u8>, t: seq<u8>, b: u8, lo: nat, hi: nat, p: int, score: int)
    requires lo <= hi <= |t| == |text|
  {
    if score == 0 then forall k :: lo <= k < hi ==> t[k] != b
    else 0 <= p < |t| && t[p] == b && score == SingleScore(text, p) &&
         (forall k :: lo <= k < hi && t[k] == b ==> SingleScore(text, k) <= score) &&
         forall k :: lo <= k < p && t[k] == b ==> SingleScore(text, k) < score
  }

  lemma {:induction false} PassStart(text: seq<u8>, t: seq<u8>, pat: seq<u8>, lo: nat, f: seq<int>, h0: seq<i16>,
                                     c0: seq<i16>)
    requires 0 < |pat| == |f| && lo <= |t| == |text| == |h0| == |c0|
    ensures Found(t, pat, lo, lo) == 0 && FirstPlaces(t, pat, f, 0, lo, lo)
    ensures FirstCells(text, t, pat[0], h0, c0, lo, lo) && BestSoFar(text, t, pat[0], lo, lo, 0, 0)
  {
  }

  lemma SingleNext(text: seq<u8>, t: seq<u8>, b: u8, lo: nat, k: nat, p: int, best: int, score: int)
    requires lo <= k < |t| == |text| && BestSoFar(text, t, b, lo, k, p, best) && best >= 0 && (best > 0 ==> p < k)
    requires t[k] == b ==> score == SingleScore(text, k)
    ensures if t[k] == b && score > best then BestSoFar(text, t, b, lo, k + 1, k, score)
            else BestSoFar(text, t, b, lo, k + 1, p, best)
  {
    hide BonusAt;
  }

  /** No place is better than one with the highest bonus. */
  lemma SingleDone(text: seq<u8>, t: seq<u8>, pat: seq<u8>, lo: nat, k: nat, best: int)
    requires |pat| == 1 && lo <= k < |t| == |text| && t[k] == pat[0]
    requires forall i :: 0 <= i < |t| && t[i] == pat[0] ==> lo <= i
    requires BestSoFar(text, t, pat[0], lo, k + 1, k, best) &&
             best == SCORE_MATCH + BONUS_BOUNDARY * BONUS_FIRST_CHAR_MULTIPLIER
    ensures Found(t, pat, lo, k + 1) == 1 && BestSingle(text, t, pat[0], k, best)
  {
  }

  lemma {:induction false} SingleEnd(text: seq<u8>, t: seq<u8>, pat: seq<u8>, lo: nat, p: int, best: int)
    requires |pat| == 1 && lo <= |t| == |text| && BestSoFar(text, t, pat[0], lo, |t|, p, best)
    requires forall i :: 0 <= i < |t| && t[i] == pat[0] ==> lo <= i
    ensures Found(t, pat, lo, |t|) == 1 ==> BestSingle(text, t, pat[0], p, best)
  {
    hide BonusAt;
    if Found(t, pat, lo, |t|) == 1 {
      var ps := FoundEmbeds(t, pat, lo, |t|);
      assert t[ps[0]] == pat[0];
    }
  }

  /** What the first pass finds out for a pattern of two or more characters. */
  ghost predicate Passed(text: seq<u8>, tt: seq<u8>, pattern: seq<u8>, lo: nat, pidx: nat, lastIdx: nat, t: seq<int>,
                         bo: seq<i16>, f: seq<int>, h0: seq<i16>, c0: seq<i16>)
    requires 0 < |pattern| == |f| && pidx <= |pattern| && lo <= |tt| == |text| == |t| == |h0| == |c0|
  {
    && pidx == Found(tt, pattern, lo, |tt|) && FirstPlaces(tt, pattern, f, pidx, lo, |tt|)
    && (pidx == |pattern| ==> f[pidx - 1] <= lastIdx && LastPlace(tt, pattern[pidx - 1], lastIdx, |tt|))
    && FirstCells(text, tt, pattern[0], h0, c0, lo, |tt|)
    && (forall k :: lo <= k < |tt| ==> t[k] == tt[k])
    && (lo < |text| ==> Bonuses(text, bo, if lo == 0 then 0 else lo + 1))
  }

  /** The bonus of one position; only at the first position of the pass it may differ from that of the text. */
  lemma PassBonus(text: seq<u8>, lo: nat, k: nat, prev: Class)
    requires lo <= k < |text| && prev == if k > lo then ClassOf(text[k - 1]) else NonWord
    ensures k > lo || k == 0 ==> BonusFor(prev, ClassOf(text[k])) == BonusAt(text, k) == Bonus(text, k)
  {
  }

  /** Keeps the best place for a pattern of one character; the highest bonus ends the search. */
  method KeepBest(ghost text: seq<u8>, ghost t: seq<u8>, ghost pattern: seq<u8>, isFirst: bool, score: i16, bonus: i16,
                  best: i16, p: nat, k: nat, ghost lo: nat)
    returns (maxScore: i16, maxPos: nat, done: bool)
    requires |pattern| == 1 && lo <= k < |t| == |text| && isFirst == (t[k] == pattern[0])
    requires forall i :: 0 <= i < |t| && t[i] == pattern[0] ==> lo <= i
    requires BestSoFar(text, t, pattern[0], lo, k, p, best) && best >= 0 && (best > 0 ==> p < k)
    requires isFirst ==> bonus == BonusAt(text, k) && score == First(text, t, pattern[0], lo, k).score
    ensures maxScore >= 0 && (maxScore > 0 ==> maxPos < k + 1)
    ensures BestSoFar(text, t, pattern[0], lo, k + 1, maxPos, maxScore)
    ensures done ==> Found(t, pattern, lo, k + 1) == 1 && BestSingle(text, t, pattern[0], maxPos, maxScore)
  {
    hide BestSoFar, Found, BestSingle;
    MatchScore(text, t, pattern[0], lo, k);
    SingleNext(text, t, pattern[0], lo, k, p, best, score);
    maxScore, maxPos, done := best, p, false;
    if isFirst && score > best {
      maxScore, maxPos := score, k;
      if bonus == BONUS_BOUNDARY {
        SingleDone(text, t, pattern, lo, k, maxScore);
        done := true;
      }
    }
  }

  /** Phase 2 of the source: folds the text from `idx` on, rates each position, finds the first place of
      each pattern character and fills row 0.  For a pattern of one character it is the whole search. */
  method FirstPass(caseSensitive: bool, text: seq<u8>, pattern: seq<u8>, idx: nat, t: array<int>, bo: array<i16>,
                   f: array<int>, h0: array<i16>, c0: array<i16>)
    returns (pidx: nat, lastIdx: nat, maxScore: i16, maxPos: nat)
    requires 0 < |pattern| == f.Length && idx <= |text| == t.Length == bo.Length == h0.Length == c0.Length
    requires h0 != c0 && h0 != bo && c0 != bo && f != t
    requires forall i :: 0 <= i < |text| && Folded(caseSensitive, text)[i] == pattern[0] ==> idx == 0 || idx < i
    modifies t, bo, f, h0, c0
    ensures var tt := Folded(caseSensitive, text);
            pidx <= |pattern| &&
            (|pattern| > 1 ==> Passed(text, tt, pattern, idx, pidx, lastIdx, t[..], bo[..], f[..], h0[..], c0[..])) &&
            (|pattern| == 1 ==> if pidx == 1 then BestSingle(text, tt, pattern[0], maxPos, maxScore)
                                else pidx == 0 == Found(tt, pattern, idx, |tt|))
  {
    hide Found, FirstPlaces, FirstCells, BestSoFar, BestSingle, First, LastPlace, Folded, BonusFor, Bonus, ClassOf,
      ToLower, BonusAt;
    ghost var tt := Folded(caseSensitive, text);
    FoldedSame(caseSensitive, text);
    PassStart(text, tt, pattern, idx, f[..], h0[..], c0[..]);
    pidx, lastIdx, maxScore, maxPos := 0, 0, 0, 0;
    var prevH0: i16 := 0;
    var prevClass := NonWord;
    var inGap := false;
    var k := idx;
    while k < |text|
      invariant idx <= k <= |text| && pidx == Found(tt, pattern, idx, k) && f.Length == |pattern|
      invariant FirstPlaces(tt, pattern, f[..], pidx, idx, k)
      invariant pidx == |pattern| ==> f[pidx - 1] <= lastIdx && LastPlace(tt, pattern[pidx - 1], lastIdx, k)
      invariant FirstCells(text, tt, pattern[0], h0[..], c0[..], idx, k)
      invariant forall j :: idx <= j < k ==> t[j] == tt[j] && ((j > idx || j == 0) ==> bo[j] == BonusAt(text, j))
      invariant prevClass == if k > idx then ClassOf(text[k - 1]) else NonWord
      invariant if k > idx then prevH0 == First(text, tt, pattern[0], idx, k - 1).score &&
                                inGap == First(text, tt, pattern[0], idx, k - 1).gap
                else prevH0 == 0
      invariant if |pattern| == 1 then
                  BestSoFar(text, tt, pattern[0], idx, k, maxPos, maxScore) && (maxScore > 0 ==> maxPos < k)
                else maxScore == 0
      invariant maxScore >= 0
    {
      var cls := ClassOf(text[k]);
      var c := if !caseSensitive && cls == Upper then ToLower(text[k]) else text[k];
      FoldedAt(caseSensitive, text, k);
      var bonus := BonusFor(prevClass, cls);
      PassBonus(text, idx, k, prevClass);
      t[k], bo[k] := c, bonus;
      prevClass := cls;
      pidx, lastIdx := Locate(tt, pattern, c, k, f, pidx, lastIdx, idx);
      var score := FirstScore(text, tt, pattern[0], c == pattern[0], bonus, prevH0, inGap, idx, k, h0, c0);
      if |pattern| == 1 {
        var done;
        maxScore, maxPos, done := KeepBest(text, tt, pattern, c == pattern[0], score, bonus, maxScore, maxPos, k, idx);
        if done {
          return;
        }
      }
      inGap := c != pattern[0];
      prevH0 := score;
      k := k + 1;
    }
    if |pattern| == 1 {
      SingleEnd(text, tt, pattern, idx, maxPos, maxScore);
    }
  }

  lemma FoldedSame(caseSensitive: bool, text: seq<u8>)
    ensures |Folded(caseSensitive, text)| == |text|
  {
  }

  lemma FoldedAt(caseSensitive: bool, text: seq<u8>, k: nat)
    requires k < |text|
    ensures Folded(caseSensitive, text)[k] ==
            if !caseSensitive && ClassOf(text[k]) == Upper then ToLower(text[k]) else text[k]
  {
  }

  lemma {:induction false} MatchScore(text: seq<u8>, t: seq<u8>, b: u8, lo: nat, k: nat)
    requires lo <= k < |t| == |text|
    ensures t[k] == b ==> First(text, t, b, lo, k).score == SingleScore(text, k)
  {
  }

  // ---------------------------------------------------------------- the matcher

  datatype Slab = NoSlab | Slab(cap: nat)

  const DEFAULT_SLAB := Slab(100 * 1024)

  /** The lengths for which the program stays within 16 bits: those of short patterns, and those for which it
      fills no matrix because the pattern is longer than the text or the text too long for the slab. */
  predicate ScoresFit(slab: Slab, n: nat, m: nat) {
    m <= MAX_PATTERN || n < m || (slab.Slab? && n * m > slab.cap)
  }

  /** With a slab of at most 1364 * 1364 entries all lengths fit; with the default one, the matrix is filled for
      up to 320 pattern characters. */
  lemma SlabBoundsPattern(cap: nat, n: nat, m: nat)
    ensures cap <= MAX_PATTERN * MAX_PATTERN ==> ScoresFit(Slab(cap), n, m)
    ensures m <= n && n * m <= cap <= 102400 ==> m <= 320
    ensures DEFAULT_SLAB == Slab(102400)
  {
    if m <= n {
      assert m * m <= n * m;
      if m > MAX_PATTERN {
        assert m * m > MAX_PATTERN * MAX_PATTERN;
      }
      if m > 320 {
        assert m * m >= 321 * 321;
      }
    }
  }

  method CopyInto(src: array<i16>, from: nat, n: nat, dst: array<i16>)
    requires src != dst && from + n <= src.Length && n <= dst.Length
    modifies dst
    ensures forall k :: 0 <= k < n ==> dst[k] == src[from + k]
  {
    var i := 0;
    while i < n
      invariant 0 <= i <= n && forall k :: 0 <= k < i ==> dst[k] == src[from + k]
    {
      dst[i] := src[from + i];
      i := i + 1;
    }
  }

  /** The copied first pass is row 0. */
  lemma RowZero(g: Grid, h0: seq<i16>, c0: seq<i16>, h: seq<i16>, c: seq<i16>, lo: nat)
    requires GridOk(g) && Sized(g, h, c) && |h0| == |c0| == |g.t| && lo <= g.f[0]
    requires FirstCells(g.text, g.t, g.pat[0], h0, c0, lo, |g.t|) && g.width <= |h|
    requires forall k :: 0 <= k < g.width ==> h[k] == h0[g.f[0] + k] && c[k] == c0[g.f[0] + k]
    ensures Written(g, h, c, 0, g.f[0] + g.width)
  {
    hide First;
    forall col | InRow(g, 0, col)
      ensures CellOk(g, h, c, 0, col)
    {
      assert FirstCell(g.text, g.t, g.pat[0], h0, c0, lo, col);
      FirstFrom(g.text, g.t, g.pat[0], lo, g.f[0], col);
      assert h[col - g.f[0]] == h0[g.f[0] + (col - g.f[0])];
    }
  }

  lemma BestScore(g: Grid, maxScore: int, maxPos: int)
    requires GridOk(g) && Best(g, g.f[0] + g.width, maxScore, maxPos)
    ensures 16 <= maxScore <= 24 * |g.f| + 8 && g.f[|g.f| - 1] <= maxPos < |g.t|
  {
    BestIsTaken(g, maxScore, maxPos);
  }

  /** Where the first places follow each other, a cell at a first place has the score of that alignment. */
  lemma {:induction false} AdjacentInNumbers(g: Grid, i: nat)
    requires GridOk(g) && i < |g.f| && forall j :: 0 <= j <= i ==> g.f[j] == g.f[0] + j
    ensures InRow(g, i, g.f[i]) && g.f[i] < |g.text|
    ensures var ps, v := seq(i + 1, k => g.f[0] + k), Value(g, i, g.f[i]);
            Increasing(ps) && (forall k :: 0 <= k < i + 1 ==> ps[k] < |g.text|) &&
            v.score == Score(g.text, ps, i + 1) && v.run > 0 &&
            RunBonus(g.text, ps, i) == Bonus(g.text, g.f[i] - v.run + 1)
    decreases i
  {
    hide BonusAt, Place, Value, Score, RunBonus, MatchBonus;
    var col, ps := g.f[i], seq(i + 1, k => g.f[0] + k);
    assert g.t[g.f[i]] == g.pat[i];
    BonusIsPlace(g.text, col);
    BonusInNumbers(g.text, col);
    PlaceAtEdge(g.text, col);
    if i == 0 {
      FirstInNumbers(g, col);
      assert ps == [col];
      ScoreStep(g.text, ps, 1);
      SingleRun(g.text, col);
    } else {
      var qs, d := seq(i, k => g.f[0] + k), Value(g, i - 1, col - 1);
      AdjacentInNumbers(g, i - 1);
      CellInNumbers(g, i, col);
      assert ps == qs + [col];
      ScoreNext(g.text, qs, col);
      NextBonus(g.text, qs, col);
      BonusIsPlace(g.text, col - d.run);
      PlaceAtEdge(g.text, col - d.run);
    }
  }

  lemma {:induction false} SingleRun(text: seq<u8>, p: nat)
    requires p < |text|
    ensures RunBonus(text, [p], 0) == MatchBonus(text, [p], 0) == BonusAt(text, p)
  {
    hide BonusAt;
  }

  /** The reported score is at least that of some alignment that ends where the match is said to end; in a text of
      at most 14 characters it is the score of one. */
  ghost predicate Supported(text: seq<u8>, t: seq<u8>, pattern: seq<u8>, r: Result) {
    exists ps :: SupportedBy(text, t, pattern, r, ps)
  }

  ghost predicate SupportedBy(text: seq<u8>, t: seq<u8>, pattern: seq<u8>, r: Result, ps: seq<nat>) {
    && |ps| > 0 && Embeds(t, pattern, 0, r.end, ps) && ps[|ps| - 1] == r.end - 1
    && Inside(text, ps, |ps|) && Points(text, ps) <= r.score && (|text| <= 14 ==> r.score == Points(text, ps))
  }

  /** All positions of the text. */
  function Whole(text: seq<u8>): (ps: seq<nat>)
    ensures |ps| == |text| && Inside(text, ps, |ps|)
  {
    seq(|text|, k => k)
  }

  /** The best cell ends a run, so the alignment behind it ends there too. */
  lemma {:induction false} BestSupported(g: Grid, r: Result)
    requires GridOk(g) && Best(g, g.f[0] + g.width, r.score, r.end - 1)
    ensures Supported(g.text, g.t, g.pat, r)
  {
    hide Value, Score, Points, Inside;
    var i, col := |g.f| - 1, r.end - 1;
    BestIsTaken(g, r.score, col);
    var ps := CellIsBacked(g, i, col);
    NoRunFades(g, i, col);
    ScoreIsPoints(g.t, g.pat, 0, col + 1, g.text, ps);
    assert SupportedBy(g.text, g.t, g.pat, r, ps);
  }

  lemma {:induction false} NoRunFades(g: Grid, i: nat, col: nat)
    requires GridOk(g) && InRow(g, i, col)
    ensures Value(g, i, col).run > 0 || Value(g, i, col).score == 0 ||
            Value(g, i, col).score < LeftValue(g, i, col).score
  {
    hide Place, Value;
    LeftAt(g, i, col);
    if i == 0 {
      FirstInNumbers(g, col);
    } else {
      CellInNumbers(g, i, col);
    }
  }

  /** When the pattern is the whole text, each character has one place and the last row one cell. */
  lemma {:induction false} WholeGrid(g: Grid, r: Result)
    requires GridOk(g) && g.pat == g.t && Best(g, g.f[0] + g.width, r.score, r.end - 1)
    ensures r.end == |g.text| && r.score == Points(g.text, Whole(g.text))
  {
    hide Value, Score, Points, Inside;
    var n := |g.t|;
    WholeSpan(g.f, n);
    BestIsTaken(g, r.score, r.end - 1);
    AdjacentInNumbers(g, n - 1);
    var ps := Whole(g.text);
    assert seq(n, k => g.f[0] + k) == ps;
    ScoreIsPoints(g.t, g.t, 0, n, g.text, ps);
  }

  lemma {:induction false} WholeSpan(f: seq<int>, n: nat)
    requires |f| == n > 0 && f[0] >= 0 && f[n - 1] < n && forall i, j :: 0 <= i < j < |f| ==> f[i] < f[j]
    ensures forall i :: 0 <= i < n ==> f[i] == i
  {
    forall i | 0 <= i < n
      ensures 0 <= f[i] < n
    {
      assert f[0] <= f[i] <= f[n - 1];
    }
    var ps: seq<nat> := seq(n, i requires 0 <= i < n => f[i]);
    NoRoom(ps, 0);
    assert forall i :: 0 <= i < n ==> ps[i] == f[i];
  }

  /** The result of a run with a matrix: the first best cell of the last row. */
  ghost predicate BestCell(text: seq<u8>, t: seq<u8>, pattern: seq<u8>, r: Result) {
    exists g :: IsGrid(g, text, t, pattern) && Best(g, g.f[0] + g.width, r.score, r.end - 1)
  }

  /** The positions are those of the traceback from there. */
  ghost predicate CellTraced(text: seq<u8>, t: seq<u8>, pattern: seq<u8>, r: Result, pos: seq<nat>) {
    exists g :: IsGrid(g, text, t, pattern) && Best(g, g.f[0] + g.width, r.score, r.end - 1) &&
                TracedBy(g, r.end - 1, pos)
  }

  lemma {:induction false} MatrixDone(g: Grid, r: Result, pos: seq<nat>)
    requires IsGrid(g, g.text, g.t, g.pat) && GridOk(g) && Best(g, g.f[0] + g.width, r.score, r.end - 1)
    requires |pos| == |g.pat| && Backwards(g.t, g.pat, pos) && pos[0] == r.end - 1 && pos[|pos| - 1] == r.start
    requires TracedBy(g, r.end - 1, pos)
    ensures Traced(g.t, g.pat, r, pos) && BestCell(g.text, g.t, g.pat, r) && CellTraced(g.text, g.t, g.pat, r, pos)
    ensures Supported(g.text, g.t, g.pat, r)
    ensures g.pat == g.t ==> r == Result(0, |g.text|, Points(g.text, Whole(g.text)))
  {
    hide Best, IsGrid, TracedBy, Points, Inside, Supported, Backwards;
    BestScore(g, r.score, r.end - 1);
    BestSupported(g, r);
    if g.pat == g.t {
      WholeGrid(g, r);
      WholeBackwards(g.t, pos);
    }
  }

  /** The places that the first pass has found make up the grid. */
  lemma PassedGrid(text: seq<u8>, tt: seq<u8>, pattern: seq<u8>, lo: nat, lastIdx: nat, f: seq<int>) returns (g: Grid)
    requires 0 < |pattern| == |f| && lo <= |tt| == |text|
    requires FirstPlaces(tt, pattern, f, |pattern|, lo, |tt|) && f[|pattern| - 1] <= lastIdx
    requires LastPlace(tt, pattern[|pattern| - 1], lastIdx, |tt|)
    requires forall i :: 0 <= i < |tt| && tt[i] == pattern[0] ==> lo == 0 || lo < i
    ensures f[0] <= lastIdx && g == Grid(text, tt, pattern, f, lastIdx - f[0] + 1) && IsGrid(g, text, tt, pattern)
    ensures f[0] > lo || lo == 0
  {
    assert f[0] <= f[|pattern| - 1];
    g := Grid(text, tt, pattern, f, lastIdx - f[0] + 1);
    forall i | 0 <= i < |f|
      ensures 0 <= Behind(f, i, 0) && Earliest(tt, pattern, f, i, 0)
    {
      assert Earliest(tt, pattern, f, i, lo);
      assert i > 0 ==> Behind(f, i, 0) == Behind(f, i, lo);
    }
  }

  /** The rows behind the first, and the traceback. */
  method Matrix(ghost text: seq<u8>, ghost tt: seq<u8>, pattern: seq<u8>, ghost lo: nat, lastIdx: nat, t: array<int>,
                bo: array<i16>, f: array<int>, h0: array<i16>, c0: array<i16>)
    returns (r: Result, pos: seq<nat>)
    requires 2 <= |pattern| == f.Length <= MAX_PATTERN &&
             |tt| == |text| == t.Length == bo.Length == h0.Length == c0.Length
    requires lo <= |tt| && Passed(text, tt, pattern, lo, |pattern|, lastIdx, t[..], bo[..], f[..], h0[..], c0[..])
    requires forall i :: 0 <= i < |tt| && tt[i] == pattern[0] ==> lo == 0 || lo < i
    ensures Traced(tt, pattern, r, pos) && BestCell(text, tt, pattern, r) && CellTraced(text, tt, pattern, r, pos)
    ensures Supported(text, tt, pattern, r)
    ensures pattern == tt ==> r == Result(0, |text|, Points(text, Whole(text)))
  {
    hide Written, Best, RowStart, FirstCells, FirstPlaces, LastPlace, Value, IsGrid, Supported, Points, Inside,
      TracedBy,
      CellTraced, BestCell, Traced, Backwards;
    var f0 := f[0];
    assert f0 == f[..][0] && f[|pattern| - 1] == f[..][|pattern| - 1];
    ghost var g := PassedGrid(text, tt, pattern, lo, lastIdx, f[..]);
    GridIsOk(g);
    var width := lastIdx - f0 + 1;
    RowStartTimes(|pattern|, width);
    RowsApart(0, |pattern|, width);
    var h, c := new i16[width * |pattern|], new i16[width * |pattern|];
    CopyInto(h0, f0, width, h);
    CopyInto(c0, f0, width, c);
    assert forall k :: 0 <= k < |tt| ==> t[..][k] == t[k];
    RowZero(g, h0[..], c0[..], h[..], c[..], lo);
    var maxScore, maxPos := FillRows(g, pattern, f, lastIdx, width, t, bo, h, c);
    BestScore(g, maxScore, maxPos);
    var start;
    pos, start := Traceback(g, f, h, c, width, maxPos, maxScore);
    r := Result(start, maxPos + 1, maxScore);
    MatrixDone(g, r, pos);
  }

  lemma GridIsOk(g: Grid)
    requires IsGrid(g, g.text, g.t, g.pat)
    ensures GridOk(g)
  {
  }

  /** The result of a successful run: the positions, last character first, are an embedding of the pattern
      that fills the reported span. */
  ghost predicate Traced(t: seq<u8>, pattern: seq<u8>, r: Result, pos: seq<nat>) {
    |pos| == |pattern| > 0 && Backwards(t, pattern, pos) && pos[0] == r.end - 1 && pos[|pos| - 1] == r.start &&
    16 <= r.score <= 24 * |pattern| + 8
  }

  /** The best place for a single character, by its bytes: the first at a word edge, else at a hump, else at all. */
  ghost predicate SingleByBytes(text: seq<u8>, t: seq<u8>, b: u8, p: nat, score: int)
    requires |t| == |text|
  {
    p < |t| && t[p] == b && score == 16 + 2 * Place(text, p) &&
    forall k :: 0 <= k < |t| && t[k] == b ==>
                  Place(text, k) <= Place(text, p) && (k < p ==> Place(text, k) < Place(text, p))
  }

  lemma {:induction false} SingleInBytes(text: seq<u8>, t: seq<u8>, pat: seq<u8>, p: nat, score: int)
    requires |pat| == 1 && |t| == |text| && BestSingle(text, t, pat[0], p, score)
    ensures SingleByBytes(text, t, pat[0], p, score) && Supported(text, t, pat, Result(p, p + 1, score))
    ensures pat == t ==> p == 0
    ensures pat == t ==> score == Points(text, Whole(text))
  {
    hide BonusAt, Place;
    forall k | 0 <= k < |t|
      ensures BonusAt(text, k) == Place(text, k)
    {
      BonusInNumbers(text, k);
    }
    assert Gaps([p], 1) == 0 && Gains(text, [p], 0) == 0;
    assert pat == t ==> Whole(text) == [p];
    FirstGain(text, [p]);
    assert SupportedBy(text, t, pat, Result(p, p + 1, score), [p]);
  }

  /** An embedding of the whole text. */
  lemma {:induction false} WholeEmbedded(text: seq<u8>, t: seq<u8>, start: int, end: int, ps: seq<nat>)
    requires |t| > 0 && Embeds(t, t, start, end, ps) && 0 <= start && end <= |t|
    requires ps[0] == start && ps[|ps| - 1] == end - 1
    requires |text| == |t|
    ensures ps == Whole(text) && start == 0 && end == |t|
  {
    NoRoom(ps, 0);
  }

  lemma {:induction false} WholeBackwards(t: seq<u8>, ps: seq<nat>)
    requires |t| > 0 && |ps| == |t| && Backwards(t, t, ps)
    ensures ps[|ps| - 1] == 0
  {
    BackwardsFrom(t, t, ps, |ps| - 1);
  }

  /** Strictly decreasing positions leave room for those behind them. */
  lemma {:induction false} BackwardsFrom(t: seq<u8>, pat: seq<u8>, ps: seq<nat>, k: nat)
    requires k < |ps| && Backwards(t, pat, ps)
    ensures ps[k] + k < |t|
    decreases k
  {
    if k > 0 {
      BackwardsFrom(t, pat, ps, k - 1);
    }
  }

  lemma {:induction false} WholeSubsequence(t: seq<u8>)
    ensures Subsequence(t, t, 0, |t|)
  {
    assert Embeds(t, t, 0, |t|, seq(|t|, k => k));
  }

  /** `fzf_fuzzy_match_v2` with a position list.  A text too long for the slab is left to v1. */
  method FuzzyMatchV2(caseSensitive: bool, text: seq<u8>, pattern: seq<u8>, slab: Slab)
    returns (r: Result, pos: seq<nat>)
    requires |text| < INT32_MAX && ScoresFit(slab, |text|, |pattern|)
    ensures |pattern| == 0 ==> r == Result(0, 0, 0) && pos == []
    ensures |pattern| > 0 ==>
              var t := Folded(caseSensitive, text);
              if !Subsequence(t, pattern, 0, |t|) then r == Result(-1, -1, 0) && pos == []
              else if slab.Slab? && |text| * |pattern| > slab.cap then
                EarliestLatest(t, pattern, r.start, r.end) && Embeds(t, pattern, r.start, r.end, pos) &&
                pos[0] == r.start && pos[|pos| - 1] == r.end - 1 && r.score == Score(text, pos, |pos|) &&
                Inside(text, pos, |pos|) && r.score == Points(text, pos)
              else
                Traced(t, pattern, r, pos) && Supported(text, t, pattern, r) &&
                if |pattern| == 1 then
                  BestSingle(text, t, pattern[0], r.start, r.score) &&
                  SingleByBytes(text, t, pattern[0], r.start, r.score)
                else BestCell(text, t, pattern, r) && CellTraced(text, t, pattern, r, pos)
    ensures |pattern| > 0 && pattern == Folded(caseSensitive, text) ==>
              r == Result(0, |text|, Points(text, Whole(text)))
  {
    hide Found, FirstPlaces, FirstCells, Subsequence, Bonuses, BestSingle, BestCell, LastPlace, Supported, Points,
      Inside,
      SingleByBytes, CellTraced;
    pos := [];
    var M, N := |pattern|, |text|;
    if M == 0 {
      return Result(0, 0, 0), [];
    }
    if pattern == Folded(caseSensitive, text) {
      WholeSubsequence(pattern);
    }
    if slab.Slab? && N * M > slab.cap {
      r, pos := FuzzyMatchV1(caseSensitive, text, pattern);
      if pattern == Folded(caseSensitive, text) {
        WholeEmbedded(text, pattern, r.start, r.end, pos);
      }
      return;
    }
    ghost var tt := Folded(caseSensitive, text);
    var idx := AsciiFuzzyIndex(text, pattern, caseSensitive);
    if idx < 0 {
      return NO_MATCH, [];
    }
    var h0, c0, bo := new i16[N], new i16[N], new i16[N];
    var f, t := new int[M], new int[N];
    var pidx, lastIdx, maxScore, maxPos := FirstPass(caseSensitive, text, pattern, idx, t, bo, f, h0, c0);
    SkipFront(tt, pattern, idx);
    FoundAll(tt, pattern, idx, N);
    if pidx != M {
      return NO_MATCH, [];
    }
    if M == 1 {
      SingleTraced(text, tt, pattern, maxPos, maxScore);
      SingleFound(text, tt, pattern, maxPos, maxScore);
      SingleInBytes(text, tt, pattern, maxPos, maxScore);
      return Result(maxPos, maxPos + 1, maxScore), [maxPos];
    }
    r, pos := Matrix(text, tt, pattern, idx, lastIdx, t, bo, f, h0, c0);
  }

  lemma SingleTraced(text: seq<u8>, t: seq<u8>, pat: seq<u8>, p: nat, score: int)
    requires |pat| == 1 && |t| == |text| && BestSingle(text, t, pat[0], p, score)
    ensures Traced(t, pat, Result(p, p + 1, score), [p])
  {
  }

  lemma SingleFound(text: seq<u8>, t: seq<u8>, pat: seq<u8>, p: nat, score: int)
    requires |pat| == 1 && |t| == |text| && BestSingle(text, t, pat[0], p, score)
    ensures Subsequence(t, pat, 0, |t|)
  {
    assert Embeds(t, pat, 0, |t|, [p]);
  }
}
