/** How a character class is stored in the byte code, and how the machine searches it. */
module ClassCode {
  import opened Integers
  import opened CharRanges

  type Pair = (u32, u32)

  /** The operands that `re_emit_range` writes: closed intervals, 16-bit where they fit. */
  datatype Code =
    | Never
    | Ranges16(pairs: seq<Pair>)
    | Ranges32(pairs: seq<Pair>)

  const MAX_RANGES := 65535
  const INFINITY16: u32 := 0xffff

  predicate TooManyRanges(points: seq<u32>) {
    |points| / 2 >= MAX_RANGES
  }

  function Low16(p: u32): u32 { p % 0x1_0000 }

  /** The unsigned end point `p - 1` of a closed interval. */
  function High32(p: u32): u32 {
    if p == 0 then UINT32_MAX else p - 1
  }

  function High16(p: u32): u32 {
    if High32(p) == UINT32_MAX - 1 then INFINITY16 else High32(p) % 0x1_0000
  }

  /** The end point that decides between the 16-bit and the 32-bit form. */
  function DecidingPoint(points: seq<u32>): u32
    requires |points| >= 2
  {
    if points[|points| - 1] == UINT32_MAX then points[|points| - 2] else points[|points| - 1]
  }

  function Pair16(points: seq<u32>, i: nat): Pair
    requires i < |points| / 2
  {
    (Low16(points[2 * i]), High16(points[2 * i + 1]))
  }

  function Pair32(points: seq<u32>, i: nat): Pair
    requires i < |points| / 2
  {
    (points[2 * i], High32(points[2 * i + 1]))
  }

  function Encode(points: seq<u32>): (code: Code) {
    var n := |points| / 2;
    if n == 0 then Never
    else if DecidingPoint(points) <= 0xffff then Ranges16(seq(n, i requires 0 <= i < n => Pair16(points, i)))
    else Ranges32(seq(n, i requires 0 <= i < n => Pair32(points, i)))
  }

  /** The emission loop of `re_emit_range`; the subtraction wraps around and the two 16-bit stores truncate. */
  method EmitRange(points: seq<u32>) returns (code: Code)
    requires |points| % 2 == 0
    ensures code == Encode(points)
  {
    if |points| == 0 {
      return Never;
    }
    var high := points[|points| - 1];
    if high == UINT32_MAX {
      high := points[|points| - 2];
    }
    var pairs: seq<Pair> := [];
    var i := 0;
    if high <= 0xffff {
      while i < |points|
        invariant i % 2 == 0 && i <= |points| && |pairs| == i / 2
        invariant forall k :: 0 <= k < i / 2 ==> pairs[k] == Pair16(points, k)
      {
        var lo, hi := points[i], (points[i + 1] + UINT32_MAX) % 0x1_0000_0000;
        if hi == UINT32_MAX - 1 {
          hi := INFINITY16;
        }
        assert 2 * (i / 2) == i;
        pairs := pairs + [(lo % 0x1_0000, hi % 0x1_0000)];
        i := i + 2;
      }
      code := Ranges16(pairs);
      assert pairs == Encode(points).pairs;
    } else {
      while i < |points|
        invariant i % 2 == 0 && i <= |points| && |pairs| == i / 2
        invariant forall k :: 0 <= k < i / 2 ==> pairs[k] == Pair32(points, k)
      {
        assert 2 * (i / 2) == i;
        pairs := pairs + [(points[i], (points[i + 1] + UINT32_MAX) % 0x1_0000_0000)];
        i := i + 2;
      }
      code := Ranges32(pairs);
      assert pairs == Encode(points).pairs;
    }
  }

  /** The operands in numbers: the closed intervals, in 16 bits when the last end point, or the last start point of an
      open interval, fits; there 0xffff stands for an open end. */
  lemma OperandsInNumbers(points: seq<u32>, i: nat)
    requires Intervals(points) && i < |points| / 2
    ensures var code, last, end: nat := Encode(points), points[|points| - 1], points[2 * i + 1];
            if (if last == 0xffff_ffff then points[|points| - 2] else last) <= 0xffff then
              code.Ranges16? && |code.pairs| == |points| / 2 && code.pairs[i].0 == points[2 * i] &&
              code.pairs[i].1 == if end == 0xffff_ffff then 0xffff else end - 1
            else
              code.Ranges32? && |code.pairs| == |points| / 2 && code.pairs[i].0 == points[2 * i] &&
              code.pairs[i].1 == end - 1
  {
    var n := |points|;
    assert NonEmpty(points, i) && NonEmpty(points, n / 2 - 1);
    assert 2 * (n / 2 - 1) == n - 2;
    assert i < n / 2 - 1 ==> points[2 * i + 1] <= points[n - 2];
  }

  // ---------------------------------------------------------------- the machine's test

  /** The binary search over entries `lo` to `hi`. */
  function Search(pairs: seq<Pair>, c: nat, lo: int, hi: int): bool
    requires 0 <= lo && hi < |pairs|
    decreases hi - lo + 1
  {
    if lo > hi then false
    else
      var m := (lo + hi) / 2;
      if c < pairs[m].0 then Search(pairs, c, lo, m - 1)
      else if c > pairs[m].1 then Search(pairs, c, m + 1, hi)
      else true
  }

  function Test(code: Code, c: nat): bool {
    match code
    case Never => c == UINT32_MAX
    case Ranges16(pairs) =>
      |pairs| > 0 && pairs[0].0 <= c &&
      ((c >= 0xffff && pairs[|pairs| - 1].1 == INFINITY16) ||
       (c <= pairs[|pairs| - 1].1 && Search(pairs, c, 0, |pairs| - 1)))
    case Ranges32(pairs) =>
      |pairs| > 0 && pairs[0].0 <= c <= pairs[|pairs| - 1].1 && Search(pairs, c, 0, |pairs| - 1)
  }

  /** The search loop on unsigned 32-bit indices.  Because the caller has checked `c` against the
      first entry, `idx - 1` is only taken when `idx` is positive. */
  method BinarySearch(pairs: seq<Pair>, c: nat) returns (found: bool)
    requires 0 < |pairs| < MAX_RANGES && pairs[0].0 <= c
    ensures found == Search(pairs, c, 0, |pairs| - 1)
  {
    var idxMin: u32, idxMax: u32 := 0, |pairs| - 1;
    while idxMin <= idxMax
      invariant idxMin <= |pairs| && idxMax < |pairs|
      invariant Search(pairs, c, 0, |pairs| - 1) == Search(pairs, c, idxMin, idxMax)
      decreases idxMax - idxMin + 1
    {
      var idx: u32 := (idxMin + idxMax) / 2;
      var low, high := pairs[idx].0, pairs[idx].1;
      if c < low {
        idxMax := idx - 1;
      } else if c > high {
        idxMin := idx + 1;
      } else {
        return true;
      }
    }
    return false;
  }

  /** Operands as they stand in byte code: at least one entry, and a count that fits 16 bits. */
  predicate Stored(code: Code) {
    match code
    case Never => true
    case Ranges16(pairs) => 0 < |pairs| < MAX_RANGES
    case Ranges32(pairs) => 0 < |pairs| < MAX_RANGES
  }

  lemma EncodeStored(points: seq<u32>)
    ensures TooManyRanges(points) <==> |points| / 2 >= 65535
    ensures !TooManyRanges(points) ==> Stored(Encode(points))
  {
  }

  /** The range instructions of the machine. */
  method MatchClass(code: Code, c: nat) returns (found: bool)
    requires Stored(code)
    ensures found == Test(code, c)
  {
    match code {
      case Never => found := c == UINT32_MAX;
      case Ranges16(pairs) =>
        if c < pairs[0].0 {
          return false;
        }
        var high := pairs[|pairs| - 1].1;
        if c >= 0xffff && high == INFINITY16 {
          return true;
        }
        if c > high {
          return false;
        }
        found := BinarySearch(pairs, c);
      case Ranges32(pairs) =>
        if c < pairs[0].0 || c > pairs[|pairs| - 1].1 {
          return false;
        }
        found := BinarySearch(pairs, c);
    }
  }

  // ---------------------------------------------------------------- the round trip

  predicate Disjoint(pairs: seq<Pair>) {
    (forall i :: 0 <= i < |pairs| ==> pairs[i].0 <= pairs[i].1) &&
    (forall i, j :: 0 <= i < j < |pairs| ==> pairs[i].1 < pairs[j].0)
  }

  predicate Within(pair: Pair, c: nat) {
    pair.0 <= c <= pair.1
  }

  /** Pairs on the far side of pair `m` do not contain the code point either. */
  lemma Beside(pairs: seq<Pair>, c: nat, m: nat)
    requires Disjoint(pairs) && m < |pairs|
    ensures c < pairs[m].0 ==> forall i :: m <= i < |pairs| ==> !Within(pairs[i], c)
    ensures c > pairs[m].1 ==> forall i :: 0 <= i <= m ==> !Within(pairs[i], c)
  {
  }

  lemma {:induction false} SearchFinds(pairs: seq<Pair>, c: nat, lo: int, hi: int)
    requires Disjoint(pairs) && 0 <= lo && hi < |pairs|
    ensures Search(pairs, c, lo, hi) <==> exists i :: lo <= i <= hi && Within(pairs[i], c)
    decreases hi - lo + 1
  {
    hide Disjoint;
    if lo <= hi {
      var m := (lo + hi) / 2;
      Beside(pairs, c, m);
      if c < pairs[m].0 {
        SearchFinds(pairs, c, lo, m - 1);
      } else if c > pairs[m].1 {
        SearchFinds(pairs, c, m + 1, hi);
      } else {
        assert Within(pairs[m], c);
      }
    }
  }

  /** Encoding a class and searching the code decides membership in the class. */
  lemma RoundTrip(points: seq<u32>, c: nat)
    requires Intervals(points) && c <= 0x10_FFFF
    ensures Test(Encode(points), c) <==> Member(points, c)
  {
    if |points| > 0 {
      if DecidingPoint(points) <= 0xffff {
        RoundTrip16(points, c);
      } else {
        RoundTrip32(points, c);
      }
    }
  }

  lemma Entries32(points: seq<u32>, c: nat)
    requires Intervals(points) && |points| > 0 && DecidingPoint(points) > 0xffff
    ensures Encode(points).Ranges32?
    ensures var pairs := Encode(points).pairs;
            |pairs| == |points| / 2 > 0 && Disjoint(pairs) &&
            forall i :: 0 <= i < |pairs| ==> Within(pairs[i], c) == InInterval(points, i, c)
  {
    var pairs := Encode(points).pairs;
    forall i | 0 <= i < |pairs|
      ensures pairs[i].0 <= pairs[i].1 && Within(pairs[i], c) == InInterval(points, i, c)
    {
      assert NonEmpty(points, i);
    }
    forall i, j | 0 <= i < j < |pairs|
      ensures pairs[i].1 < pairs[j].0
    {
      assert NonEmpty(points, i) && points[2 * i + 1] <= points[2 * j];
    }
  }

  lemma {:induction false} RoundTrip32(points: seq<u32>, c: nat)
    requires Intervals(points) && |points| > 0 && DecidingPoint(points) > 0xffff
    ensures Test(Encode(points), c) <==> Member(points, c)
  {
    hide Encode, Intervals, Disjoint, Search, DecidingPoint;
    Entries32(points, c);
    var pairs := Encode(points).pairs;
    SearchFinds(pairs, c, 0, |pairs| - 1);
    if Member(points, c) {
      var i :| 0 <= i < |points| / 2 && InInterval(points, i, c);
      assert Within(pairs[i], c);
      OuterEntries(pairs, i);
    }
  }

  lemma OuterEntries(pairs: seq<Pair>, i: nat)
    requires Disjoint(pairs) && i < |pairs|
    ensures pairs[0].0 <= pairs[i].0 && pairs[i].1 <= pairs[|pairs| - 1].1
  {
  }

  /** All stores of the 16-bit form fit, except that an unbounded last interval ends in 0xffff. */
  lemma Entry16(points: seq<u32>, i: nat)
    requires Intervals(points) && |points| > 0 && DecidingPoint(points) <= 0xffff && i < |points| / 2
    ensures var pair := Encode(points).pairs[i];
            pair.0 == points[2 * i] <= pair.1 &&
            (points[2 * i + 1] <= 0xffff ==> pair.1 == points[2 * i + 1] - 1 < INFINITY16) &&
            (points[2 * i + 1] > 0xffff ==>
               pair.1 == INFINITY16 && points[2 * i + 1] == UINT32_MAX && i == |points| / 2 - 1)
  {
    var n := |points|;
    assert NonEmpty(points, i);
    assert 2 * i + 1 < n - 1 ==> points[2 * i + 1] <= points[n - 2];
  }

  lemma {:induction false} Entries16(points: seq<u32>, c: nat)
    requires Intervals(points) && |points| > 0 && DecidingPoint(points) <= 0xffff && c <= 0x10_FFFF
    ensures Encode(points).Ranges16?
    ensures var pairs := Encode(points).pairs;
            |pairs| == |points| / 2 > 0 && Disjoint(pairs) &&
            forall i :: 0 <= i < |pairs| ==>
                          InInterval(points, i, c) ==
                          (Within(pairs[i], c) || (i == |pairs| - 1 && c >= 0xffff && pairs[i].1 == INFINITY16))
  {
    var pairs := Encode(points).pairs;
    forall i | 0 <= i < |pairs|
      ensures InInterval(points, i, c) ==
              (Within(pairs[i], c) || (i == |pairs| - 1 && c >= 0xffff && pairs[i].1 == INFINITY16))
      ensures pairs[i].0 <= pairs[i].1
    {
      Entry16(points, i);
    }
    forall i, j | 0 <= i < j < |pairs|
      ensures pairs[i].1 < pairs[j].0
    {
      Entry16(points, i);
      Entry16(points, j);
      assert NonEmpty(points, j) && points[2 * i + 1] <= points[2 * j];
    }
  }

  lemma {:induction false} RoundTrip16(points: seq<u32>, c: nat)
    requires Intervals(points) && |points| > 0 && DecidingPoint(points) <= 0xffff && c <= 0x10_FFFF
    ensures Test(Encode(points), c) <==> Member(points, c)
  {
    hide Encode, Intervals, DecidingPoint, Search;
    Entries16(points, c);
    var pairs := Encode(points).pairs;
    var last := |pairs| - 1;
    SearchFinds(pairs, c, 0, last);
    if c >= 0xffff && pairs[last].1 == INFINITY16 {
      Entry16(points, last);
      assert pairs[0].0 <= pairs[last].0 <= 0xffff;
      assert InInterval(points, last, c);
    } else if Member(points, c) {
      var i :| 0 <= i < |points| / 2 && InInterval(points, i, c);
      assert Within(pairs[i], c) && (i < last ==> pairs[i].1 < pairs[last].0);
    }
  }
}
