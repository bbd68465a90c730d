/** Run-length coded property tables: the full decode and the lookup through a block index agree. */
module PropTable {
  import opened Integers
  import opened CharRanges
  import opened PropFormat

  const BLOCK_LEN: nat := 32
  const CODE_BITS: nat := 0x20_0000

  // ---------------------------------------------------------------- what a table denotes

  /** One code of the table: a run of the current bit and, in the short form, one of the other bit. */
  datatype Item = Item(first: nat, second: nat)

  function Size(b: u8): nat {
    if b < 64 || b >= 0x80 then 1 else if b < 0x60 then 2 else 3
  }

  /** The bytes from `p` on are a whole number of codes. */
  predicate WellFormed(table: seq<u8>, p: nat)
    decreases |table| - p
  {
    p == |table| || (p < |table| && p + Size(table[p]) <= |table| && WellFormed(table, p + Size(table[p])))
  }

  function ItemAt(table: seq<u8>, p: nat): (item: Item)
    requires p < |table| && p + Size(table[p]) <= |table|
    ensures item.first > 0 && (item.second > 0 <==> table[p] < 64)
  {
    var b: nat := table[p];
    if b < 64 then Item(b / 8 + 1, b % 8 + 1)
    else if b >= 0x80 then Item(b - 0x80 + 1, 0)
    else if b < 0x60 then
      var b1: nat := table[p + 1];
      Item((b - 0x40) * 0x100 + b1 + 1, 0)
    else
      var b1: nat, b2: nat := table[p + 1], table[p + 2];
      Item((b - 0x60) * 0x1_0000 + b1 * 0x100 + b2 + 1, 0)
  }

  /** The bit of code point `x`, when the code at `p` starts at `code` with `bit`; 0 behind the table. */
  predicate BitAt(table: seq<u8>, p: nat, code: nat, bit: bool, x: nat)
    requires WellFormed(table, p)
    decreases |table| - p
  {
    if p == |table| then false
    else
      var item := ItemAt(table, p);
      var c1 := code + item.first;
      var c2 := c1 + item.second;
      if x < c1 then bit
      else if x < c2 then !bit
      else BitAt(table, p + Size(table[p]), c2, if item.second > 0 then bit else !bit, x)
  }

  /** Where the last run ends. */
  function EndCode(table: seq<u8>, p: nat, code: nat): (end: nat)
    requires WellFormed(table, p)
    ensures end >= code && (p < |table| ==> end > code)
    decreases |table| - p
  {
    if p == |table| then code
    else
      var item := ItemAt(table, p);
      EndCode(table, p + Size(table[p]), code + item.first + item.second)
  }

  lemma {:induction false} NothingBehind(table: seq<u8>, p: nat, code: nat, bit: bool, x: nat)
    requires WellFormed(table, p) && x >= EndCode(table, p, code)
    ensures !BitAt(table, p, code, bit, x)
    decreases |table| - p
  {
    if p < |table| {
      var item := ItemAt(table, p);
      NothingBehind(table, p + Size(table[p]), code + item.first + item.second, if item.second > 0 then bit else !bit,
                    x);
    }
  }

  // ---------------------------------------------------------------- tables as they are written

  /** The bytes of one code are read as its runs. */
  lemma {:induction false} CodeRead(table: seq<u8>, p: nat, c: Code, rest: seq<u8>)
    requires p <= |table| && ValidCode(c) && table[p..] == BytesOf(c) + rest
    ensures p < |table| && p + Size(table[p]) <= |table| && table[p + Size(table[p])..] == rest
    ensures var item := ItemAt(table, p);
            RunsOf(c) == if item.second > 0 then [item.first, item.second] else [item.first]
  {
    var bytes := BytesOf(c);
    assert forall i :: 0 <= i < |bytes| ==> table[p + i] == table[p..][i] == bytes[i];
    assert table[p..][|bytes|..] == rest;
    match c {
      case Pair(a, b) => ShortRead(a, b);
      case One(_) =>
      case Two(n) => TwoRead(n);
      case Three(n) => ThreeRead(n);
    }
  }

  lemma ShortRead(a: nat, b: nat)
    requires 1 <= a <= 8 && 1 <= b <= 8
    ensures var v := (a - 1) * 8 + (b - 1); v < 64 && v / 8 + 1 == a && v % 8 + 1 == b
  {
  }

  lemma TwoRead(n: nat)
    requires 1 <= n <= 0x2000
    ensures (n - 1) / 0x100 < 0x20 && (n - 1) / 0x100 * 0x100 + (n - 1) % 0x100 + 1 == n
  {
  }

  lemma ThreeRead(n: nat)
    requires 1 <= n <= 0x20_0000
    ensures (n - 1) / 0x1_0000 < 0x20
    ensures (n - 1) / 0x1_0000 * 0x1_0000 + (n - 1) / 0x100 % 0x100 * 0x100 + (n - 1) % 0x100 + 1 == n
  {
    var m := n - 1;
    assert m / 0x100 == m / 0x1_0000 * 0x100 + m / 0x100 % 0x100 by { HighByte(m); }
  }

  lemma HighByte(m: nat)
    ensures m / 0x100 == m / 0x1_0000 * 0x100 + m / 0x100 % 0x100
  {
    assert m / 0x100 / 0x100 == m / 0x1_0000;
  }

  /** A written table is well formed, ends where its runs end, and has the property where they say. */
  lemma {:induction false} TableRead(table: seq<u8>, cs: seq<Code>, p: nat, code: nat, bit: bool, x: nat)
    requires p <= |table| && ValidCodes(cs) && table[p..] == Written(cs)
    ensures WellFormed(table, p) && EndCode(table, p, code) == code + Total(Runs(cs))
    ensures x >= code ==>
              (BitAt(table, p, code, bit, x) <==>
               x - code < Total(Runs(cs)) && (EndsUpTo(Runs(cs), x - code) % 2 == 1) != bit)
    decreases |cs|
  {
    hide ItemAt, Size, BytesOf, WellFormed, EndCode, BitAt, Total, EndsUpTo;
    if |cs| == 0 {
      assert |table[p..]| == 0;
      NothingWritten(table, p, code, bit, x);
    } else {
      CodeRead(table, p, cs[0], Written(cs[1..]));
      var item, q := ItemAt(table, p), p + Size(table[p]);
      var code', bit' := code + item.first + item.second, if item.second > 0 then bit else !bit;
      TableRead(table, cs[1..], q, code', bit', x);
      TableStep(table, p, code, bit, x);
      TotalConcat(RunsOf(cs[0]), Runs(cs[1..]));
      CodeTotal(cs[0], item);
      if x >= code' {
        EndsBehind(RunsOf(cs[0]), Runs(cs[1..]), x - code);
      } else if x >= code {
        EndsInside(cs[0], item, Runs(cs[1..]), x - code);
      }
    }
  }

  lemma {:induction false} NothingWritten(table: seq<u8>, p: nat, code: nat, bit: bool, x: nat)
    requires p == |table|
    ensures WellFormed(table, p) && EndCode(table, p, code) == code && !BitAt(table, p, code, bit, x)
    ensures Total([]) == 0
  {
  }

  lemma {:induction false} TableStep(table: seq<u8>, p: nat, code: nat, bit: bool, x: nat)
    requires p < |table| && p + Size(table[p]) <= |table| && WellFormed(table, p + Size(table[p]))
    ensures var item, q := ItemAt(table, p), p + Size(table[p]);
            var code', bit' := code + item.first + item.second, if item.second > 0 then bit else !bit;
            WellFormed(table, p) && EndCode(table, p, code) == EndCode(table, q, code') &&
            BitAt(table, p, code, bit, x) ==
            if x < code + item.first then bit else if x < code' then !bit else BitAt(table, q, code', bit', x)
  {
    hide ItemAt, Size;
  }

  lemma CodeTotal(c: Code, item: Item)
    requires RunsOf(c) == if item.second > 0 then [item.first, item.second] else [item.first]
    ensures Total(RunsOf(c)) == item.first + item.second
  {
    assert Total([]) == 0 && RunsOf(c)[1..] == if item.second > 0 then [item.second] else [];
    assert item.second > 0 ==> RunsOf(c)[1..][1..] == [];
  }

  lemma {:induction false} EndsInside(c: Code, item: Item, rest: seq<nat>, x: nat)
    requires RunsOf(c) == if item.second > 0 then [item.first, item.second] else [item.first]
    requires item.first > 0 && x < item.first + item.second
    ensures EndsUpTo(RunsOf(c) + rest, x) == if x < item.first then 0 else 1
  {
    var runs := RunsOf(c) + rest;
    if item.second > 0 {
      assert runs[1..][0] == item.second;
    }
  }

  /** Every well-formed table can be written so. */
  lemma {:induction false} EveryTableIsWritten(table: seq<u8>, p: nat) returns (cs: seq<Code>)
    requires WellFormed(table, p)
    ensures p <= |table| && ValidCodes(cs) && table[p..] == Written(cs)
    decreases |table| - p
  {
    if p == |table| {
      cs := [];
    } else {
      var rest := EveryTableIsWritten(table, p + Size(table[p]));
      var c := CodeAt(table, p);
      cs := [c] + rest;
      assert cs[1..] == rest;
      assert table[p..] == table[p..p + Size(table[p])] + table[p + Size(table[p])..];
    }
  }

  lemma CodeAt(table: seq<u8>, p: nat) returns (c: Code)
    requires p < |table| && p + Size(table[p]) <= |table|
    ensures ValidCode(c) && BytesOf(c) == table[p..p + Size(table[p])]
  {
    var b: nat := table[p];
    if b < 64 {
      c := Pair(b / 8 + 1, b % 8 + 1);
    } else if b >= 0x80 {
      c := One(b - 0x80 + 1);
    } else if b < 0x60 {
      var b1: nat := table[p + 1];
      c := Two((b - 0x40) * 0x100 + b1 + 1);
    } else {
      var b1: nat, b2: nat := table[p + 1], table[p + 2];
      c := Three((b - 0x60) * 0x1_0000 + b1 * 0x100 + b2 + 1);
      ThreeBytes(b - 0x60, b1, b2);
    }
  }

  lemma ThreeBytes(b0: nat, b1: nat, b2: nat)
    requires b1 < 0x100 && b2 < 0x100
    ensures var v := b0 * 0x1_0000 + b1 * 0x100 + b2;
            v / 0x1_0000 == b0 && v / 0x100 % 0x100 == b1 && v % 0x100 == b2
  {
    var v := b0 * 0x1_0000 + b1 * 0x100 + b2;
    assert v / 0x100 == b0 * 0x100 + b1;
  }

  // ---------------------------------------------------------------- the full decode

  /** `points` covers exactly the code points below `code` that have the bit, in increasing intervals that
      do not touch a run of ones starting at `code`. */
  ghost predicate Covers(table: seq<u8>, points: seq<u32>, code: nat, bit: bool)
    requires WellFormed(table, 0)
  {
    && Compressed(points)
    && (forall i :: 0 <= i < |points| ==> if bit then points[i] < code else points[i] <= code)
    && forall x: nat :: Member(points, x) <==> x < code && BitAt(table, 0, 0, false, x)
  }

  /** One more interval. */
  lemma MemberMore(points: seq<u32>, lo: u32, hi: u32, x: nat)
    requires |points| % 2 == 0
    ensures Member(points + [lo, hi], x) <==> Member(points, x) || lo <= x < hi
  {
    var more := points + [lo, hi];
    var n := |points| / 2;
    assert |more| / 2 == n + 1;
    if Member(points, x) {
      var i :| 0 <= i < n && InInterval(points, i, x);
      assert InInterval(more, i, x);
    }
    if lo <= x < hi {
      assert InInterval(more, n, x);
    }
    if Member(more, x) {
      var i :| 0 <= i < n + 1 && InInterval(more, i, x);
      if i < n {
        assert InInterval(points, i, x);
      }
    }
  }

  /** A run of ones is added, a run of zeros is not; runs are not empty and alternate. */
  lemma {:induction false} CoversRun(table: seq<u8>, points: seq<u32>, code: u32, next: u32, bit: bool)
    requires WellFormed(table, 0) && Covers(table, points, code, bit) && code < next
    requires forall x: nat :: code <= x < next ==> BitAt(table, 0, 0, false, x) == bit
    ensures Covers(table, if bit then points + [code, next] else points, next, !bit)
  {
    hide BitAt, Member;
    forall x: nat
      ensures Member(points + [code, next], x) <==> Member(points, x) || code <= x < next
    {
      MemberMore(points, code, next, x);
    }
  }

  /** The decoder stands at byte `p`, at code point `code` with `bit`: from there on it reads what the whole
      table says. */
  ghost predicate Reads(table: seq<u8>, p: nat, code: nat, bit: bool) {
    && WellFormed(table, 0) && WellFormed(table, p)
    && EndCode(table, p, code) == EndCode(table, 0, 0)
    && forall x: nat :: x >= code ==> BitAt(table, 0, 0, false, x) == BitAt(table, p, code, bit, x)
  }

  lemma {:induction false} ReadsStart(table: seq<u8>)
    requires WellFormed(table, 0)
    ensures Reads(table, 0, 0, false)
  {
  }

  /** One code further. */
  lemma {:induction false} ReadsNext(table: seq<u8>, p: nat, code: nat, bit: bool)
    requires Reads(table, p, code, bit) && p < |table|
    ensures p + Size(table[p]) <= |table|
    ensures var item := ItemAt(table, p);
            Reads(table, p + Size(table[p]), code + item.first + item.second, if item.second > 0 then bit else !bit) &&
            (forall x: nat :: code <= x < code + item.first ==> BitAt(table, 0, 0, false, x) == bit) &&
            (forall x: nat :: code + item.first <= x < code + item.first + item.second ==>
                                BitAt(table, 0, 0, false, x) == !bit) &&
            code + item.first + item.second <= EndCode(table, 0, 0)
  {
    var item, q := ItemAt(table, p), p + Size(table[p]);
    var code', bit' := code + item.first + item.second, if item.second > 0 then bit else !bit;
    forall x: nat | x >= code
      ensures BitAt(table, 0, 0, false, x) ==
              if x < code + item.first then bit else if x < code' then !bit else BitAt(table, q, code', bit', x)
    {
    }
  }

  /** `unicode_prop1`: the ranges of a property are exactly the code points that have the bit, in compressed
      form already. */
  method Decode(table: seq<u8>, cr: CharRange)
    requires WellFormed(table, 0) && EndCode(table, 0, 0) < 0x1_0000_0000
    requires cr.Valid() && cr.Contents() == []
    modifies cr, cr.points
    ensures cr.Valid() && Compressed(cr.Contents())
    ensures forall x: nat :: Member(cr.Contents(), x) <==> BitAt(table, 0, 0, false, x)
    ensures forall cs :: ValidCodes(cs) && table == Written(cs) ==>
                           forall x: nat :: Member(cr.Contents(), x) <==> HasProperty(Runs(cs), x)
  {
    hide Covers, Reads, WellFormed, EndCode, BitAt, Member, HasProperty;
    var p, c: u32, bit := 0, 0, false;
    ReadsStart(table);
    NoneCovered(table);
    while p < |table|
      invariant p <= |table| && cr.Valid() && (cr.points == old(cr.points) || fresh(cr.points))
      invariant Reads(table, p, c, bit) && Covers(table, cr.Contents(), c, bit)
    {
      ReadsNext(table, p, c, bit);
      ghost var item, start := ItemAt(table, p), c;
      CoversRun(table, cr.Contents(), c, c + item.first, bit);
      var c0 := c;
      var b: nat := table[p];
      p := p + 1;
      if b < 64 {
        c := c + b / 8 + 1;
        if bit {
          cr.AddInterval(c0, c);
        }
        bit := !bit;
        CoversRun(table, cr.Contents(), c, c + item.second, bit);
        c0 := c;
        c := c + b % 8 + 1;
      } else if b >= 0x80 {
        c := c + b - 0x80 + 1;
      } else if b < 0x60 {
        var b1: nat := table[p];
        c := c + (b - 0x40) * 0x100 + b1 + 1;
        p := p + 1;
      } else {
        var b1: nat, b2: nat := table[p], table[p + 1];
        c := c + (b - 0x60) * 0x1_0000 + b1 * 0x100 + b2 + 1;
        p := p + 2;
      }
      if bit {
        cr.AddInterval(c0, c);
      }
      bit := !bit;
    }
    AllCovered(table, cr.Contents(), p, c, bit);
    forall cs, x: nat | ValidCodes(cs) && table == Written(cs)
      ensures BitAt(table, 0, 0, false, x) <==> HasProperty(Runs(cs), x)
    {
      WholeTableRead(table, cs, x);
    }
  }

  /** The bit of a code point in a table is that of the runs it was written from. */
  lemma {:induction false} WholeTableRead(table: seq<u8>, cs: seq<Code>, x: nat)
    requires ValidCodes(cs) && table == Written(cs)
    ensures WellFormed(table, 0) && EndCode(table, 0, 0) == Total(Runs(cs))
    ensures BitAt(table, 0, 0, false, x) <==> HasProperty(Runs(cs), x)
  {
    assert table[0..] == table;
    TableRead(table, cs, 0, 0, false, x);
  }

  lemma {:induction false} NoneCovered(table: seq<u8>)
    requires WellFormed(table, 0)
    ensures Covers(table, [], 0, false)
  {
  }

  lemma {:induction false} AllCovered(table: seq<u8>, points: seq<u32>, p: nat, code: nat, bit: bool)
    requires p == |table| && Reads(table, p, code, bit) && Covers(table, points, code, bit)
    ensures Compressed(points) && forall x: nat :: Member(points, x) <==> BitAt(table, 0, 0, false, x)
  {
    hide BitAt, Member;
    forall x: nat
      ensures x >= code ==> !BitAt(table, 0, 0, false, x)
    {
      if x >= code {
        NothingBehind(table, 0, 0, false, x);
      }
    }
  }

  // ---------------------------------------------------------------- the lookup

  /** Entry `k` of the index: 21 bits of code point, 3 bits of offset. */
  function GetLe24(index: seq<u8>, k: nat): (v: nat)
    requires 3 * k + 3 <= |index|
  {
    var b0: nat, b1: nat, b2: nat := index[3 * k], index[3 * k + 1], index[3 * k + 2];
    b0 + b1 * 0x100 + b2 * 0x1_0000
  }

  function EntryCode(index: seq<u8>, k: nat): (code: nat)
    requires 3 * k + 3 <= |index|
  {
    GetLe24(index, k) % CODE_BITS
  }

  function EntryPos(index: seq<u8>, k: nat): (p: nat)
    requires 3 * k + 3 <= |index|
  {
    (k + 1) * BLOCK_LEN + GetLe24(index, k) / CODE_BITS
  }

  /** Every entry but the last names a byte at which the decoder stands at the entry's code point with bit 0.
      The last entry is compared as a whole; the table reaches as far. */
  ghost predicate IndexOk(table: seq<u8>, index: seq<u8>, n: nat)
    requires WellFormed(table, 0)
  {
    && n > 0 && |index| == 3 * n
    && (forall k :: 0 <= k < n - 1 || (k == n - 1 && n == 1 && EntryCode(index, k) < GetLe24(index, k)) ==>
                      EntryPos(index, k) <= |table| && Reads(table, EntryPos(index, k), EntryCode(index, k), false))
    && GetLe24(index, n - 1) <= EndCode(table, 0, 0)
  }

  /** Code points from here on are taken to be outside the table. */
  function IndexEnd(index: seq<u8>, n: nat): (end: nat)
    requires n > 0 && |index| == 3 * n
  {
    var first, last := EntryCode(index, 0), GetLe24(index, n - 1);
    if first < last then last else first
  }

  /** `get_index_pos`: where to start decoding for `c`, or -1 behind the last entry. */
  method GetIndexPos(c: nat, index: seq<u8>, n: nat) returns (pos: int, code: nat)
    requires n > 0 && |index| == 3 * n
    ensures pos >= -1 && (pos == -1 <==> c >= IndexEnd(index, n))
    ensures pos >= 0 ==> code <= c
    ensures pos >= 0 ==> (pos == code == 0 && c < EntryCode(index, 0)) ||
                         exists k :: 0 <= k < n && (k < n - 1 || (n == 1 && EntryCode(index, k) < GetLe24(index, k))) &&
                                     pos == EntryPos(index, k) && code == EntryCode(index, k)
  {
    hide GetLe24;
    code := EntryCode(index, 0);
    if c < code {
      return 0, 0;
    }
    var idxMin, idxMax := 0, n - 1;
    if c >= GetLe24(index, idxMax) {
      return -1, code;
    }
    while idxMax - idxMin > 1
      invariant 0 <= idxMin <= idxMax < n && (idxMin < idxMax || n == 1)
      invariant EntryCode(index, idxMin) <= c
    {
      var idx := (idxMax + idxMin) / 2;
      if c < EntryCode(index, idx) {
        idxMax := idx;
      } else {
        idxMin := idx;
      }
    }
    return EntryPos(index, idxMin), EntryCode(index, idxMin);
  }

  /** The decoding loop of `lre_is_in_table`. */
  method Lookup(c: nat, table: seq<u8>, pos: nat, code0: nat) returns (bit: bool)
    requires pos <= |table| && WellFormed(table, 0) && Reads(table, pos, code0, false) &&
             code0 <= c < EndCode(table, 0, 0)
    ensures bit == BitAt(table, 0, 0, false, c)
  {
    hide Reads, WellFormed, EndCode, BitAt;
    var p: nat, code: nat := pos, code0;
    bit := false;
    while true
      invariant p <= |table| && code <= c < EndCode(table, 0, 0) && Reads(table, p, code, bit)
      decreases |table| - p
    {
      BeforeEnd(table, p, code, bit);
      ReadsNext(table, p, code, bit);
      var b: nat := table[p];
      p := p + 1;
      if b < 64 {
        code := code + b / 8 + 1;
        if c < code {
          return;
        }
        bit := !bit;
        code := code + b % 8 + 1;
      } else if b >= 0x80 {
        code := code + b - 0x80 + 1;
      } else if b < 0x60 {
        var b1: nat := table[p];
        code := code + (b - 0x40) * 0x100 + b1 + 1;
        p := p + 1;
      } else {
        var b1: nat, b2: nat := table[p], table[p + 1];
        code := code + (b - 0x60) * 0x1_0000 + b1 * 0x100 + b2 + 1;
        p := p + 2;
      }
      if c < code {
        return;
      }
      bit := !bit;
    }
  }

  lemma {:induction false} BeforeEnd(table: seq<u8>, p: nat, code: nat, bit: bool)
    requires Reads(table, p, code, bit) && p <= |table| && code < EndCode(table, 0, 0)
    ensures p < |table|
  {
  }

  /** `lre_is_in_table`: for every table and every index that fits it, the lookup of a code point before the
      first entry or between entries gives its bit in the full decode; behind the last entry nothing is found. */
  method IsInTable(c: nat, table: seq<u8>, index: seq<u8>, n: nat) returns (found: bool)
    requires WellFormed(table, 0) && IndexOk(table, index, n)
    ensures found == (BitAt(table, 0, 0, false, c) && c < IndexEnd(index, n))
    ensures forall cs, js :: ValidCodes(cs) && table == Written(cs) && IndexWritten(cs, js, index) && n == |js| + 1 ==>
                               found == HasProperty(Runs(cs), c)
  {
    hide Reads, WellFormed, EndCode, BitAt, GetLe24, HasProperty, IndexWritten;
    forall cs, js | ValidCodes(cs) && table == Written(cs) && IndexWritten(cs, js, index) && n == |js| + 1
      ensures BitAt(table, 0, 0, false, c) == HasProperty(Runs(cs), c) &&
              (HasProperty(Runs(cs), c) ==> c < IndexEnd(index, n))
    {
      WholeTableRead(table, cs, c);
      WrittenIndexEnd(cs, js, index, c);
    }
    var pos, code := GetIndexPos(c, index, n);
    if pos < 0 {
      return false;
    }
    ReadsStart(table);
    IndexReach(table, index, n, c);
    found := Lookup(c, table, pos, code);
  }

  lemma {:induction false} IndexReach(table: seq<u8>, index: seq<u8>, n: nat, c: nat)
    requires WellFormed(table, 0) && IndexOk(table, index, n)
    requires c < IndexEnd(index, n)
    ensures c < EndCode(table, 0, 0)
  {
    hide BitAt;
    if c < EntryCode(index, 0) && n > 1 {
      assert Reads(table, EntryPos(index, 0), EntryCode(index, 0), false);
    }
  }

  /** The lookup agrees with the full decode on all code points if and only if the last range of the decode
      ends at or in front of the end of the index. */
  lemma {:induction false} LookupExact(table: seq<u8>, index: seq<u8>, n: nat, points: seq<u32>)
    requires WellFormed(table, 0) && n > 0 && |index| == 3 * n && Compressed(points)
    requires forall x: nat :: Member(points, x) <==> BitAt(table, 0, 0, false, x)
    ensures (forall c: nat :: (BitAt(table, 0, 0, false, c) && c < IndexEnd(index, n)) == Member(points, c)) <==>
            points == [] || points[|points| - 1] <= IndexEnd(index, n)
  {
    hide BitAt, WellFormed, IndexEnd;
    var end := IndexEnd(index, n);
    if points != [] {
      var last, top: nat := |points| / 2 - 1, points[|points| - 1];
      assert points[2 * last] < top;
      assert InInterval(points, last, top - 1);
      assert Member(points, top - 1);
    }
    forall c: nat | c >= end && Member(points, c)
      ensures points != [] && c < points[|points| - 1]
    {
      var i :| 0 <= i < |points| / 2 && InInterval(points, i, c);
      assert points[2 * i + 1] <= points[|points| - 1];
    }
  }

  // ---------------------------------------------------------------- indexes as they are written

  lemma EntryRead(index: seq<u8>, k: nat, code: nat, offset: nat)
    requires 3 * k + 3 <= |index| && code < 0x20_0000 && offset < 8
    requires index[3 * k..3 * k + 3] == EntryBytes(code, offset)
    ensures EntryCode(index, k) == code && EntryPos(index, k) == 32 * (k + 1) + offset
    ensures offset == 0 ==> GetLe24(index, k) == code
  {
    var bytes := EntryBytes(code, offset);
    assert index[3 * k] == index[3 * k..3 * k + 3][0] == bytes[0];
    assert index[3 * k + 1] == index[3 * k..3 * k + 3][1] == bytes[1];
    assert index[3 * k + 2] == index[3 * k..3 * k + 3][2] == bytes[2];
    BytesValue(code);
    assert GetLe24(index, k) == code + 0x20_0000 * offset;
    TopBits(code, offset);
  }

  lemma BytesValue(code: nat)
    requires code < 0x20_0000
    ensures code % 0x100 + code / 0x100 % 0x100 * 0x100 + code / 0x1_0000 * 0x1_0000 == code
  {
    HighByte(code);
  }

  lemma TopBits(code: nat, offset: nat)
    requires code < 0x20_0000
    ensures (code + 0x20_0000 * offset) % 0x20_0000 == code && (code + 0x20_0000 * offset) / 0x20_0000 == offset
  {
  }

  lemma {:induction false} LastEntry(cs: seq<Code>, js: seq<nat>, index: seq<u8>)
    requires ValidCodes(cs) && IndexWritten(cs, js, index)
    ensures GetLe24(index, |js|) == EntryCode(index, |js|) == Total(Runs(cs))
  {
    assert index[3 * |js|..3 * |js| + 3] == index[3 * |js|..];
    EntryRead(index, |js|, Total(Runs(cs)), 0);
  }

  lemma {:induction false} WrittenIndexEnd(cs: seq<Code>, js: seq<nat>, index: seq<u8>, x: nat)
    requires ValidCodes(cs) && IndexWritten(cs, js, index)
    ensures HasProperty(Runs(cs), x) ==> x < IndexEnd(index, |js| + 1)
  {
    LastEntry(cs, js, index);
  }

  /** The decoder may start where an even number of runs has been written. */
  lemma {:induction false} PrefixReads(table: seq<u8>, cs: seq<Code>, j: nat)
    requires ValidCodes(cs) && table == Written(cs) && j <= |cs| && ValidCodes(cs[..j]) && |Runs(cs[..j])| % 2 == 0
    ensures |Written(cs[..j])| <= |table|
    ensures Reads(table, |Written(cs[..j])|, Total(Runs(cs[..j])), false)
  {
    var front, rest := cs[..j], cs[j..];
    assert cs == front + rest;
    WrittenConcat(front, rest);
    RunsConcat(front, rest);
    TotalConcat(Runs(front), Runs(rest));
    var p, code := |Written(front)|, Total(Runs(front));
    assert table[p..] == Written(rest);
    hide WellFormed, EndCode, BitAt, Written, Runs, Total, EndsUpTo;
    TableRead(table, rest, p, code, false, code);
    WholeTableRead(table, cs, 0);
    forall x: nat | x >= code
      ensures BitAt(table, 0, 0, false, x) == BitAt(table, p, code, false, x)
    {
      BehindPrefix(table, cs, front, rest, x);
    }
  }

  lemma {:induction false} BehindPrefix(table: seq<u8>, cs: seq<Code>, front: seq<Code>, rest: seq<Code>, x: nat)
    requires ValidCodes(cs) && ValidCodes(front) && ValidCodes(rest) && cs == front + rest && table == Written(cs)
    requires |Runs(front)| % 2 == 0 && x >= Total(Runs(front)) && |Written(front)| <= |table|
    requires table[|Written(front)|..] == Written(rest)
    requires Runs(cs) == Runs(front) + Runs(rest) && Total(Runs(cs)) == Total(Runs(front)) + Total(Runs(rest))
    ensures WellFormed(table, 0) && WellFormed(table, |Written(front)|)
    ensures BitAt(table, 0, 0, false, x) == BitAt(table, |Written(front)|, Total(Runs(front)), false, x)
  {
    hide WellFormed, EndCode, BitAt, Written, Runs, Total, EndsUpTo;
    var code := Total(Runs(front));
    WholeTableRead(table, cs, x);
    TableRead(table, rest, |Written(front)|, code, false, x);
    EndsBehind(Runs(front), Runs(rest), x);
    EvenMore(|Runs(front)|, EndsUpTo(Runs(rest), x - code));
  }

  lemma EvenMore(m: nat, n: nat)
    requires m % 2 == 0
    ensures (m + n) % 2 == n % 2
  {
  }

  /** An index written from the codes of a table fits the table, and nothing has the property behind its end. */
  lemma {:induction false} WrittenIndexFits(table: seq<u8>, cs: seq<Code>, js: seq<nat>, index: seq<u8>)
    requires ValidCodes(cs) && table == Written(cs) && IndexWritten(cs, js, index)
    ensures WellFormed(table, 0) && IndexOk(table, index, |js| + 1)
    ensures forall x: nat :: HasProperty(Runs(cs), x) ==> x < IndexEnd(index, |js| + 1)
  {
    hide Reads, Starts, BitAt, EndCode, WellFormed, EntryBytes, HasProperty;
    WholeTableRead(table, cs, 0);
    LastEntry(cs, js, index);
    forall x: nat | HasProperty(Runs(cs), x)
      ensures x < IndexEnd(index, |js| + 1)
    {
      WrittenIndexEnd(cs, js, index, x);
    }
    forall k | 0 <= k < |js|
      ensures EntryPos(index, k) <= |table| && Reads(table, EntryPos(index, k), EntryCode(index, k), false)
    {
      assert Starts(cs, k, js[k]) && EntryWritten(cs, k, js[k], index);
      EntryFits(table, cs, k, js[k], index);
    }
  }

  lemma {:induction false} EntryFits(table: seq<u8>, cs: seq<Code>, k: nat, j: nat, index: seq<u8>)
    requires ValidCodes(cs) && table == Written(cs) && Starts(cs, k, j) && EntryWritten(cs, k, j, index)
    ensures EntryPos(index, k) <= |table| && Reads(table, EntryPos(index, k), EntryCode(index, k), false)
  {
    hide Reads, Written, Runs, Total, EntryBytes;
    PrefixReads(table, cs, j);
    EntryRead(index, k, Total(Runs(cs[..j])), |Written(cs[..j])| - 32 * (k + 1));
  }

  // ---------------------------------------------------------------- any runs, and a table of the library

  /** Any runs can be written to a table in which the code points of every second run have the bit. */
  lemma {:induction false} RunsRoundTrip(runs: seq<nat>, x: nat)
    requires ValidRuns(runs)
    ensures ValidCodes(Pack(runs)) && WellFormed(Written(Pack(runs)), 0)
    ensures BitAt(Written(Pack(runs)), 0, 0, false, x) <==> x < Total(runs) && EndsUpTo(runs, x) % 2 == 1
  {
    PackedRuns(runs);
    WholeTableRead(Written(Pack(runs)), Pack(runs), x);
  }

  /** `unicode_prop_ASCII_Hex_Digit_table`. */
  const HEX_DIGITS: seq<u8> := [0xaf, 0x89, 0x35, 0x99, 0x85]

  lemma {:induction false} HexDigits(x: nat)
    ensures WellFormed(HEX_DIGITS, 0)
    ensures BitAt(HEX_DIGITS, 0, 0, false, x) <==>
            '0' as nat <= x <= '9' as nat || 'A' as nat <= x <= 'F' as nat || 'a' as nat <= x <= 'f' as nat
  {
    var t := HEX_DIGITS;
    assert ItemAt(t, 0) == Item(48, 0) && ItemAt(t, 1) == Item(10, 0) && ItemAt(t, 2) == Item(7, 6);
    assert ItemAt(t, 3) == Item(26, 0) && ItemAt(t, 4) == Item(6, 0);
    hide ItemAt;
    assert WellFormed(t, 5) && WellFormed(t, 4) && WellFormed(t, 3) && WellFormed(t, 2) && WellFormed(t, 1);
    assert BitAt(t, 4, 97, true, x) == (x < 103);
    assert BitAt(t, 3, 71, false, x) == (97 <= x < 103);
    assert BitAt(t, 2, 58, false, x) == (if x < 65 then false else if x < 71 then true else 97 <= x < 103);
    assert BitAt(t, 1, 48, true, x) == (if x < 58 then true else BitAt(t, 2, 58, false, x));
  }
}
