/** How a property table and its block index are written, byte by byte: nothing here depends on how they are
    read. */
module PropFormat {
  import opened Integers

  // ---------------------------------------------------------------- runs

  /** The lengths of alternating runs, the first of them without the property. */
  predicate ValidRuns(runs: seq<nat>) {
    forall i :: 0 <= i < |runs| ==> 1 <= runs[i] <= 0x20_0000
  }

  function Total(runs: seq<nat>): (n: nat) {
    if |runs| == 0 then 0 else runs[0] + Total(runs[1..])
  }

  /** How many runs end at or in front of code point `x`. */
  function EndsUpTo(runs: seq<nat>, x: nat): (n: nat)
    ensures n <= |runs|
  {
    if |runs| == 0 || x < runs[0] then 0 else 1 + EndsUpTo(runs[1..], x - runs[0])
  }

  /** Every second run has the property; behind the last one nothing has it. */
  predicate HasProperty(runs: seq<nat>, x: nat) {
    x < Total(runs) && EndsUpTo(runs, x) % 2 == 1
  }

  lemma {:induction false} TotalConcat(a: seq<nat>, b: seq<nat>)
    ensures Total(a + b) == Total(a) + Total(b)
    decreases |a|
  {
    if |a| == 0 {
      assert a + b == b;
    } else {
      assert (a + b)[1..] == a[1..] + b;
      TotalConcat(a[1..], b);
    }
  }

  /** Behind the first runs their number counts. */
  lemma {:induction false} EndsBehind(a: seq<nat>, b: seq<nat>, x: nat)
    requires x >= Total(a)
    ensures EndsUpTo(a + b, x) == |a| + EndsUpTo(b, x - Total(a))
    decreases |a|
  {
    if |a| == 0 {
      assert a + b == b;
    } else {
      assert (a + b)[1..] == a[1..] + b;
      EndsBehind(a[1..], b, x - a[0]);
    }
  }

  // ---------------------------------------------------------------- codes

  /** One code of a table: two short runs in one byte, or one run in one, two or three bytes. */
  datatype Code =
    | Pair(first: nat, second: nat)
    | One(n: nat)
    | Two(n: nat)
    | Three(n: nat)

  predicate ValidCode(c: Code) {
    match c
    case Pair(a, b) => 1 <= a <= 8 && 1 <= b <= 8
    case One(n) => 1 <= n <= 128
    case Two(n) => 1 <= n <= 0x2000
    case Three(n) => 1 <= n <= 0x20_0000
  }

  function RunsOf(c: Code): (runs: seq<nat>)
    ensures |runs| > 0
  {
    match c
    case Pair(a, b) => [a, b]
    case One(n) => [n]
    case Two(n) => [n]
    case Three(n) => [n]
  }

  function BytesOf(c: Code): (bytes: seq<u8>)
    requires ValidCode(c)
    ensures 1 <= |bytes| <= 3
  {
    match c
    case Pair(a, b) => [(a - 1) * 8 + (b - 1)]
    case One(n) => [0x80 + (n - 1)]
    case Two(n) => [0x40 + (n - 1) / 0x100, (n - 1) % 0x100]
    case Three(n) => [0x60 + (n - 1) / 0x1_0000, (n - 1) / 0x100 % 0x100, (n - 1) % 0x100]
  }

  predicate ValidCodes(cs: seq<Code>) {
    forall i :: 0 <= i < |cs| ==> ValidCode(cs[i])
  }

  function Runs(cs: seq<Code>): (runs: seq<nat>) {
    if |cs| == 0 then [] else RunsOf(cs[0]) + Runs(cs[1..])
  }

  function Written(cs: seq<Code>): (table: seq<u8>)
    requires ValidCodes(cs)
  {
    if |cs| == 0 then [] else BytesOf(cs[0]) + Written(cs[1..])
  }

  lemma {:induction false} RunsConcat(a: seq<Code>, b: seq<Code>)
    ensures Runs(a + b) == Runs(a) + Runs(b)
    decreases |a|
  {
    if |a| == 0 {
      assert a + b == b;
    } else {
      assert (a + b)[0] == a[0] && (a + b)[1..] == a[1..] + b;
      RunsConcat(a[1..], b);
      assert RunsOf(a[0]) + (Runs(a[1..]) + Runs(b)) == RunsOf(a[0]) + Runs(a[1..]) + Runs(b);
    }
  }

  lemma {:induction false} WrittenConcat(a: seq<Code>, b: seq<Code>)
    requires ValidCodes(a) && ValidCodes(b)
    ensures ValidCodes(a + b) && Written(a + b) == Written(a) + Written(b)
    decreases |a|
  {
    if |a| == 0 {
      assert a + b == b;
    } else {
      assert (a + b)[0] == a[0] && (a + b)[1..] == a[1..] + b;
      WrittenConcat(a[1..], b);
      assert BytesOf(a[0]) + (Written(a[1..]) + Written(b)) == BytesOf(a[0]) + Written(a[1..]) + Written(b);
    }
  }

  /** The shortest codes for given runs. */
  function Pack(runs: seq<nat>): (cs: seq<Code>)
    decreases |runs|
  {
    if |runs| == 0 then []
    else
      var n := runs[0];
      if |runs| > 1 && n <= 8 && runs[1] <= 8 then [Pair(n, runs[1])] + Pack(runs[2..])
      else [if n <= 128 then One(n) else if n <= 0x2000 then Two(n) else Three(n)] + Pack(runs[1..])
  }

  /** Any runs can be written. */
  lemma {:induction false} PackedRuns(runs: seq<nat>)
    requires ValidRuns(runs)
    ensures ValidCodes(Pack(runs)) && Runs(Pack(runs)) == runs
    decreases |runs|
  {
    if |runs| > 0 {
      var n, cs := runs[0], Pack(runs);
      if |runs| > 1 && n <= 8 && runs[1] <= 8 {
        PackedRuns(runs[2..]);
        assert cs[1..] == Pack(runs[2..]) && runs == [n, runs[1]] + runs[2..];
      } else {
        PackedRuns(runs[1..]);
        assert cs[1..] == Pack(runs[1..]) && runs == [n] + runs[1..];
      }
    }
  }

  // ---------------------------------------------------------------- the index

  /** 21 bits of code point, low byte first, and 3 bits of offset. */
  function EntryBytes(code: nat, offset: nat): (bytes: seq<u8>)
    requires code < 0x20_0000 && offset < 8
    ensures |bytes| == 3
  {
    [code % 0x100, code / 0x100 % 0x100, code / 0x1_0000 + 0x20 * offset]
  }

  /** Code `j` of the table may start block `k`: it begins at most 7 bytes behind byte 32(k + 1), and behind an even
      number of runs. */
  predicate Starts(cs: seq<Code>, k: nat, j: nat)
    requires ValidCodes(cs)
  {
    j <= |cs| && ValidCodes(cs[..j]) && 32 * (k + 1) <= |Written(cs[..j])| < 32 * (k + 1) + 8 &&
    |Runs(cs[..j])| % 2 == 0
  }

  /** An entry for each block: where it starts, and at the end how far the table reaches. */
  ghost predicate IndexWritten(cs: seq<Code>, js: seq<nat>, index: seq<u8>)
    requires ValidCodes(cs)
  {
    && Total(Runs(cs)) < 0x20_0000 && |index| == 3 * |js| + 3
    && (forall k :: 0 <= k < |js| ==> Starts(cs, k, js[k]) && EntryWritten(cs, k, js[k], index))
    && index[3 * |js|..] == EntryBytes(Total(Runs(cs)), 0)
  }

  ghost predicate EntryWritten(cs: seq<Code>, k: nat, j: nat, index: seq<u8>)
    requires ValidCodes(cs) && Starts(cs, k, j)
  {
    var code := Total(Runs(cs[..j]));
    code < 0x20_0000 && 3 * k + 3 <= |index| &&
    index[3 * k..3 * k + 3] == EntryBytes(code, |Written(cs[..j])| - 32 * (k + 1))
  }
}
