/** Character classes as sorted arrays of interval end points. */
module CharRanges {
  import opened Integers

  datatype Op = Union | Inter | Xor

  // ---------------------------------------------------------------- what a point array denotes

  /** Points come in pairs; pair `i` is the half-open interval [points[2i], points[2i+1]). */
  predicate Member(points: seq<u32>, c: nat) {
    exists i :: 0 <= i < |points| / 2 && InInterval(points, i, c)
  }

  predicate InInterval(points: seq<u32>, i: nat, c: nat)
    requires i < |points| / 2
  {
    points[2 * i] <= c < points[2 * i + 1]
  }

  predicate Sorted(points: seq<u32>) {
    forall i, j :: 0 <= i < j < |points| ==> points[i] <= points[j]
  }

  predicate Increasing(points: seq<u32>) {
    forall i, j :: 0 <= i < j < |points| ==> points[i] < points[j]
  }

  /** Sorted even-length arrays: what the operations accept. */
  predicate Ranges(points: seq<u32>) {
    |points| % 2 == 0 && Sorted(points)
  }

  predicate NonEmpty(points: seq<u32>, i: nat)
    requires i < |points| / 2
  {
    points[2 * i] < points[2 * i + 1]
  }

  /** No empty intervals, though they may touch: what a class is before it is encoded. */
  predicate Intervals(points: seq<u32>) {
    Ranges(points) && forall i :: 0 <= i < |points| / 2 ==> NonEmpty(points, i)
  }

  /** No empty and no touching intervals: what the operations produce. */
  predicate Compressed(points: seq<u32>) {
    |points| % 2 == 0 && Increasing(points)
  }

  function Apply(op: Op, a: bool, b: bool): bool {
    match op
    case Union => a || b
    case Inter => a && b
    case Xor => a != b
  }

  /** `r` is the compressed form of the set that `op` makes of `a` and `b`. */
  ghost predicate IsOp(op: Op, a: seq<u32>, b: seq<u32>, r: seq<u32>) {
    Compressed(r) && forall c: nat :: Member(r, c) <==> Apply(op, Member(a, c), Member(b, c))
  }

  /** `r` is the compressed complement of `a` within [0, UINT32_MAX). */
  ghost predicate IsInverse(a: seq<u32>, r: seq<u32>) {
    Compressed(r) && forall c: nat :: Member(r, c) <==> c < 0xffff_ffff && !Member(a, c)
  }

  // ---------------------------------------------------------------- counting points

  /** How many points are at most `c`; membership is its parity. */
  function CountLe(points: seq<u32>, c: nat): (n: nat)
    ensures n <= |points|
  {
    if |points| == 0 then 0
    else CountLe(points[..|points| - 1], c) + if points[|points| - 1] <= c then 1 else 0
  }

  lemma {:induction false} CountLeSnoc(points: seq<u32>, v: u32, c: nat)
    ensures CountLe(points + [v], c) == CountLe(points, c) + if v <= c then 1 else 0
  {
    assert (points + [v])[..|points|] == points;
  }

  lemma {:induction false} CountLeAll(points: seq<u32>, c: nat)
    requires forall i :: 0 <= i < |points| ==> points[i] <= c
    ensures CountLe(points, c) == |points|
  {
    if |points| > 0 {
      CountLeAll(points[..|points| - 1], c);
    }
  }

  predicate Odd(points: seq<u32>, c: nat) {
    CountLe(points, c) % 2 == 1
  }

  /** Two arrays, not necessarily compressed, with the same parity everywhere. */
  ghost predicate SameParity(a: seq<u32>, b: seq<u32>) {
    forall c: nat :: Odd(a, c) == Odd(b, c)
  }

  lemma OddSnoc(points: seq<u32>, v: u32, c: nat)
    ensures Odd(points + [v], c) == (Odd(points, c) != (v <= c))
  {
    CountLeSnoc(points, v, c);
  }

  lemma SameParitySnoc(a: seq<u32>, b: seq<u32>, v: u32)
    requires SameParity(a, b)
    ensures SameParity(a + [v], b + [v])
  {
    forall c: nat
      ensures Odd(a + [v], c) == Odd(b + [v], c)
    {
      OddSnoc(a, v, c);
      OddSnoc(b, v, c);
    }
  }

  /** A repeated point changes nothing. */
  lemma SameParityTwice(a: seq<u32>, n: nat)
    requires n + 1 < |a| && a[n] == a[n + 1]
    ensures SameParity(a[..n + 2], a[..n])
  {
    assert a[..n + 1] == a[..n] + [a[n]];
    assert a[..n + 2] == a[..n + 1] + [a[n + 1]];
    forall c: nat
      ensures Odd(a[..n + 2], c) == Odd(a[..n], c)
    {
      OddSnoc(a[..n], a[n], c);
      OddSnoc(a[..n + 1], a[n], c);
    }
  }

  /** Membership in `points`, seen from its last interval. */
  lemma MemberLast(points: seq<u32>, c: nat)
    requires |points| % 2 == 0 && |points| >= 2
    ensures Member(points, c) <==> Member(points[..|points| - 2], c) || points[|points| - 2] <= c < points[|points| - 1]
  {
    var n, pre := |points|, points[..|points| - 2];
    if points[n - 2] <= c < points[n - 1] {
      assert InInterval(points, n / 2 - 1, c);
    }
    forall i | 0 <= i < n / 2 - 1
      ensures InInterval(points, i, c) == InInterval(pre, i, c)
    {
    }
    if Member(points, c) {
      var i :| 0 <= i < n / 2 && InInterval(points, i, c);
      assert i < n / 2 - 1 ==> InInterval(pre, i, c);
    }
    if Member(pre, c) {
      var i :| 0 <= i < |pre| / 2 && InInterval(pre, i, c);
      assert InInterval(points, i, c);
    }
  }

  lemma {:induction false} MemberIsParity(points: seq<u32>, c: nat)
    requires Ranges(points)
    ensures Member(points, c) <==> Odd(points, c)
  {
    var n := |points|;
    if n > 0 {
      var pre := points[..n - 2];
      MemberIsParity(pre, c);
      MemberLast(points, c);
      assert points[..n - 1][..n - 2] == pre;
      assert CountLe(points[..n - 1], c) == CountLe(pre, c) + if points[n - 2] <= c then 1 else 0;
      if points[n - 2] <= c {
        CountLeAll(pre, c);
      }
    }
  }

  lemma SameParitySameSet(a: seq<u32>, b: seq<u32>, c: nat)
    requires Ranges(a) && Ranges(b) && SameParity(a, b)
    ensures Member(a, c) <==> Member(b, c)
  {
    MemberIsParity(a, c);
    MemberIsParity(b, c);
    assert Odd(a, c) == Odd(b, c);
  }

  // ---------------------------------------------------------------- the compressed form is unique

  lemma {:induction false} CountAt(points: seq<u32>, k: nat, c: nat)
    requires Increasing(points) && k < |points| && c == points[k]
    ensures CountLe(points, c) == k + 1
  {
    CountLeAll(points[..k + 1], c);
    CountLeNoneAbove(points, k + 1, c);
  }

  lemma {:induction false} CountLeNoneAbove(points: seq<u32>, n: nat, c: nat)
    requires n <= |points|
    requires forall i :: n <= i < |points| ==> points[i] > c
    ensures CountLe(points, c) == CountLe(points[..n], c)
  {
    if n == |points| {
      assert points[..n] == points;
    } else {
      assert points[..|points| - 1][..n] == points[..n];
      CountLeNoneAbove(points[..|points| - 1], n, c);
    }
  }

  /** Two compressed arrays that denote the same set are the same array. */
  lemma CompressedIsUnique(a: seq<u32>, b: seq<u32>)
    requires Compressed(a) && Compressed(b)
    requires forall c: nat :: Member(a, c) <==> Member(b, c)
    ensures a == b
  {
    if a != b {
      var k := FirstDifference(a, b, 0);
      if k < |a| && (k == |b| || a[k] < b[k]) {
        DifferenceShows(a, b, k);
      } else {
        DifferenceShows(b, a, k);
      }
    }
  }

  lemma FirstDifference(a: seq<u32>, b: seq<u32>, n: nat) returns (k: nat)
    requires a != b && n <= |a| && n <= |b| && a[..n] == b[..n]
    ensures k <= |a| && k <= |b| && a[..k] == b[..k]
    ensures k < |a| || k < |b|
    ensures k < |a| && k < |b| ==> a[k] != b[k]
    decreases |a| - n
  {
    if n < |a| && n < |b| && a[n] == b[n] {
      assert a[..n + 1] == a[..n] + [a[n]] && b[..n + 1] == b[..n] + [b[n]];
      k := FirstDifference(a, b, n + 1);
    } else {
      assert a[..|a|] == a && b[..|b|] == b;
      k := n;
    }
  }

  lemma DifferenceShows(a: seq<u32>, b: seq<u32>, k: nat)
    requires Compressed(a) && Compressed(b)
    requires k < |a| && k <= |b| && a[..k] == b[..k] && (k == |b| || a[k] < b[k])
    ensures Member(a, a[k]) != Member(b, a[k])
  {
    var c := a[k];
    CountAt(a, k, c);
    forall i | 0 <= i < k
      ensures b[i] <= c
    {
      assert b[i] == b[..k][i] == a[..k][i] == a[i];
    }
    CountLeAll(b[..k], c);
    CountLeNoneAbove(b, k, c);
    MemberIsParity(a, c);
    MemberIsParity(b, c);
  }

  // ---------------------------------------------------------------- algebra, as array equalities

  lemma OpIsUnique(op: Op, a: seq<u32>, b: seq<u32>, r: seq<u32>, r': seq<u32>)
    requires IsOp(op, a, b, r) && IsOp(op, a, b, r')
    ensures r == r'
  {
    CompressedIsUnique(r, r');
  }

  /** Inverting twice gives the array back. */
  lemma InverseIsInvolution(a: seq<u32>, r: seq<u32>, rr: seq<u32>)
    requires Compressed(a) && IsInverse(a, r) && IsInverse(r, rr)
    ensures rr == a
  {
    forall c: nat
      ensures Member(rr, c) <==> Member(a, c)
    {
      if Member(a, c) {
        var i :| 0 <= i < |a| / 2 && InInterval(a, i, c);
        assert c < a[2 * i + 1] <= UINT32_MAX;
      }
    }
    CompressedIsUnique(rr, a);
  }

  /** The complement of a union is the intersection of the complements, point for point. */
  lemma DeMorgan(a: seq<u32>, b: seq<u32>, u: seq<u32>, nu: seq<u32>, na: seq<u32>, nb: seq<u32>, i: seq<u32>)
    requires IsOp(Union, a, b, u) && IsInverse(u, nu)
    requires IsInverse(a, na) && IsInverse(b, nb) && IsOp(Inter, na, nb, i)
    ensures nu == i
  {
    CompressedIsUnique(nu, i);
  }

  /** Symmetric difference is union minus intersection. */
  lemma XorIsUnionMinusInter(a: seq<u32>, b: seq<u32>, x: seq<u32>, u: seq<u32>, i: seq<u32>, ni: seq<u32>,
                             d: seq<u32>)
    requires IsOp(Xor, a, b, x) && IsOp(Union, a, b, u) && IsOp(Inter, a, b, i)
    requires IsInverse(i, ni) && IsOp(Inter, u, ni, d)
    ensures x == d
  {
    forall c: nat
      ensures Member(x, c) <==> Member(d, c)
    {
      BelowMax(a, c);
      BelowMax(b, c);
    }
    CompressedIsUnique(x, d);
  }

  lemma BelowMax(a: seq<u32>, c: nat)
    ensures Member(a, c) ==> c < UINT32_MAX
  {
    if Member(a, c) {
      var i :| 0 <= i < |a| / 2 && InInterval(a, i, c);
      assert c < a[2 * i + 1] <= UINT32_MAX;
    }
  }

  // ---------------------------------------------------------------- the growable point buffer

  /** What compression has written so far, `q`, is the compressed form of the first `i` points. */
  ghost predicate Joined(q: seq<u32>, p: seq<u32>, i: nat) {
    i <= |p| && Compressed(q) && SameParity(q, p[..i]) && (0 < |q| && i < |p| ==> q[|q| - 1] < p[i])
  }

  lemma JoinStart(p: seq<u32>)
    ensures Joined([], p, 0)
  {
  }

  lemma JoinSkip(q: seq<u32>, p: seq<u32>, i: nat)
    requires i + 1 < |p| && Ranges(p) && p[i] == p[i + 1] && Joined(q, p, i)
    ensures Joined(q, p, i + 2)
  {
    SameParityTwice(p, i);
    SameParityTrans(q, p[..i], p[..i + 2]);
  }

  lemma JoinStep(q: seq<u32>, p: seq<u32>, i: nat, j: nat)
    requires i <= j && j + 1 < |p| && Ranges(p) && p[i] != p[i + 1]
    requires j + 2 < |p| ==> p[j + 1] != p[j + 2]
    requires Joined(q, p, i) && SameParity(p[..j + 1], p[..i + 1])
    ensures Joined(q + [p[i], p[j + 1]], p, j + 2)
  {
    assert p[..i + 1] == p[..i] + [p[i]] && p[..j + 2] == p[..j + 1] + [p[j + 1]];
    SameParitySnoc(q, p[..i], p[i]);
    SameParityTrans(q + [p[i]], p[..i + 1], p[..j + 1]);
    SameParitySnoc(q + [p[i]], p[..j + 1], p[j + 1]);
    assert q + [p[i], p[j + 1]] == q + [p[i]] + [p[j + 1]];
    assert p[i] < p[i + 1] <= p[j + 1];
  }

  lemma JoinEnd(q: seq<u32>, p: seq<u32>)
    requires Ranges(p) && Joined(q, p, |p|)
    ensures Compressed(q)
    ensures forall c: nat :: Member(q, c) <==> Member(p, c)
  {
    assert p[..|p|] == p;
    forall c: nat
      ensures Member(q, c) <==> Member(p, c)
    {
      SameParitySameSet(q, p, c);
    }
  }

  lemma SameParityTrans(a: seq<u32>, b: seq<u32>, c: seq<u32>)
    requires SameParity(a, b) && SameParity(c, b)
    ensures SameParity(a, c)
  {
  }

  class CharRange {
    var points: array<u32>
    var len: nat

    ghost predicate Valid()
      reads this
    {
      len <= points.Length
    }

    ghost function Contents(): (s: seq<u32>)
      reads this, points
      requires Valid()
    {
      points[..len]
    }

    constructor ()
      ensures Valid() && Contents() == [] && fresh(points)
    {
      points := new u32[0];
      len := 0;
    }

    /** Makes room for `size` points. */
    method Realloc(size: nat)
      requires Valid()
      modifies this`points
      ensures Valid() && Contents() == old(Contents()) && points.Length >= size
      ensures points == old(points) || fresh(points)
    {
      if size > points.Length {
        var newSize := if size > points.Length * 3 / 2 then size else points.Length * 3 / 2;
        var buf := new u32[newSize](i requires 0 <= i < newSize reads this, points =>
                                      if i < points.Length then points[i] else 0);
        assert buf[..len] == points[..len];
        points := buf;
      }
    }

    method AddPoint(v: u32)
      requires Valid()
      modifies this, points
      ensures Valid() && Contents() == old(Contents()) + [v]
      ensures points == old(points) || fresh(points)
    {
      if len >= points.Length {
        Realloc(len + 1);
      }
      assert points[..len] == old(Contents());
      points[len] := v;
      len := len + 1;
    }

    method AddInterval(c1: u32, c2: u32)
      requires Valid()
      modifies this, points
      ensures Valid() && Contents() == old(Contents()) + [c1, c2]
      ensures points == old(points) || fresh(points)
    {
      if len + 2 > points.Length {
        Realloc(len + 2);
      }
      assert points[..len] == old(Contents());
      points[len] := c1;
      len := len + 1;
      points[len] := c2;
      len := len + 1;
    }

    /** Drops empty intervals and joins touching ones, in place. */
    method Compress()
      requires Valid() && Ranges(Contents())
      modifies this`len, points
      ensures Valid() && Compressed(Contents())
      ensures forall c: nat :: Member(Contents(), c) <==> Member(old(Contents()), c)
    {
      hide Joined, Member, Compressed, Sorted;
      ghost var p := Contents();
      JoinStart(p);
      ghost var pairs, q := 0, [];
      var i, k := 0, 0;
      while i + 1 < len
        invariant i == 2 * pairs && 0 <= k <= i <= len == |p|
        invariant forall m :: i <= m < len ==> points[m] == p[m]
        invariant points[..k] == q && Joined(q, p, i)
      {
        if points[i] == points[i + 1] {
          JoinSkip(q, p, i);
          i, pairs := i + 2, pairs + 1;
        } else {
          var j;
          j, pairs := LastTouching(i, p, pairs);
          JoinStep(q, p, i, j);
          q := q + [p[i], p[j + 1]];
          PutInterval(k, points[i], points[j + 1]);
          k := k + 2;
          i, pairs := j + 2, pairs + 1;
        }
      }
      len := k;
      JoinEnd(q, p);
    }

    /** The start of the last interval of the touching run that starts at `i`. */
    method LastTouching(i: nat, ghost p: seq<u32>, ghost g: nat) returns (j: nat, ghost h: nat)
      requires Valid() && len == |p| && |p| % 2 == 0 && i == 2 * g && i + 1 < len
      requires forall m :: i <= m < len ==> points[m] == p[m]
      ensures i <= j == 2 * h && j + 1 < len
      ensures j + 2 < len ==> j + 3 < len && p[j + 1] != p[j + 2]
      ensures SameParity(p[..j + 1], p[..i + 1])
    {
      j, h := i, g;
      while j + 3 < len && points[j + 1] == points[j + 2]
        invariant i <= j == 2 * h && j + 1 < len
        invariant SameParity(p[..j + 1], p[..i + 1])
      {
        SameParityTwice(p, j + 1);
        j, h := j + 2, h + 1;
      }
    }

    method PutInterval(k: nat, lo: u32, hi: u32)
      requires k + 1 < points.Length
      modifies points
      ensures points[..k + 2] == old(points[..k]) + [lo, hi]
      ensures forall m :: k + 2 <= m < points.Length ==> points[m] == old(points[m])
    {
      points[k] := lo;
      points[k + 1] := hi;
    }

    /** The merge of two point arrays under a set operation, into an empty range. */
    method Operate(a: seq<u32>, b: seq<u32>, op: Op)
      requires Valid() && Contents() == [] && Ranges(a) && Ranges(b)
      modifies this, points
      ensures Valid() && IsOp(op, a, b, Contents())
      ensures points == old(points) || fresh(points)
    {
      var i, j := 0, 0;
      while i < |a| || j < |b|
        invariant Valid() && i <= |a| && j <= |b|
        invariant points == old(points) || fresh(points)
        invariant Sorted(Contents())
        invariant MergeBound(Contents(), a, i, b, j)
        invariant len % 2 == (if Apply(op, i % 2 == 1, j % 2 == 1) then 1 else 0)
        invariant MergeParity(Contents(), a, i, b, j, op)
        decreases |a| - i + |b| - j
      {
        ghost var i0, j0, s := i, j, Contents();
        var v;
        if i < |a| && j < |b| && a[i] == b[j] {
          v := a[i];
          i := i + 1;
          j := j + 1;
        } else if i < |a| && (j == |b| || a[i] < b[j]) {
          v := a[i];
          i := i + 1;
        } else {
          v := b[j];
          j := j + 1;
        }
        var isIn := Apply(op, i % 2 == 1, j % 2 == 1);
        if isIn != (len % 2 == 1) {
          AddPoint(v);
        }
        MergeStep(s, a, i0, i, b, j0, j, op, v, Contents());
      }
      assert a[..i] == a && b[..j] == b;
      assert len % 2 == 0;
      ghost var r := Contents();
      Compress();
      forall c: nat
        ensures Member(Contents(), c) <==> Apply(op, Member(a, c), Member(b, c))
      {
        MemberIsParity(r, c);
        MemberIsParity(a, c);
        MemberIsParity(b, c);
      }
    }

    /** Adds the set `b` to this range. */
    method Union1(b: seq<u32>)
      requires Valid() && Ranges(Contents()) && Ranges(b)
      modifies this, points
      ensures Valid() && IsOp(Union, old(Contents()), b, Contents())
      ensures fresh(points)
    {
      var a := points[..len];
      len := 0;
      points := new u32[0];
      Operate(a, b, Union);
    }

    /** Adds the closed interval [c1, c2]. */
    method UnionInterval(c1: u32, c2: u32)
      requires Valid() && Ranges(Contents()) && c1 <= c2 < UINT32_MAX
      modifies this, points
      ensures Valid() && Compressed(Contents()) && fresh(points)
      ensures forall c: nat :: Member(Contents(), c) <==> old(Member(Contents(), c)) || c1 <= c <= c2
    {
      var b: seq<u32> := [c1, c2 + 1];
      Union1(b);
      forall c: nat
        ensures Member(b, c) <==> c1 <= c <= c2
      {
        if c1 <= c <= c2 {
          assert InInterval(b, 0, c);
        }
      }
    }

    /** Complement within [0, UINT32_MAX). */
    method Invert()
      requires Valid() && Ranges(Contents())
      modifies this, points
      ensures Valid() && IsInverse(old(Contents()), Contents())
    {
      ghost var a := Contents();
      Realloc(len + 2);
      ShiftRight();
      points[0] := 0;
      points[len + 1] := UINT32_MAX;
      len := len + 2;
      ghost var e := Contents();
      assert points[1..len - 1] == a;
      EnclosedIsComplement(a, e);
      Compress();
    }

    /** Moves the points one place up. */
    method ShiftRight()
      requires Valid() && len + 2 <= points.Length
      modifies points
      ensures points[1..len + 1] == old(points[..len])
    {
      var m := len;
      while m > 0
        invariant 0 <= m <= len
        invariant points[m + 1..len + 1] == old(points[m..len])
        invariant points[..m] == old(points[..m])
      {
        assert points[m - 1] == old(points[m - 1]);
        points[m] := points[m - 1];
        m := m - 1;
        assert points[m + 1..len + 1] == [points[m + 1]] + points[m + 2..len + 1];
      }
    }
  }

  /** The points produced so far lie at or below everything not yet merged. */
  ghost predicate MergeBound(s: seq<u32>, a: seq<u32>, i: nat, b: seq<u32>, j: nat)
    requires i <= |a| && j <= |b|
  {
    (forall m, n :: 0 <= m < |s| && i <= n < |a| ==> s[m] <= a[n]) &&
    (forall m, n :: 0 <= m < |s| && j <= n < |b| ==> s[m] <= b[n]) &&
    (forall m, n :: 0 <= m < i && j <= n < |b| ==> a[m] <= b[n]) &&
    (forall m, n :: 0 <= m < j && i <= n < |a| ==> b[m] <= a[n])
  }

  ghost predicate MergeParity(s: seq<u32>, a: seq<u32>, i: nat, b: seq<u32>, j: nat, op: Op)
    requires i <= |a| && j <= |b|
  {
    forall c: nat :: Odd(s, c) == Apply(op, Odd(a[..i], c), Odd(b[..j], c))
  }

  lemma MergeStep(s: seq<u32>, a: seq<u32>, i0: nat, i: nat, b: seq<u32>, j0: nat, j: nat, op: Op, v: u32, s': seq<u32>)
    requires i0 <= i <= |a| && j0 <= j <= |b| && i <= i0 + 1 && j <= j0 + 1
    requires Sorted(a) && Sorted(b) && Sorted(s)
    requires MergeBound(s, a, i0, b, j0) && MergeParity(s, a, i0, b, j0, op)
    requires i0 < i ==> a[i0] == v
    requires j0 < j ==> b[j0] == v
    requires i0 < i || j0 < j
    requires i < |a| ==> v <= a[i]
    requires j < |b| ==> v <= b[j]
    requires s' == (if Apply(op, i % 2 == 1, j % 2 == 1) != (|s| % 2 == 1) then s + [v] else s)
    ensures Sorted(s') && MergeBound(s', a, i, b, j) && MergeParity(s', a, i, b, j, op)
  {
    MergeStepBound(s, a, i0, i, b, j0, j, v);
    MergeStepParity(s, a, i0, i, b, j0, j, op, v, s');
  }

  lemma MergeStepParity(s: seq<u32>, a: seq<u32>, i0: nat, i: nat, b: seq<u32>, j0: nat, j: nat, op: Op, v: u32,
                        s': seq<u32>)
    requires i0 <= i <= |a| && j0 <= j <= |b| && i <= i0 + 1 && j <= j0 + 1
    requires i0 < i ==> a[i0] == v
    requires j0 < j ==> b[j0] == v
    requires forall m :: 0 <= m < |s| ==> s[m] <= v
    requires forall m :: 0 <= m < i ==> a[m] <= v
    requires forall m :: 0 <= m < j ==> b[m] <= v
    requires MergeParity(s, a, i0, b, j0, op)
    requires s' == (if Apply(op, i % 2 == 1, j % 2 == 1) != (|s| % 2 == 1) then s + [v] else s)
    ensures MergeParity(s', a, i, b, j, op)
  {
    assert i0 < i ==> a[..i] == a[..i0] + [v];
    assert j0 < j ==> b[..j] == b[..j0] + [v];
    forall c: nat
      ensures Odd(s', c) == Apply(op, Odd(a[..i], c), Odd(b[..j], c))
    {
      assert Odd(s, c) == Apply(op, Odd(a[..i0], c), Odd(b[..j0], c));
      MergeStepAt(s, a[..i0], a[..i], b[..j0], b[..j], op, v, s', c);
    }
  }

  lemma {:induction false} MergeStepAt(s: seq<u32>, a0: seq<u32>, a: seq<u32>, b0: seq<u32>, b: seq<u32>, op: Op,
                                       v: u32, s': seq<u32>, c: nat)
    requires forall m :: 0 <= m < |s| ==> s[m] <= v
    requires forall m :: 0 <= m < |a| ==> a[m] <= v
    requires forall m :: 0 <= m < |b| ==> b[m] <= v
    requires Odd(s, c) == Apply(op, Odd(a0, c), Odd(b0, c))
    requires a == a0 || a == a0 + [v]
    requires b == b0 || b == b0 + [v]
    requires s' == (if Apply(op, |a| % 2 == 1, |b| % 2 == 1) != (|s| % 2 == 1) then s + [v] else s)
    ensures Odd(s', c) == Apply(op, Odd(a, c), Odd(b, c))
  {
    hide Odd;
    if v <= c {
      OddAll(s', v, c);
      OddAll(a, v, c);
      OddAll(b, v, c);
    } else {
      OddSnoc(s, v, c);
      OddSnoc(a0, v, c);
      OddSnoc(b0, v, c);
      assert Odd(s', c) == Odd(s, c);
      assert Odd(a, c) == Odd(a0, c) && Odd(b, c) == Odd(b0, c);
    }
  }

  lemma OddAll(points: seq<u32>, v: u32, c: nat)
    requires v <= c && forall i :: 0 <= i < |points| ==> points[i] <= v
    ensures Odd(points, c) == (|points| % 2 == 1)
  {
    CountLeAll(points, c);
  }

  lemma MergeStepBound(s: seq<u32>, a: seq<u32>, i0: nat, i: nat, b: seq<u32>, j0: nat, j: nat, v: u32)
    requires i0 <= i <= |a| && j0 <= j <= |b| && i <= i0 + 1 && j <= j0 + 1
    requires Sorted(a) && Sorted(b) && Sorted(s)
    requires MergeBound(s, a, i0, b, j0)
    requires i0 < i ==> a[i0] == v
    requires j0 < j ==> b[j0] == v
    requires i0 < i || j0 < j
    requires i < |a| ==> v <= a[i]
    requires j < |b| ==> v <= b[j]
    ensures MergeBound(s, a, i, b, j) && MergeBound(s + [v], a, i, b, j)
    ensures Sorted(s + [v])
    ensures forall m :: 0 <= m < |s| ==> s[m] <= v
    ensures forall m :: 0 <= m < i ==> a[m] <= v
    ensures forall m :: 0 <= m < j ==> b[m] <= v
  {
    assert forall n :: i <= n < |a| ==> v <= a[n];
    assert forall n :: j <= n < |b| ==> v <= b[n];
  }

  lemma EnclosedIsComplement(a: seq<u32>, e: seq<u32>)
    requires Ranges(a) && |e| == |a| + 2 && e[0] == 0 && e[1..|e| - 1] == a && e[|e| - 1] == UINT32_MAX
    ensures Ranges(e)
    ensures forall c: nat :: Member(e, c) <==> c < UINT32_MAX && !Member(a, c)
  {
    assert e == [0] + a + [UINT32_MAX];
    assert forall i, j :: 0 < i < j < |e| - 1 ==> e[i] == a[i - 1] && e[j] == a[j - 1];
    forall c: nat
      ensures Member(e, c) <==> c < UINT32_MAX && !Member(a, c)
    {
      EnclosedAt(a, e, c);
    }
  }

  lemma EnclosedAt(a: seq<u32>, e: seq<u32>, c: nat)
    requires Ranges(a) && Ranges(e) && e == [0] + a + [UINT32_MAX]
    ensures Member(e, c) <==> c < UINT32_MAX && !Member(a, c)
  {
    CountLeSnoc([0] + a, UINT32_MAX, c);
    CountLeCons(0, a, c);
    MemberIsParity(e, c);
    MemberIsParity(a, c);
    BelowMax(e, c);
  }

  lemma {:induction false} CountLeCons(v: u32, a: seq<u32>, c: nat)
    ensures CountLe([v] + a, c) == (if v <= c then 1 else 0) + CountLe(a, c)
  {
    if |a| > 0 {
      CountLeCons(v, a[..|a| - 1], c);
      assert [v] + a == [v] + a[..|a| - 1] + [a[|a| - 1]];
      CountLeSnoc([v] + a[..|a| - 1], a[|a| - 1], c);
    } else {
      assert [v] + a == [] + [v];
      CountLeSnoc([], v, c);
    }
  }
}
