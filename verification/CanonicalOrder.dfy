/** `sort_cc`: the Canonical Ordering Algorithm (definition D109 in section 3.11 of the Unicode Standard),
    for any assignment of combining classes. */
module CanonicalOrder {

  type Classes = int -> nat

  /** Where the mark `x` comes to stand behind `t`: it moves to the left past marks of greater class. */
  function Place(cc: Classes, t: seq<int>, x: int): (r: seq<int>)
    ensures |r| == |t| + 1
  {
    if |t| > 0 && cc(t[|t| - 1]) > cc(x) then Place(cc, t[..|t| - 1], x) + [t[|t| - 1]] else t + [x]
  }

  /** The ordering, one character after the other; a starter stays where it is. */
  function Order(cc: Classes, s: seq<int>): (r: seq<int>)
    ensures |r| == |s|
  {
    if |s| == 0 then []
    else
      var t, x := Order(cc, s[..|s| - 1]), s[|s| - 1];
      if cc(x) == 0 then t + [x] else Place(cc, t, x)
  }

  lemma {:induction false} PlaceAt(cc: Classes, t: seq<int>, x: int, m: nat)
    requires m <= |t| && (m == 0 || cc(t[m - 1]) <= cc(x)) && forall q :: m <= q < |t| ==> cc(t[q]) > cc(x)
    ensures Place(cc, t, x) == t[..m] + [x] + t[m..]
    decreases |t|
  {
    if m < |t| {
      var init := t[..|t| - 1];
      PlaceAt(cc, init, x, m);
      assert init[..m] == t[..m] && init[m..] + [t[|t| - 1]] == t[m..];
    }
  }

  lemma OrderNext(cc: Classes, s: seq<int>, j: nat)
    requires j < |s|
    ensures Order(cc, s[..j + 1]) ==
            if cc(s[j]) == 0 then Order(cc, s[..j]) + [s[j]] else Place(cc, Order(cc, s[..j]), s[j])
  {
    assert s[..j + 1][..j] == s[..j];
  }

  /** `s` after its elements from `m` up to `j` have been moved one place to the right. */
  function Shifted(s: seq<int>, m: nat, j: nat): (r: seq<int>)
    requires m <= j < |s|
    ensures |r| == |s|
  {
    s[..m + 1] + s[m..j] + s[j + 1..]
  }

  lemma ShiftOne(s: seq<int>, m: nat, j: nat)
    requires m < j < |s|
    ensures Shifted(s, m + 1, j)[m] == s[m] && Shifted(s, m, j) == Shifted(s, m + 1, j)[m + 1 := s[m]]
  {
  }

  lemma ShiftDone(cc: Classes, s: seq<int>, m: nat, j: nat)
    requires m <= j < |s| && (m == 0 || cc(s[m - 1]) <= cc(s[j])) && forall q :: m <= q < j ==> cc(s[q]) > cc(s[j])
    ensures Shifted(s, m, j)[m := s[j]] == Place(cc, s[..j], s[j]) + s[j + 1..]
  {
    var t := s[..j];
    PlaceAt(cc, t, s[j], m);
    assert t[..m] == s[..m] && t[m..] == s[m..j];
  }

  /** The insertion of the mark at `j` into the run that begins at `start`. */
  method InsertMark(buf: array<int>, cc: Classes, start: nat, j: nat)
    requires start <= j < buf.Length && (start == 0 || cc(buf[start - 1]) == 0)
    modifies buf
    ensures buf[..] == Place(cc, old(buf[..j]), old(buf[j])) + old(buf[j + 1..])
    ensures start > 0 ==> buf[start - 1] == old(buf[start - 1])
  {
    hide Shifted, Place;
    ghost var s := buf[..];
    var ch1 := buf[j];
    var k := j - 1;
    NoShift(s, j);
    while k >= start && cc(buf[k]) > cc(ch1)
      invariant start - 1 <= k < j && buf[..] == Shifted(s, k + 1, j)
      invariant forall q :: k < q < j ==> cc(s[q]) > cc(ch1)
      invariant k >= 0 ==> buf[k] == s[k]
      invariant start > 0 ==> buf[start - 1] == s[start - 1]
    {
      ShiftOne(s, k, j);
      ShiftKeeps(s, k, j);
      buf[k + 1] := buf[k];
      k := k - 1;
    }
    ShiftDone(cc, s, k + 1, j);
    buf[k + 1] := ch1;
  }

  lemma NoShift(s: seq<int>, j: nat)
    requires j < |s|
    ensures Shifted(s, j, j) == s
  {
  }

  lemma ShiftKeeps(s: seq<int>, m: nat, j: nat)
    requires m <= j < |s|
    ensures forall i :: 0 <= i < m ==> Shifted(s, m, j)[i] == s[i]
  {
  }

  /** `buf` is ordered up to `j`, and as before from there on. */
  ghost predicate OrderedTo(cc: Classes, b: seq<int>, s: seq<int>, j: nat)
    requires j <= |s|
  {
    b == Order(cc, s[..j]) + s[j..]
  }

  /** A starter, or a mark in front of which nothing has a greater class, is in place. */
  lemma StaysInPlace(cc: Classes, b: seq<int>, s: seq<int>, j: nat)
    requires j < |s| && OrderedTo(cc, b, s, j) && (cc(s[j]) == 0 || j == 0 || cc(b[j - 1]) <= cc(s[j]))
    ensures OrderedTo(cc, b, s, j + 1) && b[j] == s[j]
  {
    var t := Order(cc, s[..j]);
    OrderNext(cc, s, j);
    if cc(s[j]) != 0 {
      PlaceAt(cc, t, s[j], j);
    }
    assert s[j..] == [s[j]] + s[j + 1..];
  }

  lemma Inserted(cc: Classes, b: seq<int>, b': seq<int>, s: seq<int>, j: nat)
    requires j < |s| && OrderedTo(cc, b, s, j) && |b| == |s| && cc(s[j]) != 0
    requires b' == Place(cc, b[..j], b[j]) + b[j + 1..]
    ensures OrderedTo(cc, b', s, j + 1)
  {
    var t := Order(cc, s[..j]);
    OrderNext(cc, s, j);
    assert b[..j] == t && b[j] == s[j] && b[j + 1..] == s[j + 1..];
  }

  lemma Unread(cc: Classes, b: seq<int>, s: seq<int>, j: nat)
    requires j < |s| && OrderedTo(cc, b, s, j)
    ensures |b| == |s| && b[j] == s[j]
  {
  }

  /** The run of marks from `start` on; returns its end. */
  method SortRun(buf: array<int>, cc: Classes, start: nat, ghost s: seq<int>) returns (j: nat)
    requires start < buf.Length == |s| && OrderedTo(cc, buf[..], s, start)
    requires cc(s[start]) != 0 && (start == 0 || cc(buf[start - 1]) == 0)
    modifies buf
    ensures start < j <= buf.Length && OrderedTo(cc, buf[..], s, j) && (j < buf.Length ==> cc(s[j]) == 0)
  {
    hide OrderedTo;
    StaysInPlace(cc, buf[..], s, start);
    j := start + 1;
    while j < buf.Length
      invariant start < j <= buf.Length && OrderedTo(cc, buf[..], s, j) && (start == 0 || cc(buf[start - 1]) == 0)
    {
      Unread(cc, buf[..], s, j);
      if cc(buf[j]) == 0 {
        break;
      }
      ghost var b := buf[..];
      InsertMark(buf, cc, start, j);
      Inserted(cc, b, buf[..], s, j);
      j := j + 1;
    }
  }

  /** `sort_cc`.  After a run the loop steps over the starter that ended it. */
  method SortCc(buf: array<int>, cc: Classes)
    modifies buf
    ensures buf[..] == Order(cc, old(buf[..]))
  {
    hide OrderedTo, Order;
    ghost var s := buf[..];
    OrderedNone(cc, s);
    var i := 0;
    while i < buf.Length
      invariant 0 <= i <= buf.Length + 1
      invariant OrderedTo(cc, buf[..], s, if i <= buf.Length then i else buf.Length)
      invariant 0 < i <= buf.Length ==> cc(buf[i - 1]) == 0
    {
      Unread(cc, buf[..], s, i);
      if cc(buf[i]) != 0 {
        i := SortRun(buf, cc, i, s);
      }
      if i < buf.Length {
        StaysInPlace(cc, buf[..], s, i);
      }
      i := i + 1;
    }
    OrderedAll(cc, buf[..], s);
  }

  lemma OrderedNone(cc: Classes, s: seq<int>)
    ensures OrderedTo(cc, s, s, 0)
  {
  }

  lemma {:induction false} OrderedAll(cc: Classes, b: seq<int>, s: seq<int>)
    requires OrderedTo(cc, b, s, |s|)
    ensures b == Order(cc, s)
  {
    assert s[..|s|] == s;
  }

  // ---------------------------------------------------------------- what the ordering does

  /** No mark stands in front of one of smaller class: nothing is left to reorder (definition D108). */
  ghost predicate Ordered(cc: Classes, s: seq<int>) {
    forall i :: 0 < i < |s| && cc(s[i]) != 0 ==> cc(s[i - 1]) <= cc(s[i])
  }

  lemma {:induction false} PlaceOrdered(cc: Classes, t: seq<int>, x: int)
    requires Ordered(cc, t) && cc(x) != 0
    ensures Ordered(cc, Place(cc, t, x))
    decreases |t|
  {
    if |t| > 0 && cc(t[|t| - 1]) > cc(x) {
      var init, r := t[..|t| - 1], Place(cc, t[..|t| - 1], x);
      PlaceOrdered(cc, init, x);
      PlaceLast(cc, init, x);
      assert |t| > 1 && r[|r| - 1] == t[|t| - 2] ==> cc(t[|t| - 2]) <= cc(t[|t| - 1]);
    }
  }

  lemma {:induction false} PlaceLast(cc: Classes, t: seq<int>, x: int)
    ensures var r := Place(cc, t, x); r[|t|] == if |t| > 0 && cc(t[|t| - 1]) > cc(x) then t[|t| - 1] else x
  {
  }

  /** The result is in order. */
  lemma {:induction false} OrderIsOrdered(cc: Classes, s: seq<int>)
    ensures Ordered(cc, Order(cc, s))
    decreases |s|
  {
    if |s| > 0 {
      OrderIsOrdered(cc, s[..|s| - 1]);
      if cc(s[|s| - 1]) != 0 {
        PlaceOrdered(cc, Order(cc, s[..|s| - 1]), s[|s| - 1]);
      }
    }
  }

  /** What is in order stays as it is. */
  lemma {:induction false} OrderedStays(cc: Classes, s: seq<int>)
    requires Ordered(cc, s)
    ensures Order(cc, s) == s
    decreases |s|
  {
    if |s| > 0 {
      OrderedStays(cc, s[..|s| - 1]);
      assert s == s[..|s| - 1] + [s[|s| - 1]];
    }
  }

  lemma {:induction false} OrderIdempotent(cc: Classes, s: seq<int>)
    ensures Order(cc, Order(cc, s)) == Order(cc, s)
  {
    OrderIsOrdered(cc, s);
    OrderedStays(cc, Order(cc, s));
  }

  /** Starters keep their index, and marks do not become starters. */
  lemma {:induction false} PlaceKeepsStarters(cc: Classes, t: seq<int>, x: int, i: nat)
    requires cc(x) != 0 && i <= |t|
    ensures var r := Place(cc, t, x);
            (i < |t| && cc(t[i]) == 0 ==> r[i] == t[i]) && (cc(r[i]) == 0 ==> i < |t| && cc(t[i]) == 0)
    decreases |t|
  {
    if |t| > 0 && cc(t[|t| - 1]) > cc(x) && i < |t| {
      PlaceKeepsStarters(cc, t[..|t| - 1], x, i);
    }
  }

  lemma {:induction false} StartersStay(cc: Classes, s: seq<int>, i: nat)
    requires i < |s|
    ensures cc(s[i]) == 0 ==> Order(cc, s)[i] == s[i]
    ensures cc(Order(cc, s)[i]) == 0 ==> cc(s[i]) == 0
    decreases |s|
  {
    var init, x := s[..|s| - 1], s[|s| - 1];
    if i < |init| {
      StartersStay(cc, init, i);
    }
    if cc(x) != 0 {
      PlaceKeepsStarters(cc, Order(cc, init), x, i);
    }
  }

  /** The characters of class `c`, in their order. */
  function OfClass(cc: Classes, s: seq<int>, c: nat): seq<int> {
    if |s| == 0 then []
    else
      var rest, x := OfClass(cc, s[..|s| - 1], c), s[|s| - 1];
      if cc(x) == c then rest + [x] else rest
  }

  lemma {:induction false} OfClassLast(cc: Classes, s: seq<int>, x: int, c: nat)
    ensures OfClass(cc, s + [x], c) == if cc(x) == c then OfClass(cc, s, c) + [x] else OfClass(cc, s, c)
  {
    assert (s + [x])[..|s|] == s;
  }

  lemma {:induction false} PlaceStable(cc: Classes, t: seq<int>, x: int, c: nat)
    ensures OfClass(cc, Place(cc, t, x), c) == OfClass(cc, t + [x], c)
    decreases |t|
  {
    OfClassLast(cc, t, x, c);
    if |t| > 0 && cc(t[|t| - 1]) > cc(x) {
      var init, y := t[..|t| - 1], t[|t| - 1];
      assert t == init + [y];
      PlaceStable(cc, init, x, c);
      OfClassLast(cc, Place(cc, init, x), y, c);
      OfClassLast(cc, init, x, c);
      OfClassLast(cc, init, y, c);
    }
  }

  /** The ordering is stable: characters of one class keep their order, whatever the class.  With class 0
      that is the order of the starters. */
  lemma {:induction false} OrderStable(cc: Classes, s: seq<int>, c: nat)
    ensures OfClass(cc, Order(cc, s), c) == OfClass(cc, s, c)
    decreases |s|
  {
    if |s| > 0 {
      var init, x := s[..|s| - 1], s[|s| - 1];
      OrderStable(cc, init, c);
      OfClassLast(cc, Order(cc, init), x, c);
      if cc(x) != 0 {
        PlaceStable(cc, Order(cc, init), x, c);
      }
    }
  }

  /** Two marks of different class may be placed in either order. */
  lemma {:induction false} PlaceCommutes(cc: Classes, t: seq<int>, x: int, y: int)
    requires cc(x) < cc(y)
    ensures Place(cc, Place(cc, t, x), y) == Place(cc, Place(cc, t, y), x)
    decreases |t|
  {
    if |t| > 0 && cc(t[|t| - 1]) > cc(x) {
      var init, z := t[..|t| - 1], t[|t| - 1];
      var r := Place(cc, init, x);
      assert Place(cc, t, x) == r + [z] && (r + [z])[..|r|] == r;
      if cc(z) > cc(y) {
        PlaceCommutes(cc, init, x, y);
        var q := Place(cc, init, y);
        assert (q + [z])[..|q|] == q;
        assert Place(cc, Place(cc, t, x), y) == Place(cc, r, y) + [z];
        assert Place(cc, Place(cc, t, y), x) == Place(cc, q, x) + [z];
      } else {
        assert Place(cc, t, y) == t + [y] && (t + [y])[..|t|] == t;
      }
    } else {
      assert Place(cc, t, x) == t + [x];
      PlaceBehind(cc, t, x, y);
    }
  }

  lemma {:induction false} PlaceBehind(cc: Classes, t: seq<int>, x: int, y: int)
    requires cc(x) < cc(y) && (|t| == 0 || cc(t[|t| - 1]) <= cc(x))
    ensures Place(cc, t + [x], y) == t + [x, y] && Place(cc, Place(cc, t, y), x) == t + [x, y]
  {
    assert (t + [y])[..|t|] == t;
  }

  lemma {:induction false} OrderAfter(cc: Classes, u: seq<int>, w: seq<int>, v: seq<int>)
    requires Order(cc, u) == Order(cc, w)
    ensures Order(cc, u + v) == Order(cc, w + v)
    decreases |v|
  {
    if |v| == 0 {
      assert u + v == u && w + v == w;
    } else {
      var init := v[..|v| - 1];
      OrderAfter(cc, u, w, init);
      assert (u + v)[..|u + v| - 1] == u + init && (w + v)[..|w + v| - 1] == w + init;
    }
  }

  lemma {:induction false} OrderTwo(cc: Classes, u: seq<int>, x: int, y: int)
    requires cc(x) != 0 && cc(y) != 0
    ensures Order(cc, u + [x, y]) == Place(cc, Place(cc, Order(cc, u), x), y)
  {
    hide Place;
    assert (u + [x, y])[..|u| + 1] == u + [x] && (u + [x])[..|u|] == u;
  }

  /** Canonically equivalent sequences come out the same: exchanging two neighbouring marks of different
      class changes nothing. */
  lemma {:induction false} SwapInvariant(cc: Classes, u: seq<int>, x: int, y: int, v: seq<int>)
    requires cc(x) != 0 && cc(y) != 0 && cc(x) != cc(y)
    ensures Order(cc, u + [x, y] + v) == Order(cc, u + [y, x] + v)
  {
    hide Order, Place;
    OrderTwo(cc, u, x, y);
    OrderTwo(cc, u, y, x);
    if cc(x) < cc(y) {
      PlaceCommutes(cc, Order(cc, u), x, y);
    } else {
      PlaceCommutes(cc, Order(cc, u), y, x);
    }
    OrderAfter(cc, u + [x, y], u + [y, x], v);
  }

  /** Marks do not move past a starter: what is in front of it and what is behind it are ordered each on its own. */
  lemma {:induction false} OrderAtStarter(cc: Classes, u: seq<int>, x: int, v: seq<int>)
    requires cc(x) == 0
    ensures Order(cc, u + [x] + v) == Order(cc, u) + [x] + Order(cc, v)
    decreases |v|
  {
    hide Place;
    if |v| == 0 {
      assert u + [x] + v == u + [x] && (u + [x])[..|u|] == u;
    } else {
      var init, y := v[..|v| - 1], v[|v| - 1];
      var s, front := u + [x] + v, Order(cc, u) + [x];
      assert s[..|s| - 1] == u + [x] + init && s[|s| - 1] == y;
      OrderAtStarter(cc, u, x, init);
      if cc(y) == 0 {
        assert front + Order(cc, init) + [y] == front + (Order(cc, init) + [y]);
      } else {
        PlaceBehindStarter(cc, front, Order(cc, init), y);
      }
    }
  }

  lemma {:induction false} PlaceBehindStarter(cc: Classes, front: seq<int>, t: seq<int>, y: int)
    requires |front| > 0 && cc(front[|front| - 1]) == 0
    ensures Place(cc, front + t, y) == front + Place(cc, t, y)
    decreases |t|
  {
    if |t| == 0 {
      assert front + t == front;
    } else if cc(t[|t| - 1]) > cc(y) {
      var init := t[..|t| - 1];
      PlaceBehindStarter(cc, front, init, y);
      assert (front + t)[..|front + t| - 1] == front + init;
    } else {
      assert front + t + [y] == front + (t + [y]);
    }
  }
}
