/** A subject has finitely many states: what goes on longer comes back to a state it has been in. */
module Finite {
  import opened Regex

  /** Among more than `n` numbers below `n` two are equal. */
  lemma {:induction false} Pigeonhole(f: seq<nat>, n: nat) returns (i: nat, j: nat)
    requires |f| > n && forall k :: 0 <= k < |f| ==> f[k] < n
    ensures i < j < |f| && f[i] == f[j]
    decreases n
  {
    assert f[0] < n;
    if q :| 0 <= q < |f| && f[q] == n - 1 {
      var g := f[..q] + f[q + 1..];
      if k :| 0 <= k < |g| && g[k] == n - 1 {
        i, j := if k < q then k else q, if k < q then q else k + 1;
      } else {
        i, j := Pigeonhole(g, n - 1);
        i, j := if i < q then i else i + 1, if j < q then j else j + 1;
      }
    } else {
      i, j := Pigeonhole(f, n - 1);
    }
  }

  function Power(m: nat, n: nat): (p: nat)
    ensures m > 0 ==> p > 0
  {
    if n == 0 then 1 else Power(m, n - 1) * m
  }

  predicate CapsBelow(caps: seq<int>, m: nat) {
    forall i :: 0 <= i < |caps| ==> 0 <= caps[i] + 1 < m
  }

  /** A number for each sequence of capture entries below `m - 1`. */
  function CapsNumber(caps: seq<int>, m: nat): (n: nat)
    requires CapsBelow(caps, m)
  {
    if |caps| == 0 then 0 else CapsNumber(caps[..|caps| - 1], m) * m + (caps[|caps| - 1] + 1)
  }

  lemma Scale(a: nat, b: nat, m: nat)
    requires a <= b
    ensures a * m <= b * m
  {
  }

  lemma Digit(a: nat, b: nat, x: nat, y: nat, m: nat, bound: nat)
    requires x < m && y < m && a < bound
    ensures a * m + x < bound * m
    ensures a * m + x == b * m + y ==> a == b && x == y
  {
    Scale(a + 1, bound, m);
    if a < b {
      Scale(a + 1, b, m);
    } else if b < a {
      Scale(b + 1, a, m);
    }
  }

  lemma {:induction false} CapsNumberFits(caps: seq<int>, m: nat)
    requires CapsBelow(caps, m)
    ensures CapsNumber(caps, m) < Power(m, |caps|)
    decreases |caps|
  {
    if |caps| > 0 {
      var init := caps[..|caps| - 1];
      CapsNumberFits(init, m);
      Digit(CapsNumber(init, m), 0, caps[|caps| - 1] + 1, 0, m, Power(m, |init|));
    }
  }

  lemma {:induction false} CapsNumberUnique(a: seq<int>, b: seq<int>, m: nat)
    requires |a| == |b| && CapsBelow(a, m) && CapsBelow(b, m) && CapsNumber(a, m) == CapsNumber(b, m)
    ensures a == b
    decreases |a|
  {
    if |a| > 0 {
      var n := |a| - 1;
      Digit(CapsNumber(a[..n], m), CapsNumber(b[..n], m), a[n] + 1, b[n] + 1, m, CapsNumber(a[..n], m) + 1);
      CapsNumberUnique(a[..n], b[..n], m);
      assert a == a[..n] + [a[n]] && b == b[..n] + [b[n]];
    }
  }

  /** The number of cursors times the number of capture arrays. */
  function StateCount(x: Ctx): (n: nat) {
    Power(Len(x) + 2, 2 * x.ncap) * (Len(x) + 1)
  }

  ghost function Number(x: Ctx, s: St): (n: nat)
    requires StOk(x, s)
  {
    CapsNumber(s.caps, Len(x) + 2) * (Len(x) + 1) + s.pos
  }

  lemma NumberFits(x: Ctx, s: St)
    requires StOk(x, s)
    ensures Number(x, s) < StateCount(x)
  {
    CapsNumberFits(s.caps, Len(x) + 2);
    Digit(CapsNumber(s.caps, Len(x) + 2), 0, s.pos, 0, Len(x) + 1, Power(Len(x) + 2, 2 * x.ncap));
  }

  lemma NumberUnique(x: Ctx, s: St, t: St)
    requires StOk(x, s) && StOk(x, t) && Number(x, s) == Number(x, t)
    ensures s == t
  {
    var m := Len(x) + 2;
    Digit(CapsNumber(s.caps, m), CapsNumber(t.caps, m), s.pos, t.pos, Len(x) + 1, CapsNumber(s.caps, m) + 1);
    CapsNumberUnique(s.caps, t.caps, m);
  }

  /** Of as many states as there are, and one more, two are the same. */
  lemma {:induction false} TwoAlike(x: Ctx, states: seq<St>) returns (i: nat, j: nat)
    requires |states| > StateCount(x) && forall k :: 0 <= k < |states| ==> StOk(x, states[k])
    ensures i < j < |states| && states[i] == states[j]
  {
    hide StOk, Number, StateCount;
    var f := seq(|states|, k requires 0 <= k < |states| => Number(x, states[k]));
    forall k | 0 <= k < |f|
      ensures f[k] < StateCount(x)
    {
      NumberFits(x, states[k]);
    }
    i, j := Pigeonhole(f, StateCount(x));
    NumberUnique(x, states[i], states[j]);
  }
}
