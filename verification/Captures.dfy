/** The captures of a match: which of them a term may change, and that each is a span of the subject. */
module Captures {
  import opened Integers
  import opened Regex
  import opened Matcher
  import opened Correct
  import opened Compiled

  /** Group `g` has not taken part, or its start is not after its end. */
  predicate Span(caps: seq<int>, g: nat)
    requires 2 * g + 1 < |caps|
  {
    Unset(caps, g) || 0 <= caps[2 * g] <= caps[2 * g + 1]
  }

  predicate SameGroup(s: St, t: St, g: nat)
    requires |s.caps| == |t.caps| && 2 * g + 1 < |s.caps|
  {
    t.caps[2 * g] == s.caps[2 * g] && t.caps[2 * g + 1] == s.caps[2 * g + 1]
  }

  predicate Unset(caps: seq<int>, g: nat)
    requires 2 * g + 1 < |caps|
  {
    caps[2 * g] == NULL && caps[2 * g + 1] == NULL
  }

  /** The groups of `r`, numbered from `k`, that a match can set: those that stand neither inside a negative
      lookaround nor inside an atom that is never run. */
  function Live(r: Re, k: nat): (groups: set<nat>) {
    match r
    case Cat(a, b) => Live(a, k) + Live(b, k + NumGroups(a))
    case Alt(a, b) => Live(a, k) + Live(b, k + NumGroups(a))
    case Group(b) => {k} + Live(b, k + 1)
    case Look(b, _, negative) => if negative then {} else Live(b, k)
    case Quant(b, min, max, _) => if min == max == 0 then {} else Live(b, k)
    case _ => {}
  }

  /** The unions of a set of the one family and a set of the other. */
  function Unions(vs: set<set<nat>>, ws: set<set<nat>>): (all: set<set<nat>>) {
    set v, w | v in vs && w in ws :: v + w
  }

  /** The sets of groups of `r`, numbered from `k`, that one match can set: of an alternation those of one
      alternative.  What the iterations of a loop set may add up to all its live groups. */
  function Ways(r: Re, k: nat): (ways: set<set<nat>>) {
    match r
    case Cat(a, b) => Unions(Ways(a, k), Ways(b, k + NumGroups(a)))
    case Alt(a, b) => Ways(a, k) + Ways(b, k + NumGroups(a))
    case Group(b) => set w | w in Ways(b, k + 1) :: {k} + w
    case Look(b, _, negative) => if negative then {{}} else Ways(b, k)
    case Quant(b, min, max, _) =>
      if min == max == 0 then {{}}
      else if min > 1 || max > 1 then {Live(b, k)}
      else if min == 1 then Ways(b, k)
      else Ways(b, k) + {{}}
    case _ => {{}}
  }

  /** There is always a way, and none sets a group that is not live. */
  lemma {:induction false} WaysAreLive(r: Re, k: nat)
    ensures Ways(r, k) != {} && forall w :: w in Ways(r, k) ==> w <= Live(r, k)
    decreases r
  {
    match r {
      case Cat(a, b) =>
        WaysAreLive(a, k);
        WaysAreLive(b, k + NumGroups(a));
        UnionsSome(Ways(a, k), Ways(b, k + NumGroups(a)));
      case Alt(a, b) =>
        WaysAreLive(a, k);
        WaysAreLive(b, k + NumGroups(a));
      case Group(b) =>
        WaysAreLive(b, k + 1);
        var w :| w in Ways(b, k + 1);
        assert {k} + w in Ways(r, k);
      case Look(b, _, _) => WaysAreLive(b, k);
      case Quant(b, _, _, _) => WaysAreLive(b, k);
      case _ =>
    }
  }

  lemma UnionsSome(vs: set<set<nat>>, ws: set<set<nat>>)
    requires vs != {} && ws != {}
    ensures Unions(vs, ws) != {}
  {
    var v :| v in vs;
    var w :| w in ws;
    assert v + w in Unions(vs, ws);
  }

  /** From `s` to `t` only groups `k` to `k + n - 1` have changed; those that have are spans, and unset unless
      they belong to `live`. */
  predicate Kept(k: nat, n: nat, live: set<nat>, s: St, t: St) {
    |s.caps| == |t.caps| &&
    forall g :: 0 <= g < |s.caps| && 2 * g + 1 < |s.caps| ==>
                  SameGroup(s, t, g) || (k <= g < k + n && Changed(live, t, g))
  }

  predicate Changed(live: set<nat>, t: St, g: nat)
    requires 2 * g + 1 < |t.caps|
  {
    Unset(t.caps, g) || (g in live && Span(t.caps, g))
  }

  /** The same, for one of several sets. */
  ghost predicate KeptIn(k: nat, n: nat, ways: set<set<nat>>, s: St, t: St) {
    exists w :: w in ways && Kept(k, n, w, s, t)
  }

  lemma KeptTrans(k: nat, n: nat, live: set<nat>, s: St, t: St, u: St)
    requires Kept(k, n, live, s, t) && Kept(k, n, live, t, u)
    ensures Kept(k, n, live, s, u)
  {
    forall g | 0 <= g < |s.caps| && 2 * g + 1 < |s.caps|
      ensures SameGroup(s, u, g) || (k <= g < k + n && Changed(live, u, g))
    {
      assert SameGroup(s, t, g) || (k <= g < k + n && Changed(live, t, g));
      assert SameGroup(t, u, g) || (k <= g < k + n && Changed(live, u, g));
    }
  }

  lemma KeptWiden(k: nat, n: nat, live: set<nat>, k': nat, n': nat, live': set<nat>, s: St, t: St)
    requires Kept(k, n, live, s, t) && k' <= k && k + n <= k' + n' && live <= live'
    ensures Kept(k', n', live', s, t)
  {
    forall g | 0 <= g < |s.caps| && 2 * g + 1 < |s.caps|
      ensures SameGroup(s, t, g) || (k' <= g < k' + n' && Changed(live', t, g))
    {
      assert SameGroup(s, t, g) || (k <= g < k + n && Changed(live, t, g));
    }
  }

  lemma SameCaps(k: nat, n: nat, live: set<nat>, s: St, t: St, u: St)
    requires Kept(k, n, live, s, t) && u.caps == t.caps
    ensures Kept(k, n, live, s, u)
  {
    KeptTrans(k, n, live, s, t, u);
  }

  lemma ForgetKept(x: Ctx, k: nat, n: nat, live: set<nat>, s: St)
    requires StOk(x, s) && k + n <= x.ncap
    ensures Kept(k, n, live, s, Forget(x, k, n, s))
  {
  }

  lemma KeptSelf(k: nat, n: nat, live: set<nat>, s: St)
    ensures Kept(k, n, live, s, s)
  {
  }

  /** Around a term that keeps to its groups, group `k` is set to a span. */
  lemma Closing(k: nat, n: nat, live: set<nat>, s: St, inside: St, t: St, u: St, from: int, to: int)
    requires 2 * k + 1 < |s.caps| && 0 <= from <= to && Kept(k + 1, n, live, inside, t) && |s.caps| == |inside.caps|
    requires forall i :: 0 <= i < |s.caps| && i != 2 * k && i != 2 * k + 1 ==> inside.caps[i] == s.caps[i]
    requires u.caps == t.caps[2 * k := from][2 * k + 1 := to]
    ensures Kept(k, 1 + n, {k} + live, s, u)
  {
    forall g | 0 <= g < |s.caps| && 2 * g + 1 < |s.caps|
      ensures SameGroup(s, u, g) || (k <= g < k + 1 + n && Changed({k} + live, u, g))
    {
      assert SameGroup(inside, t, g) || (k + 1 <= g < k + 1 + n && Changed(live, t, g));
    }
  }

  /** Every state of a continued list comes from one of the list. */
  lemma {:induction false} From(x: Ctx, back: bool, p: nat, all: seq<St>, f: Cont, u: St) returns (t: St)
    requires Good(x, back, p, all) && ContOk(x, f, p) && u in FlatMap(x, back, p, all, f)
    ensures t in all && StOk(x, t) && Toward(back, p, t.pos) && u in Continue(x, back, p, f, t)
    decreases |all|
  {
    hide Continue;
    if u in Continue(x, back, p, f, all[0]) {
      t := all[0];
    } else {
      t := From(x, back, p, all[1..], f, u);
    }
  }

  /** A term changes its own groups only, and leaves each of them as it was, unset or, unless it stands inside
      a negative lookaround, as a span. */
  lemma {:induction false} ResultKept(x: Ctx, r: Re, back: bool, k: nat, s: St, u: St)
    requires StOk(x, s) && k + NumGroups(r) <= x.ncap && u in Results(x, r, back, k, s)
    ensures Kept(k, NumGroups(r), Live(r, k), s, u)
    decreases r, 1, 0, 0
  {
    hide Results, Kept, StOk, Live, NumGroups;
    match r {
      case Cat(_, _) => PairKept(x, r, back, k, s, u);
      case Alt(_, _) => PairKept(x, r, back, k, s, u);
      case Group(_) => WrapKept(x, r, back, k, s, u);
      case Look(_, _, _) => WrapKept(x, r, back, k, s, u);
      case Quant(_, _, _, _) => WrapKept(x, r, back, k, s, u);
      case _ => LeafKept(x, r, back, k, s, u);
    }
  }

  lemma {:induction false} PairKept(x: Ctx, r: Re, back: bool, k: nat, s: St, u: St)
    requires (r.Cat? || r.Alt?) && StOk(x, s) && k + NumGroups(r) <= x.ncap && u in Results(x, r, back, k, s)
    ensures Kept(k, NumGroups(r), Live(r, k), s, u)
    decreases r, 0, 1, 0
  {
    hide Results, Kept, StOk, FlatMap;
    if r.Alt? {
      var a, b := r.left, r.right;
      ResultsAlt(x, a, b, back, k, s);
      if u in Results(x, a, back, k, s) {
        PartKept(x, r, a, back, k, k, s, u);
      } else {
        PartKept(x, r, b, back, k, k + NumGroups(a), s, u);
      }
    } else {
      var a, b := r.first, r.second;
      ResultsCat(x, a, b, back, k, s);
      if back {
        CatKept(x, r, b, k + NumGroups(a), a, k, back, k, s, u);
      } else {
        CatKept(x, r, a, k, b, k + NumGroups(a), back, k, s, u);
      }
    }
  }

  lemma {:induction false} WrapKept(x: Ctx, r: Re, back: bool, k: nat, s: St, u: St)
    requires (r.Group? || r.Look? || r.Quant?) && StOk(x, s) && k + NumGroups(r) <= x.ncap
    requires u in Results(x, r, back, k, s)
    ensures Kept(k, NumGroups(r), Live(r, k), s, u)
    decreases r, 0, 1, 0
  {
    hide Results, Kept, StOk, QuantResults, LookResults, LeaveAll;
    if r.Group? {
      ResultsGroup(x, r.body, back, k, s);
      GroupKept(x, r.body, back, k, s, u);
    } else if r.Look? {
      ResultsLook(x, r.body, r.behind, r.negative, back, k, s);
      LookKept(x, r.body, r.behind, r.negative, back, k, s, u);
    } else {
      ResultsQuant(x, r.body, r.min, r.max, r.greedy, back, k, s);
      QuantKept(x, r.body, r.min, r.max, r.greedy, back, k, s, u);
    }
  }

  lemma {:induction false} ResultsQuant(x: Ctx, b: Re, min: nat, max: nat, greedy: bool, back: bool, k: nat, s: St)
    requires StOk(x, s) && k + NumGroups(b) <= x.ncap
    ensures Results(x, Quant(b, min, max, greedy), back, k, s) == QuantResults(x, b, min, max, greedy, back, k, s)
  {
    hide FlatMap, StOk, Good, LeaveAll, LookResults, QuantResults, OneChar, OneBackRef;
  }

  /** What a part of a pattern does to the captures, seen as the whole. */
  lemma {:induction false} PartKept(x: Ctx, r: Re, a: Re, back: bool, k: nat, ka: nat, s: St, u: St)
    requires a < r && StOk(x, s) && ka + NumGroups(a) <= x.ncap && u in Results(x, a, back, ka, s)
    requires k <= ka && ka + NumGroups(a) <= k + NumGroups(r) && Live(a, ka) <= Live(r, k)
    ensures Kept(k, NumGroups(r), Live(r, k), s, u)
    decreases r, 0, 0, 0
  {
    hide Results, Kept, StOk, NumGroups, Live;
    ResultKept(x, a, back, ka, s, u);
    KeptWiden(ka, NumGroups(a), Live(a, ka), k, NumGroups(r), Live(r, k), s, u);
  }

  lemma {:induction false} LeafKept(x: Ctx, r: Re, back: bool, k: nat, s: St, u: St)
    requires StOk(x, s) && k <= x.ncap && (Leaf(r) || r.Empty?) && u in Results(x, r, back, k, s)
    ensures NumGroups(r) == 0 && Live(r, k) == {} && Kept(k, 0, {}, s, u)
  {
    assert u.caps == s.caps;
  }

  lemma {:induction false} CatKept(x: Ctx, r: Re, a: Re, ka: nat, b: Re, kb: nat, back: bool, k: nat, s: St, u: St)
    requires a < r && b < r && StOk(x, s) && ka + NumGroups(a) <= x.ncap && kb + NumGroups(b) <= x.ncap
    requires Live(a, ka) + Live(b, kb) <= Live(r, k)
    requires k <= ka && ka + NumGroups(a) <= k + NumGroups(r) && k <= kb && kb + NumGroups(b) <= k + NumGroups(r)
    requires u in FlatMap(x, back, s.pos, Results(x, a, back, ka, s), Then(b, kb))
    ensures Kept(k, NumGroups(r), Live(r, k), s, u)
    decreases r, 0, 0, 0
  {
    hide Results, FlatMap, Kept, NumGroups;
    var t := From(x, back, s.pos, Results(x, a, back, ka, s), Then(b, kb), u);
    ResultKept(x, a, back, ka, s, t);
    ResultKept(x, b, back, kb, t, u);
    KeptWiden(ka, NumGroups(a), Live(a, ka), k, NumGroups(r), Live(r, k), s, t);
    KeptWiden(kb, NumGroups(b), Live(b, kb), k, NumGroups(r), Live(r, k), t, u);
    KeptTrans(k, NumGroups(r), Live(r, k), s, t, u);
  }

  /** A group ends as the span between where it was entered and where it was left. */
  lemma {:induction false} GroupKept(x: Ctx, b: Re, back: bool, k: nat, s: St, u: St)
    requires StOk(x, s) && k + 1 + NumGroups(b) <= x.ncap
    requires u in LeaveAll(x, back, k, s.pos, Results(x, b, back, k + 1, Enter(x, back, k, s)))
    ensures Kept(k, 1 + NumGroups(b), {k} + Live(b, k + 1), s, u)
    ensures u.caps[2 * k] == (if back then u.pos else s.pos) && u.caps[2 * k + 1] == (if back then s.pos else u.pos)
    decreases Group(b), 0, 0, 0
  {
    hide Results, LeaveAll, NumGroups;
    var inside := Enter(x, back, k, s);
    var all := Results(x, b, back, k + 1, inside);
    var i :| 0 <= i < |all| && u == Leave(x, back, k, all[i]);
    ResultKept(x, b, back, k + 1, inside, all[i]);
    assert Toward(back, s.pos, all[i].pos);
    assert SameGroup(inside, all[i], k);
    Closing(k, NumGroups(b), Live(b, k + 1), s, inside, all[i], u, if back then u.pos else s.pos,
            if back then s.pos else u.pos);
  }

  lemma {:induction false} LookKept(x: Ctx, b: Re, behind: bool, negative: bool, back: bool, k: nat, s: St, u: St)
    requires StOk(x, s) && k + NumGroups(b) <= x.ncap && u in LookResults(x, b, behind, negative, k, back, s)
    ensures Kept(k, NumGroups(b), if negative then {} else Live(b, k), s, u)
    decreases Look(b, behind, negative), 0, 0, 0
  {
    hide Results;
    if !negative {
      var t := Results(x, b, behind, k, s)[0];
      ResultKept(x, b, behind, k, s, t);
      SameCaps(k, NumGroups(b), Live(b, k), s, t, u);
    } else {
      KeptSelf(k, NumGroups(b), {}, s);
    }
  }

  lemma {:induction false} QuantKept(x: Ctx, b: Re, min: nat, max: nat, greedy: bool, back: bool, k: nat, s: St, u: St)
    requires StOk(x, s) && k + NumGroups(b) <= x.ncap && u in QuantResults(x, b, min, max, greedy, back, k, s)
    ensures Kept(k, NumGroups(b), if min == max == 0 then {} else Live(b, k), s, u)
    decreases b, 6, 0, 0
  {
    hide Results, FlatMap, Times, Upto, Star, Kept;
    var s0 := if min == 0 then Forget(x, k, NumGroups(b), s) else s;
    ForgetKept(x, k, NumGroups(b), Live(b, k), s);
    KeptSelf(k, NumGroups(b), Live(b, k), s);
    var f := Rest(b, k, min, max, greedy);
    var t := From(x, back, s.pos, Times(x, b, back, k, min, s0), f, u);
    TimesKept(x, b, back, k, min, s0, t);
    if max == INT32_MAX {
      StarKept(x, b, back, k, greedy, t, u);
    } else {
      UptoKept(x, b, back, k, if max >= min then max - min else 0, greedy, t, u);
    }
    KeptTrans(k, NumGroups(b), Live(b, k), s, s0, t);
    KeptTrans(k, NumGroups(b), Live(b, k), s, t, u);
    if min == max == 0 {
      NoIterations(x, b, back, k, greedy, s0);
      ForgetKept(x, k, NumGroups(b), {}, s);
    }
  }

  lemma {:induction false} TimesKept(x: Ctx, b: Re, back: bool, k: nat, n: nat, s: St, u: St)
    requires StOk(x, s) && k + NumGroups(b) <= x.ncap && u in Times(x, b, back, k, n, s)
    ensures Kept(k, NumGroups(b), Live(b, k), s, u)
    decreases b, 5, n, 0
  {
    hide Results, FlatMap, Kept;
    if n == 0 {
      KeptSelf(k, NumGroups(b), Live(b, k), s);
    } else {
      var t := From(x, back, s.pos, Results(x, b, back, k, s), ThenTimes(b, k, n - 1), u);
      ResultKept(x, b, back, k, s, t);
      TimesKept(x, b, back, k, n - 1, t, u);
      KeptTrans(k, NumGroups(b), Live(b, k), s, t, u);
    }
  }

  lemma {:induction false} UptoKept(x: Ctx, b: Re, back: bool, k: nat, n: nat, greedy: bool, s: St, u: St)
    requires StOk(x, s) && k + NumGroups(b) <= x.ncap && u in Upto(x, b, back, k, n, greedy, s)
    ensures Kept(k, NumGroups(b), Live(b, k), s, u)
    decreases b, 5, n, 0
  {
    hide Results, FlatMap, Kept;
    if u == s {
      KeptSelf(k, NumGroups(b), Live(b, k), s);
    } else {
      var t := From(x, back, s.pos, Results(x, b, back, k, s), ThenUpto(b, k, n - 1, greedy), u);
      ResultKept(x, b, back, k, s, t);
      UptoKept(x, b, back, k, n - 1, greedy, t, u);
      KeptTrans(k, NumGroups(b), Live(b, k), s, t, u);
    }
  }

  lemma {:induction false} StarKept(x: Ctx, b: Re, back: bool, k: nat, greedy: bool, s: St, u: St)
    requires StOk(x, s) && k + NumGroups(b) <= x.ncap && u in Star(x, b, back, k, greedy, s)
    ensures Kept(k, NumGroups(b), Live(b, k), s, u)
    decreases b, 5, Distance(x, back, s.pos), 0
  {
    hide Results, FlatMap, Kept;
    if u == s {
      KeptSelf(k, NumGroups(b), Live(b, k), s);
    } else {
      var t := From(x, back, s.pos, Results(x, b, back, k, s), ThenStar(b, k, greedy, s.pos), u);
      ResultKept(x, b, back, k, s, t);
      if t.pos != s.pos {
        StarKept(x, b, back, k, greedy, t, u);
      } else {
        KeptSelf(k, NumGroups(b), Live(b, k), t);
      }
      KeptTrans(k, NumGroups(b), Live(b, k), s, t, u);
    }
  }

  // ---------------------------------------------------------------- what a failed attempt leaves

  /** Captures of an alternative that was not taken are those from before. */
  lemma {:induction false} OneBranchOnly(x: Ctx, a: Re, b: Re, back: bool, k: nat, s: St, u: St)
    requires StOk(x, s) && k + NumGroups(a) + NumGroups(b) <= x.ncap && u in Results(x, Alt(a, b), back, k, s)
    ensures Kept(k, NumGroups(a), Live(a, k), s, u) ||
            Kept(k + NumGroups(a), NumGroups(b), Live(b, k + NumGroups(a)), s, u)
  {
    hide Results, Kept;
    ResultsAlt(x, a, b, back, k, s);
    if u in Results(x, a, back, k, s) {
      ResultKept(x, a, back, k, s, u);
    } else {
      ResultKept(x, b, back, k + NumGroups(a), s, u);
    }
  }
}
