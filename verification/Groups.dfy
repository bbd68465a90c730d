/** What the captures of a match mean: each group that is set spans a result of the body of that group. */
module Groups {
  import opened Integers
  import opened Subject
  import opened Regex
  import opened Matcher
  import opened Machine
  import opened Codegen
  import opened Correct
  import opened Compiled
  import opened Captures

  /** A pattern, the direction in which it is matched, and the number of its first group. */
  datatype Term = Term(r: Re, back: bool, k: nat)

  /** Group `g` of a term belongs to the term. */
  predicate Owns(a: Term, g: nat) {
    a.k <= g < a.k + NumGroups(a.r)
  }

  /** The body of group `g`. */
  function BodyOf(a: Term, g: nat): (body: Term)
    requires Owns(a, g)
    ensures body.k == g + 1 && g + 1 + NumGroups(body.r) <= a.k + NumGroups(a.r)
    decreases a.r
  {
    match a.r
    case Cat(first, second) => BodyOfPair(a, first, second, g)
    case Alt(left, right) => BodyOfPair(a, left, right, g)
    case Group(b) => if g == a.k then Term(b, a.back, g + 1) else BodyOf(Term(b, a.back, a.k + 1), g)
    case Look(b, behind, _) => BodyOf(Term(b, behind, a.k), g)
    case Quant(b, _, _, _) => BodyOf(Term(b, a.back, a.k), g)
  }

  function BodyOfPair(a: Term, one: Re, two: Re, g: nat): (body: Term)
    requires one < a.r && two < a.r && NumGroups(a.r) == NumGroups(one) + NumGroups(two) && Owns(a, g)
    ensures body.k == g + 1 && g + 1 + NumGroups(body.r) <= a.k + NumGroups(a.r)
    decreases a.r, 0
  {
    var k' := a.k + NumGroups(one);
    if g < k' then BodyOf(Term(one, a.back, a.k), g) else BodyOf(Term(two, a.back, k'), g)
  }

  /** The span is that of a result of `body`, from where the body began to where it ended. */
  ghost predicate Spans(x: Ctx, body: Term, from: int, to: int)
    requires body.k + NumGroups(body.r) <= x.ncap
  {
    exists v, w :: StOk(x, v) && w in Results(x, body.r, body.back, body.k, v) &&
                   from == (if body.back then w.pos else v.pos) && to == (if body.back then v.pos else w.pos)
  }

  ghost predicate Means(x: Ctx, a: Term, caps: seq<int>, g: nat)
    requires Owns(a, g) && a.k + NumGroups(a.r) <= x.ncap && |caps| == 2 * x.ncap
  {
    Spans(x, BodyOf(a, g), caps[2 * g], caps[2 * g + 1])
  }

  /** From `s` to `t` each group of `a` is as before, unset, or has got a meaning. */
  ghost predicate Meant(x: Ctx, a: Term, s: St, t: St)
    requires a.k + NumGroups(a.r) <= x.ncap && |s.caps| == |t.caps| == 2 * x.ncap
  {
    forall g :: Owns(a, g) ==> SameGroup(s, t, g) || Unset(t.caps, g) || Means(x, a, t.caps, g)
  }

  lemma MeantTrans(x: Ctx, a: Term, s: St, t: St, u: St)
    requires a.k + NumGroups(a.r) <= x.ncap && |s.caps| == |t.caps| == |u.caps| == 2 * x.ncap
    requires Meant(x, a, s, t) && Meant(x, a, t, u)
    ensures Meant(x, a, s, u)
  {
    hide BodyOf, Spans, NumGroups;
    forall g | Owns(a, g)
      ensures SameGroup(s, u, g) || Unset(u.caps, g) || Means(x, a, u.caps, g)
    {
      assert SameGroup(s, t, g) || Unset(t.caps, g) || Means(x, a, t.caps, g);
      assert SameGroup(t, u, g) || Unset(u.caps, g) || Means(x, a, u.caps, g);
    }
  }

  lemma MeantSame(x: Ctx, a: Term, s: St, t: St)
    requires a.k + NumGroups(a.r) <= x.ncap && |s.caps| == 2 * x.ncap && t.caps == s.caps
    ensures Meant(x, a, s, t)
  {
    hide BodyOf, Spans, NumGroups;
  }

  /** `c` stands inside `a`: their groups have the same bodies. */
  ghost predicate PartOf(a: Term, c: Term) {
    a.k <= c.k && c.k + NumGroups(c.r) <= a.k + NumGroups(a.r) &&
    forall g :: Owns(c, g) ==> BodyOf(a, g) == BodyOf(c, g)
  }

  // ---------------------------------------------------------------- parts of a term

  lemma {:induction false} PairBody(c: Term, one: Re, two: Re, g: nat)
    requires c.r == Cat(one, two) || c.r == Alt(one, two)
    ensures var c1, c2 := Term(one, c.back, c.k), Term(two, c.back, c.k + NumGroups(one));
            (Owns(c1, g) ==> Owns(c, g) && BodyOf(c, g) == BodyOf(c1, g)) &&
            (Owns(c2, g) ==> Owns(c, g) && BodyOf(c, g) == BodyOf(c2, g))
  {
    assert NumGroups(c.r) == NumGroups(one) + NumGroups(two);
    hide NumGroups;
    if Owns(c, g) {
      assert BodyOf(c, g) == BodyOfPair(c, one, two, g);
    }
  }

  lemma {:induction false} PairParts(a: Term, c: Term, one: Re, two: Re)
    requires PartOf(a, c) && (c.r == Cat(one, two) || c.r == Alt(one, two))
    ensures PartOf(a, Term(one, c.back, c.k)) && PartOf(a, Term(two, c.back, c.k + NumGroups(one)))
  {
    assert NumGroups(c.r) == NumGroups(one) + NumGroups(two);
    hide BodyOf, NumGroups, Owns;
    var c1, c2 := Term(one, c.back, c.k), Term(two, c.back, c.k + NumGroups(one));
    forall g | Owns(c1, g)
      ensures Owns(a, g) && BodyOf(a, g) == BodyOf(c1, g)
    {
      PairBody(c, one, two, g);
    }
    forall g | Owns(c2, g)
      ensures Owns(a, g) && BodyOf(a, g) == BodyOf(c2, g)
    {
      PairBody(c, one, two, g);
    }
  }

  lemma {:induction false} BodyPart(a: Term, c: Term)
    requires PartOf(a, c) && (c.r.Group? || c.r.Look? || c.r.Quant?)
    ensures c.r.Group? ==> PartOf(a, Term(c.r.body, c.back, c.k + 1)) && Owns(a, c.k) &&
                           BodyOf(a, c.k) == Term(c.r.body, c.back, c.k + 1)
    ensures c.r.Look? ==> PartOf(a, Term(c.r.body, c.r.behind, c.k))
    ensures c.r.Quant? ==> PartOf(a, Term(c.r.body, c.back, c.k))
  {
    var inner := Term(c.r.body, if c.r.Look? then c.r.behind else c.back, if c.r.Group? then c.k + 1 else c.k);
    forall g | Owns(inner, g)
      ensures BodyOf(a, g) == BodyOf(inner, g)
    {
      assert Owns(c, g);
    }
    if c.r.Group? {
      assert Owns(c, c.k);
    }
  }

  // ---------------------------------------------------------------- the results of a term

  /** Every group that a result has set means a result of the body of that group. */
  lemma {:induction false} ResultMeant(x: Ctx, a: Term, r: Re, back: bool, k: nat, s: St, u: St)
    requires a.k + NumGroups(a.r) <= x.ncap && PartOf(a, Term(r, back, k))
    requires StOk(x, s) && u in Results(x, r, back, k, s)
    ensures StOk(x, u) && Meant(x, a, s, u)
    decreases r, 1, 0, 0
  {
    hide Results, StOk, PartOf, Meant;
    ResultIn(x, a, r, back, k, s, u);
    match r {
      case Cat(_, _) => PairMeant(x, a, r, back, k, s, u);
      case Alt(_, _) => PairMeant(x, a, r, back, k, s, u);
      case Group(b) => GroupMeant(x, a, b, back, k, s, u);
      case Look(b, behind, negative) => LookMeant(x, a, b, behind, negative, back, k, s, u);
      case Quant(b, min, max, greedy) => QuantMeant(x, a, b, min, max, greedy, back, k, s, u);
      case _ =>
        LeafCaps(x, r, back, k, s, u);
        MeantSame(x, a, s, u);
    }
  }

  lemma {:induction false} ResultIn(x: Ctx, a: Term, r: Re, back: bool, k: nat, s: St, u: St)
    requires a.k + NumGroups(a.r) <= x.ncap && PartOf(a, Term(r, back, k)) && StOk(x, s)
    ensures k + NumGroups(r) <= x.ncap
    ensures u in Results(x, r, back, k, s) ==> StOk(x, u) && |u.caps| == |s.caps| == 2 * x.ncap
  {
    hide Results, NumGroups;
  }

  lemma {:induction false} LeafCaps(x: Ctx, r: Re, back: bool, k: nat, s: St, u: St)
    requires StOk(x, s) && k <= x.ncap && (Leaf(r) || r.Empty?) && u in Results(x, r, back, k, s)
    ensures u.caps == s.caps
  {
  }

  lemma {:induction false} PairMeant(x: Ctx, a: Term, r: Re, back: bool, k: nat, s: St, u: St)
    requires (r.Cat? || r.Alt?) && a.k + NumGroups(a.r) <= x.ncap && PartOf(a, Term(r, back, k))
    requires StOk(x, s) && k + NumGroups(r) <= x.ncap && u in Results(x, r, back, k, s)
    requires |u.caps| == 2 * x.ncap
    ensures Meant(x, a, s, u)
    decreases r, 0, 1, 0
  {
    hide Results, StOk, PartOf, Meant, FlatMap;
    var one, two := if r.Alt? then r.left else r.first, if r.Alt? then r.right else r.second;
    var k' := k + NumGroups(one);
    PairParts(a, Term(r, back, k), one, two);
    if r.Alt? {
      ResultsAlt(x, one, two, back, k, s);
      if u in Results(x, one, back, k, s) {
        ResultMeant(x, a, one, back, k, s, u);
      } else {
        ResultMeant(x, a, two, back, k', s, u);
      }
    } else {
      ResultsCat(x, one, two, back, k, s);
      if back {
        ChainMeant(x, a, r, two, k', one, k, back, s, u);
      } else {
        ChainMeant(x, a, r, one, k, two, k', back, s, u);
      }
    }
  }

  lemma {:induction false} ChainMeant(x: Ctx, a: Term, r: Re, one: Re, k1: nat, two: Re, k2: nat, back: bool, s: St,
                                      u: St)
    requires one < r && two < r && a.k + NumGroups(a.r) <= x.ncap && StOk(x, s) && |u.caps| == 2 * x.ncap
    requires PartOf(a, Term(one, back, k1)) && PartOf(a, Term(two, back, k2))
    requires k1 + NumGroups(one) <= x.ncap && k2 + NumGroups(two) <= x.ncap
    requires u in FlatMap(x, back, s.pos, Results(x, one, back, k1, s), Then(two, k2))
    ensures Meant(x, a, s, u)
    decreases r, 0, 0, 0
  {
    hide Results, FlatMap, NumGroups, PartOf, Meant;
    var t := From(x, back, s.pos, Results(x, one, back, k1, s), Then(two, k2), u);
    ResultMeant(x, a, one, back, k1, s, t);
    ResultMeant(x, a, two, back, k2, t, u);
    MeantTrans(x, a, s, t, u);
  }

  lemma {:induction false} GroupMeant(x: Ctx, a: Term, b: Re, back: bool, k: nat, s: St, u: St)
    requires a.k + NumGroups(a.r) <= x.ncap && PartOf(a, Term(Group(b), back, k))
    requires StOk(x, s) && k + 1 + NumGroups(b) <= x.ncap && u in Results(x, Group(b), back, k, s)
    requires |u.caps| == 2 * x.ncap
    ensures Meant(x, a, s, u)
    decreases Group(b), 0, 0, 0
  {
    hide Results, LeaveAll, NumGroups, PartOf, Meant, StOk;
    var inside := Enter(x, back, k, s);
    var all := Results(x, b, back, k + 1, inside);
    ResultsGroup(x, b, back, k, s);
    var i :| 0 <= i < |all| && u == Leave(x, back, k, all[i]);
    BodyPart(a, Term(Group(b), back, k));
    ResultMeant(x, a, b, back, k + 1, inside, all[i]);
    ResultKept(x, b, back, k + 1, inside, all[i]);
    GroupSpan(x, a, b, back, k, s, all[i]);
  }

  /** Leaving a group gives it its meaning and leaves the others alone. */
  lemma {:induction false} GroupSpan(x: Ctx, a: Term, b: Re, back: bool, k: nat, s: St, t: St)
    requires a.k + NumGroups(a.r) <= x.ncap && Owns(a, k) && BodyOf(a, k) == Term(b, back, k + 1)
    requires StOk(x, s) && k + 1 + NumGroups(b) <= x.ncap
    requires var inside := Enter(x, back, k, s);
             t in Results(x, b, back, k + 1, inside) && StOk(x, t) && Meant(x, a, inside, t) &&
             Kept(k + 1, NumGroups(b), Live(b, k + 1), inside, t)
    ensures Meant(x, a, s, Leave(x, back, k, t))
  {
    hide Results, NumGroups, BodyOf, Live;
    var inside, u := Enter(x, back, k, s), Leave(x, back, k, t);
    assert SameGroup(inside, t, k);
    assert Spans(x, BodyOf(a, k), u.caps[2 * k], u.caps[2 * k + 1]);
    forall g | Owns(a, g)
      ensures SameGroup(s, u, g) || Unset(u.caps, g) || Means(x, a, u.caps, g)
    {
      assert SameGroup(inside, t, g) || Unset(t.caps, g) || Means(x, a, t.caps, g);
    }
  }

  lemma {:induction false} LookMeant(x: Ctx, a: Term, b: Re, behind: bool, negative: bool, back: bool, k: nat, s: St,
                                     u: St)
    requires a.k + NumGroups(a.r) <= x.ncap && PartOf(a, Term(Look(b, behind, negative), back, k))
    requires StOk(x, s) && k + NumGroups(b) <= x.ncap && u in Results(x, Look(b, behind, negative), back, k, s)
    requires |u.caps| == 2 * x.ncap
    ensures Meant(x, a, s, u)
    decreases Look(b, behind, negative), 0, 0, 0
  {
    hide Results, NumGroups, PartOf, Meant;
    ResultsLook(x, b, behind, negative, back, k, s);
    BodyPart(a, Term(Look(b, behind, negative), back, k));
    if negative {
      MeantSame(x, a, s, u);
    } else {
      var t := Results(x, b, behind, k, s)[0];
      ResultMeant(x, a, b, behind, k, s, t);
      MeantSame(x, a, t, u);
      MeantTrans(x, a, s, t, u);
    }
  }

  // ---------------------------------------------------------------- iterations

  lemma ForgetMeant(x: Ctx, a: Term, k: nat, n: nat, s: St)
    requires a.k + NumGroups(a.r) <= x.ncap && StOk(x, s) && k + n <= x.ncap
    ensures Meant(x, a, s, Forget(x, k, n, s))
  {
    hide BodyOf, Spans, NumGroups;
  }

  lemma {:induction false} QuantMeant(x: Ctx, a: Term, b: Re, min: nat, max: nat, greedy: bool, back: bool, k: nat,
                                      s: St,
                                      u: St)
    requires a.k + NumGroups(a.r) <= x.ncap && PartOf(a, Term(Quant(b, min, max, greedy), back, k))
    requires StOk(x, s) && k + NumGroups(b) <= x.ncap && u in Results(x, Quant(b, min, max, greedy), back, k, s)
    requires |u.caps| == 2 * x.ncap
    ensures Meant(x, a, s, u)
    decreases b, 6, 0, 0
  {
    hide Results, FlatMap, Times, Upto, Star, Meant, PartOf;
    ResultsQuant(x, b, min, max, greedy, back, k, s);
    BodyPart(a, Term(Quant(b, min, max, greedy), back, k));
    var s0 := if min == 0 then Forget(x, k, NumGroups(b), s) else s;
    ForgetMeant(x, a, k, NumGroups(b), s);
    MeantSame(x, a, s, s);
    var t := From(x, back, s.pos, Times(x, b, back, k, min, s0), Rest(b, k, min, max, greedy), u);
    TimesMeant(x, a, b, back, k, min, s0, t);
    if max == INT32_MAX {
      StarMeant(x, a, b, back, k, greedy, t, u);
    } else {
      UptoMeant(x, a, b, back, k, if max >= min then max - min else 0, greedy, t, u);
    }
    MeantTrans(x, a, s, s0, t);
    MeantTrans(x, a, s, t, u);
  }

  lemma {:induction false} TimesMeant(x: Ctx, a: Term, b: Re, back: bool, k: nat, n: nat, s: St, u: St)
    requires a.k + NumGroups(a.r) <= x.ncap && PartOf(a, Term(b, back, k)) && |u.caps| == 2 * x.ncap
    requires StOk(x, s) && k + NumGroups(b) <= x.ncap && u in Times(x, b, back, k, n, s)
    ensures Meant(x, a, s, u)
    decreases b, 5, n, 0
  {
    hide Results, FlatMap, Meant, PartOf;
    if n == 0 {
      MeantSame(x, a, s, s);
    } else {
      var t := From(x, back, s.pos, Results(x, b, back, k, s), ThenTimes(b, k, n - 1), u);
      ResultMeant(x, a, b, back, k, s, t);
      TimesMeant(x, a, b, back, k, n - 1, t, u);
      MeantTrans(x, a, s, t, u);
    }
  }

  lemma {:induction false} UptoMeant(x: Ctx, a: Term, b: Re, back: bool, k: nat, n: nat, greedy: bool, s: St, u: St)
    requires a.k + NumGroups(a.r) <= x.ncap && PartOf(a, Term(b, back, k)) && |u.caps| == 2 * x.ncap
    requires StOk(x, s) && k + NumGroups(b) <= x.ncap && u in Upto(x, b, back, k, n, greedy, s)
    ensures Meant(x, a, s, u)
    decreases b, 5, n, 0
  {
    hide Results, FlatMap, Meant, PartOf;
    if u == s {
      MeantSame(x, a, s, s);
    } else {
      var t := From(x, back, s.pos, Results(x, b, back, k, s), ThenUpto(b, k, n - 1, greedy), u);
      ResultMeant(x, a, b, back, k, s, t);
      UptoMeant(x, a, b, back, k, n - 1, greedy, t, u);
      MeantTrans(x, a, s, t, u);
    }
  }

  lemma {:induction false} StarMeant(x: Ctx, a: Term, b: Re, back: bool, k: nat, greedy: bool, s: St, u: St)
    requires a.k + NumGroups(a.r) <= x.ncap && PartOf(a, Term(b, back, k)) && |u.caps| == 2 * x.ncap
    requires StOk(x, s) && k + NumGroups(b) <= x.ncap && u in Star(x, b, back, k, greedy, s)
    ensures Meant(x, a, s, u)
    decreases b, 5, Distance(x, back, s.pos), 0
  {
    hide Results, FlatMap, Meant, PartOf;
    if u == s {
      MeantSame(x, a, s, s);
    } else {
      var t := From(x, back, s.pos, Results(x, b, back, k, s), ThenStar(b, k, greedy, s.pos), u);
      ResultMeant(x, a, b, back, k, s, t);
      if t.pos != s.pos {
        StarMeant(x, a, b, back, k, greedy, t, u);
      } else {
        MeantSame(x, a, t, t);
      }
      MeantTrans(x, a, s, t, u);
    }
  }

  // ---------------------------------------------------------------- the reported match

  /** The first match is a result at one of the positions that were tried. */
  lemma {:induction false} FirstMatchFrom(x: Ctx, r: Re, sticky: bool, start: nat) returns (q: nat)
    requires Boundary(x.subject, start) && 1 + NumGroups(r) <= x.ncap && |FirstMatch(x, r, sticky, start)| > 0
    ensures start <= q && Boundary(x.subject, q)
    ensures FirstMatch(x, r, sticky, start)[0] in Results(x, Group(r), false, 0, St(q, NoCaps(x.ncap)))
    decreases Len(x) - start
  {
    hide Results;
    var here := Results(x, Group(r), false, 0, St(start, NoCaps(x.ncap)));
    if |here| > 0 {
      q := start;
      assert here[0] in here;
    } else {
      NextPrev(x.subject, start);
      q := FirstMatchFrom(x, r, sticky, NextPos(x.subject, start));
    }
  }

  /** Whenever a run of a well-formed pattern reports a match, each group that is set, group 0 among them, spans
      a result of its body: what the group is to match, matched from where the group began to where it ended. */
  lemma {:induction false} MatchedGroups(x: Ctx, r: Re, sticky: bool, start: nat, n: nat, u: St)
    requires WellFormed(r, 1) && CanonOk(x.opts) && x.ncap == 1 + NumGroups(r) && Boundary(x.subject, start)
    requires StepN(x, Program(x.opts, r, sticky), Start(x, start), n) == Matched(u)
    ensures var a := Term(Group(r), false, 0);
            |u.caps| == 2 * x.ncap &&
            forall g :: 0 <= g < x.ncap ==> Owns(a, g) && (Unset(u.caps, g) || Means(x, a, u.caps, g))
  {
    hide Program, StepN, FirstMatch, Reaches, Results, Meant, PartOf;
    var a, m := Term(Group(r), false, 0), FirstMatch(x, r, sticky, start);
    ProgramCorrect(x, r, sticky, start);
    OutcomeUnique(x, Program(x.opts, r, sticky), Start(x, start), Outcome(m), n);
    var q := FirstMatchFrom(x, r, sticky, start);
    WholePart(a);
    NoCapsOk(x, q);
    ResultMeant(x, a, Group(r), false, 0, St(q, NoCaps(x.ncap)), u);
    FromNothing(x, a, St(q, NoCaps(x.ncap)), u);
  }

  lemma WholePart(a: Term)
    ensures PartOf(a, a)
  {
  }

  lemma NoCapsOk(x: Ctx, q: nat)
    requires Boundary(x.subject, q)
    ensures StOk(x, St(q, NoCaps(x.ncap)))
  {
  }

  lemma FromNothing(x: Ctx, a: Term, s: St, u: St)
    requires a.k + NumGroups(a.r) <= x.ncap && |s.caps| == |u.caps| == 2 * x.ncap && Meant(x, a, s, u)
    requires forall i :: 0 <= i < |s.caps| ==> s.caps[i] == NULL
    ensures forall g :: Owns(a, g) ==> Unset(u.caps, g) || Means(x, a, u.caps, g)
  {
    hide BodyOf, Spans, NumGroups;
    forall g | Owns(a, g)
      ensures Unset(u.caps, g) || Means(x, a, u.caps, g)
    {
      assert SameGroup(s, u, g) || Unset(u.caps, g) || Means(x, a, u.caps, g);
    }
  }
}
