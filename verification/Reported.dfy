/** What a reported match looks like, for every pattern that compiles, whether or not its loops halt: each
    capture is unset or a span, and captures made in a failed alternative, inside a negative lookaround or
    inside an atom that is never run do not survive. */
module Reported {
  import opened Integers
  import opened Subject
  import opened Regex
  import opened Matcher
  import opened Machine
  import opened Simulation
  import opened Codegen
  import opened Correct
  import opened Compiled
  import opened Captures
  import opened Partial
  import opened Scoped

  // ---------------------------------------------------------------- quantifiers

  /** The atom of a quantifier keeps to the scope, wherever its code has been copied to. */
  ghost predicate Copies(x: Ctx, p: Prog, scope: Scope, body: seq<Instr>) {
    forall q :: Sits(p, q, body) ==> Behaves(x, p, scope, q, q + |body|)
  }

  lemma CopyAt(x: Ctx, p: Prog, scope: Scope, body: seq<Instr>, q: int, end: int)
    requires Copies(x, p, scope, body) && Sits(p, q, body) && end == q + |body|
    ensures Behaves(x, p, scope, q, end)
  {
    hide Behaves, Sits;
  }

  lemma StarPieceBehaves(x: Ctx, p: Prog, scope: Scope, body: seq<Instr>, check: bool, greedy: bool, pc: int, end: int)
    requires Sits(p, pc, StarCode(body, check, greedy)) && end == pc + |StarCode(body, check, greedy)|
    requires Copies(x, p, scope, body) && Repeats(scope)
    ensures Behaves(x, p, scope, pc, end)
  {
    hide Repeats, Behaves, Copies;
    var code := StarCode(body, check, greedy);
    StarBodySits(p, pc, body, check, greedy);
    SitsAt(p, pc, code, 0);
    SitsAt(p, pc, code, 1);
    SitsAt(p, pc, code, |code| - 1);
    CopyAt(x, p, scope, body, pc + if check then 2 else 1, end - 1);
    StarBehaves(x, p, scope, check, greedy, |body|, pc, end);
  }

  lemma UptoPieceBehaves(x: Ctx, p: Prog, scope: Scope, body: seq<Instr>, n: nat, greedy: bool, pc: int, end: int)
    requires Sits(p, pc, UptoCode(body, n, greedy)) && end == pc + |UptoCode(body, n, greedy)|
    requires Copies(x, p, scope, body) && Repeats(scope)
    ensures Behaves(x, p, scope, pc, end)
  {
    hide Repeats, Behaves, Copies;
    var code := UptoCode(body, n, greedy);
    UptoBodySits(p, pc, body, n, greedy);
    SitsAt(p, pc, code, 0);
    SitsAt(p, pc, code, 1);
    SitsAt(p, pc, code, |body| + 2);
    SitsAt(p, pc, code, |body| + 3);
    CopyAt(x, p, scope, body, pc + 2, pc + 2 + |body|);
    UptoBehaves(x, p, scope, greedy, n, |body|, pc, end);
  }

  lemma ExactPieceBehaves(x: Ctx, p: Prog, scope: Scope, body: seq<Instr>, n: nat, pc: int, end: int)
    requires Sits(p, pc, ExactCode(body, n)) && end == pc + |ExactCode(body, n)|
    requires Copies(x, p, scope, body) && Repeats(scope)
    ensures Behaves(x, p, scope, pc, end)
  {
    hide Repeats, Behaves, Copies;
    var code := ExactCode(body, n);
    ExactBodySits(p, pc, body, n);
    SitsAt(p, pc, code, 0);
    SitsAt(p, pc, code, |body| + 1);
    SitsAt(p, pc, code, |body| + 2);
    CopyAt(x, p, scope, body, pc + 1, pc + 1 + |body|);
    ExactBehaves(x, p, scope, n, |body|, pc, end);
  }

  lemma TailBehaves(x: Ctx, p: Prog, scope: Scope, body: seq<Instr>, min: nat, max: nat, check: bool, greedy: bool,
                    pc: int, end: int)
    requires var tail := TailCode(body, min, max, check, greedy); Sits(p, pc, tail) && end == pc + |tail|
    requires Copies(x, p, scope, body) && Repeats(scope)
    ensures Behaves(x, p, scope, pc, end)
  {
    hide Behaves, Copies, Sits, StarCode, UptoCode;
    if max == INT32_MAX {
      StarPieceBehaves(x, p, scope, body, check, greedy, pc, end);
    } else if max > min {
      UptoPieceBehaves(x, p, scope, body, max - min, greedy, pc, end);
    } else {
      NothingBehaves(x, p, scope, pc);
    }
  }

  lemma OptionalBehaves(x: Ctx, p: Prog, scope: Scope, body: seq<Instr>, max: nat, check: bool, greedy: bool, pc: int,
                        end: int)
    requires var code := OptionalCode(body, max, check, greedy); Sits(p, pc, code) && end == pc + |code|
    requires Copies(x, p, scope, body) && scope.ways != {} && (max != 1 ==> Repeats(scope))
    ensures Behaves(x, p, scope, pc, end)
  {
    hide Behaves, Copies, TailCode;
    if max == 1 {
      OptionBodySits(p, pc, body, greedy);
      CopyAt(x, p, scope, body, pc + 1, end);
      OptionBehaves(x, p, scope, greedy, pc, end);
    } else {
      TailBehaves(x, p, scope, body, 0, max, check, greedy, pc, end);
    }
  }

  lemma PlusPieceBehaves(x: Ctx, p: Prog, scope: Scope, body: seq<Instr>, greedy: bool, pc: int, end: int)
    requires Sits(p, pc, PlusCode(body, greedy)) && end == pc + |PlusCode(body, greedy)|
    requires Copies(x, p, scope, body) && Repeats(scope)
    ensures Behaves(x, p, scope, pc, end)
  {
    hide Repeats, Behaves, Copies, Sits;
    PlusSits(p, pc, body, PlusBranch(|body|, greedy));
    CopyAt(x, p, scope, body, pc, pc + |body|);
    PlusBehaves(x, p, scope, greedy, |body|, pc, end);
  }

  lemma MandatoryBehaves(x: Ctx, p: Prog, scope: Scope, body: seq<Instr>, min: nat, max: nat, check: bool, greedy: bool,
                         pc: int, end: int)
    requires var code := (if min == 1 then body else ExactCode(body, min)) + TailCode(body, min, max, check, greedy);
             Sits(p, pc, code) && end == pc + |code|
    requires Copies(x, p, scope, body) && (min != 1 || max > 1 ==> Repeats(scope))
    ensures Behaves(x, p, scope, pc, end)
  {
    hide Behaves, Copies, Sits, ExactCode, StarCode, UptoCode, Joins;
    var first, tail := if min == 1 then body else ExactCode(body, min), TailCode(body, min, max, check, greedy);
    var mid := pc + |first|;
    SitsConcat(p, pc, first, tail);
    if min == 1 {
      CopyAt(x, p, scope, body, pc, mid);
    } else {
      ExactPieceBehaves(x, p, scope, body, min, pc, mid);
    }
    if tail != [] {
      TailBehaves(x, p, scope, body, min, max, check, greedy, mid, end);
      ThenBehaves(x, p, scope, scope, scope, pc, mid, end);
    }
  }

  lemma {:induction false} QuantBehaves(x: Ctx, p: Prog, scope: Scope, body: seq<Instr>, min: nat, max: nat,
                                        greedy: bool, pc: int,
                                        end: int)
    requires scope.k + scope.n <= x.ncap && (SimpleCount(body) > 0 ==> !scope.back) && scope.ways != {}
    requires var code := QuantCode(body, scope.k, scope.n, min, max, greedy); Sits(p, pc, code) && end == pc + |code|
    requires min == max == 0 || Copies(x, p, scope, body)
    requires min > 1 || max > 1 ==> Repeats(scope)
    ensures Behaves(x, p, scope, pc, end)
  {
    hide Behaves, Copies, Sits, SimpleCount, CheckAdvance, TailCode, ExactCode, OptionalCode, ResetCode, PlusCode,
      SimpleCode, QuantCode, Repeats;
    var check, k, n := greedy && CheckAdvance(body) == 0, scope.k, scope.n;
    if greedy && max > 0 && SimpleCount(body) > 0 {
      QuantSimple(body, k, n, min, max);
      SimplePiece(x, p, scope, body, min, max, pc, end);
    } else {
      QuantCodeCases(body, k, n, min, max, greedy, check);
      if min == 0 {
        var reset, code := ResetCode(k, n), OptionalCode(body, max, check, greedy);
        var mid := pc + |reset|;
        SitsConcat(p, pc, reset, code);
        if max == 0 {
          NothingOptional(body, check, greedy);
          ResetBehaves(x, p, scope, pc, end);
        } else {
          assert {} in Idle(scope).ways;
          ResetBehaves(x, p, Idle(scope), pc, mid);
          OptionalBehaves(x, p, scope, body, max, check, greedy, mid, end);
          AlongsideBehaves(x, p, scope, pc, mid, end);
        }
      } else if min == 1 && max == INT32_MAX && !check {
        PlusPieceBehaves(x, p, scope, body, greedy, pc, end);
      } else {
        MandatoryBehaves(x, p, scope, body, min, max, check, greedy, pc, end);
      }
    }
  }

  lemma NothingOptional(body: seq<Instr>, check: bool, greedy: bool)
    ensures OptionalCode(body, 0, check, greedy) == []
  {
  }

  lemma {:induction false} QuantSimple(body: seq<Instr>, k: nat, n: nat, min: nat, max: nat)
    requires max > 0 && SimpleCount(body) > 0
    ensures QuantCode(body, k, n, min, max, true) == SimpleCode(body, min, max)
  {
    hide SimpleCount, SimpleCode;
  }

  lemma {:induction false} SimplePiece(x: Ctx, p: Prog, scope: Scope, body: seq<Instr>, min: nat, max: nat, pc: int,
                                       end: int)
    requires max > 0 && SimpleCount(body) > 0 && !scope.back && scope.ways != {}
    requires Sits(p, pc, SimpleCode(body, min, max)) && end == pc + |SimpleCode(body, min, max)|
    ensures Behaves(x, p, scope, pc, end)
  {
    hide Behaves, SimpleCount;
    WrapSits(p, pc, ISimpleGreedy(|body| + 1, min, max, SimpleCount(body)), body, IMatch);
    assert p[pc + 1..pc + 1 + |body|] == body;
    SimpleBehaves(x, p, scope, pc, end);
  }

  // ---------------------------------------------------------------- patterns

  function ScopeOf(r: Re, back: bool, k: nat): Scope {
    Scope(back, k, NumGroups(r), Ways(r, k))
  }

  /** The code of a pattern keeps to the scope of the pattern. */
  lemma {:induction false} CodeBehaves(x: Ctx, p: Prog, r: Re, back: bool, k: nat, pc: int, end: int)
    requires k + NumGroups(r) <= x.ncap && Sits(p, pc, Code(x.opts, r, back, k)) &&
             end == pc + |Code(x.opts, r, back, k)|
    ensures Behaves(x, p, ScopeOf(r, back, k), pc, end)
    decreases r, 1
  {
    hide Behaves, Code, Sits, Copies;
    match r {
      case Cat(a, b) => CatPair(x, p, r, a, b, back, k, pc, end);
      case Alt(a, b) => AltPair(x, p, r, a, b, back, k, pc, end);
      case Group(_) => WrapBehaves(x, p, r, back, k, pc, end);
      case Look(_, _, _) => WrapBehaves(x, p, r, back, k, pc, end);
      case Quant(_, _, _, _) => RepeatBehaves(x, p, r, back, k, pc, end);
      case _ => LeafBehaves(x, p, r, back, k, pc, end);
    }
  }

  lemma {:induction false} WrapBehaves(x: Ctx, p: Prog, r: Re, back: bool, k: nat, pc: int, end: int)
    requires r.Group? || r.Look?
    requires k + NumGroups(r) <= x.ncap && Sits(p, pc, Code(x.opts, r, back, k)) &&
             end == pc + |Code(x.opts, r, back, k)|
    ensures Behaves(x, p, ScopeOf(r, back, k), pc, end)
    decreases r, 0
  {
    hide Behaves, Code, Sits;
    WaysAreLive(r, k);
    if r.Group? {
      var body := Code(x.opts, r.body, back, k + 1);
      var first, last := if back then ISaveEnd(k) else ISaveStart(k), if back then ISaveStart(k) else ISaveEnd(k);
      CodeGroup(x.opts, r.body, back, k);
      WrapSits(p, pc, first, body, last);
      CodeBehaves(x, p, r.body, back, k + 1, pc + 1, end - 1);
      GroupBehaves(x, p, ScopeOf(r.body, back, k + 1), ScopeOf(r, back, k), pc, end);
    } else {
      var body := Code(x.opts, r.body, r.behind, k);
      CodeLook(x.opts, r.body, r.behind, r.negative, back, k);
      WrapSits(p, pc, if r.negative then INegLook(|body| + 1) else ILook(|body| + 1), body, IMatch);
      CodeBehaves(x, p, r.body, r.behind, k, pc + 1, end - 1);
      LookBehaves(x, p, ScopeOf(r.body, r.behind, k), ScopeOf(r, back, k), r.negative, pc, end);
    }
  }

  lemma {:induction false} RepeatBehaves(x: Ctx, p: Prog, r: Re, back: bool, k: nat, pc: int, end: int)
    requires r.Quant?
    requires k + NumGroups(r) <= x.ncap && Sits(p, pc, Code(x.opts, r, back, k)) &&
             end == pc + |Code(x.opts, r, back, k)|
    ensures Behaves(x, p, ScopeOf(r, back, k), pc, end)
    decreases r, 0
  {
    hide Behaves, Code, Sits, Copies, Ways, Inside, Repeats;
    var b, scope, body := r.body, ScopeOf(r, back, k), Code(x.opts, r.body, back, k);
    WaysAreLive(r, k);
    if back {
      BackwardNotSimple(x.opts, b, k);
    }
    CodeQuant(x.opts, b, r.min, r.max, r.greedy, back, k);
    LoopWays(r, back, k);
    if !(r.min == r.max == 0) {
      forall q | Sits(p, q, body)
        ensures Behaves(x, p, scope, q, q + |body|)
      {
        CodeBehaves(x, p, b, back, k, q, q + |body|);
        BehavesWiden(x, p, ScopeOf(b, back, k), scope, q, q + |body|);
      }
      CopiesIf(x, p, scope, body);
    }
    QuantBehaves(x, p, scope, body, r.min, r.max, r.greedy, pc, end);
  }

  /** A quantifier allows what its atom does and, when there may be several iterations, their sum. */
  lemma {:induction false} LoopWays(r: Re, back: bool, k: nat)
    requires r.Quant?
    ensures r.min == r.max == 0 || Inside(ScopeOf(r.body, back, k), ScopeOf(r, back, k))
    ensures r.min > 1 || r.max > 1 ==> Repeats(ScopeOf(r, back, k))
  {
    WaysAreLive(r.body, k);
    var ways := Ways(r, k);
    if !(r.min == r.max == 0) {
      forall w | w in Ways(r.body, k)
        ensures Covered(w, ways)
      {
        if r.min > 1 || r.max > 1 {
          assert Live(r.body, k) in ways;
        } else {
          assert w in ways;
        }
      }
    }
    if r.min > 1 || r.max > 1 {
      forall v, w | v in ways && w in ways
        ensures v + w in ways
      {
        assert v == w == Live(r.body, k) && v + w == v;
      }
    }
  }

  lemma CopiesIf(x: Ctx, p: Prog, scope: Scope, body: seq<Instr>)
    requires forall q :: Sits(p, q, body) ==> Behaves(x, p, scope, q, q + |body|)
    ensures Copies(x, p, scope, body)
  {
    hide Behaves, Sits;
  }

  lemma {:induction false} AltPair(x: Ctx, p: Prog, r: Re, a: Re, b: Re, back: bool, k: nat, pc: int, end: int)
    requires r == Alt(a, b)
    requires k + NumGroups(r) <= x.ncap && Sits(p, pc, Code(x.opts, r, back, k)) &&
             end == pc + |Code(x.opts, r, back, k)|
    ensures Behaves(x, p, ScopeOf(r, back, k), pc, end)
    decreases r, 0
  {
    hide Behaves, Code, Sits, Ways;
    var k', scope := k + NumGroups(a), ScopeOf(r, back, k);
    var one, two := Code(x.opts, a, back, k), Code(x.opts, b, back, k');
    AltWays(a, b, k);
    WaysAreLive(r, k);
    CodeAlt(x.opts, a, b, back, k);
    AltSits(p, pc, one, two);
    PartBehaves(x, p, r, a, back, k, scope, pc + 1, pc + 1 + |one|);
    PartBehaves(x, p, r, b, back, k', scope, pc + |one| + 2, end);
    AltBehaves(x, p, scope, |one|, pc, end);
  }

  lemma {:induction false} CatPair(x: Ctx, p: Prog, r: Re, a: Re, b: Re, back: bool, k: nat, pc: int, end: int)
    requires r == Cat(a, b)
    requires k + NumGroups(r) <= x.ncap && Sits(p, pc, Code(x.opts, r, back, k)) &&
             end == pc + |Code(x.opts, r, back, k)|
    ensures Behaves(x, p, ScopeOf(r, back, k), pc, end)
    decreases r, 0
  {
    hide Behaves, Code, Sits, Ways;
    var k', scope := k + NumGroups(a), ScopeOf(r, back, k);
    var left, right := scope.(ways := Ways(a, k)), scope.(ways := Ways(b, k'));
    var one, two := Code(x.opts, a, back, k), Code(x.opts, b, back, k');
    CatWays(a, b, k);
    CodeCat(x.opts, a, b, back, k);
    var mid := if back then pc + |two| else pc + |one|;
    if back {
      SitsConcat(p, pc, two, one);
      PartBehaves(x, p, r, b, back, k', right, pc, mid);
      PartBehaves(x, p, r, a, back, k, left, mid, end);
      ThenBehaves(x, p, right, left, scope, pc, mid, end);
    } else {
      SitsConcat(p, pc, one, two);
      PartBehaves(x, p, r, a, back, k, left, pc, mid);
      PartBehaves(x, p, r, b, back, k', right, mid, end);
      ThenBehaves(x, p, left, right, scope, pc, mid, end);
    }
  }

  lemma {:induction false} AltWays(a: Re, b: Re, k: nat)
    ensures Ways(Alt(a, b), k) == Ways(a, k) + Ways(b, k + NumGroups(a))
  {
  }

  lemma {:induction false} CatWays(a: Re, b: Re, k: nat)
    ensures forall v, w :: v in Ways(a, k) && w in Ways(b, k + NumGroups(a)) ==>
                             v + w in Ways(Cat(a, b), k) && w + v in Ways(Cat(a, b), k)
  {
    forall v, w | v in Ways(a, k) && w in Ways(b, k + NumGroups(a))
      ensures v + w in Ways(Cat(a, b), k) && w + v in Ways(Cat(a, b), k)
    {
      assert v + w == w + v;
    }
  }

  /** A part of a pattern keeps to a scope that allows all the part does. */
  lemma {:induction false} PartBehaves(x: Ctx, p: Prog, r: Re, a: Re, back: bool, ka: nat, scope: Scope, pc: int,
                                       end: int)
    requires a < r && ka + NumGroups(a) <= x.ncap && scope.back == back
    requires scope.k <= ka && ka + NumGroups(a) <= scope.k + scope.n && Ways(a, ka) <= scope.ways
    requires Sits(p, pc, Code(x.opts, a, back, ka)) && end == pc + |Code(x.opts, a, back, ka)|
    ensures Behaves(x, p, scope, pc, end)
    decreases a, 2
  {
    hide Behaves, Code, Sits, Ways;
    CodeBehaves(x, p, a, back, ka, pc, end);
    forall w | w in Ways(a, ka)
      ensures Covered(w, scope.ways)
    {
      assert w in scope.ways && w <= w;
    }
    BehavesWiden(x, p, ScopeOf(a, back, ka), scope, pc, end);
  }

  lemma {:induction false} LeafBehaves(x: Ctx, p: Prog, r: Re, back: bool, k: nat, pc: int, end: int)
    requires (Leaf(r) || r.Empty?) && Sits(p, pc, Code(x.opts, r, back, k)) && end == pc + |Code(x.opts, r, back, k)|
    ensures Behaves(x, p, ScopeOf(r, back, k), pc, end)
  {
    hide Behaves;
    var code, scope := Code(x.opts, r, back, k), ScopeOf(r, back, k);
    WaysAreLive(r, k);
    if r.Empty? {
      NothingBehaves(x, p, scope, pc);
    } else {
      SitsAt(p, pc, code, 0);
      if back && (r.Char? || r.Set? || r.Dot?) {
        SitsAt(p, pc, code, 1);
        SitsAt(p, pc, code, 2);
        BackCharBehaves(x, p, scope, pc, end);
      } else {
        GentleBehaves(x, p, scope, pc, end);
      }
    }
  }

  // ---------------------------------------------------------------- the reported match

  /** All groups that are set belong to one of the sets. */
  ghost predicate OneWay(ways: set<set<nat>>, caps: seq<int>) {
    exists w :: w in ways && SetWithin(w, caps)
  }

  predicate SetWithin(w: set<nat>, caps: seq<int>) {
    forall g :: 0 <= g < |caps| && 2 * g + 1 < |caps| && g !in w ==> Unset(caps, g)
  }

  /** Group 0 is where the match was found, every group is unset or a span of the subject between character
      boundaries, groups that are not live are unset, and those that are set can be set by one match. */
  ghost predicate MatchFine(x: Ctx, r: Re, sticky: bool, start: nat, s: St) {
    && x.ncap > 0 && StOk(x, s)
    && (forall g :: 0 <= g < x.ncap ==> Span(s.caps, g))
    && SetWithin(Live(Group(r), 0), s.caps) && OneWay(Ways(Group(r), 0), s.caps)
    && start <= s.caps[0] <= s.caps[1] == s.pos
    && (sticky ==> s.caps[0] == start)
  }

  lemma {:induction false} AttemptFine(x: Ctx, r: Re, sticky: bool, start: nat, g: Goal, t: St)
    requires x.ncap == 1 + NumGroups(r) && Boundary(x.subject, start) && g.scope == ScopeOf(r, false, 1)
    requires g.s == Attempt(x, start) && Met(x, g, t)
    ensures MatchFine(x, r, sticky, start, Leave(x, false, 0, t))
  {
    hide Live, Ways;
    var s, u := g.s, Leave(x, false, 0, t);
    var w :| w in Ways(r, 1) && Kept(1, NumGroups(r), w, s, t);
    GroupWays(r, w);
    assert SameGroup(s, t, 0);
    forall h | 0 <= h < x.ncap
      ensures Span(u.caps, h) && (h !in {0} + w ==> Unset(u.caps, h))
    {
      assert SameGroup(s, t, h) || Changed(w, t, h);
    }
    assert SetWithin({0} + w, u.caps);
  }

  lemma {:induction false} GroupWays(r: Re, w: set<nat>)
    requires w in Ways(r, 1)
    ensures {0} + w in Ways(Group(r), 0) && {0} + w <= Live(Group(r), 0)
  {
    WaysAreLive(Group(r), 0);
  }

  /** What stands where in the program. */
  lemma {:induction false} ProgramParts(x: Ctx, r: Re, sticky: bool) returns (pc: int, end: int)
    requires x.ncap == 1 + NumGroups(r)
    ensures var p := Program(x.opts, r, sticky);
            pc == |Prelude(sticky)| && Prelude(sticky) <= p && 0 <= pc < end && end + 1 < |p| &&
            p[pc] == ISaveStart(0) && p[end] == ISaveEnd(0) && p[end + 1] == IMatch &&
            Behaves(x, p, ScopeOf(r, false, 1), pc + 1, end)
  {
    hide Code, Behaves, Sits;
    var p, code := Program(x.opts, r, sticky), Code(x.opts, Group(r), false, 0);
    var body := Code(x.opts, r, false, 1);
    pc, end := |Prelude(sticky)|, |Prelude(sticky)| + 1 + |body|;
    CodeGroup(x.opts, r, false, 0);
    ProgramSits(p, Prelude(sticky), code);
    WrapSits(p, pc, ISaveStart(0), body, ISaveEnd(0));
    CodeBehaves(x, p, r, false, 1, pc + 1, end);
  }

  /** A match that comes out of one attempt, or out of what was saved before it. */
  lemma AttemptMatched(x: Ctx, r: Re, p: Prog, pc: int, end: int, sticky: bool, start: nat, base: seq<Saved>, u: St,
                       n: nat)
    returns (below: bool, m: nat)
    requires x.ncap == 1 + NumGroups(r) && Boundary(x.subject, start) && Choices(base)
    requires 0 <= pc < end && end + 1 < |p| && p[pc] == ISaveStart(0) && p[end] == ISaveEnd(0) && p[end + 1] == IMatch
    requires Behaves(x, p, ScopeOf(r, false, 1), pc + 1, end)
    requires StepN(x, p, Run(pc, St(start, NoCaps(x.ncap)), [], base), n) == Matched(u)
    ensures if below then m < n && StepN(x, p, Fail(base), m) == Matched(u) else MatchFine(x, r, sticky, start, u)
  {
    hide Step, Behaves, Met, MatchFine, StOk;
    var s, g := St(start, NoCaps(x.ncap)), Goal(ScopeOf(r, false, 1), Attempt(x, start), end, [], base);
    StartOk(x, start);
    EnterStep(x, p, false, 0, pc, s, [], base);
    BehavesAt(x, p, g.scope, pc + 1, end, g.s, [], base, n);
    var t;
    below, m, t := MatchFrom(x, p, g, Run(pc + 1, g.s, [], base), u, n - 1);
    if !below {
      AttemptFine(x, r, sticky, start, g, t);
    }
  }

  lemma StartOk(x: Ctx, start: nat)
    requires Boundary(x.subject, start)
    ensures StOk(x, St(start, NoCaps(x.ncap)))
  {
  }

  /** A search that matches. */
  lemma {:induction false} SearchMatched(x: Ctx, r: Re, p: Prog, end: int, start: nat, u: St, n: nat)
    requires x.ncap == 1 + NumGroups(r) && Boundary(x.subject, start) && Prelude(false) <= p && 3 < end && end + 1 < |p|
    requires p[3] == ISaveStart(0) && p[end] == ISaveEnd(0) && p[end + 1] == IMatch
    requires Behaves(x, p, ScopeOf(r, false, 1), 4, end)
    requires StepN(x, p, Start(x, start), n) == Matched(u)
    ensures MatchFine(x, r, false, start, u)
    decreases n
  {
    hide Behaves, MatchFine, StepRun, StepFail;
    var s := St(start, NoCaps(x.ncap));
    var base := Base(false, s);
    SearchSteps(x, p, s);
    var below, m := AttemptMatched(x, r, p, 3, end, false, start, base, u, n - 1);
    if below {
      var k := RetryMatched(x, p, s, u, m);
      NextPrev(x.subject, start);
      var next := NextPos(x.subject, start);
      SearchMatched(x, r, p, end, next, u, k);
      LaterFine(x, r, start, next, u);
    }
  }

  lemma LaterFine(x: Ctx, r: Re, start: nat, next: nat, u: St)
    requires start <= next && MatchFine(x, r, false, next, u)
    ensures MatchFine(x, r, false, start, u)
  {
  }

  lemma SearchSteps(x: Ctx, p: Prog, s: St)
    requires Prelude(false) <= p && InRange(x, s)
    ensures Step(x, p, Run(0, s, [], [])) == Run(3, s, [], Base(false, s))
  {
    assert p[0] == Prelude(false)[0];
    assert [] + Base(false, s) == Base(false, s);
  }

  /** A match after a failed attempt comes out of the search from the next character. */
  lemma RetryMatched(x: Ctx, p: Prog, s: St, u: St, n: nat) returns (k: nat)
    requires Prelude(false) <= p && InRange(x, s) && StepN(x, p, Fail(Base(false, s)), n) == Matched(u)
    ensures s.pos < Len(x) && k < n
    ensures StepN(x, p, Run(0, St(NextPos(x.subject, s.pos), s.caps), [], []), k) == Matched(u)
  {
    RetrySteps(x, p, s);
    hide Step;
    var d := Base(false, s);
    assert StepN(x, p, Fail(d), n) == StepN(x, p, Run(1, s, [], []), n - 1);
    if s.pos == Len(x) {
      NothingSaved(x, p, u, n - 2);
    }
    var t := St(NextPos(x.subject, s.pos), s.caps);
    assert StepN(x, p, Run(1, s, [], []), n - 1) == StepN(x, p, Run(2, t, [], []), n - 2);
    assert StepN(x, p, Run(2, t, [], []), n - 2) == StepN(x, p, Run(0, t, [], []), n - 3);
    k := n - 3;
  }

  lemma RetrySteps(x: Ctx, p: Prog, s: St)
    requires Prelude(false) <= p && InRange(x, s)
    ensures Step(x, p, Fail(Base(false, s))) == Run(1, s, [], [])
    ensures s.pos == Len(x) ==> Step(x, p, Run(1, s, [], [])) == Fail([])
    ensures s.pos < Len(x) ==> var t := St(NextPos(x.subject, s.pos), s.caps);
                               Step(x, p, Run(1, s, [], [])) == Run(2, t, [], []) &&
                               Step(x, p, Run(2, t, [], [])) == Run(0, t, [], [])
  {
    assert p[1] == Prelude(false)[1] && p[2] == Prelude(false)[2];
    assert Base(false, s)[..0] == [];
  }

  /** Whenever a run of a compiled program reports a match, whatever the pattern, the match is fine. */
  lemma {:induction false} MatchedCaptures(x: Ctx, r: Re, sticky: bool, start: nat, n: nat, u: St)
    requires x.ncap == 1 + NumGroups(r) && Boundary(x.subject, start)
    requires StepN(x, Program(x.opts, r, sticky), Start(x, start), n) == Matched(u)
    ensures MatchFine(x, r, sticky, start, u)
  {
    hide Program, Behaves, MatchFine, Step, Prelude;
    var p := Program(x.opts, r, sticky);
    var pc, end := ProgramParts(x, r, sticky);
    if sticky {
      assert pc == 0 by { StickyStart(); }
      var below, m := AttemptMatched(x, r, p, pc, end, sticky, start, [], u, n);
      if below {
        NothingSaved(x, p, u, m);
      }
    } else {
      assert pc == 3 by { StickyStart(); }
      SearchMatched(x, r, p, end, start, u, n);
    }
  }

  lemma StickyStart()
    ensures |Prelude(true)| == 0 && |Prelude(false)| == 3
  {
  }

  lemma {:induction false} NothingSaved(x: Ctx, p: Prog, u: St, m: nat)
    ensures StepN(x, p, Fail([]), m) != Matched(u)
  {
    if m > 0 {
      assert Step(x, p, Fail([])) == NoMatch;
      StuckStays(x, p, NoMatch, m - 1);
    }
  }
}
