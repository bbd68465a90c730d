/** Which patterns the machine halts on. */
module Halting {
  import opened Integers
  import opened Subject
  import opened Regex
  import opened Matcher
  import opened Machine
  import opened Simulation
  import opened Codegen
  import opened Analysis
  import opened Correct
  import opened Greedy
  import opened Finite
  import opened Compiled

  ghost predicate Halts(x: Ctx, p: Prog, start: nat) {
    exists n: nat :: Halted(StepN(x, p, Start(x, start), n))
  }

  /** The machine halts on every subject when each unbounded loop either carries the zero-advance check
      or has a body that always advances. */
  lemma {:induction false} WellFormedHalts(x: Ctx, r: Re, sticky: bool, start: nat)
    requires WellFormed(r, 1) && CanonOk(x.opts) && x.ncap == 1 + NumGroups(r) && Boundary(x.subject, start)
    ensures Halts(x, Program(x.opts, r, sticky), start)
  {
    hide FirstMatch, Program, StepN;
    ProgramCorrect(x, r, sticky, start);
    var m := FirstMatch(x, r, sticky, start);
    var n: nat :| StepN(x, Program(x.opts, r, sticky), Start(x, start), n) == Outcome(m);
    assert Halted(StepN(x, Program(x.opts, r, sticky), Start(x, start), n));
  }

  // ---------------------------------------------------------------- runs that go on

  /** The run from `c` has not halted after `n` steps. */
  ghost predicate Alive(x: Ctx, p: Prog, c: Cfg, n: nat) {
    exists m: nat :: m >= n && !Halted(StepN(x, p, c, m))
  }

  lemma AliveReach(x: Ctx, p: Prog, c: Cfg, c': Cfg, n: nat)
    requires Reaches(x, p, c, c') && Alive(x, p, c', n)
    ensures Alive(x, p, c, n)
  {
    hide Step;
    var k: nat :| StepN(x, p, c, k) == c';
    var m: nat :| m >= n && !Halted(StepN(x, p, c', m));
    StepNAdd(x, p, c, k, m);
    assert !Halted(StepN(x, p, c, k + m));
  }

  lemma AliveStep(x: Ctx, p: Prog, c: Cfg, n: nat)
    requires Alive(x, p, Step(x, p, c), n)
    ensures Alive(x, p, c, n + 1)
  {
    hide Step;
    var m: nat :| m >= n && !Halted(StepN(x, p, Step(x, p, c), m));
    assert !Halted(StepN(x, p, c, m + 1));
  }

  lemma {:induction false} AliveNotHalted(x: Ctx, p: Prog, c: Cfg, n: nat)
    requires Alive(x, p, c, n)
    ensures !Halted(StepN(x, p, c, n))
  {
    hide Step;
    var m: nat :| m >= n && !Halted(StepN(x, p, c, m));
    StepNAdd(x, p, c, n, m - n);
    if Halted(StepN(x, p, c, n)) {
      HaltedStays(x, p, StepN(x, p, c, n), m - n);
    }
  }

  // ---------------------------------------------------------------- greedy loops that refer to themselves

  /** `(?:b)*`. */
  function GreedyLoop(b: Re): Re {
    Quant(b, 0, INT32_MAX, true)
  }

  /** The iterations of such a loop, each ending in the first result of the body: the state after `n` of
      them, or none when one of them has no result. */
  ghost function Iterate(x: Ctx, b: Re, s: St, n: nat): (all: seq<St>)
    requires StOk(x, s) && 1 + NumGroups(b) <= x.ncap
    ensures |all| <= 1
    decreases n
  {
    var first := Results(x, b, false, 1, s);
    if n == 0 then [s] else if |first| == 0 then [] else
      assert first[0] in first;
      Iterate(x, b, first[0], n - 1)
  }

  /** The body has no result after as many iterations as there are states. */
  ghost predicate RunsDry(x: Ctx, b: Re, s: St)
    requires StOk(x, s) && 1 + NumGroups(b) <= x.ncap
  {
    |Iterate(x, b, s, StateCount(x))| == 0
  }

  lemma {:induction false} IterateMore(x: Ctx, b: Re, s: St, m: nat, n: nat)
    requires StOk(x, s) && 1 + NumGroups(b) <= x.ncap
    ensures |Iterate(x, b, s, m)| == 0 ==> |Iterate(x, b, s, m + n)| == 0
    ensures |Iterate(x, b, s, m)| > 0 ==>
              StOk(x, Iterate(x, b, s, m)[0]) && Iterate(x, b, s, m + n) == Iterate(x, b, Iterate(x, b, s, m)[0], n)
    decreases m
  {
    hide Results;
    if m > 0 {
      var first := Results(x, b, false, 1, s);
      if |first| > 0 {
        assert first[0] in first;
        IterateMore(x, b, first[0], m - 1, n);
      }
    }
  }

  /** Iterations that come back to where they began go on for ever. */
  lemma {:induction false} CircleStays(x: Ctx, b: Re, s: St, d: nat, n: nat)
    requires StOk(x, s) && 1 + NumGroups(b) <= x.ncap && d > 0 && Iterate(x, b, s, d) == [s]
    ensures |Iterate(x, b, s, n)| > 0
    decreases n
  {
    hide Iterate;
    if n < d {
      IterateMore(x, b, s, n, d - n);
    } else {
      CircleStays(x, b, s, d, n - d);
      IterateMore(x, b, s, d, n - d);
    }
  }

  /** If the body ever has no result, it has none after as many iterations as there are states. */
  lemma {:induction false} DryInTime(x: Ctx, b: Re, s: St, n: nat)
    requires StOk(x, s) && 1 + NumGroups(b) <= x.ncap && |Iterate(x, b, s, n)| == 0
    ensures RunsDry(x, b, s)
  {
    hide Iterate, StateCount, StOk;
    var top := StateCount(x);
    if n <= top {
      IterateMore(x, b, s, n, top - n);
    } else if |Iterate(x, b, s, top)| > 0 {
      forall k | 0 <= k <= top
        ensures |Iterate(x, b, s, k)| > 0 && StOk(x, Iterate(x, b, s, k)[0])
      {
        IterateMore(x, b, s, k, top - k);
      }
      var states := seq(top + 1, k requires 0 <= k < top + 1 => Iterate(x, b, s, k)[0]);
      var i, j := TwoAlike(x, states);
      IterateMore(x, b, s, i, j - i);
      IterateOne(x, b, states[i], j - i);
      CircleStays(x, b, states[i], j - i, n - i);
      IterateMore(x, b, s, i, n - i);
    }
  }

  lemma {:induction false} IterateOne(x: Ctx, b: Re, s: St, n: nat)
    requires StOk(x, s) && 1 + NumGroups(b) <= x.ncap
    ensures |Iterate(x, b, s, n)| > 0 ==> Iterate(x, b, s, n) == [Iterate(x, b, s, n)[0]]
  {
  }

  /** The loop stands at `pc`; its body is `m` instructions long. */
  ghost predicate LoopSits(x: Ctx, p: Prog, b: Re, pc: int, m: nat)
    requires 1 + NumGroups(b) <= x.ncap
  {
    && 0 <= pc && pc + m + 3 < |p|
    && p[pc] == ISplitNextFirst(m + 1) && p[pc + 1 + m] == IGoto(-(m + 2))
    && Implements(x, p, b, false, 1, pc + 1, pc + 1 + m)
  }

  /** The first result that code produces. */
  lemma GenFirst(x: Ctx, p: Prog, c: Cfg, all: seq<St>, pc: int, stk: seq<int>, base: seq<Saved>)
    returns (d: seq<Saved>)
    requires |all| > 0 && Gen(x, p, c, all, pc, stk, base)
    ensures Choices(d) && Reaches(x, p, c, Run(pc, all[0], stk, base + d))
  {
    d :| Choices(d) && GenVia(x, p, c, all, pc, stk, base, d);
  }

  lemma ChoicesAbove(base: seq<Saved>, s: St, pc: int, e: seq<Saved>)
    requires Choices(base) && Choices(e)
    ensures Choices(base + [Saved(Split, 0, s, pc, [])] + e)
  {
  }

  /** Into the body, out of it again, and past the loop. */
  lemma {:induction false} LoopSteps(x: Ctx, p: Prog, b: Re, pc: int, m: nat, s: St, base: seq<Saved>)
    requires StOk(x, s) && 1 + NumGroups(b) <= x.ncap && LoopSits(x, p, b, pc, m)
    ensures var above := base + [Saved(Split, 0, s, pc + m + 2, [])];
            Step(x, p, Run(pc, s, [], base)) == Run(pc + 1, s, [], above) &&
            Step(x, p, Fail(above)) == Run(pc + m + 2, s, [], base)
    ensures Step(x, p, Run(pc + 1 + m, s, [], base)) == Run(pc, s, [], base)
  {
    hide Implements;
    var above := base + [Saved(Split, 0, s, pc + m + 2, [])];
    assert above[..|above| - 1] == base;
  }

  /** One iteration that has a result leads back to the head of the loop. */
  lemma IterationRun(x: Ctx, p: Prog, b: Re, pc: int, m: nat, s: St, base: seq<Saved>) returns (t: St, d: seq<Saved>)
    requires StOk(x, s) && 1 + NumGroups(b) <= x.ncap && LoopSits(x, p, b, pc, m) && Choices(base)
    requires |Results(x, b, false, 1, s)| > 0
    ensures t == Results(x, b, false, 1, s)[0] && StOk(x, t) && Choices(d)
    ensures Reaches(x, p, Step(x, p, Run(pc, s, [], base)), Run(pc, t, [], d))
  {
    hide Results, Implements, Choices, Step, Reaches, Gen, StOk;
    LoopSteps(x, p, b, pc, m, s, base);
    var all, above := Results(x, b, false, 1, s), base + [Saved(Split, 0, s, pc + m + 2, [])];
    var c := Run(pc + 1, s, [], above);
    ImplementsAt(x, p, b, false, 1, pc + 1, pc + 1 + m, [], s);
    assert Gen(x, p, c, all, pc + 1 + m, [], above);
    var e := GenFirst(x, p, c, all, pc + 1 + m, [], above);
    t, d := all[0], above + e;
    ChoicesAbove(base, s, pc + m + 2, e);
    assert t in all;
    LoopSteps(x, p, b, pc, m, t, d);
    ReachesStep(x, p, Run(pc + 1 + m, t, [], d));
    ReachesTrans(x, p, c, Run(pc + 1 + m, t, [], d), Run(pc, t, [], d));
  }

  /** An iteration without a result leaves the loop. */
  lemma {:induction false} ExitRun(x: Ctx, p: Prog, b: Re, pc: int, m: nat, s: St, base: seq<Saved>)
    requires StOk(x, s) && 1 + NumGroups(b) <= x.ncap && LoopSits(x, p, b, pc, m)
    requires |Results(x, b, false, 1, s)| == 0
    ensures Reaches(x, p, Step(x, p, Run(pc, s, [], base)), Run(pc + m + 2, s, [], base))
  {
    hide Results, Implements, Step, Reaches;
    LoopSteps(x, p, b, pc, m, s, base);
    var above := base + [Saved(Split, 0, s, pc + m + 2, [])];
    var c := Run(pc + 1, s, [], above);
    ImplementsAt(x, p, b, false, 1, pc + 1, pc + 1 + m, [], s);
    assert Gen(x, p, c, [], pc + 1 + m, [], above);
    ReachesStep(x, p, Fail(above));
    ReachesTrans(x, p, c, Fail(above), Run(pc + m + 2, s, [], base));
  }

  lemma {:induction false} LoopAlive(x: Ctx, p: Prog, b: Re, pc: int, m: nat, s: St, base: seq<Saved>, n: nat)
    requires StOk(x, s) && 1 + NumGroups(b) <= x.ncap && LoopSits(x, p, b, pc, m) && Choices(base)
    requires forall k: nat :: |Iterate(x, b, s, k)| > 0
    ensures Alive(x, p, Run(pc, s, [], base), n)
    decreases n
  {
    hide Step, Results, LoopSits, StOk;
    var c := Run(pc, s, [], base);
    if n == 0 {
      assert !Halted(StepN(x, p, c, 0));
    } else {
      assert |Iterate(x, b, s, 1)| > 0;
      var t, d := IterationRun(x, p, b, pc, m, s, base);
      forall k: nat
        ensures |Iterate(x, b, t, k)| > 0
      {
        assert |Iterate(x, b, s, k + 1)| > 0;
      }
      LoopAlive(x, p, b, pc, m, t, d, n - 1);
      AliveReach(x, p, Step(x, p, c), Run(pc, t, [], d), n - 1);
      AliveStep(x, p, c, n - 1);
    }
  }

  lemma {:induction false} LoopEnds(x: Ctx, p: Prog, b: Re, pc: int, m: nat, s: St, base: seq<Saved>, n: nat)
    returns (t: St, d: seq<Saved>)
    requires StOk(x, s) && 1 + NumGroups(b) <= x.ncap && LoopSits(x, p, b, pc, m) && Choices(base)
    requires |Iterate(x, b, s, n)| == 0
    ensures StOk(x, t) && Choices(d) && Reaches(x, p, Run(pc, s, [], base), Run(pc + m + 2, t, [], d))
    decreases n
  {
    hide Step, Results, LoopSits, StOk;
    var c := Run(pc, s, [], base);
    ReachesStep(x, p, c);
    if |Results(x, b, false, 1, s)| == 0 {
      t, d := s, base;
      ExitRun(x, p, b, pc, m, s, base);
      ReachesTrans(x, p, c, Step(x, p, c), Run(pc + m + 2, s, [], base));
    } else {
      var u, e := IterationRun(x, p, b, pc, m, s, base);
      t, d := LoopEnds(x, p, b, pc, m, u, e, n - 1);
      ReachesTrans(x, p, c, Step(x, p, c), Run(pc, u, [], e));
      ReachesTrans(x, p, c, Run(pc, u, [], e), Run(pc + m + 2, t, [], d));
    }
  }

  /** The code of such a loop, which carries no check. */
  lemma {:induction false} LoopCode(o: Opts, b: Re)
    requires CheckAdvance(Code(o, b, false, 1)) == -1
    ensures var body := Code(o, b, false, 1);
            Code(o, Group(GreedyLoop(b)), false, 0) ==
            [ISaveStart(0)] + (ResetCode(1, NumGroups(b)) + StarCode(body, false, true)) + [ISaveEnd(0)]
  {
    hide Code, CheckAdvance, SimpleCount, ResetCode, StarCode;
    RefNotSimple(Code(o, b, false, 1));
    CodeGroup(o, GreedyLoop(b), false, 0);
    LoopQuant(o, b);
  }

  lemma {:induction false} RefNotSimple(body: seq<Instr>)
    requires CheckAdvance(body) == -1
    ensures SimpleCount(body) < 0
  {
    hide SimpleCount;
    var g :| 0 <= g < CAPTURE_COUNT_MAX && AnyMarks(body, g) && AnyRefersTo(body, g);
    var j :| 0 <= j < |body| && MarksCapture(body[j], g);
    NotSimple(body, j);
  }

  lemma {:induction false} LoopQuant(o: Opts, b: Re)
    requires SimpleCount(Code(o, b, false, 1)) < 0 && CheckAdvance(Code(o, b, false, 1)) == -1
    ensures Code(o, GreedyLoop(b), false, 1) ==
            ResetCode(1, NumGroups(b)) + StarCode(Code(o, b, false, 1), false, true)
  {
    hide SimpleCount, CheckAdvance, StarCode, ResetCode;
  }

  /** A group 0 around `inner`, as the whole program. */
  lemma Places(p: Prog, prelude: seq<Instr>, inner: seq<Instr>)
    requires p == prelude + ([ISaveStart(0)] + inner + [ISaveEnd(0)]) + [IMatch]
    ensures var at := |prelude|;
            prelude <= p && |p| == at + |inner| + 3 && p[at] == ISaveStart(0) && Sits(p, at + 1, inner) &&
            p[at + 1 + |inner|] == ISaveEnd(0) && p[at + 2 + |inner|] == IMatch
  {
    hide Sits;
    var code := [ISaveStart(0)] + inner + [ISaveEnd(0)];
    ProgramSits(p, prelude, code);
    WrapSits(p, |prelude|, ISaveStart(0), inner, ISaveEnd(0));
  }

  /** Where the parts of the program stand. */
  lemma {:induction false} LoopProgram(x: Ctx, b: Re, sticky: bool) returns (pc: int, m: nat)
    requires WellFormed(b, 1) && CanonOk(x.opts) && x.ncap == 1 + NumGroups(b) && !NoInnerRefs(b, 1)
    ensures var p, at := Program(x.opts, GreedyLoop(b), sticky), |Prelude(sticky)|;
            LoopSits(x, p, b, pc, m) && 0 <= pc && pc + m + 3 < |p| && p[pc + m + 2] == ISaveEnd(0) &&
            p[pc + m + 3] == IMatch &&
            Prelude(sticky) <= p && at + 1 < |p| && p[at] == ISaveStart(0) &&
            pc == at + 1 + |ResetCode(1, NumGroups(b))| &&
            Sits(p, at + 1, ResetCode(1, NumGroups(b)))
  {
    hide Code, WellFormed, NoInnerRefs, Sits, CheckAdvance, ResetCode, StarCode, LoopSits, NumGroups;
    var p, at, body := Program(x.opts, GreedyLoop(b), sticky), |Prelude(sticky)|, Code(x.opts, b, false, 1);
    var reset, star := ResetCode(1, NumGroups(b)), StarCode(body, false, true);
    WellFormedParsed(b, 1);
    CheckAdvanceSound(x.opts, b, false, 1);
    LoopCode(x.opts, b);
    Places(p, Prelude(sticky), reset + star);
    SitsConcat(p, at + 1, reset, star);
    pc, m := at + 1 + |reset|, |body|;
    StarLength(body);
    StarSits(x, p, b, pc);
  }

  lemma StarLength(body: seq<Instr>)
    ensures |StarCode(body, false, true)| == |body| + 2
  {
  }

  lemma {:induction false} StarSits(x: Ctx, p: Prog, b: Re, pc: int)
    requires WellFormed(b, 1) && CanonOk(x.opts) && 1 + NumGroups(b) <= x.ncap
    requires 0 <= pc && pc + |Code(x.opts, b, false, 1)| + 3 < |p|
    requires Sits(p, pc, StarCode(Code(x.opts, b, false, 1), false, true))
    ensures LoopSits(x, p, b, pc, |Code(x.opts, b, false, 1)|)
  {
    hide Code, WellFormed, Sits, Implements;
    var body := Code(x.opts, b, false, 1);
    var star := StarCode(body, false, true);
    StarBodySits(p, pc, body, false, true);
    SitsAt(p, pc, star, 0);
    SitsAt(p, pc, star, 1 + |body|);
    assert p[pc] == ISplitNextFirst(|body| + 1) && p[pc + 1 + |body|] == IGoto(-(|body| + 2));
    Compiles(x, p, b, false, 1, pc + 1);
  }

  /** The state in which the loop is entered. */
  function Entered(x: Ctx, b: Re, start: nat): (s: St)
    requires Boundary(x.subject, start) && x.ncap == 1 + NumGroups(b)
    ensures StOk(x, s)
  {
    Forget(x, 1, NumGroups(b), Enter(x, false, 0, St(start, NoCaps(x.ncap))))
  }

  lemma {:induction false} LoopBegins(x: Ctx, b: Re, sticky: bool, start: nat, pc: int)
    requires Boundary(x.subject, start) && x.ncap == 1 + NumGroups(b)
    requires var p, at := Program(x.opts, GreedyLoop(b), sticky), |Prelude(sticky)|;
             Prelude(sticky) <= p && at + 1 < |p| && p[at] == ISaveStart(0) &&
             pc == at + 1 + |ResetCode(1, NumGroups(b))| && Sits(p, at + 1, ResetCode(1, NumGroups(b)))
    ensures Reaches(x, Program(x.opts, GreedyLoop(b), sticky), Start(x, start),
                    Run(pc, Entered(x, b, start), [], Base(sticky, St(start, NoCaps(x.ncap)))))
  {
    hide Program, WellFormed, Reaches, Sits, NumGroups;
    var p, at, s := Program(x.opts, GreedyLoop(b), sticky), |Prelude(sticky)|, St(start, NoCaps(x.ncap));
    var base, inside := Base(sticky, s), Enter(x, false, 0, s);
    var c0, c1 := Run(at, s, [], base), Run(at + 1, inside, [], base);
    Begins(x, p, sticky, start);
    ReachesStep(x, p, c0);
    ReachesTrans(x, p, Start(x, start), c0, c1);
    if NumGroups(b) == 0 {
      ForgetNothing(x, 1, inside);
    } else {
      SitsAt(p, at + 1, ResetCode(1, NumGroups(b)), 0);
      ReachesStep(x, p, c1);
      ReachesTrans(x, p, Start(x, start), c1, Run(pc, Entered(x, b, start), [], base));
    }
  }

  lemma {:induction false} NeverRunsDry(x: Ctx, b: Re, s: St)
    requires StOk(x, s) && 1 + NumGroups(b) <= x.ncap && !RunsDry(x, b, s)
    ensures forall n: nat :: |Iterate(x, b, s, n)| > 0
  {
    hide Iterate, RunsDry;
    forall n: nat
      ensures |Iterate(x, b, s, n)| > 0
    {
      if |Iterate(x, b, s, n)| == 0 {
        DryInTime(x, b, s, n);
      }
    }
  }

  /** Once the body has no result, the loop is left and the match is complete. */
  lemma {:induction false} DryHalts(x: Ctx, p: Prog, b: Re, pc: int, m: nat, s: St, base: seq<Saved>)
    requires StOk(x, s) && 1 + NumGroups(b) <= x.ncap && LoopSits(x, p, b, pc, m) && Choices(base) && RunsDry(x, b, s)
    requires 0 <= pc && pc + m + 3 < |p| && p[pc + m + 2] == ISaveEnd(0) && p[pc + m + 3] == IMatch
    ensures exists u :: Reaches(x, p, Run(pc, s, [], base), Matched(u))
  {
    hide LoopSits, Step, Iterate, StOk, Reaches, Results;
    var t, d := LoopEnds(x, p, b, pc, m, s, base, StateCount(x));
    LeavesMatch(x, p, pc + m + 2, t, d);
    ReachesTrans(x, p, Run(pc, s, [], base), Run(pc + m + 2, t, [], d), Matched(Leave(x, false, 0, t)));
  }

  lemma HaltsFrom(x: Ctx, p: Prog, start: nat, c: Cfg)
    requires Reaches(x, p, Start(x, start), c) && exists u :: Reaches(x, p, c, Matched(u))
    ensures Halts(x, p, start)
  {
    hide Step;
    var u :| Reaches(x, p, c, Matched(u));
    ReachesTrans(x, p, Start(x, start), c, Matched(u));
    var n: nat :| StepN(x, p, Start(x, start), n) == Matched(u);
    assert Halted(StepN(x, p, Start(x, start), n));
  }

  lemma RunsOnFrom(x: Ctx, p: Prog, start: nat, c: Cfg)
    requires Reaches(x, p, Start(x, start), c) && forall n: nat :: Alive(x, p, c, n)
    ensures !Halts(x, p, start)
  {
    hide Step, Reaches, Alive;
    forall n: nat
      ensures !Halted(StepN(x, p, Start(x, start), n))
    {
      AliveReach(x, p, Start(x, start), c, n);
      AliveNotHalted(x, p, Start(x, start), n);
    }
  }

  /** A greedy loop whose body refers to a group that it writes carries no check.  It halts exactly when
      iterating the body, each time with its first result, comes to a state from which the body has none, and
      it does so within as many iterations as there are states or never. */
  lemma {:induction false} RefLoopHalts(x: Ctx, b: Re, sticky: bool, start: nat)
    requires WellFormed(b, 1) && CanonOk(x.opts) && x.ncap == 1 + NumGroups(b) && Boundary(x.subject, start)
    requires !NoInnerRefs(b, 1)
    ensures Halts(x, Program(x.opts, GreedyLoop(b), sticky), start) <==> RunsDry(x, b, Entered(x, b, start))
  {
    hide Program, WellFormed, NoInnerRefs, Sits, LoopSits, Step, Entered, Iterate, RunsDry, StOk, Alive, Reaches,
      Results,
      Halts;
    var p, s := Program(x.opts, GreedyLoop(b), sticky), Entered(x, b, start);
    var base := Base(sticky, St(start, NoCaps(x.ncap)));
    var pc, m := LoopProgram(x, b, sticky);
    LoopBegins(x, b, sticky, start, pc);
    if RunsDry(x, b, s) {
      DryHalts(x, p, b, pc, m, s, base);
      HaltsFrom(x, p, start, Run(pc, s, [], base));
    } else {
      NeverRunsDry(x, b, s);
      forall n: nat
        ensures Alive(x, p, Run(pc, s, [], base), n)
      {
        LoopAlive(x, p, b, pc, m, s, base, n);
      }
      RunsOnFrom(x, p, start, Run(pc, s, [], base));
    }
  }

  /** A body that has a result everywhere never runs dry. */
  lemma {:induction false} NeverDry(x: Ctx, b: Re, s: St, n: nat)
    requires StOk(x, s) && 1 + NumGroups(b) <= x.ncap
    requires forall t :: StOk(x, t) ==> |Results(x, b, false, 1, t)| > 0
    ensures |Iterate(x, b, s, n)| > 0
    decreases n
  {
    hide Results;
    if n > 0 {
      var first := Results(x, b, false, 1, s);
      assert first[0] in first;
      NeverDry(x, b, first[0], n - 1);
    }
  }

  /** `(?:(c?)\1)*`: on no subject does it halt. */
  lemma OptionalRefNeverHalts(x: Ctx, c: nat, sticky: bool, start: nat)
    requires CanonOk(x.opts) && x.ncap == 2 && Boundary(x.subject, start)
    ensures !Halts(x, Program(x.opts, GreedyLoop(OptionalRef(c)), sticky), start)
  {
    hide Program, Results, StOk;
    OptionalRefShape(c);
    var b, s := OptionalRef(c), Entered(x, OptionalRef(c), start);
    RefLoopHalts(x, b, sticky, start);
    forall t | StOk(x, t)
      ensures |Results(x, b, false, 1, t)| > 0
    {
      OptionalRefMatches(x, c, t);
    }
    NeverDry(x, b, s, StateCount(x));
  }

  function OptionalRef(c: nat): Re {
    Cat(Group(Quant(Char(c), 0, 1, true)), BackRef(1))
  }

  lemma OptionalRefShape(c: nat)
    ensures WellFormed(OptionalRef(c), 1) && NumGroups(OptionalRef(c)) == 1 && !NoInnerRefs(OptionalRef(c), 1)
  {
    var atom := Quant(Char(c), 0, 1, true);
    assert NumGroups(Char(c)) == 0 && WellFormed(Char(c), 2);
    assert NumGroups(atom) == NumGroups(Char(c)) && WellFormed(atom, 2);
    assert WellFormed(Group(atom), 1) && NumGroups(Group(atom)) == 1 && Writes(Group(atom), 1, 1);
    assert WellFormed(BackRef(1), 2) && NumGroups(BackRef(1)) == 0;
    assert Writes(OptionalRef(c), 1, 1) && 1 in BackRefs(OptionalRef(c));
  }

  /** Leaving the character out, the group is empty and so is the reference. */
  lemma {:induction false} OptionalRefMatches(x: Ctx, c: nat, s: St)
    requires x.ncap == 2 && StOk(x, s)
    ensures 1 + NumGroups(OptionalRef(c)) <= x.ncap && |Results(x, OptionalRef(c), false, 1, s)| > 0
  {
    hide Results, FlatMap, LeaveAll;
    var atom, inside := Quant(Char(c), 0, 1, true), Enter(x, false, 1, s);
    OptionalRefShape(c);
    OptionalChar(x, c, 2, inside);
    var all := Results(x, atom, false, 2, inside);
    ResultsGroup(x, atom, false, 1, s);
    var groups := Results(x, Group(atom), false, 1, s);
    var i :| 0 <= i < |all| && all[i] == inside;
    var u := groups[i];
    assert u == Leave(x, false, 1, inside) && u in groups;
    EmptyRef(x, u);
    ResultsCat(x, Group(atom), BackRef(1), false, 1, s);
    FlatMapSome(x, false, s.pos, groups, Then(BackRef(1), 2), u);
  }

  lemma {:induction false} EmptyRef(x: Ctx, u: St)
    requires x.ncap == 2 && StOk(x, u) && u.caps[2] == u.caps[3] != NULL
    ensures |Results(x, BackRef(1), false, 2, u)| > 0
  {
  }

  /** An optional character may be left out. */
  lemma {:induction false} OptionalChar(x: Ctx, c: nat, k: nat, s: St)
    requires StOk(x, s) && k <= x.ncap
    ensures s in Results(x, Quant(Char(c), 0, 1, true), false, k, s)
  {
    hide FlatMap;
    ForgetNothing(x, k, s);
    NoIterations(x, Char(c), false, k, true, s);
    FlatMapOne(x, false, s.pos, s, Rest(Char(c), k, 0, 1, true));
  }

  lemma {:induction false} FlatMapSome(x: Ctx, back: bool, p: nat, all: seq<St>, f: Cont, t: St)
    requires Good(x, back, p, all) && ContOk(x, f, p) && t in all && |Continue(x, back, p, f, t)| > 0
    ensures |FlatMap(x, back, p, all, f)| > 0
    decreases |all|
  {
    hide Continue;
    if t != all[0] {
      FlatMapSome(x, back, p, all[1..], f, t);
    }
  }

  // ---------------------------------------------------------------- lazy loops

  /** `(?:)*?r`: a lazy loop over an empty body. */
  function LazyLoop(r: Re): Re {
    Cat(Quant(Empty, 0, INT32_MAX, false), r)
  }

  /** The loop, the code of `r` behind it and the end of the program, from `pc` on. */
  ghost predicate LazySits(x: Ctx, p: Prog, r: Re, pc: int, m: nat)
    requires 1 + NumGroups(r) <= x.ncap
  {
    && 0 < pc && pc + m + 3 < |p|
    && p[pc - 1] == ISaveStart(0) && p[pc] == ISplitGotoFirst(1) && p[pc + 1] == IGoto(-2)
    && Implements(x, p, r, false, 1, pc + 2, pc + 2 + m)
    && p[pc + m + 2] == ISaveEnd(0) && p[pc + m + 3] == IMatch
  }

  lemma {:induction false} LazyCode(o: Opts, r: Re)
    ensures NumGroups(LazyLoop(r)) == NumGroups(r)
    ensures Code(o, LazyLoop(r), false, 1) == [ISplitGotoFirst(1), IGoto(-2)] + Code(o, r, false, 1)
  {
    hide Code;
    LazyParts(o);
    CodeCat(o, Quant(Empty, 0, INT32_MAX, false), r, false, 1);
  }

  lemma {:induction false} LazyParts(o: Opts)
    ensures var loop := Quant(Empty, 0, INT32_MAX, false);
            NumGroups(loop) == 0 && Code(o, loop, false, 1) == [ISplitGotoFirst(1), IGoto(-2)]
  {
    CodeQuant(o, Empty, 0, INT32_MAX, false, false, 1);
    assert Code(o, Empty, false, 1) == [] && NumGroups(Empty) == 0;
    assert NumGroups(Quant(Empty, 0, INT32_MAX, false)) == NumGroups(Empty);
  }

  lemma {:induction false} LazyProgram(x: Ctx, r: Re, sticky: bool) returns (pc: int, m: nat)
    requires WellFormed(r, 1) && CanonOk(x.opts) && x.ncap == 1 + NumGroups(r)
    ensures var p := Program(x.opts, LazyLoop(r), sticky);
            LazySits(x, p, r, pc, m) && pc == |Prelude(sticky)| + 1 && Prelude(sticky) <= p &&
            pc < |p| && p[pc - 1] == ISaveStart(0)
  {
    hide Code, WellFormed, Sits, Implements, NumGroups, LazyLoop, LazySits;
    var o, at := x.opts, |Prelude(sticky)|;
    var p, body := Program(o, LazyLoop(r), sticky), Code(o, r, false, 1);
    var loop := [ISplitGotoFirst(1), IGoto(-2)];
    pc, m := at + 1, |body|;
    LazyCode(o, r);
    CodeGroup(o, LazyLoop(r), false, 0);
    Places(p, Prelude(sticky), loop + body);
    LazyAt(x, p, r, pc, loop, body);
  }

  lemma {:induction false} LazyAt(x: Ctx, p: Prog, r: Re, pc: int, loop: Prog, body: Prog)
    requires WellFormed(r, 1) && CanonOk(x.opts) && x.ncap == 1 + NumGroups(r)
    requires loop == [ISplitGotoFirst(1), IGoto(-2)] && body == Code(x.opts, r, false, 1)
    requires 0 < pc && pc + |body| + 3 < |p| && p[pc - 1] == ISaveStart(0) && Sits(p, pc, loop + body)
    requires p[pc + |body| + 2] == ISaveEnd(0) && p[pc + |body| + 3] == IMatch
    ensures LazySits(x, p, r, pc, |body|)
  {
    hide Code, WellFormed, Sits, Implements, NumGroups;
    SitsConcat(p, pc, loop, body);
    SitsAt(p, pc, loop, 0);
    SitsAt(p, pc, loop, 1);
    Compiles(x, p, r, false, 1, pc + 2);
  }

  /** Where the loop is left at once for `r`, above the saved state of the loop. */
  lemma {:induction false} LazyStep(x: Ctx, p: Prog, r: Re, pc: int, m: nat, s: St, base: seq<Saved>)
    requires 1 + NumGroups(r) <= x.ncap && LazySits(x, p, r, pc, m) && StOk(x, s)
    ensures var above := base + [Saved(Split, 0, s, pc + 1, [])];
            Step(x, p, Run(pc, s, [], base)) == Run(pc + 2, s, [], above) &&
            Step(x, p, Fail(above)) == Run(pc + 1, s, [], base) &&
            Step(x, p, Run(pc + 1, s, [], base)) == Run(pc, s, [], base) &&
            Gen(x, p, Run(pc + 2, s, [], above), Results(x, r, false, 1, s), pc + 2 + m, [], above)
  {
    hide Results, Implements, Gen;
    var above := base + [Saved(Split, 0, s, pc + 1, [])];
    assert above[..|above| - 1] == base;
    ImplementsAt(x, p, r, false, 1, pc + 2, pc + 2 + m, [], s);
    TurnsAt(x, p, pc + 2, [], s, Results(x, r, false, 1, s), pc + 2 + m, [], above);
  }

  lemma {:induction false} TurnsAt(x: Ctx, p: Prog, pc: int, stk: seq<int>, s: St, all: seq<St>, end: int,
                                   stk': seq<int>,
                                   base: seq<Saved>)
    requires Turns(x, p, pc, stk, s, all, end, stk')
    ensures Gen(x, p, Run(pc, s, stk, base), all, end, stk', base)
  {
    hide Gen;
  }

  /** Without a result of `r` the loop comes back to its head in the same state, again and again. */
  lemma {:induction false} LazyAlive(x: Ctx, p: Prog, r: Re, pc: int, m: nat, s: St, base: seq<Saved>, n: nat)
    requires 1 + NumGroups(r) <= x.ncap && LazySits(x, p, r, pc, m) && StOk(x, s) && |Results(x, r, false, 1, s)| == 0
    ensures Alive(x, p, Run(pc, s, [], base), n)
    decreases n
  {
    hide Step, Results, LazySits, StOk, Reaches;
    var c, above := Run(pc, s, [], base), base + [Saved(Split, 0, s, pc + 1, [])];
    if n == 0 {
      assert !Halted(StepN(x, p, c, 0));
    } else {
      LazyAlive(x, p, r, pc, m, s, base, n - 1);
      LazyStep(x, p, r, pc, m, s, base);
      ReachesStep(x, p, Fail(above));
      ReachesStep(x, p, Run(pc + 1, s, [], base));
      ReachesTrans(x, p, Run(pc + 2, s, [], above), Fail(above), Run(pc + 1, s, [], base));
      ReachesTrans(x, p, Run(pc + 2, s, [], above), Run(pc + 1, s, [], base), c);
      AliveReach(x, p, Run(pc + 2, s, [], above), c, n - 1);
      AliveStep(x, p, c, n - 1);
    }
  }

  /** With a result of `r` the loop is left without an iteration. */
  lemma {:induction false} LazyEnds(x: Ctx, p: Prog, r: Re, pc: int, m: nat, s: St, base: seq<Saved>)
    requires 1 + NumGroups(r) <= x.ncap && LazySits(x, p, r, pc, m) && StOk(x, s) && Choices(base)
    requires |Results(x, r, false, 1, s)| > 0
    ensures exists u :: Reaches(x, p, Run(pc, s, [], base), Matched(u))
  {
    hide Step, Results, Reaches, Choices, Gen;
    var c, above := Run(pc, s, [], base), base + [Saved(Split, 0, s, pc + 1, [])];
    var all := Results(x, r, false, 1, s);
    LazyStep(x, p, r, pc, m, s, base);
    ReachesStep(x, p, c);
    var d := GenFirst(x, p, Run(pc + 2, s, [], above), all, pc + 2 + m, [], above);
    ChoicesAbove(base, s, pc + 1, d);
    var t := all[0];
    assert t in all;
    LeavesMatch(x, p, pc + 2 + m, t, above + d);
    ReachesTrans(x, p, c, Run(pc + 2, s, [], above), Run(pc + 2 + m, t, [], above + d));
    ReachesTrans(x, p, c, Run(pc + 2 + m, t, [], above + d), Matched(Leave(x, false, 0, t)));
  }

  /** Lazy loops carry no check.  A lazy loop over an empty body, followed by any well-formed pattern, halts
      exactly when that pattern has a result at the start. */
  lemma {:induction false} LazyLoopHalts(x: Ctx, r: Re, sticky: bool, start: nat)
    requires WellFormed(r, 1) && CanonOk(x.opts) && x.ncap == 1 + NumGroups(r) && Boundary(x.subject, start)
    ensures Halts(x, Program(x.opts, LazyLoop(r), sticky), start) <==>
            |Results(x, r, false, 1, Attempt(x, start))| > 0
  {
    hide Program, WellFormed, LazySits, Step, StOk, Alive, Reaches, Results, Halts, LazyLoop;
    var p, s := Program(x.opts, LazyLoop(r), sticky), St(start, NoCaps(x.ncap));
    var base, inside := Base(sticky, s), Attempt(x, start);
    var pc, m := LazyProgram(x, r, sticky);
    Begins(x, p, sticky, start);
    StartInRange(x, start);
    SaveRun(x, p, pc - 1, s, base);
    ReachesTrans(x, p, Start(x, start), Run(pc - 1, s, [], base), Run(pc, inside, [], base));
    if |Results(x, r, false, 1, inside)| > 0 {
      LazyEnds(x, p, r, pc, m, inside, base);
      HaltsFrom(x, p, start, Run(pc, inside, [], base));
    } else {
      forall n: nat
        ensures Alive(x, p, Run(pc, inside, [], base), n)
      {
        LazyAlive(x, p, r, pc, m, inside, base, n);
      }
      RunsOnFrom(x, p, start, Run(pc, inside, [], base));
    }
  }

  lemma StartInRange(x: Ctx, start: nat)
    requires Boundary(x.subject, start)
    ensures InRange(x, St(start, NoCaps(x.ncap)))
  {
  }
}
