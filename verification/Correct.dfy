/** Compiled code computes the results of the reference matcher, in order. */
module Correct {
  import opened Subject
  import opened Regex
  import opened Matcher
  import opened Machine
  import opened Simulation
  import opened Codegen
  import opened Analysis
  import ClassCode

  /** `code` stands in the program at `pc`. */
  predicate Sits(p: Prog, pc: int, code: seq<Instr>) {
    0 <= pc && pc + |code| <= |p| && p[pc..pc + |code|] == code
  }

  lemma SitsConcat(p: Prog, pc: int, a: seq<Instr>, b: seq<Instr>)
    requires Sits(p, pc, a + b)
    ensures Sits(p, pc, a) && Sits(p, pc + |a|, b)
  {
    assert a == (a + b)[..|a|] == p[pc..pc + |a|];
    assert b == (a + b)[|a|..] == p[pc + |a|..pc + |a| + |b|];
  }

  lemma SitsAt(p: Prog, pc: int, code: seq<Instr>, j: nat)
    requires Sits(p, pc, code) && j < |code|
    ensures p[pc + j] == code[j]
  {
    assert code[j] == p[pc..pc + |code|][j];
  }

  /** The code from `pc` to `end` turns every state into its results, whatever is on the stacks. */
  ghost predicate Implements(x: Ctx, p: Prog, r: Re, back: bool, k: nat, pc: int, end: int)
    requires k + NumGroups(r) <= x.ncap
  {
    forall s, stk :: StOk(x, s) ==> Turns(x, p, pc, stk, s, Results(x, r, back, k, s), end, stk)
  }

  lemma {:induction false} ImplementsAt(x: Ctx, p: Prog, r: Re, back: bool, k: nat, pc: int, end: int, stk: seq<int>,
                                        s: St)
    requires k + NumGroups(r) <= x.ncap && StOk(x, s) && Implements(x, p, r, back, k, pc, end)
    ensures Turns(x, p, pc, stk, s, Results(x, r, back, k, s), end, stk)
  {
  }

  // ---------------------------------------------------------------- equations of the matcher

  lemma {:induction false} ResultsCat(x: Ctx, a: Re, b: Re, back: bool, k: nat, s: St)
    requires StOk(x, s) && k + NumGroups(a) + NumGroups(b) <= x.ncap
    ensures Results(x, Cat(a, b), back, k, s) ==
            if back then FlatMap(x, back, s.pos, Results(x, b, back, k + NumGroups(a), s), Then(a, k))
            else FlatMap(x, back, s.pos, Results(x, a, back, k, s), Then(b, k + NumGroups(a)))
  {
    hide FlatMap, StOk, Good, LeaveAll, LookResults, QuantResults, OneChar, OneBackRef, NumGroups;
  }

  lemma {:induction false} ResultsAlt(x: Ctx, a: Re, b: Re, back: bool, k: nat, s: St)
    requires StOk(x, s) && k + NumGroups(a) + NumGroups(b) <= x.ncap
    ensures Results(x, Alt(a, b), back, k, s) == Results(x, a, back, k, s) + Results(x, b, back, k + NumGroups(a), s)
  {
    hide FlatMap, StOk, Good, LeaveAll, LookResults, QuantResults, OneChar, OneBackRef, NumGroups;
  }

  // ---------------------------------------------------------------- straight-line instructions

  lemma BasicTurns(x: Ctx, p: Prog, pc: int, stk: seq<int>, s: St)
    requires InRange(x, s) && 0 <= pc < |p| && Basic(p[pc]) && CapturesFit(p[pc], x.ncap)
    ensures Turns(x, p, pc, stk, s, Eval(x, p[pc], s), pc + 1, stk)
  {
    var r := Eval(x, p[pc], s);
    if |r| == 0 {
      TurnsFail(x, p, pc, stk, s, pc + 1, stk);
    } else {
      assert r == [r[0]];
      TurnsHere(x, p, pc + 1, stk, r[0]);
      TurnsStep(x, p, pc, stk, s, pc + 1, stk, r[0], r, pc + 1, stk);
    }
  }

  /** A straight-line instruction, then the rest. */
  lemma BasicThen(x: Ctx, p: Prog, pc: int, stk: seq<int>, s: St, all: seq<St>, pc': int, stk': seq<int>)
    requires InRange(x, s) && 0 <= pc < |p| && Basic(p[pc]) && CapturesFit(p[pc], x.ncap)
    requires |Eval(x, p[pc], s)| == 0 ==> |all| == 0
    requires |Eval(x, p[pc], s)| > 0 ==> Turns(x, p, pc + 1, stk, Eval(x, p[pc], s)[0], all, pc', stk')
    ensures Turns(x, p, pc, stk, s, all, pc', stk')
  {
    var r := Eval(x, p[pc], s);
    if |r| == 0 {
      assert all == [];
      TurnsFail(x, p, pc, stk, s, pc', stk');
    } else {
      TurnsStep(x, p, pc, stk, s, pc + 1, stk, r[0], all, pc', stk');
    }
  }

  // ---------------------------------------------------------------- characters

  /** The emitted character instruction accepts what the pattern accepts. */
  lemma {:induction false} AcceptsSame(o: Opts, r: Re, c: nat)
    requires (r.Char? || r.Set? || r.Dot?) && WellFormed(r, 0) && CanonOk(o) && c <= 0x10_FFFF
    ensures Reads(CharInstr(o, r)) && (TestChar(o, CharInstr(o, r), c) <==> Accepts(o, r, c))
    ensures r.Char? ==>
              (TestChar(o, CharInstr(o, r), c) <==>
               c == r.c || (o.ignoreCase && (if c in o.canon then o.canon[c] else c) ==
                                            (if r.c in o.canon then o.canon[r.c] else r.c)))
  {
    if r.Set? {
      ClassCode.RoundTrip(r.points, Canon(o, c));
    }
  }

  lemma {:induction false} OneCharForward(x: Ctx, p: Prog, r: Re, pc: int, stk: seq<int>, s: St)
    requires (r.Char? || r.Set? || r.Dot?) && WellFormed(r, 0) && CanonOk(x.opts) && StOk(x, s)
    requires Sits(p, pc, CharCode(CharInstr(x.opts, r), false))
    ensures Turns(x, p, pc, stk, s, OneChar(x, r, false, s), pc + 1, stk)
  {
    SitsAt(p, pc, CharCode(CharInstr(x.opts, r), false), 0);
    if s.pos < Len(x) {
      AcceptsSame(x.opts, r, CharAt(x.subject, s.pos));
    } else {
      AcceptsSame(x.opts, r, 0);
    }
    BasicTurns(x, p, pc, stk, s);
  }

  lemma {:induction false} OneCharBackward(x: Ctx, p: Prog, r: Re, pc: int, stk: seq<int>, s: St)
    requires (r.Char? || r.Set? || r.Dot?) && WellFormed(r, 0) && CanonOk(x.opts) && StOk(x, s)
    requires Sits(p, pc, CharCode(CharInstr(x.opts, r), true))
    ensures Turns(x, p, pc, stk, s, OneChar(x, r, true, s), pc + 3, stk)
  {
    var code := CharCode(CharInstr(x.opts, r), true);
    SitsAt(p, pc, code, 0);
    SitsAt(p, pc, code, 1);
    SitsAt(p, pc, code, 2);
    var all := OneChar(x, r, true, s);
    if s.pos > 0 {
      var t := St(PrevPos(x.subject, s.pos), s.caps);
      NextPrev(x.subject, s.pos);
      AcceptsSame(x.opts, r, CharAt(x.subject, t.pos));
      assert InRange(x, t);
      if all != [] {
        TurnsHere(x, p, pc + 3, stk, t);
        BasicThen(x, p, pc + 2, stk, s, all, pc + 3, stk);
      }
      BasicThen(x, p, pc + 1, stk, t, all, pc + 3, stk);
    }
    BasicThen(x, p, pc, stk, s, all, pc + 3, stk);
  }

  // ---------------------------------------------------------------- back references

  /** Reading a capture whose ends are character boundaries never stops inside a pair. */
  lemma {:induction false} CompareForwardSame(x: Ctx, i: nat, e: nat, p: nat)
    requires Boundary(x.subject, i) && Boundary(x.subject, e) && Boundary(x.subject, p)
    ensures CompareForward(x, i, e, p) == Repeated(x, i, e, p)
    decreases e - i
  {
    if i < e && p < Len(x) {
      NextPrev(x.subject, i);
      NextPrev(x.subject, p);
      assert NextTo(x.subject, i, e) == NextPos(x.subject, i) && CharTo(x.subject, i, e) == CharAt(x.subject, i);
      CompareForwardSame(x, NextPos(x.subject, i), e, NextPos(x.subject, p));
    }
  }

  lemma {:induction false} CompareBackwardSame(x: Ctx, b: nat, i: nat, p: nat)
    requires Boundary(x.subject, b) && Boundary(x.subject, i) && Boundary(x.subject, p)
    ensures CompareBackward(x, b, i, p) == RepeatedBefore(x, b, i, p)
    decreases i
  {
    if b < i && p > 0 {
      NextPrev(x.subject, i);
      NextPrev(x.subject, p);
      assert PrevTo(x.subject, i, b) == PrevPos(x.subject, i);
      assert PrevCharTo(x.subject, i, b) == PeekPrev(x.subject, i);
      CompareBackwardSame(x, b, PrevPos(x.subject, i), PrevPos(x.subject, p));
    }
  }

  lemma BackRefTurns(x: Ctx, p: Prog, g: nat, back: bool, pc: int, stk: seq<int>, s: St)
    requires StOk(x, s)
    requires Sits(p, pc, [if back then IBackwardBackRef(g) else IBackRef(g)])
    ensures Turns(x, p, pc, stk, s, OneBackRef(x, g, back, s), pc + 1, stk)
  {
    SitsAt(p, pc, [if back then IBackwardBackRef(g) else IBackRef(g)], 0);
    if g < x.ncap && s.caps[2 * g] != NULL && s.caps[2 * g + 1] != NULL {
      if back {
        CompareBackwardSame(x, s.caps[2 * g], s.caps[2 * g + 1], s.pos);
      } else {
        CompareForwardSame(x, s.caps[2 * g], s.caps[2 * g + 1], s.pos);
      }
    }
    BasicTurns(x, p, pc, stk, s);
  }

  // ---------------------------------------------------------------- branching

  /** A branch instruction: the code after it and the code it jumps to, in the order of `greedy`. */
  lemma BranchTurns(x: Ctx, p: Prog, greedy: bool, off: int, pc: int, stk: seq<int>, s: St, body: seq<St>,
                    exit: seq<St>, end: int, stk': seq<int>)
    requires InRange(x, s) && 0 <= pc < |p| && p[pc] == Branch(greedy, off)
    requires Turns(x, p, pc + 1, stk, s, body, end, stk') && Turns(x, p, pc + 1 + off, stk, s, exit, end, stk')
    ensures Turns(x, p, pc, stk, s, if greedy then body + exit else exit + body, end, stk')
  {
    if greedy {
      TurnsSplit(x, p, pc, s, stk, pc + 1, pc + 1 + off, body, exit, end, stk');
    } else {
      TurnsSplit(x, p, pc, s, stk, pc + 1 + off, pc + 1, exit, body, end, stk');
    }
  }

  lemma GotoTurns(x: Ctx, p: Prog, off: int, pc: int, stk: seq<int>, s: St, all: seq<St>, end: int, stk': seq<int>)
    requires InRange(x, s) && 0 <= pc < |p| && p[pc] == IGoto(off)
    requires Turns(x, p, pc + 1 + off, stk, s, all, end, stk')
    ensures Turns(x, p, pc, stk, s, all, end, stk')
  {
    TurnsStep(x, p, pc, stk, s, pc + 1 + off, stk, s, all, end, stk');
  }

  lemma PushTurns(x: Ctx, p: Prog, n: nat, pc: int, stk: seq<int>, s: St, all: seq<St>, end: int, stk': seq<int>)
    requires InRange(x, s) && 0 <= pc < |p|
    requires p[pc] == IPushI32(n) || (p[pc] == IPushCharPos && n == s.pos)
    requires Turns(x, p, pc + 1, stk + [n], s, all, end, stk')
    ensures Turns(x, p, pc, stk, s, all, end, stk')
  {
    TurnsStep(x, p, pc, stk, s, pc + 1, stk + [n], s, all, end, stk');
  }

  lemma DropTurns(x: Ctx, p: Prog, pc: int, stk: seq<int>, n: int, s: St, all: seq<St>, end: int, stk': seq<int>)
    requires InRange(x, s) && 0 <= pc < |p| && p[pc] == IDrop
    requires Turns(x, p, pc + 1, stk, s, all, end, stk')
    ensures Turns(x, p, pc, stk + [n], s, all, end, stk')
  {
    assert (stk + [n])[..|stk + [n]| - 1] == stk;
    TurnsStep(x, p, pc, stk + [n], s, pc + 1, stk, s, all, end, stk');
  }

  /** The zero-advance check: fall through at the remembered position, jump back elsewhere. */
  lemma BneTurns(x: Ctx, p: Prog, off: int, pc: int, stk: seq<int>, q: nat, s: St, all: seq<St>, end: int,
                 stk': seq<int>)
    requires InRange(x, s) && 0 <= pc < |p| && p[pc] == IBneCharPos(off)
    requires Turns(x, p, if s.pos == q then pc + 1 else pc + 1 + off, stk, s, all, end, stk')
    ensures Turns(x, p, pc, stk + [q], s, all, end, stk')
  {
    assert (stk + [q])[..|stk + [q]| - 1] == stk;
    TurnsStep(x, p, pc, stk + [q], s, if s.pos == q then pc + 1 else pc + 1 + off, stk, s, all, end, stk');
  }

  lemma AltTurns(x: Ctx, p: Prog, a: Re, b: Re, back: bool, k: nat, m: nat, n: nat, pc: int, stk: seq<int>, s: St)
    requires StOk(x, s) && k + NumGroups(a) + NumGroups(b) <= x.ncap
    requires 0 <= pc && pc + m + n + 2 <= |p| && p[pc] == ISplitNextFirst(m + 1) && p[pc + 1 + m] == IGoto(n)
    requires Implements(x, p, a, back, k, pc + 1, pc + 1 + m)
    requires Implements(x, p, b, back, k + NumGroups(a), pc + m + 2, pc + m + n + 2)
    ensures Turns(x, p, pc, stk, s, Results(x, a, back, k, s) + Results(x, b, back, k + NumGroups(a), s),
                  pc + m + n + 2, stk)
  {
    hide Results, Turns, FlatMap;
    var one, two := Results(x, a, back, k, s), Results(x, b, back, k + NumGroups(a), s);
    TurnsMap(x, p, pc + 1, stk, s, one, one, pc + 1 + m, stk, pc + m + n + 2, stk);
    BranchTurns(x, p, true, m + 1, pc, stk, s, one, two, pc + m + n + 2, stk);
  }

  lemma {:induction false} CatTurns(x: Ctx, p: Prog, a: Re, ka: nat, b: Re, kb: nat, back: bool, pc: int, mid: int,
                                    end: int,
                                    stk: seq<int>, s: St)
    requires StOk(x, s) && ka + NumGroups(a) <= x.ncap && kb + NumGroups(b) <= x.ncap
    requires Implements(x, p, a, back, ka, pc, mid) && Implements(x, p, b, back, kb, mid, end)
    ensures Turns(x, p, pc, stk, s, FlatMap(x, back, s.pos, Results(x, a, back, ka, s), Then(b, kb)), end, stk)
  {
    hide Results, Turns, FlatMap;
    TurnsFlatMap(x, p, back, s.pos, pc, stk, s, Results(x, a, back, ka, s), Then(b, kb), mid, stk, end, stk);
  }

  lemma {:induction false} GroupTurns(x: Ctx, p: Prog, b: Re, back: bool, k: nat, n: nat, pc: int, stk: seq<int>, s: St)
    requires StOk(x, s) && k + 1 + NumGroups(b) <= x.ncap && 0 <= pc && pc + n + 2 <= |p|
    requires p[pc] == (if back then ISaveEnd(k) else ISaveStart(k))
    requires p[pc + 1 + n] == (if back then ISaveStart(k) else ISaveEnd(k))
    requires Implements(x, p, b, back, k + 1, pc + 1, pc + 1 + n)
    ensures Turns(x, p, pc, stk, s, LeaveAll(x, back, k, s.pos, Results(x, b, back, k + 1, Enter(x, back, k, s))),
                  pc + n + 2, stk)
  {
    hide Results, Turns, Step, Implements, LeaveAll, Good, StOk;
    var inside := Enter(x, back, k, s);
    var all := Results(x, b, back, k + 1, inside);
    ImplementsAt(x, p, b, back, k + 1, pc + 1, pc + 1 + n, stk, inside);
    LeaveTurns(x, p, back, k, pc + 1, pc + 1 + n, stk, inside, all);
    EnterTurns(x, p, back, k, pc, stk, s, LeaveAll(x, back, k, s.pos, all), pc + n + 2, stk);
  }

  lemma EnterTurns(x: Ctx, p: Prog, back: bool, k: nat, pc: int, stk: seq<int>, s: St, all: seq<St>, end: int,
                   stk': seq<int>)
    requires StOk(x, s) && k < x.ncap && 0 <= pc < |p| && p[pc] == (if back then ISaveEnd(k) else ISaveStart(k))
    requires Turns(x, p, pc + 1, stk, Enter(x, back, k, s), all, end, stk')
    ensures Turns(x, p, pc, stk, s, all, end, stk')
  {
    hide Turns;
    BasicThen(x, p, pc, stk, s, all, end, stk');
  }

  lemma {:induction false} LeaveTurns(x: Ctx, p: Prog, back: bool, k: nat, pc0: int, pc: int, stk: seq<int>, s: St,
                                      all: seq<St>)
    requires StOk(x, s) && Good(x, back, s.pos, all) && k < x.ncap && 0 <= pc < |p|
    requires p[pc] == (if back then ISaveStart(k) else ISaveEnd(k))
    requires Turns(x, p, pc0, stk, s, all, pc, stk)
    ensures Turns(x, p, pc0, stk, s, LeaveAll(x, back, k, s.pos, all), pc + 1, stk)
  {
    hide Turns, LeaveAll;
    var all' := LeaveAll(x, back, k, s.pos, all);
    forall i, b | 0 <= i < |all|
      ensures Step(x, p, Run(pc, all[i], stk, b)) == Run(pc + 1, all'[i], stk, b)
    {
      assert InRange(x, all[i]);
    }
    TurnsMap(x, p, pc0, stk, s, all, all', pc, stk, pc + 1, stk);
  }

  // ---------------------------------------------------------------- lookaround

  lemma {:induction false} LookTurns(x: Ctx, p: Prog, b: Re, behind: bool, negative: bool, k: nat, back: bool, n: nat,
                                     pc: int,
                                     stk: seq<int>, s: St)
    requires StOk(x, s) && k + NumGroups(b) <= x.ncap && 0 <= pc && pc + n + 2 <= |p|
    requires p[pc] == (if negative then INegLook(n + 1) else ILook(n + 1)) && p[pc + 1 + n] == IMatch
    requires Implements(x, p, b, behind, k, pc + 1, pc + 1 + n)
    ensures Turns(x, p, pc, stk, s, LookResults(x, b, behind, negative, k, back, s), pc + n + 2, stk)
  {
    forall base
      ensures Gen(x, p, Run(pc, s, stk, base), LookResults(x, b, behind, negative, k, back, s), pc + n + 2, stk, base)
    {
      LookGen(x, p, Results(x, b, behind, k, s), negative, n, pc, stk, s, base,
              LookResults(x, b, behind, negative, k, back, s));
    }
  }

  lemma {:induction false} LookGen(x: Ctx, p: Prog, inner: seq<St>, negative: bool, n: nat, pc: int, stk: seq<int>,
                                   s: St, base: seq<Saved>, all: seq<St>)
    requires InRange(x, s) && 0 <= pc && pc + n + 2 <= |p|
    requires forall t :: t in inner ==> InRange(x, t)
    requires p[pc] == (if negative then INegLook(n + 1) else ILook(n + 1)) && p[pc + 1 + n] == IMatch
    requires Turns(x, p, pc + 1, stk, s, inner, pc + 1 + n, stk)
    requires all == if negative then (if |inner| == 0 then [s] else [])
                    else if |inner| == 0 then [] else [St(s.pos, inner[0].caps)]
    ensures Gen(x, p, Run(pc, s, stk, base), all, pc + n + 2, stk, base)
  {
    var mark := Saved(if negative then NegLookahead else Lookahead, 0, s, pc + n + 2, stk);
    var above := base + [mark];
    var c := Run(pc + 1, s, stk, above);
    hide Gen, Step, Turns;
    LookStep(x, p, negative, n, pc, stk, s, base);
    InnerGen(x, p, inner, pc + 1, pc + 1 + n, stk, s, above);
    if |inner| == 0 {
      LookFails(x, p, base, mark, pc + n + 2, stk, all);
      GenNoneReaches(x, p, c, pc + 1 + n, stk, above);
      GenPrefix(x, p, c, Fail(above), all, pc + n + 2, stk, base);
    } else {
      var t := inner[0];
      LookHolds(x, p, base, mark, t, pc + n + 2, stk, all);
      LookReaches(x, p, c, inner, pc + 1 + n, stk, above);
      GenPrefix(x, p, c, Succeed(t, above), all, pc + n + 2, stk, base);
    }
    GenStep(x, p, Run(pc, s, stk, base), all, pc + n + 2, stk, base);
  }

  lemma LookStep(x: Ctx, p: Prog, negative: bool, n: nat, pc: int, stk: seq<int>, s: St, base: seq<Saved>)
    requires InRange(x, s) && 0 <= pc < |p| && p[pc] == if negative then INegLook(n + 1) else ILook(n + 1)
    ensures Step(x, p, Run(pc, s, stk, base)) ==
            Run(pc + 1, s, stk,
                base + [Saved(if negative then NegLookahead else Lookahead, 0, s, pc + n + 2, stk)])
  {
  }

  lemma {:induction false} InnerGen(x: Ctx, p: Prog, inner: seq<St>, pc: int, end: int, stk: seq<int>, s: St,
                                    above: seq<Saved>)
    requires Turns(x, p, pc, stk, s, inner, end, stk)
    ensures Gen(x, p, Run(pc, s, stk, above), inner, end, stk, above)
  {
    hide Gen;
  }

  lemma {:induction false} GenNoneReaches(x: Ctx, p: Prog, c: Cfg, pc: int, stk: seq<int>, above: seq<Saved>)
    requires Gen(x, p, c, [], pc, stk, above)
    ensures Reaches(x, p, c, Fail(above))
  {
    hide Reaches;
  }

  /** The body of a lookaround fails: the saved state decides. */
  lemma {:induction false} LookFails(x: Ctx, p: Prog, base: seq<Saved>, mark: Saved, pc: int, stk: seq<int>,
                                     all: seq<St>)
    requires mark.kind == NegLookahead || mark.kind == Lookahead
    requires mark.pc == pc && mark.stk == stk && all == if mark.kind == NegLookahead then [mark.s] else []
    ensures Gen(x, p, Fail(base + [mark]), all, pc, stk, base)
  {
    var above := base + [mark];
    assert above[..|above| - 1] == base;
    assert Step(x, p, Fail(above)) == if mark.kind == NegLookahead then Run(pc, mark.s, stk, base) else Fail(base);
    hide Gen, Step;
    if mark.kind == NegLookahead {
      GenHere(x, p, mark.s, pc, stk, base);
    } else {
      GenNone(x, p, pc, stk, base);
    }
    GenStep(x, p, Fail(above), all, pc, stk, base);
  }

  /** The body of a lookaround succeeds in `t`. */
  lemma {:induction false} LookHolds(x: Ctx, p: Prog, base: seq<Saved>, mark: Saved, t: St, pc: int, stk: seq<int>,
                                     all: seq<St>)
    requires mark.kind == NegLookahead || mark.kind == Lookahead
    requires mark.pc == pc && mark.stk == stk
    requires all == if mark.kind == NegLookahead then [] else [St(mark.s.pos, t.caps)]
    ensures Gen(x, p, Succeed(t, base + [mark]), all, pc, stk, base)
  {
    var above := base + [mark];
    assert above[..|above| - 1] == base;
    assert Step(x, p, Succeed(t, above)) ==
           if mark.kind == NegLookahead then Fail(base) else Run(pc, St(mark.s.pos, t.caps), stk, base);
    hide Gen, Step;
    if mark.kind == NegLookahead {
      GenNone(x, p, pc, stk, base);
    } else {
      GenHere(x, p, St(mark.s.pos, t.caps), pc, stk, base);
    }
    GenStep(x, p, Succeed(t, above), all, pc, stk, base);
  }

  /** A first result followed by `match` succeeds down to the saved state of the lookaround. */
  lemma {:induction false} LookReaches(x: Ctx, p: Prog, c: Cfg, inner: seq<St>, pc: int, stk: seq<int>,
                                       above: seq<Saved>)
    requires |inner| > 0 && Gen(x, p, c, inner, pc, stk, above) && InRange(x, inner[0])
    requires 0 <= pc < |p| && p[pc] == IMatch
    ensures Reaches(x, p, c, Succeed(inner[0], above))
  {
    var t := inner[0];
    var d :| Choices(d) && GenVia(x, p, c, inner, pc, stk, above, d);
    var hit := Run(pc, t, stk, above + d);
    assert Step(x, p, hit) == Succeed(t, above + d);
    hide Step, Gen;
    ReachesStep(x, p, hit);
    SucceedPops(x, p, t, above, d);
    ReachesTrans(x, p, c, hit, Succeed(t, above + d));
    ReachesTrans(x, p, c, Succeed(t, above + d), Succeed(t, above));
  }

  // ---------------------------------------------------------------- loops

  /** The loop with the zero-advance check. */
  lemma {:induction false} StarCheckedTurns(x: Ctx, p: Prog, r: Re, back: bool, k: nat, greedy: bool, n: nat, pc: int,
                                            stk: seq<int>, s: St)
    requires StOk(x, s) && k + NumGroups(r) <= x.ncap && 0 <= pc && pc + n + 3 <= |p|
    requires p[pc] == Branch(greedy, n + 2) && p[pc + 1] == IPushCharPos && p[pc + 2 + n] == IBneCharPos(-(n + 3))
    requires Implements(x, p, r, back, k, pc + 2, pc + 2 + n)
    ensures Turns(x, p, pc, stk, s, Star(x, r, back, k, greedy, s), pc + n + 3, stk)
    decreases Distance(x, back, s.pos)
  {
    hide Results, Turns, FlatMap, Step, Implements;
    var all, f, stk', end := Results(x, r, back, k, s), ThenStar(r, k, greedy, s.pos), stk + [s.pos], pc + n + 3;
    forall t | t in all
      ensures Turns(x, p, pc + 2 + n, stk', t, Continue(x, back, s.pos, f, t), end, stk)
    {
      if t.pos == s.pos {
        TurnsHere(x, p, end, stk, t);
      } else {
        StarCheckedTurns(x, p, r, back, k, greedy, n, pc, stk, t);
      }
      BneTurns(x, p, -(n + 3), pc + 2 + n, stk, s.pos, t, Continue(x, back, s.pos, f, t), end, stk);
    }
    ImplementsAt(x, p, r, back, k, pc + 2, pc + 2 + n, stk + [s.pos], s);
    TurnsFlatMap(x, p, back, s.pos, pc + 2, stk', s, all, f, pc + 2 + n, stk', end, stk);
    var more := FlatMap(x, back, s.pos, all, f);
    PushTurns(x, p, s.pos, pc + 1, stk, s, more, end, stk);
    TurnsHere(x, p, end, stk, s);
    BranchTurns(x, p, greedy, n + 2, pc, stk, s, more, [s], end, stk);
  }

  /** Every way through `r` moves the cursor. */
  ghost predicate AlwaysMoves(x: Ctx, r: Re, back: bool, k: nat)
    requires k + NumGroups(r) <= x.ncap
  {
    forall s :: StOk(x, s) ==> Moves(s.pos, Results(x, r, back, k, s))
  }

  /** The loop without the check. */
  lemma {:induction false} StarUncheckedTurns(x: Ctx, p: Prog, r: Re, back: bool, k: nat, greedy: bool, n: nat, pc: int,
                                              stk: seq<int>, s: St)
    requires StOk(x, s) && k + NumGroups(r) <= x.ncap && 0 <= pc && pc + n + 2 <= |p|
    requires p[pc] == Branch(greedy, n + 1) && p[pc + 1 + n] == IGoto(-(n + 2))
    requires Implements(x, p, r, back, k, pc + 1, pc + 1 + n) && AlwaysMoves(x, r, back, k)
    ensures Turns(x, p, pc, stk, s, Star(x, r, back, k, greedy, s), pc + n + 2, stk)
    decreases Distance(x, back, s.pos)
  {
    hide Results, Turns, FlatMap, Step, Implements;
    var all, f, end := Results(x, r, back, k, s), ThenStar(r, k, greedy, s.pos), pc + n + 2;
    assert Moves(s.pos, all);
    forall t | t in all
      ensures Turns(x, p, pc + 1 + n, stk, t, Continue(x, back, s.pos, f, t), end, stk)
    {
      StarUncheckedTurns(x, p, r, back, k, greedy, n, pc, stk, t);
      GotoTurns(x, p, -(n + 2), pc + 1 + n, stk, t, Continue(x, back, s.pos, f, t), end, stk);
    }
    ImplementsAt(x, p, r, back, k, pc + 1, pc + 1 + n, stk, s);
    TurnsFlatMap(x, p, back, s.pos, pc + 1, stk, s, all, f, pc + 1 + n, stk, end, stk);
    var more := FlatMap(x, back, s.pos, all, f);
    TurnsHere(x, p, end, stk, s);
    BranchTurns(x, p, greedy, n + 1, pc, stk, s, more, [s], end, stk);
  }

  /** The branch that ends a `+` loop, at `pc`; the body stands before it. */
  lemma {:induction false} PlusTailTurns(x: Ctx, p: Prog, r: Re, back: bool, k: nat, greedy: bool, n: nat, pc: int,
                                         stk: seq<int>, s: St)
    requires StOk(x, s) && k + NumGroups(r) <= x.ncap && n <= pc < |p|
    requires p[pc] == PlusBranch(n, greedy)
    requires Implements(x, p, r, back, k, pc - n, pc) && AlwaysMoves(x, r, back, k)
    ensures Turns(x, p, pc, stk, s, Star(x, r, back, k, greedy, s), pc + 1, stk)
    decreases Distance(x, back, s.pos)
  {
    hide Results, Turns, FlatMap, Implements;
    var all, f := Results(x, r, back, k, s), ThenStar(r, k, greedy, s.pos);
    assert Moves(s.pos, all);
    forall t | t in all
      ensures Turns(x, p, pc, stk, t, Continue(x, back, s.pos, f, t), pc + 1, stk)
    {
      PlusTailTurns(x, p, r, back, k, greedy, n, pc, stk, t);
    }
    ImplementsAt(x, p, r, back, k, pc - n, pc, stk, s);
    TurnsFlatMap(x, p, back, s.pos, pc - n, stk, s, all, f, pc, stk, pc + 1, stk);
    var more := FlatMap(x, back, s.pos, all, f);
    TurnsHere(x, p, pc + 1, stk, s);
    if greedy {
      TurnsSplit(x, p, pc, s, stk, pc - n, pc + 1, more, [s], pc + 1, stk);
    } else {
      TurnsSplit(x, p, pc, s, stk, pc + 1, pc - n, [s], more, pc + 1, stk);
    }
  }

  /** What `loop` and `drop` at `pc` do to a counter on the stack. */
  lemma LoopTurns(x: Ctx, p: Prog, off: int, pc: int, stk: seq<int>, n: nat, t: St, all: seq<St>)
    requires InRange(x, t) && 0 <= pc && pc + 2 <= |p| && p[pc] == ILoop(off) && p[pc + 1] == IDrop && n > 0
    requires n == 1 ==> all == [t]
    requires n > 1 ==> Turns(x, p, pc + 1 + off, stk + [n - 1], t, all, pc + 2, stk)
    ensures Turns(x, p, pc, stk + [n], t, all, pc + 2, stk)
  {
    LoopStep(x, p, off, pc, stk, n, t);
    hide Step, Turns;
    if n == 1 {
      TurnsHere(x, p, pc + 2, stk, t);
      DropTurns(x, p, pc + 1, stk, 0, t, all, pc + 2, stk);
      TurnsStep(x, p, pc, stk + [n], t, pc + 1, stk + [0], t, all, pc + 2, stk);
    } else {
      TurnsStep(x, p, pc, stk + [n], t, pc + 1 + off, stk + [n - 1], t, all, pc + 2, stk);
    }
  }

  lemma LoopStep(x: Ctx, p: Prog, off: int, pc: int, stk: seq<int>, n: nat, t: St)
    requires InRange(x, t) && 0 <= pc < |p| && p[pc] == ILoop(off)
    ensures forall base :: Step(x, p, Run(pc, t, stk + [n], base)) ==
                           Run(if n - 1 != 0 then pc + 1 + off else pc + 1, t, stk + [n - 1], base)
  {
    assert (stk + [n])[..|stk + [n]| - 1] == stk;
  }

  lemma {:induction false} NoIterations(x: Ctx, r: Re, back: bool, k: nat, greedy: bool, s: St)
    requires StOk(x, s) && k + NumGroups(r) <= x.ncap
    ensures Times(x, r, back, k, 0, s) == [s] && Upto(x, r, back, k, 0, greedy, s) == [s]
  {
  }

  /** The body of an exact count, with the counter on the stack. */
  lemma {:induction false} ExactTurns(x: Ctx, p: Prog, r: Re, back: bool, k: nat, n: nat, len: nat, pc: int,
                                      stk: seq<int>, s: St)
    requires StOk(x, s) && k + NumGroups(r) <= x.ncap && n > 0 && 0 <= pc && pc + len + 2 <= |p|
    requires p[pc + len] == ILoop(-(len + 1)) && p[pc + len + 1] == IDrop
    requires Implements(x, p, r, back, k, pc, pc + len)
    ensures Turns(x, p, pc, stk + [n], s, Times(x, r, back, k, n, s), pc + len + 2, stk)
    decreases n
  {
    hide Results, Turns, FlatMap, Step, Implements;
    var all, f := Results(x, r, back, k, s), ThenTimes(r, k, n - 1);
    forall t | t in all
      ensures Turns(x, p, pc + len, stk + [n], t, Continue(x, back, s.pos, f, t), pc + len + 2, stk)
    {
      if n > 1 {
        ExactTurns(x, p, r, back, k, n - 1, len, pc, stk, t);
      } else {
        NoIterations(x, r, back, k, true, t);
      }
      LoopTurns(x, p, -(len + 1), pc + len, stk, n, t, Continue(x, back, s.pos, f, t));
    }
    ImplementsAt(x, p, r, back, k, pc, pc + len, stk + [n], s);
    TurnsFlatMap(x, p, back, s.pos, pc, stk + [n], s, all, f, pc + len, stk + [n], pc + len + 2, stk);
  }

  /** The branch of a bounded loop, with the counter on the stack. */
  lemma {:induction false} UptoTurns(x: Ctx, p: Prog, r: Re, back: bool, k: nat, n: nat, greedy: bool, len: nat,
                                     pc: int, stk: seq<int>, s: St)
    requires StOk(x, s) && k + NumGroups(r) <= x.ncap && n > 0 && 0 <= pc && pc + len + 3 <= |p|
    requires p[pc] == Branch(greedy, len + 1) && p[pc + 1 + len] == ILoop(-(len + 2)) && p[pc + len + 2] == IDrop
    requires Implements(x, p, r, back, k, pc + 1, pc + 1 + len)
    ensures Turns(x, p, pc, stk + [n], s, Upto(x, r, back, k, n, greedy, s), pc + len + 3, stk)
    decreases n, 1
  {
    hide Results, Turns, FlatMap, Step;
    UptoMore(x, p, r, back, k, n, greedy, len, pc, stk, s);
    TurnsHere(x, p, pc + len + 3, stk, s);
    DropTurns(x, p, pc + len + 2, stk, n, s, [s], pc + len + 3, stk);
    BranchTurns(x, p, greedy, len + 1, pc, stk + [n], s,
                FlatMap(x, back, s.pos, Results(x, r, back, k, s), ThenUpto(r, k, n - 1, greedy)), [s],
                pc + len + 3, stk);
  }

  lemma {:induction false} UptoMore(x: Ctx, p: Prog, r: Re, back: bool, k: nat, n: nat, greedy: bool, len: nat, pc: int,
                                    stk: seq<int>, s: St)
    requires StOk(x, s) && k + NumGroups(r) <= x.ncap && n > 0 && 0 <= pc && pc + len + 3 <= |p|
    requires p[pc] == Branch(greedy, len + 1) && p[pc + 1 + len] == ILoop(-(len + 2)) && p[pc + len + 2] == IDrop
    requires Implements(x, p, r, back, k, pc + 1, pc + 1 + len)
    ensures Turns(x, p, pc + 1, stk + [n], s,
                  FlatMap(x, back, s.pos, Results(x, r, back, k, s), ThenUpto(r, k, n - 1, greedy)),
                  pc + len + 3, stk)
    decreases n, 0
  {
    hide Results, Upto, Turns, FlatMap, Step, Implements;
    var all, f := Results(x, r, back, k, s), ThenUpto(r, k, n - 1, greedy);
    forall t | t in all
      ensures Turns(x, p, pc + 1 + len, stk + [n], t, Continue(x, back, s.pos, f, t), pc + len + 3, stk)
    {
      if n > 1 {
        UptoTurns(x, p, r, back, k, n - 1, greedy, len, pc, stk, t);
      } else {
        NoIterations(x, r, back, k, greedy, t);
      }
      LoopTurns(x, p, -(len + 2), pc + 1 + len, stk, n, t, Continue(x, back, s.pos, f, t));
    }
    ImplementsAt(x, p, r, back, k, pc + 1, pc + 1 + len, stk + [n], s);
    TurnsFlatMap(x, p, back, s.pos, pc + 1, stk + [n], s, all, f, pc + 1 + len, stk + [n], pc + len + 3, stk);
  }

  /** An optional body. */
  lemma {:induction false} OptionTurns(x: Ctx, p: Prog, r: Re, back: bool, k: nat, greedy: bool, len: nat, pc: int,
                                       stk: seq<int>, s: St)
    requires StOk(x, s) && k + NumGroups(r) <= x.ncap && 0 <= pc && pc + len + 1 <= |p|
    requires p[pc] == Branch(greedy, len)
    requires Implements(x, p, r, back, k, pc + 1, pc + 1 + len)
    ensures Turns(x, p, pc, stk, s, Upto(x, r, back, k, 1, greedy, s), pc + 1 + len, stk)
  {
    hide Results, Turns, FlatMap, Step, Implements;
    var all, f, end := Results(x, r, back, k, s), ThenUpto(r, k, 0, greedy), pc + 1 + len;
    forall t | t in all
      ensures Turns(x, p, end, stk, t, Continue(x, back, s.pos, f, t), end, stk)
    {
      TurnsHere(x, p, end, stk, t);
    }
    ImplementsAt(x, p, r, back, k, pc + 1, pc + 1 + len, stk, s);
    TurnsFlatMap(x, p, back, s.pos, pc + 1, stk, s, all, f, end, stk, end, stk);
    TurnsHere(x, p, end, stk, s);
    BranchTurns(x, p, greedy, len, pc, stk, s, FlatMap(x, back, s.pos, all, f), [s], end, stk);
  }
}
