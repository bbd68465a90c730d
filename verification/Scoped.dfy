/** What each construct of the emitted code does to the captures, for runs of any length, halting or not. */
module Scoped {
  import opened Subject
  import opened Regex
  import opened Matcher
  import opened Machine
  import opened Simulation
  import opened Codegen
  import opened StackDepth
  import opened Correct
  import opened Greedy
  import opened Captures
  import opened Safety
  import opened Partial

  /** The code from `pc` to `end` keeps to its scope, however far it runs. */
  ghost predicate Behaves(x: Ctx, p: Prog, scope: Scope, pc: int, end: int) {
    forall s, stk, b, n: nat :: StOk(x, s) ==> Yields(x, p, Goal(scope, s, end, stk, b), Run(pc, s, stk, b), n)
  }

  lemma {:induction false} BehavesAt(x: Ctx, p: Prog, scope: Scope, pc: int, end: int, s: St, stk: seq<int>,
                                     b: seq<Saved>, n: nat)
    requires Behaves(x, p, scope, pc, end) && StOk(x, s)
    ensures Yields(x, p, Goal(scope, s, end, stk, b), Run(pc, s, stk, b), n)
  {
    hide Yields, StOk;
  }

  lemma MetSelf(x: Ctx, g: Goal)
    requires StOk(x, g.s) && g.scope.ways != {}
    ensures Met(x, g, g.s)
  {
    MetSame(x, g, g.s);
  }

  /** A state with the captures of the start. */
  lemma MetSame(x: Ctx, g: Goal, t: St)
    requires StOk(x, t) && Toward(g.scope.back, g.s.pos, t.pos) && t.caps == g.s.caps && g.scope.ways != {}
    ensures Met(x, g, t)
  {
    hide StOk, Kept;
    var w :| w in g.scope.ways;
    KeptSelf(g.scope.k, g.scope.n, w, g.s);
    SameCaps(g.scope.k, g.scope.n, w, g.s, g.s, t);
  }

  /** What the scopes `a` and then `b` allow is allowed by `c`. */
  ghost predicate Joins(a: Scope, b: Scope, c: Scope) {
    a == c.(ways := a.ways) && b == c.(ways := b.ways) &&
    forall v, w :: v in a.ways && w in b.ways ==> v + w in c.ways
  }

  /** A scope that allows any number of repetitions. */
  ghost predicate Repeats(scope: Scope) {
    Joins(scope, scope, scope) && scope.ways != {}
  }

  /** Nothing is set. */
  function Idle(scope: Scope): Scope {
    scope.(ways := {{}})
  }

  lemma IdleJoins(scope: Scope)
    ensures Joins(Idle(scope), scope, scope) && Joins(scope, Idle(scope), scope)
  {
    forall v, w | v in scope.ways && w in {{}}
      ensures v + w in scope.ways && w + v in scope.ways
    {
      assert v + w == v && w + v == v;
    }
  }

  /** What is met by way of a state in between is met from the start. */
  lemma MetTrans(x: Ctx, a: Scope, g: Goal, g': Goal, t: St)
    requires Joins(a, g'.scope, g.scope) && Met(x, g.(scope := a), g'.s) && Met(x, g', t)
    ensures Met(x, g, t)
  {
    hide StOk, Kept;
    var k, n, s := g.scope.k, g.scope.n, g.s;
    var v :| v in a.ways && Kept(k, n, v, s, g'.s);
    var w :| w in g'.scope.ways && Kept(k, n, w, g'.s, t);
    KeptWiden(k, n, v, k, n, v + w, s, g'.s);
    KeptWiden(k, n, w, k, n, v + w, g'.s, t);
    KeptTrans(k, n, v + w, s, g'.s, t);
  }

  lemma {:induction false} YieldsVia(x: Ctx, p: Prog, a: Scope, b: Scope, g: Goal, t: St, c: Cfg, n: nat)
    requires Joins(a, b, g.scope) && Met(x, g.(scope := a), t) && Yields(x, p, g.(s := t).(scope := b), c, n)
    ensures Yields(x, p, g, c, n)
  {
    hide Met, Yields, Joins;
    var g' := g.(s := t).(scope := b);
    forall u | Met(x, g', u)
      ensures Met(x, g, u)
    {
      MetTrans(x, a, g, g', u);
    }
    YieldsWeaker(x, p, g', g, c, n);
  }

  lemma {:induction false} YieldsFrom(x: Ctx, p: Prog, g: Goal, t: St, c: Cfg, n: nat)
    requires Repeats(g.scope) && Met(x, g, t) && Yields(x, p, g.(s := t), c, n)
    ensures Yields(x, p, g, c, n)
  {
    hide Met, Yields, Joins;
    assert g.(scope := g.scope) == g && g.(s := t).(scope := g.scope) == g.(s := t);
    YieldsVia(x, p, g.scope, g.scope, g, t, c, n);
  }

  /** A larger scope. */
  ghost predicate Inside(small: Scope, large: Scope) {
    && small.back == large.back && large.k <= small.k && small.k + small.n <= large.k + large.n
    && forall w :: w in small.ways ==> Covered(w, large.ways)
  }

  ghost predicate Covered(w: set<nat>, ways: set<set<nat>>) {
    exists v :: v in ways && w <= v
  }

  lemma MetWiden(x: Ctx, g: Goal, large: Scope, t: St)
    requires Inside(g.scope, large) && Met(x, g, t)
    ensures Met(x, g.(scope := large), t)
  {
    hide StOk, Kept;
    var w :| w in g.scope.ways && Kept(g.scope.k, g.scope.n, w, g.s, t);
    assert Covered(w, large.ways);
    var v :| v in large.ways && w <= v;
    KeptWiden(g.scope.k, g.scope.n, w, large.k, large.n, v, g.s, t);
  }

  lemma BehavesWiden(x: Ctx, p: Prog, small: Scope, large: Scope, pc: int, end: int)
    requires Behaves(x, p, small, pc, end) && Inside(small, large)
    ensures Behaves(x, p, large, pc, end)
  {
    hide Yields, Met, StOk, Inside;
    forall s, stk, b, n: nat | StOk(x, s)
      ensures Yields(x, p, Goal(large, s, end, stk, b), Run(pc, s, stk, b), n)
    {
      var g := Goal(small, s, end, stk, b);
      forall t | Met(x, g, t)
        ensures Met(x, g.(scope := large), t)
      {
        MetWiden(x, g, large, t);
      }
      YieldsWeaker(x, p, g, g.(scope := large), Run(pc, s, stk, b), n);
    }
  }

  lemma NothingBehaves(x: Ctx, p: Prog, scope: Scope, pc: int)
    requires scope.ways != {}
    ensures Behaves(x, p, scope, pc, pc)
  {
    hide Met, Yields;
    forall s, stk, b, n: nat | StOk(x, s)
      ensures Yields(x, p, Goal(scope, s, pc, stk, b), Run(pc, s, stk, b), n)
    {
      MetSelf(x, Goal(scope, s, pc, stk, b));
      YieldsHere(x, p, Goal(scope, s, pc, stk, b), s, n);
    }
  }

  /** One piece of code behind another. */
  lemma ThenBehaves(x: Ctx, p: Prog, one: Scope, two: Scope, scope: Scope, pc: int, mid: int, end: int)
    requires Joins(one, two, scope) && Behaves(x, p, one, pc, mid) && Behaves(x, p, two, mid, end)
    ensures Behaves(x, p, scope, pc, end)
  {
    hide Yields, Met, StOk, Joins;
    forall s, stk, b, n: nat | StOk(x, s)
      ensures Yields(x, p, Goal(scope, s, end, stk, b), Run(pc, s, stk, b), n)
    {
      var g1, g2 := Goal(one, s, mid, stk, b), Goal(scope, s, end, stk, b);
      forall t, c, m: nat | m <= n && Met(x, g1, t)
        ensures Yields(x, p, g2.(base := c), Run(mid, t, stk, c), m)
      {
        MetOk(x, g1, t);
        BehavesAt(x, p, two, mid, end, t, stk, c, m);
        MetElsewhere(x, g1, Goal(one, s, end, stk, c), t);
        YieldsVia(x, p, one, two, g2.(base := c), t, Run(mid, t, stk, c), m);
      }
      BehavesAt(x, p, one, pc, mid, s, stk, b, n);
      YieldsThen(x, p, g1, g2, Run(pc, s, stk, b), n);
    }
  }

  /** One after the other, when only one of them sets anything. */
  lemma AlongsideBehaves(x: Ctx, p: Prog, scope: Scope, pc: int, mid: int, end: int)
    requires (Behaves(x, p, Idle(scope), pc, mid) && Behaves(x, p, scope, mid, end)) ||
             (Behaves(x, p, scope, pc, mid) && Behaves(x, p, Idle(scope), mid, end))
    ensures Behaves(x, p, scope, pc, end)
  {
    hide Behaves, Joins;
    IdleJoins(scope);
    if Behaves(x, p, Idle(scope), pc, mid) && Behaves(x, p, scope, mid, end) {
      ThenBehaves(x, p, Idle(scope), scope, scope, pc, mid, end);
    } else {
      ThenBehaves(x, p, scope, Idle(scope), scope, pc, mid, end);
    }
  }

  lemma MetElsewhere(x: Ctx, g: Goal, g': Goal, t: St)
    requires Met(x, g, t) && g'.scope == g.scope && g'.s == g.s
    ensures Met(x, g', t)
  {
  }

  // ---------------------------------------------------------------- straight-line instructions

  /** Straight-line instructions that move, if at all, in the direction of the term and keep the captures. */
  predicate Gentle(i: Instr, back: bool) {
    Assertion(i) || (Reads(i) && !back) || (i.IPrev? && back) || (i.IBackRef? && !back) || (i.IBackwardBackRef? && back)
  }

  lemma GentleEval(x: Ctx, i: Instr, back: bool, s: St)
    requires StOk(x, s) && Gentle(i, back)
    ensures Basic(i) && CapturesFit(i, x.ncap)
    ensures var r := Eval(x, i, s); |r| > 0 ==> StOk(x, r[0]) && Toward(back, s.pos, r[0].pos) && r[0].caps == s.caps
  {
    hide TestChar, AtLineStart, AtLineEnd, AtWordBoundary, CompareForward, CompareBackward;
    EvalOk(x, i, s);
  }

  lemma GentleBehaves(x: Ctx, p: Prog, scope: Scope, pc: int, end: int)
    requires 0 <= pc < |p| && end == pc + 1 && Gentle(p[pc], scope.back) && scope.ways != {}
    ensures Behaves(x, p, scope, pc, end)
  {
    forall s, stk, b, n: nat | StOk(x, s)
      ensures Yields(x, p, Goal(scope, s, end, stk, b), Run(pc, s, stk, b), n)
    {
      GentleYields(x, p, Goal(scope, s, end, stk, b), n);
    }
  }

  lemma GentleYields(x: Ctx, p: Prog, g: Goal, n: nat)
    requires StOk(x, g.s) && 0 < g.pc <= |p| && Gentle(p[g.pc - 1], g.scope.back) && g.scope.ways != {}
    ensures Yields(x, p, g, Run(g.pc - 1, g.s, g.stk, g.base), n)
  {
    hide Eval, Gentle;
    if n > 0 {
      GentleEval(x, p[g.pc - 1], g.scope.back, g.s);
      var r := Eval(x, p[g.pc - 1], g.s);
      if |r| > 0 {
        MetSame(x, g, r[0]);
        YieldsHere(x, p, g, r[0], n - 1);
      }
    }
  }

  /** A character before the cursor: one step back, the character, and one step back again. */
  lemma BackCharYields(x: Ctx, p: Prog, g: Goal, n: nat)
    requires StOk(x, g.s) && 0 < g.pc - 2 <= g.pc <= |p| && g.scope.back && g.scope.ways != {}
    requires p[g.pc - 3].IPrev? && Reads(p[g.pc - 2]) && p[g.pc - 1].IPrev?
    ensures Yields(x, p, g, Run(g.pc - 3, g.s, g.stk, g.base), n)
  {
    hide TestChar, KeptIn;
    var pc, s := g.pc - 3, g.s;
    if n > 0 && s.pos > 0 {
      var t := St(PrevPos(x.subject, s.pos), s.caps);
      NextPrev(x.subject, s.pos);
      assert Step(x, p, Run(pc, s, g.stk, g.base)) == Run(pc + 1, t, g.stk, g.base);
      if n > 1 && |Eval(x, p[pc + 1], t)| > 0 {
        assert Step(x, p, Run(pc + 1, t, g.stk, g.base)) == Run(pc + 2, s, g.stk, g.base);
        if n > 2 {
          assert Step(x, p, Run(pc + 2, s, g.stk, g.base)) == Run(pc + 3, t, g.stk, g.base);
          MetSame(x, g, t);
          YieldsHere(x, p, g, t, n - 3);
        }
        assert Yields(x, p, g, Run(pc + 2, s, g.stk, g.base), n - 2);
      }
      assert Yields(x, p, g, Run(pc + 1, t, g.stk, g.base), n - 1);
    }
  }

  lemma BackCharBehaves(x: Ctx, p: Prog, scope: Scope, pc: int, end: int)
    requires 0 <= pc < end <= |p| && end == pc + 3 && scope.back && scope.ways != {}
    requires p[pc].IPrev? && Reads(p[pc + 1]) && p[pc + 2].IPrev?
    ensures Behaves(x, p, scope, pc, end)
  {
    forall s, stk, b, n: nat | StOk(x, s)
      ensures Yields(x, p, Goal(scope, s, end, stk, b), Run(pc, s, stk, b), n)
    {
      BackCharYields(x, p, Goal(scope, s, end, stk, b), n);
    }
  }

  /** Resetting groups of the scope. */
  lemma ResetYields(x: Ctx, p: Prog, g: Goal, n: nat)
    requires StOk(x, g.s) && 0 < g.pc <= |p| && 0 < g.scope.n && g.scope.k + g.scope.n <= x.ncap && g.scope.ways != {}
    requires p[g.pc - 1] == ISaveReset(g.scope.k, g.scope.k + g.scope.n - 1)
    ensures Yields(x, p, g, Run(g.pc - 1, g.s, g.stk, g.base), n)
  {
    hide Kept;
    if n > 0 {
      var t := Forget(x, g.scope.k, g.scope.n, g.s);
      var w :| w in g.scope.ways;
      ForgetKept(x, g.scope.k, g.scope.n, w, g.s);
      assert Step(x, p, Run(g.pc - 1, g.s, g.stk, g.base)) == Run(g.pc, t, g.stk, g.base);
      YieldsHere(x, p, g, t, n - 1);
    }
  }

  lemma ResetBehaves(x: Ctx, p: Prog, scope: Scope, pc: int, end: int)
    requires scope.k + scope.n <= x.ncap && end == pc + |ResetCode(scope.k, scope.n)| && scope.ways != {}
    requires Sits(p, pc, ResetCode(scope.k, scope.n))
    ensures Behaves(x, p, scope, pc, end)
  {
    if scope.n == 0 {
      NothingBehaves(x, p, scope, pc);
    } else {
      SitsAt(p, pc, ResetCode(scope.k, scope.n), 0);
      forall s, stk, b, n: nat | StOk(x, s)
        ensures Yields(x, p, Goal(scope, s, end, stk, b), Run(pc, s, stk, b), n)
      {
        ResetYields(x, p, Goal(scope, s, end, stk, b), n);
      }
    }
  }

  // ---------------------------------------------------------------- groups, alternatives, lookarounds

  /** A body, and from every state it may end in, what comes behind it. */
  lemma {:induction false} BodyYields(x: Ctx, p: Prog, small: Scope, g: Goal, s: St, pc: int, mid: int, stk: seq<int>,
                                      n: nat)
    requires StOk(x, s) && Behaves(x, p, small, pc, mid)
    requires forall t, b, m: nat :: m <= n && Met(x, Goal(small, s, mid, stk, g.base), t) ==>
                                     Yields(x, p, g.(base := b), Run(mid, t, stk, b), m)
    ensures Yields(x, p, g, Run(pc, s, stk, g.base), n)
  {
    hide Yields, Met, StOk, Behaves;
    var inner := Goal(small, s, mid, stk, g.base);
    BehavesAt(x, p, small, pc, mid, s, stk, g.base, n);
    YieldsThen(x, p, inner, g, Run(pc, s, stk, g.base), n);
  }

  /** What the body of a group sets, and the group. */
  ghost predicate Grouped(small: Scope, scope: Scope) {
    forall w :: w in small.ways ==> {scope.k} + w in scope.ways
  }

  /** Leaving a group sets it to the span between where it was entered and the cursor. */
  lemma LeaveYields(x: Ctx, p: Prog, scope: Scope, small: Scope, s: St, stk: seq<int>, pc: int, inner: Goal, t: St,
                    b: seq<Saved>, n: nat)
    requires StOk(x, s) && scope.k < x.ncap && 0 <= pc < |p|
    requires scope.n > 0 && small == inner.scope == Scope(scope.back, scope.k + 1, scope.n - 1, small.ways)
    requires Grouped(small, scope) && inner.s == Enter(x, scope.back, scope.k, s) && Met(x, inner, t)
    requires p[pc] == if scope.back then ISaveStart(scope.k) else ISaveEnd(scope.k)
    ensures Yields(x, p, Goal(scope, s, pc + 1, stk, b), Run(pc, t, stk, b), n)
  {
    var k, g, c := scope.k, Goal(scope, s, pc + 1, stk, b), Run(pc, t, stk, b);
    if n > 0 {
      var u := Leave(x, scope.back, k, t);
      var w :| w in small.ways && Kept(k + 1, scope.n - 1, w, inner.s, t);
      assert SameGroup(inner.s, t, k);
      Closing(k, scope.n - 1, w, s, inner.s, t, u, if scope.back then u.pos else s.pos,
              if scope.back then s.pos else u.pos);
      LeaveStep(x, p, scope.back, k, pc, t, stk, b);
      hide Step, Kept, StOk;
      assert {k} + w in scope.ways;
      assert Met(x, g, u);
      YieldsHere(x, p, g, u, n - 1);
    }
  }

  lemma LeaveStep(x: Ctx, p: Prog, back: bool, k: nat, pc: int, t: St, stk: seq<int>, b: seq<Saved>)
    requires StOk(x, t) && k < x.ncap && 0 <= pc < |p| && p[pc] == if back then ISaveStart(k) else ISaveEnd(k)
    ensures Step(x, p, Run(pc, t, stk, b)) == Run(pc + 1, Leave(x, back, k, t), stk, b)
  {
  }

  lemma EnterStep(x: Ctx, p: Prog, back: bool, k: nat, pc: int, t: St, stk: seq<int>, b: seq<Saved>)
    requires StOk(x, t) && k < x.ncap && 0 <= pc < |p| && p[pc] == if back then ISaveEnd(k) else ISaveStart(k)
    ensures Step(x, p, Run(pc, t, stk, b)) == Run(pc + 1, Enter(x, back, k, t), stk, b)
  {
  }

  lemma {:induction false} GroupYields(x: Ctx, p: Prog, small: Scope, g: Goal, pc: int, n: nat)
    requires g.scope.n > 0 && small == Scope(g.scope.back, g.scope.k + 1, g.scope.n - 1, small.ways)
    requires Grouped(small, g.scope) && g.scope.k < x.ncap && StOk(x, g.s)
    requires 0 <= pc < g.pc - 1 && g.pc <= |p| && Behaves(x, p, small, pc + 1, g.pc - 1)
    requires p[pc] == if g.scope.back then ISaveEnd(g.scope.k) else ISaveStart(g.scope.k)
    requires p[g.pc - 1] == if g.scope.back then ISaveStart(g.scope.k) else ISaveEnd(g.scope.k)
    ensures Yields(x, p, g, Run(pc, g.s, g.stk, g.base), n)
  {
    hide Step, StOk, Met, Behaves, Kept, Grouped;
    if n > 0 {
      var inside, mid := Enter(x, g.scope.back, g.scope.k, g.s), g.pc - 1;
      EnterStep(x, p, g.scope.back, g.scope.k, pc, g.s, g.stk, g.base);
      var inner := Goal(small, inside, mid, g.stk, g.base);
      forall t, b, m: nat | m <= n - 1 && Met(x, inner, t)
        ensures Yields(x, p, g.(base := b), Run(mid, t, g.stk, b), m)
      {
        LeaveYields(x, p, g.scope, small, g.s, g.stk, mid, inner, t, b, m);
      }
      BodyYields(x, p, small, g, inside, pc + 1, mid, g.stk, n - 1);
    }
  }

  lemma GroupBehaves(x: Ctx, p: Prog, small: Scope, scope: Scope, pc: int, end: int)
    requires scope.n > 0 && small == Scope(scope.back, scope.k + 1, scope.n - 1, small.ways)
    requires Grouped(small, scope) && scope.k < x.ncap
    requires 0 <= pc < end - 1 && end <= |p| && Behaves(x, p, small, pc + 1, end - 1)
    requires p[pc] == if scope.back then ISaveEnd(scope.k) else ISaveStart(scope.k)
    requires p[end - 1] == if scope.back then ISaveStart(scope.k) else ISaveEnd(scope.k)
    ensures Behaves(x, p, scope, pc, end)
  {
    hide Behaves, Yields, Grouped;
    forall s, stk, b, n: nat | StOk(x, s)
      ensures Yields(x, p, Goal(scope, s, end, stk, b), Run(pc, s, stk, b), n)
    {
      GroupYields(x, p, small, Goal(scope, s, end, stk, b), pc, n);
    }
    BehavesIf(x, p, scope, pc, end);
  }

  lemma {:induction false} BehavesIf(x: Ctx, p: Prog, scope: Scope, pc: int, end: int)
    requires forall s, stk, b, n: nat :: StOk(x, s) ==> Yields(x, p, Goal(scope, s, end, stk, b), Run(pc, s, stk, b), n)
    ensures Behaves(x, p, scope, pc, end)
  {
    hide Yields, StOk;
  }

  /** Fewer than `n` steps from `pc`, whatever is saved. */
  ghost predicate Ahead(x: Ctx, p: Prog, g: Goal, pc: int, s: St, stk: seq<int>, n: nat) {
    forall b, m: nat :: m < n ==> Yields(x, p, g.(base := b), Run(pc, s, stk, b), m)
  }

  /** A branch instruction: both ways are followed. */
  lemma {:induction false} BranchYields(x: Ctx, p: Prog, g: Goal, i: Instr, pc: int, s: St, stk: seq<int>, n: nat)
    requires InRange(x, s) && 0 <= pc < |p| && p[pc] == i && (i.ISplitNextFirst? || i.ISplitGotoFirst?)
    requires Ahead(x, p, g, pc + 1, s, stk, n) && Ahead(x, p, g, pc + 1 + i.off, s, stk, n)
    ensures Yields(x, p, g, Run(pc, s, stk, g.base), n)
  {
    if n > 0 {
      var pc1 := if i.ISplitNextFirst? then pc + 1 else pc + 1 + i.off;
      var pc2 := if i.ISplitNextFirst? then pc + 1 + i.off else pc + 1;
      var above := g.base + [Saved(Split, 0, s, pc2, stk)];
      assert Step(x, p, Run(pc, s, stk, g.base)) == Run(pc1, s, stk, above);
      hide Step, Yields, InRange;
      assert g.(base := g.base) == g;
      YieldsSplit(x, p, g, Run(pc, s, stk, g.base), s, stk, pc1, pc2, n);
    }
  }

  lemma BehavesAhead(x: Ctx, p: Prog, g: Goal, pc: int, n: nat)
    requires StOk(x, g.s) && Behaves(x, p, g.scope, pc, g.pc)
    ensures Ahead(x, p, g, pc, g.s, g.stk, n)
  {
    hide Behaves, Yields, StOk;
    forall b, m: nat | m < n
      ensures Yields(x, p, g.(base := b), Run(pc, g.s, g.stk, b), m)
    {
      BehavesAt(x, p, g.scope, pc, g.pc, g.s, g.stk, b, m);
    }
  }

  lemma {:induction false} GotoYields(x: Ctx, p: Prog, g: Goal, off: int, pc: int, s: St, stk: seq<int>, n: nat)
    requires InRange(x, s) && 0 <= pc < |p| && p[pc] == IGoto(off)
    requires n > 0 ==> Yields(x, p, g, Run(pc + 1 + off, s, stk, g.base), n - 1)
    ensures Yields(x, p, g, Run(pc, s, stk, g.base), n)
  {
    assert Step(x, p, Run(pc, s, stk, g.base)) == Run(pc + 1 + off, s, stk, g.base);
    hide Step, Met;
  }

  /** A body followed by a jump to the end. */
  lemma JumpBehaves(x: Ctx, p: Prog, scope: Scope, off: int, pc: int, mid: int, end: int)
    requires 0 <= mid < |p| && p[mid] == IGoto(off) && end == mid + 1 + off
    requires Behaves(x, p, scope, pc, mid)
    ensures Behaves(x, p, scope, pc, end)
  {
    hide Met, StOk, Behaves;
    forall s, stk, b, n: nat | StOk(x, s)
      ensures Yields(x, p, Goal(Idle(scope), s, end, stk, b), Run(mid, s, stk, b), n)
    {
      var g := Goal(Idle(scope), s, end, stk, b);
      assert {} in g.scope.ways;
      MetSelf(x, g);
      MetOk(x, g, s);
      if n > 0 {
        YieldsHere(x, p, g, s, n - 1);
      }
      GotoYields(x, p, g, off, mid, s, stk, n);
    }
    BehavesIf(x, p, Idle(scope), mid, end);
    AlongsideBehaves(x, p, scope, pc, mid, end);
  }

  lemma AltBehaves(x: Ctx, p: Prog, scope: Scope, m: nat, pc: int, end: int)
    requires 0 <= pc && pc + m + 2 <= end <= |p| && scope.ways != {}
    requires p[pc] == ISplitNextFirst(m + 1) && p[pc + 1 + m] == IGoto(end - (pc + m + 2))
    requires Behaves(x, p, scope, pc + 1, pc + 1 + m) && Behaves(x, p, scope, pc + m + 2, end)
    ensures Behaves(x, p, scope, pc, end)
  {
    hide Yields, Met, Behaves;
    JumpBehaves(x, p, scope, end - (pc + m + 2), pc + 1, pc + 1 + m, end);
    forall s, stk, b, n: nat | StOk(x, s)
      ensures Yields(x, p, Goal(scope, s, end, stk, b), Run(pc, s, stk, b), n)
    {
      var g := Goal(scope, s, end, stk, b);
      MetSelf(x, g);
      MetOk(x, g, s);
      BehavesAhead(x, p, g, pc + 1, n);
      BehavesAhead(x, p, g, pc + m + 2, n);
      BranchYields(x, p, g, ISplitNextFirst(m + 1), pc, s, stk, n);
    }
    BehavesIf(x, p, scope, pc, end);
  }

  // ---------------------------------------------------------------- lookarounds

  /** The body of a lookaround runs above the saved state `mark`.  When it arrives at its `match`, or fails, that
      state decides; the groups of a negative one are left alone. */
  lemma {:induction false} MarkYields(x: Ctx, p: Prog, inner: Goal, g: Goal, mark: Saved, c: Cfg, n: nat)
    requires (mark.kind == Lookahead || mark.kind == NegLookahead) && mark.s == inner.s == g.s && mark.pc == g.pc
    requires mark.stk == g.stk && inner.base == g.base + [mark] && StOk(x, g.s) && 0 <= inner.pc < |p|
    requires p[inner.pc] == IMatch && inner.scope.k == g.scope.k && inner.scope.n == g.scope.n
    requires (mark.kind == Lookahead ==> inner.scope.ways == g.scope.ways) && g.scope.ways != {}
    requires Yields(x, p, inner, c, n)
    ensures Yields(x, p, g, c, n)
    decreases n
  {
    hide Step, Met, StOk;
    if n > 0 && !c.Crash? {
      if c == Fail(inner.base) {
        MarkFails(x, p, g, mark, n);
      } else if Arrives(inner, c) && Met(x, inner, c.s) && Yields(x, p, inner, Fail(c.saved), n - 1) {
        var d := c.saved[|inner.base|..];
        assert c.saved == g.base + [mark] + d;
        MetOk(x, inner, c.s);
        MatchStep(x, p, inner.pc, c.s, c.stk, c.saved);
        MarkHolds(x, p, inner, g, mark, c.s, d, n - 1);
      } else {
        MarkYields(x, p, inner, g, mark, Step(x, p, c), n - 1);
      }
    }
  }

  lemma MatchStep(x: Ctx, p: Prog, pc: int, s: St, stk: seq<int>, saved: seq<Saved>)
    requires InRange(x, s) && 0 <= pc < |p| && p[pc] == IMatch
    ensures Step(x, p, Run(pc, s, stk, saved)) == Succeed(s, saved)
  {
  }

  lemma {:induction false} MarkFails(x: Ctx, p: Prog, g: Goal, mark: Saved, n: nat)
    requires (mark.kind == Lookahead || mark.kind == NegLookahead) && mark.s == g.s && mark.pc == g.pc &&
             mark.stk == g.stk
    requires StOk(x, g.s) && g.scope.ways != {}
    ensures Yields(x, p, g, Fail(g.base + [mark]), n)
  {
    var above := g.base + [mark];
    assert above[..|above| - 1] == g.base;
    assert Step(x, p, Fail(above)) == if mark.kind == NegLookahead then Run(g.pc, g.s, g.stk, g.base) else Fail(g.base);
    hide Step, Met, StOk;
    if n > 0 {
      MetSelf(x, g);
      YieldsHere(x, p, g, g.s, n - 1);
    }
  }

  lemma {:induction false} MarkHolds(x: Ctx, p: Prog, inner: Goal, g: Goal, mark: Saved, t: St, d: seq<Saved>, n: nat)
    requires (mark.kind == Lookahead || mark.kind == NegLookahead) && mark.s == inner.s == g.s && mark.pc == g.pc
    requires mark.stk == g.stk && inner.scope.k == g.scope.k && inner.scope.n == g.scope.n && StOk(x, g.s)
    requires (mark.kind == Lookahead ==> inner.scope.ways == g.scope.ways) && g.scope.ways != {}
    requires Met(x, inner, t) && Choices(d)
    ensures Yields(x, p, g, Succeed(t, g.base + [mark] + d), n)
    decreases n
  {
    if n > 0 {
      var saved := g.base + [mark] + d;
      if |d| > 0 {
        var e := d[..|d| - 1];
        assert d == e + [d[|d| - 1]] && d[|d| - 1] in d;
        assert saved[..|saved| - 1] == g.base + [mark] + e;
        MarkHolds(x, p, inner, g, mark, t, e, n - 1);
      } else {
        assert saved == g.base + [mark];
        MarkTaken(x, p, inner, g, mark, t, n);
      }
    }
  }

  /** The mark is on top. */
  lemma {:induction false} MarkTaken(x: Ctx, p: Prog, inner: Goal, g: Goal, mark: Saved, t: St, n: nat)
    requires (mark.kind == Lookahead || mark.kind == NegLookahead) && mark.s == inner.s == g.s && mark.pc == g.pc
    requires mark.stk == g.stk && inner.scope.k == g.scope.k && inner.scope.n == g.scope.n && StOk(x, g.s)
    requires mark.kind == Lookahead ==> inner.scope.ways == g.scope.ways
    requires Met(x, inner, t) && n > 0
    ensures Yields(x, p, g, Succeed(t, g.base + [mark]), n)
  {
    hide Met, StOk;
    var saved, u := g.base + [mark], St(g.s.pos, t.caps);
    assert saved[..|saved| - 1] == g.base;
    if mark.kind == Lookahead {
      assert Step(x, p, Succeed(t, saved)) == Run(g.pc, u, g.stk, g.base);
      MetLook(x, inner, g, t);
      YieldsHere(x, p, g, u, n - 1);
    } else {
      assert Step(x, p, Succeed(t, saved)) == Fail(g.base);
    }
  }

  /** A positive lookaround keeps the cursor and the captures of its body. */
  lemma MetLook(x: Ctx, inner: Goal, g: Goal, t: St)
    requires inner.s == g.s && inner.scope.k == g.scope.k && inner.scope.n == g.scope.n
    requires inner.scope.ways == g.scope.ways && StOk(x, g.s) && Met(x, inner, t)
    ensures Met(x, g, St(g.s.pos, t.caps))
  {
    hide Kept;
    var w :| w in inner.scope.ways && Kept(g.scope.k, g.scope.n, w, g.s, t);
    SameCaps(g.scope.k, g.scope.n, w, g.s, t, St(g.s.pos, t.caps));
  }

  lemma LookBehaves(x: Ctx, p: Prog, small: Scope, scope: Scope, negative: bool, pc: int, end: int)
    requires small.k == scope.k && small.n == scope.n && (!negative ==> small.ways == scope.ways) && scope.ways != {}
    requires 0 <= pc < end - 1 && end <= |p| && p[end - 1] == IMatch
    requires p[pc] == if negative then INegLook(end - pc - 1) else ILook(end - pc - 1)
    requires Behaves(x, p, small, pc + 1, end - 1)
    ensures Behaves(x, p, scope, pc, end)
  {
    hide Yields, Met, Behaves;
    forall s, stk, b, n: nat | StOk(x, s)
      ensures Yields(x, p, Goal(scope, s, end, stk, b), Run(pc, s, stk, b), n)
    {
      LookYields(x, p, small, Goal(scope, s, end, stk, b), negative, pc, n);
    }
    BehavesIf(x, p, scope, pc, end);
  }

  lemma {:induction false} LookYields(x: Ctx, p: Prog, small: Scope, g: Goal, negative: bool, pc: int, n: nat)
    requires small.k == g.scope.k && small.n == g.scope.n && (!negative ==> small.ways == g.scope.ways)
    requires StOk(x, g.s) && g.scope.ways != {}
    requires 0 <= pc < g.pc - 1 && g.pc <= |p| && p[g.pc - 1] == IMatch
    requires p[pc] == if negative then INegLook(g.pc - pc - 1) else ILook(g.pc - pc - 1)
    requires Behaves(x, p, small, pc + 1, g.pc - 1)
    ensures Yields(x, p, g, Run(pc, g.s, g.stk, g.base), n)
  {
    if n > 0 {
      var mark := Saved(if negative then NegLookahead else Lookahead, 0, g.s, g.pc, g.stk);
      var inner := Goal(small, g.s, g.pc - 1, g.stk, g.base + [mark]);
      assert Step(x, p, Run(pc, g.s, g.stk, g.base)) == Run(pc + 1, g.s, g.stk, inner.base);
      hide Step, Met, Behaves, StOk;
      BehavesAt(x, p, small, pc + 1, g.pc - 1, g.s, g.stk, inner.base, n - 1);
      MarkYields(x, p, inner, g, mark, Run(pc + 1, g.s, g.stk, inner.base), n - 1);
    }
  }

  // ---------------------------------------------------------------- loops

  /** Straight to the end of the loop. */
  lemma HereAhead(x: Ctx, p: Prog, g: Goal, t: St, n: nat)
    requires Met(x, g, t)
    ensures Ahead(x, p, g, g.pc, t, g.stk, n)
  {
    hide Yields, Met;
    forall b, m: nat | m < n
      ensures Yields(x, p, g.(base := b), Run(g.pc, t, g.stk, b), m)
    {
      MetElsewhere(x, g, g.(base := b), t);
      YieldsHere(x, p, g.(base := b), t, m);
    }
  }

  /** The optional body. */
  lemma OptionBehaves(x: Ctx, p: Prog, scope: Scope, greedy: bool, pc: int, end: int)
    requires 0 <= pc < end <= |p| && p[pc] == Branch(greedy, end - pc - 1) && Behaves(x, p, scope, pc + 1, end)
    requires scope.ways != {}
    ensures Behaves(x, p, scope, pc, end)
  {
    hide Yields, Met, Behaves;
    forall s, stk, b, n: nat | StOk(x, s)
      ensures Yields(x, p, Goal(scope, s, end, stk, b), Run(pc, s, stk, b), n)
    {
      var g := Goal(scope, s, end, stk, b);
      MetSelf(x, g);
      MetOk(x, g, s);
      HereAhead(x, p, g, s, n);
      BehavesAhead(x, p, g, pc + 1, n);
      BranchYields(x, p, g, p[pc], pc, s, stk, n);
    }
    BehavesIf(x, p, scope, pc, end);
  }

  /** The head of an unbounded loop of `len` instructions, with or without the zero-advance check. */
  predicate StarAt(p: Prog, check: bool, greedy: bool, len: nat, pc: int, end: int) {
    var j := if check then 2 else 1;
    && 0 <= pc && end == pc + j + len + 1 <= |p| && p[pc] == Branch(greedy, len + j)
    && if check then p[pc + 1] == IPushCharPos && p[pc + 2 + len] == IBneCharPos(-(len + 3))
       else p[pc + 1 + len] == IGoto(-(len + 2))
  }

  lemma {:induction false} StarYields(x: Ctx, p: Prog, g: Goal, check: bool, greedy: bool, len: nat, pc: int, n: nat)
    requires StOk(x, g.s) && StarAt(p, check, greedy, len, pc, g.pc) && Repeats(g.scope)
    requires Behaves(x, p, g.scope, pc + if check then 2 else 1, g.pc - 1)
    ensures Yields(x, p, g, Run(pc, g.s, g.stk, g.base), n)
    decreases n, 2
  {
    hide Yields, Met, Behaves, StOk;
    MetSelf(x, g);
    MetOk(x, g, g.s);
    HereAhead(x, p, g, g.s, n);
    var next := pc + 1;
    forall b, m: nat | m < n
      ensures Yields(x, p, g.(base := b), Run(next, g.s, g.stk, b), m)
    {
      StarBody(x, p, g.(base := b), check, greedy, len, pc, m);
    }
    AheadIf(x, p, g, next, g.s, g.stk, n);
    BranchYields(x, p, g, p[pc], pc, g.s, g.stk, n);
  }

  lemma {:induction false} AheadIf(x: Ctx, p: Prog, g: Goal, pc: int, s: St, stk: seq<int>, n: nat)
    requires forall b, m: nat :: m < n ==> Yields(x, p, g.(base := b), Run(pc, s, stk, b), m)
    ensures Ahead(x, p, g, pc, s, stk, n)
  {
    hide Yields;
  }

  lemma {:induction false} StarBody(x: Ctx, p: Prog, g: Goal, check: bool, greedy: bool, len: nat, pc: int, n: nat)
    requires StOk(x, g.s) && StarAt(p, check, greedy, len, pc, g.pc) && Repeats(g.scope)
    requires Behaves(x, p, g.scope, pc + if check then 2 else 1, g.pc - 1)
    ensures Yields(x, p, g, Run(pc + 1, g.s, g.stk, g.base), n)
    decreases n, 1
  {
    hide Met, Behaves, StOk, Step;
    var body, mid, stk := pc + if check then 2 else 1, g.pc - 1, g.stk + if check then [g.s.pos] else [];
    forall t, b, m: nat | m <= n && Met(x, Goal(g.scope, g.s, mid, stk, g.base), t)
      ensures Yields(x, p, g.(base := b), Run(mid, t, stk, b), m)
    {
      MetElsewhere(x, Goal(g.scope, g.s, mid, stk, g.base), g.(base := b), t);
      StarLatch(x, p, g.(base := b), check, greedy, len, pc, t, m);
    }
    if check {
      if n > 0 {
        PushStep(x, p, pc + 1, g.s, g.stk, g.base);
        BodyYields(x, p, g.scope, g, g.s, body, mid, stk, n - 1);
      }
    } else {
      assert stk == g.stk;
      BodyYields(x, p, g.scope, g, g.s, body, mid, stk, n);
    }
  }

  lemma PushStep(x: Ctx, p: Prog, pc: int, s: St, stk: seq<int>, b: seq<Saved>)
    requires StOk(x, s) && 0 <= pc < |p| && p[pc] == IPushCharPos
    ensures Step(x, p, Run(pc, s, stk, b)) == Run(pc + 1, s, stk + [s.pos], b)
  {
  }

  lemma {:induction false} StarLatch(x: Ctx, p: Prog, g: Goal, check: bool, greedy: bool, len: nat, pc: int, t: St,
                                     n: nat)
    requires StOk(x, g.s) && Met(x, g, t) && StarAt(p, check, greedy, len, pc, g.pc) && Repeats(g.scope)
    requires Behaves(x, p, g.scope, pc + if check then 2 else 1, g.pc - 1)
    ensures Yields(x, p, g, Run(g.pc - 1, t, g.stk + if check then [g.s.pos] else [], g.base), n)
    decreases n, 0
  {
    hide Met, Behaves, StOk, Step;
    if n > 0 {
      MetOk(x, g, t);
      LatchStep(x, p, check, greedy, len, pc, g.pc, g.s, t, g.stk, g.base);
      if check && t.pos == g.s.pos {
        YieldsHere(x, p, g, t, n - 1);
      } else {
        StarYields(x, p, g.(s := t), check, greedy, len, pc, n - 1);
        YieldsFrom(x, p, g, t, Run(pc, t, g.stk, g.base), n - 1);
      }
    }
  }

  lemma LatchStep(x: Ctx, p: Prog, check: bool, greedy: bool, len: nat, pc: int, end: int, s: St, t: St, stk: seq<int>,
                  b: seq<Saved>)
    requires StOk(x, t) && StarAt(p, check, greedy, len, pc, end)
    ensures Step(x, p, Run(end - 1, t, stk + if check then [s.pos] else [], b)) ==
            Run(if check && t.pos == s.pos then end else pc, t, stk, b)
  {
    hide StepLoop, StepFail, StepSucceed, Eval;
    if check {
      assert (stk + [s.pos])[..|stk|] == stk;
    } else {
      assert stk + [] == stk;
    }
  }

  lemma StarBehaves(x: Ctx, p: Prog, scope: Scope, check: bool, greedy: bool, len: nat, pc: int, end: int)
    requires StarAt(p, check, greedy, len, pc, end) && Behaves(x, p, scope, pc + if check then 2 else 1, end - 1)
    requires Repeats(scope)
    ensures Behaves(x, p, scope, pc, end)
  {
    hide Behaves, Yields;
    forall s, stk, b, n: nat | StOk(x, s)
      ensures Yields(x, p, Goal(scope, s, end, stk, b), Run(pc, s, stk, b), n)
    {
      StarYields(x, p, Goal(scope, s, end, stk, b), check, greedy, len, pc, n);
    }
    BehavesIf(x, p, scope, pc, end);
  }

  /** The branch that ends a `+` loop. */
  lemma {:induction false} PlusYields(x: Ctx, p: Prog, g: Goal, greedy: bool, len: nat, pc: int, n: nat)
    requires StOk(x, g.s) && len <= pc < |p| && g.pc == pc + 1 && p[pc] == PlusBranch(len, greedy) && Repeats(g.scope)
    requires Behaves(x, p, g.scope, pc - len, pc)
    ensures Yields(x, p, g, Run(pc, g.s, g.stk, g.base), n)
    decreases n
  {
    hide Yields, Met, Behaves, StOk;
    MetSelf(x, g);
    MetOk(x, g, g.s);
    HereAhead(x, p, g, g.s, n);
    var first := pc - len;
    forall b, m: nat | m < n
      ensures Yields(x, p, g.(base := b), Run(first, g.s, g.stk, b), m)
    {
      forall t, c, k: nat | k <= m && Met(x, Goal(g.scope, g.s, pc, g.stk, b), t)
        ensures Yields(x, p, g.(base := b).(base := c), Run(pc, t, g.stk, c), k)
      {
        MetElsewhere(x, Goal(g.scope, g.s, pc, g.stk, b), g.(base := c), t);
        MetOk(x, g.(base := c), t);
        PlusYields(x, p, g.(base := c).(s := t), greedy, len, pc, k);
        YieldsFrom(x, p, g.(base := c), t, Run(pc, t, g.stk, c), k);
      }
      BodyYields(x, p, g.scope, g.(base := b), g.s, first, pc, g.stk, m);
    }
    AheadIf(x, p, g, first, g.s, g.stk, n);
    BranchYields(x, p, g, p[pc], pc, g.s, g.stk, n);
  }

  lemma PlusBehaves(x: Ctx, p: Prog, scope: Scope, greedy: bool, len: nat, pc: int, end: int)
    requires 0 <= pc && end == pc + len + 1 <= |p| && p[pc + len] == PlusBranch(len, greedy)
    requires Behaves(x, p, scope, pc, pc + len) && Repeats(scope)
    ensures Behaves(x, p, scope, pc, end)
  {
    hide Behaves, Yields;
    var mid := pc + len;
    forall s, stk, b, n: nat | StOk(x, s)
      ensures Yields(x, p, Goal(scope, s, end, stk, b), Run(mid, s, stk, b), n)
    {
      PlusYields(x, p, Goal(scope, s, end, stk, b), greedy, len, mid, n);
    }
    BehavesIf(x, p, scope, mid, end);
    ThenBehaves(x, p, scope, scope, scope, pc, mid, end);
  }

  // ---------------------------------------------------------------- counted loops

  /** `drop` at the end of a counted loop. */
  lemma DropYields(x: Ctx, p: Prog, g: Goal, c: int, t: St, n: nat)
    requires Met(x, g, t) && 0 < g.pc <= |p| && p[g.pc - 1] == IDrop
    ensures Yields(x, p, g, Run(g.pc - 1, t, g.stk + [c], g.base), n)
  {
    assert (g.stk + [c])[..|g.stk|] == g.stk;
    MetOk(x, g, t);
    if n > 0 {
      assert Step(x, p, Run(g.pc - 1, t, g.stk + [c], g.base)) == Run(g.pc, t, g.stk, g.base);
      YieldsHere(x, p, g, t, n - 1);
    }
  }

  lemma CountStep(x: Ctx, p: Prog, off: int, pc: int, t: St, stk: seq<int>, c: int, b: seq<Saved>)
    requires InRange(x, t) && 0 <= pc < |p| && p[pc] == ILoop(off)
    ensures Step(x, p, Run(pc, t, stk + [c], b)) == Run(if c != 1 then pc + 1 + off else pc + 1, t, stk + [c - 1], b)
  {
    assert (stk + [c])[..|stk|] == stk;
  }

  /** `loop` and `drop`: another iteration, with the counter one less, or the end. */
  lemma CountYields(x: Ctx, p: Prog, g: Goal, off: int, c: int, t: St, n: nat)
    requires Met(x, g, t) && 1 < g.pc <= |p| && p[g.pc - 1] == IDrop && p[g.pc - 2] == ILoop(off)
    requires n > 0 ==> Yields(x, p, g, Run(g.pc - 1 + off, t, g.stk + [c - 1], g.base), n - 1)
    ensures Yields(x, p, g, Run(g.pc - 2, t, g.stk + [c], g.base), n)
  {
    hide Met, Step;
    MetOk(x, g, t);
    CountStep(x, p, off, g.pc - 2, t, g.stk, c, g.base);
    if n > 0 {
      DropYields(x, p, g, c - 1, t, n - 1);
    }
  }

  /** The loop of an exact count; the counter is on the stack. */
  lemma {:induction false} ExactYields(x: Ctx, p: Prog, g: Goal, c: int, len: nat, pc: int, n: nat)
    requires StOk(x, g.s) && 0 <= pc && g.pc == pc + len + 2 <= |p| && Repeats(g.scope)
    requires p[pc + len] == ILoop(-(len + 1)) && p[pc + len + 1] == IDrop && Behaves(x, p, g.scope, pc, pc + len)
    ensures Yields(x, p, g, Run(pc, g.s, g.stk + [c], g.base), n)
    decreases n
  {
    hide Yields, Met, Behaves, StOk;
    var mid, stk := pc + len, g.stk + [c];
    forall t, b, m: nat | m <= n && Met(x, Goal(g.scope, g.s, mid, stk, g.base), t)
      ensures Yields(x, p, g.(base := b), Run(mid, t, stk, b), m)
    {
      var here := g.(base := b);
      MetElsewhere(x, Goal(g.scope, g.s, mid, stk, g.base), here, t);
      MetOk(x, here, t);
      if m > 0 {
        ExactYields(x, p, here.(s := t), c - 1, len, pc, m - 1);
        YieldsFrom(x, p, here, t, Run(pc, t, g.stk + [c - 1], b), m - 1);
      }
      CountYields(x, p, here, -(len + 1), c, t, m);
    }
    BodyYields(x, p, g.scope, g, g.s, pc, mid, stk, n);
  }

  /** The branch of a bounded loop; the counter is on the stack. */
  lemma {:induction false} UptoYields(x: Ctx, p: Prog, g: Goal, greedy: bool, c: int, len: nat, pc: int, n: nat)
    requires StOk(x, g.s) && 0 <= pc && g.pc == pc + len + 3 <= |p| && p[pc] == Branch(greedy, len + 1)
    requires Repeats(g.scope)
    requires p[pc + 1 + len] == ILoop(-(len + 2)) && p[pc + len + 2] == IDrop
    requires Behaves(x, p, g.scope, pc + 1, pc + 1 + len)
    ensures Yields(x, p, g, Run(pc, g.s, g.stk + [c], g.base), n)
    decreases n, 1
  {
    hide Yields, Met, Behaves, StOk;
    var next, drop, stk := pc + 1, pc + len + 2, g.stk + [c];
    MetSelf(x, g);
    MetOk(x, g, g.s);
    forall b, m: nat | m < n
      ensures Yields(x, p, g.(base := b), Run(next, g.s, stk, b), m)
    {
      UptoBody(x, p, g.(base := b), greedy, c, len, pc, m);
    }
    AheadIf(x, p, g, next, g.s, stk, n);
    forall b, m: nat | m < n
      ensures Yields(x, p, g.(base := b), Run(drop, g.s, stk, b), m)
    {
      MetElsewhere(x, g, g.(base := b), g.s);
      DropYields(x, p, g.(base := b), c, g.s, m);
    }
    AheadIf(x, p, g, drop, g.s, stk, n);
    BranchYields(x, p, g, p[pc], pc, g.s, stk, n);
  }

  lemma {:induction false} UptoBody(x: Ctx, p: Prog, g: Goal, greedy: bool, c: int, len: nat, pc: int, n: nat)
    requires StOk(x, g.s) && 0 <= pc && g.pc == pc + len + 3 <= |p| && p[pc] == Branch(greedy, len + 1)
    requires Repeats(g.scope)
    requires p[pc + 1 + len] == ILoop(-(len + 2)) && p[pc + len + 2] == IDrop
    requires Behaves(x, p, g.scope, pc + 1, pc + 1 + len)
    ensures Yields(x, p, g, Run(pc + 1, g.s, g.stk + [c], g.base), n)
    decreases n, 0
  {
    hide Yields, Met, Behaves, StOk;
    var mid, stk := pc + 1 + len, g.stk + [c];
    forall t, b, m: nat | m <= n && Met(x, Goal(g.scope, g.s, mid, stk, g.base), t)
      ensures Yields(x, p, g.(base := b), Run(mid, t, stk, b), m)
    {
      var here := g.(base := b);
      MetElsewhere(x, Goal(g.scope, g.s, mid, stk, g.base), here, t);
      MetOk(x, here, t);
      if m > 0 {
        UptoYields(x, p, here.(s := t), greedy, c - 1, len, pc, m - 1);
        YieldsFrom(x, p, here, t, Run(pc, t, g.stk + [c - 1], b), m - 1);
      }
      CountYields(x, p, here, -(len + 2), c, t, m);
    }
    BodyYields(x, p, g.scope, g, g.s, pc + 1, mid, stk, n);
  }

  lemma PushCountStep(x: Ctx, p: Prog, c: nat, pc: int, t: St, stk: seq<int>, b: seq<Saved>)
    requires StOk(x, t) && 0 <= pc < |p| && p[pc] == IPushI32(c)
    ensures Step(x, p, Run(pc, t, stk, b)) == Run(pc + 1, t, stk + [c], b)
  {
  }

  lemma ExactBehaves(x: Ctx, p: Prog, scope: Scope, c: nat, len: nat, pc: int, end: int)
    requires 0 <= pc && end == pc + len + 3 <= |p| && p[pc] == IPushI32(c) && Repeats(scope)
    requires p[pc + 1 + len] == ILoop(-(len + 1)) && p[pc + len + 2] == IDrop &&
             Behaves(x, p, scope, pc + 1, pc + 1 + len)
    ensures Behaves(x, p, scope, pc, end)
  {
    hide Behaves, StOk, Met, Step;
    forall s, stk, b, n: nat | StOk(x, s)
      ensures Yields(x, p, Goal(scope, s, end, stk, b), Run(pc, s, stk, b), n)
    {
      if n > 0 {
        PushCountStep(x, p, c, pc, s, stk, b);
        ExactYields(x, p, Goal(scope, s, end, stk, b), c, len, pc + 1, n - 1);
      }
    }
    BehavesIf(x, p, scope, pc, end);
  }

  lemma UptoBehaves(x: Ctx, p: Prog, scope: Scope, greedy: bool, c: nat, len: nat, pc: int, end: int)
    requires 0 <= pc && end == pc + len + 4 <= |p| && p[pc] == IPushI32(c) && p[pc + 1] == Branch(greedy, len + 1)
    requires Repeats(scope)
    requires p[pc + 2 + len] == ILoop(-(len + 2)) && p[pc + len + 3] == IDrop &&
             Behaves(x, p, scope, pc + 2, pc + 2 + len)
    ensures Behaves(x, p, scope, pc, end)
  {
    hide Behaves, StOk, Met, Step;
    forall s, stk, b, n: nat | StOk(x, s)
      ensures Yields(x, p, Goal(scope, s, end, stk, b), Run(pc, s, stk, b), n)
    {
      if n > 0 {
        PushCountStep(x, p, c, pc, s, stk, b);
        UptoYields(x, p, Goal(scope, s, end, stk, b), greedy, c, len, pc + 1, n - 1);
      }
    }
    BehavesIf(x, p, scope, pc, end);
  }

  // ---------------------------------------------------------------- simple_greedy_quant

  /** From a character boundary, fewer characters before the cursor means further left. */
  lemma {:induction false} CharsLess(t: Subject, a: nat, b: nat)
    requires Boundary(t, a) && a < b <= |t.units|
    ensures Chars(t, a) < Chars(t, b)
    decreases b
  {
    if a < PrevPos(t, b) {
      CharsLess(t, a, PrevPos(t, b));
    }
  }

  /** `t` has the captures of the start and at least `room` characters between the start and its cursor. */
  ghost predicate Along(x: Ctx, g: Goal, t: St, room: nat) {
    StOk(x, g.s) && StOk(x, t) && t.caps == g.s.caps &&
    Chars(x.subject, g.s.pos) + room <= Chars(x.subject, t.pos)
  }

  lemma AlongMet(x: Ctx, g: Goal, t: St, room: nat)
    requires !g.scope.back && g.scope.ways != {} && Along(x, g, t, room)
    ensures Met(x, g, t)
  {
    hide Chars, KeptIn;
    if t.pos < g.s.pos {
      CharsLess(x.subject, t.pos, g.s.pos);
    }
    MetSame(x, g, t);
  }

  /** The counting instruction at `pc`, with its atom. */
  predicate CountsAt(p: Prog, pc: int, end: int) {
    0 <= pc < |p| && p[pc].ISimpleGreedy? && p[pc].off > 0 && end == pc + 1 + p[pc].off &&
    CountedAtom(p, pc + 1, p[pc].off - 1, p[pc].len)
  }

  lemma EarlierAlong(x: Ctx, g: Goal, t: St, count: nat, len: nat)
    requires Along(x, g, t, count * len) && count > 0
    ensures len <= Chars(x.subject, t.pos) && Along(x, g, Earlier(x, len, t), (count - 1) * len)
  {
    hide Chars;
    assert count * len == (count - 1) * len + len;
    BackBoundary(x.subject, len, t.pos);
  }

  lemma GiveStep(x: Ctx, p: Prog, t: St, count: nat, pc: int, stk: seq<int>, b: seq<Saved>)
    requires 0 <= pc < |p| && p[pc].ISimpleGreedy? && t.pos <= Len(x) && p[pc].len <= Chars(x.subject, t.pos) &&
             count > 0
    ensures var u := Earlier(x, p[pc].len, t);
            Step(x, p, Fail(b + [Saved(GreedyQuant, count, t, pc, stk)])) ==
            Run(pc + 1 + p[pc].off, u, stk, if count == 1 then b else b + [Saved(GreedyQuant, count - 1, u, pc, stk)])
  {
    var above := b + [Saved(GreedyQuant, count, t, pc, stk)];
    assert above[..|above| - 1] == b;
  }

  /** What a saved state with a count offers. */
  lemma {:induction false} GiveYields(x: Ctx, p: Prog, g: Goal, t: St, count: nat, pc: int, n: nat)
    requires !g.scope.back && g.scope.ways != {} && CountsAt(p, pc, g.pc) && Along(x, g, t, count * p[pc].len) &&
             count > 0
    ensures Yields(x, p, g, Fail(g.base + [Saved(GreedyQuant, count, t, pc, g.stk)]), n)
    decreases n, 0
  {
    hide Met, Chars, Step, Along;
    if n > 0 {
      EarlierAlong(x, g, t, count, p[pc].len);
      AlongInside(x, g, t, count * p[pc].len);
      GiveStep(x, p, t, count, pc, g.stk, g.base);
      PendingYields(x, p, g, Earlier(x, p[pc].len, t), count - 1, pc, n - 1);
    }
  }

  lemma AlongInside(x: Ctx, g: Goal, t: St, room: nat)
    requires Along(x, g, t, room)
    ensures t.pos <= Len(x) && InRange(x, t)
  {
  }

  /** The exit of the loop with `count` iterations to give back. */
  lemma {:induction false} PendingYields(x: Ctx, p: Prog, g: Goal, t: St, count: nat, pc: int, n: nat)
    requires !g.scope.back && g.scope.ways != {} && CountsAt(p, pc, g.pc) && Along(x, g, t, count * p[pc].len)
    ensures var d := if count == 0 then [] else [Saved(GreedyQuant, count, t, pc, g.stk)];
            Yields(x, p, g, Run(g.pc, t, g.stk, if count == 0 then g.base else g.base + d), n)
    decreases n, 1
  {
    hide Met, Chars, Step, Along;
    AlongMet(x, g, t, count * p[pc].len);
    if count == 0 {
      YieldsHere(x, p, g, t, n);
    } else if n > 0 {
      GiveYields(x, p, g, t, count, pc, n - 1);
      var d := [Saved(GreedyQuant, count, t, pc, g.stk)];
      assert (g.base + d)[|g.base|..] == d;
    }
  }

  lemma {:induction false} EndYields(x: Ctx, p: Prog, g: Goal, t: St, q: nat, pc: int, n: nat)
    requires !g.scope.back && g.scope.ways != {} && CountsAt(p, pc, g.pc) && Along(x, g, t, q * p[pc].len)
    ensures Yields(x, p, g, EndLoop(p[pc], pc, q, t, g.stk, g.base), n)
  {
    hide Chars, Step, Yields;
    var min, len := p[pc].min, p[pc].len;
    if q < min {
      YieldsFail(x, p, g, n);
    } else {
      assert (q - min) * len <= q * len;
      PendingYields(x, p, g, t, q - min, pc, n);
    }
  }

  lemma {:induction false} YieldsFail(x: Ctx, p: Prog, g: Goal, n: nat)
    ensures Yields(x, p, g, Fail(g.base), n)
  {
  }

  /** The counting loop, after `q` iterations. */
  lemma {:induction false} CountingYields(x: Ctx, p: Prog, g: Goal, t: St, q: nat, pc: int, n: nat)
    requires !g.scope.back && g.scope.ways != {} && CountsAt(p, pc, g.pc) && Along(x, g, t, q * p[pc].len)
    ensures Yields(x, p, g, Loop(pc, q, t, g.stk, g.base), n)
    decreases n
  {
    hide Met, Chars, Along, EndLoop, ScanAtom, CountedAtom;
    if n > 0 {
      var len := p[pc].len;
      AlongInside(x, g, t, q * len);
      var r := ScanAtom(x, p, pc + 1, t);
      AlongScan(x, p, g, t, q, pc);
      if r.Miss? {
        EndYields(x, p, g, t, q, pc, n - 1);
      } else {
        EndYields(x, p, g, St(r.pos, t.caps), q + 1, pc, n - 1);
        CountingYields(x, p, g, St(r.pos, t.caps), q + 1, pc, n - 1);
      }
    }
  }

  lemma {:induction false} AlongScan(x: Ctx, p: Prog, g: Goal, t: St, q: nat, pc: int)
    requires CountsAt(p, pc, g.pc) && Along(x, g, t, q * p[pc].len)
    ensures InRange(x, t) && ScanAtom(x, p, pc + 1, t) != Stuck
    ensures var r := ScanAtom(x, p, pc + 1, t); r.Hit? ==> Along(x, g, St(r.pos, t.caps), (q + 1) * p[pc].len)
  {
    hide Chars, ScanAtom, CountedAtom;
    ScanRuns(x, p, pc + 1, p[pc].off - 1, p[pc].len, t);
    assert (q + 1) * p[pc].len == q * p[pc].len + p[pc].len;
  }

  lemma SimpleBehaves(x: Ctx, p: Prog, scope: Scope, pc: int, end: int)
    requires !scope.back && scope.ways != {} && CountsAt(p, pc, end)
    ensures Behaves(x, p, scope, pc, end)
  {
    hide Behaves, Along, Chars, CountedAtom;
    forall s, stk, b, n: nat | StOk(x, s)
      ensures Yields(x, p, Goal(scope, s, end, stk, b), Run(pc, s, stk, b), n)
    {
      if n > 0 {
        var g := Goal(scope, s, end, stk, b);
        AlongStart(x, g);
        CountingYields(x, p, g, s, 0, pc, n - 1);
      }
    }
    BehavesIf(x, p, scope, pc, end);
  }

  lemma AlongStart(x: Ctx, g: Goal)
    requires StOk(x, g.s)
    ensures Along(x, g, g.s, 0)
  {
  }
}
