/** What runs of a piece of code do as far as they go.

    `Simulation` speaks of runs that end.  Code whose loops carry no check need not end, and what is said
    here holds for it as well: for any number of steps, a run either is still under way inside the code,
    or arrives at its end in a state that meets a goal, or fails below the saved states it began with. */
module Partial {
  import opened Regex
  import opened Matcher
  import opened Machine
  import opened Simulation
  import opened Compiled
  import opened Captures

  /** Which way a term moves, which groups it owns, and the sets of them that it may set. */
  datatype Scope = Scope(back: bool, k: nat, n: nat, ways: set<set<nat>>)

  /** A run that began in `s` is to arrive at `pc`, with `stk` on the operand stack. */
  datatype Goal = Goal(scope: Scope, s: St, pc: int, stk: seq<int>, base: seq<Saved>)

  ghost predicate Met(x: Ctx, g: Goal, t: St) {
    StOk(x, t) && Toward(g.scope.back, g.s.pos, t.pos) && KeptIn(g.scope.k, g.scope.n, g.scope.ways, g.s, t)
  }

  predicate Arrives(g: Goal, c: Cfg) {
    c.Run? && c.pc == g.pc && c.stk == g.stk && g.base <= c.saved && Choices(c.saved[|g.base|..])
  }

  /** The first `n` steps from `c`; behind an arrival the run is followed again from where it fails. */
  ghost predicate Yields(x: Ctx, p: Prog, g: Goal, c: Cfg, n: nat)
    decreases n
  {
    || n == 0 || c == Fail(g.base) || c.Crash?
    || (Arrives(g, c) && Met(x, g, c.s) && Yields(x, p, g, Fail(c.saved), n - 1))
    || (!Halted(c) && Yields(x, p, g, Step(x, p, c), n - 1))
  }

  lemma {:induction false} YieldsFewer(x: Ctx, p: Prog, g: Goal, c: Cfg, n: nat, m: nat)
    requires Yields(x, p, g, c, n) && m <= n
    ensures Yields(x, p, g, c, m)
    decreases n
  {
    hide Step, Met;
    if m > 0 && c != Fail(g.base) && !c.Crash? {
      if Arrives(g, c) && Met(x, g, c.s) && Yields(x, p, g, Fail(c.saved), n - 1) {
        YieldsFewer(x, p, g, Fail(c.saved), n - 1, m - 1);
      } else {
        YieldsFewer(x, p, g, Step(x, p, c), n - 1, m - 1);
      }
    }
  }

  /** Arriving at once. */
  lemma {:induction false} YieldsHere(x: Ctx, p: Prog, g: Goal, t: St, n: nat)
    requires Met(x, g, t)
    ensures Yields(x, p, g, Run(g.pc, t, g.stk, g.base), n)
  {
    hide Met;
    assert g.base[|g.base|..] == [];
  }

  /** A goal that follows from another one. */
  lemma {:induction false} YieldsWeaker(x: Ctx, p: Prog, g: Goal, g': Goal, c: Cfg, n: nat)
    requires Yields(x, p, g, c, n) && g'.pc == g.pc && g'.stk == g.stk && g'.base == g.base
    requires forall t :: Met(x, g, t) ==> Met(x, g', t)
    ensures Yields(x, p, g', c, n)
    decreases n
  {
    hide Step, Met;
    if n > 0 && c != Fail(g.base) && !c.Crash? {
      if Arrives(g, c) && Met(x, g, c.s) && Yields(x, p, g, Fail(c.saved), n - 1) {
        YieldsWeaker(x, p, g, g', Fail(c.saved), n - 1);
      } else {
        YieldsWeaker(x, p, g, g', Step(x, p, c), n - 1);
      }
    }
  }

  lemma ChoicesConcat(d: seq<Saved>, e: seq<Saved>)
    requires Choices(d) && Choices(e)
    ensures Choices(d + e)
  {
  }

  /** First what runs above `base + d`, then what is left when that fails. */
  lemma {:induction false} YieldsAppend(x: Ctx, p: Prog, g: Goal, d: seq<Saved>, c: Cfg, n: nat, m: nat)
    requires Choices(d) && Yields(x, p, g.(base := g.base + d), c, n)
    requires Yields(x, p, g, Fail(g.base + d), m) && n <= if c == Fail(g.base + d) then m else m + 1
    ensures Yields(x, p, g, c, n)
    decreases n
  {
    hide Step, StOk, Kept;
    var above := g.(base := g.base + d);
    if n > 0 && !c.Crash? {
      if c == Fail(above.base) {
        YieldsFewer(x, p, g, c, m, n);
      } else if Arrives(above, c) && Met(x, above, c.s) && Yields(x, p, above, Fail(c.saved), n - 1) {
        ChoicesConcat(d, c.saved[|above.base|..]);
        assert c.saved[|g.base|..] == d + c.saved[|above.base|..];
        YieldsAppend(x, p, g, d, Fail(c.saved), n - 1, m);
      } else {
        YieldsAppend(x, p, g, d, Step(x, p, c), n - 1, m);
      }
    }
  }

  /** From every state that meets `g1`, whatever is saved, the run goes on to `g2`. */
  ghost predicate Continues(x: Ctx, p: Prog, g1: Goal, g2: Goal, n: nat) {
    forall t, b, m: nat :: m <= n && Met(x, g1, t) ==> Yields(x, p, g2.(base := b), Run(g1.pc, t, g1.stk, b), m)
  }

  /** Sequencing. */
  lemma {:induction false} YieldsThen(x: Ctx, p: Prog, g1: Goal, g2: Goal, c: Cfg, n: nat)
    requires Yields(x, p, g1, c, n) && g1.base == g2.base && Continues(x, p, g1, g2, n)
    ensures Yields(x, p, g2, c, n)
    decreases n
  {
    hide Step, Met;
    if n > 0 && c != Fail(g1.base) && !c.Crash? {
      if Arrives(g1, c) && Met(x, g1, c.s) && Yields(x, p, g1, Fail(c.saved), n - 1) {
        var d := c.saved[|g1.base|..];
        assert c.saved == g1.base + d;
        YieldsThen(x, p, g1, g2, Fail(c.saved), n - 1);
        assert Yields(x, p, g2.(base := c.saved), Run(g1.pc, c.s, g1.stk, c.saved), n);
        YieldsAppend(x, p, g2, d, c, n, n - 1);
      } else {
        YieldsThen(x, p, g1, g2, Step(x, p, c), n - 1);
      }
    }
  }

  /** A split: the preferred branch, then the saved one. */
  lemma {:induction false} YieldsSplit(x: Ctx, p: Prog, g: Goal, c: Cfg, s: St, stk: seq<int>, pc1: int, pc2: int,
                                       n: nat)
    requires n > 0 && !Halted(c)
    requires var above := g.base + [Saved(Split, 0, s, pc2, stk)];
             Step(x, p, c) == Run(pc1, s, stk, above) &&
             Yields(x, p, g.(base := above), Run(pc1, s, stk, above), n - 1)
    requires Yields(x, p, g, Run(pc2, s, stk, g.base), n - 1)
    ensures Yields(x, p, g, c, n)
  {
    hide Step, Met, Yields, Halted;
    var d := [Saved(Split, 0, s, pc2, stk)];
    assert Choices(d);
    hide Choices;
    YieldsSaved(x, p, g, s, stk, pc2, n - 1);
    YieldsAppend(x, p, g, d, Step(x, p, c), n - 1, n - 1);
    YieldsStep(x, p, g, c, n);
  }

  lemma {:induction false} YieldsStep(x: Ctx, p: Prog, g: Goal, c: Cfg, n: nat)
    requires n > 0 && !Halted(c) && Yields(x, p, g, Step(x, p, c), n - 1)
    ensures Yields(x, p, g, c, n)
  {
    hide Step, Met;
  }

  /** The saved branch is taken up when the preferred one fails. */
  lemma {:induction false} YieldsSaved(x: Ctx, p: Prog, g: Goal, s: St, stk: seq<int>, pc: int, n: nat)
    requires Yields(x, p, g, Run(pc, s, stk, g.base), n)
    ensures Yields(x, p, g, Fail(g.base + [Saved(Split, 0, s, pc, stk)]), n)
  {
    hide Step, Met;
    SplitStep(x, p, s, stk, pc, g.base);
    if n > 0 {
      YieldsFewer(x, p, g, Run(pc, s, stk, g.base), n, n - 1);
    }
  }

  lemma SplitStep(x: Ctx, p: Prog, s: St, stk: seq<int>, pc: int, base: seq<Saved>)
    ensures Step(x, p, Fail(base + [Saved(Split, 0, s, pc, stk)])) == Run(pc, s, stk, base)
  {
    var above := base + [Saved(Split, 0, s, pc, stk)];
    assert above[..|above| - 1] == base;
  }

  // ---------------------------------------------------------------- where a run that matches comes from

  /** A run that ends in a match: either the code arrived in front of the end of capture 0 in a state that
      meets the goal, or the match comes out of the states saved below. */
  lemma {:induction false} MatchFrom(x: Ctx, p: Prog, g: Goal, c: Cfg, u: St, n: nat)
    returns (below: bool, m: nat, t: St)
    requires Yields(x, p, g, c, n + 1) && StepN(x, p, c, n) == Matched(u) && !c.Matched? && x.ncap > 0
    requires Choices(g.base) && g.stk == [] && 0 <= g.pc && g.pc + 1 < |p|
    requires p[g.pc] == ISaveEnd(0) && p[g.pc + 1] == IMatch
    ensures if below then m <= n && StepN(x, p, Fail(g.base), m) == Matched(u)
            else Met(x, g, t) && u == Leave(x, false, 0, t)
    decreases n
  {
    hide Step, Met;
    below, m, t := false, 0, u;
    if c == Fail(g.base) {
      below, m := true, n;
    } else if Arrives(g, c) && Met(x, g, c.s) {
      t := c.s;
      MetOk(x, g, t);
      assert c.saved == g.base + c.saved[|g.base|..];
      LeavesMatch(x, p, g.pc, t, c.saved);
      OutcomeUnique(x, p, c, Matched(Leave(x, false, 0, t)), n);
    } else {
      StuckStays(x, p, c, n);
      below, m, t := MatchFrom(x, p, g, Step(x, p, c), u, n - 1);
    }
  }

  lemma MetOk(x: Ctx, g: Goal, t: St)
    requires Met(x, g, t)
    ensures StOk(x, t) && InRange(x, t)
  {
  }

  lemma {:induction false} StuckStays(x: Ctx, p: Prog, c: Cfg, n: nat)
    ensures c.Crash? || c.NoMatch? ==> StepN(x, p, c, n) == c
    decreases n
  {
    if n > 0 {
      StuckStays(x, p, c, n - 1);
    }
  }
}
