/** Machine runs that produce a list of results.

    `Gen` says that a configuration reaches program point `pc` once for every state of a list, in
    order: first with the head of the list and, each time the machine is made to fail from there,
    with the next one, until it fails below the saved states `base` it started with. */
module Simulation {
  import opened Regex
  import opened Matcher
  import opened Machine

  /** Saved states that a success pops without looking at them. */
  predicate Choices(d: seq<Saved>) {
    forall e :: e in d ==> e.kind == Split || e.kind == GreedyQuant
  }

  ghost predicate Gen(x: Ctx, p: Prog, c: Cfg, all: seq<St>, pc: int, stk: seq<int>, base: seq<Saved>)
    decreases |all|
  {
    if |all| == 0 then Reaches(x, p, c, Fail(base))
    else exists d :: Choices(d) && GenVia(x, p, c, all, pc, stk, base, d)
  }

  ghost predicate GenVia(x: Ctx, p: Prog, c: Cfg, all: seq<St>, pc: int, stk: seq<int>, base: seq<Saved>,
                         d: seq<Saved>)
    requires |all| > 0
    decreases |all|, 0
  {
    Reaches(x, p, c, Run(pc, all[0], stk, base + d)) &&
    Gen(x, p, Fail(base + d), all[1..], pc, stk, base)
  }

  /** Code between `pc1` and `pc2` that turns `s` into `all`, whatever is saved below. */
  ghost predicate Turns(x: Ctx, p: Prog, pc1: int, stk1: seq<int>, s: St, all: seq<St>, pc2: int, stk2: seq<int>) {
    forall base :: Gen(x, p, Run(pc1, s, stk1, base), all, pc2, stk2, base)
  }

  lemma {:induction false} GenPrefix(x: Ctx, p: Prog, c: Cfg, c': Cfg, all: seq<St>, pc: int, stk: seq<int>,
                                     base: seq<Saved>)
    requires Reaches(x, p, c, c') && Gen(x, p, c', all, pc, stk, base)
    ensures Gen(x, p, c, all, pc, stk, base)
  {
    if |all| == 0 {
      ReachesTrans(x, p, c, c', Fail(base));
    } else {
      var d :| Choices(d) && GenVia(x, p, c', all, pc, stk, base, d);
      ReachesTrans(x, p, c, c', Run(pc, all[0], stk, base + d));
      assert GenVia(x, p, c, all, pc, stk, base, d);
    }
  }

  lemma {:induction false} GenStep(x: Ctx, p: Prog, c: Cfg, all: seq<St>, pc: int, stk: seq<int>, base: seq<Saved>)
    requires Gen(x, p, Step(x, p, c), all, pc, stk, base)
    ensures Gen(x, p, c, all, pc, stk, base)
  {
    ReachesStep(x, p, c);
    GenPrefix(x, p, c, Step(x, p, c), all, pc, stk, base);
  }

  lemma {:induction false} GenNone(x: Ctx, p: Prog, pc: int, stk: seq<int>, base: seq<Saved>)
    ensures Gen(x, p, Fail(base), [], pc, stk, base)
  {
    ReachesSelf(x, p, Fail(base));
  }

  lemma {:induction false} GenHere(x: Ctx, p: Prog, s: St, pc: int, stk: seq<int>, base: seq<Saved>)
    ensures Gen(x, p, Run(pc, s, stk, base), [s], pc, stk, base)
  {
    assert base + [] == base;
    ReachesSelf(x, p, Run(pc, s, stk, base));
    GenNone(x, p, pc, stk, base);
    assert [s][1..] == [];
    assert GenVia(x, p, Run(pc, s, stk, base), [s], pc, stk, base, []);
  }

  /** First all of `one`, generated above `base + d`, then all of `two`. */
  lemma {:induction false} GenAppend(x: Ctx, p: Prog, c: Cfg, one: seq<St>, two: seq<St>, pc: int, stk: seq<int>,
                                     base: seq<Saved>, d: seq<Saved>)
    requires Choices(d)
    requires Gen(x, p, c, one, pc, stk, base + d) && Gen(x, p, Fail(base + d), two, pc, stk, base)
    ensures Gen(x, p, c, one + two, pc, stk, base)
    decreases |one|
  {
    if |one| == 0 {
      assert one == [] && one + two == two;
      GenPrefix(x, p, c, Fail(base + d), two, pc, stk, base);
    } else {
      var e :| Choices(e) && GenVia(x, p, c, one, pc, stk, base + d, e);
      var both := d + e;
      assert Choices(both);
      assert base + d + e == base + both;
      GenAppend(x, p, Fail(base + both), one[1..], two, pc, stk, base, d);
      assert (one + two)[1..] == one[1..] + two;
      assert GenVia(x, p, c, one + two, pc, stk, base, both);
    }
  }

  /** Sequencing: every state that arrives at `pc1` is continued by `f` up to `pc2`. */
  lemma {:induction false} GenFlatMap(x: Ctx, p: Prog, c: Cfg, back: bool, o: nat, all: seq<St>, f: Cont,
                                      pc1: int, stk1: seq<int>, pc2: int, stk2: seq<int>, base: seq<Saved>)
    requires Good(x, back, o, all) && ContOk(x, f, o)
    requires Gen(x, p, c, all, pc1, stk1, base)
    requires forall t :: t in all ==> Turns(x, p, pc1, stk1, t, Continue(x, back, o, f, t), pc2, stk2)
    ensures Gen(x, p, c, FlatMap(x, back, o, all, f), pc2, stk2, base)
    decreases |all|
  {
    if |all| > 0 {
      var d :| Choices(d) && GenVia(x, p, c, all, pc1, stk1, base, d);
      var t := all[0];
      var here := Continue(x, back, o, f, t);
      GenFlatMap(x, p, Fail(base + d), back, o, all[1..], f, pc1, stk1, pc2, stk2, base);
      assert Gen(x, p, Run(pc1, t, stk1, base + d), here, pc2, stk2, base + d) by {
        assert Turns(x, p, pc1, stk1, t, here, pc2, stk2);
      }
      GenPrefix(x, p, c, Run(pc1, t, stk1, base + d), here, pc2, stk2, base + d);
      GenAppend(x, p, c, here, FlatMap(x, back, o, all[1..], f), pc2, stk2, base, d);
    }
  }

  /** A split: the preferred branch, then the saved one. */
  lemma {:induction false} GenSplit(x: Ctx, p: Prog, c: Cfg, s: St, stk: seq<int>, pc1: int, pc2: int, one: seq<St>,
                                    two: seq<St>, pc: int,
                                    stk': seq<int>, base: seq<Saved>)
    requires Step(x, p, c) == Run(pc1, s, stk, base + [Saved(Split, 0, s, pc2, stk)])
    requires Turns(x, p, pc1, stk, s, one, pc, stk') && Turns(x, p, pc2, stk, s, two, pc, stk')
    ensures Gen(x, p, c, one + two, pc, stk', base)
  {
    var d := [Saved(Split, 0, s, pc2, stk)];
    var c1 := Run(pc1, s, stk, base + d);
    assert (base + d)[..|base + d| - 1] == base;
    assert Step(x, p, Fail(base + d)) == Run(pc2, s, stk, base);
    GenStep(x, p, Fail(base + d), two, pc, stk', base);
    assert Gen(x, p, c1, one, pc, stk', base + d);
    GenAppend(x, p, c1, one, two, pc, stk', base, d);
    GenStep(x, p, c, one + two, pc, stk', base);
  }

  /** Success pops every pending choice. */
  lemma {:induction false} SucceedPops(x: Ctx, p: Prog, s: St, base: seq<Saved>, d: seq<Saved>)
    requires Choices(d)
    ensures Reaches(x, p, Succeed(s, base + d), Succeed(s, base))
    decreases |d|
  {
    if |d| == 0 {
      assert d == [] && base + d == base;
      ReachesSelf(x, p, Succeed(s, base));
    } else {
      var e := d[..|d| - 1];
      assert d == e + [d[|d| - 1]];
      assert (base + d)[..|base + d| - 1] == base + e;
      assert d[|d| - 1] in d;
      ReachesStep(x, p, Succeed(s, base + d));
      SucceedPops(x, p, s, base, e);
      ReachesTrans(x, p, Succeed(s, base + d), Succeed(s, base + e), Succeed(s, base));
    }
  }

  // ---------------------------------------------------------------- the same, for every base

  lemma TurnsHere(x: Ctx, p: Prog, pc: int, stk: seq<int>, s: St)
    ensures Turns(x, p, pc, stk, s, [s], pc, stk)
  {
    forall base
      ensures Gen(x, p, Run(pc, s, stk, base), [s], pc, stk, base)
    {
      GenHere(x, p, s, pc, stk, base);
    }
  }

  /** One step without a choice, then the rest. */
  lemma TurnsStep(x: Ctx, p: Prog, pc1: int, stk1: seq<int>, s1: St, pc2: int, stk2: seq<int>, s2: St, all: seq<St>,
                  pc3: int, stk3: seq<int>)
    requires forall base :: Step(x, p, Run(pc1, s1, stk1, base)) == Run(pc2, s2, stk2, base)
    requires Turns(x, p, pc2, stk2, s2, all, pc3, stk3)
    ensures Turns(x, p, pc1, stk1, s1, all, pc3, stk3)
  {
    forall base
      ensures Gen(x, p, Run(pc1, s1, stk1, base), all, pc3, stk3, base)
    {
      assert Gen(x, p, Run(pc2, s2, stk2, base), all, pc3, stk3, base);
      GenStep(x, p, Run(pc1, s1, stk1, base), all, pc3, stk3, base);
    }
  }

  lemma TurnsFail(x: Ctx, p: Prog, pc1: int, stk1: seq<int>, s: St, pc: int, stk: seq<int>)
    requires forall base :: Step(x, p, Run(pc1, s, stk1, base)) == Fail(base)
    ensures Turns(x, p, pc1, stk1, s, [], pc, stk)
  {
    forall base
      ensures Gen(x, p, Run(pc1, s, stk1, base), [], pc, stk, base)
    {
      GenNone(x, p, pc, stk, base);
      GenStep(x, p, Run(pc1, s, stk1, base), [], pc, stk, base);
    }
  }

  lemma TurnsSplit(x: Ctx, p: Prog, pc0: int, s: St, stk: seq<int>, pc1: int, pc2: int, one: seq<St>, two: seq<St>,
                   pc: int, stk': seq<int>)
    requires forall base :: Step(x, p, Run(pc0, s, stk, base)) ==
                            Run(pc1, s, stk, base + [Saved(Split, 0, s, pc2, stk)])
    requires Turns(x, p, pc1, stk, s, one, pc, stk') && Turns(x, p, pc2, stk, s, two, pc, stk')
    ensures Turns(x, p, pc0, stk, s, one + two, pc, stk')
  {
    forall base
      ensures Gen(x, p, Run(pc0, s, stk, base), one + two, pc, stk', base)
    {
      GenSplit(x, p, Run(pc0, s, stk, base), s, stk, pc1, pc2, one, two, pc, stk', base);
    }
  }

  lemma {:induction false} TurnsFlatMap(x: Ctx, p: Prog, back: bool, o: nat, pc0: int, stk0: seq<int>, s: St,
                                        all: seq<St>,
                                        f: Cont, pc1: int, stk1: seq<int>, pc2: int, stk2: seq<int>)
    requires Good(x, back, o, all) && ContOk(x, f, o)
    requires Turns(x, p, pc0, stk0, s, all, pc1, stk1)
    requires forall t :: t in all ==> Turns(x, p, pc1, stk1, t, Continue(x, back, o, f, t), pc2, stk2)
    ensures Turns(x, p, pc0, stk0, s, FlatMap(x, back, o, all, f), pc2, stk2)
  {
    forall base
      ensures Gen(x, p, Run(pc0, s, stk0, base), FlatMap(x, back, o, all, f), pc2, stk2, base)
    {
      GenFlatMap(x, p, Run(pc0, s, stk0, base), back, o, all, f, pc1, stk1, pc2, stk2, base);
    }
  }

  /** One more step for every result. */
  lemma {:induction false} GenMap(x: Ctx, p: Prog, c: Cfg, all: seq<St>, all': seq<St>, pc1: int, stk1: seq<int>,
                                  pc2: int, stk2: seq<int>, base: seq<Saved>)
    requires |all'| == |all| && Gen(x, p, c, all, pc1, stk1, base)
    requires forall i, b :: 0 <= i < |all| ==> Step(x, p, Run(pc1, all[i], stk1, b)) == Run(pc2, all'[i], stk2, b)
    ensures Gen(x, p, c, all', pc2, stk2, base)
    decreases |all|
  {
    if |all| > 0 {
      var d :| Choices(d) && GenVia(x, p, c, all, pc1, stk1, base, d);
      GenMap(x, p, Fail(base + d), all[1..], all'[1..], pc1, stk1, pc2, stk2, base);
      ReachesStep(x, p, Run(pc1, all[0], stk1, base + d));
      ReachesTrans(x, p, c, Run(pc1, all[0], stk1, base + d), Run(pc2, all'[0], stk2, base + d));
      assert GenVia(x, p, c, all', pc2, stk2, base, d);
    }
  }

  lemma TurnsMap(x: Ctx, p: Prog, pc0: int, stk0: seq<int>, s: St, all: seq<St>, all': seq<St>, pc1: int,
                 stk1: seq<int>, pc2: int, stk2: seq<int>)
    requires |all'| == |all| && Turns(x, p, pc0, stk0, s, all, pc1, stk1)
    requires forall i, b :: 0 <= i < |all| ==> Step(x, p, Run(pc1, all[i], stk1, b)) == Run(pc2, all'[i], stk2, b)
    ensures Turns(x, p, pc0, stk0, s, all', pc2, stk2)
  {
    forall base
      ensures Gen(x, p, Run(pc0, s, stk0, base), all', pc2, stk2, base)
    {
      GenMap(x, p, Run(pc0, s, stk0, base), all, all', pc1, stk1, pc2, stk2, base);
    }
  }
}
