/** simple_greedy_quant: one instruction, with one saved state that counts, in place of the general
    loop of splits. */
module Greedy {
  import opened Integers
  import opened Subject
  import opened Regex
  import opened Matcher
  import opened Machine
  import opened Simulation
  import opened Codegen
  import opened Analysis
  import opened Correct

  // ---------------------------------------------------------------- simple code

  lemma {:induction false} FlatMapUnit(x: Ctx, back: bool, p: nat, all: seq<St>, f: Cont)
    requires Good(x, back, p, all) && ContOk(x, f, p)
    requires forall t :: t in all ==> Continue(x, back, p, f, t) == [t]
    ensures FlatMap(x, back, p, all, f) == all
    decreases |all|
  {
    hide Continue;
    if |all| > 0 {
      FlatMapUnit(x, back, p, all[1..], f);
      assert all == [all[0]] + all[1..];
    }
  }

  lemma {:induction false} FlatMapOne(x: Ctx, back: bool, p: nat, t: St, f: Cont)
    requires Good(x, back, p, [t]) && ContOk(x, f, p)
    ensures StOk(x, t) && Toward(back, p, t.pos) && FlatMap(x, back, p, [t], f) == Continue(x, back, p, f, t)
  {
    hide Continue;
    assert t in [t];
    assert [t][1..] == [];
  }

  /** {0} over an atom without groups changes nothing. */
  lemma {:induction false} ZeroTimes(x: Ctx, b: Re, greedy: bool, k: nat, s: St)
    requires StOk(x, s) && k <= x.ncap && NumGroups(b) == 0
    ensures QuantResults(x, b, 0, 0, greedy, false, k, s) == [s]
  {
    hide Results, FlatMap;
    ForgetNothing(x, k, s);
    NoIterations(x, b, false, k, greedy, s);
    FlatMapOne(x, false, s.pos, s, Rest(b, k, 0, 0, greedy));
  }

  lemma ForgetNothing(x: Ctx, k: nat, s: St)
    requires StOk(x, s) && k <= x.ncap
    ensures Forget(x, k, 0, s) == s
  {
    assert ResetCaps(s.caps, k, 0) == s.caps;
  }

  lemma {:induction false} TimesOne(x: Ctx, b: Re, back: bool, k: nat, s: St)
    requires StOk(x, s) && k + NumGroups(b) <= x.ncap
    ensures Times(x, b, back, k, 1, s) == Results(x, b, back, k, s)
  {
    hide Results, FlatMap;
    var all := Results(x, b, back, k, s);
    forall t | t in all
      ensures Times(x, b, back, k, 0, t) == [t]
    {
      NoIterations(x, b, back, k, true, t);
    }
    FlatMapUnit(x, back, s.pos, all, ThenTimes(b, k, 0));
  }

  /** {1} is the atom. */
  lemma {:induction false} OneTime(x: Ctx, b: Re, greedy: bool, k: nat, s: St)
    requires StOk(x, s) && k + NumGroups(b) <= x.ncap
    ensures QuantResults(x, b, 1, 1, greedy, false, k, s) == Results(x, b, false, k, s)
  {
    hide Results, Upto, Times, FlatMap;
    var all := Results(x, b, false, k, s);
    TimesOne(x, b, false, k, s);
    forall t | t in all
      ensures Upto(x, b, false, k, 0, greedy, t) == [t]
    {
      NoIterations(x, b, false, k, greedy, t);
    }
    FlatMapUnit(x, false, s.pos, all, Rest(b, k, 1, 1, greedy));
  }

  /** What simple code for `r`, `n` characters long, does to a state: at most one result, which keeps
      the captures and from which `n` steps back lead to the start; the nested call finds it. */
  ghost predicate Deterministic(x: Ctx, p: Prog, r: Re, k: nat, n: nat, pc: int, end: int, s: St)
    requires StOk(x, s) && k + NumGroups(r) <= x.ncap
  {
    var all := Results(x, r, false, k, s);
    if |all| == 0 then ScanAtom(x, p, pc, s) == Miss
    else
      |all| == 1 && all[0].caps == s.caps && StOk(x, all[0]) && (n > 0 ==> all[0].pos > s.pos) &&
      n <= Chars(x.subject, all[0].pos) && PrevPosN(x.subject, n, all[0].pos) == s.pos &&
      ScanAtom(x, p, pc, s) == ScanAtom(x, p, end, all[0])
  }

  lemma {:induction false} SimpleDeterministic(x: Ctx, p: Prog, r: Re, k: nat, pc: int, s: St)
    requires StOk(x, s) && k + NumGroups(r) <= x.ncap && WellFormed(r, k) && CanonOk(x.opts)
    requires Sits(p, pc, Code(x.opts, r, false, k)) && SimpleCount(Code(x.opts, r, false, k)) >= 0
    ensures NumGroups(r) == 0
    ensures Deterministic(x, p, r, k, SimpleCount(Code(x.opts, r, false, k)), pc, pc + |Code(x.opts, r, false, k)|, s)
    decreases r, 1
  {
    hide Code, QuantCode, AltCode, LookCode, SimpleCount, Sits, Deterministic, Results, StOk, CanonOk;
    match r {
      case Cat(a, b) =>
        CodeCat(x.opts, a, b, false, k);
        SimpleCat(x, p, a, b, k, Code(x.opts, a, false, k), Code(x.opts, b, false, k + NumGroups(a)), pc, s);
      case Quant(_, _, _, _) => SimpleQuantDeterministic(x, p, r, k, pc, s);
      case Alt(a, b) =>
        CodeAlt(x.opts, a, b, false, k);
        AltNotSimple(Code(x.opts, a, false, k), Code(x.opts, b, false, k + NumGroups(a)));
      case Group(b) =>
        CodeGroup(x.opts, b, false, k);
        SaveNotSimple(Code(x.opts, b, false, k + 1), k);
      case Look(b, behind, negative) =>
        CodeLook(x.opts, b, behind, negative, false, k);
        LookNotSimple(Code(x.opts, b, behind, k), negative);
      case _ => SimpleLeaf(x, p, r, k, pc, s);
    }
  }

  lemma {:induction false} SimpleLeaf(x: Ctx, p: Prog, r: Re, k: nat, pc: int, s: St)
    requires !r.Cat? && !r.Alt? && !r.Group? && !r.Look? && !r.Quant?
    requires StOk(x, s) && k + NumGroups(r) <= x.ncap && WellFormed(r, k) && CanonOk(x.opts)
    requires Sits(p, pc, Code(x.opts, r, false, k)) && SimpleCount(Code(x.opts, r, false, k)) >= 0
    ensures Deterministic(x, p, r, k, SimpleCount(Code(x.opts, r, false, k)), pc, pc + |Code(x.opts, r, false, k)|, s)
  {
    hide SimpleCount, Sits, Deterministic, StOk, CanonOk;
    match r {
      case BackRef(g) => NotSimple([IBackRef(g)], 0);
      case Empty => SimpleEmpty(x, p, k, pc, s);
      case LineStart => SimpleAssertion(x, p, r, k, pc, s);
      case LineEnd => SimpleAssertion(x, p, r, k, pc, s);
      case WordBoundary(_) => SimpleAssertion(x, p, r, k, pc, s);
      case _ => SimpleChar(x, p, r, k, pc, s);
    }
  }

  lemma {:induction false} SimpleEmpty(x: Ctx, p: Prog, k: nat, pc: int, s: St)
    requires StOk(x, s) && k <= x.ncap
    ensures SimpleCount(Code(x.opts, Empty, false, k)) == 0 && Deterministic(x, p, Empty, k, 0, pc, pc, s)
  {
  }

  lemma {:induction false} SimpleQuantDeterministic(x: Ctx, p: Prog, r: Re, k: nat, pc: int, s: St)
    requires r.Quant? && StOk(x, s) && k + NumGroups(r) <= x.ncap && WellFormed(r, k) && CanonOk(x.opts)
    requires Sits(p, pc, Code(x.opts, r, false, k)) && SimpleCount(Code(x.opts, r, false, k)) >= 0
    ensures NumGroups(r) == 0
    ensures Deterministic(x, p, r, k, SimpleCount(Code(x.opts, r, false, k)), pc, pc + |Code(x.opts, r, false, k)|, s)
    decreases r, 0
  {
    hide QuantCode, QuantResults, Eval, FlatMap, ScanAtom, Sits, StOk, CanonOk;
    var b := r.body;
    SimpleQuant(Code(x.opts, b, false, k), k, NumGroups(b), r.min, r.max, r.greedy);
    if r.min == 1 {
      SimpleDeterministic(x, p, b, k, pc, s);
      OneTime(x, b, r.greedy, k, s);
    } else {
      ZeroTimes(x, b, r.greedy, k, s);
    }
  }

  lemma {:induction false} SimpleAssertion(x: Ctx, p: Prog, r: Re, k: nat, pc: int, s: St)
    requires StOk(x, s) && k <= x.ncap && (r.LineStart? || r.LineEnd? || r.WordBoundary?)
    requires Sits(p, pc, Code(x.opts, r, false, k))
    ensures SimpleCount(Code(x.opts, r, false, k)) == 0
    ensures Deterministic(x, p, r, k, 0, pc, pc + 1, s)
  {
    SitsAt(p, pc, Code(x.opts, r, false, k), 0);
    assert Code(x.opts, r, false, k)[1..] == [];
  }

  lemma {:induction false} SimpleChar(x: Ctx, p: Prog, r: Re, k: nat, pc: int, s: St)
    requires StOk(x, s) && k <= x.ncap && (r.Char? || r.Set? || r.Dot?) && WellFormed(r, 0) && CanonOk(x.opts)
    requires Sits(p, pc, Code(x.opts, r, false, k))
    ensures SimpleCount(Code(x.opts, r, false, k)) == 1
    ensures Deterministic(x, p, r, k, 1, pc, pc + 1, s)
  {
    var code := Code(x.opts, r, false, k);
    SitsAt(p, pc, code, 0);
    assert code[1..] == [];
    AcceptsSame(x.opts, r, if s.pos < Len(x) then CharAt(x.subject, s.pos) else 0);
    if s.pos < Len(x) {
      NextPrev(x.subject, s.pos);
      assert Chars(x.subject, NextPos(x.subject, s.pos)) == 1 + Chars(x.subject, s.pos);
      assert PrevPosN(x.subject, 1, NextPos(x.subject, s.pos)) == PrevPosN(x.subject, 0, s.pos);
    }
  }

  lemma {:induction false} SimpleCat(x: Ctx, p: Prog, a: Re, b: Re, k: nat, one: Prog, two: Prog, pc: int, s: St)
    requires StOk(x, s) && k + NumGroups(a) + NumGroups(b) <= x.ncap && CanonOk(x.opts)
    requires WellFormed(a, k) && WellFormed(b, k + NumGroups(a))
    requires one == Code(x.opts, a, false, k) && two == Code(x.opts, b, false, k + NumGroups(a))
    requires Sits(p, pc, one + two) && SimpleCount(one + two) >= 0
    ensures NumGroups(a) == NumGroups(b) == 0
    ensures Deterministic(x, p, Cat(a, b), k, SimpleCount(one + two), pc, pc + |one + two|, s)
    decreases Cat(a, b), 0
  {
    hide Code, Eval, FlatMap, ScanAtom, Results, Deterministic, StOk, CanonOk, WellFormed, NumGroups, SimpleCount, Good,
      Sits;
    SimpleCountConcat(one, two);
    SitsConcat(p, pc, one, two);
    SimpleDeterministic(x, p, a, k, pc, s);
    SimpleDeterministic(x, p, b, k, pc + |one|, s);
    var all := Results(x, a, false, k, s);
    if |all| > 0 {
      ResultOk(x, a, false, k, s, all[0]);
      SimpleDeterministic(x, p, b, k, pc + |one|, all[0]);
    }
    JoinDeterministic(x, p, a, b, k, all, SimpleCount(one), SimpleCount(two), pc, pc + |one|, pc + |one| + |two|, s);
  }

  lemma {:induction false} ResultOk(x: Ctx, r: Re, back: bool, k: nat, s: St, t: St)
    requires StOk(x, s) && k + NumGroups(r) <= x.ncap && t in Results(x, r, back, k, s)
    ensures StOk(x, t) && Toward(back, s.pos, t.pos)
  {
    hide Results;
  }

  lemma {:induction false} JoinDeterministic(x: Ctx, p: Prog, a: Re, b: Re, k: nat, all: seq<St>, m: nat, n: nat,
                                             pc: int, mid: int, end: int, s: St)
    requires StOk(x, s) && k <= x.ncap && NumGroups(a) == NumGroups(b) == 0 && all == Results(x, a, false, k, s)
    requires Deterministic(x, p, a, k, m, pc, mid, s)
    requires |all| > 0 ==> StOk(x, all[0]) && Deterministic(x, p, b, k, n, mid, end, all[0])
    ensures Deterministic(x, p, Cat(a, b), k, m + n, pc, end, s)
  {
    hide Eval, FlatMap, ScanAtom, Results;
    SimpleCatResults(x, a, b, k, s);
    if |all| > 0 {
      var rest := Results(x, b, false, k, all[0]);
      if |rest| > 0 {
        PrevPosNAdd(x.subject, n, m, rest[0].pos);
      }
    }
  }

  lemma {:induction false} SimpleCatResults(x: Ctx, a: Re, b: Re, k: nat, s: St)
    requires StOk(x, s) && k <= x.ncap && NumGroups(a) == NumGroups(b) == 0 && |Results(x, a, false, k, s)| <= 1
    ensures var all := Results(x, a, false, k, s);
            Results(x, Cat(a, b), false, k, s) == if |all| == 0 then [] else Results(x, b, false, k, all[0])
  {
    hide FlatMap, Results;
    ResultsCat(x, a, b, false, k, s);
    var all := Results(x, a, false, k, s);
    if |all| == 0 {
      assert all == [];
      NoneMap(x, false, s.pos, Then(b, k));
    } else {
      assert all == [all[0]];
      FlatMapOne(x, false, s.pos, all[0], Then(b, k));
    }
  }

  lemma {:induction false} NoneMap(x: Ctx, back: bool, p: nat, f: Cont)
    requires ContOk(x, f, p)
    ensures FlatMap(x, back, p, [], f) == []
  {
  }

  // ---------------------------------------------------------------- giving iterations back

  /** The state one iteration of an atom of `c` characters earlier. */
  function Earlier(x: Ctx, c: nat, s: St): (t: St)
    requires s.pos <= Len(x) && c <= Chars(x.subject, s.pos)
    ensures t.pos <= Len(x) && Chars(x.subject, t.pos) == Chars(x.subject, s.pos) - c
  {
    St(PrevPosN(x.subject, c, s.pos), s.caps)
  }

  /** There are `m` times `c` characters before the cursor. */
  predicate Room(x: Ctx, c: nat, s: St, m: nat) {
    s.pos <= Len(x) && m * c <= Chars(x.subject, s.pos)
  }

  lemma RoomStep(x: Ctx, c: nat, s: St, m: nat)
    requires m > 0 && Room(x, c, s, m)
    ensures c <= Chars(x.subject, s.pos) && Room(x, c, Earlier(x, c, s), m - 1)
  {
    assert m * c == (m - 1) * c + c;
  }

  /** The `m` states before `s`, nearest first. */
  function Below(x: Ctx, c: nat, s: St, m: nat): seq<St>
    requires Room(x, c, s, m)
    decreases m
  {
    if m == 0 then []
    else
      RoomStep(x, c, s, m);
      [Earlier(x, c, s)] + Below(x, c, Earlier(x, c, s), m - 1)
  }

  function Pending(m: nat, s: St, pc: int, stk: seq<int>): seq<Saved> {
    if m == 0 then [] else [Saved(GreedyQuant, m, s, pc, stk)]
  }

  /** One saved state with a count offers the same states as a stack of splits would. */
  lemma {:induction false} PendingGen(x: Ctx, p: Prog, pc: int, i: Instr, s: St, stk: seq<int>, base: seq<Saved>,
                                      m: nat)
    requires 0 <= pc < |p| && p[pc] == i && i.ISimpleGreedy? && Room(x, i.len, s, m)
    ensures Gen(x, p, Run(pc + 1 + i.off, s, stk, base + Pending(m, s, pc, stk)), [s] + Below(x, i.len, s, m),
                pc + 1 + i.off, stk, base)
    decreases m
  {
    var end, d := pc + 1 + i.off, Pending(m, s, pc, stk);
    if m == 0 {
      assert base + d == base && [s] + Below(x, i.len, s, 0) == [s];
      GenHere(x, p, s, end, stk, base);
    } else {
      RoomStep(x, i.len, s, m);
      var all, t := [s] + Below(x, i.len, s, m), Earlier(x, i.len, s);
      PendingGen(x, p, pc, i, t, stk, base, m - 1);
      assert all[1..] == [t] + Below(x, i.len, t, m - 1);
      PendingStep(x, p, pc, i, s, stk, base, m);
      GenStep(x, p, Fail(base + d), all[1..], end, stk, base);
      ReachesSelf(x, p, Run(end, s, stk, base + d));
      assert GenVia(x, p, Run(end, s, stk, base + d), all, end, stk, base, d);
    }
  }

  lemma PendingStep(x: Ctx, p: Prog, pc: int, i: Instr, s: St, stk: seq<int>, base: seq<Saved>, m: nat)
    requires 0 <= pc < |p| && p[pc] == i && i.ISimpleGreedy? && s.pos <= Len(x) && m > 0
    requires i.len <= Chars(x.subject, s.pos)
    ensures var t := Earlier(x, i.len, s);
            Step(x, p, Fail(base + Pending(m, s, pc, stk))) ==
            Run(pc + 1 + i.off, t, stk, base + Pending(m - 1, t, pc, stk))
  {
    var above := base + Pending(m, s, pc, stk);
    assert above[|above| - 1] == Saved(GreedyQuant, m, s, pc, stk) && above[..|above| - 1] == base;
    assert base + [] == base;
  }

  // ---------------------------------------------------------------- the counting loop

  /** The iterations after the first `q`. */
  function Tail(x: Ctx, b: Re, k: nat, max: nat, q: nat, s: St): (all: seq<St>)
    requires StOk(x, s) && k + NumGroups(b) <= x.ncap
  {
    if max == INT32_MAX then Star(x, b, false, k, true, s)
    else Upto(x, b, false, k, if max >= q then max - q else 0, true, s)
  }

  /** How many of `q` iterations can be given back. */
  function Spare(q: nat, min: nat): (m: nat) {
    if q < min then 0 else q - min
  }

  /** All results still to come when `q` iterations have led to `s`. */
  function Left(x: Ctx, b: Re, k: nat, c: nat, min: nat, max: nat, q: nat, s: St): (all: seq<St>)
    requires StOk(x, s) && k + NumGroups(b) <= x.ncap && Room(x, c, s, Spare(q, min))
  {
    if q < min then FlatMap(x, false, s.pos, Times(x, b, false, k, min - q, s), Rest(b, k, min, max, true))
    else Tail(x, b, k, max, q, s) + Below(x, c, s, q - min)
  }

  lemma {:induction false} LeftMiss(x: Ctx, b: Re, k: nat, c: nat, min: nat, max: nat, q: nat, s: St)
    requires StOk(x, s) && k + NumGroups(b) <= x.ncap && min <= max && (q < max || max == INT32_MAX)
    requires |Results(x, b, false, k, s)| == 0
    requires Room(x, c, s, Spare(q, min))
    ensures Left(x, b, k, c, min, max, q, s) == if q < min then [] else [s] + Below(x, c, s, q - min)
  {
    hide Results, FlatMap;
    assert Results(x, b, false, k, s) == [];
    if q < min {
      NoneMap(x, false, s.pos, ThenTimes(b, k, min - q - 1));
      NoneMap(x, false, s.pos, Rest(b, k, min, max, true));
    } else {
      if max == INT32_MAX {
        NoneMap(x, false, s.pos, ThenStar(b, k, true, s.pos));
      } else {
        NoneMap(x, false, s.pos, ThenUpto(b, k, max - q - 1, true));
      }
      assert Tail(x, b, k, max, q, s) == [] + [s];
    }
  }

  /** One more iteration, seen from the tail. */
  lemma {:induction false} TailNext(x: Ctx, b: Re, k: nat, max: nat, q: nat, s: St, t: St)
    requires StOk(x, s) && StOk(x, t) && k + NumGroups(b) <= x.ncap && (q < max || max == INT32_MAX)
    requires Results(x, b, false, k, s) == [t] && s.pos < t.pos
    ensures Tail(x, b, k, max, q, s) == Tail(x, b, k, max, q + 1, t) + [s]
  {
    hide Results, FlatMap, NumGroups, QuantResults;
    if max == INT32_MAX {
      FlatMapOne(x, false, s.pos, t, ThenStar(b, k, true, s.pos));
    } else {
      FlatMapOne(x, false, s.pos, t, ThenUpto(b, k, max - q - 1, true));
    }
  }

  lemma {:induction false} LeftNext(x: Ctx, b: Re, k: nat, c: nat, min: nat, max: nat, q: nat, s: St, t: St)
    requires StOk(x, s) && StOk(x, t) && k + NumGroups(b) <= x.ncap && min <= max && (q < max || max == INT32_MAX)
    requires Results(x, b, false, k, s) == [t] && s.pos < t.pos
    requires c <= Chars(x.subject, t.pos) && Earlier(x, c, t) == s
    requires Room(x, c, s, Spare(q, min)) && Room(x, c, t, Spare(q + 1, min))
    ensures Left(x, b, k, c, min, max, q, s) == Left(x, b, k, c, min, max, q + 1, t)
  {
    hide Results, FlatMap, Star, Upto, Tail, StOk, Earlier;
    if q < min {
      LeftBefore(x, b, k, c, min, max, q, s, t);
    } else {
      TailNext(x, b, k, max, q, s, t);
      Regroup(Tail(x, b, k, max, q + 1, t), s, Below(x, c, s, q - min));
    }
  }

  lemma Regroup(a: seq<St>, s: St, b: seq<St>)
    ensures a + [s] + b == a + ([s] + b)
  {
  }

  lemma {:induction false} LeftBefore(x: Ctx, b: Re, k: nat, c: nat, min: nat, max: nat, q: nat, s: St, t: St)
    requires StOk(x, s) && StOk(x, t) && k + NumGroups(b) <= x.ncap && q < min <= max
    requires Results(x, b, false, k, s) == [t] && s.pos < t.pos && Room(x, c, s, 0) && Room(x, c, t, 0)
    ensures Left(x, b, k, c, min, max, q, s) == Left(x, b, k, c, min, max, q + 1, t)
  {
    hide Results, FlatMap, Star, Upto;
    FlatMapOne(x, false, s.pos, t, ThenTimes(b, k, min - q - 1));
    assert Times(x, b, false, k, min - q, s) == Times(x, b, false, k, min - q - 1, t);
    SameMap(x, s.pos, t.pos, Times(x, b, false, k, min - q, s), Rest(b, k, min, max, true));
    if q + 1 == min {
      FlatMapOne(x, false, t.pos, t, Rest(b, k, min, max, true));
      assert Tail(x, b, k, max, min, t) + [] == Tail(x, b, k, max, min, t);
    }
  }

  /** The starting point only bounds the results. */
  lemma {:induction false} SameMap(x: Ctx, p: nat, q: nat, all: seq<St>, f: Cont)
    requires Good(x, false, p, all) && Good(x, false, q, all) && f.Rest? && ContOk(x, f, p)
    ensures FlatMap(x, false, p, all, f) == FlatMap(x, false, q, all, f)
    decreases |all|
  {
    hide Star, Upto;
    if |all| > 0 {
      SameMap(x, p, q, all[1..], f);
    }
  }

  /** The body of the instruction at `pc` is deterministic everywhere and ends in `match`. */
  ghost predicate Atom(x: Ctx, p: Prog, b: Re, k: nat, c: nat, pc: int)
    requires k + NumGroups(b) <= x.ncap
  {
    exists end :: 0 <= end < |p| && p[end] == IMatch && AtomEnds(x, p, b, k, c, pc, end)
  }

  ghost predicate AtomEnds(x: Ctx, p: Prog, b: Re, k: nat, c: nat, pc: int, end: int)
    requires k + NumGroups(b) <= x.ncap
  {
    forall s :: StOk(x, s) ==> Deterministic(x, p, b, k, c, pc, end, s)
  }

  lemma {:induction false} AtomAt(x: Ctx, p: Prog, b: Re, k: nat, c: nat, pc: int, s: St)
    requires StOk(x, s) && k + NumGroups(b) <= x.ncap && c > 0 && Atom(x, p, b, k, c, pc)
    ensures var all := Results(x, b, false, k, s);
            if |all| == 0 then ScanAtom(x, p, pc, s) == Miss
            else all == [all[0]] && all[0].caps == s.caps && StOk(x, all[0]) && s.pos < all[0].pos &&
                 c <= Chars(x.subject, all[0].pos) && Earlier(x, c, all[0]) == s &&
                 ScanAtom(x, p, pc, s) == Hit(all[0].pos)
  {
    hide Results;
    var end :| 0 <= end < |p| && p[end] == IMatch && AtomEnds(x, p, b, k, c, pc, end);
    assert Deterministic(x, p, b, k, c, pc, end, s);
  }

  lemma RoomLess(x: Ctx, c: nat, s: St, q: nat, min: nat)
    requires Room(x, c, s, q)
    ensures Room(x, c, s, 0) && Room(x, c, s, Spare(q, min))
  {
    var m := Spare(q, min);
    assert m * c <= q * c;
  }

  lemma RoomMore(x: Ctx, c: nat, s: St, t: St, q: nat)
    requires Room(x, c, s, q) && t.pos <= Len(x) && c <= Chars(x.subject, t.pos) && Earlier(x, c, t) == s
    ensures Room(x, c, t, q + 1)
  {
    assert (q + 1) * c == q * c + c;
  }

  /** One turn of the counting loop. */
  lemma {:induction false} LoopStep(x: Ctx, p: Prog, i: Instr, pc: int, q: nat, s: St, stk: seq<int>, base: seq<Saved>)
    requires InRange(x, s) && 0 <= pc < |p| && p[pc] == i && i.ISimpleGreedy?
    ensures Step(x, p, Loop(pc, q, s, stk, base)) ==
            match ScanAtom(x, p, pc + 1, s)
            case Stuck => Crash
            case Miss => EndLoop(i, pc, q, s, stk, base)
            case Hit(pos) =>
              var t := St(pos, s.caps);
              if q + 1 >= i.max && i.max != INT32_MAX then EndLoop(i, pc, q + 1, t, stk, base)
              else Loop(pc, q + 1, t, stk, base)
  {
    hide ScanAtom, EndLoop;
  }

  lemma {:induction false} LoopGen(x: Ctx, p: Prog, b: Re, k: nat, i: Instr, pc: int, q: nat, s: St, stk: seq<int>,
                                   base: seq<Saved>)
    requires StOk(x, s) && k + NumGroups(b) <= x.ncap
    requires 0 <= pc < |p| && p[pc] == i && i.ISimpleGreedy? && i.len > 0
    requires i.min <= i.max && (q < i.max || i.max == INT32_MAX)
    requires Atom(x, p, b, k, i.len, pc + 1) && Room(x, i.len, s, q)
    ensures Room(x, i.len, s, Spare(q, i.min))
    ensures Gen(x, p, Loop(pc, q, s, stk, base), Left(x, b, k, i.len, i.min, i.max, q, s), pc + 1 + i.off, stk, base)
    decreases Len(x) - s.pos
  {
    hide Results, Atom, Gen, FlatMap, Left, Room, Step, ScanAtom, EndLoop, Below;
    LoopStep(x, p, i, pc, q, s, stk, base);
    AtomAt(x, p, b, k, i.len, pc + 1, s);
    RoomLess(x, i.len, s, q, i.min);
    var all := Results(x, b, false, k, s);
    if |all| == 0 {
      LeftMiss(x, b, k, i.len, i.min, i.max, q, s);
      EndGen(x, p, pc, i, q, s, stk, base);
    } else {
      var t := all[0];
      RoomMore(x, i.len, s, t, q);
      RoomLess(x, i.len, t, q + 1, i.min);
      LeftNext(x, b, k, i.len, i.min, i.max, q, s, t);
      if q + 1 >= i.max && i.max != INT32_MAX {
        LeftFull(x, b, k, i.len, i.min, i.max, t);
        EndGen(x, p, pc, i, q + 1, t, stk, base);
      } else {
        LoopGen(x, p, b, k, i, pc, q + 1, t, stk, base);
      }
    }
    GenStep(x, p, Loop(pc, q, s, stk, base), Left(x, b, k, i.len, i.min, i.max, q, s), pc + 1 + i.off, stk, base);
  }

  lemma {:induction false} LeftFull(x: Ctx, b: Re, k: nat, c: nat, min: nat, max: nat, s: St)
    requires StOk(x, s) && k + NumGroups(b) <= x.ncap && min <= max && max != INT32_MAX && Room(x, c, s, max - min)
    ensures Left(x, b, k, c, min, max, max, s) == [s] + Below(x, c, s, max - min)
  {
    hide Results;
  }

  /** The end of the counting loop after `q` iterations. */
  lemma {:induction false} EndGen(x: Ctx, p: Prog, pc: int, i: Instr, q: nat, s: St, stk: seq<int>, base: seq<Saved>)
    requires 0 <= pc < |p| && p[pc] == i && i.ISimpleGreedy? && Room(x, i.len, s, Spare(q, i.min))
    ensures Gen(x, p, EndLoop(i, pc, q, s, stk, base),
                if q < i.min then [] else [s] + Below(x, i.len, s, q - i.min), pc + 1 + i.off, stk, base)
  {
    if q < i.min {
      GenNone(x, p, pc + 1 + i.off, stk, base);
    } else {
      assert base + [] == base;
      PendingGen(x, p, pc, i, s, stk, base, q - i.min);
    }
  }

  /** The optimised instruction computes the results of the general quantifier. */
  lemma {:induction false} SimpleTurns(x: Ctx, p: Prog, b: Re, k: nat, i: Instr, pc: int, stk: seq<int>, s: St)
    requires StOk(x, s) && k + NumGroups(b) <= x.ncap && NumGroups(b) == 0
    requires 0 <= pc < |p| && p[pc] == i && i.ISimpleGreedy? && i.len > 0
    requires i.min <= i.max && 0 < i.max
    requires Atom(x, p, b, k, i.len, pc + 1)
    ensures Turns(x, p, pc, stk, s, QuantResults(x, b, i.min, i.max, true, false, k, s), pc + 1 + i.off, stk)
  {
    hide Results, Gen, FlatMap, Atom;
    SimpleLeft(x, b, k, i.len, i.min, i.max, s);
    var all := QuantResults(x, b, i.min, i.max, true, false, k, s);
    forall base
      ensures Gen(x, p, Run(pc, s, stk, base), all, pc + 1 + i.off, stk, base)
    {
      LoopGen(x, p, b, k, i, pc, 0, s, stk, base);
      GenStep(x, p, Run(pc, s, stk, base), all, pc + 1 + i.off, stk, base);
    }
  }

  lemma {:induction false} SimpleLeft(x: Ctx, b: Re, k: nat, c: nat, min: nat, max: nat, s: St)
    requires StOk(x, s) && k + NumGroups(b) <= x.ncap && NumGroups(b) == 0 && min <= max && Room(x, c, s, 0)
    ensures QuantResults(x, b, min, max, true, false, k, s) == Left(x, b, k, c, min, max, 0, s)
  {
    hide Results, Star, Upto, FlatMap;
    if min == 0 {
      ForgetNothing(x, k, s);
      NoIterations(x, b, false, k, true, s);
      FlatMapOne(x, false, s.pos, s, Rest(b, k, 0, max, true));
      assert Tail(x, b, k, max, 0, s) + [] == Tail(x, b, k, max, 0, s);
    }
  }
}
