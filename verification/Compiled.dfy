/** Compiler correctness: the byte code of a pattern implements its results, and the compiled program
    halts with the first match. */
module Compiled {
  import opened Integers
  import opened Subject
  import opened Regex
  import opened Matcher
  import opened Machine
  import opened Simulation
  import opened Codegen
  import opened Analysis
  import opened Correct
  import opened Greedy

  // ---------------------------------------------------------------- quantifier fragments

  lemma {:induction false} StarPiece(x: Ctx, p: Prog, b: Re, back: bool, k: nat, body: seq<Instr>, check: bool,
                                     greedy: bool, pc: int,
                                     stk: seq<int>, s: St)
    requires StOk(x, s) && k + NumGroups(b) <= x.ncap
    requires Sits(p, pc, StarCode(body, check, greedy))
    requires Implements(x, p, b, back, k, if check then pc + 2 else pc + 1, (if check then pc + 2 else pc + 1) + |body|)
    requires check || AlwaysMoves(x, b, back, k)
    ensures Turns(x, p, pc, stk, s, Star(x, b, back, k, greedy, s), pc + |StarCode(body, check, greedy)|, stk)
  {
    hide Turns, Implements, AlwaysMoves, Star;
    var code := StarCode(body, check, greedy);
    SitsAt(p, pc, code, 0);
    if check {
      SitsAt(p, pc, code, 1);
      SitsAt(p, pc, code, |body| + 2);
      StarCheckedTurns(x, p, b, back, k, greedy, |body|, pc, stk, s);
    } else {
      SitsAt(p, pc, code, |body| + 1);
      StarUncheckedTurns(x, p, b, back, k, greedy, |body|, pc, stk, s);
    }
  }

  lemma {:induction false} UptoPiece(x: Ctx, p: Prog, b: Re, back: bool, k: nat, body: seq<Instr>, n: nat,
                                     greedy: bool, pc: int,
                                     stk: seq<int>, s: St)
    requires StOk(x, s) && k + NumGroups(b) <= x.ncap && n > 0
    requires Sits(p, pc, UptoCode(body, n, greedy))
    requires Implements(x, p, b, back, k, pc + 2, pc + 2 + |body|)
    ensures Turns(x, p, pc, stk, s, Upto(x, b, back, k, n, greedy, s), pc + |UptoCode(body, n, greedy)|, stk)
  {
    hide Turns, Implements, Upto;
    var code := UptoCode(body, n, greedy);
    SitsAt(p, pc, code, 0);
    SitsAt(p, pc, code, 1);
    SitsAt(p, pc, code, |body| + 2);
    SitsAt(p, pc, code, |body| + 3);
    UptoTurns(x, p, b, back, k, n, greedy, |body|, pc + 1, stk, s);
    PushTurns(x, p, n, pc, stk, s, Upto(x, b, back, k, n, greedy, s), pc + |body| + 4, stk);
  }

  lemma {:induction false} ExactPiece(x: Ctx, p: Prog, b: Re, back: bool, k: nat, body: seq<Instr>, n: nat, pc: int,
                                      stk: seq<int>, s: St)
    requires StOk(x, s) && k + NumGroups(b) <= x.ncap && n > 0
    requires Sits(p, pc, ExactCode(body, n))
    requires Implements(x, p, b, back, k, pc + 1, pc + 1 + |body|)
    ensures Turns(x, p, pc, stk, s, Times(x, b, back, k, n, s), pc + |body| + 3, stk)
  {
    hide Turns, Implements, Times;
    var code := ExactCode(body, n);
    SitsAt(p, pc, code, 0);
    SitsAt(p, pc, code, |body| + 1);
    SitsAt(p, pc, code, |body| + 2);
    ExactTurns(x, p, b, back, k, n, |body|, pc + 1, stk, s);
    PushTurns(x, p, n, pc, stk, s, Times(x, b, back, k, n, s), pc + |body| + 3, stk);
  }

  /** The part of a quantifier's code that runs the optional iterations. */
  function TailCode(body: seq<Instr>, min: nat, max: nat, check: bool, greedy: bool): seq<Instr> {
    if max == INT32_MAX then StarCode(body, check, greedy)
    else if max > min then UptoCode(body, max - min, greedy)
    else []
  }

  /** The atom of a quantifier behaves, wherever its code has been copied to. */
  ghost predicate Everywhere(x: Ctx, p: Prog, b: Re, back: bool, k: nat, body: seq<Instr>)
    requires k + NumGroups(b) <= x.ncap
  {
    forall q :: Sits(p, q, body) ==> Implements(x, p, b, back, k, q, q + |body|)
  }

  lemma {:induction false} EverywhereAt(x: Ctx, p: Prog, b: Re, back: bool, k: nat, body: seq<Instr>, q: int)
    requires k + NumGroups(b) <= x.ncap && Everywhere(x, p, b, back, k, body) && Sits(p, q, body)
    ensures Implements(x, p, b, back, k, q, q + |body|)
  {
    hide Sits, Implements;
  }

  lemma {:induction false} TailTurns(x: Ctx, p: Prog, b: Re, back: bool, k: nat, body: seq<Instr>, min: nat, max: nat,
                                     check: bool,
                                     greedy: bool, pc: int, stk: seq<int>, o: nat, s: St)
    requires StOk(x, s) && Toward(back, o, s.pos) && k + NumGroups(b) <= x.ncap && min <= max
    requires Sits(p, pc, TailCode(body, min, max, check, greedy))
    requires Everywhere(x, p, b, back, k, body)
    requires max == INT32_MAX ==> check || AlwaysMoves(x, b, back, k)
    ensures Turns(x, p, pc, stk, s, Continue(x, back, o, Rest(b, k, min, max, greedy), s),
                  pc + |TailCode(body, min, max, check, greedy)|, stk)
  {
    hide Turns, Implements, AlwaysMoves, Star, Upto, StarCode, UptoCode, Results, Sits, Everywhere, StOk, NumGroups;
    if max == INT32_MAX {
      StarBodySits(p, pc, body, check, greedy);
      EverywhereAt(x, p, b, back, k, body, if check then pc + 2 else pc + 1);
      StarPiece(x, p, b, back, k, body, check, greedy, pc, stk, s);
    } else if max > min {
      UptoBodySits(p, pc, body, max - min, greedy);
      EverywhereAt(x, p, b, back, k, body, pc + 2);
      UptoPiece(x, p, b, back, k, body, max - min, greedy, pc, stk, s);
    } else {
      NoIterations(x, b, back, k, greedy, s);
      TurnsHere(x, p, pc, stk, s);
    }
  }

  lemma StarBodySits(p: Prog, pc: int, body: seq<Instr>, check: bool, greedy: bool)
    requires Sits(p, pc, StarCode(body, check, greedy))
    ensures Sits(p, if check then pc + 2 else pc + 1, body)
  {
    var code := StarCode(body, check, greedy);
    var j := if check then 2 else 1;
    assert code == code[..j] + body + code[j + |body|..];
    SitsConcat(p, pc, code[..j] + body, code[j + |body|..]);
    SitsConcat(p, pc, code[..j], body);
  }

  lemma UptoBodySits(p: Prog, pc: int, body: seq<Instr>, n: nat, greedy: bool)
    requires Sits(p, pc, UptoCode(body, n, greedy))
    ensures Sits(p, pc + 2, body)
  {
    var code := UptoCode(body, n, greedy);
    SitsConcat(p, pc, code[..2] + body, code[2 + |body|..]);
    SitsConcat(p, pc, code[..2], body);
  }

  lemma ExactBodySits(p: Prog, pc: int, body: seq<Instr>, n: nat)
    requires Sits(p, pc, ExactCode(body, n))
    ensures Sits(p, pc + 1, body)
  {
    SitsConcat(p, pc, [IPushI32(n)] + body, [ILoop(-(|body| + 1)), IDrop]);
    SitsConcat(p, pc, [IPushI32(n)], body);
  }

  // ---------------------------------------------------------------- whole quantifiers

  /** At least one iteration, with or without a counter, and then the optional ones. */
  lemma {:induction false} MandatoryTurns(x: Ctx, p: Prog, b: Re, back: bool, k: nat, body: seq<Instr>, min: nat,
                                          max: nat, check: bool,
                                          greedy: bool, pc: int, stk: seq<int>, s: St)
    requires StOk(x, s) && k + NumGroups(b) <= x.ncap && 0 < min <= max
    requires var first := if min == 1 then body else ExactCode(body, min);
             Sits(p, pc, first + TailCode(body, min, max, check, greedy))
    requires Everywhere(x, p, b, back, k, body)
    requires max == INT32_MAX ==> check || AlwaysMoves(x, b, back, k)
    ensures var first := if min == 1 then body else ExactCode(body, min);
            Turns(x, p, pc, stk, s, QuantResults(x, b, min, max, greedy, back, k, s),
                  pc + |first + TailCode(body, min, max, check, greedy)|, stk)
  {
    hide Turns, Implements, AlwaysMoves, Results, FlatMap, Times, TailCode, Step, Everywhere, Sits, NumGroups;
    var first, tail := if min == 1 then body else ExactCode(body, min), TailCode(body, min, max, check, greedy);
    SitsConcat(p, pc, first, tail);
    var all, mid := Times(x, b, back, k, min, s), pc + |first|;
    if min == 1 {
      TimesOne(x, b, back, k, s);
      EverywhereAt(x, p, b, back, k, body, pc);
      ImplementsAt(x, p, b, back, k, pc, mid, stk, s);
    } else {
      ExactBodySits(p, pc, body, min);
      EverywhereAt(x, p, b, back, k, body, pc + 1);
      ExactPiece(x, p, b, back, k, body, min, pc, stk, s);
    }
    var f, end := Rest(b, k, min, max, greedy), mid + |tail|;
    forall t | t in all
      ensures Turns(x, p, mid, stk, t, Continue(x, back, s.pos, f, t), end, stk)
    {
      TailTurns(x, p, b, back, k, body, min, max, check, greedy, mid, stk, s.pos, t);
    }
    TurnsFlatMap(x, p, back, s.pos, pc, stk, s, all, f, mid, stk, end, stk);
  }

  lemma PlusSits(p: Prog, pc: int, body: seq<Instr>, last: Instr)
    requires Sits(p, pc, body + [last])
    ensures 0 <= pc && pc + |body| < |p| && Sits(p, pc, body) && p[pc + |body|] == last
  {
    SitsConcat(p, pc, body, [last]);
    SitsAt(p, pc, body + [last], |body|);
  }

  lemma {:induction false} PlusTurns(x: Ctx, p: Prog, b: Re, back: bool, k: nat, body: seq<Instr>, greedy: bool,
                                     pc: int, stk: seq<int>,
                                     s: St)
    requires StOk(x, s) && k + NumGroups(b) <= x.ncap
    requires Sits(p, pc, PlusCode(body, greedy))
    requires Everywhere(x, p, b, back, k, body) && AlwaysMoves(x, b, back, k)
    ensures Turns(x, p, pc, stk, s, QuantResults(x, b, 1, INT32_MAX, greedy, back, k, s),
                  pc + |PlusCode(body, greedy)|, stk)
  {
    hide Turns, Implements, AlwaysMoves, Results, FlatMap, Times, Star, Upto, Step, Gen, Sits;
    var mid := pc + |body|;
    PlusSits(p, pc, body, PlusBranch(|body|, greedy));
    TimesOne(x, b, back, k, s);
    ImplementsAt(x, p, b, back, k, pc, mid, stk, s);
    var f := Rest(b, k, 1, INT32_MAX, greedy);
    var all := Results(x, b, back, k, s);
    assert Implements(x, p, b, back, k, mid - |body|, mid);
    forall t | t in all
      ensures Turns(x, p, mid, stk, t, Continue(x, back, s.pos, f, t), mid + 1, stk)
    {
      PlusTailTurns(x, p, b, back, k, greedy, |body|, mid, stk, t);
    }
    TurnsFlatMap(x, p, back, s.pos, pc, stk, s, all, f, mid, stk, mid + 1, stk);
  }

  function OptionalCode(body: seq<Instr>, max: nat, check: bool, greedy: bool): seq<Instr> {
    if max == 1 then OptionCode(body, greedy) else TailCode(body, 0, max, check, greedy)
  }

  lemma {:induction false} OptionalTail(x: Ctx, p: Prog, b: Re, back: bool, k: nat, body: seq<Instr>, max: nat,
                                        check: bool, greedy: bool,
                                        pc: int, stk: seq<int>, s: St)
    requires StOk(x, s) && k + NumGroups(b) <= x.ncap
    requires Sits(p, pc, OptionalCode(body, max, check, greedy))
    requires Everywhere(x, p, b, back, k, body)
    requires max == INT32_MAX ==> check || AlwaysMoves(x, b, back, k)
    ensures Turns(x, p, pc, stk, s, Continue(x, back, s.pos, Rest(b, k, 0, max, greedy), s),
                  pc + |OptionalCode(body, max, check, greedy)|, stk)
  {
    hide Turns, Implements, AlwaysMoves, Results, Star, Upto, FlatMap, TailCode, Step, Gen;
    if max == 1 {
      OptionBodySits(p, pc, body, greedy);
      OptionTurns(x, p, b, back, k, greedy, |body|, pc, stk, s);
    } else {
      TailTurns(x, p, b, back, k, body, 0, max, check, greedy, pc, stk, s.pos, s);
    }
  }

  /** No mandatory iteration: the captures of the atom are reset, then the optional iterations run. */
  lemma {:induction false} OptionalTurns(x: Ctx, p: Prog, b: Re, back: bool, k: nat, body: seq<Instr>, max: nat,
                                         check: bool, greedy: bool,
                                         pc: int, stk: seq<int>, s: St)
    requires StOk(x, s) && k + NumGroups(b) <= x.ncap
    requires Sits(p, pc, ResetCode(k, NumGroups(b)) + OptionalCode(body, max, check, greedy))
    requires Everywhere(x, p, b, back, k, body)
    requires max == INT32_MAX ==> check || AlwaysMoves(x, b, back, k)
    ensures Turns(x, p, pc, stk, s, QuantResults(x, b, 0, max, greedy, back, k, s),
                  pc + |ResetCode(k, NumGroups(b)) + OptionalCode(body, max, check, greedy)|, stk)
  {
    hide Turns, Everywhere, AlwaysMoves, Results, Star, Upto, FlatMap, OptionalCode, Step, Gen;
    var tail, n := OptionalCode(body, max, check, greedy), NumGroups(b);
    var reset := ResetCode(k, n);
    SitsConcat(p, pc, reset, tail);
    var s0 := Forget(x, k, n, s);
    OptionalTail(x, p, b, back, k, body, max, check, greedy, pc + |reset|, stk, s0);
    NoIterations(x, b, back, k, greedy, s0);
    FlatMapOne(x, back, s.pos, s0, Rest(b, k, 0, max, greedy));
    ResetTurns(x, p, k, n, pc, stk, s, Continue(x, back, s.pos, Rest(b, k, 0, max, greedy), s0), pc + |reset| + |tail|);
  }

  lemma OptionBodySits(p: Prog, pc: int, body: seq<Instr>, greedy: bool)
    requires Sits(p, pc, OptionCode(body, greedy))
    ensures Sits(p, pc + 1, body) && p[pc] == Branch(greedy, |body|)
  {
    SitsConcat(p, pc, [Branch(greedy, |body|)], body);
    SitsAt(p, pc, OptionCode(body, greedy), 0);
  }

  lemma ResetTurns(x: Ctx, p: Prog, k: nat, n: nat, pc: int, stk: seq<int>, s: St, all: seq<St>, end: int)
    requires StOk(x, s) && k + n <= x.ncap && Sits(p, pc, ResetCode(k, n))
    requires Turns(x, p, pc + |ResetCode(k, n)|, stk, Forget(x, k, n, s), all, end, stk)
    ensures Turns(x, p, pc, stk, s, all, end, stk)
  {
    if n == 0 {
      ForgetNothing(x, k, s);
    } else {
      SitsAt(p, pc, ResetCode(k, n), 0);
      BasicThen(x, p, pc, stk, s, all, end, stk);
    }
  }

  // ---------------------------------------------------------------- compiler correctness

  /** In a lookbehind the extra steps back keep an atom with characters from being simple. */
  lemma {:induction false} BackwardNotSimple(o: Opts, r: Re, k: nat)
    ensures SimpleCount(Code(o, r, true, k)) <= 0
    decreases r
  {
    hide QuantCode, SimpleCount, AltCode, LookCode, CharCode;
    match r {
      case Cat(a, b) =>
        BackwardNotSimple(o, a, k);
        BackwardNotSimple(o, b, k + NumGroups(a));
        SimpleCountConcat(Code(o, b, true, k + NumGroups(a)), Code(o, a, true, k));
      case Alt(a, b) => AltNotSimple(Code(o, a, true, k), Code(o, b, true, k + NumGroups(a)));
      case Group(b) => SaveNotSimple(Code(o, b, true, k + 1), k);
      case Look(b, behind, negative) => LookNotSimple(Code(o, b, behind, k), negative);
      case Quant(b, min, max, greedy) =>
        BackwardNotSimple(o, b, k);
        QuantBackward(Code(o, b, true, k), k, NumGroups(b), min, max, greedy);
      case _ => LeafBackward(o, r, k);
    }
  }

  lemma {:induction false} QuantBackward(body: seq<Instr>, k: nat, n: nat, min: nat, max: nat, greedy: bool)
    requires SimpleCount(body) <= 0
    ensures SimpleCount(QuantCode(body, k, n, min, max, greedy)) <= 0
  {
    if SimpleCount(QuantCode(body, k, n, min, max, greedy)) >= 0 {
      SimpleQuant(body, k, n, min, max, greedy);
    }
  }

  lemma {:induction false} LeafBackward(o: Opts, r: Re, k: nat)
    requires Leaf(r) || r.Empty?
    ensures SimpleCount(Code(o, r, true, k)) <= 0
  {
    var code := Code(o, r, true, k);
    if r.Char? || r.Set? || r.Dot? || r.BackRef? {
      NotSimple(code, 0);
    } else if !r.Empty? {
      assert code[1..] == [];
    }
  }

  /** Every unbounded loop either carries the zero-advance check or has a body that always moves. */
  lemma {:induction false} LoopsAdvance(x: Ctx, r: Re, back: bool, k: nat)
    requires r.Quant? && WellFormed(r, k) && k + NumGroups(r) <= x.ncap && r.max == INT32_MAX
    ensures (r.greedy && CheckAdvance(Code(x.opts, r.body, back, k)) == 0) || AlwaysMoves(x, r.body, back, k)
  {
    var b := r.body;
    if !Advances(b) {
      WellFormedParsed(b, k);
      CheckAdvanceSound(x.opts, b, back, k);
    } else {
      forall s | StOk(x, s)
        ensures Moves(s.pos, Results(x, b, back, k, s))
      {
        AdvancesSound(x, b, back, k, s);
      }
    }
  }

  lemma {:induction false} AtomOf(x: Ctx, p: Prog, b: Re, k: nat, pc: int)
    requires WellFormed(b, k) && CanonOk(x.opts) && k + NumGroups(b) <= x.ncap
    requires var body := Code(x.opts, b, false, k);
             SimpleCount(body) > 0 && Sits(p, pc, body) && 0 <= pc + |body| < |p| && p[pc + |body|] == IMatch
    ensures NumGroups(b) == 0
    ensures Atom(x, p, b, k, SimpleCount(Code(x.opts, b, false, k)), pc)
  {
    hide Deterministic, Results, Sits, Code, WellFormed, SimpleCount;
    var body := Code(x.opts, b, false, k);
    SimpleNoGroups(x.opts, b, false, k);
    forall s | StOk(x, s)
      ensures Deterministic(x, p, b, k, SimpleCount(body), pc, pc + |body|, s)
    {
      SimpleDeterministic(x, p, b, k, pc, s);
    }
    assert AtomEnds(x, p, b, k, SimpleCount(body), pc, pc + |body|);
  }

  lemma {:induction false} QuantCodeCases(body: seq<Instr>, k: nat, n: nat, min: nat, max: nat, greedy: bool,
                                          check: bool)
    requires !(greedy && max > 0 && SimpleCount(body) > 0) && check == (greedy && CheckAdvance(body) == 0)
    ensures QuantCode(body, k, n, min, max, greedy) ==
            if min == 0 then ResetCode(k, n) + OptionalCode(body, max, check, greedy)
            else if min == 1 && max == INT32_MAX && !check then PlusCode(body, greedy)
            else (if min == 1 then body else ExactCode(body, min)) + TailCode(body, min, max, check, greedy)
  {
    hide OptionCode, StarCode, UptoCode, ExactCode, SimpleCount, CheckAdvance;
  }

  lemma {:induction false} QuantTurns(x: Ctx, p: Prog, r: Re, back: bool, k: nat, pc: int, stk: seq<int>, s: St)
    requires r.Quant? && WellFormed(r, k) && CanonOk(x.opts) && k + NumGroups(r) <= x.ncap && StOk(x, s)
    requires Sits(p, pc, Code(x.opts, r, back, k))
    requires Everywhere(x, p, r.body, back, k, Code(x.opts, r.body, back, k))
    ensures Turns(x, p, pc, stk, s, QuantResults(x, r.body, r.min, r.max, r.greedy, back, k, s),
                  pc + |Code(x.opts, r, back, k)|, stk)
  {
    hide Turns, Everywhere, AlwaysMoves, QuantResults, Advances, Atom, StarCode, UptoCode, ExactCode, PlusCode,
      CheckAdvance;
    var b, min, max, greedy := r.body, r.min, r.max, r.greedy;
    var body := Code(x.opts, b, back, k);
    var code := QuantCode(body, k, NumGroups(b), min, max, greedy);
    var check := greedy && CheckAdvance(body) == 0;
    if max == INT32_MAX {
      LoopsAdvance(x, r, back, k);
    }
    if greedy && max > 0 && SimpleCount(body) > 0 {
      if back {
        BackwardNotSimple(x.opts, b, k);
      }
      SimpleQuantTurns(x, p, b, min, max, k, pc, stk, s);
    } else if min == 0 {
      OptionalTurns(x, p, b, back, k, body, max, check, greedy, pc, stk, s);
    } else if min == 1 && max == INT32_MAX && !check {
      PlusTurns(x, p, b, back, k, body, greedy, pc, stk, s);
    } else {
      MandatoryTurns(x, p, b, back, k, body, min, max, check, greedy, pc, stk, s);
    }
  }

  lemma {:induction false} SimpleQuantTurns(x: Ctx, p: Prog, b: Re, min: nat, max: nat, k: nat, pc: int,
                                            stk: seq<int>, s: St)
    requires WellFormed(b, k) && CanonOk(x.opts) && k + NumGroups(b) <= x.ncap && StOk(x, s) && min <= max && max > 0
    requires var body := Code(x.opts, b, false, k); SimpleCount(body) > 0 && Sits(p, pc, SimpleCode(body, min, max))
    ensures Turns(x, p, pc, stk, s, QuantResults(x, b, min, max, true, false, k, s),
                  pc + |SimpleCode(Code(x.opts, b, false, k), min, max)|, stk)
  {
    hide Turns, QuantResults, Atom, Code, WellFormed, SimpleCount, Sits;
    var body := Code(x.opts, b, false, k);
    var first := ISimpleGreedy(|body| + 1, min, max, SimpleCount(body));
    WrapSits(p, pc, first, body, IMatch);
    AtomOf(x, p, b, k, pc + 1);
    SimpleTurns(x, p, b, k, first, pc, stk, s);
  }

  /** Compiler correctness: wherever the code of `r` stands, it turns every state into the results of
      the reference matcher, captures included and in order, and leaves the operand stack as it was. */
  lemma {:induction false} Compiles(x: Ctx, p: Prog, r: Re, back: bool, k: nat, pc: int)
    requires WellFormed(r, k) && CanonOk(x.opts) && k + NumGroups(r) <= x.ncap
    requires Sits(p, pc, Code(x.opts, r, back, k))
    ensures Implements(x, p, r, back, k, pc, pc + |Code(x.opts, r, back, k)|)
    decreases r, 2
  {
    hide Turns, Step, Eval, Code, Results, Implements, FlatMap, Sits, CanonOk, StOk, NumGroups, WellFormed;
    Parts(r, k);
    match r {
      case Empty => EmptyCompiles(x, p, k, back, pc);
      case Cat(a, b) => CatCompiles(x, p, a, b, back, k, pc);
      case Alt(a, b) => AltCompiles(x, p, a, b, back, k, pc);
      case Group(b) => GroupCompiles(x, p, b, back, k, pc);
      case Look(b, behind, negative) => LookCompiles(x, p, b, behind, negative, back, k, pc);
      case Quant(b, min, max, greedy) => QuantCompiles(x, p, r, back, k, pc);
      case _ => LeafCompiles(x, p, r, back, k, pc);
    }
  }

  /** The sub-patterns of a well-formed pattern and the number of their groups. */
  lemma Parts(r: Re, k: nat)
    requires WellFormed(r, k)
    ensures r.Cat? ==> NumGroups(r) == NumGroups(r.first) + NumGroups(r.second)
    ensures r.Cat? ==> WellFormed(r.first, k) && WellFormed(r.second, k + NumGroups(r.first))
    ensures r.Alt? ==> NumGroups(r) == NumGroups(r.left) + NumGroups(r.right)
    ensures r.Alt? ==> WellFormed(r.left, k) && WellFormed(r.right, k + NumGroups(r.left))
    ensures r.Group? ==> NumGroups(r) == 1 + NumGroups(r.body) && WellFormed(r.body, k + 1)
    ensures r.Look? ==> NumGroups(r) == NumGroups(r.body) && WellFormed(r.body, k)
    ensures r.Quant? ==> NumGroups(r) == NumGroups(r.body) && WellFormed(r.body, k)
  {
    hide NoInnerRefs, Advances;
  }

  lemma {:induction false} EmptyCompiles(x: Ctx, p: Prog, k: nat, back: bool, pc: int)
    requires k <= x.ncap
    ensures Implements(x, p, Empty, back, k, pc, pc + |Code(x.opts, Empty, back, k)|)
  {
    forall s, stk | StOk(x, s)
      ensures Turns(x, p, pc, stk, s, [s], pc, stk)
    {
      TurnsHere(x, p, pc, stk, s);
    }
  }

  predicate Leaf(r: Re) {
    r.Char? || r.Set? || r.Dot? || r.LineStart? || r.LineEnd? || r.WordBoundary? || r.BackRef?
  }

  lemma {:induction false} LeafCompiles(x: Ctx, p: Prog, r: Re, back: bool, k: nat, pc: int)
    requires Leaf(r) && WellFormed(r, k) && CanonOk(x.opts) && k <= x.ncap
    requires Sits(p, pc, Code(x.opts, r, back, k))
    ensures Implements(x, p, r, back, k, pc, pc + |Code(x.opts, r, back, k)|)
  {
    hide Turns;
    var end := pc + |Code(x.opts, r, back, k)|;
    forall s, stk | StOk(x, s)
      ensures Turns(x, p, pc, stk, s, Results(x, r, back, k, s), end, stk)
    {
      LeafTurns(x, p, r, back, k, pc, stk, s);
    }
  }

  lemma {:induction false} LeafTurns(x: Ctx, p: Prog, r: Re, back: bool, k: nat, pc: int, stk: seq<int>, s: St)
    requires Leaf(r) && WellFormed(r, k) && CanonOk(x.opts) && k <= x.ncap && StOk(x, s)
    requires Sits(p, pc, Code(x.opts, r, back, k))
    ensures Turns(x, p, pc, stk, s, Results(x, r, back, k, s), pc + |Code(x.opts, r, back, k)|, stk)
  {
    hide Turns, OneChar, OneBackRef, Sits;
    match r {
      case BackRef(g) => BackRefTurns(x, p, g, back, pc, stk, s);
      case LineStart => AssertionTurns(x, p, r, back, k, pc, stk, s);
      case LineEnd => AssertionTurns(x, p, r, back, k, pc, stk, s);
      case WordBoundary(_) => AssertionTurns(x, p, r, back, k, pc, stk, s);
      case _ =>
        if back {
          OneCharBackward(x, p, r, pc, stk, s);
        } else {
          OneCharForward(x, p, r, pc, stk, s);
        }
    }
  }

  lemma {:induction false} AssertionTurns(x: Ctx, p: Prog, r: Re, back: bool, k: nat, pc: int, stk: seq<int>, s: St)
    requires (r.LineStart? || r.LineEnd? || r.WordBoundary?) && k <= x.ncap && StOk(x, s)
    requires Sits(p, pc, Code(x.opts, r, back, k))
    ensures Turns(x, p, pc, stk, s, Results(x, r, back, k, s), pc + 1, stk)
  {
    hide Turns;
    SitsAt(p, pc, Code(x.opts, r, back, k), 0);
    BasicTurns(x, p, pc, stk, s);
  }

  lemma {:induction false} CatCompiles(x: Ctx, p: Prog, a: Re, b: Re, back: bool, k: nat, pc: int)
    requires WellFormed(a, k) && WellFormed(b, k + NumGroups(a))
    requires CanonOk(x.opts) && k + NumGroups(a) + NumGroups(b) <= x.ncap
    requires Sits(p, pc, Code(x.opts, Cat(a, b), back, k))
    ensures Implements(x, p, Cat(a, b), back, k, pc, pc + |Code(x.opts, Cat(a, b), back, k)|)
    decreases Cat(a, b), 1
  {
    hide Turns, FlatMap, Code, NumGroups, WellFormed, Implements, Results, Sits, CanonOk, StOk, Good;
    var k' := k + NumGroups(a);
    var one, two := Code(x.opts, a, back, k), Code(x.opts, b, back, k');
    CodeCat(x.opts, a, b, back, k);
    if back {
      SitsConcat(p, pc, two, one);
      Compiles(x, p, b, back, k', pc);
      Compiles(x, p, a, back, k, pc + |two|);
    } else {
      SitsConcat(p, pc, one, two);
      Compiles(x, p, a, back, k, pc);
      Compiles(x, p, b, back, k', pc + |one|);
    }
    CatImplements(x, p, a, b, back, k, pc, if back then pc + |two| else pc + |one|, pc + |one| + |two|);
  }

  lemma {:induction false} CatImplements(x: Ctx, p: Prog, a: Re, b: Re, back: bool, k: nat, pc: int, mid: int, end: int)
    requires k + NumGroups(a) + NumGroups(b) <= x.ncap
    requires Implements(x, p, a, back, k, if back then mid else pc, if back then end else mid)
    requires Implements(x, p, b, back, k + NumGroups(a), if back then pc else mid, if back then mid else end)
    ensures Implements(x, p, Cat(a, b), back, k, pc, end)
  {
    hide Turns, FlatMap;
    forall s, stk | StOk(x, s)
      ensures Turns(x, p, pc, stk, s, Results(x, Cat(a, b), back, k, s), end, stk)
    {
      CatResultsTurns(x, p, a, b, back, k, pc, mid, end, stk, s);
    }
  }

  lemma {:induction false} CatResultsTurns(x: Ctx, p: Prog, a: Re, b: Re, back: bool, k: nat, pc: int, mid: int,
                                           end: int, stk: seq<int>,
                                           s: St)
    requires StOk(x, s) && k + NumGroups(a) + NumGroups(b) <= x.ncap
    requires Implements(x, p, a, back, k, if back then mid else pc, if back then end else mid)
    requires Implements(x, p, b, back, k + NumGroups(a), if back then pc else mid, if back then mid else end)
    ensures Turns(x, p, pc, stk, s, Results(x, Cat(a, b), back, k, s), end, stk)
  {
    hide Turns, FlatMap, Implements, Results;
    ResultsCat(x, a, b, back, k, s);
    if back {
      CatTurns(x, p, b, k + NumGroups(a), a, k, back, pc, mid, end, stk, s);
    } else {
      CatTurns(x, p, a, k, b, k + NumGroups(a), back, pc, mid, end, stk, s);
    }
  }

  lemma AltSits(p: Prog, pc: int, a: seq<Instr>, b: seq<Instr>)
    requires Sits(p, pc, AltCode(a, b))
    ensures Sits(p, pc + 1, a) && Sits(p, pc + |a| + 2, b)
    ensures p[pc] == ISplitNextFirst(|a| + 1) && p[pc + 1 + |a|] == IGoto(|b|)
    ensures |AltCode(a, b)| == |a| + |b| + 2 && 0 <= pc && pc + |a| + |b| + 2 <= |p|
  {
    var code := AltCode(a, b);
    SitsAt(p, pc, code, 0);
    SitsAt(p, pc, code, 1 + |a|);
    SitsConcat(p, pc, [code[0]] + a + [IGoto(|b|)], b);
    SitsConcat(p, pc, [code[0]] + a, [IGoto(|b|)]);
    SitsConcat(p, pc, [code[0]], a);
  }

  lemma {:induction false} AltCompiles(x: Ctx, p: Prog, a: Re, b: Re, back: bool, k: nat, pc: int)
    requires WellFormed(a, k) && WellFormed(b, k + NumGroups(a))
    requires CanonOk(x.opts) && k + NumGroups(a) + NumGroups(b) <= x.ncap
    requires Sits(p, pc, Code(x.opts, Alt(a, b), back, k))
    ensures Implements(x, p, Alt(a, b), back, k, pc, pc + |Code(x.opts, Alt(a, b), back, k)|)
    decreases Alt(a, b), 1
  {
    hide Turns, Code, NumGroups, WellFormed, Implements, Results, Sits, AltCode, CanonOk;
    var k' := k + NumGroups(a);
    var one, two := Code(x.opts, a, back, k), Code(x.opts, b, back, k');
    CodeAlt(x.opts, a, b, back, k);
    AltSits(p, pc, one, two);
    Compiles(x, p, a, back, k, pc + 1);
    Compiles(x, p, b, back, k', pc + |one| + 2);
    AltImplements(x, p, a, b, back, k, |one|, |two|, pc);
  }

  lemma {:induction false} AltImplements(x: Ctx, p: Prog, a: Re, b: Re, back: bool, k: nat, m: nat, n: nat, pc: int)
    requires k + NumGroups(a) + NumGroups(b) <= x.ncap
    requires 0 <= pc && pc + m + n + 2 <= |p| && p[pc] == ISplitNextFirst(m + 1) && p[pc + 1 + m] == IGoto(n)
    requires Implements(x, p, a, back, k, pc + 1, pc + 1 + m)
    requires Implements(x, p, b, back, k + NumGroups(a), pc + m + 2, pc + m + n + 2)
    ensures Implements(x, p, Alt(a, b), back, k, pc, pc + m + n + 2)
  {
    hide Turns, Results, StepRun;
    var end := pc + m + n + 2;
    forall s, stk | StOk(x, s)
      ensures Turns(x, p, pc, stk, s, Results(x, Alt(a, b), back, k, s), end, stk)
    {
      AltResultsTurns(x, p, a, b, back, k, m, n, pc, stk, s);
    }
  }

  lemma {:induction false} AltResultsTurns(x: Ctx, p: Prog, a: Re, b: Re, back: bool, k: nat, m: nat, n: nat, pc: int,
                                           stk: seq<int>,
                                           s: St)
    requires StOk(x, s) && k + NumGroups(a) + NumGroups(b) <= x.ncap
    requires 0 <= pc && pc + m + n + 2 <= |p| && p[pc] == ISplitNextFirst(m + 1) && p[pc + 1 + m] == IGoto(n)
    requires Implements(x, p, a, back, k, pc + 1, pc + 1 + m)
    requires Implements(x, p, b, back, k + NumGroups(a), pc + m + 2, pc + m + n + 2)
    ensures Turns(x, p, pc, stk, s, Results(x, Alt(a, b), back, k, s), pc + m + n + 2, stk)
  {
    hide Turns, Implements, Results;
    ResultsAlt(x, a, b, back, k, s);
    AltTurns(x, p, a, b, back, k, m, n, pc, stk, s);
  }

  lemma WrapSits(p: Prog, pc: int, first: Instr, body: seq<Instr>, last: Instr)
    requires Sits(p, pc, [first] + body + [last])
    ensures 0 <= pc && pc + |body| + 2 <= |p| && p[pc] == first && p[pc + 1 + |body|] == last && Sits(p, pc + 1, body)
  {
    SitsAt(p, pc, [first] + body + [last], 0);
    SitsAt(p, pc, [first] + body + [last], 1 + |body|);
    SitsConcat(p, pc, [first] + body, [last]);
    SitsConcat(p, pc, [first], body);
  }

  lemma {:induction false} GroupCompiles(x: Ctx, p: Prog, b: Re, back: bool, k: nat, pc: int)
    requires WellFormed(b, k + 1) && CanonOk(x.opts) && k + 1 + NumGroups(b) <= x.ncap
    requires Sits(p, pc, Code(x.opts, Group(b), back, k))
    ensures Implements(x, p, Group(b), back, k, pc, pc + |Code(x.opts, Group(b), back, k)|)
    decreases Group(b), 1
  {
    hide Turns, Code, NumGroups, WellFormed, Sits, Implements, Results, CanonOk;
    var body := Code(x.opts, b, back, k + 1);
    var first, last := if back then ISaveEnd(k) else ISaveStart(k), if back then ISaveStart(k) else ISaveEnd(k);
    CodeGroup(x.opts, b, back, k);
    WrapSits(p, pc, first, body, last);
    Compiles(x, p, b, back, k + 1, pc + 1);
    GroupImplements(x, p, b, back, k, |body|, pc);
  }

  lemma {:induction false} ResultsGroup(x: Ctx, b: Re, back: bool, k: nat, s: St)
    requires StOk(x, s) && k + 1 + NumGroups(b) <= x.ncap
    ensures Results(x, Group(b), back, k, s) ==
            LeaveAll(x, back, k, s.pos, Results(x, b, back, k + 1, Enter(x, back, k, s)))
  {
    hide FlatMap, Good, LeaveAll, LookResults, QuantResults, OneChar, OneBackRef;
  }

  lemma {:induction false} GroupImplements(x: Ctx, p: Prog, b: Re, back: bool, k: nat, n: nat, pc: int)
    requires k + 1 + NumGroups(b) <= x.ncap && 0 <= pc && pc + n + 2 <= |p|
    requires p[pc] == (if back then ISaveEnd(k) else ISaveStart(k))
    requires p[pc + 1 + n] == (if back then ISaveStart(k) else ISaveEnd(k))
    requires Implements(x, p, b, back, k + 1, pc + 1, pc + 1 + n)
    ensures Implements(x, p, Group(b), back, k, pc, pc + n + 2)
  {
    hide Turns, LeaveAll, Results;
    var end := pc + n + 2;
    forall s, stk | StOk(x, s)
      ensures Turns(x, p, pc, stk, s, Results(x, Group(b), back, k, s), end, stk)
    {
      ResultsGroup(x, b, back, k, s);
      GroupTurns(x, p, b, back, k, n, pc, stk, s);
    }
  }

  lemma {:induction false} LookCompiles(x: Ctx, p: Prog, b: Re, behind: bool, negative: bool, back: bool, k: nat,
                                        pc: int)
    requires WellFormed(b, k) && CanonOk(x.opts) && k + NumGroups(b) <= x.ncap
    requires Sits(p, pc, Code(x.opts, Look(b, behind, negative), back, k))
    ensures Implements(x, p, Look(b, behind, negative), back, k, pc,
                       pc + |Code(x.opts, Look(b, behind, negative), back, k)|)
    decreases Look(b, behind, negative), 1
  {
    hide Turns, Code, NumGroups, WellFormed, Sits, LookResults, Implements, Results, CanonOk;
    var body := Code(x.opts, b, behind, k);
    CodeLook(x.opts, b, behind, negative, back, k);
    WrapSits(p, pc, if negative then INegLook(|body| + 1) else ILook(|body| + 1), body, IMatch);
    Compiles(x, p, b, behind, k, pc + 1);
    LookImplements(x, p, b, behind, negative, back, k, |body|, pc);
  }

  lemma {:induction false} ResultsLook(x: Ctx, b: Re, behind: bool, negative: bool, back: bool, k: nat, s: St)
    requires StOk(x, s) && k + NumGroups(b) <= x.ncap
    ensures Results(x, Look(b, behind, negative), back, k, s) == LookResults(x, b, behind, negative, k, back, s)
  {
    hide FlatMap, StOk, Good, LeaveAll, LookResults, QuantResults, OneChar, OneBackRef;
  }

  lemma {:induction false} LookImplements(x: Ctx, p: Prog, b: Re, behind: bool, negative: bool, back: bool, k: nat,
                                          n: nat, pc: int)
    requires k + NumGroups(b) <= x.ncap && 0 <= pc && pc + n + 2 <= |p|
    requires p[pc] == (if negative then INegLook(n + 1) else ILook(n + 1)) && p[pc + 1 + n] == IMatch
    requires Implements(x, p, b, behind, k, pc + 1, pc + 1 + n)
    ensures Implements(x, p, Look(b, behind, negative), back, k, pc, pc + n + 2)
  {
    hide Turns, LookResults, Results;
    var end := pc + n + 2;
    forall s, stk | StOk(x, s)
      ensures Turns(x, p, pc, stk, s, Results(x, Look(b, behind, negative), back, k, s), end, stk)
    {
      ResultsLook(x, b, behind, negative, back, k, s);
      LookTurns(x, p, b, behind, negative, k, back, n, pc, stk, s);
    }
  }

  lemma {:induction false} QuantCompiles(x: Ctx, p: Prog, r: Re, back: bool, k: nat, pc: int)
    requires r.Quant? && WellFormed(r, k) && CanonOk(x.opts) && k + NumGroups(r) <= x.ncap
    requires Sits(p, pc, Code(x.opts, r, back, k))
    ensures Implements(x, p, r, back, k, pc, pc + |Code(x.opts, r, back, k)|)
    decreases r, 1
  {
    hide Turns, Implements, Code, WellFormed, Sits, CanonOk;
    Parts(r, k);
    var body := Code(x.opts, r.body, back, k);
    forall q | Sits(p, q, body)
      ensures Implements(x, p, r.body, back, k, q, q + |body|)
    {
      Compiles(x, p, r.body, back, k, q);
    }
    QuantImplements(x, p, r, back, k, pc);
  }

  lemma {:induction false} QuantImplements(x: Ctx, p: Prog, r: Re, back: bool, k: nat, pc: int)
    requires r.Quant? && WellFormed(r, k) && CanonOk(x.opts) && k + NumGroups(r) <= x.ncap
    requires Sits(p, pc, Code(x.opts, r, back, k))
    requires Everywhere(x, p, r.body, back, k, Code(x.opts, r.body, back, k))
    ensures Implements(x, p, r, back, k, pc, pc + |Code(x.opts, r, back, k)|)
  {
    hide Turns, QuantCode, QuantResults, Everywhere;
    var end := pc + |Code(x.opts, r, back, k)|;
    forall s, stk | StOk(x, s)
      ensures Turns(x, p, pc, stk, s, Results(x, r, back, k, s), end, stk)
    {
      QuantTurns(x, p, r, back, k, pc, stk, s);
    }
  }

  // ---------------------------------------------------------------- the whole program

  function Start(x: Ctx, start: nat): Cfg {
    Run(0, St(start, NoCaps(x.ncap)), [], [])
  }

  /** The state in which the pattern is entered, inside capture 0. */
  function Attempt(x: Ctx, start: nat): (s: St)
    requires x.ncap > 0 && Boundary(x.subject, start)
    ensures StOk(x, s) && s == SetCap(St(start, NoCaps(x.ncap)), 0)
  {
    Enter(x, false, 0, St(start, NoCaps(x.ncap)))
  }

  function Outcome(m: seq<St>): Cfg {
    if |m| == 0 then NoMatch else Matched(m[0])
  }

  /** Running the compiled program halts, and it ends with the first match of the reference matcher,
      captures included, or without a match when there is none. */
  lemma {:induction false} ProgramCorrect(x: Ctx, r: Re, sticky: bool, start: nat)
    requires WellFormed(r, 1) && CanonOk(x.opts) && x.ncap == 1 + NumGroups(r) && Boundary(x.subject, start)
    ensures Reaches(x, Program(x.opts, r, sticky), Start(x, start), Outcome(FirstMatch(x, r, sticky, start)))
  {
    hide Code, FirstMatch, Gen, Reaches, Step, Implements;
    var p, code := Program(x.opts, r, sticky), Code(x.opts, Group(r), false, 0);
    var base := |Prelude(sticky)|;
    ProgramSits(p, Prelude(sticky), code);
    assert WellFormed(Group(r), 0);
    Compiles(x, p, Group(r), false, 0, base);
    if sticky {
      StickyRun(x, p, r, base + |code|, start);
    } else {
      SearchRun(x, p, r, base + |code|, start);
    }
  }

  lemma ProgramSits(p: Prog, prelude: seq<Instr>, code: seq<Instr>)
    requires p == prelude + code + [IMatch]
    ensures Sits(p, |prelude|, code) && p[|prelude| + |code|] == IMatch
    ensures forall j :: 0 <= j < |prelude| ==> p[j] == prelude[j]
  {
    assert p[|prelude|..|prelude| + |code|] == code;
  }

  /** One attempt at `start`: it either matches or fails. */
  lemma {:induction false} AttemptRun(x: Ctx, p: Prog, r: Re, pc: int, end: int, start: nat, base: seq<Saved>)
    requires 1 + NumGroups(r) <= x.ncap && Boundary(x.subject, start) && Choices(base)
    requires Implements(x, p, Group(r), false, 0, pc, end) && 0 <= end < |p| && p[end] == IMatch
    ensures var s := St(start, NoCaps(x.ncap));
            var here := Results(x, Group(r), false, 0, s);
            Reaches(x, p, Run(pc, s, [], base), if |here| == 0 then Fail(base) else Matched(here[0]))
  {
    hide Results, StepRun, StepFail;
    var s := St(start, NoCaps(x.ncap));
    var here := Results(x, Group(r), false, 0, s);
    var c := Run(pc, s, [], base);
    ImplementsAt(x, p, Group(r), false, 0, pc, end, [], s);
    assert Gen(x, p, c, here, end, [], base);
    if |here| > 0 {
      var d :| Choices(d) && GenVia(x, p, c, here, end, [], base, d);
      assert here[0] in here;
      MatchRun(x, p, end, here[0], base + d);
      ReachesTrans(x, p, c, Run(end, here[0], [], base + d), Matched(here[0]));
    }
  }

  /** `match` outside every lookaround ends the run. */
  lemma MatchRun(x: Ctx, p: Prog, pc: int, s: St, d: seq<Saved>)
    requires InRange(x, s) && 0 <= pc < |p| && p[pc] == IMatch && Choices(d)
    ensures Reaches(x, p, Run(pc, s, [], d), Matched(s))
  {
    assert [] + d == d;
    ReachesStep(x, p, Run(pc, s, [], d));
    SucceedPops(x, p, s, [], d);
    ReachesTrans(x, p, Run(pc, s, [], d), Succeed(s, d), Succeed(s, []));
    ReachesStep(x, p, Succeed(s, []));
    ReachesTrans(x, p, Run(pc, s, [], d), Succeed(s, []), Matched(s));
  }

  /** The end of capture 0, and `match`. */
  lemma LeavesMatch(x: Ctx, p: Prog, pc: int, t: St, d: seq<Saved>)
    requires StOk(x, t) && x.ncap > 0 && Choices(d)
    requires 0 <= pc && pc + 1 < |p| && p[pc] == ISaveEnd(0) && p[pc + 1] == IMatch
    ensures Reaches(x, p, Run(pc, t, [], d), Matched(Leave(x, false, 0, t)))
  {
    var u := Leave(x, false, 0, t);
    ReachesStep(x, p, Run(pc, t, [], d));
    assert InRange(x, u);
    MatchRun(x, p, pc + 1, u, d);
    ReachesTrans(x, p, Run(pc, t, [], d), Run(pc + 1, u, [], d), Matched(u));
  }

  lemma SaveRun(x: Ctx, p: Prog, pc: int, s: St, base: seq<Saved>)
    requires InRange(x, s) && x.ncap > 0 && 0 <= pc < |p| && p[pc] == ISaveStart(0)
    ensures Reaches(x, p, Run(pc, s, [], base), Run(pc + 1, SetCap(s, 0), [], base))
  {
    ReachesStep(x, p, Run(pc, s, [], base));
  }

  /** What is saved when the first attempt begins. */
  function Base(sticky: bool, s: St): seq<Saved> {
    if sticky then [] else [Saved(Split, 0, s, 1, [])]
  }

  /** The first attempt begins behind the prelude. */
  lemma Begins(x: Ctx, p: Prog, sticky: bool, start: nat)
    requires Prelude(sticky) <= p && |p| > |Prelude(sticky)| && start <= Len(x)
    ensures var s := St(start, NoCaps(x.ncap));
            Reaches(x, p, Start(x, start), Run(|Prelude(sticky)|, s, [], Base(sticky, s)))
  {
    var c, s := Start(x, start), St(start, NoCaps(x.ncap));
    if sticky {
      ReachesSelf(x, p, c);
    } else {
      assert p[0] == Prelude(sticky)[0];
      assert [] + Base(sticky, s) == Base(sticky, s);
      ReachesStep(x, p, c);
    }
  }

  lemma {:induction false} StickyRun(x: Ctx, p: Prog, r: Re, end: int, start: nat)
    requires 1 + NumGroups(r) <= x.ncap && Boundary(x.subject, start)
    requires Implements(x, p, Group(r), false, 0, 0, end) && 0 <= end < |p| && p[end] == IMatch
    ensures Reaches(x, p, Start(x, start), Outcome(FirstMatch(x, r, true, start)))
  {
    hide Results, Reaches, Implements;
    AttemptRun(x, p, r, 0, end, start, []);
    ReachesStep(x, p, Fail([]));
    if |FirstMatch(x, r, true, start)| == 0 {
      ReachesTrans(x, p, Start(x, start), Fail([]), NoMatch);
    }
  }

  lemma {:induction false} SearchRun(x: Ctx, p: Prog, r: Re, end: int, start: nat)
    requires 1 + NumGroups(r) <= x.ncap && Boundary(x.subject, start)
    requires |p| >= 3 && p[0] == ISplitGotoFirst(2) && p[1] == IAny && p[2] == IGoto(-3)
    requires Implements(x, p, Group(r), false, 0, 3, end) && 0 <= end < |p| && p[end] == IMatch
    ensures Reaches(x, p, Start(x, start), Outcome(FirstMatch(x, r, false, start)))
    decreases Len(x) - start
  {
    hide Results, Reaches, Implements;
    var s := St(start, NoCaps(x.ncap));
    var d := [Saved(Split, 0, s, 1, [])];
    var c, c1 := Start(x, start), Run(3, s, [], d);
    assert [] + d == d;
    assert Step(x, p, c) == c1;
    ReachesStep(x, p, c);
    AttemptRun(x, p, r, 3, end, start, d);
    var here := Results(x, Group(r), false, 0, s);
    if |here| > 0 {
      ReachesTrans(x, p, c, c1, Matched(here[0]));
    } else {
      ReachesTrans(x, p, c, c1, Fail(d));
      RetryRun(x, p, s);
      if start < Len(x) {
        NextPrev(x.subject, start);
        var next := NextPos(x.subject, start);
        SearchRun(x, p, r, end, next);
        ReachesTrans(x, p, c, Fail(d), Start(x, next));
        ReachesTrans(x, p, c, Start(x, next), Outcome(FirstMatch(x, r, false, next)));
      } else {
        ReachesTrans(x, p, c, Fail(d), NoMatch);
      }
    }
  }

  /** After a failed attempt the machine moves on by one character, or gives up at the end. */
  lemma RetryRun(x: Ctx, p: Prog, s: St)
    requires |p| >= 3 && p[1] == IAny && p[2] == IGoto(-3) && InRange(x, s)
    ensures Reaches(x, p, Fail([Saved(Split, 0, s, 1, [])]),
                    if s.pos < Len(x) then Run(0, St(NextPos(x.subject, s.pos), s.caps), [], []) else NoMatch)
  {
    var d := [Saved(Split, 0, s, 1, [])];
    assert d[..0] == [];
    ReachesStep(x, p, Fail(d));
    ReachesStep(x, p, Run(1, s, [], []));
    if s.pos < Len(x) {
      var t := St(NextPos(x.subject, s.pos), s.caps);
      ReachesStep(x, p, Run(2, t, [], []));
      ReachesTrans(x, p, Fail(d), Run(1, s, [], []), Run(2, t, [], []));
      ReachesTrans(x, p, Fail(d), Run(2, t, [], []), Run(0, t, [], []));
    } else {
      ReachesStep(x, p, Fail([]));
      ReachesTrans(x, p, Fail(d), Run(1, s, [], []), Fail([]));
      ReachesTrans(x, p, Fail(d), Fail([]), NoMatch);
    }
  }
}
