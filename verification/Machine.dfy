/** The backtracking machine `lre_exec_backtrack`, one loop iteration at a time.

    `Fail` and `Succeed` are the states of the inner loop that pops saved states with `ret` 0 and 1;
    while it pops with `ret` 0 the capture array is dead, so `Fail` does not carry one.  `Loop` is the
    state of the counting loop of simple_greedy_quant.  `Crash` stands for everything the code leaves
    undefined: leaving the byte code, an empty operand stack, a capture index out of range, stepping
    back before the start of the subject. */
module Machine {
  import opened Integers
  import opened Subject
  import opened Regex
  import opened Matcher
  import ClassCode

  type Prog = seq<Instr>

  datatype Kind = Split | Lookahead | NegLookahead | GreedyQuant

  datatype Saved = Saved(kind: Kind, count: nat, s: St, pc: int, stk: seq<int>)

  datatype Cfg =
    | Run(pc: int, s: St, stk: seq<int>, saved: seq<Saved>)
    | Loop(pc: int, q: nat, s: St, stk: seq<int>, saved: seq<Saved>)
    | Fail(saved: seq<Saved>)
    | Succeed(s: St, saved: seq<Saved>)
    | Matched(s: St)
    | NoMatch
    | Crash

  datatype Scan = Hit(pos: nat) | Miss | Stuck

  /** All pointers point into the subject. */
  predicate InRange(x: Ctx, s: St) {
    |s.caps| == 2 * x.ncap && s.pos <= Len(x) &&
    forall i :: 0 <= i < |s.caps| ==> s.caps[i] == NULL || 0 <= s.caps[i] <= Len(x)
  }

  // ---------------------------------------------------------------- straight-line instructions

  predicate Basic(i: Instr) {
    i.IChar? || i.IClass? || i.IDot? || i.IAny? || i.ILineStart? || i.ILineEnd? || i.IWordBoundary? ||
    i.IBackRef? || i.IBackwardBackRef? || i.IPrev? || i.ISaveStart? || i.ISaveEnd? || i.ISaveReset?
  }

  /** The capture indices that the code asserts to be in range. */
  predicate CapturesFit(i: Instr, ncap: nat) {
    match i
    case ISaveStart(g) => g < ncap
    case ISaveEnd(g) => g < ncap
    case ISaveReset(a, b) => a <= b < ncap
    case _ => true
  }

  predicate Reads(i: Instr) {
    i.IChar? || i.IClass? || i.IDot? || i.IAny?
  }

  predicate TestChar(o: Opts, i: Instr, c: nat)
    requires Reads(i)
  {
    match i
    case IChar(d) => Canon(o, c) == d
    case IClass(code) => ClassCode.Test(code, Canon(o, c))
    case IDot => !IsLineTerminator(c)
    case IAny => true
  }

  /** GET_CHAR with an end other than the end of the subject. */
  function CharTo(t: Subject, p: nat, e: nat): nat
    requires p < |t.units|
  {
    if PairAt(t, p) && p + 1 < e then CharAt(t, p) else t.units[p]
  }

  function NextTo(t: Subject, p: nat, e: nat): (q: nat)
    requires p < |t.units|
    ensures p < q <= p + 2
    ensures p < e <= |t.units| ==> q <= e
  {
    if PairAt(t, p) && p + 1 < e then p + 2 else p + 1
  }

  /** GET_PREV_CHAR with a start other than the start of the subject. */
  function PrevTo(t: Subject, p: nat, b: nat): (q: nat)
    requires b < p <= |t.units|
    ensures b <= q < p
  {
    if PairAt(t, p - 2) && p - 1 > b then p - 2 else p - 1
  }

  function PrevCharTo(t: Subject, p: nat, b: nat): nat
    requires b < p <= |t.units|
  {
    if PairAt(t, p - 2) && p - 1 > b then PeekPrev(t, p) else t.units[p - 1]
  }

  /** The comparison loop of back_reference; NULL when it fails. */
  function CompareForward(x: Ctx, i: nat, e: nat, p: nat): (q: int)
    requires e <= Len(x) && p <= Len(x)
    ensures q == NULL || p <= q <= Len(x)
    decreases e - i
  {
    if i >= e then p
    else if p >= Len(x) then NULL
    else if Canon(x.opts, CharTo(x.subject, i, e)) != Canon(x.opts, CharAt(x.subject, p)) then NULL
    else CompareForward(x, NextTo(x.subject, i, e), e, NextPos(x.subject, p))
  }

  /** The comparison loop of backward_back_reference; NULL when it fails. */
  function CompareBackward(x: Ctx, b: nat, i: nat, p: nat): (q: int)
    requires i <= Len(x) && p <= Len(x)
    ensures q == NULL || 0 <= q <= p
    decreases i
  {
    if i <= b then p
    else if p == 0 then NULL
    else if Canon(x.opts, PrevCharTo(x.subject, i, b)) != Canon(x.opts, PeekPrev(x.subject, p)) then NULL
    else CompareBackward(x, b, PrevTo(x.subject, i, b), PrevPos(x.subject, p))
  }

  function BackRefPos(x: Ctx, g: nat, back: bool, s: St): (q: int)
    requires InRange(x, s)
    ensures q == NULL || 0 <= q <= Len(x)
  {
    if g >= x.ncap then NULL
    else if s.caps[2 * g] == NULL || s.caps[2 * g + 1] == NULL then s.pos
    else if back then CompareBackward(x, s.caps[2 * g], s.caps[2 * g + 1], s.pos)
    else CompareForward(x, s.caps[2 * g], s.caps[2 * g + 1], s.pos)
  }

  function ClearCaps(caps: seq<int>, a: nat, b: nat): (r: seq<int>)
    requires a <= b && 2 * b + 1 < |caps|
    ensures |r| == |caps|
  {
    ResetCaps(caps, a, b - a + 1)
  }

  /** Executes a straight-line instruction: at most one next state. */
  function Eval(x: Ctx, i: Instr, s: St): (r: seq<St>)
    requires InRange(x, s) && Basic(i) && CapturesFit(i, x.ncap)
    ensures |r| <= 1 && forall t :: t in r ==> InRange(x, t)
  {
    if Reads(i) then
      if s.pos < Len(x) && TestChar(x.opts, i, CharAt(x.subject, s.pos)) then
        [St(NextPos(x.subject, s.pos), s.caps)]
      else []
    else
      match i
      case ILineStart => if AtLineStart(x, s.pos) then [s] else []
      case ILineEnd => if AtLineEnd(x, s.pos) then [s] else []
      case IWordBoundary(negated) => if AtWordBoundary(x, s.pos) != negated then [s] else []
      case IBackRef(g) => At(BackRefPos(x, g, false, s), s)
      case IBackwardBackRef(g) => At(BackRefPos(x, g, true, s), s)
      case IPrev => if s.pos > 0 then [St(PrevPos(x.subject, s.pos), s.caps)] else []
      case ISaveStart(g) => [SetCap(s, 2 * g)]
      case ISaveEnd(g) => [SetCap(s, 2 * g + 1)]
      case ISaveReset(a, b) => [St(s.pos, ClearCaps(s.caps, a, b))]
  }

  function At(q: int, s: St): (r: seq<St>) {
    if q < 0 then [] else [St(q, s.caps)]
  }

  /** The nested call with `no_recurse`: straight-line code up to `match`. */
  function ScanAtom(x: Ctx, p: Prog, pc: int, s: St): (r: Scan)
    requires InRange(x, s)
    ensures r.Hit? ==> r.pos <= Len(x)
    decreases |p| - pc
  {
    if !(0 <= pc < |p|) then Stuck
    else if p[pc] == IMatch then Hit(s.pos)
    else if Basic(p[pc]) && CapturesFit(p[pc], x.ncap) then
      var r := Eval(x, p[pc], s);
      if |r| == 0 then Miss else ScanAtom(x, p, pc + 1, r[0])
    else Stuck
  }

  // ---------------------------------------------------------------- one step

  function Step(x: Ctx, p: Prog, c: Cfg): (c': Cfg) {
    match c
    case Run(pc, s, stk, saved) => if InRange(x, s) && 0 <= pc < |p| then StepRun(x, p, pc, s, stk, saved) else Crash
    case Loop(pc, q, s, stk, saved) =>
      if InRange(x, s) && 0 <= pc < |p| && p[pc].ISimpleGreedy? then StepLoop(x, p, pc, q, s, stk, saved) else Crash
    case Fail(saved) => StepFail(x, p, saved)
    case Succeed(s, saved) => StepSucceed(s, saved)
    case _ => c
  }

  function StepRun(x: Ctx, p: Prog, pc: int, s: St, stk: seq<int>, saved: seq<Saved>): (c: Cfg)
    requires InRange(x, s) && 0 <= pc < |p|
  {
    if Basic(p[pc]) then
      if !CapturesFit(p[pc], x.ncap) then Crash
      else
        var r := Eval(x, p[pc], s);
        if |r| == 0 then Fail(saved) else Run(pc + 1, r[0], stk, saved)
    else
      match p[pc]
      case IMatch => Succeed(s, saved)
      case IGoto(off) => Run(pc + 1 + off, s, stk, saved)
      case ISplitNextFirst(off) => Run(pc + 1, s, stk, saved + [Saved(Split, 0, s, pc + 1 + off, stk)])
      case ISplitGotoFirst(off) => Run(pc + 1 + off, s, stk, saved + [Saved(Split, 0, s, pc + 1, stk)])
      case ILook(off) => Run(pc + 1, s, stk, saved + [Saved(Lookahead, 0, s, pc + 1 + off, stk)])
      case INegLook(off) => Run(pc + 1, s, stk, saved + [Saved(NegLookahead, 0, s, pc + 1 + off, stk)])
      case IPushI32(n) => Run(pc + 1, s, stk + [n], saved)
      case IPushCharPos => Run(pc + 1, s, stk + [s.pos], saved)
      case IDrop => if |stk| == 0 then Crash else Run(pc + 1, s, stk[..|stk| - 1], saved)
      case ILoop(off) =>
        if |stk| == 0 then Crash
        else
          var n := stk[|stk| - 1] - 1;
          Run(if n != 0 then pc + 1 + off else pc + 1, s, stk[..|stk| - 1] + [n], saved)
      case IBneCharPos(off) =>
        if |stk| == 0 then Crash
        else Run(if stk[|stk| - 1] != s.pos then pc + 1 + off else pc + 1, s, stk[..|stk| - 1], saved)
      case ISimpleGreedy(_, _, _, _) => Loop(pc, 0, s, stk, saved)
  }

  function StepLoop(x: Ctx, p: Prog, pc: int, q: nat, s: St, stk: seq<int>, saved: seq<Saved>): (c: Cfg)
    requires InRange(x, s) && 0 <= pc < |p| && p[pc].ISimpleGreedy?
  {
    match ScanAtom(x, p, pc + 1, s)
    case Stuck => Crash
    case Miss => EndLoop(p[pc], pc, q, s, stk, saved)
    case Hit(pos) =>
      var t := St(pos, s.caps);
      if q + 1 >= p[pc].max && p[pc].max != INT32_MAX then EndLoop(p[pc], pc, q + 1, t, stk, saved)
      else Loop(pc, q + 1, t, stk, saved)
  }

  function EndLoop(i: Instr, pc: int, q: nat, s: St, stk: seq<int>, saved: seq<Saved>): (c: Cfg)
    requires i.ISimpleGreedy?
  {
    if q < i.min then Fail(saved)
    else if q == i.min then Run(pc + 1 + i.off, s, stk, saved)
    else Run(pc + 1 + i.off, s, stk, saved + [Saved(GreedyQuant, q - i.min, s, pc, stk)])
  }

  function StepFail(x: Ctx, p: Prog, saved: seq<Saved>): (c: Cfg) {
    if |saved| == 0 then NoMatch
    else
      var top, rest := saved[|saved| - 1], saved[..|saved| - 1];
      match top.kind
      case Split => Run(top.pc, top.s, top.stk, rest)
      case Lookahead => Fail(rest)
      case NegLookahead => Run(top.pc, top.s, top.stk, rest)
      case GreedyQuant =>
        if 0 <= top.pc < |p| && p[top.pc].ISimpleGreedy? && top.s.pos <= Len(x) && top.count > 0 &&
           p[top.pc].len <= Chars(x.subject, top.s.pos) then
          var t := St(PrevPosN(x.subject, p[top.pc].len, top.s.pos), top.s.caps);
          Run(top.pc + 1 + p[top.pc].off, t, top.stk,
              if top.count == 1 then rest else rest + [Saved(GreedyQuant, top.count - 1, t, top.pc, top.stk)])
        else Crash
  }

  function StepSucceed(s: St, saved: seq<Saved>): (c: Cfg) {
    if |saved| == 0 then Matched(s)
    else
      var top, rest := saved[|saved| - 1], saved[..|saved| - 1];
      match top.kind
      case Split => Succeed(s, rest)
      case GreedyQuant => Succeed(s, rest)
      case Lookahead => Run(top.pc, St(top.s.pos, s.caps), top.stk, rest)
      case NegLookahead => Fail(rest)
  }

  function StepN(x: Ctx, p: Prog, c: Cfg, n: nat): (c': Cfg)
    decreases n
  {
    if n == 0 then c else StepN(x, p, Step(x, p, c), n - 1)
  }

  predicate Halted(c: Cfg) {
    c.Matched? || c.NoMatch?
  }

  ghost predicate Reaches(x: Ctx, p: Prog, c: Cfg, c': Cfg) {
    exists n: nat :: StepN(x, p, c, n) == c'
  }

  lemma {:induction false} StepNAdd(x: Ctx, p: Prog, c: Cfg, m: nat, n: nat)
    ensures StepN(x, p, c, m + n) == StepN(x, p, StepN(x, p, c, m), n)
    decreases m
  {
    if m > 0 {
      StepNAdd(x, p, Step(x, p, c), m - 1, n);
    }
  }

  /** A halted machine stays as it is. */
  lemma {:induction false} HaltedStays(x: Ctx, p: Prog, c: Cfg, n: nat)
    requires Halted(c)
    ensures StepN(x, p, c, n) == c
    decreases n
  {
    if n > 0 {
      HaltedStays(x, p, c, n - 1);
    }
  }

  lemma ReachesSelf(x: Ctx, p: Prog, c: Cfg)
    ensures Reaches(x, p, c, c)
  {
    assert StepN(x, p, c, 0) == c;
  }

  lemma ReachesStep(x: Ctx, p: Prog, c: Cfg)
    ensures Reaches(x, p, c, Step(x, p, c))
  {
    assert StepN(x, p, Step(x, p, c), 0) == Step(x, p, c);
    assert StepN(x, p, c, 1) == Step(x, p, c);
  }

  lemma ReachesTrans(x: Ctx, p: Prog, c1: Cfg, c2: Cfg, c3: Cfg)
    requires Reaches(x, p, c1, c2) && Reaches(x, p, c2, c3)
    ensures Reaches(x, p, c1, c3)
  {
    var m: nat :| StepN(x, p, c1, m) == c2;
    var n: nat :| StepN(x, p, c2, n) == c3;
    StepNAdd(x, p, c1, m, n);
    assert StepN(x, p, c1, m + n) == c3;
  }

  /** A run has one outcome. */
  lemma {:induction false} OutcomeUnique(x: Ctx, p: Prog, c: Cfg, c1: Cfg, n: nat)
    requires Reaches(x, p, c, c1) && Halted(c1) && Halted(StepN(x, p, c, n))
    ensures StepN(x, p, c, n) == c1
  {
    hide Step;
    var m: nat :| StepN(x, p, c, m) == c1;
    if m <= n {
      StepNAdd(x, p, c, m, n - m);
      HaltedStays(x, p, c1, n - m);
    } else {
      StepNAdd(x, p, c, n, m - n);
      HaltedStays(x, p, StepN(x, p, c, n), m - n);
    }
  }
}
