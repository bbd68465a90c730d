/** What every state of every run of a compiled program satisfies. */
module Safety {
  import opened Subject
  import opened Regex
  import opened Matcher
  import opened Machine
  import opened Codegen
  import opened Analysis
  import opened StackDepth
  import opened Correct
  import opened Greedy
  import opened Compiled
  import ClassCode

  /** A closed program whose jumps stay inside it and which names existing captures only. */
  ghost predicate Sound(p: Prog, ncap: nat) {
    && Closed(p) && ClassesStored(p)
    && forall j :: 0 <= j < |p| ==> CapturesFit(p[j], ncap) && (p[j] == IMatch || Onward(p, j))
  }

  /** The range instructions of the code have operands that the machine can search. */
  predicate ClassesStored(code: seq<Instr>) {
    forall i :: i in code && i.IClass? ==> ClassCode.Stored(i.code)
  }

  predicate Onward(p: Prog, j: int)
    requires 0 <= j < |p|
  {
    j + 1 < |p| && j + 1 + Jump(p[j]) < |p|
  }

  /** The operand stack has the one depth of its program point. */
  ghost predicate InPlace(x: Ctx, p: Prog, pc: int, s: St, stk: seq<int>) {
    StOk(x, s) && 0 <= pc < |p| && |stk| == Depth(p, pc)
  }

  /** A counting state has room for all the iterations it may give back. */
  ghost predicate SavedFine(x: Ctx, p: Prog, e: Saved) {
    && InPlace(x, p, e.pc, e.s, e.stk)
    && (e.kind == GreedyQuant ==> p[e.pc].ISimpleGreedy? && e.count > 0 && Room(x, p[e.pc].len, e.s, e.count))
  }

  ghost predicate AllFine(x: Ctx, p: Prog, saved: seq<Saved>) {
    forall e :: e in saved ==> SavedFine(x, p, e)
  }

  /** The invariant of a run; `Crash` does not satisfy it. */
  ghost predicate Fine(x: Ctx, p: Prog, c: Cfg) {
    match c
    case Run(pc, s, stk, saved) => InPlace(x, p, pc, s, stk) && AllFine(x, p, saved)
    case Loop(pc, q, s, stk, saved) =>
      InPlace(x, p, pc, s, stk) && p[pc].ISimpleGreedy? && Room(x, p[pc].len, s, q) && AllFine(x, p, saved)
    case Fail(saved) => AllFine(x, p, saved)
    case Succeed(s, saved) => StOk(x, s) && AllFine(x, p, saved)
    case Matched(s) => StOk(x, s)
    case NoMatch => true
    case Crash => false
  }

  // ---------------------------------------------------------------- no cursor inside a pair

  /** Straight-line code never leaves the cursor, or a capture, inside a surrogate pair. */
  lemma EvalOk(x: Ctx, i: Instr, s: St)
    requires StOk(x, s) && Basic(i) && CapturesFit(i, x.ncap)
    ensures |Eval(x, i, s)| > 0 ==> StOk(x, Eval(x, i, s)[0])
  {
    hide TestChar, AtLineStart, AtLineEnd, AtWordBoundary, CompareForward, CompareBackward;
    NextPrev(x.subject, s.pos);
    match i {
      case IBackRef(g) => BackRefOk(x, g, false, s);
      case IBackwardBackRef(g) => BackRefOk(x, g, true, s);
      case _ =>
    }
  }

  lemma BackRefOk(x: Ctx, g: nat, back: bool, s: St)
    requires StOk(x, s)
    ensures BackRefPos(x, g, back, s) == NULL || Boundary(x.subject, BackRefPos(x, g, back, s))
  {
    if g < x.ncap && s.caps[2 * g] != NULL && s.caps[2 * g + 1] != NULL {
      CompareForwardSame(x, s.caps[2 * g], s.caps[2 * g + 1], s.pos);
      CompareBackwardSame(x, s.caps[2 * g], s.caps[2 * g + 1], s.pos);
    }
  }

  /** The atom of a counting loop runs to its end or fails; when it ends it has read `len` characters. */
  lemma {:induction false} ScanRuns(x: Ctx, p: Prog, pc: nat, n: nat, len: nat, s: St)
    requires CountedAtom(p, pc, n, len) && StOk(x, s)
    ensures var r := ScanAtom(x, p, pc, s);
            r != Stuck &&
            (r.Hit? ==> Boundary(x.subject, r.pos) && Chars(x.subject, r.pos) == Chars(x.subject, s.pos) + len)
    decreases n
  {
    hide Eval, Chars, PairAt;
    var code := p[pc..pc + n];
    if n > 0 {
      assert code[0] == p[pc];
      assert code[1..] == p[pc + 1..pc + n];
      PlainEval(x, p[pc], s);
      var r := Eval(x, p[pc], s);
      if |r| > 0 {
        ScanRuns(x, p, pc + 1, n - 1, SimpleCount(code[1..]), r[0]);
      }
    }
  }

  lemma PlainEval(x: Ctx, i: Instr, s: St)
    requires StOk(x, s) && (Reads(i) || Assertion(i))
    ensures Basic(i) && CapturesFit(i, x.ncap)
    ensures |Eval(x, i, s)| > 0 ==> var t := Eval(x, i, s)[0];
                                    StOk(x, t) &&
                                    Chars(x.subject, t.pos) == Chars(x.subject, s.pos) + if Reads(i) then 1 else 0
  {
    hide TestChar, AtLineStart, AtLineEnd, AtWordBoundary;
    NextPrev(x.subject, s.pos);
  }

  /** One jump: the stack keeps its depth. */
  lemma JumpInPlace(p: Prog, ncap: nat, pc: int)
    requires Sound(p, ncap) && 0 <= pc < |p| && p[pc] != IMatch
    ensures Depth(p, pc + 1) == Depth(p, pc) + Delta(p[pc]) && pc + 1 < |p|
    ensures 0 <= pc + 1 + Jump(p[pc]) < |p| && Depth(p, pc + 1 + Jump(p[pc])) == Depth(p, pc + 1)
    ensures p[pc].IDrop? || p[pc].ILoop? || p[pc].IBneCharPos? ==> Depth(p, pc) > 0
  {
    hide Depth, Delta;
    assert Fits(p, pc);
    assert Onward(p, pc);
    DepthNext(p, pc);
  }

  lemma DepthNext(p: Prog, pc: nat)
    requires pc < |p|
    ensures Depth(p, pc + 1) == Depth(p, pc) + Delta(p[pc])
  {
    hide Delta;
  }

  lemma RunFine(x: Ctx, p: Prog, pc: int, s: St, stk: seq<int>, saved: seq<Saved>)
    requires Sound(p, x.ncap) && Fine(x, p, Run(pc, s, stk, saved))
    ensures Fine(x, p, StepRun(x, p, pc, s, stk, saved))
  {
    hide Depth, Eval, Closed, Onward;
    if Basic(p[pc]) {
      var r := Eval(x, p[pc], s);
      JumpInPlace(p, x.ncap, pc);
      EvalOk(x, p[pc], s);
    } else if p[pc] != IMatch {
      JumpInPlace(p, x.ncap, pc);
    }
  }

  lemma RoomNext(x: Ctx, len: nat, s: St, t: St, q: nat)
    requires Room(x, len, s, q) && t.pos <= Len(x) && Chars(x.subject, t.pos) == Chars(x.subject, s.pos) + len
    ensures Room(x, len, t, q + 1)
  {
    assert (q + 1) * len == q * len + len;
  }

  lemma RoomFewer(x: Ctx, len: nat, s: St, q: nat, min: nat)
    requires Room(x, len, s, q) && min <= q
    ensures Room(x, len, s, q - min)
  {
    assert (q - min) * len <= q * len;
  }

  lemma EndFine(x: Ctx, p: Prog, pc: int, q: nat, s: St, stk: seq<int>, saved: seq<Saved>)
    requires Sound(p, x.ncap) && Fine(x, p, Loop(pc, q, s, stk, saved))
    ensures Fine(x, p, EndLoop(p[pc], pc, q, s, stk, saved))
  {
    hide Depth, Closed, Room;
    JumpInPlace(p, x.ncap, pc);
    if q >= p[pc].min {
      RoomFewer(x, p[pc].len, s, q, p[pc].min);
    }
  }

  lemma LoopFine(x: Ctx, p: Prog, pc: int, q: nat, s: St, stk: seq<int>, saved: seq<Saved>)
    requires Sound(p, x.ncap) && Fine(x, p, Loop(pc, q, s, stk, saved))
    ensures Fine(x, p, StepLoop(x, p, pc, q, s, stk, saved))
  {
    hide Depth, ScanAtom, Room, CountedAtom, EndLoop;
    assert Fits(p, pc);
    ScanRuns(x, p, pc + 1, p[pc].off - 1, p[pc].len, s);
    var r := ScanAtom(x, p, pc + 1, s);
    if r.Miss? {
      EndFine(x, p, pc, q, s, stk, saved);
    } else {
      var t := St(r.pos, s.caps);
      RoomNext(x, p[pc].len, s, t, q);
      EndFine(x, p, pc, q + 1, t, stk, saved);
    }
  }

  lemma {:induction false} BackBoundary(t: Subject, n: nat, p: nat)
    requires Boundary(t, p) && n <= Chars(t, p)
    ensures Boundary(t, PrevPosN(t, n, p))
    decreases n
  {
    if n > 0 {
      PrevThenNext(t, p);
      BackBoundary(t, n - 1, PrevPos(t, p));
    }
  }

  lemma FailFine(x: Ctx, p: Prog, saved: seq<Saved>)
    requires Sound(p, x.ncap) && AllFine(x, p, saved)
    ensures Fine(x, p, StepFail(x, p, saved))
  {
    hide Depth, Closed, Room, Chars, PairAt;
    if |saved| > 0 {
      var top := saved[|saved| - 1];
      assert top in saved && SavedFine(x, p, top);
      if top.kind == GreedyQuant {
        JumpInPlace(p, x.ncap, top.pc);
        RoomStep(x, p[top.pc].len, top.s, top.count);
        BackBoundary(x.subject, p[top.pc].len, top.s.pos);
      }
    }
  }

  lemma SucceedFine(x: Ctx, p: Prog, s: St, saved: seq<Saved>)
    requires StOk(x, s) && AllFine(x, p, saved)
    ensures Fine(x, p, StepSucceed(s, saved))
  {
    hide Depth;
    if |saved| > 0 {
      var top := saved[|saved| - 1];
      assert top in saved && SavedFine(x, p, top);
    }
  }

  /** Every step keeps the invariant; in particular the machine never gets stuck. */
  lemma StepFine(x: Ctx, p: Prog, c: Cfg)
    requires Sound(p, x.ncap) && Fine(x, p, c)
    ensures Fine(x, p, Step(x, p, c))
  {
    hide StepRun, StepLoop, StepFail, StepSucceed, Sound;
    match c {
      case Run(pc, s, stk, saved) => RunFine(x, p, pc, s, stk, saved);
      case Loop(pc, q, s, stk, saved) => LoopFine(x, p, pc, q, s, stk, saved);
      case Fail(saved) => FailFine(x, p, saved);
      case Succeed(s, saved) => SucceedFine(x, p, s, saved);
      case _ =>
    }
  }

  lemma {:induction false} RunsFine(x: Ctx, p: Prog, c: Cfg, n: nat)
    requires Sound(p, x.ncap) && Fine(x, p, c)
    ensures Fine(x, p, StepN(x, p, c, n))
    decreases n
  {
    hide Step, Fine, Sound;
    if n > 0 {
      StepFine(x, p, c);
      RunsFine(x, p, Step(x, p, c), n - 1);
    }
  }

  // ---------------------------------------------------------------- compiled programs

  lemma OnwardIn(code: seq<Instr>, p: Prog)
    requires Closed(code) && p == code + [IMatch]
    ensures Closed(p)
    ensures forall j :: 0 <= j < |p| ==> p[j] == IMatch || Onward(p, j)
  {
    hide Depth;
    MatchClosed();
    ClosedConcat(code, [IMatch]);
    forall j | 0 <= j < |p|
      ensures p[j] == IMatch || Onward(p, j)
    {
      if j < |code| {
        assert Fits(code, j);
      }
    }
  }

  lemma MatchClosed()
    ensures Closed([IMatch])
  {
    DepthShort([IMatch]);
  }

  lemma PreludeClosed(sticky: bool)
    ensures Closed(Prelude(sticky))
  {
    if sticky {
      StraightClosed([]);
    } else {
      var code := Prelude(sticky);
      StraightDepth([IAny], 1);
      assert Depth(code, 0) == Depth(code, 1) == Depth(code, 2) == Depth(code, 3) == 0;
    }
  }

  lemma {:induction false} WellFormedFits(r: Re, k: nat)
    requires WellFormed(r, k)
    ensures RangesFit(r)
    decreases r
  {
    hide Advances, NoInnerRefs, NumGroups;
    match r {
      case Cat(a, b) =>
        WellFormedFits(a, k);
        WellFormedFits(b, k + NumGroups(a));
      case Alt(a, b) =>
        WellFormedFits(a, k);
        WellFormedFits(b, k + NumGroups(a));
      case Group(b) => WellFormedFits(b, k + 1);
      case Look(b, _, _) => WellFormedFits(b, k);
      case Quant(b, _, _, _) => WellFormedFits(b, k);
      case _ =>
    }
  }

  lemma StoredConcat(a: seq<Instr>, b: seq<Instr>)
    requires ClassesStored(a) && ClassesStored(b)
    ensures ClassesStored(a + b)
  {
  }

  lemma {:induction false} LoopsStored(body: seq<Instr>, min: nat, max: nat, n: nat, check: bool, greedy: bool)
    requires ClassesStored(body)
    ensures ClassesStored(OptionCode(body, greedy)) && ClassesStored(StarCode(body, check, greedy))
    ensures ClassesStored(PlusCode(body, greedy)) && ClassesStored(ExactCode(body, n))
    ensures ClassesStored(UptoCode(body, n, greedy))
    ensures SimpleCount(body) > 0 ==> ClassesStored(SimpleCode(body, min, max))
  {
    hide SimpleCount;
  }

  lemma QuantStored(body: seq<Instr>, k: nat, n: nat, min: nat, max: nat, greedy: bool)
    requires ClassesStored(body)
    ensures ClassesStored(QuantCode(body, k, n, min, max, greedy))
  {
    hide SimpleCount, CheckAdvance, ClassesStored, OptionCode, StarCode, PlusCode, ExactCode, UptoCode, SimpleCode;
    var check := greedy && CheckAdvance(body) == 0;
    var more := if max > min then max - min else 0;
    var first := if min == 0 then ResetCode(k, n) else if min == 1 then body else ExactCode(body, min);
    LoopsStored(body, min, max, more, check, greedy);
    LoopsStored(body, min, max, min, check, greedy);
    ResetStored(k, n);
    StoredConcat(first, []);
    StoredConcat(first, OptionCode(body, greedy));
    StoredConcat(first, StarCode(body, check, greedy));
    StoredConcat(first, UptoCode(body, more, greedy));
  }

  lemma ResetStored(k: nat, n: nat)
    ensures ClassesStored(ResetCode(k, n)) && ClassesStored([])
  {
  }

  lemma {:induction false} CodeStored(o: Opts, r: Re, back: bool, k: nat)
    requires RangesFit(r)
    ensures ClassesStored(Code(o, r, back, k))
    decreases r
  {
    hide Code, QuantCode, AltCode, LookCode, ClassesStored;
    match r {
      case Cat(a, b) =>
        CodeStored(o, a, back, k);
        CodeStored(o, b, back, k + NumGroups(a));
        CodeCat(o, a, b, back, k);
        StoredConcat(Code(o, a, back, k), Code(o, b, back, k + NumGroups(a)));
        StoredConcat(Code(o, b, back, k + NumGroups(a)), Code(o, a, back, k));
      case Alt(a, b) =>
        CodeStored(o, a, back, k);
        CodeStored(o, b, back, k + NumGroups(a));
        CodeAlt(o, a, b, back, k);
        AltStored(Code(o, a, back, k), Code(o, b, back, k + NumGroups(a)));
      case Group(b) =>
        CodeStored(o, b, back, k + 1);
        CodeGroup(o, b, back, k);
        WrapStored(Code(o, b, back, k + 1), k);
      case Look(b, behind, negative) =>
        CodeStored(o, b, behind, k);
        CodeLook(o, b, behind, negative, back, k);
        LookStored(Code(o, b, behind, k), negative);
      case Quant(b, min, max, greedy) =>
        CodeStored(o, b, back, k);
        CodeQuant(o, b, min, max, greedy, back, k);
        QuantStored(Code(o, b, back, k), k, NumGroups(b), min, max, greedy);
      case _ => LeafStored(o, r, back, k);
    }
  }

  lemma {:induction false} LeafStored(o: Opts, r: Re, back: bool, k: nat)
    requires RangesFit(r) && !r.Cat? && !r.Alt? && !r.Group? && !r.Look? && !r.Quant?
    ensures ClassesStored(Code(o, r, back, k))
  {
    if r.Set? {
      ClassCode.EncodeStored(r.points);
    }
  }

  lemma AltStored(a: seq<Instr>, b: seq<Instr>)
    requires ClassesStored(a) && ClassesStored(b)
    ensures ClassesStored(AltCode(a, b))
  {
  }

  lemma LookStored(body: seq<Instr>, negative: bool)
    requires ClassesStored(body)
    ensures ClassesStored(LookCode(body, negative))
  {
  }

  lemma WrapStored(body: seq<Instr>, k: nat)
    requires ClassesStored(body)
    ensures ClassesStored([ISaveStart(k)] + body + [ISaveEnd(k)]) &&
            ClassesStored([ISaveEnd(k)] + body + [ISaveStart(k)])
  {
  }

  lemma {:induction false} ProgramSound(o: Opts, r: Re, sticky: bool)
    requires RangesFit(r)
    ensures Sound(Program(o, r, sticky), 1 + NumGroups(r))
  {
    hide Closed, Code, Onward, AllConfined, ClassesStored;
    var p, code := Program(o, r, sticky), Code(o, Group(r), false, 0);
    PreludeClosed(sticky);
    CodeClosed(o, Group(r), false, 0);
    ClosedConcat(Prelude(sticky), code);
    OnwardIn(Prelude(sticky) + code, p);
    CodeConfined(o, Group(r), false, 0);
    CodeStored(o, Group(r), false, 0);
    ProgramFits(Prelude(sticky), code, 1 + NumGroups(r));
  }

  lemma {:induction false} ProgramFits(prelude: seq<Instr>, code: seq<Instr>, n: nat)
    requires AllConfined(code, 0, n) && ClassesStored(code)
    requires forall i :: i in prelude ==> CapturesFit(i, n) && !i.IClass?
    ensures var p := prelude + code + [IMatch];
            ClassesStored(p) && forall j :: 0 <= j < |p| ==> CapturesFit(p[j], n)
  {
    var p := prelude + code + [IMatch];
    forall i | i in p
      ensures CapturesFit(i, n) && (i.IClass? ==> ClassCode.Stored(i.code))
    {
      assert i in prelude || i in code || i == IMatch;
      if i in code {
        assert Confined(i, 0, n);
      }
    }
  }

  // ---------------------------------------------------------------- the size of the operand stack

  ghost predicate Bounds(p: Prog, size: nat) {
    forall j :: 0 <= j <= |p| ==> Depth(p, j) <= size
  }

  /** `compute_stack_size`: the largest depth of any point, or -1 when it is more than 255.  The stack
      is never popped when it is empty: that is the assertion in the code. */
  method ComputeStackSize(p: Prog) returns (size: int)
    requires Closed(p)
    ensures size == -1 || 0 <= size <= STACK_SIZE_MAX
    ensures size >= 0 ==> Bounds(p, size) && exists j :: 0 <= j <= |p| && Depth(p, j) == size
    ensures size == -1 ==> exists j :: 0 <= j <= |p| && Depth(p, j) > STACK_SIZE_MAX
  {
    var depth := 0;
    var pos := 0;
    ghost var top := 0;
    size := 0;
    while pos < |p|
      invariant 0 <= pos <= |p| && depth == Depth(p, pos)
      invariant 0 <= top <= pos && 0 <= size == Depth(p, top) <= STACK_SIZE_MAX
      invariant forall j :: 0 <= j <= pos ==> Depth(p, j) <= size
    {
      assert Fits(p, pos);
      match p[pos] {
        case IPushI32(_) => depth := depth + 1;
        case IPushCharPos => depth := depth + 1;
        case IDrop =>
          assert depth > 0;
          depth := depth - 1;
        case IBneCharPos(_) =>
          assert depth > 0;
          depth := depth - 1;
        case _ =>
      }
      assert depth == Depth(p, pos + 1);
      if depth > size {
        if depth > STACK_SIZE_MAX {
          return -1;
        }
        size := depth;
        top := pos + 1;
      }
      pos := pos + 1;
    }
  }

  /** No stack in the configuration is deeper than `size`. */
  predicate StacksWithin(c: Cfg, size: nat) {
    match c
    case Run(_, _, stk, saved) => |stk| <= size && AllWithin(saved, size)
    case Loop(_, _, _, stk, saved) => |stk| <= size && AllWithin(saved, size)
    case Fail(saved) => AllWithin(saved, size)
    case Succeed(_, saved) => AllWithin(saved, size)
    case _ => true
  }

  predicate AllWithin(saved: seq<Saved>, size: nat) {
    forall e :: e in saved ==> |e.stk| <= size
  }

  lemma FineWithin(x: Ctx, p: Prog, c: Cfg, size: nat)
    requires Fine(x, p, c) && Bounds(p, size)
    ensures StacksWithin(c, size)
  {
    hide Depth, StOk, Room;
    if c.Run? || c.Loop? || c.Fail? || c.Succeed? {
      forall e | e in c.saved
        ensures |e.stk| <= size
      {
        assert SavedFine(x, p, e);
      }
    }
  }

  /** After any number of steps of any compiled program, the machine is not stuck, every pointer lies in
      the subject, and no operand stack, live or saved, is deeper than the computed size. */
  lemma {:induction false} RunIsSafe(x: Ctx, r: Re, sticky: bool, start: nat, size: nat, n: nat)
    requires RangesFit(r) && x.ncap == 1 + NumGroups(r) && Boundary(x.subject, start) &&
             Bounds(Program(x.opts, r, sticky), size)
    ensures var p := Program(x.opts, r, sticky);
            var c := StepN(x, p, Start(x, start), n);
            c != Crash && Fine(x, p, c) && StacksWithin(c, size)
  {
    hide Program, StacksWithin, Bounds, Depth;
    var p := Program(x.opts, r, sticky);
    ProgramSound(x.opts, r, sticky);
    ProgramStarts(x.opts, r, sticky);
    DepthStart(p);
    RunsFine(x, p, Start(x, start), n);
    FineWithin(x, p, StepN(x, p, Start(x, start), n), size);
  }

  lemma ProgramStarts(o: Opts, r: Re, sticky: bool)
    ensures |Program(o, r, sticky)| > 0
  {
    hide Code;
  }
}
