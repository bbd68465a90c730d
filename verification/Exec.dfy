/** The virtual machine itself: `lre_exec` and `lre_exec_backtrack`, which keep the captures and the
    operand stack in arrays and copy both to a saved state whenever there is a choice.  Each part is
    proved to take the machine from one configuration to the next; together they compute the first
    match of the reference matcher. */
module Exec {
  import opened Integers
  import opened Subject
  import opened Regex
  import opened Matcher
  import opened Machine
  import opened Codegen
  import opened StackDepth
  import opened Safety
  import opened Greedy
  import opened Compiled
  import ClassCode

  /** The run from `c` ends after `n` steps in `end`. */
  ghost predicate Ends(x: Ctx, p: Prog, c: Cfg, n: nat, end: Cfg) {
    StepN(x, p, c, n) == end && Halted(end)
  }

  lemma EndsStep(x: Ctx, p: Prog, c: Cfg, n: nat, end: Cfg)
    requires Ends(x, p, c, n, end) && !Halted(c)
    ensures n > 0 && Ends(x, p, Step(x, p, c), n - 1, end)
  {
    hide Step;
  }

  /** REExecContext, with the program counter, the cursor and the stack length of the running call. */
  class Context {
    const x: Ctx
    const prog: Prog
    const capture: array<int>
    const stack: array<int>
    var pc: int
    var cptr: nat
    var stackLen: nat
    var states: seq<Saved>

    ghost predicate Valid()
      reads this
    {
      capture != stack && capture.Length == 2 * x.ncap && stackLen <= stack.Length
    }

    ghost function Here(): St
      reads this, capture
    {
      St(cptr, capture[..])
    }

    ghost function Operands(): seq<int>
      reads this, stack
      requires Valid()
    {
      stack[..stackLen]
    }

    ghost function Current(): Cfg
      reads this, capture, stack
      requires Valid()
    {
      Run(pc, Here(), Operands(), states)
    }

    constructor (x: Ctx, prog: Prog, stackSize: nat, start: nat)
      ensures Valid() && fresh(capture) && fresh(stack) && stack.Length == stackSize
      ensures this.x == x && this.prog == prog && Current() == Start(x, start)
    {
      this.x, this.prog := x, prog;
      var caps := new int[2 * x.ncap];
      var i := 0;
      while i < caps.Length
        invariant i <= caps.Length && forall j :: 0 <= j < i ==> caps[j] == NULL
      {
        caps[i] := NULL;
        i := i + 1;
      }
      capture, stack := caps, new int[stackSize];
      pc, cptr, stackLen, states := 0, start, 0, [];
      new;
      assert capture[..] == NoCaps(x.ncap);
    }

    /** `push_state`. */
    method PushState(kind: Kind, count: nat, pc1: int)
      requires Valid()
      modifies `states
      ensures states == old(states) + [Saved(kind, count, Here(), pc1, Operands())]
    {
      states := states + [Saved(kind, count, St(cptr, capture[..]), pc1, stack[..stackLen])];
    }

    // -------------------------------------------------------------- straight-line instructions

    /** `lre_canonicalize`. */
    function Canonicalize(c: nat): nat
      reads this
    {
      if c in x.opts.canon then x.opts.canon[c] else c
    }

    /** `back_reference`: compares the text from `from` to `to` with the text at the cursor. */
    method BackReference(from: nat, to: nat) returns (ok: bool)
      requires to <= Len(x) && cptr <= Len(x)
      modifies `cptr
      ensures ok <==> CompareForward(x, from, to, old(cptr)) != NULL
      ensures ok ==> CompareForward(x, from, to, old(cptr)) == cptr
    {
      var cptr1 := from;
      while cptr1 < to
        invariant cptr <= Len(x)
        invariant CompareForward(x, from, to, old(cptr)) == CompareForward(x, cptr1, to, cptr)
      {
        if cptr >= Len(x) {
          return false;
        }
        var c1, c2 := CharTo(x.subject, cptr1, to), CharAt(x.subject, cptr);
        if x.opts.ignoreCase {
          c1, c2 := Canonicalize(c1), Canonicalize(c2);
        }
        if c1 != c2 {
          return false;
        }
        cptr1, cptr := NextTo(x.subject, cptr1, to), NextPos(x.subject, cptr);
      }
      return true;
    }

    /** `backward_back_reference`. */
    method BackwardBackReference(from: nat, to: nat) returns (ok: bool)
      requires to <= Len(x) && cptr <= Len(x)
      modifies `cptr
      ensures ok <==> CompareBackward(x, from, to, old(cptr)) != NULL
      ensures ok ==> CompareBackward(x, from, to, old(cptr)) == cptr
    {
      var cptr1: nat := to;
      while cptr1 > from
        invariant cptr1 <= Len(x) && cptr <= Len(x)
        invariant CompareBackward(x, from, to, old(cptr)) == CompareBackward(x, from, cptr1, cptr)
      {
        if cptr == 0 {
          return false;
        }
        var c1, c2 := PrevCharTo(x.subject, cptr1, from), PeekPrev(x.subject, cptr);
        if x.opts.ignoreCase {
          c1, c2 := Canonicalize(c1), Canonicalize(c2);
        }
        if c1 != c2 {
          return false;
        }
        cptr1, cptr := PrevTo(x.subject, cptr1, from), PrevPos(x.subject, cptr);
      }
      return true;
    }

    method SaveReset(first: nat, last: nat)
      requires Valid() && first <= last < x.ncap
      modifies capture
      ensures capture[..] == ClearCaps(old(capture[..]), first, last)
    {
      var val := first;
      while val <= last
        invariant first <= val <= last + 1
        invariant forall i :: 0 <= i < capture.Length ==>
                                capture[i] == if 2 * first <= i < 2 * val then NULL else old(capture[i])
      {
        capture[2 * val] := NULL;
        capture[2 * val + 1] := NULL;
        val := val + 1;
      }
    }

    /** char, range, dot and any: tests and consumes one character. */
    method ReadChar(i: Instr) returns (ok: bool)
      requires cptr <= Len(x) && Reads(i) && (i.IClass? ==> ClassCode.Stored(i.code))
      modifies `cptr
      ensures ok <==> old(cptr) < Len(x) && TestChar(x.opts, i, CharAt(x.subject, old(cptr)))
      ensures ok ==> cptr == NextPos(x.subject, old(cptr))
    {
      if cptr >= Len(x) {
        return false;
      }
      var c := CharAt(x.subject, cptr);
      cptr := NextPos(x.subject, cptr);
      if x.opts.ignoreCase && (i.IChar? || i.IClass?) {
        c := Canonicalize(c);
      }
      match i {
        case IChar(d) => ok := c == d;
        case IClass(code) => ok := ClassCode.MatchClass(code, c);
        case IDot => ok := !IsLineTerminator(c);
        case IAny => ok := true;
      }
    }

    /** One straight-line instruction: it goes on with the one next state, or there is none. */
    method Straight(i: Instr) returns (ok: bool)
      requires Valid() && Basic(i) && InRange(x, Here()) && CapturesFit(i, x.ncap)
      requires i.IClass? ==> ClassCode.Stored(i.code)
      modifies `cptr, capture
      ensures ok <==> |Eval(x, i, old(Here()))| > 0
      ensures ok ==> Here() == Eval(x, i, old(Here()))[0]
      ensures !ok ==> capture[..] == old(capture[..])
    {
      if Reads(i) {
        ok := ReadChar(i);
        return;
      }
      ok := true;
      match i {
        case ILineStart =>
          if cptr != 0 {
            ok := x.opts.multiline && IsLineTerminator(PeekPrev(x.subject, cptr));
          }
        case ILineEnd =>
          if cptr != Len(x) {
            ok := x.opts.multiline && IsLineTerminator(CharAt(x.subject, cptr));
          }
        case IWordBoundary(negated) =>
          var v1, v2 := false, false;
          if cptr != 0 {
            v1 := IsWordChar(PeekPrev(x.subject, cptr));
          }
          if cptr < Len(x) {
            v2 := IsWordChar(CharAt(x.subject, cptr));
          }
          ok := (v1 != v2) != negated;
        case IPrev =>
          ok := cptr > 0;
          if ok {
            cptr := PrevPos(x.subject, cptr);
          }
        case ISaveStart(g) => capture[2 * g] := cptr;
        case ISaveEnd(g) => capture[2 * g + 1] := cptr;
        case ISaveReset(a, b) => SaveReset(a, b);
        case IBackRef(g) => ok := Reference(g, false);
        case IBackwardBackRef(g) => ok := Reference(g, true);
      }
    }

    method Reference(g: nat, back: bool) returns (ok: bool)
      requires Valid() && InRange(x, Here())
      modifies `cptr
      ensures ok <==> BackRefPos(x, g, back, old(Here())) != NULL
      ensures ok ==> BackRefPos(x, g, back, old(Here())) == cptr
    {
      if g >= x.ncap {
        return false;
      }
      var from, to := capture[2 * g], capture[2 * g + 1];
      if from == NULL || to == NULL {
        return true;
      }
      if back {
        ok := BackwardBackReference(from, to);
      } else {
        ok := BackReference(from, to);
      }
    }

    // -------------------------------------------------------------- jumps and the operand stack

    method Branching()
      requires Valid() && 0 <= pc < |prog| && InRange(x, Here())
      requires var i := prog[pc]; i.IGoto? || i.ISplitGotoFirst? || i.ISplitNextFirst? || i.ILook? || i.INegLook?
      modifies `pc, `states
      ensures Current() == StepRun(x, prog, old(pc), old(Here()), old(Operands()), old(states))
    {
      hide Eval, CapturesFit;
      var i := prog[pc];
      pc := pc + 1;
      match i {
        case IGoto(off) => pc := pc + off;
        case ISplitGotoFirst(off) =>
          PushState(Split, 0, pc);
          pc := pc + off;
        case ISplitNextFirst(off) => PushState(Split, 0, pc + off);
        case ILook(off) => PushState(Lookahead, 0, pc + off);
        case INegLook(off) => PushState(NegLookahead, 0, pc + off);
      }
    }

    method Pushing()
      requires Valid() && 0 <= pc < |prog| && InRange(x, Here()) && stackLen < stack.Length
      requires prog[pc].IPushI32? || prog[pc].IPushCharPos?
      modifies `pc, `stackLen, stack
      ensures Valid()
      ensures Current() == StepRun(x, prog, old(pc), old(Here()), old(Operands()), old(states))
    {
      hide Eval, CapturesFit;
      var i := prog[pc];
      pc := pc + 1;
      stack[stackLen] := if i.IPushI32? then i.n else cptr;
      stackLen := stackLen + 1;
      assert Operands() == old(Operands()) + [stack[stackLen - 1]];
    }

    method Popping()
      requires Valid() && 0 <= pc < |prog| && InRange(x, Here()) && stackLen > 0
      requires prog[pc].IDrop? || prog[pc].ILoop? || prog[pc].IBneCharPos?
      modifies `pc, `stackLen, stack
      ensures Valid()
      ensures Current() == StepRun(x, prog, old(pc), old(Here()), old(Operands()), old(states))
    {
      PopStep(x, prog, pc, Here(), Operands(), states);
      hide StepRun;
      var i := prog[pc];
      pc := pc + 1;
      match i {
        case IDrop => stackLen := stackLen - 1;
        case ILoop(off) =>
          stack[stackLen - 1] := stack[stackLen - 1] - 1;
          if stack[stackLen - 1] != 0 {
            pc := pc + off;
          }
        case IBneCharPos(off) =>
          stackLen := stackLen - 1;
          if stack[stackLen] != cptr {
            pc := pc + off;
          }
      }
    }

    // -------------------------------------------------------------- simple_greedy_quant

    /** One instruction of an atom: it leaves the captures alone. */
    method AtomStep(q: nat) returns (ok: bool)
      requires Valid() && StOk(x, Here()) && q < |prog| && (Reads(prog[q]) || Assertion(prog[q])) && ClassesStored(prog)
      modifies `cptr, capture
      ensures capture[..] == old(capture[..]) && (ok ==> StOk(x, Here()))
      ensures ScanAtom(x, prog, q, old(Here())) == if ok then ScanAtom(x, prog, q + 1, Here()) else Miss
    {
      PlainEval(x, prog[q], Here());
      PlainKeeps(x, prog[q], Here());
      ok := Straight(prog[q]);
    }

    /** The nested call with `no_recurse`: runs the atom at `from` up to its `match`. */
    method RunAtom(from: nat, ghost n: nat, ghost len: nat) returns (hit: bool)
      requires Valid() && StOk(x, Here()) && CountedAtom(prog, from, n, len) && ClassesStored(prog)
      modifies `cptr, capture
      ensures capture[..] == old(capture[..])
      ensures ScanAtom(x, prog, from, old(Here())) == if hit then Hit(cptr) else Miss
    {
      hide PairAt, ScanAtom;
      var q := from;
      while prog[q] != IMatch
        invariant from <= q <= from + n && SimpleCount(prog[q..from + n]) >= 0
        invariant StOk(x, Here()) && capture[..] == old(capture[..])
        invariant ScanAtom(x, prog, from, old(Here())) == ScanAtom(x, prog, q, Here())
        decreases from + n - q
      {
        CountStep(prog, q, from + n);
        var ok := AtomStep(q);
        if !ok {
          return false;
        }
        q := q + 1;
      }
      ScanEnds(x, prog, q, Here());
      return true;
    }

    /** The counting loop: iterates the atom as often as it goes. */
    method Iterate(ghost n: nat, ghost end: Cfg) returns (q: nat, ghost m: nat)
      requires Valid() && 0 <= pc < |prog| && prog[pc].ISimpleGreedy?
      requires OnTrack(x, prog, Loop(pc, 0, Here(), Operands(), states), n, end)
      modifies `cptr, capture
      ensures m < n && OnTrack(x, prog, EndLoop(prog[pc], pc, q, Here(), Operands(), states), m, end)
    {
      hide OnTrack, ScanAtom, EndLoop;
      q, m := 0, n;
      var quantMax, next := prog[pc].max, prog[pc].off;
      ghost var len := prog[pc].len;
      while true
        invariant m <= n && OnTrack(x, prog, Loop(pc, q, Here(), Operands(), states), m, end)
        decreases m
      {
        ghost var c := Loop(pc, q, Here(), Operands(), states);
        Tick(x, prog, c, m, end);
        m := m - 1;
        LoopAtom(x, prog, pc, q, Here(), Operands(), states, m + 1, end);
        var here := cptr;
        var hit := RunAtom(pc + 1, next - 1, len);
        if !hit {
          cptr := here;
          return;
        }
        q := q + 1;
        if q >= quantMax && quantMax != INT32_MAX {
          return;
        }
      }
    }

    /** `simple_greedy_quant`: what is left to try goes into one saved state with a count. */
    method SimpleGreedy(ghost n: nat, ghost end: Cfg) returns (ok: bool, ghost m: nat)
      requires Valid() && 0 <= pc < |prog| && prog[pc].ISimpleGreedy? && OnTrack(x, prog, Current(), n, end)
      modifies `pc, `cptr, `states, capture
      ensures m < n && OnTrack(x, prog, if ok then Current() else Fail(states), m, end)
    {
      hide OnTrack;
      Tick(x, prog, Current(), n, end);
      TrackInPlace(x, prog, Current(), n, end);
      m := n - 1;
      var q: nat;
      q, m := Iterate(m, end);
      var i := prog[pc];
      if q < i.min {
        return false, m;
      }
      if q > i.min {
        PushState(GreedyQuant, q - i.min, pc);
      }
      pc := pc + 1 + i.off;
      return true, m;
    }

    // -------------------------------------------------------------- resuming a saved state

    method Load(dst: array<int>, src: seq<int>)
      requires |src| <= dst.Length
      modifies dst
      ensures dst[..|src|] == src
    {
      var i := 0;
      while i < |src|
        invariant i <= |src| && dst[..i] == src[..i]
      {
        dst[i] := src[i];
        i := i + 1;
      }
    }

    /** Everything but the captures is taken from the saved state. */
    method PopState(rs: Saved)
      requires Valid() && |states| > 0 && |rs.stk| <= stack.Length
      modifies `pc, `cptr, `stackLen, `states, stack
      ensures Valid() && pc == rs.pc && cptr == rs.s.pos && Operands() == rs.stk
      ensures states == old(states[..|states| - 1])
    {
      pc, cptr, stackLen := rs.pc, rs.s.pos, |rs.stk|;
      Load(stack, rs.stk);
      states := states[..|states| - 1];
    }

    /** The captures are restored too. */
    method PopAll(rs: Saved)
      requires Valid() && |states| > 0 && |rs.stk| <= stack.Length && |rs.s.caps| == capture.Length
      modifies `pc, `cptr, `stackLen, `states, stack, capture
      ensures Valid() && Current() == Run(rs.pc, rs.s, rs.stk, old(states[..|states| - 1]))
    {
      Load(capture, rs.s.caps);
      PopState(rs);
      assert capture[..] == capture[..|rs.s.caps|];
    }

    method StepBack(n: nat)
      requires cptr <= Len(x) && n <= Chars(x.subject, cptr)
      modifies `cptr
      ensures cptr == PrevPosN(x.subject, n, old(cptr))
    {
      var i := 0;
      while i < n
        invariant i <= n && cptr <= Len(x) && n - i <= Chars(x.subject, cptr)
        invariant PrevPosN(x.subject, n, old(cptr)) == PrevPosN(x.subject, n - i, cptr)
      {
        cptr := PrevPos(x.subject, cptr);
        i := i + 1;
      }
    }

    /** Gives back one iteration of a counting loop. */
    method GiveBack(rs: Saved)
      requires Valid() && |states| > 0 && |rs.stk| <= stack.Length && |rs.s.caps| == capture.Length
      requires states[|states| - 1] == rs && rs.kind == GreedyQuant && SavedFine(x, prog, rs)
      modifies `pc, `cptr, `stackLen, `states, stack, capture
      ensures Valid() && Current() == StepFail(x, prog, old(states))
    {
      hide Depth, Chars;
      RoomStep(x, prog[rs.pc].len, rs.s, rs.count);
      PopAll(rs);
      StepBack(prog[pc].len);
      if rs.count > 1 {
        PushState(GreedyQuant, rs.count - 1, pc);
      }
      pc := pc + 1 + prog[pc].off;
    }

    /** The inner loop: pops saved states until one of them says how to go on, or none is left. */
    method Resume(matched: bool, ghost n: nat, ghost end: Cfg) returns (done: bool, ret: bool, ghost m: nat)
      requires Valid() && Bounds(prog, stack.Length)
      requires OnTrack(x, prog, if matched then Succeed(Here(), states) else Fail(states), n, end)
      modifies `pc, `cptr, `stackLen, `states, stack, capture
      ensures Valid()
      ensures done ==> end == if ret then Matched(Here()) else NoMatch
      ensures !done ==> m < n && OnTrack(x, prog, Current(), m, end)
    {
      hide OnTrack, StepFail, SavedFine, Bounds, Depth;
      done, ret, m := false, matched, n;
      while |states| > 0
        invariant Valid() && m <= n
        invariant OnTrack(x, prog, if ret then Succeed(Here(), states) else Fail(states), m, end)
        decreases |states|
      {
        var rs := states[|states| - 1];
        ghost var c := if ret then Succeed(Here(), states) else Fail(states);
        TopFits(x, prog, c, m, end, stack.Length);
        Tick(x, prog, c, m, end);
        FailStep(x, prog, states);
        m := m - 1;
        if rs.kind == Split {
          if !ret {
            PopAll(rs);
            return;
          }
        } else if rs.kind == GreedyQuant {
          if !ret {
            GiveBack(rs);
            return;
          }
        } else {
          ret := (rs.kind == Lookahead && ret) || (rs.kind == NegLookahead && !ret);
          if ret {
            if rs.kind == Lookahead {
              PopState(rs);
            } else {
              PopAll(rs);
            }
            return;
          }
        }
        states := states[..|states| - 1];
      }
      LastStep(x, prog, if ret then Succeed(Here(), states) else Fail(states), m, end);
      done := true;
    }

    // -------------------------------------------------------------- the main loop

    /** One instruction that neither matches nor can fail. */
    method Control(ghost n: nat, ghost end: Cfg)
      requires Valid() && Bounds(prog, stack.Length) && OnTrack(x, prog, Current(), n, end) && n > 0
      requires 0 <= pc < |prog| && !Basic(prog[pc]) && !prog[pc].IMatch? && !prog[pc].ISimpleGreedy?
      modifies `pc, `stackLen, `states, stack
      ensures Valid() && OnTrack(x, prog, Current(), n - 1, end)
    {
      hide OnTrack, StepRun, Bounds, Depth;
      TrackInPlace(x, prog, Current(), n, end);
      StackRoom(x, prog, Current(), n, end, stack.Length);
      Tick(x, prog, Current(), n, end);
      var i := prog[pc];
      if i.IPushI32? || i.IPushCharPos? {
        Pushing();
      } else if i.IDrop? || i.ILoop? || i.IBneCharPos? {
        Popping();
      } else {
        Branching();
      }
    }

    /** `lre_exec_backtrack`. */
    method Backtrack(ghost n: nat, ghost end: Cfg) returns (ret: bool)
      requires Valid() && Bounds(prog, stack.Length) && OnTrack(x, prog, Current(), n, end)
      modifies `pc, `cptr, `stackLen, `states, stack, capture
      ensures Valid() && end == if ret then Matched(Here()) else NoMatch
    {
      hide OnTrack, Bounds, StepRun;
      ghost var m := n;
      while true
        invariant Valid() && OnTrack(x, prog, Current(), m, end)
        decreases m
      {
        TrackInPlace(x, prog, Current(), m, end);
        Tick(x, prog, Current(), m, end);
        var ok := true;
        var matched := false;
        if prog[pc].IMatch? {
          ok, matched := false, true;
          MatchStep(x, prog, Current());
          m := m - 1;
        } else if Basic(prog[pc]) {
          BasicStep(x, prog, Current(), m, end);
          ok := Straight(prog[pc]);
          pc := pc + 1;
          m := m - 1;
        } else if prog[pc].ISimpleGreedy? {
          ok, m := SimpleGreedy(m, end);
        } else {
          Control(m, end);
          m := m - 1;
        }
        if !ok {
          var done;
          done, ret, m := Resume(matched, m, end);
          if done {
            return;
          }
        }
      }
    }
  }

  lemma PopStep(x: Ctx, p: Prog, pc: int, s: St, stk: seq<int>, saved: seq<Saved>)
    requires InRange(x, s) && 0 <= pc < |p| && |stk| > 0
    ensures p[pc].IDrop? ==> StepRun(x, p, pc, s, stk, saved) == Run(pc + 1, s, stk[..|stk| - 1], saved)
    ensures p[pc].ILoop? ==>
              var n := stk[|stk| - 1] - 1;
              StepRun(x, p, pc, s, stk, saved) ==
              Run(if n != 0 then pc + 1 + p[pc].off else pc + 1, s, stk[..|stk| - 1] + [n], saved)
    ensures p[pc].IBneCharPos? ==>
              StepRun(x, p, pc, s, stk, saved) ==
              Run(if stk[|stk| - 1] != s.pos then pc + 1 + p[pc].off else pc + 1, s, stk[..|stk| - 1], saved)
  {
    hide Eval, CapturesFit;
  }

  lemma TopFits(x: Ctx, p: Prog, c: Cfg, n: nat, end: Cfg, size: nat)
    requires OnTrack(x, p, c, n, end) && Bounds(p, size) && (c.Fail? || c.Succeed?) && |c.saved| > 0
    ensures var rs := c.saved[|c.saved| - 1]; SavedFine(x, p, rs) && |rs.stk| <= size && |rs.s.caps| == 2 * x.ncap
  {
    hide Depth;
    assert c.saved[|c.saved| - 1] in c.saved;
  }

  /** What a step from `Fail` does with a saved choice or lookaround. */
  lemma FailStep(x: Ctx, p: Prog, saved: seq<Saved>)
    requires |saved| > 0
    ensures var top, rest := saved[|saved| - 1], saved[..|saved| - 1];
            (top.kind == Split || top.kind == NegLookahead
             ==> StepFail(x, p, saved) == Run(top.pc, top.s, top.stk, rest)) &&
            (top.kind == Lookahead ==> StepFail(x, p, saved) == Fail(rest))
  {
  }

  lemma LastStep(x: Ctx, p: Prog, c: Cfg, n: nat, end: Cfg)
    requires OnTrack(x, p, c, n, end) && (c.Fail? || c.Succeed?) && |c.saved| == 0
    ensures end == if c.Fail? then NoMatch else Matched(c.s)
  {
    hide Fine, Sound;
    EndsStep(x, p, c, n, end);
    HaltedStays(x, p, Step(x, p, c), n - 1);
  }

  lemma StackRoom(x: Ctx, p: Prog, c: Cfg, n: nat, end: Cfg, size: nat)
    requires OnTrack(x, p, c, n, end) && Bounds(p, size) && c.Run?
    ensures 0 <= c.pc < |p|
    ensures p[c.pc].IPushI32? || p[c.pc].IPushCharPos? ==> |c.stk| < size
    ensures p[c.pc].IDrop? || p[c.pc].ILoop? || p[c.pc].IBneCharPos? ==> |c.stk| > 0
  {
    hide Depth;
    if p[c.pc] != IMatch {
      JumpInPlace(p, x.ncap, c.pc);
    }
  }

  lemma MatchStep(x: Ctx, p: Prog, c: Cfg)
    requires c.Run? && InRange(x, c.s) && 0 <= c.pc < |p| && p[c.pc] == IMatch
    ensures Step(x, p, c) == Succeed(c.s, c.saved)
  {
  }

  lemma BasicStep(x: Ctx, p: Prog, c: Cfg, n: nat, end: Cfg)
    requires OnTrack(x, p, c, n, end) && c.Run? && 0 <= c.pc < |p| && InRange(x, c.s) && Basic(p[c.pc])
    ensures CapturesFit(p[c.pc], x.ncap) && (p[c.pc].IClass? ==> ClassCode.Stored(p[c.pc].code))
    ensures var r := Eval(x, p[c.pc], c.s);
            Step(x, p, c) == if |r| == 0 then Fail(c.saved) else Run(c.pc + 1, r[0], c.stk, c.saved)
  {
    hide Eval, Depth;
    assert p[c.pc] in p;
  }

  /** A state from which the run ends in `end` after `n` more steps, and which keeps the invariant. */
  ghost predicate OnTrack(x: Ctx, p: Prog, c: Cfg, n: nat, end: Cfg) {
    Sound(p, x.ncap) && Fine(x, p, c) && Ends(x, p, c, n, end)
  }

  lemma Tick(x: Ctx, p: Prog, c: Cfg, n: nat, end: Cfg)
    requires OnTrack(x, p, c, n, end) && !Halted(c)
    ensures n > 0 && OnTrack(x, p, Step(x, p, c), n - 1, end)
  {
    hide Step, Sound, Fine;
    StepFine(x, p, c);
    EndsStep(x, p, c, n, end);
  }

  lemma TrackInPlace(x: Ctx, p: Prog, c: Cfg, n: nat, end: Cfg)
    requires OnTrack(x, p, c, n, end)
    ensures c.Run? ==> InRange(x, c.s) && 0 <= c.pc < |p|
  {
    hide Depth;
  }

  lemma LoopAtom(x: Ctx, p: Prog, pc: int, q: nat, s: St, stk: seq<int>, saved: seq<Saved>, n: nat, end: Cfg)
    requires OnTrack(x, p, Loop(pc, q, s, stk, saved), n, end)
    ensures StOk(x, s) && 0 <= pc < |p| && p[pc].ISimpleGreedy? && p[pc].off > 0 && ClassesStored(p)
    ensures CountedAtom(p, pc + 1, p[pc].off - 1, p[pc].len)
  {
    hide CountedAtom, Depth;
    assert Fits(p, pc);
  }

  lemma {:induction false} ScanEnds(x: Ctx, p: Prog, q: nat, s: St)
    requires InRange(x, s) && q < |p| && p[q] == IMatch
    ensures ScanAtom(x, p, q, s) == Hit(s.pos)
  {
  }

  lemma CountStep(p: Prog, q: nat, end: nat)
    requires q < end <= |p| && SimpleCount(p[q..end]) >= 0
    ensures (Reads(p[q]) || Assertion(p[q])) && SimpleCount(p[q + 1..end]) >= 0
  {
    assert p[q..end][1..] == p[q + 1..end];
  }

  lemma PlainKeeps(x: Ctx, i: Instr, s: St)
    requires StOk(x, s) && (Reads(i) || Assertion(i))
    ensures Basic(i) && |Eval(x, i, s)| > 0 ==> Eval(x, i, s)[0].caps == s.caps
  {
  }

  lemma StartOnTrack(x: Ctx, r: Re, sticky: bool, start: nat) returns (n: nat)
    requires WellFormed(r, 1) && CanonOk(x.opts) && x.ncap == 1 + NumGroups(r) && Boundary(x.subject, start)
    ensures OnTrack(x, Program(x.opts, r, sticky), Start(x, start), n, Outcome(FirstMatch(x, r, sticky, start)))
  {
    hide FirstMatch, Program, Depth;
    var p := Program(x.opts, r, sticky);
    ProgramCorrect(x, r, sticky, start);
    n :| StepN(x, p, Start(x, start), n) == Outcome(FirstMatch(x, r, sticky, start));
    WellFormedFits(r, 1);
    ProgramSound(x.opts, r, sticky);
    ProgramStarts(x.opts, r, sticky);
    DepthStart(p);
  }

  /** `lre_exec`: for every well-formed pattern the machine halts, reports a match exactly when the
      reference matcher has one, and then leaves its captures. */
  method Match(x: Ctx, prog: Prog, stackSize: nat, start: nat, ghost r: Re, ghost sticky: bool)
    returns (ret: bool, captures: seq<int>)
    requires WellFormed(r, 1) && CanonOk(x.opts) && x.ncap == 1 + NumGroups(r) && Boundary(x.subject, start)
    requires prog == Program(x.opts, r, sticky) && Bounds(prog, stackSize)
    ensures var m := FirstMatch(x, r, sticky, start);
            ret == (|m| > 0) && (ret ==> captures == m[0].caps)
  {
    hide FirstMatch, Program, OnTrack, Bounds, Depth;
    ghost var n := StartOnTrack(x, r, sticky, start);
    var context := new Context(x, prog, stackSize, start);
    ret := context.Backtrack(n, Outcome(FirstMatch(x, r, sticky, start)));
    captures := context.capture[..];
  }
}
