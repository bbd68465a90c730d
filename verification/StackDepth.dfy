/** The operand stack of compiled code.

    Compiled fragments are position independent: every jump stays inside its fragment or lands exactly
    at its end, and every point of a fragment has one stack depth, whichever way it is reached.  The
    linear scan `compute_stack_size` relies on that. */
module StackDepth {
  import opened Regex
  import opened Machine
  import opened Codegen

  /** What an instruction adds to the operand stack. */
  function Delta(i: Instr): int {
    match i
    case IPushI32(_) => 1
    case IPushCharPos => 1
    case IDrop => -1
    case IBneCharPos(_) => -1
    case _ => 0
  }

  /** The stack depth before instruction `j`, counted in code order. */
  function Depth(code: seq<Instr>, j: nat): int
    requires j <= |code|
  {
    if j == 0 then 0 else Depth(code, j - 1) + Delta(code[j - 1])
  }

  /** The offsets that an instruction may jump by, itself or when it is resumed. */
  function Jump(i: Instr): (off: int) {
    match i
    case IGoto(off) => off
    case ISplitGotoFirst(off) => off
    case ISplitNextFirst(off) => off
    case ILook(off) => off
    case INegLook(off) => off
    case ILoop(off) => off
    case IBneCharPos(off) => off
    case ISimpleGreedy(off, _, _, _) => off
    case _ => 0
  }

  /** The code from `j` on is the atom of a counting loop: straight-line code that reads `len`
      characters and ends in `match`. */
  predicate CountedAtom(code: seq<Instr>, j: nat, n: nat, len: nat) {
    j + n < |code| && code[j + n] == IMatch && SimpleCount(code[j..j + n]) == len
  }

  /** Instruction `j` of a fragment keeps to the fragment and to the depth of every point. */
  predicate Fits(code: seq<Instr>, j: nat)
    requires j < |code|
  {
    var i := code[j];
    && Depth(code, j) >= (if i.IDrop? || i.ILoop? || i.IBneCharPos? then 1 else 0)
    && 0 <= j + 1 + Jump(i) <= |code|
    && Depth(code, j + 1 + Jump(i)) == Depth(code, j + 1)
    && (i.ISimpleGreedy? ==> i.off > 0 && CountedAtom(code, j + 1, i.off - 1, i.len))
  }

  /** A fragment in which every instruction fits and which leaves the stack as it found it. */
  ghost predicate Closed(code: seq<Instr>) {
    Depth(code, |code|) == 0 && forall j :: 0 <= j < |code| ==> Fits(code, j)
  }

  // ---------------------------------------------------------------- putting fragments together

  lemma {:induction false} DepthLeft(a: seq<Instr>, b: seq<Instr>, j: nat)
    requires j <= |a|
    ensures Depth(a + b, j) == Depth(a, j)
  {
    if j > 0 {
      DepthLeft(a, b, j - 1);
    }
  }

  lemma {:induction false} DepthRight(a: seq<Instr>, b: seq<Instr>, j: nat)
    requires j <= |b|
    ensures Depth(a + b, |a| + j) == Depth(a, |a|) + Depth(b, j)
  {
    if j == 0 {
      DepthLeft(a, b, |a|);
    } else {
      DepthRight(a, b, j - 1);
      assert (a + b)[|a| + j - 1] == b[j - 1];
    }
  }

  /** Depths inside a fragment that stands between `a` and `c`. */
  lemma DepthInside(a: seq<Instr>, b: seq<Instr>, c: seq<Instr>, j: nat)
    requires j <= |b|
    ensures Depth(a + b + c, |a| + j) == Depth(a, |a|) + Depth(b, j)
  {
    DepthLeft(a + b, c, |a| + j);
    DepthRight(a, b, j);
  }

  /** Relocation: what fits in a fragment fits wherever the fragment is put. */
  lemma {:induction false} FitsInside(a: seq<Instr>, b: seq<Instr>, c: seq<Instr>, j: nat)
    requires j < |b| && Fits(b, j) && Depth(a, |a|) >= 0
    ensures Fits(a + b + c, |a| + j)
  {
    hide Depth, Delta;
    var code, i := a + b + c, b[j];
    assert code[|a| + j] == i;
    DepthInside(a, b, c, j);
    DepthInside(a, b, c, j + 1);
    DepthInside(a, b, c, j + 1 + Jump(i));
    if i.ISimpleGreedy? {
      assert code[|a| + j + i.off] == b[j + i.off];
      assert code[|a| + j + 1..|a| + j + i.off] == b[j + 1..j + i.off];
    }
  }

  lemma {:induction false} DepthStart(code: seq<Instr>)
    ensures Depth(code, 0) == 0
  {
  }

  lemma ClosedConcat(a: seq<Instr>, b: seq<Instr>)
    requires Closed(a) && Closed(b)
    ensures Closed(a + b)
  {
    hide Fits, Depth, Delta;
    DepthRight(a, b, |b|);
    DepthStart([]);
    assert [] + a + b == a + b && a + b + [] == a + b;
    forall j | 0 <= j < |a + b|
      ensures Fits(a + b, j)
    {
      if j < |a| {
        FitsInside([], a, b, j);
      } else {
        FitsInside(a, b, [], j - |a|);
      }
    }
  }

  lemma DepthAfter(a: seq<Instr>, b: seq<Instr>, c: seq<Instr>, j: nat)
    requires j <= |c|
    ensures Depth(a + b + c, |a| + |b| + j) == Depth(a, |a|) + Depth(b, |b|) + Depth(c, j)
  {
    DepthRight(a + b, c, j);
    DepthRight(a, b, |b|);
  }

  /** A closed fragment between control instructions that fit the whole. */
  lemma {:induction false} ClosedAround(code: seq<Instr>, a: seq<Instr>, b: seq<Instr>, c: seq<Instr>)
    requires Closed(b) && Depth(a, |a|) >= 0 && Depth(a, |a|) + Depth(c, |c|) == 0
    requires code == a + b + c
    requires forall j :: 0 <= j < |a| || |a| + |b| <= j < |code| ==> Fits(code, j)
    ensures Closed(code)
  {
    hide Fits, Depth, Delta;
    DepthAfter(a, b, c, |c|);
    InnerFits(a, b, c);
  }

  lemma {:induction false} InnerFits(a: seq<Instr>, b: seq<Instr>, c: seq<Instr>)
    requires Closed(b) && Depth(a, |a|) >= 0
    ensures forall j :: |a| <= j < |a| + |b| ==> Fits(a + b + c, j)
  {
    hide Fits, Depth, Delta;
    forall j | |a| <= j < |a| + |b|
      ensures Fits(a + b + c, j)
    {
      FitsInside(a, b, c, j - |a|);
    }
  }

  // ---------------------------------------------------------------- control instructions around a body

  /** Depths at the points of `a + b + c` outside `b`. */
  lemma {:induction false} AroundDepths(a: seq<Instr>, b: seq<Instr>, c: seq<Instr>)
    requires |a| <= 2 && |c| <= 2 && Depth(b, |b|) == 0
    ensures forall j :: 0 <= j <= |a| ==> Depth(a + b + c, j) == Depth(a, j)
    ensures forall j :: 0 <= j <= |c| ==> Depth(a + b + c, |a| + |b| + j) == Depth(a, |a|) + Depth(c, j)
  {
    hide Depth, Delta;
    forall j | 0 <= j <= |a|
      ensures Depth(a + b + c, j) == Depth(a, j)
    {
      DepthLeft(a + b, c, j);
      DepthLeft(a, b, j);
    }
    forall j | 0 <= j <= |c|
      ensures Depth(a + b + c, |a| + |b| + j) == Depth(a, |a|) + Depth(c, j)
    {
      DepthAfter(a, b, c, j);
    }
  }

  /** The depths of one and two instructions. */
  lemma {:induction false} DepthShort(code: seq<Instr>)
    ensures Depth(code, 0) == 0
    ensures |code| >= 1 ==> Depth(code, 1) == Delta(code[0])
    ensures |code| >= 2 ==> Depth(code, 2) == Delta(code[0]) + Delta(code[1])
  {
    hide Delta;
  }

  lemma OptionClosed(body: seq<Instr>, greedy: bool)
    requires Closed(body)
    ensures Closed(OptionCode(body, greedy))
  {
    hide Depth;
    var a := [Branch(greedy, |body|)];
    assert a + body + [] == OptionCode(body, greedy);
    DepthShort(a);
    DepthShort([]);
    AroundDepths(a, body, []);
    ClosedAround(OptionCode(body, greedy), a, body, []);
  }

  lemma StarClosed(body: seq<Instr>, check: bool, greedy: bool)
    requires Closed(body)
    ensures Closed(StarCode(body, check, greedy))
  {
    hide Depth;
    var a := if check then [Branch(greedy, |body| + 2), IPushCharPos] else [Branch(greedy, |body| + 1)];
    var c := if check then [IBneCharPos(-(|body| + 3))] else [IGoto(-(|body| + 2))];
    DepthShort(a);
    DepthShort(c);
    AroundDepths(a, body, c);
    ClosedAround(StarCode(body, check, greedy), a, body, c);
  }

  lemma PlusClosed(body: seq<Instr>, greedy: bool)
    requires Closed(body)
    ensures Closed(PlusCode(body, greedy))
  {
    hide Depth;
    var c := [PlusBranch(|body|, greedy)];
    assert [] + body + c == PlusCode(body, greedy);
    DepthShort([]);
    DepthShort(c);
    AroundDepths([], body, c);
    ClosedAround(PlusCode(body, greedy), [], body, c);
  }

  lemma ExactClosed(body: seq<Instr>, n: nat)
    requires Closed(body)
    ensures Closed(ExactCode(body, n))
  {
    hide Depth;
    var a, c := [IPushI32(n)], [ILoop(-(|body| + 1)), IDrop];
    DepthShort(a);
    DepthShort(c);
    AroundDepths(a, body, c);
    ClosedAround(ExactCode(body, n), a, body, c);
  }

  lemma UptoClosed(body: seq<Instr>, n: nat, greedy: bool)
    requires Closed(body)
    ensures Closed(UptoCode(body, n, greedy))
  {
    hide Depth;
    var a, c := [IPushI32(n), Branch(greedy, |body| + 1)], [ILoop(-(|body| + 2)), IDrop];
    DepthShort(a);
    DepthShort(c);
    AroundDepths(a, body, c);
    ClosedAround(UptoCode(body, n, greedy), a, body, c);
  }

  lemma LookClosed(body: seq<Instr>, negative: bool)
    requires Closed(body)
    ensures Closed(LookCode(body, negative))
  {
    hide Depth;
    var a, c := [if negative then INegLook(|body| + 1) else ILook(|body| + 1)], [IMatch];
    DepthShort(a);
    DepthShort(c);
    AroundDepths(a, body, c);
    ClosedAround(LookCode(body, negative), a, body, c);
  }

  lemma WrapClosed(first: Instr, body: seq<Instr>, last: Instr)
    requires Closed(body) && Basic(first) && Basic(last)
    ensures Closed([first] + body + [last])
  {
    hide Depth;
    var a, c := [first], [last];
    DepthShort(a);
    DepthShort(c);
    AroundDepths(a, body, c);
    ClosedAround(a + body + c, a, body, c);
  }

  lemma {:induction false} StraightDepth(code: seq<Instr>, j: nat)
    requires j <= |code| && forall i :: i in code ==> Basic(i)
    ensures Depth(code, j) == 0
  {
    if j > 0 {
      StraightDepth(code, j - 1);
      assert code[j - 1] in code;
    }
  }

  lemma StraightClosed(code: seq<Instr>)
    requires forall i :: i in code ==> Basic(i)
    ensures Closed(code)
  {
    hide Depth;
    StraightDepth(code, |code|);
    forall j | 0 <= j < |code|
      ensures Fits(code, j)
    {
      assert code[j] in code;
      StraightDepth(code, j);
      StraightDepth(code, j + 1);
    }
  }

  lemma AltClosed(a: seq<Instr>, b: seq<Instr>)
    requires Closed(a) && Closed(b)
    ensures Closed(AltCode(a, b))
  {
    hide Depth;
    var split, goto, code := [ISplitNextFirst(|a| + 1)], [IGoto(|b|)], AltCode(a, b);
    var left := split + a + goto;
    DepthShort(split);
    DepthShort(goto);
    AroundDepths(split, a, goto);
    AltDepths(left, b);
    assert code == split + a + (goto + b) && code == left + b + [];
    InnerFits(split, a, goto + b);
    InnerFits(left, b, []);
  }

  lemma {:induction false} AltDepths(left: seq<Instr>, b: seq<Instr>)
    requires Depth(b, |b|) == 0
    ensures forall j :: 0 <= j <= |left| ==> Depth(left + b, j) == Depth(left, j)
    ensures Depth(left + b, |left| + |b|) == Depth(left, |left|)
  {
    hide Depth;
    forall j | 0 <= j <= |left|
      ensures Depth(left + b, j) == Depth(left, j)
    {
      DepthLeft(left, b, j);
    }
    DepthRight(left, b, |b|);
  }

  lemma {:induction false} SimpleClosed(body: seq<Instr>, min: nat, max: nat)
    requires Closed(body) && SimpleCount(body) > 0
    ensures Closed(SimpleCode(body, min, max))
  {
    hide Depth, SimpleCount;
    var a, c := [ISimpleGreedy(|body| + 1, min, max, SimpleCount(body))], [IMatch];
    DepthShort(a);
    DepthShort(c);
    AroundDepths(a, body, c);
    assert SimpleCode(body, min, max)[1..1 + |body|] == body;
    ClosedAround(SimpleCode(body, min, max), a, body, c);
  }

  lemma QuantClosed(body: seq<Instr>, k: nat, n: nat, min: nat, max: nat, greedy: bool)
    requires Closed(body)
    ensures Closed(QuantCode(body, k, n, min, max, greedy))
  {
    hide Closed, SimpleCode, OptionCode, StarCode, UptoCode, ExactCode, PlusCode, SimpleCount, CheckAdvance;
    var check := greedy && CheckAdvance(body) == 0;
    if greedy && max > 0 && SimpleCount(body) > 0 {
      SimpleClosed(body, min, max);
    } else {
      StraightClosed([]);
      StraightClosed(ResetCode(k, n));
      OptionClosed(body, greedy);
      StarClosed(body, check, greedy);
      PlusClosed(body, greedy);
      ExactClosed(body, min);
      var first := if min == 0 then ResetCode(k, n) else if min == 1 then body else ExactCode(body, min);
      var more := if max > min then max - min else 0;
      UptoClosed(body, more, greedy);
      ClosedConcat(first, []);
      ClosedConcat(first, OptionCode(body, greedy));
      ClosedConcat(first, StarCode(body, check, greedy));
      ClosedConcat(first, UptoCode(body, more, greedy));
    }
  }

  /** Relocation: whatever the pattern, its code is closed. */
  lemma {:induction false} CodeClosed(o: Opts, r: Re, back: bool, k: nat)
    ensures Closed(Code(o, r, back, k))
    decreases r
  {
    hide Closed, QuantCode, AltCode, LookCode;
    match r {
      case Cat(a, b) =>
        CodeClosed(o, a, back, k);
        CodeClosed(o, b, back, k + NumGroups(a));
        ClosedConcat(Code(o, a, back, k), Code(o, b, back, k + NumGroups(a)));
        ClosedConcat(Code(o, b, back, k + NumGroups(a)), Code(o, a, back, k));
      case Alt(a, b) =>
        CodeClosed(o, a, back, k);
        CodeClosed(o, b, back, k + NumGroups(a));
        AltClosed(Code(o, a, back, k), Code(o, b, back, k + NumGroups(a)));
      case Group(b) =>
        CodeClosed(o, b, back, k + 1);
        WrapClosed(ISaveStart(k), Code(o, b, back, k + 1), ISaveEnd(k));
        WrapClosed(ISaveEnd(k), Code(o, b, back, k + 1), ISaveStart(k));
      case Look(b, behind, negative) =>
        CodeClosed(o, b, behind, k);
        LookClosed(Code(o, b, behind, k), negative);
      case Quant(b, min, max, greedy) =>
        CodeClosed(o, b, back, k);
        QuantClosed(Code(o, b, back, k), k, NumGroups(b), min, max, greedy);
      case _ => StraightClosed(Code(o, r, back, k));
    }
  }
}
