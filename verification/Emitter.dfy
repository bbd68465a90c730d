/** The compiler itself: `re_parse_disjunction`, `re_parse_alternative` and `re_parse_term` append to the
    byte code, insert in front of code already emitted, copy fragments and turn terms around.  Each is
    proved to leave behind the code that `Codegen` describes. */
module Emitter {
  import opened Integers
  import opened Regex
  import opened Machine
  import opened Codegen
  import opened Analysis
  import opened Compiled
  import ClassCode

  /** `re_is_simple_quantifier`. */
  method IsSimpleQuantifier(code: seq<Instr>) returns (count: int)
    ensures count == SimpleCount(code)
  {
    count := 0;
    var pos := 0;
    assert code[0..] == code;
    while pos < |code|
      invariant 0 <= pos <= |code| && count >= 0
      invariant SimpleCount(code) ==
                if SimpleCount(code[pos..]) < 0 then -1 else count + SimpleCount(code[pos..])
    {
      assert code[pos..][0] == code[pos] && code[pos..][1..] == code[pos + 1..];
      if Reads(code[pos]) {
        count := count + 1;
      } else if !Assertion(code[pos]) {
        return -1;
      }
      pos := pos + 1;
    }
  }

  /** The captures that an instruction names fit the bitmap of `re_check_advance`. */
  predicate FitsBitmap(i: Instr) {
    match i
    case ISaveStart(g) => g < CAPTURE_COUNT_MAX
    case ISaveEnd(g) => g < CAPTURE_COUNT_MAX
    case ISaveReset(_, b) => b < CAPTURE_COUNT_MAX
    case IBackRef(g) => g < CAPTURE_COUNT_MAX
    case IBackwardBackRef(g) => g < CAPTURE_COUNT_MAX
    case _ => true
  }

  /** Bit 0: the code marks the capture; bit 1: it refers to it. */
  function Mark(code: seq<Instr>, g: nat): bv8 {
    if AnyMarks(code, g) then (if AnyRefersTo(code, g) then 3 else 1) else (if AnyRefersTo(code, g) then 2 else 0)
  }

  lemma MarkNext(code: seq<Instr>, pos: nat, g: nat)
    requires pos < |code|
    ensures AnyMarks(code[..pos + 1], g) == (AnyMarks(code[..pos], g) || MarksCapture(code[pos], g))
    ensures AnyRefersTo(code[..pos + 1], g) == (AnyRefersTo(code[..pos], g) || RefersTo(code[pos], g))
  {
    var a, b := code[..pos], code[..pos + 1];
    assert b[pos] == code[pos] && forall i :: 0 <= i < pos ==> a[i] == b[i];
    if AnyMarks(a, g) {
      var i :| 0 <= i < |a| && MarksCapture(a[i], g);
      assert MarksCapture(b[i], g);
    }
    if AnyRefersTo(a, g) {
      var i :| 0 <= i < |a| && RefersTo(a[i], g);
      assert RefersTo(b[i], g);
    }
  }

  /** The bit operations on a mark. */
  lemma MarkBits(m: bool, r: bool, b: bv8)
    requires b == if m then (if r then 3 else 1) else (if r then 2 else 0)
    ensures (b | 1) == (if r then 3 else 1) && (b | 2) == (if m then 3 else 2)
  {
  }

  /** Enters one instruction into the bitmap. */
  method Record(bitmap: array<bv8>, code: seq<Instr>, pos: nat)
    requires pos < |code| && FitsBitmap(code[pos]) && bitmap.Length == CAPTURE_COUNT_MAX
    requires forall g :: 0 <= g < CAPTURE_COUNT_MAX ==> bitmap[g] == Mark(code[..pos], g)
    modifies bitmap
    ensures forall g :: 0 <= g < CAPTURE_COUNT_MAX ==> bitmap[g] == Mark(code[..pos + 1], g)
  {
    hide AnyMarks, AnyRefersTo;
    forall g | 0 <= g < CAPTURE_COUNT_MAX
      ensures AnyMarks(code[..pos + 1], g) == (AnyMarks(code[..pos], g) || MarksCapture(code[pos], g))
      ensures AnyRefersTo(code[..pos + 1], g) == (AnyRefersTo(code[..pos], g) || RefersTo(code[pos], g))
      ensures bitmap[g] | 1 == (if AnyRefersTo(code[..pos], g) then 3 else 1)
      ensures bitmap[g] | 2 == (if AnyMarks(code[..pos], g) then 3 else 2)
    {
      MarkNext(code, pos, g);
      MarkBits(AnyMarks(code[..pos], g), AnyRefersTo(code[..pos], g), bitmap[g]);
    }
    match code[pos] {
      case ISaveStart(g) => bitmap[g] := bitmap[g] | 1;
      case ISaveEnd(g) => bitmap[g] := bitmap[g] | 1;
      case ISaveReset(first, last) =>
        var val := first;
        while val < last
          invariant val == first || first <= val <= last
          invariant forall g :: 0 <= g < CAPTURE_COUNT_MAX ==>
                                  bitmap[g] == if first <= g < val then old(bitmap[g]) | 1 else old(bitmap[g])
        {
          bitmap[val] := bitmap[val] | 1;
          val := val + 1;
        }
      case IBackRef(g) => bitmap[g] := bitmap[g] | 2;
      case IBackwardBackRef(g) => bitmap[g] := bitmap[g] | 2;
      case _ =>
    }
  }

  lemma FirstEffectFrom(code: seq<Instr>, pos: nat)
    requires pos < |code|
    ensures FirstEffect(code[pos..]) ==
            if Reads(code[pos]) then 1 else if NoEffect(code[pos]) then FirstEffect(code[pos + 1..]) else 0
  {
    assert code[pos..][1..] == code[pos + 1..];
  }

  predicate IsBackRef(i: Instr) {
    i.IBackRef? || i.IBackwardBackRef?
  }

  lemma NoBackRefs(code: seq<Instr>)
    requires forall j :: 0 <= j < |code| ==> !IsBackRef(code[j])
    ensures !ReadsItsCaptures(code)
  {
  }

  /** `re_check_advance`. */
  method ScanAdvance(code: seq<Instr>) returns (r: int)
    requires forall i :: i in code ==> FitsBitmap(i)
    ensures r == CheckAdvance(code)
  {
    hide AnyMarks, AnyRefersTo, FirstEffect, MarksCapture, RefersTo;
    var bitmap := new bv8[CAPTURE_COUNT_MAX](_ => 0);
    var hasBackRef := false;
    var pos := 0;
    r := UNKNOWN;
    NothingMarked(code);
    assert code[0..] == code;
    while pos < |code|
      invariant 0 <= pos <= |code|
      invariant forall g :: 0 <= g < CAPTURE_COUNT_MAX ==> bitmap[g] == Mark(code[..pos], g)
      invariant hasBackRef || forall j :: 0 <= j < pos ==> !IsBackRef(code[j])
      invariant FirstEffect(code) == if r == UNKNOWN then FirstEffect(code[pos..]) else r
      invariant r == UNKNOWN || r == 0 || r == 1
    {
      assert code[pos] in code;
      FirstEffectFrom(code, pos);
      Record(bitmap, code, pos);
      if Reads(code[pos]) {
        if r == UNKNOWN {
          r := 1;
        }
      } else if !NoEffect(code[pos]) {
        if r == UNKNOWN {
          r := 0;
        }
      } else if IsBackRef(code[pos]) {
        hasBackRef := true;
      }
      pos := pos + 1;
    }
    assert code[..pos] == code;
    NothingLeft(code, pos);
    if hasBackRef {
      var i := 0;
      while i < CAPTURE_COUNT_MAX
        invariant 0 <= i <= CAPTURE_COUNT_MAX && pos == |code|
        invariant forall g :: 0 <= g < CAPTURE_COUNT_MAX ==> bitmap[g] == Mark(code, g)
        invariant forall g :: 0 <= g < i ==> !(AnyMarks(code, g) && AnyRefersTo(code, g))
      {
        if bitmap[i] == 3 {
          return -1;
        }
        i := i + 1;
      }
    } else {
      NoBackRefs(code);
    }
    if r == UNKNOWN {
      r := 0;
    }
  }

  lemma NothingMarked(code: seq<Instr>)
    ensures forall g :: 0 <= g < CAPTURE_COUNT_MAX ==> Mark(code[..0], g) == 0
  {
  }

  lemma NothingLeft(code: seq<Instr>, pos: nat)
    requires pos == |code|
    ensures FirstEffect(code[pos..]) == UNKNOWN
  {
  }

  // ---------------------------------------------------------------- patterns as the parser meets them

  /** The pattern compiles when `k` captures have been opened before it. */
  predicate Compilable(r: Re, k: nat) {
    RangesFit(r) && k + NumGroups(r) <= CAPTURE_COUNT_MAX
  }

  /** The terms of an alternative, in the order of the text. */
  function Terms(r: Re): (ts: seq<Re>)
    ensures forall t :: t in ts ==> if r.Cat? then t < r else t == r && !r.Empty?
  {
    match r
    case Cat(a, b) => Terms(a) + [b]
    case Empty => []
    case _ => [r]
  }

  function Sequence(ts: seq<Re>): Re {
    if |ts| == 0 then Empty else Cat(Sequence(ts[..|ts| - 1]), ts[|ts| - 1])
  }

  /** The alternatives of a disjunction, in the order of the text. */
  function Alternatives(r: Re): (rs: seq<Re>)
    ensures |rs| > 0 && forall t :: t in rs ==> if r.Alt? then t < r else t == r
  {
    if r.Alt? then Alternatives(r.left) + [r.right] else [r]
  }

  function Choice(rs: seq<Re>): Re
    requires |rs| > 0
  {
    if |rs| == 1 then rs[0] else Alt(Choice(rs[..|rs| - 1]), rs[|rs| - 1])
  }

  /** The order in which the four parsing functions hand the same pattern on. */
  function Rank(r: Re, phase: nat): nat
    requires phase < 4
  {
    var first := if r.Alt? then 1 else if r.Cat? || r.Empty? then 2 else if r.Quant? then 3 else 0;
    3 - (phase + 4 - first) % 4
  }

  // ---------------------------------------------------------------- the growing byte code

  /** REParseState, as far as code generation goes. */
  class Compiler {
    const opts: Opts
    var byteCode: seq<Instr>
    var captureCount: nat

    constructor (opts: Opts)
      ensures this.opts == opts && byteCode == [] && captureCount == 1
    {
      this.opts, byteCode, captureCount := opts, [], 1;
    }

    method Put(i: Instr)
      modifies `byteCode
      ensures byteCode == old(byteCode) + [i]
    {
      byteCode := byteCode + [i];
    }

    /** `dbuf_insert`: makes room for `n` instructions, to be patched by the caller. */
    method Insert(pos: nat, n: nat, ghost pre: seq<Instr>, ghost body: seq<Instr>) returns (ghost hole: seq<Instr>)
      requires byteCode == pre + body && pos == |pre|
      modifies `byteCode
      ensures |hole| == n && byteCode == pre + hole + body
    {
      var room := seq(n, _ => IMatch);
      byteCode := byteCode[..pos] + room + byteCode[pos..];
      hole := room;
    }

    /** Overwrites instruction `pos` of the hole in front of `body`. */
    method Patch(pos: nat, i: Instr, ghost pre: seq<Instr>, ghost hole: seq<Instr>, ghost body: seq<Instr>)
      requires byteCode == pre + hole + body && |pre| <= pos < |pre| + |hole|
      modifies `byteCode
      ensures byteCode == pre + hole[pos - |pre| := i] + body
    {
      byteCode := byteCode[pos := i];
    }

    /** `dbuf_put_self`: appends a copy of code already emitted. */
    method PutSelf(offset: nat, len: nat)
      requires offset + len <= |byteCode|
      modifies `byteCode
      ensures byteCode == old(byteCode) + old(byteCode)[offset..offset + len]
    {
      byteCode := byteCode + byteCode[offset..offset + len];
    }

    // -------------------------------------------------------------- quantifiers

    /** The optimisation for simple quantifiers. */
    method SimpleLoop(start: nat, min: nat, max: nat, count: nat, ghost pre: seq<Instr>, ghost body: seq<Instr>)
      requires byteCode == pre + body && start == |pre| && count == SimpleCount(body) > 0
      modifies `byteCode
      ensures byteCode == pre + SimpleCode(body, min, max)
    {
      Put(IMatch);
      assert byteCode == pre + (body + [IMatch]);
      ghost var hole := Insert(start, 1, pre, body + [IMatch]);
      Patch(start, ISimpleGreedy(|byteCode| - start - 1, min, max, count), pre, hole, body + [IMatch]);
    }

    method Optional(start: nat, greedy: bool, ghost pre: seq<Instr>, ghost body: seq<Instr>)
      requires byteCode == pre + body && start == |pre|
      modifies `byteCode
      ensures byteCode == pre + OptionCode(body, greedy)
    {
      var len := |byteCode| - start;
      ghost var hole := Insert(start, 1, pre, body);
      Patch(start, Branch(greedy, len), pre, hole, body);
    }

    /** The unbounded loop around the atom. */
    method Star(start: nat, check: bool, greedy: bool, ghost pre: seq<Instr>, ghost body: seq<Instr>)
      requires byteCode == pre + body && start == |pre|
      modifies `byteCode
      ensures byteCode == pre + StarCode(body, check, greedy)
    {
      var len := |byteCode| - start;
      if check {
        ghost var hole := Insert(start, 2, pre, body);
        Patch(start, Branch(greedy, len + 2), pre, hole, body);
        Patch(start + 1, IPushCharPos, pre, hole[0 := Branch(greedy, len + 2)], body);
        Put(IBneCharPos(start - (|byteCode| + 1)));
      } else {
        ghost var hole := Insert(start, 1, pre, body);
        Patch(start, Branch(greedy, len + 1), pre, hole, body);
        Put(IGoto(start - (|byteCode| + 1)));
      }
    }

    /** The counted loop around the atom. */
    method Upto(start: nat, n: nat, greedy: bool, ghost pre: seq<Instr>, ghost body: seq<Instr>)
      requires byteCode == pre + body && start == |pre|
      modifies `byteCode
      ensures byteCode == pre + UptoCode(body, n, greedy)
    {
      var len := |byteCode| - start;
      ghost var hole := Insert(start, 2, pre, body);
      Patch(start, IPushI32(n), pre, hole, body);
      Patch(start + 1, Branch(greedy, len + 1), pre, hole[0 := IPushI32(n)], body);
      Put(ILoop(start + 1 - (|byteCode| + 1)));
      Put(IDrop);
    }

    /** Exactly `n` times the atom. */
    method Exact(start: nat, n: nat, ghost pre: seq<Instr>, ghost body: seq<Instr>)
      requires byteCode == pre + body && start == |pre|
      modifies `byteCode
      ensures byteCode == pre + ExactCode(body, n)
    {
      ghost var hole := Insert(start, 1, pre, body);
      Patch(start, IPushI32(n), pre, hole, body);
      Put(ILoop(start + 1 - (|byteCode| + 1)));
      Put(IDrop);
    }

    /** The unbounded loop around a copy of the atom at `atom`. */
    method CopiedStar(atom: nat, len: nat, check: bool, greedy: bool, ghost body: seq<Instr>)
      requires atom + len <= |byteCode| && byteCode[atom..atom + len] == body
      modifies `byteCode
      ensures byteCode == old(byteCode) + StarCode(body, check, greedy)
    {
      hide StarCode, Branch;
      StarPut(byteCode, body, check, greedy);
      var pos := |byteCode|;
      Put(Branch(greedy, len + if check then 2 else 1));
      if check {
        Put(IPushCharPos);
      }
      assert byteCode[atom..atom + len] == body;
      PutSelf(atom, len);
      if check {
        Put(IBneCharPos(pos - (|byteCode| + 1)));
      } else {
        Put(IGoto(pos - (|byteCode| + 1)));
      }
    }

    /** The counted loop around a copy of the atom at `atom`. */
    method CopiedUpto(atom: nat, len: nat, n: nat, greedy: bool, ghost body: seq<Instr>)
      requires atom + len <= |byteCode| && byteCode[atom..atom + len] == body
      modifies `byteCode
      ensures byteCode == old(byteCode) + UptoCode(body, n, greedy)
    {
      Put(IPushI32(n));
      var pos := |byteCode|;
      Put(Branch(greedy, len + 1));
      assert byteCode[atom..atom + len] == body;
      PutSelf(atom, len);
      Put(ILoop(pos - (|byteCode| + 1)));
      Put(IDrop);
    }

    /** A quantifier without mandatory iterations. */
    method OptionalLoop(start: nat, k: nat, max: nat, check: bool, greedy: bool, ghost pre: seq<Instr>,
                        ghost body: seq<Instr>)
      requires byteCode == pre + body && start == |pre| && k <= captureCount
      modifies `byteCode
      ensures byteCode == pre + ResetCode(k, captureCount - k) + OptionalCode(body, max, check, greedy)
    {
      hide OptionCode, StarCode, UptoCode;
      var atom := start;
      ghost var before := pre + ResetCode(k, captureCount - k);
      if k != captureCount {
        ghost var hole := Insert(atom, 1, pre, body);
        Patch(atom, ISaveReset(k, captureCount - 1), pre, hole, body);
        atom := atom + 1;
        assert byteCode == before + body;
      }
      if max == 0 {
        byteCode := byteCode[..atom];
      } else if max == 1 {
        Optional(atom, greedy, before, body);
      } else if max == INT32_MAX {
        Star(atom, check, greedy, before, body);
      } else {
        Upto(atom, max, greedy, before, body);
      }
    }

    /** A quantifier with mandatory iterations. */
    method MandatoryLoop(start: nat, min: nat, max: nat, check: bool, greedy: bool, ghost pre: seq<Instr>,
                         ghost body: seq<Instr>)
      requires byteCode == pre + body && start == |pre| && min > 0
      modifies `byteCode
      ensures byteCode == pre + (if min == 1 then body else ExactCode(body, min)) +
                          TailCode(body, min, max, check, greedy)
    {
      hide StarCode, UptoCode;
      var atom, len := start, |byteCode| - start;
      if min != 1 {
        Exact(atom, min, pre, body);
        atom := atom + 1;
      }
      assert byteCode[atom..atom + len] == body;
      if max == INT32_MAX {
        CopiedStar(atom, len, check, greedy, body);
      } else if max > min {
        CopiedUpto(atom, len, max - min, greedy, body);
      }
    }

    /** The quantifier of the atom that has just been emitted, from `start` on. */
    method Quantify(start: nat, k: nat, min: nat, max: nat, greedy: bool, ghost pre: seq<Instr>, ghost body: seq<Instr>)
      requires byteCode == pre + body && start == |pre| && k <= captureCount
      requires forall i :: i in body ==> FitsBitmap(i)
      modifies `byteCode
      ensures byteCode == pre + QuantCode(body, k, captureCount - k, min, max, greedy)
    {
      hide OptionCode, StarCode, UptoCode, ExactCode, SimpleCode, SimpleCount, CheckAdvance;
      var check := false;
      assert byteCode[start..] == body;
      if greedy {
        if max > 0 {
          var count := IsSimpleQuantifier(byteCode[start..]);
          if count > 0 {
            SimpleLoop(start, min, max, count, pre, body);
            return;
          }
        }
        var advance := ScanAdvance(byteCode[start..]);
        check := advance == 0;
      }
      QuantCodeCases(body, k, captureCount - k, min, max, greedy, check);
      if min == 0 {
        OptionalLoop(start, k, max, check, greedy, pre, body);
        Associate(pre, ResetCode(k, captureCount - k), OptionalCode(body, max, check, greedy));
      } else if min == 1 && max == INT32_MAX && !check {
        Put(if greedy then ISplitGotoFirst(start - (|byteCode| + 1)) else ISplitNextFirst(start - (|byteCode| + 1)));
        Associate(pre, body, [PlusBranch(|body|, greedy)]);
      } else {
        MandatoryLoop(start, min, max, check, greedy, pre, body);
        Associate(pre, if min == 1 then body else ExactCode(body, min), TailCode(body, min, max, check, greedy));
      }
    }

    // -------------------------------------------------------------- the recursive descent

    /** The rotation in `re_parse_alternative`: the term from `termStart` on moves to the front.  Beyond the
        end of the code the buffer is used as scratch space. */
    method TurnAround(start: nat, termStart: nat, ghost pre: seq<Instr>, ghost one: seq<Instr>, ghost two: seq<Instr>)
      requires byteCode == pre + one + two && start == |pre| && termStart == |pre| + |one|
      modifies `byteCode
      ensures byteCode == pre + (two + one)
    {
      var end := |byteCode|;
      var size := end - termStart;
      var buf := byteCode + seq(size, _ => IMatch);
      buf := buf[..start] + buf[start..start + size] + buf[start..end];
      assert buf[start + size..] == one + two;
      assert buf[end..end + size] == two && buf[..start] == pre;
      buf := buf[..start] + buf[end..end + size] + buf[start + size..];
      assert buf == pre + two + (one + two);
      byteCode := buf[..end];
    }

    /** The code of `r` has been appended to `before`, its groups numbered from `k` on. */
    ghost predicate Emitted(r: Re, back: bool, before: seq<Instr>, k: nat)
      reads this
    {
      byteCode == before + Code(opts, r, back, k) && captureCount == k + NumGroups(r)
    }

    /** `re_parse_term` without its quantifier; a compound pattern stands in a group `(?:...)`. */
    method Atom(r: Re, back: bool) returns (ok: bool)
      requires Parsed(r) && captureCount <= CAPTURE_COUNT_MAX
      modifies `byteCode, `captureCount
      ensures ok <==> Compilable(r, old(captureCount))
      ensures ok ==> Emitted(r, back, old(byteCode), old(captureCount))
      decreases r, Rank(r, 3), 1
    {
      hide Code, NumGroups, RangesFit, Parsed;
      NoGroups(r);
      if r.Cat? || r.Alt? || r.Empty? || r.Quant? {
        ok := Disjunction(r, back);
        return;
      }
      if r.Group? {
        ok := Capture(r, back);
      } else if r.Look? {
        ok := Lookaround(r, back);
      } else {
        ok := LeafTerm(r, back);
      }
    }

    method Capture(r: Re, back: bool) returns (ok: bool)
      requires r.Group? && Parsed(r) && captureCount <= CAPTURE_COUNT_MAX
      modifies `byteCode, `captureCount
      ensures ok <==> Compilable(r, old(captureCount))
      ensures ok ==> Emitted(r, back, old(byteCode), old(captureCount))
      decreases r, 0, 0
    {
      hide Code, NumGroups, RangesFit, Parsed;
      var k := captureCount;
      GroupParts(opts, r.body, back, k);
      if k >= CAPTURE_COUNT_MAX {
        return false;
      }
      captureCount := captureCount + 1;
      Put(if back then ISaveEnd(k) else ISaveStart(k));
      ok := Disjunction(r.body, back);
      if ok {
        Put(if back then ISaveStart(k) else ISaveEnd(k));
      }
    }

    method Lookaround(r: Re, back: bool) returns (ok: bool)
      requires r.Look? && Parsed(r) && captureCount <= CAPTURE_COUNT_MAX
      modifies `byteCode, `captureCount
      ensures ok <==> Compilable(r, old(captureCount))
      ensures ok ==> Emitted(r, back, old(byteCode), old(captureCount))
      decreases r, 0, 0
    {
      hide Code, NumGroups, RangesFit, Parsed;
      var pos := |byteCode|;
      LookParts(opts, r.body, r.behind, r.negative, back, captureCount);
      Put(if r.negative then INegLook(0) else ILook(0));
      ok := Disjunction(r.body, r.behind);
      if ok {
        Put(IMatch);
        var off := |byteCode| - (pos + 1);
        byteCode := byteCode[pos := if r.negative then INegLook(off) else ILook(off)];
      }
    }

    /** A character, a class or a dot. */
    method CharTerm(r: Re, back: bool) returns (ok: bool)
      requires (r.Char? || r.Set? || r.Dot?) && Parsed(r)
      modifies `byteCode
      ensures ok <==> RangesFit(r)
      ensures ok ==> byteCode == old(byteCode) + CharCode(CharInstr(opts, r), back)
    {
      if back {
        Put(IPrev);
      }
      match r {
        case Char(c) => Put(IChar(Canon(opts, c)));
        case Dot => Put(if opts.dotall then IAny else IDot);
        case Set(points) =>
          if ClassCode.TooManyRanges(points) {
            return false;
          }
          var code := ClassCode.EmitRange(points);
          Put(IClass(code));
      }
      if back {
        Put(IPrev);
      }
      ok := true;
    }

    /** Terms that are a character, an assertion or a back reference. */
    method LeafTerm(r: Re, back: bool) returns (ok: bool)
      requires Parsed(r) && Leaf(r)
      modifies `byteCode
      ensures ok <==> RangesFit(r)
      ensures ok ==> byteCode == old(byteCode) + Code(opts, r, back, captureCount)
    {
      ok := true;
      if r.Char? || r.Set? || r.Dot? {
        ok := CharTerm(r, back);
        return;
      }
      match r {
        case LineStart => Put(ILineStart);
        case LineEnd => Put(ILineEnd);
        case WordBoundary(negated) => Put(IWordBoundary(negated));
        case BackRef(g) => Put(if back then IBackwardBackRef(g) else IBackRef(g));
      }
    }

    /** `re_parse_term`. */
    method Term(r: Re, back: bool) returns (ok: bool)
      requires Parsed(r) && captureCount <= CAPTURE_COUNT_MAX
      modifies `byteCode, `captureCount
      ensures ok <==> Compilable(r, old(captureCount))
      ensures ok ==> Emitted(r, back, old(byteCode), old(captureCount))
      decreases r, Rank(r, 2), 0
    {
      hide Code, NumGroups, RangesFit, Parsed;
      if r.Quant? {
        var start, k := |byteCode|, captureCount;
        QuantParts(r.body, r.min, r.max, r.greedy);
        CodeQuant(opts, r.body, r.min, r.max, r.greedy, back, k);
        ok := Atom(r.body, back);
        if ok {
          BitmapHolds(opts, r.body, back, k);
          Quantify(start, k, r.min, r.max, r.greedy, old(byteCode), Code(opts, r.body, back, k));
        }
      } else {
        ok := Atom(r, back);
      }
    }

    /** `re_parse_alternative`. */
    method Alternative(r: Re, back: bool) returns (ok: bool)
      requires Parsed(r) && captureCount <= CAPTURE_COUNT_MAX
      modifies `byteCode, `captureCount
      ensures ok <==> Compilable(r, old(captureCount))
      ensures ok ==> Emitted(r, back, old(byteCode), old(captureCount))
      decreases r, Rank(r, 1), 0
    {
      hide Code, NumGroups, RangesFit, Parsed, Sequence, Terms;
      var start, k := |byteCode|, captureCount;
      var terms := Terms(r);
      NoTerms(opts, back, k);
      TermsSame(opts, r, back, k);
      var i := 0;
      while i < |terms|
        invariant 0 <= i <= |terms| && captureCount <= CAPTURE_COUNT_MAX
        invariant Compilable(Sequence(terms[..i]), k)
        invariant Emitted(Sequence(terms[..i]), back, old(byteCode), k)
      {
        NextTerm(opts, terms, i, back, k);
        assert terms[i] in terms;
        var termStart := |byteCode|;
        ghost var one, two := byteCode[start..], Code(opts, terms[i], back, captureCount);
        ok := Term(terms[i], back);
        if !ok {
          return;
        }
        if back {
          TurnAround(start, termStart, old(byteCode), one, two);
        } else {
          Associate(old(byteCode), one, two);
        }
        i := i + 1;
      }
      assert terms[..i] == terms;
      ok := true;
    }

    /** One more alternative: a split goes in front of the code so far and a jump over the new code. */
    method OneMore(r: Re, start: nat, back: bool, ghost pre: seq<Instr>, ghost one: seq<Instr>) returns (ok: bool)
      requires Parsed(r) && captureCount <= CAPTURE_COUNT_MAX
      requires byteCode == pre + one && start == |pre|
      modifies `byteCode, `captureCount
      ensures ok <==> Compilable(r, old(captureCount))
      ensures ok ==> captureCount == old(captureCount) + NumGroups(r)
      ensures ok ==> byteCode == pre + AltCode(one, Code(opts, r, back, old(captureCount)))
      decreases r, Rank(r, 1), 1
    {
      hide Code, RangesFit, NumGroups;
      var len := |byteCode| - start;
      ghost var hole := Insert(start, 1, pre, one);
      Patch(start, ISplitNextFirst(len + 1), pre, hole, one);
      var pos := |byteCode|;
      Put(IGoto(0));
      ok := Alternative(r, back);
      if ok {
        byteCode := byteCode[pos := IGoto(|byteCode| - (pos + 1))];
      }
    }

    /** `re_parse_disjunction`. */
    method Disjunction(r: Re, back: bool) returns (ok: bool)
      requires Parsed(r) && captureCount <= CAPTURE_COUNT_MAX
      modifies `byteCode, `captureCount
      ensures ok <==> Compilable(r, old(captureCount))
      ensures ok ==> Emitted(r, back, old(byteCode), old(captureCount))
      decreases r, Rank(r, 0), 0
    {
      hide Code, NumGroups, RangesFit, Parsed, Alternatives, AltCode;
      var start, k := |byteCode|, captureCount;
      var all := Alternatives(r);
      ChoiceSame(r);
      ChoiceFits(all, 1);
      assert all[0] in all && all[..1] == [all[0]];
      ok := Alternative(all[0], back);
      var i := 1;
      while ok && i < |all|
        invariant 1 <= i <= |all| && (ok ==> captureCount <= CAPTURE_COUNT_MAX)
        invariant ok ==> Compilable(Choice(all[..i]), k) && Emitted(Choice(all[..i]), back, old(byteCode), k)
        invariant !ok ==> !Compilable(r, k)
      {
        NextAlternative(opts, all, i, back, k);
        assert all[i] in all;
        ghost var one := Code(opts, Choice(all[..i]), back, k);
        ok := OneMore(all[i], start, back, old(byteCode), one);
        i := i + 1;
      }
      if ok {
        assert all[..i] == all;
      }
    }
  }

  /** Reading a pattern term by term gives the pattern. */
  /** The loop, one piece after the other. */
  lemma StarPut(pre: seq<Instr>, body: seq<Instr>, check: bool, greedy: bool)
    ensures var branch := Branch(greedy, |body| + if check then 2 else 1);
            pre + StarCode(body, check, greedy) ==
            if check then pre + [branch] + [IPushCharPos] + body + [IBneCharPos(-(|body| + 3))]
            else pre + [branch] + body + [IGoto(-(|body| + 2))]
  {
  }

  lemma {:induction false} ParsedTerms(r: Re)
    requires Parsed(r)
    ensures forall t :: t in Terms(r) ==> Parsed(t)
    decreases r
  {
    if r.Cat? {
      ParsedTerms(r.first);
    }
  }

  lemma {:induction false} TermsSame(o: Opts, r: Re, back: bool, k: nat)
    ensures Code(o, Sequence(Terms(r)), back, k) == Code(o, r, back, k)
    ensures NumGroups(Sequence(Terms(r))) == NumGroups(r) && RangesFit(Sequence(Terms(r))) == RangesFit(r)
    ensures Parsed(r) ==> forall t :: t in Terms(r) ==> Parsed(t)
    decreases r
  {
    hide Code, NumGroups, RangesFit, Sequence, Parsed, Terms;
    if Parsed(r) {
      ParsedTerms(r);
    }
    TermsOf(r);
    match r {
      case Cat(a, b) =>
        TermsSame(o, a, back, k);
        SequenceEnd(o, Terms(a), b, back, k);
        CodeCat(o, a, b, back, k);
        CatParts(a, b);
      case Empty => NoTerms(o, back, k);
      case _ =>
        NoTerms(o, back, k);
        SequenceEnd(o, [], r, back, k);
        assert [] + [r] == Terms(r);
    }
  }

  lemma {:induction false} TermsOf(r: Re)
    ensures Terms(r) == if r.Cat? then Terms(r.first) + [r.second] else if r.Empty? then [] else [r]
  {
  }

  lemma {:induction false} CatParts(a: Re, b: Re)
    ensures NumGroups(Cat(a, b)) == NumGroups(a) + NumGroups(b) &&
            RangesFit(Cat(a, b)) == (RangesFit(a) && RangesFit(b))
    ensures Parsed(Cat(a, b)) == (Parsed(a) && Parsed(b))
  {
  }

  lemma {:induction false} QuantParts(b: Re, min: nat, max: nat, greedy: bool)
    ensures var r := Quant(b, min, max, greedy);
            NumGroups(r) == NumGroups(b) && RangesFit(r) == RangesFit(b) && (Parsed(r) ==> Parsed(b))
  {
  }

  lemma {:induction false} SequenceEnd(o: Opts, ts: seq<Re>, t: Re, back: bool, k: nat)
    ensures Sequence(ts + [t]) == Cat(Sequence(ts), t)
    ensures NumGroups(Sequence(ts + [t])) == NumGroups(Sequence(ts)) + NumGroups(t)
    ensures RangesFit(Sequence(ts + [t])) == (RangesFit(Sequence(ts)) && RangesFit(t))
    ensures var one, two := Code(o, Sequence(ts), back, k), Code(o, t, back, k + NumGroups(Sequence(ts)));
            Code(o, Sequence(ts + [t]), back, k) == if back then two + one else one + two
  {
    hide Code;
    assert (ts + [t])[..|ts|] == ts;
    CodeCat(o, Sequence(ts), t, back, k);
  }

  lemma {:induction false} NextTerm(o: Opts, ts: seq<Re>, i: nat, back: bool, k: nat)
    requires i < |ts|
    ensures var pre, next := Sequence(ts[..i]), Sequence(ts[..i + 1]);
            var one, two := Code(o, pre, back, k), Code(o, ts[i], back, k + NumGroups(pre));
            NumGroups(next) == NumGroups(pre) + NumGroups(ts[i]) &&
            RangesFit(next) == (RangesFit(pre) && RangesFit(ts[i])) &&
            Code(o, next, back, k) == if back then two + one else one + two
    ensures NumGroups(Sequence(ts[..i + 1])) <= NumGroups(Sequence(ts))
    ensures RangesFit(Sequence(ts)) ==> RangesFit(Sequence(ts[..i + 1]))
  {
    hide Code, NumGroups, RangesFit, Sequence;
    SequenceEnd(o, ts[..i], ts[i], back, k);
    assert ts[..i] + [ts[i]] == ts[..i + 1];
    PrefixFits(o, ts, i + 1);
  }

  lemma {:induction false} PrefixFits(o: Opts, ts: seq<Re>, i: nat)
    requires i <= |ts|
    ensures NumGroups(Sequence(ts[..i])) <= NumGroups(Sequence(ts))
    ensures RangesFit(Sequence(ts)) ==> RangesFit(Sequence(ts[..i]))
    decreases |ts|
  {
    hide Code, NumGroups, RangesFit, Sequence;
    if i == |ts| {
      assert ts[..i] == ts;
    } else {
      var last := |ts| - 1;
      assert ts[..last] + [ts[last]] == ts && ts[..last][..i] == ts[..i];
      PrefixFits(o, ts[..last], i);
      SequenceEnd(o, ts[..last], ts[last], false, 0);
    }
  }

  /** Reading a pattern alternative by alternative gives the pattern. */
  lemma {:induction false} ChoiceSame(r: Re)
    ensures Choice(Alternatives(r)) == r
    ensures Parsed(r) ==> forall t :: t in Alternatives(r) ==> Parsed(t)
    decreases r
  {
    if r.Alt? {
      var rs := Alternatives(r.left);
      assert (rs + [r.right])[..|rs|] == rs;
      ChoiceSame(r.left);
    }
  }

  lemma {:induction false} ChoiceFits(rs: seq<Re>, i: nat)
    requires 0 < i <= |rs|
    ensures NumGroups(Choice(rs[..i])) <= NumGroups(Choice(rs))
    ensures RangesFit(Choice(rs)) ==> RangesFit(Choice(rs[..i]))
    decreases |rs|
  {
    if i == |rs| {
      assert rs[..i] == rs;
    } else {
      var last := |rs| - 1;
      assert rs[..last][..i] == rs[..i];
      ChoiceFits(rs[..last], i);
    }
  }

  lemma {:induction false} NextAlternative(o: Opts, rs: seq<Re>, i: nat, back: bool, k: nat)
    requires 0 < i < |rs|
    ensures var pre, next := Choice(rs[..i]), Choice(rs[..i + 1]);
            NumGroups(next) == NumGroups(pre) + NumGroups(rs[i]) &&
            RangesFit(next) == (RangesFit(pre) && RangesFit(rs[i])) &&
            Code(o, next, back, k) == AltCode(Code(o, pre, back, k), Code(o, rs[i], back, k + NumGroups(pre)))
    ensures NumGroups(Choice(rs[..i + 1])) <= NumGroups(Choice(rs))
    ensures RangesFit(Choice(rs)) ==> RangesFit(Choice(rs[..i + 1]))
  {
    hide Code, AltCode;
    assert rs[..i + 1][..i] == rs[..i];
    CodeAlt(o, Choice(rs[..i]), rs[i], back, k);
    ChoiceFits(rs, i + 1);
  }

  lemma {:induction false} GroupParts(o: Opts, b: Re, back: bool, k: nat)
    ensures NumGroups(Group(b)) == 1 + NumGroups(b) && RangesFit(Group(b)) == RangesFit(b)
    ensures Parsed(Group(b)) == Parsed(b)
    ensures var first, last := if back then ISaveEnd(k) else ISaveStart(k), if back then ISaveStart(k) else ISaveEnd(k);
            Code(o, Group(b), back, k) == [first] + Code(o, b, back, k + 1) + [last]
  {
    hide Code;
    CodeGroup(o, b, back, k);
  }

  lemma {:induction false} LookParts(o: Opts, b: Re, behind: bool, negative: bool, back: bool, k: nat)
    ensures NumGroups(Look(b, behind, negative)) == NumGroups(b)
    ensures RangesFit(Look(b, behind, negative)) == RangesFit(b) && Parsed(Look(b, behind, negative)) == Parsed(b)
    ensures Code(o, Look(b, behind, negative), back, k) == LookCode(Code(o, b, behind, k), negative)
  {
    hide Code, LookCode;
    CodeLook(o, b, behind, negative, back, k);
  }

  lemma {:induction false} NoGroups(r: Re)
    ensures Leaf(r) ==> NumGroups(r) == 0
  {
  }

  lemma {:induction false} NoTerms(o: Opts, back: bool, k: nat)
    ensures Sequence([]) == Empty && Code(o, Empty, back, k) == [] && NumGroups(Empty) == 0 && RangesFit(Empty)
  {
    hide QuantCode, AltCode, LookCode, CharCode, CharInstr;
  }

  lemma {:induction false} BitmapHolds(o: Opts, r: Re, back: bool, k: nat)
    requires Parsed(r) && k + NumGroups(r) <= CAPTURE_COUNT_MAX
    ensures forall i :: i in Code(o, r, back, k) ==> FitsBitmap(i)
  {
    hide Code, NumGroups, Parsed, BackRefs, Writes;
    var code := Code(o, r, back, k);
    CodeConfined(o, r, back, k);
    RefsBounded(r);
    forall i | i in code
      ensures FitsBitmap(i)
    {
      assert Confined(i, k, NumGroups(r));
      if i.IBackRef? || i.IBackwardBackRef? {
        CodeTracks(o, r, back, k, i.group);
        assert AnyRefersTo(code, i.group) by {
          var j :| 0 <= j < |code| && code[j] == i;
          assert RefersTo(code[j], i.group);
        }
      }
    }
  }

  lemma Associate(a: seq<Instr>, b: seq<Instr>, c: seq<Instr>)
    ensures a + b + c == a + (b + c)
  {
  }

}
