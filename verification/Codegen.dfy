/** The byte code of a pattern, as a function of the pattern. */
module Codegen {
  import opened Integers
  import opened Regex
  import opened Machine
  import ClassCode

  // ---------------------------------------------------------------- analyses of emitted code

  predicate Assertion(i: Instr) {
    i.ILineStart? || i.ILineEnd? || i.IWordBoundary?
  }

  /** `re_is_simple_quantifier`: the number of characters the code reads, or -1. */
  function SimpleCount(code: seq<Instr>): (n: int)
    ensures -1 <= n
  {
    if code == [] then 0
    else
      var rest := SimpleCount(code[1..]);
      if Reads(code[0]) then (if rest < 0 then -1 else rest + 1)
      else if Assertion(code[0]) then rest
      else -1
  }

  /** Instructions that `re_check_advance` passes over. */
  predicate NoEffect(i: Instr) {
    Assertion(i) || i.IPushI32? || i.IPushCharPos? || i.IDrop? || i.IPrev? || i.ISaveStart? || i.ISaveEnd? ||
    i.ISaveReset? || i.IBackRef? || i.IBackwardBackRef?
  }

  const UNKNOWN: int := -2

  /** What the first instruction with an effect does: read a character (1) or something else (0). */
  function FirstEffect(code: seq<Instr>): (e: int)
    ensures e == UNKNOWN || e == 0 || e == 1
  {
    if code == [] then UNKNOWN
    else if Reads(code[0]) then 1
    else if NoEffect(code[0]) then FirstEffect(code[1..])
    else 0
  }

  /** The instruction marks capture `g` as written; a reset marks all but its last capture. */
  predicate MarksCapture(i: Instr, g: nat) {
    match i
    case ISaveStart(h) => h == g
    case ISaveEnd(h) => h == g
    case ISaveReset(a, b) => a <= g < b
    case _ => false
  }

  predicate RefersTo(i: Instr, g: nat) {
    i == IBackRef(g) || i == IBackwardBackRef(g)
  }

  predicate AnyMarks(code: seq<Instr>, g: nat) {
    exists i :: 0 <= i < |code| && MarksCapture(code[i], g)
  }

  predicate AnyRefersTo(code: seq<Instr>, g: nat) {
    exists i :: 0 <= i < |code| && RefersTo(code[i], g)
  }

  /** The code refers to a capture that it also writes. */
  predicate ReadsItsCaptures(code: seq<Instr>) {
    exists g :: 0 <= g < CAPTURE_COUNT_MAX && AnyMarks(code, g) && AnyRefersTo(code, g)
  }

  /** `re_check_advance`. */
  function CheckAdvance(code: seq<Instr>): (r: int) {
    if ReadsItsCaptures(code) then -1
    else if FirstEffect(code) == 1 then 1
    else 0
  }

  // ---------------------------------------------------------------- fragments

  function CharInstr(o: Opts, r: Re): Instr
    requires r.Char? || r.Set? || r.Dot?
  {
    match r
    case Char(c) => IChar(Canon(o, c))
    case Set(points) => IClass(ClassCode.Encode(points))
    case Dot => if o.dotall then IAny else IDot
  }

  /** A character is read forward; in a lookbehind the cursor first steps back, and again afterwards. */
  function CharCode(i: Instr, back: bool): seq<Instr> {
    if back then [IPrev, i, IPrev] else [i]
  }

  /** Runs the code that follows it first, or last. */
  function Branch(greedy: bool, off: int): Instr {
    if greedy then ISplitNextFirst(off) else ISplitGotoFirst(off)
  }

  function AltCode(a: seq<Instr>, b: seq<Instr>): seq<Instr> {
    [ISplitNextFirst(|a| + 1)] + a + [IGoto(|b|)] + b
  }

  function LookCode(body: seq<Instr>, negative: bool): seq<Instr> {
    [if negative then INegLook(|body| + 1) else ILook(|body| + 1)] + body + [IMatch]
  }

  function OptionCode(body: seq<Instr>, greedy: bool): seq<Instr> {
    [Branch(greedy, |body|)] + body
  }

  function StarCode(body: seq<Instr>, check: bool, greedy: bool): seq<Instr> {
    if check then
      [Branch(greedy, |body| + 2), IPushCharPos] + body + [IBneCharPos(-(|body| + 3))]
    else
      [Branch(greedy, |body| + 1)] + body + [IGoto(-(|body| + 2))]
  }

  /** The branch back over `n` instructions that ends a `+` loop. */
  function PlusBranch(n: nat, greedy: bool): Instr {
    if greedy then ISplitGotoFirst(-(n + 1)) else ISplitNextFirst(-(n + 1))
  }

  function PlusCode(body: seq<Instr>, greedy: bool): seq<Instr> {
    body + [PlusBranch(|body|, greedy)]
  }

  function ExactCode(body: seq<Instr>, n: nat): seq<Instr> {
    [IPushI32(n)] + body + [ILoop(-(|body| + 1)), IDrop]
  }

  function UptoCode(body: seq<Instr>, n: nat, greedy: bool): seq<Instr> {
    [IPushI32(n), Branch(greedy, |body| + 1)] + body + [ILoop(-(|body| + 2)), IDrop]
  }

  function SimpleCode(body: seq<Instr>, min: nat, max: nat): seq<Instr>
    requires SimpleCount(body) > 0
  {
    [ISimpleGreedy(|body| + 1, min, max, SimpleCount(body))] + body + [IMatch]
  }

  function ResetCode(k: nat, n: nat): seq<Instr> {
    if n == 0 then [] else [ISaveReset(k, k + n - 1)]
  }

  /** The quantifier part of `re_parse_term`; `k` and `n` are the first group of the atom and the
      number of its groups. */
  function QuantCode(body: seq<Instr>, k: nat, n: nat, min: nat, max: nat, greedy: bool): seq<Instr> {
    if greedy && max > 0 && SimpleCount(body) > 0 then SimpleCode(body, min, max)
    else
      var check := greedy && CheckAdvance(body) == 0;
      if min == 0 then
        ResetCode(k, n) +
        (if max == 0 then []
         else if max == 1 then OptionCode(body, greedy)
         else if max == INT32_MAX then StarCode(body, check, greedy)
         else UptoCode(body, max, greedy))
      else if min == 1 && max == INT32_MAX && !check then PlusCode(body, greedy)
      else
        (if min == 1 then body else ExactCode(body, min)) +
        (if max == INT32_MAX then StarCode(body, check, greedy)
         else if max > min then UptoCode(body, max - min, greedy)
         else [])
  }

  /** The code of `r`, whose groups are numbered from `k`; in a lookbehind terms come in reverse. */
  function Code(o: Opts, r: Re, back: bool, k: nat): (code: seq<Instr>)
    decreases r
  {
    match r
    case Empty => []
    case Char(_) => CharCode(CharInstr(o, r), back)
    case Set(_) => CharCode(CharInstr(o, r), back)
    case Dot => CharCode(CharInstr(o, r), back)
    case LineStart => [ILineStart]
    case LineEnd => [ILineEnd]
    case WordBoundary(negated) => [IWordBoundary(negated)]
    case BackRef(g) => [if back then IBackwardBackRef(g) else IBackRef(g)]
    case Cat(a, b) =>
      var first, second := Code(o, a, back, k), Code(o, b, back, k + NumGroups(a));
      if back then second + first else first + second
    case Alt(a, b) => AltCode(Code(o, a, back, k), Code(o, b, back, k + NumGroups(a)))
    case Group(b) =>
      if back then [ISaveEnd(k)] + Code(o, b, back, k + 1) + [ISaveStart(k)]
      else [ISaveStart(k)] + Code(o, b, back, k + 1) + [ISaveEnd(k)]
    case Look(b, behind, negative) => LookCode(Code(o, b, behind, k), negative)
    case Quant(b, min, max, greedy) => QuantCode(Code(o, b, back, k), k, NumGroups(b), min, max, greedy)
  }

  // ---------------------------------------------------------------- the same, one construct at a time

  lemma {:induction false} CodeCat(o: Opts, a: Re, b: Re, back: bool, k: nat)
    ensures Code(o, Cat(a, b), back, k) ==
            if back then Code(o, b, back, k + NumGroups(a)) + Code(o, a, back, k)
            else Code(o, a, back, k) + Code(o, b, back, k + NumGroups(a))
  {
    hide QuantCode, AltCode, LookCode, CharCode, CharInstr, NumGroups;
  }

  lemma {:induction false} CodeAlt(o: Opts, a: Re, b: Re, back: bool, k: nat)
    ensures Code(o, Alt(a, b), back, k) == AltCode(Code(o, a, back, k), Code(o, b, back, k + NumGroups(a)))
  {
    hide QuantCode, AltCode, LookCode, CharCode, CharInstr, NumGroups;
  }

  lemma {:induction false} CodeGroup(o: Opts, b: Re, back: bool, k: nat)
    ensures var first, last := if back then ISaveEnd(k) else ISaveStart(k), if back then ISaveStart(k) else ISaveEnd(k);
            Code(o, Group(b), back, k) == [first] + Code(o, b, back, k + 1) + [last]
  {
    hide QuantCode, AltCode, LookCode, CharCode, CharInstr, NumGroups;
  }

  lemma {:induction false} CodeLook(o: Opts, b: Re, behind: bool, negative: bool, back: bool, k: nat)
    ensures Code(o, Look(b, behind, negative), back, k) == LookCode(Code(o, b, behind, k), negative)
  {
    hide QuantCode, AltCode, LookCode, CharCode, CharInstr, NumGroups;
  }

  lemma {:induction false} CodeQuant(o: Opts, b: Re, min: nat, max: nat, greedy: bool, back: bool, k: nat)
    ensures Code(o, Quant(b, min, max, greedy), back, k) ==
            QuantCode(Code(o, b, back, k), k, NumGroups(b), min, max, greedy)
  {
    hide QuantCode, AltCode, LookCode, CharCode, CharInstr, NumGroups;
  }

  // ---------------------------------------------------------------- the program

  /** Unless the match is sticky, every start position is tried in turn. */
  function Prelude(sticky: bool): seq<Instr> {
    if sticky then [] else [ISplitGotoFirst(2), IAny, IGoto(-3)]
  }

  function Program(o: Opts, r: Re, sticky: bool): seq<Instr> {
    Prelude(sticky) + Code(o, Group(r), false, 0) + [IMatch]
  }
}
