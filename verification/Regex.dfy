/** Patterns, the instructions they compile to, and the states a match goes through. */
module Regex {
  import opened Integers
  import opened CharRanges
  import opened Subject
  import ClassCode

  const CAPTURE_COUNT_MAX: nat := 255
  const STACK_SIZE_MAX: nat := 255
  const NULL: int := -1

  /** A parsed pattern.  Capture groups are numbered in the order in which they open.  A quantifier
      whose `max` is INT32_MAX is unbounded, as `parse_digits` saturates to that value. */
  datatype Re =
    | Empty
    | Char(c: nat)
    | Set(points: seq<u32>)
    | Dot
    | LineStart
    | LineEnd
    | WordBoundary(negated: bool)
    | BackRef(group: nat)
    | Cat(first: Re, second: Re)
    | Alt(left: Re, right: Re)
    | Group(body: Re)
    | Look(body: Re, behind: bool, negative: bool)
    | Quant(body: Re, min: nat, max: nat, greedy: bool)

  /** One byte-code instruction.  Jump offsets count instructions from the one that follows. */
  datatype Instr =
    | IChar(c: nat)
    | IClass(code: ClassCode.Code)
    | IDot
    | IAny
    | ILineStart
    | ILineEnd
    | IWordBoundary(negated: bool)
    | IBackRef(group: nat)
    | IBackwardBackRef(group: nat)
    | IPrev
    | ISaveStart(group: nat)
    | ISaveEnd(group: nat)
    | ISaveReset(first: nat, last: nat)
    | IGoto(off: int)
    | ISplitGotoFirst(off: int)
    | ISplitNextFirst(off: int)
    | IMatch
    | ILook(off: int)
    | INegLook(off: int)
    | IPushI32(n: nat)
    | IDrop
    | ILoop(off: int)
    | IPushCharPos
    | IBneCharPos(off: int)
    | ISimpleGreedy(off: int, min: nat, max: nat, len: nat)

  /** Flags of a compiled pattern; `canon` is the case folding used when `ignoreCase` is set: an
      arbitrary map, which leaves the code points outside its domain alone. */
  datatype Opts = Opts(multiline: bool, ignoreCase: bool, dotall: bool, canon: map<nat, nat>)

  /** What a run of the matcher is given: the subject, the flags and the number of captures. */
  datatype Ctx = Ctx(subject: Subject, opts: Opts, ncap: nat)

  /** Cursor and capture array; capture `g` starts at entry 2g and ends at entry 2g + 1. */
  datatype St = St(pos: nat, caps: seq<int>)

  function Len(x: Ctx): nat { |x.subject.units| }

  function Canon(o: Opts, c: nat): nat {
    if o.ignoreCase && c in o.canon then o.canon[c] else c
  }

  /** Case folding maps code points to code points. */
  predicate CanonOk(o: Opts) {
    forall c :: c in o.canon ==> o.canon[c] <= 0x10_FFFF
  }

  ghost predicate StOk(x: Ctx, s: St) {
    && |s.caps| == 2 * x.ncap
    && Boundary(x.subject, s.pos)
    && forall i :: 0 <= i < |s.caps| ==> s.caps[i] == NULL || Boundary(x.subject, s.caps[i])
  }

  function NumGroups(r: Re): (n: nat) {
    match r
    case Cat(a, b) => NumGroups(a) + NumGroups(b)
    case Alt(a, b) => NumGroups(a) + NumGroups(b)
    case Group(b) => 1 + NumGroups(b)
    case Look(b, _, _) => NumGroups(b)
    case Quant(b, _, _, _) => NumGroups(b)
    case _ => 0
  }

  /** The groups that back references in the code of `r` name: an atom that is never run emits no code. */
  function BackRefs(r: Re): (refs: set<nat>) {
    match r
    case BackRef(g) => {g}
    case Cat(a, b) => BackRefs(a) + BackRefs(b)
    case Alt(a, b) => BackRefs(a) + BackRefs(b)
    case Group(b) => BackRefs(b)
    case Look(b, _, _) => BackRefs(b)
    case Quant(b, min, max, _) => if min == max == 0 then {} else BackRefs(b)
    case _ => {}
  }

  /** The advance check sees the code of `r`, whose groups start at `k`, write group `g`: a group of an atom
      that is run, or one of those that are reset, all but the last. */
  predicate Writes(r: Re, k: nat, g: nat) {
    match r
    case Cat(a, b) => Writes(a, k, g) || Writes(b, k + NumGroups(a), g)
    case Alt(a, b) => Writes(a, k, g) || Writes(b, k + NumGroups(a), g)
    case Group(b) => g == k || Writes(b, k + 1, g)
    case Look(b, _, _) => Writes(b, k, g)
    case Quant(b, min, max, _) =>
      (!(min == max == 0) && Writes(b, k, g)) || (min == 0 && k <= g < k + NumGroups(b) - 1)
    case _ => false
  }

  /** Every way through `r` consumes at least one character. */
  predicate Advances(r: Re) {
    match r
    case Char(_) => true
    case Set(_) => true
    case Dot => true
    case Cat(a, b) => Advances(a) || Advances(b)
    case Alt(a, b) => Advances(a) && Advances(b)
    case Group(b) => Advances(b)
    case Quant(b, min, _, _) => min > 0 && Advances(b)
    case _ => false
  }

  /** No back reference in `r`, whose groups start at `k`, names a group that `r` itself writes. */
  predicate NoInnerRefs(r: Re, k: nat) {
    forall g :: g in BackRefs(r) ==> !Writes(r, k, g)
  }

  /** What the parser has made sure of before code is emitted. */
  predicate Parsed(r: Re) {
    match r
    case Set(points) => |points| % 2 == 0
    case BackRef(g) => g < CAPTURE_COUNT_MAX
    case Cat(a, b) => Parsed(a) && Parsed(b)
    case Alt(a, b) => Parsed(a) && Parsed(b)
    case Group(b) => Parsed(b)
    case Look(b, _, _) => Parsed(b)
    case Quant(b, min, max, _) => Parsed(b) && min <= max <= INT32_MAX
    case _ => true
  }

  /** Patterns the parser produces (counts, classes, group numbers) and for which matching is
      claimed to halt: an unbounded loop either always consumes a character or is greedy, so that it
      carries the zero-advance check, and has no back reference into itself. */
  predicate WellFormed(r: Re, k: nat) {
    match r
    case Set(points) => Intervals(points) && !ClassCode.TooManyRanges(points)
    case BackRef(g) => g < CAPTURE_COUNT_MAX
    case Cat(a, b) => WellFormed(a, k) && WellFormed(b, k + NumGroups(a))
    case Alt(a, b) => WellFormed(a, k) && WellFormed(b, k + NumGroups(a))
    case Group(b) => WellFormed(b, k + 1)
    case Look(b, _, _) => WellFormed(b, k)
    case Quant(b, min, max, greedy) =>
      WellFormed(b, k) && min <= max <= INT32_MAX &&
      (max == INT32_MAX ==> Advances(b) || (greedy && NoInnerRefs(b, k)))
    case _ => true
  }

  /** No class of the pattern has too many ranges. */
  predicate RangesFit(r: Re) {
    match r
    case Set(points) => !ClassCode.TooManyRanges(points)
    case Cat(a, b) => RangesFit(a) && RangesFit(b)
    case Alt(a, b) => RangesFit(a) && RangesFit(b)
    case Group(b) => RangesFit(b)
    case Look(b, _, _) => RangesFit(b)
    case Quant(b, _, _, _) => RangesFit(b)
    case _ => true
  }
}
