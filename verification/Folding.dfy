/** What case folding does to a match, with the folding map written out: without the flag the map is not looked at,
    and with it two subjects that differ only in characters with one image match alike. */
module Folding {
  import opened Integers
  import opened Subject
  import opened Regex
  import opened Matcher
  import opened Codegen
  import opened Correct
  import opened Compiled
  import opened Captures

  /** The pattern looks at its subject only through folding: it has no assertion, and a dot only if the dot takes
      every character. */
  predicate Untested(r: Re, dotall: bool) {
    match r
    case Dot => dotall
    case LineStart => false
    case LineEnd => false
    case WordBoundary(_) => false
    case Cat(a, b) => Untested(a, dotall) && Untested(b, dotall)
    case Alt(a, b) => Untested(a, dotall) && Untested(b, dotall)
    case Group(b) => Untested(b, dotall)
    case Look(b, _, _) => Untested(b, dotall)
    case Quant(b, _, _, _) => Untested(b, dotall)
    case _ => true
  }

  /** The characters of the two subjects have the same extent and, folded, are the same. */
  ghost predicate Alike(x: Ctx, y: Ctx) {
    && x.ncap == y.ncap && Len(x) == Len(y)
    && x.opts.multiline == y.opts.multiline && x.opts.dotall == y.opts.dotall
    && (forall p :: PairAt(x.subject, p) == PairAt(y.subject, p))
    && (forall d: nat :: Canon(x.opts, d) == Canon(y.opts, d))
    && forall p :: 0 <= p < Len(x) ==> Canon(x.opts, CharAt(x.subject, p)) == Canon(y.opts, CharAt(y.subject, p))
  }

  /** What the pattern may look at is the same. */
  ghost predicate SameFor(x: Ctx, y: Ctx, r: Re) {
    Alike(x, y) && (x.subject == y.subject || Untested(r, x.opts.dotall))
  }

  lemma SamePlaces(x: Ctx, y: Ctx, s: St)
    requires Alike(x, y)
    ensures (StOk(x, s) <==> StOk(y, s)) && (StOk(x, s) ==> s.pos <= Len(x)) && x.ncap == y.ncap && Len(x) == Len(y)
    ensures forall p :: Boundary(x.subject, p) <==> Boundary(y.subject, p)
  {
  }

  // ---------------------------------------------------------------- characters

  lemma SameOneChar(x: Ctx, y: Ctx, r: Re, back: bool, s: St)
    requires (r.Char? || r.Set? || r.Dot?) && SameFor(x, y, r) && StOk(x, s) && StOk(y, s)
    ensures OneChar(x, r, back, s) == OneChar(y, r, back, s)
  {
    hide Canon;
    NextPrev(x.subject, s.pos);
  }

  lemma {:induction false} SameRepeated(x: Ctx, y: Ctx, i: nat, e: nat, p: nat)
    requires Alike(x, y) && Boundary(x.subject, i) && Boundary(x.subject, e) && Boundary(x.subject, p)
    ensures Boundary(y.subject, i) && Boundary(y.subject, e) && Boundary(y.subject, p)
    ensures Repeated(x, i, e, p) == Repeated(y, i, e, p)
    decreases e - i
  {
    hide Canon;
    if i < e && p < Len(x) {
      NextPrev(x.subject, i);
      NextPrev(x.subject, p);
      SameRepeated(x, y, NextPos(x.subject, i), e, NextPos(x.subject, p));
    }
  }

  lemma {:induction false} SameRepeatedBefore(x: Ctx, y: Ctx, b: nat, i: nat, p: nat)
    requires Alike(x, y) && Boundary(x.subject, b) && Boundary(x.subject, i) && Boundary(x.subject, p)
    ensures Boundary(y.subject, b) && Boundary(y.subject, i) && Boundary(y.subject, p)
    ensures RepeatedBefore(x, b, i, p) == RepeatedBefore(y, b, i, p)
    decreases i
  {
    hide Canon;
    if b < i && p > 0 {
      NextPrev(x.subject, i);
      NextPrev(x.subject, p);
      SameRepeatedBefore(x, y, b, PrevPos(x.subject, i), PrevPos(x.subject, p));
    }
  }

  lemma {:induction false} SameBackRef(x: Ctx, y: Ctx, g: nat, back: bool, s: St)
    requires Alike(x, y) && StOk(x, s) && StOk(y, s)
    ensures OneBackRef(x, g, back, s) == OneBackRef(y, g, back, s)
  {
    hide Repeated, RepeatedBefore;
    if g < x.ncap && s.caps[2 * g] != NULL && s.caps[2 * g + 1] != NULL {
      if back {
        SameRepeatedBefore(x, y, s.caps[2 * g], s.caps[2 * g + 1], s.pos);
      } else {
        SameRepeated(x, y, s.caps[2 * g], s.caps[2 * g + 1], s.pos);
      }
    }
  }

  // ---------------------------------------------------------------- whole patterns

  /** Patterns that look at the same have the same results, captures and order included. */
  lemma {:induction false} SameResults(x: Ctx, y: Ctx, r: Re, back: bool, k: nat, s: St)
    requires SameFor(x, y, r) && StOk(x, s) && k + NumGroups(r) <= x.ncap
    ensures StOk(y, s) && Results(x, r, back, k, s) == Results(y, r, back, k, s)
    decreases r, 0, 0, 1
  {
    hide Results, StOk, Alike, QuantResults, LookResults, LeaveAll;
    SamePlaces(x, y, s);
    match r {
      case Cat(_, _) => SamePair(x, y, r, back, k, s);
      case Alt(_, _) => SamePair(x, y, r, back, k, s);
      case Group(b) =>
        ResultsGroup(x, b, back, k, s);
        ResultsGroup(y, b, back, k, s);
        SameResults(x, y, b, back, k + 1, Enter(x, back, k, s));
        SameLeave(x, y, back, k, s.pos, Results(x, b, back, k + 1, Enter(x, back, k, s)));
      case Look(b, behind, negative) =>
        ResultsLook(x, b, behind, negative, back, k, s);
        ResultsLook(y, b, behind, negative, back, k, s);
        SameLook(x, y, b, behind, negative, k, back, s);
      case Quant(b, min, max, greedy) =>
        ResultsQuant(x, b, min, max, greedy, back, k, s);
        ResultsQuant(y, b, min, max, greedy, back, k, s);
        SameQuant(x, y, b, min, max, greedy, back, k, s);
      case _ => SameLeaf(x, y, r, back, k, s);
    }
  }

  lemma {:induction false} SamePair(x: Ctx, y: Ctx, r: Re, back: bool, k: nat, s: St)
    requires (r.Cat? || r.Alt?) && SameFor(x, y, r) && StOk(x, s) && StOk(y, s) && k + NumGroups(r) <= x.ncap
    requires k + NumGroups(r) <= y.ncap
    ensures Results(x, r, back, k, s) == Results(y, r, back, k, s)
    decreases r, 0, 0, 0
  {
    hide Results, FlatMap, StOk, Alike;
    var a, b := if r.Cat? then r.first else r.left, if r.Cat? then r.second else r.right;
    SameNcap(x, y);
    SameResults(x, y, a, back, k, s);
    SameResults(x, y, b, back, k + NumGroups(a), s);
    if r.Alt? {
      ResultsAlt(x, a, b, back, k, s);
      ResultsAlt(y, a, b, back, k, s);
    } else {
      ResultsCat(x, a, b, back, k, s);
      ResultsCat(y, a, b, back, k, s);
      if back {
        SameFlatMap(x, y, back, s.pos, Results(x, b, back, k + NumGroups(a), s), Then(a, k));
      } else {
        SameFlatMap(x, y, back, s.pos, Results(x, a, back, k, s), Then(b, k + NumGroups(a)));
      }
    }
  }

  lemma {:induction false} SameLeaf(x: Ctx, y: Ctx, r: Re, back: bool, k: nat, s: St)
    requires !r.Cat? && !r.Alt? && !r.Group? && !r.Look? && !r.Quant?
    requires SameFor(x, y, r) && StOk(x, s) && StOk(y, s) && k <= x.ncap
    ensures Results(x, r, back, k, s) == Results(y, r, back, k, s)
  {
    hide StOk, Alike, OneChar, OneBackRef, AtLineStart, AtLineEnd, AtWordBoundary;
    SamePlaces(x, y, s);
    match r {
      case Empty =>
      case LineStart => SameTests(x, y, s.pos);
      case LineEnd => SameTests(x, y, s.pos);
      case WordBoundary(_) => SameTests(x, y, s.pos);
      case BackRef(g) => SameBackRef(x, y, g, back, s);
      case _ => SameOneChar(x, y, r, back, s);
    }
  }

  lemma SameTests(x: Ctx, y: Ctx, p: nat)
    requires Alike(x, y) && x.subject == y.subject && p <= Len(x)
    ensures AtLineStart(x, p) == AtLineStart(y, p) && AtLineEnd(x, p) == AtLineEnd(y, p)
    ensures AtWordBoundary(x, p) == AtWordBoundary(y, p)
  {
  }

  lemma {:induction false} SameLeave(x: Ctx, y: Ctx, back: bool, k: nat, p: nat, all: seq<St>)
    requires x.ncap == y.ncap && k < x.ncap && Good(x, back, p, all) && Good(y, back, p, all)
    ensures LeaveAll(x, back, k, p, all) == LeaveAll(y, back, k, p, all)
    decreases |all|
  {
    if |all| > 0 {
      SameLeave(x, y, back, k, p, all[1..]);
    }
  }

  lemma {:induction false} SameLook(x: Ctx, y: Ctx, b: Re, behind: bool, negative: bool, k: nat, back: bool, s: St)
    requires SameFor(x, y, b) && StOk(x, s) && StOk(y, s) && k + NumGroups(b) <= x.ncap
    ensures LookResults(x, b, behind, negative, k, back, s) == LookResults(y, b, behind, negative, k, back, s)
    decreases b, 6, 0, 0, 0
  {
    hide Results, StOk, Alike;
    SameResults(x, y, b, behind, k, s);
  }

  lemma {:induction false} SameQuant(x: Ctx, y: Ctx, b: Re, min: nat, max: nat, greedy: bool, back: bool, k: nat, s: St)
    requires SameFor(x, y, b) && StOk(x, s) && StOk(y, s) && k + NumGroups(b) <= x.ncap
    ensures QuantResults(x, b, min, max, greedy, back, k, s) == QuantResults(y, b, min, max, greedy, back, k, s)
    decreases b, 6, 0, 0, 0
  {
    hide FlatMap, StOk, Alike, Times;
    SameNcap(x, y);
    var s0 := if min == 0 then Forget(x, k, NumGroups(b), s) else s;
    SameTimes(x, y, b, back, k, min, s0);
    SameFlatMap(x, y, back, s.pos, Times(x, b, back, k, min, s0), Rest(b, k, min, max, greedy));
  }

  lemma SameNcap(x: Ctx, y: Ctx)
    requires Alike(x, y)
    ensures x.ncap == y.ncap && Len(x) == Len(y)
  {
  }

  lemma SameGood(x: Ctx, y: Ctx, back: bool, p: nat, all: seq<St>)
    requires Alike(x, y)
    ensures Good(x, back, p, all) <==> Good(y, back, p, all)
  {
    hide StOk, Alike;
    forall t | t in all
      ensures StOk(x, t) <==> StOk(y, t)
    {
      SamePlaces(x, y, t);
    }
  }

  lemma {:induction false} SameFlatMap(x: Ctx, y: Ctx, back: bool, p: nat, all: seq<St>, f: Cont)
    requires SameFor(x, y, f.r) && Good(x, back, p, all) && ContOk(x, f, p)
    ensures Good(y, back, p, all) && ContOk(y, f, p) && FlatMap(x, back, p, all, f) == FlatMap(y, back, p, all, f)
    decreases f.r, Stage(f), Budget(x, back, f), 2, |all|
  {
    hide Continue, StOk, Alike, NumGroups;
    SameNcap(x, y);
    SameGood(x, y, back, p, all);
    if |all| > 0 {
      assert all[0] in all;
      SameContinue(x, y, back, p, f, all[0]);
      SameFlatMap(x, y, back, p, all[1..], f);
    }
  }

  lemma {:induction false} SameContinue(x: Ctx, y: Ctx, back: bool, p: nat, f: Cont, t: St)
    requires SameFor(x, y, f.r) && StOk(x, t) && Toward(back, p, t.pos) && ContOk(x, f, p)
    ensures StOk(y, t) && ContOk(y, f, p) && Continue(x, back, p, f, t) == Continue(y, back, p, f, t)
    decreases f.r, Stage(f), Budget(x, back, f), 1, 0
  {
    hide Results, Times, Upto, Star, StOk, Alike;
    SameNcap(x, y);
    SamePlaces(x, y, t);
    match f {
      case Then(r, k) => SameResults(x, y, r, back, k, t);
      case ThenTimes(r, k, n) => SameTimes(x, y, r, back, k, n, t);
      case ThenUpto(r, k, n, greedy) => SameUpto(x, y, r, back, k, n, greedy, t);
      case ThenStar(r, k, greedy, _) =>
        if t.pos != p {
          SameStar(x, y, r, back, k, greedy, t);
        }
      case Rest(r, k, min, max, greedy) =>
        if max == INT32_MAX {
          SameStar(x, y, r, back, k, greedy, t);
        } else {
          SameUpto(x, y, r, back, k, if max >= min then max - min else 0, greedy, t);
        }
    }
  }

  lemma {:induction false} SameTimes(x: Ctx, y: Ctx, r: Re, back: bool, k: nat, n: nat, s: St)
    requires SameFor(x, y, r) && StOk(x, s) && k + NumGroups(r) <= x.ncap
    ensures StOk(y, s) && k + NumGroups(r) <= y.ncap && Times(x, r, back, k, n, s) == Times(y, r, back, k, n, s)
    decreases r, 2, n, 3, 0
  {
    hide Results, FlatMap, StOk, Alike;
    SameNcap(x, y);
    SamePlaces(x, y, s);
    if n > 0 {
      SameResults(x, y, r, back, k, s);
      SameFlatMap(x, y, back, s.pos, Results(x, r, back, k, s), ThenTimes(r, k, n - 1));
    }
  }

  lemma {:induction false} SameUpto(x: Ctx, y: Ctx, r: Re, back: bool, k: nat, n: nat, greedy: bool, s: St)
    requires SameFor(x, y, r) && StOk(x, s) && k + NumGroups(r) <= x.ncap
    ensures StOk(y, s) && k + NumGroups(r) <= y.ncap &&
            Upto(x, r, back, k, n, greedy, s) == Upto(y, r, back, k, n, greedy, s)
    decreases r, 3, n, 3, 0
  {
    hide Results, FlatMap, StOk, Alike;
    SameNcap(x, y);
    SamePlaces(x, y, s);
    if n > 0 {
      SameResults(x, y, r, back, k, s);
      SameFlatMap(x, y, back, s.pos, Results(x, r, back, k, s), ThenUpto(r, k, n - 1, greedy));
    }
  }

  lemma {:induction false} SameStar(x: Ctx, y: Ctx, r: Re, back: bool, k: nat, greedy: bool, s: St)
    requires SameFor(x, y, r) && StOk(x, s) && k + NumGroups(r) <= x.ncap
    ensures StOk(y, s) && k + NumGroups(r) <= y.ncap && Star(x, r, back, k, greedy, s) == Star(y, r, back, k, greedy, s)
    decreases r, 4, Distance(x, back, s.pos), 3, 0
  {
    hide Results, FlatMap, Alike;
    SameNcap(x, y);
    SamePlaces(x, y, s);
    SameResults(x, y, r, back, k, s);
    SameFlatMap(x, y, back, s.pos, Results(x, r, back, k, s), ThenStar(r, k, greedy, s.pos));
  }

  lemma {:induction false} SameFirstMatch(x: Ctx, y: Ctx, r: Re, sticky: bool, start: nat)
    requires SameFor(x, y, r) && Boundary(x.subject, start) && 1 + NumGroups(r) <= x.ncap
    ensures Boundary(y.subject, start) && 1 + NumGroups(r) <= y.ncap
    ensures FirstMatch(x, r, sticky, start) == FirstMatch(y, r, sticky, start)
    decreases Len(x) - start
  {
    hide Results;
    SamePlaces(x, y, St(start, NoCaps(x.ncap)));
    SameResults(x, y, Group(r), false, 0, St(start, NoCaps(x.ncap)));
    if !sticky && start < Len(x) {
      NextPrev(x.subject, start);
      SameFirstMatch(x, y, r, sticky, NextPos(x.subject, start));
    }
  }

  // ---------------------------------------------------------------- what the map does

  /** Unless case is ignored, the map is not looked at. */
  lemma {:induction false} MapUnused(x: Ctx, canon: map<nat, nat>, r: Re, sticky: bool, start: nat)
    requires !x.opts.ignoreCase && Boundary(x.subject, start) && 1 + NumGroups(r) <= x.ncap
    ensures FirstMatch(x, r, sticky, start) == FirstMatch(x.(opts := x.opts.(canon := canon)), r, sticky, start)
  {
    hide FirstMatch;
    SameFirstMatch(x, x.(opts := x.opts.(canon := canon)), r, sticky, start);
  }

  /** Nor by the compiler. */
  lemma {:induction false} MapNotCompiled(o: Opts, canon: map<nat, nat>, r: Re, back: bool, k: nat)
    requires !o.ignoreCase
    ensures Code(o, r, back, k) == Code(o.(canon := canon), r, back, k)
    decreases r
  {
    hide QuantCode, AltCode, LookCode, CharCode;
    match r {
      case Cat(a, b) =>
        MapNotCompiled(o, canon, a, back, k);
        MapNotCompiled(o, canon, b, back, k + NumGroups(a));
      case Alt(a, b) =>
        MapNotCompiled(o, canon, a, back, k);
        MapNotCompiled(o, canon, b, back, k + NumGroups(a));
      case Group(b) => MapNotCompiled(o, canon, b, back, k + 1);
      case Look(b, behind, _) => MapNotCompiled(o, canon, b, behind, k);
      case Quant(b, _, _, _) => MapNotCompiled(o, canon, b, back, k);
      case _ =>
    }
  }

  /** When case is ignored, subjects whose units have the same images, place by place, match alike. */
  lemma {:induction false} ImagesMatchAlike(x: Ctx, units: seq<Unit>, r: Re, sticky: bool, start: nat)
    requires x.opts.ignoreCase && !x.subject.utf16 && Untested(r, x.opts.dotall)
    requires |units| == |x.subject.units| && 0 <= start <= |units| && 1 + NumGroups(r) <= x.ncap
    requires forall i :: 0 <= i < |units| ==>
                           var c, d, canon := x.subject.units[i], units[i], x.opts.canon;
                           (if c in canon then canon[c] else c) == (if d in canon then canon[d] else d)
    ensures FirstMatch(x, r, sticky, start) == FirstMatch(x.(subject := Subject(units, false)), r, sticky, start)
  {
    hide FirstMatch;
    SameFirstMatch(x, x.(subject := Subject(units, false)), r, sticky, start);
  }

  /** The same of every single state, in either direction. */
  lemma {:induction false} ImagesYieldAlike(x: Ctx, units: seq<Unit>, r: Re, back: bool, k: nat, s: St)
    requires x.opts.ignoreCase && !x.subject.utf16 && Untested(r, x.opts.dotall)
    requires |units| == |x.subject.units| && StOk(x, s) && k + NumGroups(r) <= x.ncap
    requires forall i :: 0 <= i < |units| ==>
                           var c, d, canon := x.subject.units[i], units[i], x.opts.canon;
                           (if c in canon then canon[c] else c) == (if d in canon then canon[d] else d)
    ensures var y := x.(subject := Subject(units, false));
            StOk(y, s) && Results(x, r, back, k, s) == Results(y, r, back, k, s)
  {
    hide Results;
    SameResults(x, x.(subject := Subject(units, false)), r, back, k, s);
  }
}
