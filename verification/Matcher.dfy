/** The reference matcher: for a pattern and a state, all the states a match can end in, in order of
    preference.  It follows section 21.2.2 of ECMA-262 (9th edition), with the two differences of
    the compiled code: an empty iteration of an unbounded loop leaves the loop, and the captures of a
    quantified term are reset once, before the loop, when it may run zero times. */
module Matcher {
  import opened Integers
  import opened CharRanges
  import opened Subject
  import opened Regex

  predicate Toward(back: bool, p: nat, q: nat) {
    if back then q <= p else p <= q
  }

  ghost predicate Good(x: Ctx, back: bool, p: nat, all: seq<St>) {
    forall t :: t in all ==> StOk(x, t) && Toward(back, p, t.pos)
  }

  // ---------------------------------------------------------------- single characters and assertions

  predicate IsLineTerminator(c: nat) {
    c == 0x0a || c == 0x0d || c == 0x2028 || c == 0x2029
  }

  predicate IsWordChar(c: nat) {
    '0' as nat <= c <= '9' as nat || 'a' as nat <= c <= 'z' as nat || 'A' as nat <= c <= 'Z' as nat || c == '_' as nat
  }

  /** The character test of Char, Set and Dot. */
  predicate Accepts(o: Opts, r: Re, c: nat)
    requires r.Char? || r.Set? || r.Dot?
  {
    match r
    case Char(d) => Canon(o, c) == Canon(o, d)
    case Set(points) => Member(points, Canon(o, c))
    case Dot => o.dotall || !IsLineTerminator(c)
  }

  /** One character, after the cursor or, in a lookbehind, before it. */
  function OneChar(x: Ctx, r: Re, back: bool, s: St): (all: seq<St>)
    requires StOk(x, s) && (r.Char? || r.Set? || r.Dot?)
    ensures Good(x, back, s.pos, all) && forall t :: t in all ==> t.pos != s.pos
  {
    NextPrev(x.subject, s.pos);
    if back then
      if s.pos > 0 && Accepts(x.opts, r, CharAt(x.subject, PrevPos(x.subject, s.pos))) then
        [St(PrevPos(x.subject, s.pos), s.caps)]
      else []
    else
      if s.pos < Len(x) && Accepts(x.opts, r, CharAt(x.subject, s.pos)) then
        [St(NextPos(x.subject, s.pos), s.caps)]
      else []
  }

  lemma NextPrev(t: Subject, p: nat)
    requires Boundary(t, p)
    ensures p > 0 ==> Boundary(t, PrevPos(t, p)) && NextPos(t, PrevPos(t, p)) == p
    ensures p > 0 ==> PeekPrev(t, p) == CharAt(t, PrevPos(t, p))
    ensures p < |t.units| ==> Boundary(t, NextPos(t, p)) && PrevPos(t, NextPos(t, p)) == p
  {
    if p > 0 {
      PrevThenNext(t, p);
    }
    if p < |t.units| {
      NextThenPrev(t, p);
    }
  }

  predicate AtLineStart(x: Ctx, p: nat)
    requires p <= Len(x)
  {
    p == 0 || (x.opts.multiline && IsLineTerminator(PeekPrev(x.subject, p)))
  }

  predicate AtLineEnd(x: Ctx, p: nat)
    requires p <= Len(x)
  {
    p == Len(x) || (x.opts.multiline && IsLineTerminator(CharAt(x.subject, p)))
  }

  predicate AtWordBoundary(x: Ctx, p: nat)
    requires p <= Len(x)
  {
    (p > 0 && IsWordChar(PeekPrev(x.subject, p))) != (p < Len(x) && IsWordChar(CharAt(x.subject, p)))
  }

  /** Where the text of [i, e) ends when it is repeated from `p` on. */
  function Repeated(x: Ctx, i: nat, e: nat, p: nat): (q: int)
    requires Boundary(x.subject, i) && Boundary(x.subject, e) && Boundary(x.subject, p)
    ensures q != NULL ==> Boundary(x.subject, q) && p <= q
    decreases e - i
  {
    if i >= e then p
    else if p == Len(x) then NULL
    else if Canon(x.opts, CharAt(x.subject, i)) != Canon(x.opts, CharAt(x.subject, p)) then NULL
    else
      NextPrev(x.subject, i);
      NextPrev(x.subject, p);
      Repeated(x, NextPos(x.subject, i), e, NextPos(x.subject, p))
  }

  /** Where the text of [b, i) starts when it is repeated before `p`. */
  function RepeatedBefore(x: Ctx, b: nat, i: nat, p: nat): (q: int)
    requires Boundary(x.subject, b) && Boundary(x.subject, i) && Boundary(x.subject, p)
    ensures q != NULL ==> Boundary(x.subject, q) && q <= p
    decreases i
  {
    if i <= b then p
    else if p == 0 then NULL
    else
      NextPrev(x.subject, i);
      NextPrev(x.subject, p);
      var i', p' := PrevPos(x.subject, i), PrevPos(x.subject, p);
      if Canon(x.opts, CharAt(x.subject, i')) != Canon(x.opts, CharAt(x.subject, p')) then NULL
      else RepeatedBefore(x, b, i', p')
  }

  /** A reference to a group that has not taken part matches the empty text. */
  function OneBackRef(x: Ctx, g: nat, back: bool, s: St): (all: seq<St>)
    requires StOk(x, s)
    ensures Good(x, back, s.pos, all)
  {
    if g >= x.ncap then []
    else if s.caps[2 * g] == NULL || s.caps[2 * g + 1] == NULL then [s]
    else
      var q := if back then RepeatedBefore(x, s.caps[2 * g], s.caps[2 * g + 1], s.pos)
               else Repeated(x, s.caps[2 * g], s.caps[2 * g + 1], s.pos);
      if q == NULL then [] else [St(q, s.caps)]
  }

  /** Forgets captures `k` to `k + n - 1`. */
  function ResetCaps(caps: seq<int>, k: nat, n: nat): (r: seq<int>)
    requires 2 * (k + n) <= |caps|
    ensures |r| == |caps|
    ensures forall i :: 0 <= i < |r| ==> r[i] == if 2 * k <= i < 2 * (k + n) then NULL else caps[i]
  {
    seq(|caps|, i requires 0 <= i < |caps| => if 2 * k <= i < 2 * (k + n) then NULL else caps[i])
  }

  function SetCap(s: St, i: nat): (t: St)
    requires i < |s.caps|
    ensures |t.caps| == |s.caps| && t.pos == s.pos
  {
    St(s.pos, s.caps[i := s.pos])
  }

  /** Entering group `k`, from its left or, in a lookbehind, from its right. */
  function Enter(x: Ctx, back: bool, k: nat, s: St): (t: St)
    requires StOk(x, s) && k < x.ncap
    ensures StOk(x, t) && t.pos == s.pos
  {
    SetCap(s, if back then 2 * k + 1 else 2 * k)
  }

  /** Leaving group `k` sets its other capture entry. */
  function Leave(x: Ctx, back: bool, k: nat, s: St): (t: St)
    requires StOk(x, s) && k < x.ncap
    ensures StOk(x, t) && t.pos == s.pos
  {
    SetCap(s, if back then 2 * k else 2 * k + 1)
  }

  /** The captures of a term that may not run at all are reset. */
  function Forget(x: Ctx, k: nat, n: nat, s: St): (t: St)
    requires StOk(x, s) && k + n <= x.ncap
    ensures StOk(x, t) && t.pos == s.pos
  {
    St(s.pos, ResetCaps(s.caps, k, n))
  }

  // ---------------------------------------------------------------- the ordered results

  /** What becomes of each result of a term: the next term, or the iterations still to run. */
  datatype Cont =
    | Then(r: Re, k: nat)
    | ThenTimes(r: Re, k: nat, n: nat)
    | ThenUpto(r: Re, k: nat, n: nat, greedy: bool)
    | ThenStar(r: Re, k: nat, greedy: bool, p: nat)
    | Rest(r: Re, k: nat, min: nat, max: nat, greedy: bool)

  predicate ContOk(x: Ctx, f: Cont, p: nat) {
    f.k + NumGroups(f.r) <= x.ncap && (f.ThenStar? ==> f.p == p <= Len(x))
  }

  function Distance(x: Ctx, back: bool, p: nat): nat
    requires p <= Len(x)
  {
    if back then p else Len(x) - p
  }

  /** The place of a continuation in the order that makes the matcher terminate. */
  function Stage(f: Cont): nat {
    match f
    case Then(_, _) => 1
    case ThenTimes(_, _, _) => 2
    case ThenUpto(_, _, _, _) => 3
    case ThenStar(_, _, _, _) => 4
    case Rest(_, _, _, _, _) => 5
  }

  function Budget(x: Ctx, back: bool, f: Cont): nat {
    match f
    case ThenTimes(_, _, n) => n + 1
    case ThenUpto(_, _, n, _) => n + 1
    case ThenStar(_, _, _, p) => if p <= Len(x) then Distance(x, back, p) else 0
    case _ => 0
  }

  /** One result continued; `p` is where the results started. */
  function Continue(x: Ctx, back: bool, p: nat, f: Cont, t: St): (all: seq<St>)
    requires StOk(x, t) && Toward(back, p, t.pos) && ContOk(x, f, p)
    ensures Good(x, back, t.pos, all)
    decreases f.r, Stage(f), Budget(x, back, f), 1, 0
  {
    match f
    case Then(r, k) => Results(x, r, back, k, t)
    case ThenTimes(r, k, n) => Times(x, r, back, k, n, t)
    case ThenUpto(r, k, n, greedy) => Upto(x, r, back, k, n, greedy, t)
    case ThenStar(r, k, greedy, _) => if t.pos == p then [t] else Star(x, r, back, k, greedy, t)
    case Rest(r, k, min, max, greedy) =>
      if max == INT32_MAX then Star(x, r, back, k, greedy, t)
      else Upto(x, r, back, k, if max >= min then max - min else 0, greedy, t)
  }

  /** Every state of `all` continued, in order. */
  function FlatMap(x: Ctx, back: bool, p: nat, all: seq<St>, f: Cont): (r: seq<St>)
    requires Good(x, back, p, all) && ContOk(x, f, p)
    ensures Good(x, back, p, r)
    decreases f.r, Stage(f), Budget(x, back, f), 2, |all|
  {
    if |all| == 0 then []
    else
      var here, rest := Continue(x, back, p, f, all[0]), FlatMap(x, back, p, all[1..], f);
      GoodConcat(x, back, p, all[0].pos, here, rest);
      here + rest
  }

  lemma GoodConcat(x: Ctx, back: bool, p: nat, q: nat, here: seq<St>, rest: seq<St>)
    requires Toward(back, p, q) && Good(x, back, q, here) && Good(x, back, p, rest)
    ensures Good(x, back, p, here + rest)
  {
  }

  function Results(x: Ctx, r: Re, back: bool, k: nat, s: St): (all: seq<St>)
    requires StOk(x, s) && k + NumGroups(r) <= x.ncap
    ensures Good(x, back, s.pos, all)
    decreases r, 0, 0, 0, 0
  {
    match r
    case Empty => [s]
    case Char(_) => OneChar(x, r, back, s)
    case Set(_) => OneChar(x, r, back, s)
    case Dot => OneChar(x, r, back, s)
    case LineStart => if AtLineStart(x, s.pos) then [s] else []
    case LineEnd => if AtLineEnd(x, s.pos) then [s] else []
    case WordBoundary(negated) => if AtWordBoundary(x, s.pos) != negated then [s] else []
    case BackRef(g) => OneBackRef(x, g, back, s)
    case Cat(a, b) =>
      if back then FlatMap(x, back, s.pos, Results(x, b, back, k + NumGroups(a), s), Then(a, k))
      else FlatMap(x, back, s.pos, Results(x, a, back, k, s), Then(b, k + NumGroups(a)))
    case Alt(a, b) => Results(x, a, back, k, s) + Results(x, b, back, k + NumGroups(a), s)
    case Group(b) => LeaveAll(x, back, k, s.pos, Results(x, b, back, k + 1, Enter(x, back, k, s)))
    case Look(b, behind, negative) => LookResults(x, b, behind, negative, k, back, s)
    case Quant(b, min, max, greedy) => QuantResults(x, b, min, max, greedy, back, k, s)
  }

  /** Every state of `all` on its way out of group `k`. */
  function LeaveAll(x: Ctx, back: bool, k: nat, p: nat, all: seq<St>): (r: seq<St>)
    requires Good(x, back, p, all) && k < x.ncap
    ensures Good(x, back, p, r) && |r| == |all|
    ensures forall i :: 0 <= i < |all| ==> StOk(x, all[i]) && r[i] == Leave(x, back, k, all[i])
  {
    if |all| == 0 then [] else [Leave(x, back, k, all[0])] + LeaveAll(x, back, k, p, all[1..])
  }

  /** A lookaround keeps the cursor; a positive one keeps the captures of its first result. */
  function LookResults(x: Ctx, b: Re, behind: bool, negative: bool, k: nat, back: bool, s: St): (all: seq<St>)
    requires StOk(x, s) && k + NumGroups(b) <= x.ncap
    ensures Good(x, back, s.pos, all)
    decreases b, 6, 0, 0, 0
  {
    var inner := Results(x, b, behind, k, s);
    if negative then (if |inner| == 0 then [s] else [])
    else if |inner| == 0 then []
    else [St(s.pos, inner[0].caps)]
  }

  function QuantResults(x: Ctx, b: Re, min: nat, max: nat, greedy: bool, back: bool, k: nat, s: St): (all: seq<St>)
    requires StOk(x, s) && k + NumGroups(b) <= x.ncap
    ensures Good(x, back, s.pos, all)
    decreases b, 6, 0, 0, 0
  {
    var s0 := if min == 0 then Forget(x, k, NumGroups(b), s) else s;
    FlatMap(x, back, s.pos, Times(x, b, back, k, min, s0), Rest(b, k, min, max, greedy))
  }

  /** Exactly `n` iterations. */
  function Times(x: Ctx, r: Re, back: bool, k: nat, n: nat, s: St): (all: seq<St>)
    requires StOk(x, s) && k + NumGroups(r) <= x.ncap
    ensures Good(x, back, s.pos, all)
    decreases r, 2, n, 3, 0
  {
    if n == 0 then [s]
    else FlatMap(x, back, s.pos, Results(x, r, back, k, s), ThenTimes(r, k, n - 1))
  }

  /** Up to `n` iterations, as many or as few as possible first. */
  function Upto(x: Ctx, r: Re, back: bool, k: nat, n: nat, greedy: bool, s: St): (all: seq<St>)
    requires StOk(x, s) && k + NumGroups(r) <= x.ncap
    ensures Good(x, back, s.pos, all)
    decreases r, 3, n, 3, 0
  {
    if n == 0 then [s]
    else
      var more := FlatMap(x, back, s.pos, Results(x, r, back, k, s), ThenUpto(r, k, n - 1, greedy));
      if greedy then more + [s] else [s] + more
  }

  /** Any number of iterations; one that does not move the cursor is the last. */
  function Star(x: Ctx, r: Re, back: bool, k: nat, greedy: bool, s: St): (all: seq<St>)
    requires StOk(x, s) && k + NumGroups(r) <= x.ncap
    ensures Good(x, back, s.pos, all)
    decreases r, 4, Distance(x, back, s.pos), 3, 0
  {
    var more := FlatMap(x, back, s.pos, Results(x, r, back, k, s), ThenStar(r, k, greedy, s.pos));
    if greedy then more + [s] else [s] + more
  }

  // ---------------------------------------------------------------- the whole match

  function NoCaps(n: nat): seq<int> { seq(2 * n, _ => NULL) }

  /** The first result at `start` or, unless the match is sticky, at the first later position that
      has one.  The whole match is capture 0. */
  function FirstMatch(x: Ctx, r: Re, sticky: bool, start: nat): (m: seq<St>)
    requires Boundary(x.subject, start) && 1 + NumGroups(r) <= x.ncap
    ensures |m| <= 1 && (forall t :: t in m ==> StOk(x, t))
    decreases Len(x) - start
  {
    var here := Results(x, Group(r), false, 0, St(start, NoCaps(x.ncap)));
    if |here| > 0 then [here[0]]
    else if sticky || start == Len(x) then []
    else
      NextPrev(x.subject, start);
      FirstMatch(x, r, sticky, NextPos(x.subject, start))
  }
}
