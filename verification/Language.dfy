/** What a pattern without back references means, without directions, orders, captures or continuations: which
    stretches of the subject it matches.  The definitions speak of units and numbers only; the matcher, forwards
    and backwards, reaches exactly the ends of these stretches. */
module Language {
  import opened Integers
  import opened CharRanges
  import opened Subject
  import opened Regex
  import opened Matcher
  import opened Correct
  import opened Compiled
  import opened Captures

  // ---------------------------------------------------------------- characters

  /** Units `p` and `p + 1` are the two halves of one character. */
  predicate Halves(x: Ctx, p: int) {
    x.subject.utf16 && 0 <= p && p + 1 < |x.subject.units| &&
    0xd800 <= x.subject.units[p] <= 0xdbff && 0xdc00 <= x.subject.units[p + 1] <= 0xdfff
  }

  /** Position `p` is in the subject and not inside a character. */
  predicate Between(x: Ctx, p: int) {
    0 <= p <= |x.subject.units| && !Halves(x, p - 1)
  }

  function CodePoint(x: Ctx, p: nat): (c: nat)
    requires p < |x.subject.units|
  {
    if Halves(x, p) then
      var high: nat, low: nat := x.subject.units[p], x.subject.units[p + 1];
      0x1_0000 + (high - 0xd800) * 0x400 + (low - 0xdc00)
    else x.subject.units[p]
  }

  /** The code point as it is compared: its image under the map when case is ignored. */
  function Image(o: Opts, c: nat): (d: nat) {
    if o.ignoreCase then (if c in o.canon then o.canon[c] else c) else c
  }

  predicate EndsLine(c: nat) {
    c == 0x0a || c == 0x0d || c == 0x2028 || c == 0x2029
  }

  predicate InWord(c: nat) {
    48 <= c <= 57 || 65 <= c <= 90 || c == 95 || 97 <= c <= 122
  }

  predicate Takes(o: Opts, r: Re, c: nat)
    requires r.Char? || r.Set? || r.Dot?
  {
    match r
    case Char(d) => Image(o, c) == Image(o, d)
    case Set(points) => exists i :: 0 <= i < |points| / 2 && points[2 * i] <= Image(o, c) < points[2 * i + 1]
    case Dot => o.dotall || !EndsLine(c)
  }

  /** The assertion holds at `p`. */
  predicate Holds(x: Ctx, r: Re, p: nat)
    requires (r.LineStart? || r.LineEnd? || r.WordBoundary?) && p <= |x.subject.units|
  {
    var u := x.subject.units;
    match r
    case LineStart => p == 0 || (x.opts.multiline && EndsLine(u[p - 1]))
    case LineEnd => p == |u| || (x.opts.multiline && EndsLine(u[p]))
    case WordBoundary(negated) =>
      ((p > 0 && InWord(u[p - 1])) == (p < |u| && InWord(u[p]))) == negated
  }

  // ---------------------------------------------------------------- the meaning of a pattern

  predicate NoRefs(r: Re) {
    match r
    case BackRef(_) => false
    case Cat(a, b) => NoRefs(a) && NoRefs(b)
    case Alt(a, b) => NoRefs(a) && NoRefs(b)
    case Group(b) => NoRefs(b)
    case Look(b, _, _) => NoRefs(b)
    case Quant(b, min, max, _) => NoRefs(b) && min <= max
    case _ => true
  }

  /** The pattern matches the stretch from `p` to `q`. */
  ghost predicate Spells(x: Ctx, r: Re, p: nat, q: nat)
    ensures Spells(x, r, p, q) ==> p <= q && Between(x, p) && Between(x, q)
    decreases r, 0
  {
    Between(x, p) && Between(x, q) &&
    match r
    case Empty => p == q
    case Cat(a, b) => exists m: nat :: Spells(x, a, p, m) && Spells(x, b, m, q)
    case Alt(a, b) => Spells(x, a, p, q) || Spells(x, b, p, q)
    case Group(b) => Spells(x, b, p, q)
    case Look(b, behind, negative) =>
      p == q && SomeWhere(x, b, behind, p) != negative
    case Quant(b, min, max, _) =>
      exists n: nat :: min <= n && (n <= max || max == 0x7fff_ffff) && Repeats(x, b, n, p, q)
    case BackRef(_) => false
    case LineStart => p == q && Holds(x, r, p)
    case LineEnd => p == q && Holds(x, r, p)
    case WordBoundary(_) => p == q && Holds(x, r, p)
    case _ =>
      p < |x.subject.units| && q == (if Halves(x, p) then p + 2 else p + 1) && Takes(x.opts, r, CodePoint(x, p))
  }

  /** It matches some stretch that ends or begins at `p`. */
  ghost predicate SomeWhere(x: Ctx, r: Re, behind: bool, p: nat)
    decreases r, 1
  {
    if behind then exists m: nat :: Spells(x, r, m, p) else exists m: nat :: Spells(x, r, p, m)
  }

  /** `n` stretches in a row. */
  ghost predicate Repeats(x: Ctx, r: Re, n: nat, p: nat, q: nat)
    ensures Repeats(x, r, n, p, q) ==> p <= q && Between(x, p) && Between(x, q)
    decreases r, 1, n
  {
    if n == 0 then p == q && Between(x, p)
    else exists m: nat :: Spells(x, r, p, m) && Repeats(x, r, n - 1, m, q)
  }

  // ---------------------------------------------------------------- what the matcher sees

  lemma SameCursor(x: Ctx, p: int)
    ensures PairAt(x.subject, p) <==> Halves(x, p)
    ensures Boundary(x.subject, p) <==> Between(x, p)
  {
  }

  lemma SameCharacter(x: Ctx, p: nat)
    requires p < Len(x)
    ensures CharAt(x.subject, p) == CodePoint(x, p) && NextPos(x.subject, p) == if Halves(x, p) then p + 2 else p + 1
  {
    SameCursor(x, p);
    if Halves(x, p) {
      var high: nat, low: nat := x.subject.units[p], x.subject.units[p + 1];
      HalfValue(high, 0xd800);
      HalfValue(low, 0xdc00);
    }
  }

  lemma HalfValue(u: nat, base: nat)
    requires base <= u < base + 0x400 && base % 0x400 == 0
    ensures u % 0x400 == u - base
  {
  }

  lemma SameTest(o: Opts, r: Re, c: nat)
    requires r.Char? || r.Set? || r.Dot?
    ensures Accepts(o, r, c) <==> Takes(o, r, c)
  {
    if r.Set? {
      assert Canon(o, c) == Image(o, c);
      forall i | 0 <= i < |r.points| / 2
        ensures InInterval(r.points, i, Canon(o, c)) <==>
                r.points[2 * i] <= Image(o, c) && Image(o, c) < r.points[2 * i + 1]
      {
      }
    }
  }

  lemma SameAssertion(x: Ctx, r: Re, p: nat)
    requires (r.LineStart? || r.LineEnd? || r.WordBoundary?) && p <= Len(x)
    ensures r.LineStart? ==> (AtLineStart(x, p) <==> Holds(x, r, p))
    ensures r.LineEnd? ==> (AtLineEnd(x, p) <==> Holds(x, r, p))
    ensures r.WordBoundary? ==> (AtWordBoundary(x, p) != r.negated <==> Holds(x, r, p))
  {
  }

  // ---------------------------------------------------------------- ends of results

  ghost predicate Ends(all: seq<St>, q: nat) {
    exists t :: t in all && t.pos == q
  }

  /** Seen from `p` in the direction of the match. */
  ghost predicate Meets(x: Ctx, r: Re, back: bool, p: nat, q: nat) {
    if back then Spells(x, r, q, p) else Spells(x, r, p, q)
  }

  ghost predicate MeetsTimes(x: Ctx, r: Re, back: bool, n: nat, p: nat, q: nat) {
    if back then Repeats(x, r, n, q, p) else Repeats(x, r, n, p, q)
  }

  lemma EndsOne(s: St, q: nat)
    ensures Ends([s], q) <==> s.pos == q
    ensures !Ends([], q)
  {
    assert s in [s];
  }

  lemma EndsConcat(a: seq<St>, b: seq<St>, q: nat)
    ensures Ends(a + b, q) <==> Ends(a, q) || Ends(b, q)
  {
    if Ends(a, q) {
      var t :| t in a && t.pos == q;
      assert t in a + b;
    }
    if Ends(b, q) {
      var t :| t in b && t.pos == q;
      assert t in a + b;
    }
  }

  /** Some result, continued, ends at `q`. */
  ghost predicate SomeContinues(x: Ctx, back: bool, p: nat, all: seq<St>, f: Cont, q: nat)
    requires Good(x, back, p, all) && ContOk(x, f, p)
  {
    exists t :: t in all && StOk(x, t) && Toward(back, p, t.pos) && Ends(Continue(x, back, p, f, t), q)
  }

  lemma {:induction false} EndsFlatMap(x: Ctx, back: bool, p: nat, all: seq<St>, f: Cont, q: nat)
    requires Good(x, back, p, all) && ContOk(x, f, p)
    ensures Ends(FlatMap(x, back, p, all, f), q) <==> SomeContinues(x, back, p, all, f, q)
    decreases |all|
  {
    hide Continue, StOk, Ends;
    if |all| == 0 {
      EndsOne(St(0, []), q);
    } else {
      assert all[0] in all;
      var here, rest := Continue(x, back, p, f, all[0]), FlatMap(x, back, p, all[1..], f);
      EndsConcat(here, rest, q);
      EndsFlatMap(x, back, p, all[1..], f, q);
      if Ends(here, q) {
        assert SomeContinues(x, back, p, all, f, q);
      }
      if SomeContinues(x, back, p, all[1..], f, q) {
        var t :| t in all[1..] && StOk(x, t) && Toward(back, p, t.pos) && Ends(Continue(x, back, p, f, t), q);
        assert t in all;
      }
      if SomeContinues(x, back, p, all, f, q) {
        var t :| t in all && StOk(x, t) && Toward(back, p, t.pos) && Ends(Continue(x, back, p, f, t), q);
        assert t == all[0] || t in all[1..];
      }
    }
  }

  // ---------------------------------------------------------------- repetitions

  lemma {:induction false} RepeatsSplit(x: Ctx, r: Re, n: nat, p: nat, q: nat) returns (m: nat)
    requires n > 0 && Repeats(x, r, n, p, q)
    ensures Spells(x, r, p, m) && Repeats(x, r, n - 1, m, q)
  {
    m :| Spells(x, r, p, m) && Repeats(x, r, n - 1, m, q);
  }

  lemma {:induction false} RepeatsFold(x: Ctx, r: Re, n: nat, p: nat, m: nat, q: nat)
    requires n > 0 && Spells(x, r, p, m) && Repeats(x, r, n - 1, m, q)
    ensures Repeats(x, r, n, p, q)
  {
    assert exists m: nat :: Spells(x, r, p, m) && Repeats(x, r, n - 1, m, q);
  }

  lemma {:induction false} RepeatsNone(x: Ctx, r: Re, p: nat, q: nat)
    ensures Repeats(x, r, 0, p, q) <==> p == q && Between(x, p)
  {
  }

  lemma {:induction false} SpellsSpan(x: Ctx, r: Re, p: nat, q: nat)
    requires Spells(x, r, p, q)
    ensures p <= q && Between(x, p) && Between(x, q)
  {
  }

  /** The last of several stretches may be split off as well as the first. */
  lemma {:induction false} RepeatsLastSplit(x: Ctx, r: Re, n: nat, p: nat, q: nat) returns (l: nat)
    requires n > 0 && Repeats(x, r, n, p, q)
    ensures Repeats(x, r, n - 1, p, l) && Spells(x, r, l, q)
    decreases n
  {
    hide Spells, Repeats;
    var m := RepeatsSplit(x, r, n, p, q);
    SpellsSpan(x, r, p, m);
    if n == 1 {
      RepeatsNone(x, r, m, q);
      RepeatsNone(x, r, p, p);
      l := p;
    } else {
      l := RepeatsLastSplit(x, r, n - 1, m, q);
      RepeatsFold(x, r, n - 1, p, m, l);
    }
  }

  lemma {:induction false} RepeatsLastFold(x: Ctx, r: Re, n: nat, p: nat, m: nat, q: nat)
    requires n > 0 && Repeats(x, r, n - 1, p, m) && Spells(x, r, m, q)
    ensures Repeats(x, r, n, p, q)
    decreases n
  {
    hide Spells, Repeats;
    SpellsSpan(x, r, m, q);
    if n == 1 {
      RepeatsNone(x, r, p, m);
      RepeatsNone(x, r, q, q);
      RepeatsFold(x, r, 1, p, q, q);
    } else {
      var l := RepeatsSplit(x, r, n - 1, p, m);
      RepeatsLastFold(x, r, n - 1, l, m, q);
      RepeatsFold(x, r, n, p, l, q);
    }
  }

  /** The first stretch in the direction of the match. */
  lemma {:induction false} MeetsFirst(x: Ctx, r: Re, back: bool, n: nat, p: nat, q: nat)
    requires n > 0
    ensures MeetsTimes(x, r, back, n, p, q) <==>
            exists m: nat :: Meets(x, r, back, p, m) && MeetsTimes(x, r, back, n - 1, m, q)
  {
    hide Meets, MeetsTimes;
    if MeetsTimes(x, r, back, n, p, q) {
      var m := FirstSplit(x, r, back, n, p, q);
    }
    if m: nat :| Meets(x, r, back, p, m) && MeetsTimes(x, r, back, n - 1, m, q) {
      FirstFold(x, r, back, n, p, m, q);
    }
  }

  lemma {:induction false} FirstSplit(x: Ctx, r: Re, back: bool, n: nat, p: nat, q: nat) returns (m: nat)
    requires n > 0 && MeetsTimes(x, r, back, n, p, q)
    ensures Meets(x, r, back, p, m) && MeetsTimes(x, r, back, n - 1, m, q)
  {
    hide Spells, Repeats;
    if back {
      m := RepeatsLastSplit(x, r, n, q, p);
    } else {
      m := RepeatsSplit(x, r, n, p, q);
    }
  }

  lemma {:induction false} FirstFold(x: Ctx, r: Re, back: bool, n: nat, p: nat, m: nat, q: nat)
    requires n > 0 && Meets(x, r, back, p, m) && MeetsTimes(x, r, back, n - 1, m, q)
    ensures MeetsTimes(x, r, back, n, p, q)
  {
    hide Spells, Repeats;
    if back {
      RepeatsLastFold(x, r, n, q, m, p);
    } else {
      RepeatsFold(x, r, n, p, m, q);
    }
  }

  /** Some stretches, and then some more. */
  lemma {:induction false} MeetsSum(x: Ctx, r: Re, back: bool, a: nat, b: nat, p: nat, q: nat)
    ensures MeetsTimes(x, r, back, a + b, p, q) <==>
            exists m: nat :: MeetsTimes(x, r, back, a, p, m) && MeetsTimes(x, r, back, b, m, q)
    decreases a
  {
    hide Meets;
    if a == 0 {
      if MeetsTimes(x, r, back, b, p, q) {
        assert MeetsTimes(x, r, back, 0, p, p);
      }
    } else {
      hide MeetsTimes;
      MeetsFirst(x, r, back, a + b, p, q);
      if MeetsTimes(x, r, back, a + b, p, q) {
        var l: nat :| Meets(x, r, back, p, l) && MeetsTimes(x, r, back, a + b - 1, l, q);
        MeetsSum(x, r, back, a - 1, b, l, q);
        var m: nat :| MeetsTimes(x, r, back, a - 1, l, m) && MeetsTimes(x, r, back, b, m, q);
        MeetsFirst(x, r, back, a, p, m);
      }
      if m: nat :| MeetsTimes(x, r, back, a, p, m) && MeetsTimes(x, r, back, b, m, q) {
        MeetsFirst(x, r, back, a, p, m);
        var l: nat :| Meets(x, r, back, p, l) && MeetsTimes(x, r, back, a - 1, l, m);
        MeetsSum(x, r, back, a - 1, b, l, q);
        assert MeetsTimes(x, r, back, a + b - 1, l, q);
      }
    }
  }

  /** What goes somewhere needs no first stretch that goes nowhere. */
  lemma {:induction false} MeetsMoving(x: Ctx, r: Re, back: bool, n: nat, p: nat, q: nat) returns (m: nat, l: nat)
    requires MeetsTimes(x, r, back, n, p, q) && p != q
    ensures m != p && l < n && Meets(x, r, back, p, m) && MeetsTimes(x, r, back, l, m, q)
    decreases n
  {
    hide Meets;
    if n == 0 {
      assert false;
    }
    hide MeetsTimes;
    MeetsFirst(x, r, back, n, p, q);
    m :| Meets(x, r, back, p, m) && MeetsTimes(x, r, back, n - 1, m, q);
    l := n - 1;
    if m == p {
      m, l := MeetsMoving(x, r, back, n - 1, p, q);
    }
  }

  lemma {:induction false} MeetsNone(x: Ctx, r: Re, back: bool, p: nat, q: nat)
    ensures MeetsTimes(x, r, back, 0, p, q) <==> p == q && Between(x, p)
  {
  }

  // ---------------------------------------------------------------- the matcher reaches the ends of the stretches

  /** From each result of a term, a continuation reaches what it should. */
  lemma {:induction false} EndsAre(x: Ctx, r: Re, back: bool, k: nat, s: St, q: nat)
    requires StOk(x, s) && k + NumGroups(r) <= x.ncap && NoRefs(r)
    ensures Ends(Results(x, r, back, k, s), q) <==> Meets(x, r, back, s.pos, q)
    decreases r, 9, 0, 0
  {
    hide Results, StOk, Spells, Ends;
    match r {
      case Cat(a, b) => CatEnds(x, a, b, back, k, s, q);
      case Look(b, behind, negative) => LookEnds(x, b, behind, negative, back, k, s, q);
      case Quant(b, min, max, greedy) => QuantEnds(x, b, min, max, greedy, back, k, s, q);
      case Alt(a, b) =>
        ResultsAlt(x, a, b, back, k, s);
        EndsAre(x, a, back, k, s, q);
        EndsAre(x, b, back, k + NumGroups(a), s, q);
        EndsConcat(Results(x, a, back, k, s), Results(x, b, back, k + NumGroups(a), s), q);
        AltSpells(x, a, b, back, s.pos, q);
      case Group(b) =>
        ResultsGroup(x, b, back, k, s);
        EndsAre(x, b, back, k + 1, Enter(x, back, k, s), q);
        LeaveEnds(x, back, k, s.pos, Results(x, b, back, k + 1, Enter(x, back, k, s)), q);
        GroupSpells(x, b, back, s.pos, q);
      case _ => LeafEnds(x, r, back, k, s, q);
    }
  }

  lemma {:induction false} LeafEnds(x: Ctx, r: Re, back: bool, k: nat, s: St, q: nat)
    requires !r.Cat? && !r.Alt? && !r.Group? && !r.Look? && !r.Quant? && NoRefs(r)
    requires StOk(x, s) && k <= x.ncap
    ensures Ends(Results(x, r, back, k, s), q) <==> Meets(x, r, back, s.pos, q)
  {
    hide Takes, Accepts, Holds, AtLineStart, AtLineEnd, AtWordBoundary;
    SameCursor(x, s.pos);
    EndsOne(s, q);
    match r {
      case Empty =>
      case LineStart => SameAssertion(x, r, s.pos);
      case LineEnd => SameAssertion(x, r, s.pos);
      case WordBoundary(_) => SameAssertion(x, r, s.pos);
      case _ => CharEnds(x, r, back, k, s, q);
    }
  }

  lemma {:induction false} CharEnds(x: Ctx, r: Re, back: bool, k: nat, s: St, q: nat)
    requires r.Char? || r.Set? || r.Dot?
    requires StOk(x, s) && k <= x.ncap
    ensures Ends(Results(x, r, back, k, s), q) <==> Meets(x, r, back, s.pos, q)
  {
    hide Takes, Accepts, Ends;
    EndsOne(s, q);
    NextPrev(x.subject, s.pos);
    SameCursor(x, s.pos);
    SameCursor(x, q);
    if back {
      if s.pos > 0 {
        var p := PrevPos(x.subject, s.pos);
        SameCharacter(x, p);
        SameCursor(x, p);
        SameTest(x.opts, r, CodePoint(x, p));
        EndsOne(St(p, s.caps), q);
      }
      if q < Len(x) && Between(x, q) && s.pos == (if Halves(x, q) then q + 2 else q + 1) {
        SameCharacter(x, q);
        NextThenPrev(x.subject, q);
      }
    } else if s.pos < Len(x) {
      SameCharacter(x, s.pos);
      SameCursor(x, NextPos(x.subject, s.pos));
      SameTest(x.opts, r, CodePoint(x, s.pos));
      EndsOne(St(NextPos(x.subject, s.pos), s.caps), q);
    }
  }

  lemma {:induction false} AltSpells(x: Ctx, a: Re, b: Re, back: bool, p: nat, q: nat)
    ensures Meets(x, Alt(a, b), back, p, q) <==> Meets(x, a, back, p, q) || Meets(x, b, back, p, q)
  {
  }

  lemma {:induction false} GroupSpells(x: Ctx, b: Re, back: bool, p: nat, q: nat)
    ensures Meets(x, Group(b), back, p, q) <==> Meets(x, b, back, p, q)
  {
  }

  lemma {:induction false} LeaveEnds(x: Ctx, back: bool, k: nat, p: nat, all: seq<St>, q: nat)
    requires Good(x, back, p, all) && k < x.ncap
    ensures Ends(LeaveAll(x, back, k, p, all), q) <==> Ends(all, q)
  {
    hide LeaveAll, StOk, Good;
    var out := LeaveAll(x, back, k, p, all);
    if Ends(all, q) {
      var t :| t in all && t.pos == q;
      var i :| 0 <= i < |all| && all[i] == t;
      assert out[i] in out;
    }
    if Ends(out, q) {
      var t :| t in out && t.pos == q;
      var i :| 0 <= i < |out| && out[i] == t;
      assert all[i] in all;
    }
  }

  /** The two terms in the order of the direction. */
  lemma {:induction false} CatSpells(x: Ctx, a: Re, b: Re, back: bool, p: nat, q: nat)
    ensures Meets(x, Cat(a, b), back, p, q) <==>
            var one, two := if back then b else a, if back then a else b;
            exists m: nat :: Meets(x, one, back, p, m) && Meets(x, two, back, m, q)
  {
    hide Meets;
    var one, two := if back then b else a, if back then a else b;
    if Meets(x, Cat(a, b), back, p, q) {
      var m := CatMeetsSplit(x, a, b, back, p, q);
    }
    if m: nat :| Meets(x, one, back, p, m) && Meets(x, two, back, m, q) {
      CatMeetsFold(x, a, b, back, p, m, q);
    }
  }

  lemma {:induction false} CatMeetsSplit(x: Ctx, a: Re, b: Re, back: bool, p: nat, q: nat) returns (m: nat)
    requires Meets(x, Cat(a, b), back, p, q)
    ensures Meets(x, if back then b else a, back, p, m) && Meets(x, if back then a else b, back, m, q)
  {
    hide Spells;
    m := CatSplit(x, a, b, if back then q else p, if back then p else q);
  }

  lemma {:induction false} CatMeetsFold(x: Ctx, a: Re, b: Re, back: bool, p: nat, m: nat, q: nat)
    requires Meets(x, if back then b else a, back, p, m) && Meets(x, if back then a else b, back, m, q)
    ensures Meets(x, Cat(a, b), back, p, q)
  {
    hide Spells;
    CatFold(x, a, b, if back then q else p, m, if back then p else q);
  }

  lemma {:induction false} CatSplit(x: Ctx, a: Re, b: Re, p: nat, q: nat) returns (m: nat)
    requires Spells(x, Cat(a, b), p, q)
    ensures Spells(x, a, p, m) && Spells(x, b, m, q)
  {
    m :| Spells(x, a, p, m) && Spells(x, b, m, q);
  }

  lemma {:induction false} CatFold(x: Ctx, a: Re, b: Re, p: nat, m: nat, q: nat)
    requires Spells(x, a, p, m) && Spells(x, b, m, q)
    ensures Spells(x, Cat(a, b), p, q)
  {
    assert Between(x, p) && Between(x, q);
    assert exists m: nat :: Spells(x, a, p, m) && Spells(x, b, m, q);
  }

  lemma {:induction false} CatEnds(x: Ctx, a: Re, b: Re, back: bool, k: nat, s: St, q: nat)
    requires StOk(x, s) && k + NumGroups(a) + NumGroups(b) <= x.ncap && NoRefs(a) && NoRefs(b)
    ensures Ends(Results(x, Cat(a, b), back, k, s), q) <==> Meets(x, Cat(a, b), back, s.pos, q)
    decreases Cat(a, b), 8, 0, 0
  {
    hide Results, StOk, Meets, Ends, FlatMap;
    var k' := k + NumGroups(a);
    ResultsCat(x, a, b, back, k, s);
    CatSpells(x, a, b, back, s.pos, q);
    if back {
      ChainEnds(x, Cat(a, b), b, k', Then(a, k), a, back, s, q);
    } else {
      ChainEnds(x, Cat(a, b), a, k, Then(b, k'), b, back, s, q);
    }
  }

  /** A term and the next one. */
  lemma {:induction false} ChainEnds(x: Ctx, r: Re, one: Re, k: nat, f: Cont, two: Re, back: bool, s: St, q: nat)
    requires one < r && two < r && StOk(x, s) && k + NumGroups(one) <= x.ncap && f == Then(two, f.k) &&
             ContOk(x, f, s.pos)
    requires NoRefs(one) && NoRefs(two)
    ensures Ends(FlatMap(x, back, s.pos, Results(x, one, back, k, s), f), q) <==>
            exists m: nat :: Meets(x, one, back, s.pos, m) && Meets(x, two, back, m, q)
    decreases r, 7, 0, 0
  {
    hide Results, StOk, Meets, Ends, FlatMap;
    var all := Results(x, one, back, k, s);
    EndsFlatMap(x, back, s.pos, all, f, q);
    forall t | t in all && StOk(x, t)
      ensures Ends(Results(x, two, back, f.k, t), q) <==> Meets(x, two, back, t.pos, q)
    {
      EndsAre(x, two, back, f.k, t, q);
    }
    if SomeContinues(x, back, s.pos, all, f, q) {
      var t :| t in all && StOk(x, t) && Toward(back, s.pos, t.pos) && Ends(Continue(x, back, s.pos, f, t), q);
      EndAt(all, t);
      EndsAre(x, one, back, k, s, t.pos);
      assert Meets(x, one, back, s.pos, t.pos) && Meets(x, two, back, t.pos, q);
    }
    if m: nat :| Meets(x, one, back, s.pos, m) && Meets(x, two, back, m, q) {
      EndsAre(x, one, back, k, s, m);
      var t := AtEnd(all, m);
      assert Ends(Continue(x, back, s.pos, f, t), q);
    }
  }

  lemma EndAt(all: seq<St>, t: St)
    requires t in all
    ensures Ends(all, t.pos)
  {
  }

  lemma AtEnd(all: seq<St>, q: nat) returns (t: St)
    requires Ends(all, q)
    ensures t in all && t.pos == q
  {
    t :| t in all && t.pos == q;
  }

  // ---------------------------------------------------------------- lookarounds

  lemma {:induction false} LookEnds(x: Ctx, b: Re, behind: bool, negative: bool, back: bool, k: nat, s: St, q: nat)
    requires StOk(x, s) && k + NumGroups(b) <= x.ncap && NoRefs(b)
    ensures Ends(Results(x, Look(b, behind, negative), back, k, s), q) <==>
            Meets(x, Look(b, behind, negative), back, s.pos, q)
    decreases Look(b, behind, negative), 8, 0, 0
  {
    hide Results, Meets, Ends;
    ResultsLook(x, b, behind, negative, back, k, s);
    var inner := Results(x, b, behind, k, s);
    SameCursor(x, s.pos);
    LookSpells(x, b, behind, negative, back, s.pos, q);
    EndsOne(s, q);
    if |inner| > 0 {
      var t := inner[0];
      assert t in inner;
      EndAt(inner, t);
      EndsAre(x, b, behind, k, s, t.pos);
      EndsOne(St(s.pos, t.caps), q);
    }
    if m: nat :| Meets(x, b, behind, s.pos, m) {
      EndsAre(x, b, behind, k, s, m);
      var t := AtEnd(inner, m);
    }
  }

  lemma {:induction false} LookSpells(x: Ctx, b: Re, behind: bool, negative: bool, back: bool, p: nat, q: nat)
    ensures Meets(x, Look(b, behind, negative), back, p, q) <==>
            p == q && Between(x, p) && (exists m: nat :: Meets(x, b, behind, p, m)) != negative
  {
    LookUnfold(x, b, behind, negative, p);
    SomeMeets(x, b, behind, p);
    if p != q {
      LookStays(x, b, behind, negative, p, q);
      LookStays(x, b, behind, negative, q, p);
    }
  }

  lemma {:induction false} SomeMeets(x: Ctx, b: Re, behind: bool, p: nat)
    ensures SomeWhere(x, b, behind, p) <==> exists m: nat :: Meets(x, b, behind, p, m)
  {
    if SomeWhere(x, b, behind, p) {
      var m := SomeSplit(x, b, behind, p);
    }
    if m: nat :| Meets(x, b, behind, p, m) {
      assert if behind then Spells(x, b, m, p) else Spells(x, b, p, m);
      assert SomeWhere(x, b, behind, p);
    }
  }

  lemma {:induction false} SomeSplit(x: Ctx, b: Re, behind: bool, p: nat) returns (m: nat)
    requires SomeWhere(x, b, behind, p)
    ensures Meets(x, b, behind, p, m)
  {
    if behind {
      m :| Spells(x, b, m, p);
    } else {
      m :| Spells(x, b, p, m);
    }
  }

  lemma {:induction false} LookStays(x: Ctx, b: Re, behind: bool, negative: bool, p: nat, q: nat)
    requires p != q
    ensures !Spells(x, Look(b, behind, negative), p, q)
  {
  }

  lemma {:induction false} LookUnfold(x: Ctx, b: Re, behind: bool, negative: bool, p: nat)
    ensures Spells(x, Look(b, behind, negative), p, p) <==>
            Between(x, p) && SomeWhere(x, b, behind, p) != negative
  {
  }

  // ---------------------------------------------------------------- quantifiers

  lemma {:induction false} TimesEnds(x: Ctx, r: Re, back: bool, k: nat, n: nat, s: St, q: nat)
    requires StOk(x, s) && k + NumGroups(r) <= x.ncap && NoRefs(r)
    ensures Ends(Times(x, r, back, k, n, s), q) <==> MeetsTimes(x, r, back, n, s.pos, q)
    decreases r, 10, n, 1
  {
    hide Results, Meets, MeetsTimes, Ends, FlatMap, StOk;
    if n == 0 {
      SameCursor(x, s.pos);
      StOkBetween(x, s);
      EndsOne(s, q);
      MeetsNone(x, r, back, s.pos, q);
    } else {
      var all, f := Results(x, r, back, k, s), ThenTimes(r, k, n - 1);
      EndsFlatMap(x, back, s.pos, all, f, q);
      MeetsFirst(x, r, back, n, s.pos, q);
      if SomeContinues(x, back, s.pos, all, f, q) {
        var t :| t in all && StOk(x, t) && Toward(back, s.pos, t.pos) && Ends(Continue(x, back, s.pos, f, t), q);
        EndAt(all, t);
        EndsAre(x, r, back, k, s, t.pos);
        TimesEnds(x, r, back, k, n - 1, t, q);
      }
      if m: nat :| Meets(x, r, back, s.pos, m) && MeetsTimes(x, r, back, n - 1, m, q) {
        EndsAre(x, r, back, k, s, m);
        var t := AtEnd(all, m);
        TimesEnds(x, r, back, k, n - 1, t, q);
        assert Ends(Continue(x, back, s.pos, f, t), q);
      }
    }
  }

  lemma StOkBetween(x: Ctx, s: St)
    requires StOk(x, s)
    ensures Between(x, s.pos) && s.pos <= Len(x)
  {
    SameCursor(x, s.pos);
  }

  ghost predicate MeetsUpto(x: Ctx, r: Re, back: bool, n: nat, p: nat, q: nat) {
    exists j: nat :: j <= n && MeetsTimes(x, r, back, j, p, q)
  }

  ghost predicate MeetsAny(x: Ctx, r: Re, back: bool, p: nat, q: nat) {
    exists j: nat :: MeetsTimes(x, r, back, j, p, q)
  }

  lemma {:induction false} UptoEnds(x: Ctx, r: Re, back: bool, k: nat, n: nat, greedy: bool, s: St, q: nat)
    requires StOk(x, s) && k + NumGroups(r) <= x.ncap && NoRefs(r)
    ensures Ends(Upto(x, r, back, k, n, greedy, s), q) <==> MeetsUpto(x, r, back, n, s.pos, q)
    decreases r, 10, n, 1
  {
    hide Results, Meets, MeetsTimes, Ends, FlatMap, StOk;
    StOkBetween(x, s);
    EndsOne(s, q);
    MeetsNone(x, r, back, s.pos, q);
    if n > 0 {
      var all, f := Results(x, r, back, k, s), ThenUpto(r, k, n - 1, greedy);
      var more := FlatMap(x, back, s.pos, all, f);
      EndsFlatMap(x, back, s.pos, all, f, q);
      EndsConcat(more, [s], q);
      EndsConcat([s], more, q);
      if SomeContinues(x, back, s.pos, all, f, q) {
        UptoReached(x, r, back, k, n, greedy, s, q);
      }
      if j: nat :| j <= n && MeetsTimes(x, r, back, j, s.pos, q) {
        if j > 0 {
          UptoReaches(x, r, back, k, n, greedy, s, j, q);
        }
      }
    }
  }

  lemma {:induction false} UptoReached(x: Ctx, r: Re, back: bool, k: nat, n: nat, greedy: bool, s: St, q: nat)
    requires StOk(x, s) && k + NumGroups(r) <= x.ncap && NoRefs(r) && n > 0
    requires SomeContinues(x, back, s.pos, Results(x, r, back, k, s), ThenUpto(r, k, n - 1, greedy), q)
    ensures MeetsUpto(x, r, back, n, s.pos, q)
    decreases r, 10, n, 0
  {
    hide Results, Meets, MeetsTimes, Ends, FlatMap, StOk;
    var all, f := Results(x, r, back, k, s), ThenUpto(r, k, n - 1, greedy);
    var t :| t in all && StOk(x, t) && Toward(back, s.pos, t.pos) && Ends(Continue(x, back, s.pos, f, t), q);
    EndAt(all, t);
    EndsAre(x, r, back, k, s, t.pos);
    UptoEnds(x, r, back, k, n - 1, greedy, t, q);
    var j: nat :| j <= n - 1 && MeetsTimes(x, r, back, j, t.pos, q);
    MeetsFirst(x, r, back, j + 1, s.pos, q);
    assert MeetsTimes(x, r, back, j + 1, s.pos, q);
  }

  lemma {:induction false} UptoReaches(x: Ctx, r: Re, back: bool, k: nat, n: nat, greedy: bool, s: St, j: nat, q: nat)
    requires StOk(x, s) && k + NumGroups(r) <= x.ncap && NoRefs(r)
    requires 0 < j <= n && MeetsTimes(x, r, back, j, s.pos, q)
    ensures SomeContinues(x, back, s.pos, Results(x, r, back, k, s), ThenUpto(r, k, n - 1, greedy), q)
    decreases r, 10, n, 0
  {
    hide Results, Meets, MeetsTimes, Ends, FlatMap, StOk;
    MeetsFirst(x, r, back, j, s.pos, q);
    var m: nat :| Meets(x, r, back, s.pos, m) && MeetsTimes(x, r, back, j - 1, m, q);
    EndsAre(x, r, back, k, s, m);
    var t := AtEnd(Results(x, r, back, k, s), m);
    UptoEnds(x, r, back, k, n - 1, greedy, t, q);
    assert Ends(Continue(x, back, s.pos, ThenUpto(r, k, n - 1, greedy), t), q);
  }

  lemma {:induction false} StarEnds(x: Ctx, r: Re, back: bool, k: nat, greedy: bool, s: St, q: nat)
    requires StOk(x, s) && k + NumGroups(r) <= x.ncap && NoRefs(r)
    ensures Ends(Star(x, r, back, k, greedy, s), q) <==> MeetsAny(x, r, back, s.pos, q)
    decreases r, 10, Distance(x, back, s.pos), 1
  {
    hide Results, Meets, MeetsTimes, Ends, FlatMap;
    StOkBetween(x, s);
    EndsOne(s, q);
    MeetsNone(x, r, back, s.pos, q);
    var all, f := Results(x, r, back, k, s), ThenStar(r, k, greedy, s.pos);
    var more := FlatMap(x, back, s.pos, all, f);
    EndsFlatMap(x, back, s.pos, all, f, q);
    EndsConcat(more, [s], q);
    EndsConcat([s], more, q);
    if SomeContinues(x, back, s.pos, all, f, q) {
      var t :| t in all && StOk(x, t) && Toward(back, s.pos, t.pos) && Ends(Continue(x, back, s.pos, f, t), q);
      EndsOne(t, q);
      EndAt(all, t);
      EndsAre(x, r, back, k, s, t.pos);
      if t.pos != s.pos {
        StarEnds(x, r, back, k, greedy, t, q);
        var j: nat :| MeetsTimes(x, r, back, j, t.pos, q);
        MeetsFirst(x, r, back, j + 1, s.pos, q);
        assert MeetsTimes(x, r, back, j + 1, s.pos, q);
      }
    }
    if MeetsAny(x, r, back, s.pos, q) && q != s.pos {
      var j: nat :| MeetsTimes(x, r, back, j, s.pos, q);
      var m, l := MeetsMoving(x, r, back, j, s.pos, q);
      EndsAre(x, r, back, k, s, m);
      var t := AtEnd(all, m);
      StarEnds(x, r, back, k, greedy, t, q);
      assert Ends(Continue(x, back, s.pos, f, t), q);
    }
  }

  ghost predicate MeetsBetween(x: Ctx, r: Re, back: bool, min: nat, max: nat, p: nat, q: nat) {
    exists n: nat :: min <= n && (n <= max || max == 0x7fff_ffff) && MeetsTimes(x, r, back, n, p, q)
  }

  lemma {:induction false} QuantEnds(x: Ctx, b: Re, min: nat, max: nat, greedy: bool, back: bool, k: nat, s: St, q: nat)
    requires StOk(x, s) && k + NumGroups(b) <= x.ncap && NoRefs(b) && min <= max
    ensures Ends(Results(x, Quant(b, min, max, greedy), back, k, s), q) <==>
            Meets(x, Quant(b, min, max, greedy), back, s.pos, q)
    decreases Quant(b, min, max, greedy), 8, 0, 0
  {
    hide Results, Meets, MeetsTimes, Ends, FlatMap, Times, Star, Upto, StOk;
    ResultsQuant(x, b, min, max, greedy, back, k, s);
    QuantSpells(x, b, min, max, greedy, back, s.pos, q);
    var s0 := if min == 0 then Forget(x, k, NumGroups(b), s) else s;
    var all, f := Times(x, b, back, k, min, s0), Rest(b, k, min, max, greedy);
    EndsFlatMap(x, back, s.pos, all, f, q);
    if SomeContinues(x, back, s.pos, all, f, q) {
      var t :| t in all && StOk(x, t) && Toward(back, s.pos, t.pos) && Ends(Continue(x, back, s.pos, f, t), q);
      EndAt(all, t);
      TimesEnds(x, b, back, k, min, s0, t.pos);
      RestEnds(x, b, min, max, greedy, back, k, s.pos, t, q);
      var j: nat :| (j <= max - min || max == 0x7fff_ffff) && MeetsTimes(x, b, back, j, t.pos, q);
      MeetsSum(x, b, back, min, j, s.pos, q);
      assert MeetsTimes(x, b, back, min + j, s.pos, q);
    }
    if n: nat :| min <= n && (n <= max || max == 0x7fff_ffff) && MeetsTimes(x, b, back, n, s.pos, q) {
      MeetsSum(x, b, back, min, n - min, s.pos, q);
      var m: nat :| MeetsTimes(x, b, back, min, s.pos, m) && MeetsTimes(x, b, back, n - min, m, q);
      TimesEnds(x, b, back, k, min, s0, m);
      var t := AtEnd(all, m);
      RestEnds(x, b, min, max, greedy, back, k, s.pos, t, q);
    }
  }

  /** The iterations beyond the mandatory ones. */
  lemma {:induction false} RestEnds(x: Ctx, b: Re, min: nat, max: nat, greedy: bool, back: bool, k: nat, p: nat, t: St,
                                    q: nat)
    requires StOk(x, t) && k + NumGroups(b) <= x.ncap && NoRefs(b) && min <= max && Toward(back, p, t.pos)
    ensures Ends(Continue(x, back, p, Rest(b, k, min, max, greedy), t), q) <==>
            exists j: nat :: (j <= max - min || max == 0x7fff_ffff) && MeetsTimes(x, b, back, j, t.pos, q)
    decreases b, 11, 0, 0
  {
    hide MeetsTimes, Ends, Star, Upto, StOk;
    if max == 0x7fff_ffff {
      StarEnds(x, b, back, k, greedy, t, q);
    } else {
      UptoEnds(x, b, back, k, max - min, greedy, t, q);
    }
  }

  lemma {:induction false} QuantSpells(x: Ctx, b: Re, min: nat, max: nat, greedy: bool, back: bool, p: nat, q: nat)
    ensures Meets(x, Quant(b, min, max, greedy), back, p, q) <==> MeetsBetween(x, b, back, min, max, p, q)
  {
    hide Spells, Repeats;
    var from, to := if back then q else p, if back then p else q;
    if Meets(x, Quant(b, min, max, greedy), back, p, q) {
      var n := QuantSplit(x, b, min, max, greedy, from, to);
      assert MeetsTimes(x, b, back, n, p, q);
    }
    if MeetsBetween(x, b, back, min, max, p, q) {
      var n: nat :| min <= n && (n <= max || max == 0x7fff_ffff) && MeetsTimes(x, b, back, n, p, q);
      QuantFold(x, b, min, max, greedy, n, from, to);
    }
  }

  lemma {:induction false} QuantSplit(x: Ctx, b: Re, min: nat, max: nat, greedy: bool, p: nat, q: nat) returns (n: nat)
    requires Spells(x, Quant(b, min, max, greedy), p, q)
    ensures min <= n && (n <= max || max == 0x7fff_ffff) && Repeats(x, b, n, p, q)
  {
    n :| min <= n && (n <= max || max == 0x7fff_ffff) && Repeats(x, b, n, p, q);
  }

  lemma {:induction false} QuantFold(x: Ctx, b: Re, min: nat, max: nat, greedy: bool, n: nat, p: nat, q: nat)
    requires min <= n && (n <= max || max == 0x7fff_ffff) && Repeats(x, b, n, p, q)
    ensures Spells(x, Quant(b, min, max, greedy), p, q)
  {
    assert Between(x, p) && Between(x, q);
    assert exists n: nat :: min <= n && (n <= max || max == 0x7fff_ffff) && Repeats(x, b, n, p, q);
  }

  // ---------------------------------------------------------------- the whole match

  /** Where a match may start. */
  predicate MayStart(sticky: bool, start: nat, q: nat) {
    start <= q && (sticky ==> q == start)
  }

  ghost predicate Matches(x: Ctx, r: Re, sticky: bool, start: nat) {
    exists q: nat, e: nat :: MayStart(sticky, start, q) && Spells(x, r, q, e)
  }

  /** The pattern matches from `q` to `e`, and nothing from any earlier start. */
  ghost predicate Leftmost(x: Ctx, r: Re, sticky: bool, start: nat, q: int, e: int) {
    0 <= q && 0 <= e && MayStart(sticky, start, q) && Spells(x, r, q, e) &&
    forall p: nat, d: nat :: start <= p < q ==> !Spells(x, r, p, d)
  }

  /** The search finds a match if and only if there is one, and then one that starts first; capture 0 is a stretch
      that the pattern matches. */
  lemma {:induction false} FirstMatchMeans(x: Ctx, r: Re, sticky: bool, start: nat)
    requires Boundary(x.subject, start) && 1 + NumGroups(r) <= x.ncap && NoRefs(r)
    ensures var m := FirstMatch(x, r, sticky, start);
            (|m| > 0 <==> Matches(x, r, sticky, start)) &&
            (|m| > 0 ==> |m[0].caps| == 2 * x.ncap && Leftmost(x, r, sticky, start, m[0].caps[0], m[0].caps[1]))
    decreases Len(x) - start
  {
    hide Results, Spells, Boundary;
    var here := Results(x, Group(r), false, 0, St(start, NoCaps(x.ncap)));
    if |here| > 0 {
      HereMatches(x, r, start, here[0]);
    } else {
      forall e: nat
        ensures !Spells(x, r, start, e)
      {
        HereFails(x, r, start, e);
      }
      if sticky || start == Len(x) {
        NothingLater(x, r, start);
      } else {
        NextPrev(x.subject, start);
        FirstMatchMeans(x, r, sticky, NextPos(x.subject, start));
        NothingInside(x, r, start);
      }
    }
  }

  lemma {:induction false} HereMatches(x: Ctx, r: Re, start: nat, t: St)
    requires Boundary(x.subject, start) && 1 + NumGroups(r) <= x.ncap && NoRefs(r)
    requires t in Results(x, Group(r), false, 0, St(start, NoCaps(x.ncap)))
    ensures |t.caps| == 2 * x.ncap && t.caps[0] == start && t.caps[1] == t.pos && Spells(x, r, start, t.pos)
  {
    hide Results, Spells, Ends, StOk, NoCaps, Kept, Live, LeaveAll;
    var s := St(start, NoCaps(x.ncap));
    NoCapsFine(x, start);
    EndAt(Results(x, Group(r), false, 0, s), t);
    EndsAre(x, Group(r), false, 0, s, t.pos);
    GroupSpells(x, r, false, start, t.pos);
    ResultsGroup(x, r, false, 0, s);
    GroupKept(x, r, false, 0, s, t);
    ResultCaps(x, Group(r), s, t);
  }

  lemma NoCapsFine(x: Ctx, start: nat)
    requires Boundary(x.subject, start)
    ensures StOk(x, St(start, NoCaps(x.ncap)))
  {
  }

  lemma {:induction false} ResultCaps(x: Ctx, r: Re, s: St, t: St)
    requires StOk(x, s) && NumGroups(r) <= x.ncap && t in Results(x, r, false, 0, s)
    ensures |t.caps| == 2 * x.ncap
  {
    hide Results;
  }

  lemma {:induction false} HereFails(x: Ctx, r: Re, start: nat, e: nat)
    requires Boundary(x.subject, start) && 1 + NumGroups(r) <= x.ncap && NoRefs(r)
    requires |Results(x, Group(r), false, 0, St(start, NoCaps(x.ncap)))| == 0
    ensures !Spells(x, r, start, e)
  {
    hide Results, Spells;
    EndsAre(x, Group(r), false, 0, St(start, NoCaps(x.ncap)), e);
    GroupSpells(x, r, false, start, e);
  }

  lemma {:induction false} NothingLater(x: Ctx, r: Re, start: nat)
    requires start == Len(x) ==> forall e: nat :: !Spells(x, r, start, e)
    ensures start == Len(x) ==> forall q: nat, e: nat :: start <= q ==> !Spells(x, r, q, e)
  {
    hide Spells;
    forall q: nat, e: nat | start == Len(x) && start <= q
      ensures !Spells(x, r, q, e)
    {
      if Spells(x, r, q, e) {
        SpellsSpan(x, r, q, e);
      }
    }
  }

  /** No match starts inside a character. */
  lemma {:induction false} NothingInside(x: Ctx, r: Re, start: nat)
    requires start < Len(x)
    ensures forall q: nat, e: nat :: start < q < NextPos(x.subject, start) ==> !Spells(x, r, q, e)
  {
    hide Spells;
    forall q: nat, e: nat | start < q < NextPos(x.subject, start)
      ensures !Spells(x, r, q, e)
    {
      SameCharacter(x, start);
      if Spells(x, r, q, e) {
        SpellsSpan(x, r, q, e);
      }
    }
  }

  /** A single character is found in a subject of one unit if and only if it is that unit or, when case is ignored,
      has the same image under the map. */
  lemma {:induction false} OneCharacter(x: Ctx, c: Unit, d: nat, sticky: bool)
    requires x.subject.units == [c] && 1 <= x.ncap
    ensures |FirstMatch(x, Char(d), sticky, 0)| > 0 <==>
            c == d || (x.opts.ignoreCase && (if c in x.opts.canon then x.opts.canon[c] else c) ==
                                            (if d in x.opts.canon then x.opts.canon[d] else d))
  {
    hide FirstMatch;
    var r := Char(d);
    assert NumGroups(r) == 0;
    FirstMatchMeans(x, r, sticky, 0);
    assert CodePoint(x, 0) == c;
    if Takes(x.opts, r, c) {
      assert MayStart(sticky, 0, 0) && Spells(x, r, 0, 1);
    }
  }

  // ---------------------------------------------------------------- preference

  predicate Decreasing(all: seq<St>) {
    forall i, j :: 0 <= i < j < |all| ==> all[i].pos > all[j].pos
  }

  predicate Rising(all: seq<St>) {
    forall i, j :: 0 <= i < j < |all| ==> all[i].pos < all[j].pos
  }

  /** A greedy quantifier goes far first, a lazy one near. */
  predicate Preferred(back: bool, greedy: bool, all: seq<St>) {
    if greedy == back then Rising(all) else Decreasing(all)
  }

  predicate Single(r: Re) {
    r.Char? || r.Set? || r.Dot?
  }

  lemma {:induction false} AtMostOne(x: Ctx, r: Re, back: bool, k: nat, s: St)
    requires Single(r) && StOk(x, s) && k <= x.ncap
    ensures var all := Results(x, r, back, k, s);
            all == [] || (all == [all[0]] && StOk(x, all[0]) && Toward(back, s.pos, all[0].pos) && all[0].pos != s.pos)
  {
    var all := Results(x, r, back, k, s);
    if |all| > 0 {
      assert all[0] in all;
    }
  }

  lemma {:induction false} TimesAtMostOne(x: Ctx, r: Re, back: bool, k: nat, n: nat, s: St)
    requires Single(r) && StOk(x, s) && k <= x.ncap
    ensures |Times(x, r, back, k, n, s)| <= 1
    decreases n
  {
    hide Results, FlatMap, StOk;
    if n > 0 {
      AtMostOne(x, r, back, k, s);
      var all := Results(x, r, back, k, s);
      if all == [] {
        NothingOn(x, back, s.pos, ThenTimes(r, k, n - 1));
      } else {
        SingleOn(x, back, s.pos, all[0], ThenTimes(r, k, n - 1));
        TimesAtMostOne(x, r, back, k, n - 1, all[0]);
      }
    }
  }

  lemma {:induction false} NothingOn(x: Ctx, back: bool, p: nat, f: Cont)
    requires ContOk(x, f, p)
    ensures FlatMap(x, back, p, [], f) == []
  {
  }

  lemma {:induction false} SingleOn(x: Ctx, back: bool, p: nat, t: St, f: Cont)
    requires StOk(x, t) && Toward(back, p, t.pos) && ContOk(x, f, p)
    ensures FlatMap(x, back, p, [t], f) == Continue(x, back, p, f, t)
  {
    hide Continue, StOk;
    assert [t][1..] == [];
    NothingOn(x, back, p, f);
  }

  /** Farther results in front of, or behind, the nearest one. */
  lemma JoinPreferred(x: Ctx, back: bool, greedy: bool, s: St, t: St, more: seq<St>)
    requires Preferred(back, greedy, more) && Good(x, back, t.pos, more) && Toward(back, s.pos, t.pos) && t.pos != s.pos
    ensures Preferred(back, greedy, if greedy then more + [s] else [s] + more)
  {
    hide StOk;
    forall i | 0 <= i < |more|
      ensures if back then more[i].pos < s.pos else s.pos < more[i].pos
    {
      assert more[i] in more;
    }
  }

  lemma {:induction false} UptoPreferred(x: Ctx, r: Re, back: bool, k: nat, n: nat, greedy: bool, s: St)
    requires Single(r) && StOk(x, s) && k <= x.ncap
    ensures Preferred(back, greedy, Upto(x, r, back, k, n, greedy, s))
    decreases n
  {
    hide Results, FlatMap, StOk, Good;
    if n > 0 {
      AtMostOne(x, r, back, k, s);
      var all, f := Results(x, r, back, k, s), ThenUpto(r, k, n - 1, greedy);
      if all == [] {
        NothingOn(x, back, s.pos, f);
      } else {
        SingleOn(x, back, s.pos, all[0], f);
        UptoPreferred(x, r, back, k, n - 1, greedy, all[0]);
        JoinPreferred(x, back, greedy, s, all[0], Upto(x, r, back, k, n - 1, greedy, all[0]));
      }
    }
  }

  lemma {:induction false} StarPreferred(x: Ctx, r: Re, back: bool, k: nat, greedy: bool, s: St)
    requires Single(r) && StOk(x, s) && k <= x.ncap
    ensures Preferred(back, greedy, Star(x, r, back, k, greedy, s))
    decreases Distance(x, back, s.pos)
  {
    hide Results, FlatMap, Good;
    AtMostOne(x, r, back, k, s);
    var all, f := Results(x, r, back, k, s), ThenStar(r, k, greedy, s.pos);
    if all == [] {
      NothingOn(x, back, s.pos, f);
    } else {
      SingleOn(x, back, s.pos, all[0], f);
      StarPreferred(x, r, back, k, greedy, all[0]);
      JoinPreferred(x, back, greedy, s, all[0], Star(x, r, back, k, greedy, all[0]));
    }
  }

  lemma {:induction false} QuantPreferred(x: Ctx, b: Re, min: nat, max: nat, greedy: bool, back: bool, k: nat, s: St)
    requires Single(b) && StOk(x, s) && k + NumGroups(b) <= x.ncap
    ensures Preferred(back, greedy, Results(x, Quant(b, min, max, greedy), back, k, s))
  {
    hide Results, FlatMap, Times, Star, Upto, Preferred;
    assert NumGroups(b) == 0;
    ResultsQuant(x, b, min, max, greedy, back, k, s);
    var s0 := if min == 0 then Forget(x, k, NumGroups(b), s) else s;
    var all, f := Times(x, b, back, k, min, s0), Rest(b, k, min, max, greedy);
    TimesAtMostOne(x, b, back, k, min, s0);
    if |all| == 0 {
      assert all == [];
      NothingOn(x, back, s.pos, f);
      NonePreferred(back, greedy);
    } else {
      var t := all[0];
      assert t in all && all == [t];
      SingleOn(x, back, s.pos, t, f);
      if max == INT32_MAX {
        StarPreferred(x, b, back, k, greedy, t);
      } else {
        UptoPreferred(x, b, back, k, if max >= min then max - min else 0, greedy, t);
      }
    }
  }

  lemma NonePreferred(back: bool, greedy: bool)
    ensures Preferred(back, greedy, [])
  {
  }

  /** Of a repeated single character the greedy quantifier offers the longest stretch first, the lazy one the
      shortest. */
  lemma {:induction false} LongestFirst(x: Ctx, b: Re, min: nat, max: nat, greedy: bool, k: nat, s: St, q: nat)
    requires Single(b) && StOk(x, s) && k + NumGroups(b) <= x.ncap && min <= max
    requires Spells(x, Quant(b, min, max, greedy), s.pos, q)
    ensures var all := Results(x, Quant(b, min, max, greedy), false, k, s);
            |all| > 0 && if greedy then q <= all[0].pos else all[0].pos <= q
  {
    hide Results, Spells;
    var r := Quant(b, min, max, greedy);
    var all := Results(x, r, false, k, s);
    EndsAre(x, r, false, k, s, q);
    QuantPreferred(x, b, min, max, greedy, false, k, s);
    var t := AtEnd(all, q);
    var i :| 0 <= i < |all| && all[i] == t;
  }

  // ---------------------------------------------------------------- captures that are read or forgotten

  predicate SameImages(o: Opts, a: seq<Unit>, b: seq<Unit>) {
    |a| == |b| && forall j :: 0 <= j < |a| ==> Image(o, a[j]) == Image(o, b[j])
  }

  /** In a subject of single units: `n` units from `i` on stand again from `p` on, image for image. */
  predicate Recurs(x: Ctx, i: nat, n: nat, p: nat) {
    var u := x.subject.units;
    i + n <= |u| && p + n <= |u| && SameImages(x.opts, u[i..i + n], u[p..p + n])
  }

  lemma SameImage(o: Opts, c: nat)
    ensures Canon(o, c) == Image(o, c)
  {
  }

  lemma SameImagesFront(o: Opts, a: seq<Unit>, b: seq<Unit>)
    requires |a| == |b| > 0
    ensures SameImages(o, a, b) <==> Image(o, a[0]) == Image(o, b[0]) && SameImages(o, a[1..], b[1..])
  {
    hide Image;
    if SameImages(o, a[1..], b[1..]) && Image(o, a[0]) == Image(o, b[0]) {
      forall j | 0 <= j < |a|
        ensures Image(o, a[j]) == Image(o, b[j])
      {
        assert j > 0 ==> a[j] == a[1..][j - 1] && b[j] == b[1..][j - 1];
      }
    }
  }

  lemma SameImagesBack(o: Opts, a: seq<Unit>, b: seq<Unit>)
    requires |a| == |b| > 0
    ensures var n := |a| - 1;
            SameImages(o, a, b) <==> Image(o, a[n]) == Image(o, b[n]) && SameImages(o, a[..n], b[..n])
  {
    hide Image;
    var n := |a| - 1;
    if SameImages(o, a[..n], b[..n]) && Image(o, a[n]) == Image(o, b[n]) {
      forall j | 0 <= j < |a|
        ensures Image(o, a[j]) == Image(o, b[j])
      {
        assert j < n ==> a[j] == a[..n][j] && b[j] == b[..n][j];
      }
    }
  }

  lemma RecursNone(x: Ctx, i: nat, p: nat)
    requires i <= Len(x) && p <= Len(x)
    ensures Recurs(x, i, 0, p)
  {
    assert x.subject.units[i..i] == [] == x.subject.units[p..p];
  }

  lemma Slices(u: seq<Unit>, i: nat, n: nat)
    requires n > 0 && i + n <= |u|
    ensures u[i..i + n][1..] == u[i + 1..i + 1 + (n - 1)] && u[i..i + n][..n - 1] == u[i..i + (n - 1)]
    ensures u[i..i + n][0] == u[i] && u[i..i + n][n - 1] == u[i + n - 1]
  {
  }

  /** The first of the units. */
  lemma RecursFront(x: Ctx, i: nat, n: nat, p: nat)
    requires n > 0 && i + n <= Len(x) && p < Len(x)
    ensures var u := x.subject.units;
            Recurs(x, i, n, p) <==> Image(x.opts, u[i]) == Image(x.opts, u[p]) && Recurs(x, i + 1, n - 1, p + 1)
  {
    hide Image, SameImages;
    var u := x.subject.units;
    if p + n <= Len(x) {
      var a, b := u[i..i + n], u[p..p + n];
      SameImagesFront(x.opts, a, b);
      Slices(u, i, n);
      Slices(u, p, n);
    }
  }

  /** The last of the units. */
  lemma RecursBack(x: Ctx, i: nat, n: nat, p: nat)
    requires n > 0 && i + n <= Len(x) && p + n <= Len(x)
    ensures var u := x.subject.units;
            Recurs(x, i, n, p) <==>
            Image(x.opts, u[i + n - 1]) == Image(x.opts, u[p + n - 1]) && Recurs(x, i, n - 1, p)
  {
    hide Image, SameImages;
    var u := x.subject.units;
    var a, b := u[i..i + n], u[p..p + n];
    SameImagesBack(x.opts, a, b);
    Slices(u, i, n);
    Slices(u, p, n);
  }

  lemma {:induction false} RepeatedMeans(x: Ctx, i: nat, e: nat, p: nat)
    requires !x.subject.utf16 && i <= e <= Len(x) && p <= Len(x)
    ensures Repeated(x, i, e, p) == if Recurs(x, i, e - i, p) then p + (e - i) else NULL
    decreases e - i
  {
    hide Image, Recurs, Canon;
    if i == e {
      RecursNone(x, i, p);
    } else if p < Len(x) {
      SameImage(x.opts, x.subject.units[i]);
      SameImage(x.opts, x.subject.units[p]);
      RepeatedMeans(x, i + 1, e, p + 1);
      RecursFront(x, i, e - i, p);
    } else {
      RecursNot(x, i, e - i, p);
    }
  }

  lemma RecursNot(x: Ctx, i: nat, n: nat, p: nat)
    requires p + n > Len(x)
    ensures !Recurs(x, i, n, p)
  {
  }

  lemma {:induction false} BeforeStep(x: Ctx, b: nat, i: nat, p: nat)
    requires !x.subject.utf16 && b <= i <= Len(x) && p <= Len(x)
    ensures RepeatedBefore(x, b, i, p) ==
            if i == b then p
            else if p == 0 || Canon(x.opts, x.subject.units[i - 1]) != Canon(x.opts, x.subject.units[p - 1]) then NULL
            else RepeatedBefore(x, b, i - 1, p - 1)
  {
    hide Canon;
  }

  lemma {:induction false} RepeatedBeforeMeans(x: Ctx, b: nat, i: nat, p: nat)
    requires !x.subject.utf16 && b <= i <= Len(x) && p <= Len(x)
    ensures RepeatedBefore(x, b, i, p) == if i - b <= p && Recurs(x, b, i - b, p - (i - b)) then p - (i - b) else NULL
    decreases i
  {
    hide Image, Recurs, RepeatedBefore, Canon;
    BeforeStep(x, b, i, p);
    var n := i - b;
    if n == 0 {
      RecursNone(x, b, p);
    } else if p > 0 {
      SameImage(x.opts, x.subject.units[i - 1]);
      SameImage(x.opts, x.subject.units[p - 1]);
      RepeatedBeforeMeans(x, b, i - 1, p - 1);
      if n <= p {
        RecursBack(x, b, n, p - n);
      }
    }
  }

  /** A back reference to a capture that has taken part matches its text again, in either direction; else the empty
      text. */
  lemma {:induction false} BackRefMeans(x: Ctx, g: nat, back: bool, k: nat, s: St, q: nat)
    requires !x.subject.utf16 && StOk(x, s) && g < x.ncap && k <= x.ncap
    requires s.caps[2 * g] != NULL && s.caps[2 * g + 1] != NULL ==> s.caps[2 * g] <= s.caps[2 * g + 1]
    ensures Ends(Results(x, BackRef(g), back, k, s), q) <==>
            if s.caps[2 * g] == -1 || s.caps[2 * g + 1] == -1 then q == s.pos
            else
              var n := s.caps[2 * g + 1] - s.caps[2 * g];
              if back then q + n == s.pos && Recurs(x, s.caps[2 * g], n, q)
              else q == s.pos + n && Recurs(x, s.caps[2 * g], n, s.pos)
  {
    hide Ends, Recurs, Repeated, RepeatedBefore;
    var from, to := s.caps[2 * g], s.caps[2 * g + 1];
    EndsOne(s, q);
    if from != NULL && to != NULL {
      RepeatedMeans(x, from, to, s.pos);
      RepeatedBeforeMeans(x, from, to, s.pos);
      EndsOne(St(s.pos + (to - from), s.caps), q);
      if to - from <= s.pos {
        EndsOne(St(s.pos - (to - from), s.caps), q);
      }
    }
  }

  /** A quantifier that may be left out can be, as its last choice when greedy, as its first when lazy; the groups
      of its body are forgotten, all other captures kept. */
  lemma {:induction false} LeftOut(x: Ctx, b: Re, max: nat, greedy: bool, back: bool, k: nat, s: St)
    requires StOk(x, s) && k + NumGroups(b) <= x.ncap
    ensures var all := Results(x, Quant(b, 0, max, greedy), back, k, s);
            |all| > 0 &&
            var t := if greedy then all[|all| - 1] else all[0];
            t.pos == s.pos && |t.caps| == |s.caps| &&
            forall i :: 0 <= i < |s.caps| ==>
                          t.caps[i] == if 2 * k <= i < 2 * (k + NumGroups(b)) then -1 else s.caps[i]
  {
    hide Results, FlatMap, StOk;
    ResultsQuant(x, b, 0, max, greedy, back, k, s);
    var s0 := Forget(x, k, NumGroups(b), s);
    SingleOn(x, back, s.pos, s0, Rest(b, k, 0, max, greedy));
  }

  /** A positive lookaround gives the cursor back and keeps the captures of the first result of its body; a negative
      one gives back the state itself, exactly when its body has no result. */
  lemma {:induction false} LookMeans(x: Ctx, b: Re, behind: bool, negative: bool, back: bool, k: nat, s: St)
    requires StOk(x, s) && k + NumGroups(b) <= x.ncap
    ensures var inner := Results(x, b, behind, k, s);
            Results(x, Look(b, behind, negative), back, k, s) ==
            if negative then if |inner| == 0 then [s] else []
            else if |inner| == 0 then [] else [St(s.pos, inner[0].caps)]
  {
    hide Results;
    ResultsLook(x, b, behind, negative, back, k, s);
  }
}
