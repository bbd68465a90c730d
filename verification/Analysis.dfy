/** What the two analyses of emitted code, `re_check_advance` and `re_is_simple_quantifier`, say about
    the pattern the code came from. */
module Analysis {
  import opened Regex
  import opened Matcher
  import opened Machine
  import opened Codegen

  // ---------------------------------------------------------------- the first effect

  lemma {:induction false} FirstEffectConcat(a: seq<Instr>, b: seq<Instr>)
    ensures FirstEffect(a + b) == if FirstEffect(a) == UNKNOWN then FirstEffect(b) else FirstEffect(a)
  {
    if a == [] {
      assert a + b == b;
    } else {
      assert (a + b)[1..] == a[1..] + b;
      FirstEffectConcat(a[1..], b);
    }
  }

  lemma {:induction false} FirstEffectCons(i: Instr, a: seq<Instr>)
    ensures FirstEffect([i] + a) == if Reads(i) then 1 else if NoEffect(i) then FirstEffect(a) else 0
  {
    assert ([i] + a)[1..] == a;
  }

  /** Code whose first effect is to read a character belongs to a pattern that always advances. */
  lemma {:induction false} FirstEffectSound(o: Opts, r: Re, back: bool, k: nat)
    requires Parsed(r)
    ensures FirstEffect(Code(o, r, back, k)) == 1 ==> Advances(r)
    decreases r
  {
    hide Code, QuantCode, AltCode, LookCode, FirstEffect;
    match r {
      case Cat(a, b) =>
        CodeCat(o, a, b, back, k);
        FirstEffectSound(o, a, back, k);
        FirstEffectSound(o, b, back, k + NumGroups(a));
        CatEffect(Code(o, a, back, k), Code(o, b, back, k + NumGroups(a)));
      case Alt(a, b) =>
        CodeAlt(o, a, b, back, k);
        AltEffect(Code(o, a, back, k), Code(o, b, back, k + NumGroups(a)));
      case Group(b) =>
        CodeGroup(o, b, back, k);
        GroupEffect(k, Code(o, b, back, k + 1), back);
        FirstEffectSound(o, b, back, k + 1);
      case Look(b, behind, negative) =>
        CodeLook(o, b, behind, negative, back, k);
        LookEffect(Code(o, b, behind, k), negative);
      case Quant(b, min, max, greedy) =>
        CodeQuant(o, b, min, max, greedy, back, k);
        QuantEffect(Code(o, b, back, k), k, NumGroups(b), min, max, greedy);
        FirstEffectSound(o, b, back, k);
      case _ => LeafEffect(o, r, back, k);
    }
  }

  lemma {:induction false} LeafEffect(o: Opts, r: Re, back: bool, k: nat)
    requires !r.Cat? && !r.Alt? && !r.Group? && !r.Look? && !r.Quant?
    ensures FirstEffect(Code(o, r, back, k)) == 1 ==> Advances(r)
  {
    match r {
      case LineStart => FirstEffectOne(ILineStart);
      case LineEnd => FirstEffectOne(ILineEnd);
      case WordBoundary(negated) => FirstEffectOne(IWordBoundary(negated));
      case BackRef(g) => FirstEffectOne(if back then IBackwardBackRef(g) else IBackRef(g));
      case _ =>
    }
  }

  lemma {:induction false} CatEffect(a: seq<Instr>, b: seq<Instr>)
    ensures FirstEffect(a + b) == 1 ==> FirstEffect(a) == 1 || FirstEffect(b) == 1
    ensures FirstEffect(b + a) == 1 ==> FirstEffect(a) == 1 || FirstEffect(b) == 1
  {
    FirstEffectConcat(a, b);
    FirstEffectConcat(b, a);
  }

  lemma FirstEffectOne(i: Instr)
    ensures FirstEffect([i]) == if Reads(i) then 1 else if NoEffect(i) then UNKNOWN else 0
  {
    assert [i][1..] == [];
  }

  lemma {:induction false} GroupEffect(k: nat, body: seq<Instr>, back: bool)
    ensures FirstEffect([ISaveStart(k)] + body + [ISaveEnd(k)]) == FirstEffect(body)
    ensures FirstEffect([ISaveEnd(k)] + body + [ISaveStart(k)]) == FirstEffect(body)
  {
    FirstEffectConcat(body, [ISaveEnd(k)]);
    FirstEffectConcat(body, [ISaveStart(k)]);
    FirstEffectCons(ISaveStart(k), body + [ISaveEnd(k)]);
    FirstEffectCons(ISaveEnd(k), body + [ISaveStart(k)]);
    FirstEffectCons(ISaveEnd(k), []);
    FirstEffectCons(ISaveStart(k), []);
    assert [ISaveStart(k)] + body + [ISaveEnd(k)] == [ISaveStart(k)] + (body + [ISaveEnd(k)]);
    assert [ISaveEnd(k)] + body + [ISaveStart(k)] == [ISaveEnd(k)] + (body + [ISaveStart(k)]);
  }

  /** Branching code never starts with a read. */
  lemma {:induction false} BranchEffect(i: Instr, rest: seq<Instr>)
    requires !Reads(i) && !NoEffect(i)
    ensures FirstEffect([i] + rest) == 0
  {
    FirstEffectCons(i, rest);
  }

  lemma AltEffect(a: seq<Instr>, b: seq<Instr>)
    ensures FirstEffect(AltCode(a, b)) == 0
  {
    assert AltCode(a, b) == [ISplitNextFirst(|a| + 1)] + (a + [IGoto(|b|)] + b);
    BranchEffect(ISplitNextFirst(|a| + 1), a + [IGoto(|b|)] + b);
  }

  lemma LookEffect(body: seq<Instr>, negative: bool)
    ensures FirstEffect(LookCode(body, negative)) == 0
  {
    var i := if negative then INegLook(|body| + 1) else ILook(|body| + 1);
    assert LookCode(body, negative) == [i] + (body + [IMatch]);
    BranchEffect(i, body + [IMatch]);
  }

  lemma StarEffect(body: seq<Instr>, check: bool, greedy: bool)
    ensures FirstEffect(StarCode(body, check, greedy)) == 0
  {
    var code := StarCode(body, check, greedy);
    assert code == [code[0]] + code[1..];
    BranchEffect(code[0], code[1..]);
  }

  lemma UptoEffect(body: seq<Instr>, n: nat, greedy: bool)
    ensures FirstEffect(UptoCode(body, n, greedy)) == 0
  {
    var code := UptoCode(body, n, greedy);
    assert code == [code[0]] + ([code[1]] + code[2..]);
    FirstEffectCons(code[0], [code[1]] + code[2..]);
    BranchEffect(code[1], code[2..]);
  }

  lemma {:induction false} ExactEffect(body: seq<Instr>, n: nat)
    ensures FirstEffect(ExactCode(body, n)) == 1 ==> FirstEffect(body) == 1
  {
    var tail := [ILoop(-(|body| + 1)), IDrop];
    assert ExactCode(body, n) == [IPushI32(n)] + (body + tail);
    FirstEffectCons(IPushI32(n), body + tail);
    FirstEffectConcat(body, tail);
    assert tail == [tail[0]] + [IDrop];
    BranchEffect(tail[0], [IDrop]);
  }

  /** Code that starts with a reset, if anything, and then branches has no read as its first effect. */
  lemma OptionalEffect(body: seq<Instr>, k: nat, n: nat, max: nat, check: bool, greedy: bool)
    ensures FirstEffect(ResetCode(k, n)) == UNKNOWN
    ensures FirstEffect(ResetCode(k, n) + OptionCode(body, greedy)) == 0
    ensures FirstEffect(ResetCode(k, n) + StarCode(body, check, greedy)) == 0
    ensures FirstEffect(ResetCode(k, n) + UptoCode(body, max, greedy)) == 0
  {
    ResetEffect(k, n);
    BranchEffect(Branch(greedy, |body|), body);
    StarEffect(body, check, greedy);
    UptoEffect(body, max, greedy);
    FirstEffectConcat(ResetCode(k, n), OptionCode(body, greedy));
    FirstEffectConcat(ResetCode(k, n), StarCode(body, check, greedy));
    FirstEffectConcat(ResetCode(k, n), UptoCode(body, max, greedy));
  }

  lemma {:induction false} PlusEffect(body: seq<Instr>, greedy: bool)
    ensures FirstEffect(PlusCode(body, greedy)) == 1 ==> FirstEffect(body) == 1
  {
    var back := PlusBranch(|body|, greedy);
    FirstEffectConcat(body, [back]);
    BranchEffect(back, []);
    assert [back] + [] == [back];
  }

  lemma {:induction false} MandatoryEffect(body: seq<Instr>, first: seq<Instr>, n: nat, check: bool, greedy: bool)
    requires FirstEffect(first) == 1 ==> FirstEffect(body) == 1
    ensures FirstEffect(first + StarCode(body, check, greedy)) == 1 ==> FirstEffect(body) == 1
    ensures FirstEffect(first + UptoCode(body, n, greedy)) == 1 ==> FirstEffect(body) == 1
  {
    StarEffect(body, check, greedy);
    UptoEffect(body, n, greedy);
    FirstEffectConcat(first, StarCode(body, check, greedy));
    FirstEffectConcat(first, UptoCode(body, n, greedy));
  }

  lemma {:induction false} QuantEffect(body: seq<Instr>, k: nat, n: nat, min: nat, max: nat, greedy: bool)
    requires min <= max
    ensures FirstEffect(QuantCode(body, k, n, min, max, greedy)) == 1 ==> min > 0 && FirstEffect(body) == 1
  {
    var check := greedy && CheckAdvance(body) == 0;
    OptionalEffect(body, k, n, max, check, greedy);
    assert ResetCode(k, n) + [] == ResetCode(k, n);
    PlusEffect(body, greedy);
    ExactEffect(body, min);
    var first := if min == 1 then body else ExactCode(body, min);
    assert first + [] == first;
    MandatoryEffect(body, first, if max > min then max - min else 0, check, greedy);
  }

  lemma ResetEffect(k: nat, n: nat)
    ensures FirstEffect(ResetCode(k, n)) == UNKNOWN
  {
    if n > 0 {
      assert ResetCode(k, n)[1..] == [];
    }
  }

  // ---------------------------------------------------------------- simple code

  lemma {:induction false} SimpleCountConcat(a: seq<Instr>, b: seq<Instr>)
    ensures SimpleCount(a + b) ==
            if SimpleCount(a) < 0 || SimpleCount(b) < 0 then -1 else SimpleCount(a) + SimpleCount(b)
  {
    if a == [] {
      assert a + b == b;
    } else {
      assert (a + b)[1..] == a[1..] + b;
      SimpleCountConcat(a[1..], b);
    }
  }

  /** Any other instruction makes code not simple. */
  lemma {:induction false} NotSimple(code: seq<Instr>, j: nat)
    requires j < |code| && !Reads(code[j]) && !Assertion(code[j])
    ensures SimpleCount(code) == -1
  {
    if j > 0 {
      NotSimple(code[1..], j - 1);
    }
  }

  /** The only quantifiers in simple code are {0} and {1}. */
  lemma SimpleQuant(body: seq<Instr>, k: nat, n: nat, min: nat, max: nat, greedy: bool)
    requires SimpleCount(QuantCode(body, k, n, min, max, greedy)) >= 0
    ensures (min == max == n == 0 && QuantCode(body, k, n, min, max, greedy) == []) ||
            (min == 1 && max <= 1 && QuantCode(body, k, n, min, max, greedy) == body)
  {
    var code := QuantCode(body, k, n, min, max, greedy);
    if greedy && max > 0 && SimpleCount(body) > 0 {
      NotSimple(code, 0);
    } else if min == 0 {
      if n > 0 || max > 0 {
        NotSimple(code, 0);
      }
    } else if min > 1 {
      NotSimple(code, 0);
    } else if max > 1 {
      NotSimple(code, |body|);
    }
  }

  lemma AltNotSimple(a: seq<Instr>, b: seq<Instr>)
    ensures SimpleCount(AltCode(a, b)) == -1
  {
    NotSimple(AltCode(a, b), 0);
  }

  lemma LookNotSimple(body: seq<Instr>, negative: bool)
    ensures SimpleCount(LookCode(body, negative)) == -1
  {
    NotSimple(LookCode(body, negative), 0);
  }

  lemma {:induction false} SaveNotSimple(body: seq<Instr>, k: nat)
    ensures SimpleCount([ISaveStart(k)] + body + [ISaveEnd(k)]) == -1
    ensures SimpleCount([ISaveEnd(k)] + body + [ISaveStart(k)]) == -1
  {
    NotSimple([ISaveStart(k)] + body + [ISaveEnd(k)], 0);
    NotSimple([ISaveEnd(k)] + body + [ISaveStart(k)], 0);
  }

  /** Simple code belongs to a pattern without groups. */
  lemma {:induction false} SimpleNoGroups(o: Opts, r: Re, back: bool, k: nat)
    ensures SimpleCount(Code(o, r, back, k)) >= 0 ==> NumGroups(r) == 0
    decreases r
  {
    hide QuantCode, SimpleCount, AltCode, LookCode;
    match r {
      case Cat(a, b) =>
        SimpleCountConcat(Code(o, a, back, k), Code(o, b, back, k + NumGroups(a)));
        SimpleCountConcat(Code(o, b, back, k + NumGroups(a)), Code(o, a, back, k));
        SimpleNoGroups(o, a, back, k);
        SimpleNoGroups(o, b, back, k + NumGroups(a));
      case Alt(a, b) => AltNotSimple(Code(o, a, back, k), Code(o, b, back, k + NumGroups(a)));
      case Group(b) => SaveNotSimple(Code(o, b, back, k + 1), k);
      case Look(b, behind, negative) => LookNotSimple(Code(o, b, behind, k), negative);
      case Quant(b, min, max, greedy) =>
        SimpleNoGroups(o, b, back, k);
        QuantNotSimple(Code(o, b, back, k), k, NumGroups(b), min, max, greedy);
      case _ =>
    }
  }

  lemma {:induction false} QuantNotSimple(body: seq<Instr>, k: nat, n: nat, min: nat, max: nat, greedy: bool)
    requires SimpleCount(body) >= 0 ==> n == 0
    ensures SimpleCount(QuantCode(body, k, n, min, max, greedy)) >= 0 ==> n == 0
  {
    if SimpleCount(QuantCode(body, k, n, min, max, greedy)) >= 0 {
      SimpleQuant(body, k, n, min, max, greedy);
    }
  }

  // ---------------------------------------------------------------- advancing

  /** No state of `all` is at `p`. */
  predicate Moves(p: nat, all: seq<St>) {
    forall u :: u in all ==> u.pos != p
  }

  lemma {:induction false} MovesFirst(x: Ctx, back: bool, p: nat, all: seq<St>, f: Cont)
    requires Good(x, back, p, all) && ContOk(x, f, p) && Moves(p, all)
    ensures Moves(p, FlatMap(x, back, p, all, f))
    decreases |all|
  {
    hide Continue;
    if |all| > 0 {
      MovesFirst(x, back, p, all[1..], f);
      assert Toward(back, p, all[0].pos);
    }
  }

  lemma {:induction false} MovesThen(x: Ctx, back: bool, p: nat, all: seq<St>, f: Cont)
    requires Good(x, back, p, all) && ContOk(x, f, p)
    requires forall t :: t in all ==> Moves(t.pos, Continue(x, back, p, f, t))
    ensures Moves(p, FlatMap(x, back, p, all, f))
    decreases |all|
  {
    hide Continue;
    if |all| > 0 {
      MovesThen(x, back, p, all[1..], f);
      assert Toward(back, p, all[0].pos);
    }
  }

  /** A pattern that always advances never ends where it started. */
  lemma {:induction false} AdvancesSound(x: Ctx, r: Re, back: bool, k: nat, s: St)
    requires Advances(r) && StOk(x, s) && k + NumGroups(r) <= x.ncap
    ensures Moves(s.pos, Results(x, r, back, k, s))
    decreases r, 1
  {
    hide FlatMap, QuantResults, OneChar, LookResults;
    match r {
      case Cat(a, b) =>
        if back {
          AdvancesCat(x, r, b, k + NumGroups(a), a, k, back, s);
        } else {
          AdvancesCat(x, r, a, k, b, k + NumGroups(a), back, s);
        }
      case Alt(a, b) =>
        AdvancesSound(x, a, back, k, s);
        AdvancesSound(x, b, back, k + NumGroups(a), s);
      case Group(b) => AdvancesSound(x, b, back, k + 1, Enter(x, back, k, s));
      case Quant(b, min, max, greedy) =>
        AdvancesSound(x, b, back, k, s);
        AdvancesQuant(x, b, min, max, greedy, back, k, s);
      case _ =>
    }
  }

  lemma {:induction false} AdvancesQuant(x: Ctx, b: Re, min: nat, max: nat, greedy: bool, back: bool, k: nat, s: St)
    requires min > 0 && StOk(x, s) && k + NumGroups(b) <= x.ncap
    requires Moves(s.pos, Results(x, b, back, k, s))
    ensures Moves(s.pos, QuantResults(x, b, min, max, greedy, back, k, s))
  {
    hide Results, FlatMap;
    MovesFirst(x, back, s.pos, Results(x, b, back, k, s), ThenTimes(b, k, min - 1));
    MovesFirst(x, back, s.pos, Times(x, b, back, k, min, s), Rest(b, k, min, max, greedy));
  }

  lemma {:induction false} AdvancesCat(x: Ctx, r: Re, a: Re, ka: nat, b: Re, kb: nat, back: bool, s: St)
    requires a < r && b < r && (Advances(a) || Advances(b)) && StOk(x, s)
    requires ka + NumGroups(a) <= x.ncap && kb + NumGroups(b) <= x.ncap
    ensures Moves(s.pos, FlatMap(x, back, s.pos, Results(x, a, back, ka, s), Then(b, kb)))
    decreases r, 0
  {
    hide Results, FlatMap, Advances;
    var all := Results(x, a, back, ka, s);
    if Advances(a) {
      AdvancesSound(x, a, back, ka, s);
      MovesFirst(x, back, s.pos, all, Then(b, kb));
    } else {
      forall t | t in all
        ensures Moves(t.pos, Results(x, b, back, kb, t))
      {
        AdvancesSound(x, b, back, kb, t);
      }
      MovesThen(x, back, s.pos, all, Then(b, kb));
    }
  }

  // ---------------------------------------------------------------- captures named by the code

  lemma {:induction false} WellFormedParsed(r: Re, k: nat)
    requires WellFormed(r, k)
    ensures Parsed(r)
    decreases r
  {
    hide Advances, NoInnerRefs, NumGroups;
    match r {
      case Cat(a, b) =>
        WellFormedParsed(a, k);
        WellFormedParsed(b, k + NumGroups(a));
      case Alt(a, b) =>
        WellFormedParsed(a, k);
        WellFormedParsed(b, k + NumGroups(a));
      case Group(b) => WellFormedParsed(b, k + 1);
      case Look(b, _, _) => WellFormedParsed(b, k);
      case Quant(b, _, _, _) => WellFormedParsed(b, k);
      case _ =>
    }
  }

  lemma {:induction false} RefsBounded(r: Re)
    requires Parsed(r)
    ensures forall g :: g in BackRefs(r) ==> g < CAPTURE_COUNT_MAX
  {
    match r {
      case Cat(a, b) =>
        RefsBounded(a);
        RefsBounded(b);
      case Alt(a, b) =>
        RefsBounded(a);
        RefsBounded(b);
      case Group(b) => RefsBounded(b);
      case Look(b, _, _) => RefsBounded(b);
      case Quant(b, _, _, _) => RefsBounded(b);
      case _ =>
    }
  }

  /** The instruction writes only groups `k` to `k + n - 1`. */
  predicate Confined(i: Instr, k: nat, n: nat) {
    match i
    case ISaveStart(g) => k <= g < k + n
    case ISaveEnd(g) => k <= g < k + n
    case ISaveReset(a, b) => k <= a <= b < k + n
    case _ => true
  }

  predicate AllConfined(code: seq<Instr>, k: nat, n: nat) {
    forall i :: i in code ==> Confined(i, k, n)
  }

  lemma ConfinedWiden(code: seq<Instr>, k: nat, n: nat, k': nat, n': nat)
    requires AllConfined(code, k, n) && k' <= k && k + n <= k' + n'
    ensures AllConfined(code, k', n')
  {
  }

  lemma ConfinedConcat(a: seq<Instr>, b: seq<Instr>, k: nat, n: nat)
    requires AllConfined(a, k, n) && AllConfined(b, k, n)
    ensures AllConfined(a + b, k, n)
  {
  }

  lemma {:induction false} LoopsConfined(body: seq<Instr>, k: nat, n: nat, min: nat, max: nat, count: nat,
                                         check: bool, greedy: bool)
    requires AllConfined(body, k, n)
    ensures AllConfined(OptionCode(body, greedy), k, n) && AllConfined(StarCode(body, check, greedy), k, n)
    ensures AllConfined(PlusCode(body, greedy), k, n) && AllConfined(ExactCode(body, count), k, n)
    ensures AllConfined(UptoCode(body, count, greedy), k, n)
    ensures SimpleCount(body) > 0 ==> AllConfined(SimpleCode(body, min, max), k, n)
    ensures AllConfined(ResetCode(k, n), k, n) && AllConfined([], k, n)
  {
    hide SimpleCount;
  }

  lemma QuantConfined(body: seq<Instr>, k: nat, n: nat, min: nat, max: nat, greedy: bool)
    requires AllConfined(body, k, n)
    ensures AllConfined(QuantCode(body, k, n, min, max, greedy), k, n)
  {
    hide SimpleCount, CheckAdvance, AllConfined, OptionCode, StarCode, PlusCode, ExactCode, UptoCode, SimpleCode,
      ResetCode;
    var check := greedy && CheckAdvance(body) == 0;
    var more := if max > min then max - min else 0;
    var first := if min == 0 then ResetCode(k, n) else if min == 1 then body else ExactCode(body, min);
    LoopsConfined(body, k, n, min, max, more, check, greedy);
    LoopsConfined(body, k, n, min, max, min, check, greedy);
    ConfinedConcat(first, [], k, n);
    ConfinedConcat(first, OptionCode(body, greedy), k, n);
    ConfinedConcat(first, StarCode(body, check, greedy), k, n);
    ConfinedConcat(first, UptoCode(body, more, greedy), k, n);
  }

  lemma AroundConfined(a: seq<Instr>, b: seq<Instr>, first: Instr, last: Instr, negative: bool, k: nat, n: nat)
    requires AllConfined(a, k, n) && AllConfined(b, k, n)
    ensures AllConfined(AltCode(a, b), k, n) && AllConfined(LookCode(a, negative), k, n)
    ensures Confined(first, k, n) && Confined(last, k, n) ==> AllConfined([first] + a + [last], k, n)
  {
  }

  lemma WrapConfined(body: seq<Instr>, k: nat, n: nat)
    requires AllConfined(body, k + 1, n)
    ensures AllConfined([ISaveStart(k)] + body + [ISaveEnd(k)], k, 1 + n)
    ensures AllConfined([ISaveEnd(k)] + body + [ISaveStart(k)], k, 1 + n)
  {
    ConfinedWiden(body, k + 1, n, k, 1 + n);
    AroundConfined(body, body, ISaveStart(k), ISaveEnd(k), false, k, 1 + n);
    AroundConfined(body, body, ISaveEnd(k), ISaveStart(k), false, k, 1 + n);
  }

  lemma {:induction false} LeafConfined(o: Opts, r: Re, back: bool, k: nat)
    requires !r.Cat? && !r.Alt? && !r.Group? && !r.Look? && !r.Quant?
    ensures AllConfined(Code(o, r, back, k), k, 0) && NumGroups(r) == 0
  {
  }

  /** The code of a pattern writes only the groups of the pattern. */
  lemma {:induction false} CodeConfined(o: Opts, r: Re, back: bool, k: nat)
    ensures AllConfined(Code(o, r, back, k), k, NumGroups(r))
    decreases r, 1
  {
    hide Code, AllConfined, Confined;
    match r {
      case Cat(a, b) =>
        CodeCat(o, a, b, back, k);
        PairConfined(o, r, a, b, back, k);
        ConfinedConcat(Code(o, a, back, k), Code(o, b, back, k + NumGroups(a)), k, NumGroups(r));
        ConfinedConcat(Code(o, b, back, k + NumGroups(a)), Code(o, a, back, k), k, NumGroups(r));
      case Alt(a, b) =>
        CodeAlt(o, a, b, back, k);
        PairConfined(o, r, a, b, back, k);
        AroundConfined(Code(o, a, back, k), Code(o, b, back, k + NumGroups(a)), IMatch, IMatch, false, k, NumGroups(r));
      case Group(b) =>
        CodeGroup(o, b, back, k);
        CodeConfined(o, b, back, k + 1);
        WrapConfined(Code(o, b, back, k + 1), k, NumGroups(b));
      case Look(b, behind, negative) =>
        CodeLook(o, b, behind, negative, back, k);
        CodeConfined(o, b, behind, k);
        var body := Code(o, b, behind, k);
        AroundConfined(body, body, IMatch, IMatch, negative, k, NumGroups(b));
      case Quant(b, min, max, greedy) =>
        CodeQuant(o, b, min, max, greedy, back, k);
        CodeConfined(o, b, back, k);
        QuantConfined(Code(o, b, back, k), k, NumGroups(b), min, max, greedy);
      case _ => LeafConfined(o, r, back, k);
    }
  }

  lemma {:induction false} PairConfined(o: Opts, r: Re, a: Re, b: Re, back: bool, k: nat)
    requires a < r && b < r && NumGroups(r) == NumGroups(a) + NumGroups(b)
    ensures AllConfined(Code(o, a, back, k), k, NumGroups(r))
    ensures AllConfined(Code(o, b, back, k + NumGroups(a)), k, NumGroups(r))
    decreases r, 0
  {
    hide Code, Confined, AllConfined, NumGroups;
    var k' := k + NumGroups(a);
    CodeConfined(o, a, back, k);
    CodeConfined(o, b, back, k');
    ConfinedWiden(Code(o, a, back, k), k, NumGroups(a), k, NumGroups(r));
    ConfinedWiden(Code(o, b, back, k'), k', NumGroups(b), k, NumGroups(r));
  }

  // ---------------------------------------------------------------- what the bitmap sees

  /** The code writes capture `g` exactly if `w`, and refers to it exactly if `v`. */
  ghost predicate Tracks(code: seq<Instr>, g: nat, w: bool, v: bool) {
    AnyMarks(code, g) == w && AnyRefersTo(code, g) == v
  }

  lemma TracksConcat(a: seq<Instr>, b: seq<Instr>, g: nat, w: bool, v: bool, w': bool, v': bool)
    requires Tracks(a, g, w, v) && Tracks(b, g, w', v')
    ensures Tracks(a + b, g, w || w', v || v')
  {
    forall i | 0 <= i < |a|
      ensures (a + b)[i] == a[i]
    {
    }
    forall i | 0 <= i < |b|
      ensures (a + b)[|a| + i] == b[i]
    {
    }
    if AnyMarks(a, g) {
      var i :| 0 <= i < |a| && MarksCapture(a[i], g);
      assert MarksCapture((a + b)[i], g);
    }
    if AnyMarks(b, g) {
      var i :| 0 <= i < |b| && MarksCapture(b[i], g);
      assert MarksCapture((a + b)[|a| + i], g);
    }
    if AnyRefersTo(a, g) {
      var i :| 0 <= i < |a| && RefersTo(a[i], g);
      assert RefersTo((a + b)[i], g);
    }
    if AnyRefersTo(b, g) {
      var i :| 0 <= i < |b| && RefersTo(b[i], g);
      assert RefersTo((a + b)[|a| + i], g);
    }
  }

  lemma TracksOne(i: Instr, g: nat)
    ensures Tracks([i], g, MarksCapture(i, g), RefersTo(i, g))
  {
    assert [i][0] == i;
  }

  /** Code around a fragment that neither writes nor refers. */
  lemma TracksAround(a: seq<Instr>, body: seq<Instr>, c: seq<Instr>, g: nat, w: bool, v: bool)
    requires Tracks(a, g, false, false) && Tracks(body, g, w, v) && Tracks(c, g, false, false)
    ensures Tracks(a + body + c, g, w, v)
  {
    TracksConcat(a, body, g, false, false, w, v);
    TracksConcat(a + body, c, g, w, v, false, false);
  }

  lemma TracksNone(code: seq<Instr>, g: nat)
    requires forall i :: 0 <= i < |code| ==> !MarksCapture(code[i], g) && !RefersTo(code[i], g)
    ensures Tracks(code, g, false, false)
  {
  }

  lemma {:induction false} LoopsTrack(body: seq<Instr>, min: nat, max: nat, n: nat, check: bool, greedy: bool, g: nat,
                                      w: bool, v: bool)
    requires Tracks(body, g, w, v)
    ensures Tracks(OptionCode(body, greedy), g, w, v) && Tracks(StarCode(body, check, greedy), g, w, v)
    ensures Tracks(PlusCode(body, greedy), g, w, v) && Tracks(ExactCode(body, n), g, w, v)
    ensures Tracks(UptoCode(body, n, greedy), g, w, v)
    ensures SimpleCount(body) > 0 ==> Tracks(SimpleCode(body, min, max), g, w, v)
  {
    hide SimpleCount, Tracks;
    var code := StarCode(body, check, greedy);
    var branch, jump, push := [Branch(greedy, |body|)], [PlusBranch(|body|, greedy)], [IPushI32(n)];
    TracksNone([], g);
    TracksNone(branch, g);
    TracksNone(jump, g);
    TracksNone(push, g);
    TracksNone([ILoop(-(|body| + 1)), IDrop], g);
    TracksNone([ILoop(-(|body| + 2)), IDrop], g);
    TracksNone([IPushI32(n), Branch(greedy, |body| + 1)], g);
    TracksAround(branch, body, [], g, w, v);
    assert branch + body + [] == OptionCode(body, greedy);
    TracksAround([], body, jump, g, w, v);
    assert [] + body + jump == PlusCode(body, greedy);
    TracksAround(push, body, [ILoop(-(|body| + 1)), IDrop], g, w, v);
    TracksAround([IPushI32(n), Branch(greedy, |body| + 1)], body, [ILoop(-(|body| + 2)), IDrop], g, w, v);
    StarTracks(body, check, greedy, g, w, v);
    if SimpleCount(body) > 0 {
      TracksNone([ISimpleGreedy(|body| + 1, min, max, SimpleCount(body))], g);
      TracksNone([IMatch], g);
      TracksAround([ISimpleGreedy(|body| + 1, min, max, SimpleCount(body))], body, [IMatch], g, w, v);
    }
  }

  lemma StarTracks(body: seq<Instr>, check: bool, greedy: bool, g: nat, w: bool, v: bool)
    requires Tracks(body, g, w, v)
    ensures Tracks(StarCode(body, check, greedy), g, w, v)
  {
    hide Tracks;
    var code, j := StarCode(body, check, greedy), if check then 2 else 1;
    TracksNone(code[..j], g);
    TracksNone(code[j + |body|..], g);
    TracksAround(code[..j], body, code[j + |body|..], g, w, v);
    assert code == code[..j] + body + code[j + |body|..];
  }

  lemma ResetTracks(k: nat, n: nat, g: nat)
    ensures Tracks(ResetCode(k, n), g, k <= g < k + n - 1, false)
  {
    if n > 0 {
      TracksOne(ISaveReset(k, k + n - 1), g);
    }
  }

  lemma {:induction false} QuantTracks(body: seq<Instr>, k: nat, n: nat, min: nat, max: nat, greedy: bool, g: nat,
                                       w: bool, v: bool)
    requires Tracks(body, g, w, v) && (SimpleCount(body) > 0 ==> n == 0)
    ensures Tracks(QuantCode(body, k, n, min, max, greedy), g,
                   (w && !(min == max == 0)) || (min == 0 && k <= g < k + n - 1), v && !(min == max == 0))
  {
    hide SimpleCount, CheckAdvance, Tracks, OptionCode, StarCode, PlusCode, ExactCode, UptoCode, SimpleCode, ResetCode;
    var check, reset := greedy && CheckAdvance(body) == 0, k <= g < k + n - 1;
    var more := if max > min then max - min else 0;
    LoopsTrack(body, min, max, more, check, greedy, g, w, v);
    LoopsTrack(body, min, max, min, check, greedy, g, w, v);
    TracksNone([], g);
    if min == 0 {
      ResetTracks(k, n, g);
      var first := ResetCode(k, n);
      TracksConcat(first, [], g, reset, false, false, false);
      TracksConcat(first, OptionCode(body, greedy), g, reset, false, w, v);
      TracksConcat(first, StarCode(body, check, greedy), g, reset, false, w, v);
      TracksConcat(first, UptoCode(body, more, greedy), g, reset, false, w, v);
    } else {
      var first := if min == 1 then body else ExactCode(body, min);
      TracksConcat(first, [], g, w, v, false, false);
      TracksConcat(first, StarCode(body, check, greedy), g, w, v, w, v);
      TracksConcat(first, UptoCode(body, more, greedy), g, w, v, w, v);
    }
  }

  /** The bitmap is exact: it sees a capture written, or referred to, if and only if the pattern does so. */
  lemma {:induction false} CodeTracks(o: Opts, r: Re, back: bool, k: nat, g: nat)
    ensures Tracks(Code(o, r, back, k), g, Writes(r, k, g), g in BackRefs(r))
    decreases r
  {
    hide QuantCode, AltCode, LookCode, CharCode, CharInstr, Tracks;
    match r {
      case Cat(a, b) =>
        CodeTracks(o, a, back, k, g);
        CodeTracks(o, b, back, k + NumGroups(a), g);
        var k' := k + NumGroups(a);
        TracksConcat(Code(o, a, back, k), Code(o, b, back, k'), g, Writes(a, k, g), g in BackRefs(a), Writes(b, k', g),
                     g in BackRefs(b));
        TracksConcat(Code(o, b, back, k'), Code(o, a, back, k), g, Writes(b, k', g), g in BackRefs(b), Writes(a, k, g),
                     g in BackRefs(a));
      case Alt(a, b) =>
        var k' := k + NumGroups(a);
        CodeTracks(o, a, back, k, g);
        CodeTracks(o, b, back, k', g);
        AltTracks(Code(o, a, back, k), Code(o, b, back, k'), g, Writes(a, k, g), g in BackRefs(a), Writes(b, k', g),
                  g in BackRefs(b));
      case Group(b) =>
        CodeTracks(o, b, back, k + 1, g);
        GroupTracks(Code(o, b, back, k + 1), k, g, Writes(b, k + 1, g), g in BackRefs(b));
      case Look(b, behind, negative) =>
        CodeTracks(o, b, behind, k, g);
        LookTracks(Code(o, b, behind, k), negative, g, Writes(b, k, g), g in BackRefs(b));
      case Quant(b, min, max, greedy) =>
        CodeTracks(o, b, back, k, g);
        SimpleNoGroups(o, b, back, k);
        QuantTracks(Code(o, b, back, k), k, NumGroups(b), min, max, greedy, g, Writes(b, k, g), g in BackRefs(b));
      case _ => LeafTracks(o, r, back, k, g);
    }
  }

  lemma {:induction false} LeafTracks(o: Opts, r: Re, back: bool, k: nat, g: nat)
    requires !r.Cat? && !r.Alt? && !r.Group? && !r.Look? && !r.Quant?
    ensures Tracks(Code(o, r, back, k), g, Writes(r, k, g), g in BackRefs(r))
  {
    if r.BackRef? {
      TracksOne(Code(o, r, back, k)[0], g);
    } else {
      TracksNone(Code(o, r, back, k), g);
    }
  }

  lemma AltTracks(a: seq<Instr>, b: seq<Instr>, g: nat, w: bool, v: bool, w': bool, v': bool)
    requires Tracks(a, g, w, v) && Tracks(b, g, w', v')
    ensures Tracks(AltCode(a, b), g, w || w', v || v')
  {
    hide Tracks;
    TracksNone([ISplitNextFirst(|a| + 1)], g);
    TracksNone([IGoto(|b|)], g);
    TracksAround([ISplitNextFirst(|a| + 1)], a, [IGoto(|b|)], g, w, v);
    TracksConcat([ISplitNextFirst(|a| + 1)] + a + [IGoto(|b|)], b, g, w, v, w', v');
  }

  lemma GroupTracks(body: seq<Instr>, k: nat, g: nat, w: bool, v: bool)
    requires Tracks(body, g, w, v)
    ensures Tracks([ISaveStart(k)] + body + [ISaveEnd(k)], g, w || g == k, v)
    ensures Tracks([ISaveEnd(k)] + body + [ISaveStart(k)], g, w || g == k, v)
  {
    hide Tracks;
    TracksOne(ISaveStart(k), g);
    TracksOne(ISaveEnd(k), g);
    TracksConcat([ISaveStart(k)], body, g, g == k, false, w, v);
    TracksConcat([ISaveStart(k)] + body, [ISaveEnd(k)], g, w || g == k, v, g == k, false);
    TracksConcat([ISaveEnd(k)], body, g, g == k, false, w, v);
    TracksConcat([ISaveEnd(k)] + body, [ISaveStart(k)], g, w || g == k, v, g == k, false);
  }

  lemma LookTracks(body: seq<Instr>, negative: bool, g: nat, w: bool, v: bool)
    requires Tracks(body, g, w, v)
    ensures Tracks(LookCode(body, negative), g, w, v)
  {
    hide Tracks;
    var first := if negative then INegLook(|body| + 1) else ILook(|body| + 1);
    TracksNone([first], g);
    TracksNone([IMatch], g);
    TracksAround([first], body, [IMatch], g, w, v);
  }

  /** `re_check_advance` is exact about captures and sound about the cursor: it reports a dependence on an
      earlier iteration if and only if the body refers to a group that it writes, and reports an advance only
      when every way through the body moves the cursor. */
  lemma {:induction false} CheckAdvanceSound(o: Opts, r: Re, back: bool, k: nat)
    requires Parsed(r)
    ensures CheckAdvance(Code(o, r, back, k)) == -1 <==> !NoInnerRefs(r, k)
    ensures CheckAdvance(Code(o, r, back, k)) == 1 ==> Advances(r)
  {
    hide FirstEffect, Code;
    var code := Code(o, r, back, k);
    RefsBounded(r);
    if ReadsItsCaptures(code) {
      var g :| 0 <= g < CAPTURE_COUNT_MAX && AnyMarks(code, g) && AnyRefersTo(code, g);
      CodeTracks(o, r, back, k, g);
    }
    if !NoInnerRefs(r, k) {
      var g :| g in BackRefs(r) && Writes(r, k, g);
      CodeTracks(o, r, back, k, g);
      assert AnyMarks(code, g) && AnyRefersTo(code, g);
    }
    FirstEffectSound(o, r, back, k);
  }
}
