/** The two entry points, `lre_compile` and `lre_exec`, put together. */
module Lre {
  import opened Subject
  import opened Regex
  import opened Matcher
  import opened Machine
  import opened Codegen
  import opened Analysis
  import opened StackDepth
  import opened Safety
  import opened Emitter
  import opened Folding
  import opened Language
  import Exec

  /** What the header of the byte code holds, and the byte code; or one of the errors "too many
      captures", "too many ranges" and "too many imbricated quantifiers". */
  datatype Result =
    | Ok(program: Prog, captureCount: nat, stackSize: nat)
    | TooLarge

  ghost predicate TooDeep(p: Prog) {
    exists j :: 0 <= j <= |p| && Depth(p, j) > STACK_SIZE_MAX
  }

  /** `lre_compile`, from the pattern tree on. */
  method Compile(opts: Opts, r: Re, sticky: bool) returns (result: Result)
    requires Parsed(r)
    ensures result.TooLarge? <==> !Compilable(r, 1) || TooDeep(Program(opts, r, sticky))
    ensures result.Ok? ==> result.program == Program(opts, r, sticky) && result.captureCount == 1 + NumGroups(r) &&
                           result.stackSize <= STACK_SIZE_MAX && Bounds(result.program, result.stackSize)
  {
    hide Code, Depth, Sound, NumGroups, RangesFit, Parsed;
    var s := new Compiler(opts);
    if !sticky {
      s.Put(ISplitGotoFirst(2));
      s.Put(IAny);
      s.Put(IGoto(-3));
    }
    s.Put(ISaveStart(0));
    ghost var before := s.byteCode;
    assert before == Prelude(sticky) + [ISaveStart(0)];
    var ok := s.Disjunction(r, false);
    if !ok {
      return TooLarge;
    }
    s.Put(ISaveEnd(0));
    s.Put(IMatch);
    GroupParts(opts, r, false, 0);
    assert s.byteCode == Program(opts, r, sticky);
    ProgramSound(opts, r, sticky);
    SoundClosed(s.byteCode, 1 + NumGroups(r));
    var size := ComputeStackSize(s.byteCode);
    if size < 0 {
      return TooLarge;
    }
    result := Ok(s.byteCode, s.captureCount, size);
  }

  lemma SoundClosed(p: Prog, ncap: nat)
    requires Sound(p, ncap)
    ensures Closed(p)
  {
  }

  /** Compiling and then matching: unless the pattern exceeds a limit, the answer, captures included,
      is that of the reference matcher. */
  method CompileAndMatch(subject: Subject, opts: Opts, r: Re, sticky: bool, start: nat)
    returns (compiled: bool, found: bool, captures: seq<int>)
    requires WellFormed(r, 1) && CanonOk(opts) && Boundary(subject, start)
    ensures Answers(subject, opts, r, sticky, start, compiled, found, captures)
    ensures !opts.ignoreCase ==>
              forall canon :: Answers(subject, opts.(canon := canon), r, sticky, start, compiled, found, captures)
    ensures compiled && NoRefs(r) ==>
              var x := Ctx(subject, opts, 1 + NumGroups(r));
              (found <==> Matches(x, r, sticky, start)) &&
              (found ==> |captures| == 2 * (1 + NumGroups(r)) &&
                         Leftmost(x, r, sticky, start, captures[0], captures[1]))
  {
    hide WellFormed, Program, FirstMatch, TooDeep, Bounds, Answers, Matches, Leftmost, NoRefs;
    WellFormedParsed(r, 1);
    WellFormedFits(r, 1);
    var result := Compile(opts, r, sticky);
    match result {
      case TooLarge => compiled, found, captures := false, false, [];
      case Ok(program, captureCount, stackSize) =>
        compiled := true;
        found, captures := Exec.Match(Ctx(subject, opts, captureCount), program, stackSize, start, r, sticky);
        if NoRefs(r) {
          FirstMatchMeans(Ctx(subject, opts, 1 + NumGroups(r)), r, sticky, start);
        }
    }
    Answered(subject, opts, r, sticky, start, compiled, found, captures);
    if !opts.ignoreCase {
      forall canon
        ensures Answers(subject, opts.(canon := canon), r, sticky, start, compiled, found, captures)
      {
        AnyMapAnswers(subject, opts, canon, r, sticky, start, compiled, found, captures);
      }
    }
  }

  /** A match is refused exactly when there are more than 255 captures or some stack depth is more than 255; else
      the answer is that of the reference matcher. */
  ghost predicate Answers(subject: Subject, opts: Opts, r: Re, sticky: bool, start: nat, compiled: bool, found: bool,
                          captures: seq<int>)
    requires Boundary(subject, start)
  {
    var m := FirstMatch(Ctx(subject, opts, 1 + NumGroups(r)), r, sticky, start);
    && (compiled <==> 1 + NumGroups(r) <= 255 &&
                      forall j :: 0 <= j <= |Program(opts, r, sticky)| ==> Depth(Program(opts, r, sticky), j) <= 255)
    && (compiled ==> found == (|m| > 0) && (found ==> captures == m[0].caps))
  }

  lemma {:induction false} Answered(subject: Subject, opts: Opts, r: Re, sticky: bool, start: nat, compiled: bool,
                                    found: bool, captures: seq<int>)
    requires Boundary(subject, start)
    requires compiled <==> 1 + NumGroups(r) <= CAPTURE_COUNT_MAX && !TooDeep(Program(opts, r, sticky))
    requires compiled ==>
               var m := FirstMatch(Ctx(subject, opts, 1 + NumGroups(r)), r, sticky, start);
               found == (|m| > 0) && (found ==> captures == m[0].caps)
    ensures Answers(subject, opts, r, sticky, start, compiled, found, captures)
  {
    hide Program, FirstMatch, NumGroups, Depth;
  }

  /** Unless case is ignored, the answer is the same for every map. */
  lemma {:induction false} AnyMapAnswers(subject: Subject, opts: Opts, canon: map<nat, nat>, r: Re, sticky: bool,
                                         start: nat, compiled: bool, found: bool, captures: seq<int>)
    requires Boundary(subject, start) && !opts.ignoreCase
    requires Answers(subject, opts, r, sticky, start, compiled, found, captures)
    ensures Answers(subject, opts.(canon := canon), r, sticky, start, compiled, found, captures)
  {
    hide FirstMatch, NumGroups, Depth, Code;
    var x, opts' := Ctx(subject, opts, 1 + NumGroups(r)), opts.(canon := canon);
    assert x.(opts := x.opts.(canon := canon)) == Ctx(subject, opts', 1 + NumGroups(r));
    MapNotCompiled(opts, canon, Group(r), false, 0);
    MapUnused(x, canon, r, sticky, start);
    assert Program(opts, r, sticky) == Program(opts', r, sticky);
  }
}
