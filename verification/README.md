# Models and proofs for the vendored C libraries

This project models the algorithms of two C libraries that the editor configuration vendors, and proves
what they promise: the regular-expression engine of jsregexp (with its Unicode and utility routines) and
the fuzzy matcher of telescope-fzf-native. `dafny verify dfyconfig.toml` checks all of it.

## The parts

**Regular expressions.** `Subject` holds the cursor macros on 8-bit and UTF-16 subjects. `Regex` has the
pattern tree, the instructions and the states of a match. `Matcher` is the reference: for a pattern and a
state, all the states a match can end in, in order of preference. `Machine` is the backtracking virtual
machine, one loop iteration a step, with an explicit `Crash` for whatever the C code leaves undefined.
`Language` says what a pattern without back references means, declaratively and in numbers, and that the
matcher reaches exactly that; `Folding` what the case folding map does. `Codegen` describes the emitted code
as a function of the pattern; `Emitter` is the compiler that appends, inserts, patches, copies and rotates
code to produce it. `Simulation`, `Analysis`, `Correct`, `Greedy` and `Compiled` prove that the code computes
the reference results in order and that the whole program halts with the first match. `StackDepth` and
`Safety` prove that compiled fragments can be relocated and that no run of any compiled program, halting or
not, overflows the computed operand stack, leaves the code or steps back in front of the subject. `Captures`
proves which captures the results of the matcher can set, which of them together, and that each is a span;
`Partial`, `Scoped` and `Reported` prove the same of every match that any run of any compiled program reports,
whether or not its loops halt. `Groups` says what a capture means: a result of the body of its group. `Exec`
is the virtual machine on arrays and a stack of saved copies, `Lre` puts compiling and executing together, and
`Halting`, on top of the finiteness of the states in `Finite`, says on which patterns the machine halts.

**Character classes and Unicode tables.** `CharRanges` is the set algebra on sorted point arrays with in-place
compression; `ClassCode` the stored form of a class and the machine's binary search; `PropFormat` how property
tables and their index are written, byte by byte, and `PropTable` how they are read; `CanonicalOrder` the
in-place ordering of combining marks.

**Sorting and UTF-8.** `QuickSort` (on top of `Shuffle`) is the quicksort without recursion with its heap sort
fallback and its stack of 50 entries; `Utf8` the 31-bit codec; `Utf16` the conversion with its index array.

**Fuzzy matching.** `FuzzyPoints` says in bytes and numbers what an alignment is worth. `FuzzyText` has
bonuses, subsequences and the prefilter, `FuzzyV1` the two-pass matcher and the score, `FuzzyV2` the dynamic
program, as a recurrence and as the program that fills a matrix with it, and its traceback, `FuzzyExact` the
exact matcher. `Integers` has the fixed-width integer types of all parts.

## How the source is read

- Code offsets and byte-code positions count instructions, not bytes; a character instruction is one
  instruction whether the C code emits `char` or `char32`. Jumps are relative, as in the source.
- A pattern is a tree. Where the parser meets the text of an alternative or of a disjunction, the emitter
  reads the terms or alternatives off the tree in the order of the text. The points of a class are those
  that the class parser hands over, after canonicalisation when case is ignored: sorted pairs of points, no
  interval empty, but some perhaps touching, since the runs of a general category are not compressed.
- Case folding is an arbitrary map on code points; combining classes are an arbitrary function.
- In `Exec` the variables `pc`, `cptr` and `stack_len` of the running call are fields of the context, and
  the nested call of the counting loop is a method of its own: it only ever meets straight-line code, which
  `Safety` proves.
- Subjects are sequences of units. In 8-bit and plain 16-bit mode every character is one unit.
- Where the code differs from section 21.2.2 of ECMA-262 (9th edition), the matcher follows the code: an
  empty iteration of an unbounded greedy loop leaves the loop, and the captures of a quantified term are
  reset once, before the loop, when it may run zero times.
- Halting is claimed for patterns whose unbounded loops have a body that always consumes a character, or
  are greedy without a back reference to a group that their body writes. Other loops get no check from the
  compiler. Two kinds of them are decided: a greedy loop over such a body as the whole pattern
  (`RefLoopHalts`), and a lazy loop over the empty pattern in front of any well-formed pattern
  (`LazyLoopHalts`). Safety, and which captures a reported match can have set, is claimed for all patterns;
  that each of them is a result of its group's body, for those that halt by this criterion.
- `tolower` and the character classes of the fuzzy matcher are those of the "C" locale; text and pattern
  are bytes. A comparison function of the sort may be any function of two elements and of how often it has
  been called; that it orders the elements is only needed for the result to be sorted.
- A slab or freshly allocated memory holds arbitrary values; so do the cells of the score matrix that are
  never written.

## Model

| member | source | states |
|---|---|---|
| Subject.NextThenPrev | plugins/LuaSnip/deps/jsregexp/libregexp.c:1924-2012 | After reading a character forward from a character boundary the cursor is on a boundary again, stepping back returns to the start, and peeking back sees the character that was read. |
| Subject.PrevThenNext | plugins/LuaSnip/deps/jsregexp/libregexp.c:1924-2012 | Stepping back from a boundary lands on a boundary, reading forward returns, and the peeked character is the one read. |
| Subject.RoundTripNeedsBoundary | plugins/LuaSnip/deps/jsregexp/libregexp.c:1924-2012 | The two macros undo each other at an inner position if and only if it is not between the halves of a surrogate pair. |
| Subject.PrevPosN | plugins/LuaSnip/deps/jsregexp/libregexp.c:2147-2151 | Stepping back `n` characters, which needs `n` characters before the cursor, leaves exactly `n` fewer in front of it. |
| CharRanges.MemberIsParity | plugins/LuaSnip/deps/jsregexp/libunicode.c:380-397 | In a sorted even-length array a code point is a member exactly when an odd number of points is at most that code point. |
| CharRanges.CompressedIsUnique | plugins/LuaSnip/deps/jsregexp/libunicode.c:325-352 | Two strictly increasing even-length arrays that denote the same set are equal. |
| CharRanges.OpIsUnique | plugins/LuaSnip/deps/jsregexp/libunicode.c:355-405 | The result of a set operation is one array: any two results for the same operands are equal. |
| CharRanges.InverseIsInvolution | plugins/LuaSnip/deps/jsregexp/libunicode.c:419-431 | Inverting a compressed range below UINT32_MAX twice gives the same array back. |
| CharRanges.DeMorgan | plugins/LuaSnip/deps/jsregexp/libunicode.c:355-431 | The inverse of a union and the intersection of the inverses are the same array. |
| CharRanges.XorIsUnionMinusInter | plugins/LuaSnip/deps/jsregexp/libunicode.c:355-431 | Exclusive or is, as an array, the union intersected with the inverse of the intersection. |
| CharRanges.CharRange.constructor | plugins/LuaSnip/deps/jsregexp/libunicode.c:286-292 | A new range is empty. |
| CharRanges.CharRange.Realloc | plugins/LuaSnip/deps/jsregexp/libunicode.c:299-314 | Growing keeps the points and makes room for as many as asked for. |
| CharRanges.CharRange.AddPoint | plugins/LuaSnip/deps/jsregexp/libunicode.h:69-77 | Appends one point. |
| CharRanges.CharRange.AddInterval | plugins/LuaSnip/deps/jsregexp/libunicode.h:79-88 | Appends both end points. |
| CharRanges.CharRange.Compress | plugins/LuaSnip/deps/jsregexp/libunicode.c:326-352 | In place, a sorted even-length array becomes strictly increasing and denotes the same set. |
| CharRanges.CharRange.Operate | plugins/LuaSnip/deps/jsregexp/libunicode.c:355-405 | The merge of two sorted even-length arrays leaves the compressed union, intersection or exclusive or of the two sets. |
| CharRanges.CharRange.Union1 | plugins/LuaSnip/deps/jsregexp/libunicode.c:407-417 | The range becomes its compressed union with the given points. |
| CharRanges.CharRange.UnionInterval | plugins/LuaSnip/deps/jsregexp/libunicode.h:92-98 | The range becomes the compressed union with the closed interval. |
| CharRanges.CharRange.Invert | plugins/LuaSnip/deps/jsregexp/libunicode.c:419-431 | In place, the range becomes the compressed complement in [0, UINT32_MAX). |
| ClassCode.EmitRange | plugins/LuaSnip/deps/jsregexp/libregexp.c:821-857 | For every even number of points the emitted operands are those of the encoding: 16-bit pairs with 0xffff for infinity, 32-bit pairs, or the class that never matches. |
| ClassCode.BinarySearch | plugins/LuaSnip/deps/jsregexp/libregexp.c:2391-2401 | The search with unsigned 32-bit indices decides what the recursive search does; no index wraps, because the caller has compared with the first entry. |
| ClassCode.MatchClass | plugins/LuaSnip/deps/jsregexp/libregexp.c:2367-2443 | The instruction, with its two pre-checks, decides membership in the stored pairs. |
| ClassCode.SearchFinds | plugins/LuaSnip/deps/jsregexp/libregexp.c:2391-2401 | On disjoint increasing pairs the search succeeds if and only if some pair contains the code point. |
| ClassCode.RoundTrip | plugins/LuaSnip/deps/jsregexp/libregexp.c:821-857 | Encoding a class of non-empty intervals, which may touch each other as those of a general category do, and searching the code is membership in the class, for every code point up to 0x10FFFF. |
| ClassCode.EncodeStored | plugins/LuaSnip/deps/jsregexp/libregexp.c:826-829 | A class is refused exactly from 65535 ranges on; one that is not has at least one entry and fewer than 65535, or never matches. |
| ClassCode.OperandsInNumbers | plugins/LuaSnip/deps/jsregexp/libregexp.c:832-855 | The operands in numbers: closed intervals, in 16 bits if the last end, or the last start when the end is infinite, is at most 0xffff; there 0xffff stands for infinity. |
| Matcher.OneChar | plugins/LuaSnip/deps/jsregexp/libregexp.c:1477-1499 | A character step, forward or back, yields at most states on character boundaries that have moved in the direction of the match. |
| Matcher.Results | plugins/LuaSnip/deps/jsregexp/libregexp.c:1215-1770 | The ordered results of a pattern all lie on character boundaries, in the direction of the match, with captures on boundaries. |
| Matcher.FirstMatch | plugins/LuaSnip/deps/jsregexp/libregexp.c:1851-1860 | The search for the first start position with a result returns at most one state, on boundaries of the subject. |
| Language.SameCharacter | plugins/LuaSnip/deps/jsregexp/libregexp.c:1924-2012 | The character read at a position, and how far it reaches, in units and numbers: two surrogate halves in UTF-16 mode, one unit else. |
| Language.SameTest | plugins/LuaSnip/deps/jsregexp/libregexp.c:2184-2190 | Which code points a character, a class and the dot take, in numbers and with the folding map written out. |
| Language.SameAssertion | plugins/LuaSnip/deps/jsregexp/libregexp.c:2227-2322 | At which positions a line start, a line end and a word boundary hold, by the units before and behind. |
| Language.EndsAre | plugins/LuaSnip/deps/jsregexp/libregexp.c:1215-1770 | For every pattern without back references, forwards and backwards: the results of the matcher end exactly where the declarative meaning of the pattern, which knows no direction, order or capture, has a stretch that begins, or ends, at the cursor. |
| Language.FirstMatchMeans | plugins/LuaSnip/deps/jsregexp/libregexp.c:1851-1860 | The search finds a match if and only if some stretch at or behind the start (at the start, when sticky) is one that the pattern means; it reports one with the first possible start. |
| Language.OneCharacter | plugins/LuaSnip/deps/jsregexp/libregexp.c:2184-2190 | A single character is found in a subject of one unit if and only if they are equal or, when case is ignored, have the same image under the map. |
| Language.LongestFirst | plugins/LuaSnip/deps/jsregexp/libregexp.c:1592-1653 | Of a repeated character, class or dot the greedy quantifier offers the longest stretch first, the lazy one the shortest. |
| Language.BackRefMeans | plugins/LuaSnip/deps/jsregexp/libregexp.c:2323-2365 | In subjects of single units a back reference, forwards or backwards, matches exactly the text of its capture again, image for image, and the empty text when the capture is not set. |
| Language.LookMeans | plugins/LuaSnip/deps/jsregexp/libregexp.c:2160-2172 | A positive lookaround gives the cursor back and keeps the captures of the first result of its body; a negative one gives the state back exactly when its body has no result. |
| Language.LeftOut | plugins/LuaSnip/deps/jsregexp/libregexp.c:1603-1620 | A quantifier from zero can be left out, as the last choice when greedy and the first when lazy; then exactly the captures of its body are forgotten. |
| Folding.MapUnused | plugins/LuaSnip/deps/jsregexp/libregexp.c:2187-2189 | Unless case is ignored, the result is the same for every folding map. |
| Folding.MapNotCompiled | plugins/LuaSnip/deps/jsregexp/libregexp.c:1490-1496 | Unless case is ignored, so is the code. |
| Folding.ImagesMatchAlike | plugins/LuaSnip/deps/jsregexp/libregexp.c:2187-2189 | When case is ignored, two subjects whose units have the same images, place by place, give the same match, captures included, for every pattern without assertions and without a dot that minds line ends, back references among them. |
| Folding.ImagesYieldAlike | plugins/LuaSnip/deps/jsregexp/libregexp.c:2187-2189 | The same of the ordered results from every single state, in either direction. |
| Machine.Eval | plugins/LuaSnip/deps/jsregexp/libregexp.c:2175-2449 | A straight-line instruction has at most one next state, with all pointers in range. |
| Machine.StepNAdd | plugins/LuaSnip/deps/jsregexp/libregexp.c:2106-2493 | Running m + n steps is running m and then n. |
| Simulation.GenAppend | plugins/LuaSnip/deps/jsregexp/libregexp.c:2116-2172 | If the machine produces one list above a saved choice and the choice produces another, it produces both lists, in that order. |
| Simulation.GenFlatMap | plugins/LuaSnip/deps/jsregexp/libregexp.c:2116-2172 | Running code on every state another piece of code produces gives the continued results in order. |
| Simulation.GenSplit | plugins/LuaSnip/deps/jsregexp/libregexp.c:2192-2210 | A split produces the results of the preferred branch and then those of the saved one. |
| Simulation.SucceedPops | plugins/LuaSnip/deps/jsregexp/libregexp.c:2122-2172 | A success drops every pending split and counting state above a lookaround unread. |
| Analysis.FirstEffectSound | plugins/LuaSnip/deps/jsregexp/libregexp.c:950-1030 | Of any pattern the parser produces: if the first effect of its code is to read a character, it always advances. |
| Analysis.AdvancesSound | plugins/LuaSnip/deps/jsregexp/libregexp.c:950-1030 | A pattern that always advances has no result at the cursor it started from, in either direction. |
| Analysis.CheckAdvanceSound | plugins/LuaSnip/deps/jsregexp/libregexp.c:950-1030 | For any body the parser produces, the check reports a dependence on an earlier iteration if and only if the body refers to a group that it writes, and reports an advance only when every way through the body moves the cursor. |
| Analysis.CodeConfined | plugins/LuaSnip/deps/jsregexp/libregexp.c:992-1010 | The code of a pattern writes only the captures of the pattern. |
| Analysis.CodeTracks | plugins/LuaSnip/deps/jsregexp/libregexp.c:992-1030 | The bitmap is exact: the code writes a capture, or refers to it, if and only if the pattern does; atoms that are never run do neither, and of the groups that are reset the last one is not seen. |
| Correct.AcceptsSame | plugins/LuaSnip/deps/jsregexp/libregexp.c:1477-1499 | The emitted character, class or dot instruction accepts exactly the characters the pattern accepts; for a character these are the character itself and, when case is ignored, those with the same image under the map. |
| Correct.CompareForwardSame | plugins/LuaSnip/deps/jsregexp/libregexp.c:2336-2349 | Comparing with a capture whose ends are boundaries ends where the text of the capture is repeated, and fails when it is not. |
| Correct.CompareBackwardSame | plugins/LuaSnip/deps/jsregexp/libregexp.c:2350-2364 | The same for the backward comparison. |
| Correct.LookTurns | plugins/LuaSnip/deps/jsregexp/libregexp.c:2160-2221 | A lookaround keeps the cursor; a positive one keeps the captures of its first inner result, a negative one succeeds with the old state exactly when there is none. |
| Correct.StarCheckedTurns | plugins/LuaSnip/deps/jsregexp/libregexp.c:1621-1634 | The loop with the zero-advance check produces all iterations in order and leaves on an empty one. |
| Correct.StarUncheckedTurns | plugins/LuaSnip/deps/jsregexp/libregexp.c:1621-1637 | The loop without the check does so when its body always moves. |
| Correct.PlusTailTurns | plugins/LuaSnip/deps/jsregexp/libregexp.c:1650-1653 | The branch back that ends a `+` produces the further iterations in order. |
| Correct.ExactTurns | plugins/LuaSnip/deps/jsregexp/libregexp.c:1655-1666 | Body, `loop` and `drop` with a counter on the stack run exactly that many iterations. |
| Correct.UptoTurns | plugins/LuaSnip/deps/jsregexp/libregexp.c:1638-1649 | Split, body, `loop` and `drop` run up to that many iterations, greedy or lazy. |
| Greedy.SimpleDeterministic | plugins/LuaSnip/deps/jsregexp/libregexp.c:1031-1071 | Code with a character count has at most one result, keeps the captures, reads as many characters as the count says, and so many steps back lead to its start; the nested call finds the same end. |
| Greedy.PendingGen | plugins/LuaSnip/deps/jsregexp/libregexp.c:2137-2159 | One saved state with a count offers the same states, longest first, as a stack of splits would. |
| Greedy.LoopGen | plugins/LuaSnip/deps/jsregexp/libregexp.c:2450-2488 | The counting loop, from any number of iterations on, offers all results that are left down to the minimum. |
| Greedy.SimpleTurns | plugins/LuaSnip/deps/jsregexp/libregexp.c:2450-2488 | The counted instruction produces the ordered results of the general greedy quantifier, in 8-bit and UTF-16 mode. |
| Compiled.BackwardNotSimple | plugins/LuaSnip/deps/jsregexp/libregexp.c:1031-1071 | Code for a lookbehind never takes the counted form: its extra steps back rule it out. |
| Compiled.LoopsAdvance | plugins/LuaSnip/deps/jsregexp/libregexp.c:1592-1637 | Each unbounded loop of a well-formed pattern carries the check or has a body that always moves. |
| Compiled.MandatoryTurns | plugins/LuaSnip/deps/jsregexp/libregexp.c:1654-1689 | Mandatory iterations followed by a copy of the atom in the optional part compute the quantifier. |
| Compiled.OptionalTurns | plugins/LuaSnip/deps/jsregexp/libregexp.c:1603-1649 | A quantifier from zero resets the captures of its atom once and then runs the optional iterations. |
| Compiled.Compiles | plugins/LuaSnip/deps/jsregexp/libregexp.c:1215-1770 | Compiler correctness: wherever the code of a pattern stands in a program, it turns every state into the ordered results of the matcher, captures included, and leaves the operand stack as it was. |
| Compiled.ProgramCorrect | plugins/LuaSnip/deps/jsregexp/libregexp.c:1851-1877 | The compiled program halts: with the first match, captures included, or without a match when there is none. |
| StackDepth.FitsInside | plugins/LuaSnip/deps/jsregexp/libregexp.c:114-121 | Relocation: an instruction whose jump stays in its fragment at the right depth still does so when code is put in front of the fragment or behind it. |
| StackDepth.ClosedConcat | plugins/LuaSnip/deps/jsregexp/cutils.c:148-157 | Fragments with inner jumps and balanced stacks may be put one behind the other. |
| StackDepth.AltClosed | plugins/LuaSnip/deps/jsregexp/libregexp.c:1738-1770 | A split and a jump around two closed alternatives end after the second one. |
| StackDepth.CodeClosed | plugins/LuaSnip/deps/jsregexp/libregexp.c:1215-1770 | In the code of every pattern each jump stays inside or lands exactly at the end, and each point has one stack depth on all paths. |
| Safety.ComputeStackSize | plugins/LuaSnip/deps/jsregexp/libregexp.c:1773-1815 | The linear scan returns the largest depth of any point, or -1 exactly when some depth is over 255; the stack is never popped empty. |
| Safety.StepFine | plugins/LuaSnip/deps/jsregexp/libregexp.c:2106-2493 | Every step keeps the invariant: live and saved cursors on boundaries, stack depths as computed, counting states with room to give back what they count. |
| Safety.ProgramSound | plugins/LuaSnip/deps/jsregexp/libregexp.c:1848-1900 | Every compiled program keeps its jumps inside, names existing captures only and stores searchable classes. |
| Safety.RunIsSafe | plugins/LuaSnip/deps/jsregexp/libregexp.c:2089-2494 | After any number of steps of any compiled program, halting or not, nothing undefined has happened and no live or saved stack is deeper than the computed size. |
| Captures.ResultKept | plugins/LuaSnip/deps/jsregexp/libregexp.c:1215-1770 | A term changes only its own groups and leaves each of them as it was, unset or, unless it stands inside a negative lookaround or an atom that is never run, as a span with start not after end, forward and in lookbehind. |
| Captures.GroupKept | plugins/LuaSnip/deps/jsregexp/libregexp.c:1336-1351 | A group ends as the span between where it was entered and where it was left. |
| Captures.OneBranchOnly | plugins/LuaSnip/deps/jsregexp/libregexp.c:1738-1770 | After an alternation only the groups of one alternative can have changed. |
| Captures.WaysAreLive | plugins/LuaSnip/deps/jsregexp/libregexp.c:1738-1770 | Every pattern has a family of group sets that one match can set together, those of one alternative of each alternation; none has a group from a negative lookaround or an atom that is never run. |
| Groups.ResultMeant | plugins/LuaSnip/deps/jsregexp/libregexp.c:1215-1770 | Every group that a result of a term has newly set spans a result of that group's body, matched in the direction in which the group stands, from where the group was entered to where it was left. |
| Groups.MatchedGroups | plugins/LuaSnip/deps/jsregexp/libregexp.c:2089-2494 | Whenever a run of a well-formed pattern reports a match, each group that is set, group 0 among them, spans a result of its body. |
| Partial.YieldsThen | plugins/LuaSnip/deps/jsregexp/libregexp.c:2106-2493 | Runs of any length, halting or not: code that arrives only in states from which a second goal is kept keeps that goal, through every resumption of the choices it has saved. |
| Partial.MatchFrom | plugins/LuaSnip/deps/jsregexp/libregexp.c:2116-2172 | A match is reported in a state in which the code arrived, or comes out of the choices saved before it. |
| Scoped.LookBehaves | plugins/LuaSnip/deps/jsregexp/libregexp.c:2160-2221 | Whatever its body does, a lookaround keeps the cursor, and a negative one leaves every capture alone. |
| Scoped.StarYields | plugins/LuaSnip/deps/jsregexp/libregexp.c:1592-1637 | However often an unbounded loop goes round, with or without the check, it keeps to the groups its body may set. |
| Scoped.GiveYields | plugins/LuaSnip/deps/jsregexp/libregexp.c:2137-2159 | A counting state, however often it is resumed, never goes back behind the start of the loop and keeps the captures. |
| Reported.CodeBehaves | plugins/LuaSnip/deps/jsregexp/libregexp.c:1215-1770 | For every pattern, whether or not its loops halt, any number of steps of its code arrives only in states in which the groups of the pattern are as before, unset or, if they lie in one and the same of the sets that a match can set together, spans. |
| Reported.MatchedCaptures | plugins/LuaSnip/deps/jsregexp/libregexp.c:2089-2494 | Whenever a run of any compiled program reports a match, group 0 is the match, at the start position when sticky, every group is unset or a span between character boundaries, groups that stand inside negative lookarounds or atoms that are never run are unset, and the groups that are set all lie in one of the sets that a match can set together: captures made in a failed alternative do not survive. |
| Exec.Context.constructor | plugins/LuaSnip/deps/jsregexp/libregexp.c:2508-2532 | Execution starts with all captures null and an empty operand stack. |
| Exec.Context.BackReference | plugins/LuaSnip/deps/jsregexp/libregexp.c:2336-2349 | The comparison loop ends where the forward comparison says, or fails when it does. |
| Exec.Context.BackwardBackReference | plugins/LuaSnip/deps/jsregexp/libregexp.c:2350-2364 | The comparison loop ends where the backward comparison says, or fails when it does. |
| Exec.Context.SaveReset | plugins/LuaSnip/deps/jsregexp/libregexp.c:2263-2276 | All captures from the first to the last are null afterwards, the others as before. |
| Exec.Context.Straight | plugins/LuaSnip/deps/jsregexp/libregexp.c:2175-2449 | One straight-line instruction on the capture array and the cursor has the one next state of its specification, or fails and leaves the captures alone. |
| Exec.Context.RunAtom | plugins/LuaSnip/deps/jsregexp/libregexp.c:2464-2476 | The nested call on the atom of a counting loop finds the end that the scan defines, without touching captures. |
| Exec.Context.SimpleGreedy | plugins/LuaSnip/deps/jsregexp/libregexp.c:2450-2488 | The counting loop and its one saved state bring the machine closer to the same outcome. |
| Exec.Context.GiveBack | plugins/LuaSnip/deps/jsregexp/libregexp.c:2137-2159 | Resuming a counting state steps back over one iteration, never in front of the subject, and lowers the count. |
| Exec.Context.Resume | plugins/LuaSnip/deps/jsregexp/libregexp.c:2122-2172 | The popping loop ends the run with the right answer or resumes the saved state that the machine model resumes. |
| Exec.Context.Backtrack | plugins/LuaSnip/deps/jsregexp/libregexp.c:2089-2494 | The main loop ends with the outcome the run has, within the arrays it was given. |
| Exec.Match | plugins/LuaSnip/deps/jsregexp/libregexp.c:2499-2535 | For every well-formed pattern the machine on arrays halts, finds a match exactly when the matcher does, and leaves its captures. |
| Emitter.IsSimpleQuantifier | plugins/LuaSnip/deps/jsregexp/libregexp.c:1034-1071 | The scan counts the characters of simple code and answers -1 for any other. |
| Emitter.Record | plugins/LuaSnip/deps/jsregexp/libregexp.c:992-1010 | The two bits of each capture say whether the code so far writes it and whether it refers to it. |
| Emitter.ScanAdvance | plugins/LuaSnip/deps/jsregexp/libregexp.c:950-1030 | The scan with its bitmap computes the advance check. |
| Emitter.Compiler.Insert | plugins/LuaSnip/deps/jsregexp/libregexp.c:114-121 | Room is made in front of code already emitted, which is kept. |
| Emitter.Compiler.Quantify | plugins/LuaSnip/deps/jsregexp/libregexp.c:1563-1691 | Insertions, patches and copies turn the atom at the end of the code into the code of the quantifier. |
| Emitter.Compiler.TurnAround | plugins/LuaSnip/deps/jsregexp/libregexp.c:1721-1733 | In a lookbehind the last term moves in front of the earlier ones, through scratch space behind the end of the code. |
| Emitter.Compiler.Capture | plugins/LuaSnip/deps/jsregexp/libregexp.c:1331-1356 | A capture group is numbered in the order of opening; the 256th is an error. |
| Emitter.Compiler.Lookaround | plugins/LuaSnip/deps/jsregexp/libregexp.c:1283-1313 | The jump over a lookaround is patched to lead behind its `match`. |
| Emitter.Compiler.Term | plugins/LuaSnip/deps/jsregexp/libregexp.c:1215-1702 | A term appends exactly its code and opens exactly its groups, or fails exactly when a class or the captures exceed their limit. |
| Emitter.Compiler.Alternative | plugins/LuaSnip/deps/jsregexp/libregexp.c:1704-1736 | The same for a sequence of terms, reversed in a lookbehind. |
| Emitter.Compiler.Disjunction | plugins/LuaSnip/deps/jsregexp/libregexp.c:1738-1770 | The same for alternatives, with a split inserted in front and a jump patched behind each. |
| Lre.Compile | plugins/LuaSnip/deps/jsregexp/libregexp.c:1821-1909 | Compilation succeeds exactly when no class, capture count or stack depth exceeds its limit, and then yields the program with its stack size. |
| Lre.CompileAndMatch | plugins/LuaSnip/deps/jsregexp/libregexp.c:1821-1909 | Compiling and then executing, for every well-formed pattern: refused exactly for more than 255 captures or a stack deeper than 255; the answer is that of the matcher, and unless case is ignored the same for every folding map. Without back references a match is found if and only if the pattern means some stretch from an allowed start on, and captures 0 are a leftmost one. |
| Halting.WellFormedHalts | plugins/LuaSnip/deps/jsregexp/libregexp.c:1592-1637 | Well-formed patterns halt on every subject. |
| Halting.LazyLoopHalts | plugins/LuaSnip/deps/jsregexp/libregexp.c:1592-1600 | A lazy loop over the empty pattern, followed by any well-formed pattern, halts, sticky or searching, if and only if that pattern has a result at the start. |
| Halting.RefLoopHalts | plugins/LuaSnip/deps/jsregexp/libregexp.c:1592-1637 | A greedy loop over any well-formed body that refers to a group it writes carries no check; it halts if and only if iterating the body, each time with its first result, comes to a state from which the body has none within as many iterations as there are states of a match on that subject. |
| Halting.DryInTime | plugins/LuaSnip/deps/jsregexp/libregexp.c:1592-1637 | If the iterations of a body ever come to a state from which it has no result, they do so within as many iterations as there are states: cursors times capture arrays. |
| Halting.OptionalRefNeverHalts | plugins/LuaSnip/deps/jsregexp/libregexp.c:1592-1637 | `(?:(c?)\1)*` halts on no subject. |
| CanonicalOrder.InsertMark | plugins/LuaSnip/deps/jsregexp/libunicode.c:783-795 | Shifting and storing inserts one mark into the sorted run. |
| CanonicalOrder.SortCc | plugins/LuaSnip/deps/jsregexp/libunicode.c:773-807 | In place, the buffer becomes the ordering of its old contents, for any classes. |
| CanonicalOrder.OrderIsOrdered | plugins/LuaSnip/deps/jsregexp/libunicode.c:773-807 | Afterwards no mark stands in front of one of smaller class. |
| CanonicalOrder.OrderedStays | plugins/LuaSnip/deps/jsregexp/libunicode.c:773-807 | What is in order is not changed. |
| CanonicalOrder.OrderIdempotent | plugins/LuaSnip/deps/jsregexp/libunicode.c:773-807 | Ordering twice is ordering once. |
| CanonicalOrder.StartersStay | plugins/LuaSnip/deps/jsregexp/libunicode.c:779-781 | Every starter keeps its index, and no other index gets a starter. |
| CanonicalOrder.OrderStable | plugins/LuaSnip/deps/jsregexp/libunicode.c:788-794 | The characters of each class keep their order. |
| CanonicalOrder.SwapInvariant | plugins/LuaSnip/deps/jsregexp/libunicode.c:773-807 | Exchanging two neighbouring marks of different classes does not change the result. |
| CanonicalOrder.OrderAtStarter | plugins/LuaSnip/deps/jsregexp/libunicode.c:779-781 | What stands in front of a starter and what stands behind it are ordered each on its own. |
| PropTable.NothingBehind | plugins/LuaSnip/deps/jsregexp/libunicode.c:1129-1166 | No code point behind the last run has the bit. |
| PropFormat.PackedRuns | plugins/LuaSnip/deps/jsregexp/libunicode.c:1129-1166 | Any runs of up to 0x200000 code points can be written: two of at most 8 in one byte, else one in one, two or three bytes. |
| PropTable.TableRead | plugins/LuaSnip/deps/jsregexp/libunicode.c:1129-1166 | A table written byte by byte from codes is well formed, ends where its runs end, and gives each code point the parity of the runs that end at or in front of it, 0 behind the last. |
| PropTable.EveryTableIsWritten | plugins/LuaSnip/deps/jsregexp/libunicode.c:1129-1166 | Every well-formed table is written from some codes. |
| PropTable.RunsRoundTrip | plugins/LuaSnip/deps/jsregexp/libunicode.c:1129-1166 | Whatever positive run lengths up to 0x200000 are written to a table, the bit of a code point is the parity of the number of run ends at or in front of it, 0 behind the last. |
| PropTable.HexDigits | plugins/LuaSnip/deps/jsregexp/libunicode-table.h:3738-3740 | The table of hexadecimal digits decodes to 0-9, A-F and a-f. |
| PropTable.ReadsNext | plugins/LuaSnip/deps/jsregexp/libunicode.c:215-237 | Decoding one code more leaves the decoder at a place that reads what the whole table says. |
| PropTable.Decode | plugins/LuaSnip/deps/jsregexp/libunicode.c:1129-1166 | The ranges of the full decode, which reads the bytes itself, contain exactly the code points that have the property in the runs the table was written from, and are in compressed form already. |
| PropTable.GetIndexPos | plugins/LuaSnip/deps/jsregexp/libunicode.c:172-203 | The search returns the table start before the first entry, -1 behind the last one compared as a whole, else an entry not behind the code point. |
| PropTable.IsInTable | plugins/LuaSnip/deps/jsregexp/libunicode.c:205-238 | For every table and fitting index the lookup, which reads the bytes itself, gives the bit that the full decode gives for every code point in front of the end of the index, and finds nothing from there on; with an index written from the table it gives the property of the runs for every code point. |
| PropTable.LookupExact | plugins/LuaSnip/deps/jsregexp/libunicode.c:205-238 | The lookup agrees with the full decode on all code points if and only if the last range of the decode does not reach behind the end of the index. |
| PropTable.WrittenIndexFits | plugins/LuaSnip/deps/jsregexp/libunicode.c:172-203 | An index written byte by byte from the table (21 bits of code point, 3 bits of offset, a block each 32 bytes, the end of the table last) fits the table, and nothing has the property behind its end. |
| Utf8.EncodeDecode | plugins/LuaSnip/deps/jsregexp/cutils.c:206-304 | Decoding the encoding of a value below 2^31 gives the value and takes exactly its bytes, whatever follows, and fails when fewer bytes may be read. |
| Utf8.DecodeEncode | plugins/LuaSnip/deps/jsregexp/cutils.c:251-304 | Encoding what was decoded gives the same bytes: overlong forms are rejected. |
| Utf8.EncodeBytes | plugins/LuaSnip/deps/jsregexp/cutils.c:206-239 | The bytes of the encoding, in numbers, for each of the six lengths. |
| Utf8.BelowClasses | plugins/LuaSnip/deps/jsregexp/jsregexp.c:280-286 | Without a first byte 0xfd every decoded value is below 0x40000000, the base of class tags. |
| Utf8.ClassesNeedFd | plugins/LuaSnip/deps/jsregexp/jsregexp.c:280-286 | A value reaches the class tags if and only if its encoding starts with 0xfd. |
| Utf8.UnicodeToUtf8 | plugins/LuaSnip/deps/jsregexp/cutils.c:206-239 | The bytes written are the encoding; nothing is written from 2^31 on. |
| Utf8.UnicodeFromUtf8 | plugins/LuaSnip/deps/jsregexp/cutils.c:251-304 | The loop decodes what the definition decodes, malformed forms included, and never reads behind a buffer that ends in a NUL. |
| Utf16.SliceIsEncoding | plugins/LuaSnip/deps/jsregexp/jsregexp.c:61-93 | For aligned indices the bytes between two indices are the encoding of the units between them, and the indices are strictly increasing. |
| Utf16.Utf8ToUtf16 | plugins/LuaSnip/deps/jsregexp/jsregexp.c:61-93 | Fails exactly on malformed input; never writes more units than bytes; the units and indices are those of each character in turn; for code points up to 0xFFFF the units are the code points and the indices are aligned from 0 to the length. |
| Utf16.WrittenIsUnits | plugins/LuaSnip/deps/jsregexp/jsregexp.c:81-86 | Of the two units written for a code point above 0xFFFF the first always is the high surrogate, and the second is the low surrogate if and only if bit 13 of the code point is 0. |
| Utf16.WrittenAllIsUnits | plugins/LuaSnip/deps/jsregexp/jsregexp.c:75-88 | The whole conversion is UTF-16 if and only if that holds of every character. |
| QuickSort.InsertionSort | plugins/LuaSnip/deps/jsregexp/cutils.c:623-627 | The segment becomes a sorted rearrangement of itself. |
| QuickSort.SiftStep | plugins/LuaSnip/deps/jsregexp/cutils.c:482-488 | One level of sifting keeps the heap apart from the hole, which moves to the greater child. |
| QuickSort.RootIsGreatest | plugins/LuaSnip/deps/jsregexp/cutils.c:490-491 | In a heap no element is greater than the root. |
| QuickSort.HeapSort | plugins/LuaSnip/deps/jsregexp/cutils.c:470-502 | The segment becomes a sorted rearrangement of itself. |
| QuickSort.Med3 | plugins/LuaSnip/deps/jsregexp/cutils.c:504-509 | The chosen element is one of the three and lies between the other two. |
| QuickSort.Split | plugins/LuaSnip/deps/jsregexp/cutils.c:547-573 | The two scans leave elements equal to the pivot at both ends, smaller ones and greater ones between. |
| QuickSort.Gather | plugins/LuaSnip/deps/jsregexp/cutils.c:584-599 | Exchanging the shorter blocks moves the equal elements into the middle, which is never empty. |
| QuickSort.Partition | plugins/LuaSnip/deps/jsregexp/cutils.c:542-605 | Nothing in a part is greater than anything in a later part, the middle is in order, and both outer parts are shorter than the segment. |
| QuickSort.AroundShuffled | plugins/LuaSnip/deps/jsregexp/cutils.c:529-628 | Rearranging one waiting segment keeps everything outside the segments in order. |
| QuickSort.ClimbOne | plugins/LuaSnip/deps/jsregexp/cutils.c:535-541 | Because depths on the stack grow strictly and are at most 50, a push always finds a free entry among 50. |
| QuickSort.PushLarger | plugins/LuaSnip/deps/jsregexp/cutils.c:542-621 | One round of the inner loop stays within the 50 entries of the stack and leaves less work, for any comparison answers. |
| QuickSort.RqSort | plugins/LuaSnip/deps/jsregexp/cutils.c:512-629 | Whatever the comparison function answers, even differently for the same elements from call to call, the array is left as a permutation of itself, and no index leaves the 50 entries of the stack; for answers that form a total preorder the result is sorted. |
| FuzzyText.BonusFor | plugins/telescope-fzf-native.nvim/src/fzf.c:307-319 | In numbers: 8 next to a character that belongs to no word, 7 for an upper-case letter behind a lower-case one and for a digit behind a letter, else 0. |
| FuzzyText.FoldedInNumbers | plugins/telescope-fzf-native.nvim/src/fzf.c:416-419 | Without regard to case bytes 65 to 90 become bytes 97 to 122, and nothing else changes. |
| FuzzyText.FoundAll | plugins/telescope-fzf-native.nvim/src/fzf.c:474-497 | The greedy scan finds the whole pattern if and only if the pattern is a subsequence. |
| FuzzyText.TrySkip | plugins/telescope-fzf-native.nvim/src/fzf.c:342-367 | The first position from there on that can match the byte, in either case when case is ignored. |
| FuzzyText.AsciiFuzzyIndex | plugins/telescope-fzf-native.nvim/src/fzf.c:379-399 | The prefilter rejects only texts that do not contain the pattern, and skips no place where an embedding can start. |
| FuzzyV1.BonusInNumbers | plugins/telescope-fzf-native.nvim/src/fzf.c:307-326 | The bonus of a place from its byte and the one before it, in numbers. |
| FuzzyV1.MatchBonusInNumbers | plugins/telescope-fzf-native.nvim/src/fzf.c:426-434 | A match next to the last one is worth 8 if some match of the run so far stands at a word edge, else 7 if it or the first of the run stands at a hump or a digit behind a letter, else 4; any other match is worth its place. |
| FuzzyV1.ScoreInNumbers | plugins/telescope-fzf-native.nvim/src/fzf.c:401-460 | The score of an alignment in numbers: 16 for each match, what their places are worth, the first one twice, less g + 2 for each gap of g > 0 characters. |
| FuzzyV1.NextMatchInNumbers | plugins/telescope-fzf-native.nvim/src/fzf.c:425-452 | One more match is worth 20, 23 or 24 next to the last one, else 16 and its place, less 3 for the gap and 1 for each further character in it. |
| FuzzyV1.WiderGap | plugins/telescope-fzf-native.nvim/src/fzf.c:446-452 | One more character inside a gap, whatever it is, costs exactly 1. |
| FuzzyV1.CalculateScore | plugins/telescope-fzf-native.nvim/src/fzf.c:401-460 | Over a span that the pattern fills, exactly the positions of an embedding are recorded, the pattern is never overrun, and the score is that of the alignment, in numbers as well. |
| FuzzyV1.ForwardPass | plugins/telescope-fzf-native.nvim/src/fzf.c:474-497 | The end found is the earliest of any embedding, and the start the first place of the first character. |
| FuzzyV1.BackwardPass | plugins/telescope-fzf-native.nvim/src/fzf.c:498-515 | The unsigned backward loop always leaves by its break, at the latest start for that end. |
| FuzzyV1.FuzzyMatchV1 | plugins/telescope-fzf-native.nvim/src/fzf.c:462-522 | Succeeds if and only if the pattern is a subsequence of the folded text; returns the earliest end, for it the latest start, and the positions of an embedding that fills the span, with its score in numbers. |
| FuzzyV2.ValueFits | plugins/telescope-fzf-native.nvim/src/fzf.c:686-724 | In the recurrence a match scores at least 16 more than its diagonal, and anything else is 0 or less than its left neighbour. |
| FuzzyV2.FirstInNumbers | plugins/telescope-fzf-native.nvim/src/fzf.c:601-621 | A cell of the first row in numbers: 16 and twice its place, or what its left neighbour leaves, down to 0. |
| FuzzyV2.CellInNumbers | plugins/telescope-fzf-native.nvim/src/fzf.c:686-724 | A cell of a later row in numbers, from its diagonal and its left neighbour, with bonuses by bytes: the first place of the run counts. |
| FuzzyV2.GapInNumbers | plugins/telescope-fzf-native.nvim/src/fzf.c:686-724 | Behind the first place of a pattern character, n > 0 columns without a match leave the score less n + 2, or 0. |
| FuzzyV2.AdjacentInNumbers | plugins/telescope-fzf-native.nvim/src/fzf.c:686-724 | Where the first places follow each other, the cell has the score of that alignment. |
| FuzzyV2.CellIsBacked | plugins/telescope-fzf-native.nvim/src/fzf.c:686-724 | Behind every cell there is an alignment whose score, less what the gap up to the cell costs, is at most that of the cell, and exactly that in a grid of at most 14 columns. |
| FuzzyV2.BestSupported | plugins/telescope-fzf-native.nvim/src/fzf.c:719-724 | The best score is at least that of an alignment that ends at the reported end. |
| FuzzyV2.ScoreBoundIsExact | plugins/telescope-fzf-native.nvim/src/fzf.c:307-319 | The bound 24M + 8 is attained: M characters that are no word characters, in a text of at least as many, reach it, which leaves 16 bits if and only if M is more than 1364. |
| FuzzyV2.GridUnique | plugins/telescope-fzf-native.nvim/src/fzf.c:592-604 | A text and a pattern have only one grid: the first places of the pattern characters, and columns up to the last place of the last one. |
| FuzzyV2.ScoreCell | plugins/telescope-fzf-native.nvim/src/fzf.c:686-724 | In 16 bits, and with the look-back at a bonus in range, the cell gets the score, the run length and the gap flag of the recurrence, in numbers as well. |
| FuzzyV2.FillCell | plugins/telescope-fzf-native.nvim/src/fzf.c:686-724 | The cell written is that of the recurrence, and every cell written before is kept. |
| FuzzyV2.FillRow | plugins/telescope-fzf-native.nvim/src/fzf.c:665-725 | After a row all its cells are those of the recurrence, and in the last row the first best cell is remembered. |
| FuzzyV2.FirstPass | plugins/telescope-fzf-native.nvim/src/fzf.c:559-627 | The first pass folds the text, rates it, finds the first place of each pattern character and the last place of the last one, and fills row 0 of the recurrence; for one character it finds the first of the best places. |
| FuzzyV2.BestIsTaken | plugins/telescope-fzf-native.nvim/src/fzf.c:719-752 | The best cell of the last row is always taken as a match, so the traceback starts at the reported end. |
| FuzzyV2.TraceCell | plugins/telescope-fzf-native.nvim/src/fzf.c:733-752 | A cell that is taken matches its pattern character, and the first cell of a row is always taken. |
| FuzzyV2.Traceback | plugins/telescope-fzf-native.nvim/src/fzf.c:727-757 | Whatever the cells that were never written hold, it stays in the written part, ends, and lists one strictly decreasing position for each pattern character, spelling the pattern backwards. The positions are those of the cells taken on the way: a cell is taken if it is better than its diagonal and better than its left neighbour, or as good when matches are preferred, which they are next to a run. |
| FuzzyV2.SlabBoundsPattern | plugins/telescope-fzf-native.nvim/src/fzf.c:532-535 | With the default slab a matrix is only filled for at most 320 pattern characters; a slab of at most 1364 * 1364 entries keeps every run within 16 bits. |
| FuzzyV2.FuzzyMatchV2 | plugins/telescope-fzf-native.nvim/src/fzf.c:524-768 | Fails exactly when the pattern is not a subsequence; else the positions, last first, are an embedding whose ends are the reported span, and score and end are those of the first best cell in the last row of the recurrence, between 16 and 24M + 8, and the positions those of the traceback from there. The score is at least that of an alignment that ends there, exactly that in a text of at most 14 characters, and when the pattern is the whole folded text it is that of the whole text; for one character it is 16 and twice the best place. |
| FuzzyExact.BestPlace | plugins/telescope-fzf-native.nvim/src/fzf.c:786-819 | The restarting loop finds the first of the occurrences with the highest bonus, or that there is none; by bytes: the first at a word edge, else the first at a hump or a digit behind a letter, else the first. |
| FuzzyExact.ExactMatchNaive | plugins/telescope-fzf-native.nvim/src/fzf.c:770-832 | Fails exactly when the pattern does not occur; else reports that occurrence, its positions and the score of the alignment in numbers. |

## Left out

- Pattern text: escapes, class syntax, group names, flags and error messages are not parsed; compilation starts from a pattern tree.
- Byte layout of the code, its header and the dump routines: instructions are values, so operand widths are not modelled apart from classes.
- Unicode data: case folding, decomposition, general categories, scripts and the combining-class table, including the three-byte run form of unicode_get_cc, whose shifts overlap.
- Memory allocation failure, the reallocation callbacks and the choice of swap routine by alignment.
- Halting.WellFormedHalts: lazy loops over bodies that can match empty and greedy loops that refer to a group they write are not covered, because the code adds no zero-advance check there; RefLoopHalts and LazyLoopHalts decide two kinds of them, where they make up the whole pattern or, over an empty body, stand at its front.
- Language.EndsAre: back references are left out of the declarative meaning, because what they match depends on captures.
- Language.BackRefMeans: subjects in UTF-16 mode are not covered; with case ignored a surrogate pair may there have the same image as one unit, so that the repeated text has another length.
- FuzzyV2.FuzzyMatchV2: when a matrix is filled it is claimed for patterns of up to 1364 characters, because for every longer pattern length and every text length that is not less some input leaves 16-bit scores (ScoreBoundIsExact); nothing is said about the score being the best over all alignments, and the null position list is not modelled.
- Utf16.Utf8ToUtf16: for code points above 0x10FFFF, which the 31-bit codec accepts, the two units are written as the code writes them, but nothing is said about what they mean.
- PropTable.IsInTable: the last index entry is only required not to lie behind the end of the table, because the search compares it unmasked and never starts decoding there; behind the table the C code would read on.
- The prefix, suffix and equal matchers, pattern parsing and sorting of the fuzzy finder, and its position and slab bookkeeping.
- The result object of regexp_call, the Lua bindings and all Lua configuration.
