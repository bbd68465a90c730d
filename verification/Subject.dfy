/** The subject string of a match and the cursor macros of the virtual machine.

    A cursor is an index into `units`.  In UTF-16 mode one character may span two units (a surrogate
    pair, section 2 of RFC 2781); in the 8-bit and plain 16-bit modes every character is one unit. */
module Subject {
  import opened Integers

  type Unit = u16

  datatype Subject = Subject(units: seq<Unit>, utf16: bool)

  predicate IsHigh(u: nat) { 0xd800 <= u < 0xdc00 }

  predicate IsLow(u: nat) { 0xdc00 <= u < 0xe000 }

  function Combine(hi: nat, lo: nat): nat {
    (hi % 0x400) * 0x400 + lo % 0x400 + 0x1_0000
  }

  /** The two units at `p` form one character of a UTF-16 subject. */
  predicate PairAt(t: Subject, p: int) {
    t.utf16 && 0 <= p && p + 1 < |t.units| && IsHigh(t.units[p]) && IsLow(t.units[p + 1])
  }

  /** A cursor that does not stand between the two halves of a surrogate pair. */
  predicate Boundary(t: Subject, p: int) {
    0 <= p <= |t.units| && !PairAt(t, p - 1)
  }

  /** GET_CHAR: the character read at `p`. */
  function CharAt(t: Subject, p: nat): (c: nat)
    requires p < |t.units|
    ensures c <= 0x10_FFFF
  {
    if PairAt(t, p) then Combine(t.units[p], t.units[p + 1]) else t.units[p]
  }

  /** GET_CHAR: where the cursor stands afterwards. */
  function NextPos(t: Subject, p: nat): (q: nat)
    requires p < |t.units|
    ensures p < q <= |t.units|
  {
    if PairAt(t, p) then p + 2 else p + 1
  }

  /** PREV_CHAR. */
  function PrevPos(t: Subject, p: nat): (q: nat)
    requires 0 < p <= |t.units|
    ensures q < p
  {
    if PairAt(t, p - 2) then p - 2 else p - 1
  }

  /** PEEK_PREV_CHAR. */
  function PeekPrev(t: Subject, p: nat): (c: nat)
    requires 0 < p <= |t.units|
  {
    if PairAt(t, p - 2) then Combine(t.units[p - 2], t.units[p - 1]) else t.units[p - 1]
  }

  /** The number of characters before `p`. */
  function Chars(t: Subject, p: nat): (n: nat)
    requires p <= |t.units|
  {
    if p == 0 then 0 else 1 + Chars(t, PrevPos(t, p))
  }

  /** PREV_CHAR applied `n` times, as the machine does when it gives back one greedy iteration. */
  function PrevPosN(t: Subject, n: nat, p: nat): (q: nat)
    requires p <= |t.units| && n <= Chars(t, p)
    ensures q <= p && Chars(t, q) == Chars(t, p) - n
  {
    if n == 0 then p else PrevPosN(t, n - 1, PrevPos(t, p))
  }

  /** Neither macro ever leaves the cursor inside a surrogate pair when it starts outside one, and
      each undoes the other. */
  lemma NextThenPrev(t: Subject, p: nat)
    requires p < |t.units| && Boundary(t, p)
    ensures Boundary(t, NextPos(t, p))
    ensures PrevPos(t, NextPos(t, p)) == p
    ensures PeekPrev(t, NextPos(t, p)) == CharAt(t, p)
  {
  }

  lemma PrevThenNext(t: Subject, p: nat)
    requires 0 < p <= |t.units| && Boundary(t, p)
    ensures Boundary(t, PrevPos(t, p))
    ensures NextPos(t, PrevPos(t, p)) == p
    ensures PeekPrev(t, p) == CharAt(t, PrevPos(t, p))
  {
  }

  /** Inside a surrogate pair the round trip fails: the condition `Boundary` is exact. */
  lemma RoundTripNeedsBoundary(t: Subject, p: nat)
    requires 0 < p < |t.units|
    ensures PrevPos(t, NextPos(t, p)) == p && NextPos(t, PrevPos(t, p)) == p <==> Boundary(t, p)
  {
  }

  lemma {:induction false} PrevPosNAdd(t: Subject, m: nat, n: nat, p: nat)
    requires p <= |t.units| && m + n <= Chars(t, p)
    ensures PrevPosN(t, m + n, p) == PrevPosN(t, n, PrevPosN(t, m, p))
    decreases m
  {
    if m != 0 {
      PrevPosNAdd(t, m - 1, n, PrevPos(t, p));
    }
  }
}
