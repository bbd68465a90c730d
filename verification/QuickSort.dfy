/** `rqsort`: a quicksort without recursion, with three-way partitions, a heap sort for deep segments and
    an insertion sort for short ones. */
module QuickSort {
  import opened Shuffle

  const MAX_DEPTH: nat := 50
  const STACK_SIZE: nat := 50
  const SMALL: nat := 6

  /** A comparison function that orders its arguments, equal elements allowed. */
  ghost predicate Preorder<T(!new)>(cmp: (T, T) -> int) {
    && (forall a, b :: cmp(a, b) < 0 <==> cmp(b, a) > 0)
    && (forall a, b, c :: cmp(a, b) <= 0 && cmp(b, c) <= 0 ==> cmp(a, c) <= 0)
  }

  /** A comparison function as the sort sees it: it is called again and again, and its answers may depend on
      how often it has been called. */
  class Comparator<T(!new)> {
    const answer: (nat, T, T) -> int
    var calls: nat

    constructor (answer: (nat, T, T) -> int)
      ensures this.answer == answer && calls == 0
    {
      this.answer, calls := answer, 0;
    }

    method Compare(x: T, y: T) returns (c: int)
      modifies this
      ensures c == answer(old(calls), x, y) && calls == old(calls) + 1
      ensures Steady(this) ==> c == Order(this)(x, y)
    {
      c := answer(calls, x, y);
      calls := calls + 1;
    }
  }

  /** Its answers depend on the elements only. */
  ghost predicate Steady<T(!new)>(cmp: Comparator<T>) {
    forall n: nat, x, y :: cmp.answer(n, x, y) == cmp.answer(0, x, y)
  }

  ghost function Order<T(!new)>(cmp: Comparator<T>): (T, T) -> int {
    (x: T, y: T) => cmp.answer(0, x, y)
  }

  /** Its answers order the elements. */
  ghost predicate Orderly<T(!new)>(cmp: Comparator<T>) {
    Steady(cmp) && Preorder(Order(cmp))
  }

  lemma Flip<T(!new)>(cmp: (T, T) -> int, a: T, b: T)
    requires Preorder(cmp)
    ensures cmp(a, b) < 0 <==> cmp(b, a) > 0
    ensures cmp(a, b) == 0 <==> cmp(b, a) == 0
  {
    assert cmp(b, a) < 0 <==> cmp(a, b) > 0;
  }

  lemma Trans<T(!new)>(cmp: (T, T) -> int, a: T, b: T, c: T)
    requires Preorder(cmp) && cmp(a, b) <= 0 && cmp(b, c) <= 0
    ensures cmp(a, c) <= 0
  {
  }

  /** Nothing in [i, j) of `s` is greater than anything in [k, l). */
  ghost predicate Below<T(!new)>(cmp: (T, T) -> int, s: seq<T>, i: int, j: int, k: int, l: int) {
    forall x, y :: 0 <= i <= x < j <= |s| && 0 <= k <= y < l <= |s| ==> cmp(s[x], s[y]) <= 0
  }

  ghost predicate SortedIn<T(!new)>(cmp: (T, T) -> int, s: seq<T>, lo: int, hi: int) {
    forall i, j :: 0 <= lo <= i < j < hi <= |s| ==> cmp(s[i], s[j]) <= 0
  }

  // ---------------------------------------------------------------- insertion sort

  /** Sorted up to `hi`, except that the element at `at` may belong further to the left. */
  ghost predicate SortedBut<T(!new)>(cmp: (T, T) -> int, s: seq<T>, lo: int, hi: int, at: int) {
    forall i, j :: 0 <= lo <= i < j < hi <= |s| && j != at ==> cmp(s[i], s[j]) <= 0
  }

  lemma SinkOne<T(!new)>(cmp: (T, T) -> int, s: seq<T>, lo: int, hi: int, at: int)
    requires Preorder(cmp) && 0 <= lo < at < hi <= |s| && SortedBut(cmp, s, lo, hi, at) && cmp(s[at - 1], s[at]) > 0
    ensures SortedBut(cmp, s[at := s[at - 1]][at - 1 := s[at]], lo, hi, at - 1)
  {
    Flip(cmp, s[at - 1], s[at]);
    hide Preorder;
  }

  lemma SinkDone<T(!new)>(cmp: (T, T) -> int, s: seq<T>, lo: int, hi: int, at: int)
    requires Preorder(cmp) && 0 <= lo <= at < hi <= |s| && SortedBut(cmp, s, lo, hi, at)
    requires at == lo || cmp(s[at - 1], s[at]) <= 0
    ensures SortedIn(cmp, s, lo, hi)
  {
    hide Preorder;
    forall i, j | lo <= i < j < hi
      ensures cmp(s[i], s[j]) <= 0
    {
      if j == at && i < at - 1 {
        Trans(cmp, s[i], s[at - 1], s[at]);
      }
    }
  }

  method SinkStep<T(!new)>(a: array<T>, ghost lo: nat, ghost pi: nat, pj: nat, ghost hi: nat, ghost cmp: Comparator<T>)
    requires lo < pj <= pi < hi <= a.Length
    requires Orderly(cmp) ==> SortedBut(Order(cmp), a[..], lo, pi + 1, pj) && Order(cmp)(a[pj - 1], a[pj]) > 0
    modifies a
    ensures Shuffled(old(a[..]), a[..], lo, hi)
    ensures Orderly(cmp) ==> SortedBut(Order(cmp), a[..], lo, pi + 1, pj - 1)
  {
    hide Shuffled, Preorder, Steady, Order, SortedBut;
    if Orderly(cmp) {
      SinkOne(Order(cmp), a[..], lo, pi + 1, pj);
    }
    Swap(a, pj, pj - 1, lo, hi);
  }

  /** Moves the element at `pi` down to its place. */
  method Sink<T(!new)>(a: array<T>, lo: nat, pi: nat, ghost hi: nat, cmp: Comparator<T>)
    requires lo < pi < hi <= a.Length && (Orderly(cmp) ==> SortedIn(Order(cmp), a[..], lo, pi))
    modifies a, cmp
    ensures Shuffled(old(a[..]), a[..], lo, hi)
    ensures Orderly(cmp) ==> SortedIn(Order(cmp), a[..], lo, pi + 1)
  {
    hide Shuffled, Preorder, Steady, Order;
    ShuffledSelf(a[..], lo, hi);
    var pj := pi;
    while pj > lo
      invariant lo <= pj <= pi
      invariant Shuffled(old(a[..]), a[..], lo, hi)
      invariant Orderly(cmp) ==> SortedBut(Order(cmp), a[..], lo, pi + 1, pj)
    {
      ghost var s := a[..];
      var c := cmp.Compare(a[pj - 1], a[pj]);
      if c <= 0 {
        break;
      }
      SinkStep(a, lo, pi, pj, hi, cmp);
      ShuffledTrans(old(a[..]), s, a[..], lo, hi);
      pj := pj - 1;
    }
    if Orderly(cmp) {
      SinkDone(Order(cmp), a[..], lo, pi + 1, pj);
    }
  }

  method InsertionSort<T(!new)>(a: array<T>, lo: nat, hi: nat, cmp: Comparator<T>)
    requires lo <= hi <= a.Length
    modifies a, cmp
    ensures Shuffled(old(a[..]), a[..], lo, hi)
    ensures Orderly(cmp) ==> SortedIn(Order(cmp), a[..], lo, hi)
  {
    hide Shuffled, Orderly;
    ShuffledSelf(a[..], lo, hi);
    var pi := lo + 1;
    while pi < hi
      invariant lo + 1 <= pi <= hi || hi <= pi == lo + 1
      invariant Shuffled(old(a[..]), a[..], lo, hi)
      invariant Orderly(cmp) ==> SortedIn(Order(cmp), a[..], lo, pi)
    {
      ghost var s := a[..];
      Sink(a, lo, pi, hi, cmp);
      ShuffledTrans(old(a[..]), s, a[..], lo, hi);
      pi := pi + 1;
    }
  }

  // ---------------------------------------------------------------- heap sort

  predicate Child(r: int, c: int) {
    c == 2 * r + 1 || c == 2 * r + 2
  }

  predicate Ge<T>(cmp: (T, T) -> int, s: seq<T>, lo: int, r: int, c: int)
    requires 0 <= lo && 0 <= r && lo + r < |s| && 0 <= c && lo + c < |s|
  {
    cmp(s[lo + r], s[lo + c]) >= 0
  }

  /** The `n` elements behind `lo` form a heap from node `from` on. */
  ghost predicate HeapIn<T>(cmp: (T, T) -> int, s: seq<T>, lo: nat, from: nat, n: nat)
    requires lo + n <= |s|
  {
    forall r, c :: Child(r, c) && from <= r && c < n ==> Ge(cmp, s, lo, r, c)
  }

  /** A heap, except that the element at `hole` may be too small. */
  ghost predicate HeapBut<T>(cmp: (T, T) -> int, s: seq<T>, lo: nat, from: nat, n: nat, hole: nat)
    requires lo + n <= |s|
  {
    && (forall r, c :: Child(r, c) && from <= r && c < n && r != hole ==> Ge(cmp, s, lo, r, c))
    && (forall p, c :: Child(p, hole) && from <= p && Child(hole, c) && c < n ==> Ge(cmp, s, lo, p, c))
  }

  /** No child of `r` is greater than the element at `c`. */
  ghost predicate Above<T(!new)>(cmp: (T, T) -> int, s: seq<T>, lo: nat, n: nat, r: nat, c: nat)
    requires lo + n <= |s| && r < n && c < n
  {
    forall d :: Child(r, d) && d < n ==> Ge(cmp, s, lo, c, d)
  }

  /** Swapping the hole with its greater child moves the hole down. */
  lemma SiftOne<T(!new)>(cmp: (T, T) -> int, s: seq<T>, lo: nat, from: nat, n: nat, r: nat, c: nat)
    requires Preorder(cmp) && lo + n <= |s| && from <= r && Child(r, c) && c < n && HeapBut(cmp, s, lo, from, n, r)
    requires Above(cmp, s, lo, n, r, c)
    requires cmp(s[lo + r], s[lo + c]) <= 0
    ensures HeapBut(cmp, s[lo + r := s[lo + c]][lo + c := s[lo + r]], lo, from, n, c)
  {
    Flip(cmp, s[lo + r], s[lo + c]);
    hide Preorder;
    var s' := s[lo + r := s[lo + c]][lo + c := s[lo + r]];
    forall p, d | Child(p, d) && from <= p && d < n && p != c
      ensures Ge(cmp, s', lo, p, d)
    {
      if p == r {
        assert Ge(cmp, s, lo, c, d);
      } else if d == r {
        assert Ge(cmp, s, lo, p, c);
      } else {
        assert Ge(cmp, s, lo, p, d);
      }
    }
    forall p, d | Child(p, c) && from <= p && Child(c, d) && d < n
      ensures Ge(cmp, s', lo, p, d)
    {
      assert p == r && Ge(cmp, s, lo, c, d);
    }
  }

  lemma SiftDone<T(!new)>(cmp: (T, T) -> int, s: seq<T>, lo: nat, from: nat, n: nat, r: nat)
    requires lo + n <= |s| && r < n && HeapBut(cmp, s, lo, from, n, r) && Above(cmp, s, lo, n, r, r)
    ensures HeapIn(cmp, s, lo, from, n)
  {
  }

  /** The greater of the children of `r`, the second one when they are equal. */
  method GreaterChild<T(!new)>(a: array<T>, lo: nat, n: nat, r: nat, cmp: Comparator<T>) returns (c: nat)
    requires lo + n <= a.Length && 2 * r + 1 < n
    modifies cmp
    ensures Child(r, c) && c < n && a[..] == old(a[..])
    ensures Orderly(cmp) ==> Above(Order(cmp), a[..], lo, n, r, c)
  {
    hide Preorder, Steady, Order, Above;
    ghost var s := a[..];
    if Orderly(cmp) {
      GreaterAbove(Order(cmp), s, lo, n, r);
    }
    c := 2 * r + 1;
    if c < n - 1 {
      var d := cmp.Compare(a[lo + c], a[lo + c + 1]);
      if d <= 0 {
        c := c + 1;
      }
    }
    assert a[..] == s;
  }

  lemma GreaterAbove<T(!new)>(cmp: (T, T) -> int, s: seq<T>, lo: nat, n: nat, r: nat)
    requires Preorder(cmp) && lo + n <= |s| && 2 * r + 1 < n
    ensures var c := 2 * r + 1;
            Above(cmp, s, lo, n, r, if c + 1 < n && cmp(s[lo + c], s[lo + c + 1]) <= 0 then c + 1 else c)
  {
    var c := 2 * r + 1;
    Flip(cmp, s[lo + c], s[lo + c]);
    if c + 1 < n {
      Flip(cmp, s[lo + c], s[lo + c + 1]);
      Flip(cmp, s[lo + c + 1], s[lo + c + 1]);
    }
  }

  /** Greater than the greater child is greater than both. */
  lemma AboveChildren<T(!new)>(cmp: (T, T) -> int, s: seq<T>, lo: nat, n: nat, r: nat, c: nat)
    requires Preorder(cmp) && lo + n <= |s| && Child(r, c) && c < n && cmp(s[lo + r], s[lo + c]) > 0
    requires Above(cmp, s, lo, n, r, c)
    ensures Above(cmp, s, lo, n, r, r)
  {
    forall d | Child(r, d) && d < n
      ensures Ge(cmp, s, lo, r, d)
    {
      assert Ge(cmp, s, lo, c, d);
      Flip(cmp, s[lo + c], s[lo + d]);
      Flip(cmp, s[lo + r], s[lo + c]);
      Trans(cmp, s[lo + d], s[lo + c], s[lo + r]);
      Flip(cmp, s[lo + d], s[lo + r]);
      Flip(cmp, s[lo + r], s[lo + d]);
    }
  }

  /** One level of the sift: either the element at `r` may stay, or it changes places with a child. */
  method SiftStep<T(!new)>(a: array<T>, lo: nat, ghost start: nat, n: nat, r: nat, cmp: Comparator<T>)
    returns (done: bool, c: nat)
    requires lo + n <= a.Length && start <= r && 2 * r + 1 < n
    requires Orderly(cmp) ==> HeapBut(Order(cmp), a[..], lo, start, n, r)
    modifies a, cmp
    ensures Shuffled(old(a[..]), a[..], lo, lo + n) && r < c < n
    ensures Orderly(cmp) ==>
              if done then HeapIn(Order(cmp), a[..], lo, start, n) else HeapBut(Order(cmp), a[..], lo, start, n, c)
  {
    hide Shuffled, Preorder, Steady, Order, HeapBut, HeapIn, Ge, Above;
    c := GreaterChild(a, lo, n, r, cmp);
    ghost var s := a[..];
    var d := cmp.Compare(a[lo + r], a[lo + c]);
    done := d > 0;
    if done {
      ShuffledSelf(s, lo, lo + n);
      if Orderly(cmp) {
        AboveChildren(Order(cmp), s, lo, n, r, c);
        SiftDone(Order(cmp), s, lo, start, n, r);
      }
    } else {
      if Orderly(cmp) {
        SiftOne(Order(cmp), s, lo, start, n, r, c);
      }
      Swap(a, lo + r, lo + c, lo, lo + n);
    }
  }

  method Sift<T(!new)>(a: array<T>, lo: nat, start: nat, n: nat, cmp: Comparator<T>)
    requires lo + n <= a.Length
    requires Orderly(cmp) ==> HeapBut(Order(cmp), a[..], lo, start, n, start)
    modifies a, cmp
    ensures Shuffled(old(a[..]), a[..], lo, lo + n)
    ensures Orderly(cmp) ==> HeapIn(Order(cmp), a[..], lo, start, n)
  {
    hide Shuffled, Preorder, Steady, Order, HeapBut, HeapIn, Ge;
    ShuffledSelf(a[..], lo, lo + n);
    var r := start;
    while 2 * r + 1 < n
      invariant start <= r && Shuffled(old(a[..]), a[..], lo, lo + n)
      invariant Orderly(cmp) ==> HeapBut(Order(cmp), a[..], lo, start, n, r)
      decreases n - r
    {
      ghost var s := a[..];
      var done;
      done, r := SiftStep(a, lo, start, n, r, cmp);
      ShuffledTrans(old(a[..]), s, a[..], lo, lo + n);
      if done {
        return;
      }
    }
    NoChildren(Order(cmp), a[..], lo, start, n, r);
  }

  lemma NoChildren<T(!new)>(cmp: (T, T) -> int, s: seq<T>, lo: nat, from: nat, n: nat, r: nat)
    requires lo + n <= |s| && n <= 2 * r + 1
    ensures HeapBut(cmp, s, lo, from, n, r) ==> HeapIn(cmp, s, lo, from, n)
  {
    hide Ge;
  }

  lemma HeapOpen<T(!new)>(cmp: (T, T) -> int, s: seq<T>, lo: nat, i: nat, n: nat)
    requires lo + n <= |s| && HeapIn(cmp, s, lo, i + 1, n)
    ensures HeapBut(cmp, s, lo, i, n, i)
  {
  }

  lemma {:induction false} RootIsGreatest<T(!new)>(cmp: (T, T) -> int, s: seq<T>, lo: nat, n: nat, k: nat)
    requires Preorder(cmp) && lo + n <= |s| && k < n && HeapIn(cmp, s, lo, 0, n)
    ensures cmp(s[lo + k], s[lo]) <= 0
    decreases k
  {
    if k == 0 {
      Flip(cmp, s[lo], s[lo]);
    } else {
      var p := (k - 1) / 2;
      assert Child(p, k) && Ge(cmp, s, lo, p, k);
      Flip(cmp, s[lo + p], s[lo + k]);
      Flip(cmp, s[lo + k], s[lo + p]);
      RootIsGreatest(cmp, s, lo, n, p);
      Trans(cmp, s[lo + k], s[lo + p], s[lo]);
    }
  }

  /** The elements from `i` on are in their final places. */
  ghost predicate Finished<T(!new)>(cmp: (T, T) -> int, s: seq<T>, lo: int, i: int, hi: int) {
    SortedIn(cmp, s, i, hi) && Below(cmp, s, lo, i, i, hi)
  }

  /** Rearranging the elements below does not disturb those that are finished. */
  lemma FinishedKept<T(!new)>(cmp: (T, T) -> int, s: seq<T>, s': seq<T>, lo: int, i: int, hi: int)
    requires Shuffled(s, s', lo, i) && i <= hi <= |s| && Finished(cmp, s, lo, i, hi)
    ensures Finished(cmp, s', lo, i, hi)
  {
    forall x, y | lo <= x < i && i <= y < hi
      ensures cmp(s'[x], s'[y]) <= 0
    {
      var j := ShuffledFrom(s, s', lo, i, x);
      assert cmp(s[j], s[y]) <= 0;
    }
  }

  /** Moving the root behind the heap finishes one more element. */
  lemma RootOut<T(!new)>(cmp: (T, T) -> int, s: seq<T>, lo: nat, i: nat, n: nat)
    requires Preorder(cmp) && 0 < i < n && lo + n <= |s|
    requires HeapIn(cmp, s, lo, 0, i + 1) && Finished(cmp, s, lo, lo + i + 1, lo + n)
    ensures var s' := s[lo := s[lo + i]][lo + i := s[lo]];
            HeapBut(cmp, s', lo, 0, i, 0) && Finished(cmp, s', lo, lo + i, lo + n)
  {
    var s' := s[lo := s[lo + i]][lo + i := s[lo]];
    forall x | lo <= x < lo + i + 1
      ensures cmp(s[x], s[lo]) <= 0
    {
      RootIsGreatest(cmp, s, lo, i + 1, x - lo);
    }
    hide Preorder;
    RootOutHeap(cmp, s, lo, i);
    forall x, y | lo <= x < lo + i && lo + i <= y < lo + n
      ensures cmp(s'[x], s'[y]) <= 0
    {
      if y == lo + i {
        assert s'[y] == s[lo] && s'[x] == s[if x == lo then lo + i else x];
      } else {
        assert s'[x] == s[if x == lo then lo + i else x];
      }
    }
    forall x, y | lo + i <= x < y < lo + n
      ensures cmp(s'[x], s'[y]) <= 0
    {
      assert s'[x] == s[if x == lo + i then lo else x];
    }
  }

  lemma RootOutHeap<T(!new)>(cmp: (T, T) -> int, s: seq<T>, lo: nat, i: nat)
    requires 0 < i && lo + i + 1 <= |s| && HeapIn(cmp, s, lo, 0, i + 1)
    ensures HeapBut(cmp, s[lo := s[lo + i]][lo + i := s[lo]], lo, 0, i, 0)
  {
    var s' := s[lo := s[lo + i]][lo + i := s[lo]];
    forall r, c | Child(r, c) && 0 <= r && c < i && r != 0
      ensures Ge(cmp, s', lo, r, c)
    {
      assert Ge(cmp, s, lo, r, c);
    }
  }

  method BuildHeap<T(!new)>(a: array<T>, lo: nat, n: nat, cmp: Comparator<T>)
    requires lo + n <= a.Length
    modifies a, cmp
    ensures Shuffled(old(a[..]), a[..], lo, lo + n)
    ensures Orderly(cmp) ==> HeapIn(Order(cmp), a[..], lo, 0, n)
  {
    hide Shuffled, Preorder, Steady, Order, HeapBut, HeapIn, Ge;
    ShuffledSelf(a[..], lo, lo + n);
    var i := n / 2;
    NoParents(Order(cmp), a[..], lo, i, n);
    while i > 0
      invariant 0 <= i <= n / 2 && Shuffled(old(a[..]), a[..], lo, lo + n)
      invariant Orderly(cmp) ==> HeapIn(Order(cmp), a[..], lo, i, n)
    {
      i := i - 1;
      ghost var s := a[..];
      if Orderly(cmp) {
        HeapOpen(Order(cmp), s, lo, i, n);
      }
      Sift(a, lo, i, n, cmp);
      ShuffledTrans(old(a[..]), s, a[..], lo, lo + n);
    }
  }

  method SwapRoot<T(!new)>(a: array<T>, lo: nat, i: nat, n: nat, cmp: Comparator<T>)
    requires lo + n <= a.Length && 0 < i < n
    requires Orderly(cmp) ==>
               HeapIn(Order(cmp), a[..], lo, 0, i + 1) && Finished(Order(cmp), a[..], lo, lo + i + 1, lo + n)
    modifies a, cmp
    ensures Shuffled(old(a[..]), a[..], lo, lo + n)
    ensures Orderly(cmp) ==> HeapBut(Order(cmp), a[..], lo, 0, i, 0) && Finished(Order(cmp), a[..], lo, lo + i, lo + n)
  {
    hide Shuffled, Preorder, Steady, Order, HeapBut, HeapIn, Finished;
    if Orderly(cmp) {
      RootOut(Order(cmp), a[..], lo, i, n);
    }
    Swap(a, lo, lo + i, lo, lo + n);
  }

  /** Moves the root behind the heap of the first `i + 1` elements. */
  method TakeRoot<T(!new)>(a: array<T>, lo: nat, i: nat, n: nat, cmp: Comparator<T>)
    requires lo + n <= a.Length && 0 < i < n
    requires Orderly(cmp) ==>
               HeapIn(Order(cmp), a[..], lo, 0, i + 1) && Finished(Order(cmp), a[..], lo, lo + i + 1, lo + n)
    modifies a, cmp
    ensures Shuffled(old(a[..]), a[..], lo, lo + n)
    ensures Orderly(cmp) ==> HeapIn(Order(cmp), a[..], lo, 0, i) && Finished(Order(cmp), a[..], lo, lo + i, lo + n)
  {
    hide Shuffled, Orderly, Order, HeapBut, HeapIn, Finished;
    ghost var s0 := a[..];
    SwapRoot(a, lo, i, n, cmp);
    ghost var s := a[..];
    Sift(a, lo, 0, i, cmp);
    if Orderly(cmp) {
      FinishedKept(Order(cmp), s, a[..], lo, lo + i, lo + n);
    }
    ShuffledWiden(s, a[..], lo, lo + i, lo, lo + n);
    ShuffledTrans(s0, s, a[..], lo, lo + n);
  }

  /** `heapsortx`. */
  method HeapSort<T(!new)>(a: array<T>, lo: nat, n: nat, cmp: Comparator<T>)
    requires lo + n <= a.Length
    modifies a, cmp
    ensures Shuffled(old(a[..]), a[..], lo, lo + n)
    ensures Orderly(cmp) ==> SortedIn(Order(cmp), a[..], lo, lo + n)
  {
    hide Shuffled, Preorder, Steady, Order, HeapBut, HeapIn, Ge, Finished;
    ShuffledSelf(a[..], lo, lo + n);
    if n > 1 {
      BuildHeap(a, lo, n, cmp);
      var i := n - 1;
      NoneFinished(Order(cmp), a[..], lo, lo + n);
      while i > 0
        invariant 0 <= i < n && Shuffled(old(a[..]), a[..], lo, lo + n)
        invariant Orderly(cmp) ==>
                    HeapIn(Order(cmp), a[..], lo, 0, i + 1) && Finished(Order(cmp), a[..], lo, lo + i + 1, lo + n)
      {
        ghost var s := a[..];
        TakeRoot(a, lo, i, n, cmp);
        ShuffledTrans(old(a[..]), s, a[..], lo, lo + n);
        i := i - 1;
      }
      AllFinished(Order(cmp), a[..], lo, lo + n);
    }
  }

  lemma NoParents<T(!new)>(cmp: (T, T) -> int, s: seq<T>, lo: nat, i: nat, n: nat)
    requires lo + n <= |s| && i == n / 2
    ensures HeapIn(cmp, s, lo, i, n)
  {
  }

  lemma NoneFinished<T(!new)>(cmp: (T, T) -> int, s: seq<T>, lo: nat, hi: nat)
    requires lo <= hi <= |s|
    ensures Finished(cmp, s, lo, hi, hi)
  {
  }

  lemma AllFinished<T(!new)>(cmp: (T, T) -> int, s: seq<T>, lo: nat, hi: nat)
    requires lo < hi <= |s|
    ensures Finished(cmp, s, lo, lo + 1, hi) ==> SortedIn(cmp, s, lo, hi)
  {
  }

  // ---------------------------------------------------------------- partition

  /** How elements compare with the pivot `v`: between `lo` and `plt` equal, up to `pi` smaller; from `pj` on
      greater, from `pgt` to `top` equal again. */
  ghost predicate Parts<T>(cmp: (T, T) -> int, s: seq<T>, v: T, lo: int, plt: int, pi: int, pj: int, pgt: int,
                           top: int) {
    && 0 <= lo <= plt <= pi && pj <= pgt <= top <= |s| && 0 <= pj
    && (forall x :: lo <= x < plt && x < |s| ==> cmp(v, s[x]) == 0)
    && (forall x :: plt <= x < pi && x < |s| ==> cmp(v, s[x]) > 0)
    && (forall x :: pj <= x < pgt ==> cmp(v, s[x]) < 0)
    && (forall x :: pgt <= x < top ==> cmp(v, s[x]) == 0)
  }

  lemma UpStep<T>(cmp: (T, T) -> int, s: seq<T>, v: T, lo: int, plt: int, pi: int, pj: int, pgt: int, top: int)
    requires Parts(cmp, s, v, lo, plt, pi, pj, pgt, top) && pi < pj && cmp(v, s[pi]) >= 0
    ensures cmp(v, s[pi]) > 0 ==> Parts(cmp, s, v, lo, plt, pi + 1, pj, pgt, top)
    ensures cmp(v, s[pi]) == 0 ==> Parts(cmp, s[plt := s[pi]][pi := s[plt]], v, lo, plt + 1, pi + 1, pj, pgt, top)
  {
  }

  lemma DownStep<T>(cmp: (T, T) -> int, s: seq<T>, v: T, lo: int, plt: int, pi: int, pj: int, pgt: int, top: int)
    requires Parts(cmp, s, v, lo, plt, pi, pj + 1, pgt, top) && pi <= pj && cmp(v, s[pj]) <= 0
    ensures cmp(v, s[pj]) < 0 ==> Parts(cmp, s, v, lo, plt, pi, pj, pgt, top)
    ensures cmp(v, s[pj]) == 0 ==> Parts(cmp, s[pgt - 1 := s[pj]][pj := s[pgt - 1]], v, lo, plt, pi, pj, pgt - 1, top)
  {
  }

  lemma SwapStep<T>(cmp: (T, T) -> int, s: seq<T>, v: T, lo: int, plt: int, pi: int, pj: int, pgt: int, top: int)
    requires Parts(cmp, s, v, lo, plt, pi, pj + 1, pgt, top) && pi < pj && cmp(v, s[pj]) > 0 && cmp(v, s[pi]) < 0
    ensures Parts(cmp, s[pi := s[pj]][pj := s[pi]], v, lo, plt, pi + 1, pj, pgt, top)
  {
  }

  /** One step of the upward scan, over an element that is not greater than the pivot. */
  method PassUp<T(!new)>(a: array<T>, ghost v: T, lo: nat, plt0: nat, pi: nat, ghost pj: nat, ghost pgt: nat,
                         ghost top: nat, equal: bool, ghost cmp: Comparator<T>)
    returns (plt: nat)
    requires lo < plt0 <= pi < pj <= pgt <= top <= a.Length && a[lo] == v
    requires Steady(cmp) ==> Order(cmp)(v, a[pi]) >= 0 && equal == (Order(cmp)(v, a[pi]) == 0)
    requires Steady(cmp) ==> Parts(Order(cmp), a[..], v, lo + 1, plt0, pi, pj, pgt, top)
    modifies a
    ensures Shuffled(old(a[..]), a[..], lo, top) && a[lo] == v && plt0 <= plt <= pi + 1
    ensures Steady(cmp) ==> Parts(Order(cmp), a[..], v, lo + 1, plt, pi + 1, pj, pgt, top)
  {
    hide Shuffled, Parts, Steady;
    plt := plt0;
    if Steady(cmp) {
      UpStep(Order(cmp), a[..], v, lo + 1, plt, pi, pj, pgt, top);
    }
    if equal {
      Swap(a, plt, pi, lo, top);
      plt := plt + 1;
    } else {
      ShuffledSelf(a[..], lo, top);
    }
  }

  /** The upward scan: steps over smaller elements and moves equal ones to the front. */
  method ScanUp<T(!new)>(a: array<T>, ghost v: T, lo: nat, plt0: nat, pi0: nat, pj: nat, ghost pgt: nat, ghost top: nat,
                         cmp: Comparator<T>)
    returns (plt: nat, pi: nat)
    requires lo < plt0 <= pi0 <= pj <= pgt <= top <= a.Length && a[lo] == v
    requires Steady(cmp) ==> Parts(Order(cmp), a[..], v, lo + 1, plt0, pi0, pj, pgt, top)
    modifies a, cmp
    ensures Shuffled(old(a[..]), a[..], lo, top) && a[lo] == v
    ensures lo < plt <= pi && pi0 <= pi <= pj && (Steady(cmp) ==> pi == pj || Order(cmp)(v, a[pi]) < 0)
    ensures Steady(cmp) ==> Parts(Order(cmp), a[..], v, lo + 1, plt, pi, pj, pgt, top)
  {
    hide Shuffled, Parts, Steady;
    ShuffledSelf(a[..], lo, top);
    plt, pi := plt0, pi0;
    while pi < pj
      invariant lo < plt <= pi && pi0 <= pi <= pj && a[lo] == v
      invariant Shuffled(old(a[..]), a[..], lo, top)
      invariant Steady(cmp) ==> Parts(Order(cmp), a[..], v, lo + 1, plt, pi, pj, pgt, top)
    {
      ghost var s := a[..];
      var c := cmp.Compare(a[lo], a[pi]);
      if c < 0 {
        break;
      }
      plt := PassUp(a, v, lo, plt, pi, pj, pgt, top, c == 0, cmp);
      ShuffledTrans(old(a[..]), s, a[..], lo, top);
      pi := pi + 1;
    }
  }

  /** One step of the downward scan, over an element that is not smaller than the pivot. */
  method PassDown<T(!new)>(a: array<T>, ghost v: T, lo: nat, ghost plt: nat, ghost pi: nat, pj: nat, pgt0: nat,
                           ghost top: nat, equal: bool, ghost cmp: Comparator<T>)
    returns (pgt: nat)
    requires lo < plt <= pi < pj < pgt0 <= top <= a.Length && a[lo] == v
    requires Steady(cmp) ==> Order(cmp)(v, a[pj]) <= 0 && equal == (Order(cmp)(v, a[pj]) == 0)
    requires Steady(cmp) ==> Parts(Order(cmp), a[..], v, lo + 1, plt, pi, pj + 1, pgt0, top)
    modifies a
    ensures Shuffled(old(a[..]), a[..], lo, top) && a[lo] == v && a[pi] == old(a[pi]) && pj <= pgt <= pgt0
    ensures Steady(cmp) ==> Parts(Order(cmp), a[..], v, lo + 1, plt, pi, pj, pgt, top)
  {
    hide Shuffled, Parts, Steady;
    pgt := pgt0;
    if Steady(cmp) {
      DownStep(Order(cmp), a[..], v, lo + 1, plt, pi, pj, pgt, top);
    }
    if equal {
      pgt := pgt - 1;
      Swap(a, pgt, pj, lo, top);
    } else {
      ShuffledSelf(a[..], lo, top);
    }
  }

  /** The downward scan; the index is decremented before each test. */
  method ScanDown<T(!new)>(a: array<T>, ghost v: T, lo: nat, ghost plt: nat, pi: nat, pj0: nat, pgt0: nat,
                           ghost top: nat, cmp: Comparator<T>)
    returns (pj: nat, pgt: nat)
    requires lo < plt <= pi <= pj0 <= pgt0 <= top <= a.Length && a[lo] == v
    requires Steady(cmp) ==> pi == pj0 || Order(cmp)(v, a[pi]) < 0
    requires Steady(cmp) ==> Parts(Order(cmp), a[..], v, lo + 1, plt, pi, pj0, pgt0, top)
    modifies a, cmp
    ensures Shuffled(old(a[..]), a[..], lo, top) && a[lo] == v
    ensures pi - 1 <= pj < pj0 && pj < pgt <= top && pi <= pgt
    ensures Steady(cmp) && pi < pj ==> Order(cmp)(v, a[pj]) > 0 && Order(cmp)(v, a[pi]) < 0
    ensures Steady(cmp) ==> Parts(Order(cmp), a[..], v, lo + 1, plt, pi, if pi < pj then pj + 1 else pi, pgt, top)
  {
    hide Shuffled, Parts, Steady;
    ShuffledSelf(a[..], lo, top);
    pj, pgt := pj0 - 1, pgt0;
    while pi < pj
      invariant pi - 1 <= pj < pj0 && pj < pgt <= top && a[lo] == v
      invariant Steady(cmp) && pi <= pj ==> Order(cmp)(v, a[pi]) < 0
      invariant Shuffled(old(a[..]), a[..], lo, top)
      invariant Steady(cmp) ==> Parts(Order(cmp), a[..], v, lo + 1, plt, pi, pj + 1, pgt, top)
    {
      ghost var s := a[..];
      var c := cmp.Compare(a[lo], a[pj]);
      if c > 0 {
        break;
      }
      pgt := PassDown(a, v, lo, plt, pi, pj, pgt, top, c == 0, cmp);
      ShuffledTrans(old(a[..]), s, a[..], lo, top);
      pj := pj - 1;
    }
    if Steady(cmp) && pi == pj {
      DownStep(Order(cmp), a[..], v, lo + 1, plt, pi, pj, pgt, top);
    }
  }

  /** Both scans, one after the other. */
  method Scans<T(!new)>(a: array<T>, ghost v: T, lo: nat, plt0: nat, pi0: nat, pj0: nat, pgt0: nat, ghost top: nat,
                        cmp: Comparator<T>)
    returns (plt: nat, pi: nat, pj: nat, pgt: nat)
    requires lo < plt0 <= pi0 <= pj0 <= pgt0 <= top <= a.Length && a[lo] == v
    requires Steady(cmp) ==> Parts(Order(cmp), a[..], v, lo + 1, plt0, pi0, pj0, pgt0, top)
    modifies a, cmp
    ensures Shuffled(old(a[..]), a[..], lo, top) && a[lo] == v && lo < plt <= pi && pi0 <= pi <= pgt <= top
    ensures pi - 1 <= pj < pj0 && pj < pgt
    ensures Steady(cmp) && pi < pj ==> Order(cmp)(v, a[pj]) > 0 && Order(cmp)(v, a[pi]) < 0
    ensures Steady(cmp) ==> Parts(Order(cmp), a[..], v, lo + 1, plt, pi, if pi < pj then pj + 1 else pi, pgt, top)
  {
    hide Shuffled, Parts, Steady;
    plt, pi := ScanUp(a, v, lo, plt0, pi0, pj0, pgt0, top, cmp);
    ghost var s := a[..];
    pj, pgt := ScanDown(a, v, lo, plt, pi, pj0, pgt0, top, cmp);
    ShuffledTrans(old(a[..]), s, a[..], lo, top);
  }

  /** One round of the partition: both scans, and the exchange of the two elements they stopped at. */
  method Round<T(!new)>(a: array<T>, ghost v: T, lo: nat, plt0: nat, pi0: nat, pj0: nat, pgt0: nat, ghost top: nat,
                        cmp: Comparator<T>)
    returns (plt: nat, pi: nat, pj: nat, pgt: nat, done: bool)
    requires lo < plt0 <= pi0 <= pj0 <= pgt0 <= top <= a.Length && a[lo] == v
    requires Steady(cmp) ==> Parts(Order(cmp), a[..], v, lo + 1, plt0, pi0, pj0, pgt0, top)
    modifies a, cmp
    ensures Shuffled(old(a[..]), a[..], lo, top) && a[lo] == v && lo < plt <= pi <= pgt <= top
    ensures !done ==> pi <= pj <= pgt && pj - pi < pj0 - pi0
    ensures Steady(cmp) ==> Parts(Order(cmp), a[..], v, lo + 1, plt, pi, if done then pi else pj, pgt, top)
  {
    hide Shuffled, Parts, Steady;
    plt, pi, pj, pgt := Scans(a, v, lo, plt0, pi0, pj0, pgt0, top, cmp);
    done := pi >= pj;
    if !done {
      ghost var s := a[..];
      Exchange(a, v, lo, plt, pi, pj, pgt, top, cmp);
      pi := pi + 1;
      ShuffledTrans(old(a[..]), s, a[..], lo, top);
    }
  }

  /** The two elements the scans stopped at change places. */
  method Exchange<T(!new)>(a: array<T>, ghost v: T, ghost lo: nat, ghost plt: nat, pi: nat, pj: nat, ghost pgt: nat,
                           ghost top: nat, ghost cmp: Comparator<T>)
    requires lo < plt <= pi < pj < pgt <= top <= a.Length && a[lo] == v
    requires Steady(cmp) ==> Order(cmp)(v, a[pj]) > 0 && Order(cmp)(v, a[pi]) < 0 &&
                             Parts(Order(cmp), a[..], v, lo + 1, plt, pi, pj + 1, pgt, top)
    modifies a
    ensures Shuffled(old(a[..]), a[..], lo, top) && a[lo] == v
    ensures Steady(cmp) ==> Parts(Order(cmp), a[..], v, lo + 1, plt, pi + 1, pj, pgt, top)
  {
    hide Shuffled, Parts, Steady;
    if Steady(cmp) {
      SwapStep(Order(cmp), a[..], v, lo + 1, plt, pi, pj, pgt, top);
    }
    Swap(a, pi, pj, lo, top);
  }

  /** The partition loop around the pivot at `lo`. */
  method Split<T(!new)>(a: array<T>, ghost v: T, lo: nat, top: nat, cmp: Comparator<T>)
    returns (plt: nat, pi: nat, pgt: nat)
    requires lo < top <= a.Length && a[lo] == v
    modifies a, cmp
    ensures Shuffled(old(a[..]), a[..], lo, top) && a[lo] == v && lo < plt <= pi <= pgt <= top
    ensures Steady(cmp) ==> Parts(Order(cmp), a[..], v, lo + 1, plt, pi, pi, pgt, top)
  {
    ShuffledSelf(a[..], lo, top);
    var pj;
    plt, pi, pj, pgt := lo + 1, lo + 1, top, top;
    assert Steady(cmp) ==> Parts(Order(cmp), a[..], v, lo + 1, plt, pi, pj, pgt, top);
    hide Shuffled, Parts, Steady;
    while true
      invariant lo < plt <= pi <= pj <= pgt <= top && a[lo] == v
      invariant Shuffled(old(a[..]), a[..], lo, top)
      invariant Steady(cmp) ==> Parts(Order(cmp), a[..], v, lo + 1, plt, pi, pj, pgt, top)
      decreases pj - pi
    {
      ghost var s := a[..];
      var done;
      plt, pi, pj, pgt, done := Round(a, v, lo, plt, pi, pj, pgt, top, cmp);
      ShuffledTrans(old(a[..]), s, a[..], lo, top);
      if done {
        break;
      }
    }
  }

  /** `s` with the `n` elements at `x` and at `y` exchanged. */
  function Exchanged<T>(s: seq<T>, x: nat, y: nat, n: nat): (r: seq<T>)
    requires x + n <= y && y + n <= |s|
    ensures |r| == |s|
  {
    s[..x] + s[y..y + n] + s[x + n..y] + s[x..x + n] + s[y + n..]
  }

  lemma ExchangedAt<T>(s: seq<T>, x: nat, y: nat, n: nat, i: nat)
    requires x + n <= y && y + n <= |s| && i < |s|
    ensures Exchanged(s, x, y, n)[i] == s[if x <= i < x + n then i - x + y else if y <= i < y + n then i - y + x else i]
  {
  }

  lemma ExchangedNext<T>(s: seq<T>, x: nat, y: nat, n: nat)
    requires x + n + 1 <= y && y + n + 1 <= |s|
    ensures var r := Exchanged(s, x, y, n);
            Exchanged(s, x, y, n + 1) == r[x + n := r[y + n]][y + n := r[x + n]]
  {
    var r := Exchanged(s, x, y, n);
    var r' := r[x + n := r[y + n]][y + n := r[x + n]];
    hide Exchanged;
    forall i | 0 <= i < |s|
      ensures Exchanged(s, x, y, n + 1)[i] == r'[i]
    {
      ExchangedAt(s, x, y, n + 1, i);
      ExchangedAt(s, x, y, n, i);
      ExchangedAt(s, x, y, n, x + n);
      ExchangedAt(s, x, y, n, y + n);
    }
  }

  lemma ExchangedNone<T>(s: seq<T>, x: nat, y: nat)
    requires x <= y <= |s|
    ensures Exchanged(s, x, y, 0) == s
  {
  }

  /** One more element of the blocks at `x` and `y`. */
  method ExchangeOne<T>(a: array<T>, ghost s: seq<T>, x: nat, y: nat, k: nat, ghost lo: nat, ghost hi: nat)
    requires lo <= x && x + k + 1 <= y && y + k + 1 <= hi <= a.Length == |s| && a[..] == Exchanged(s, x, y, k)
    modifies a
    ensures a[..] == Exchanged(s, x, y, k + 1) && Shuffled(old(a[..]), a[..], lo, hi)
  {
    hide Shuffled, Exchanged;
    ExchangedNext(s, x, y, k);
    Swap(a, x + k, y + k, lo, hi);
  }

  method SwapBlocks<T>(a: array<T>, x: nat, y: nat, n: nat, ghost lo: nat, ghost hi: nat)
    requires lo <= x && x + n <= y && y + n <= hi <= a.Length
    modifies a
    ensures a[..] == Exchanged(old(a[..]), x, y, n) && Shuffled(old(a[..]), a[..], lo, hi)
  {
    hide Shuffled, Exchanged;
    ShuffledSelf(a[..], lo, hi);
    ExchangedNone(a[..], x, y);
    var k := 0;
    while k < n
      invariant k <= n && a[..] == Exchanged(old(a[..]), x, y, k) && Shuffled(old(a[..]), a[..], lo, hi)
    {
      ghost var s := a[..];
      ExchangeOne(a, old(a[..]), x, y, k, lo, hi);
      ShuffledTrans(old(a[..]), s, a[..], lo, hi);
      k := k + 1;
    }
  }

  /** `med3`: the middle one of three elements. */
  method Med3<T(!new)>(a: array<T>, i: nat, j: nat, k: nat, cmp: Comparator<T>) returns (m: nat)
    requires i < a.Length && j < a.Length && k < a.Length
    modifies cmp
    ensures (m == i || m == j || m == k) && a[..] == old(a[..])
    ensures Orderly(cmp) ==> Middle(Order(cmp), a[i], a[j], a[k], a[m])
  {
    if Orderly(cmp) {
      Flip(Order(cmp), a[i], a[j]);
      Flip(Order(cmp), a[j], a[k]);
      Flip(Order(cmp), a[i], a[k]);
      Flip(Order(cmp), a[j], a[i]);
      Flip(Order(cmp), a[k], a[j]);
      Flip(Order(cmp), a[k], a[i]);
    }
    hide Preorder, Steady, Order;
    var c := cmp.Compare(a[i], a[j]);
    var d := cmp.Compare(a[j], a[k]);
    if c < 0 {
      if d < 0 {
        return j;
      }
      var e := cmp.Compare(a[i], a[k]);
      m := if e < 0 then k else i;
    } else {
      if d > 0 {
        return j;
      }
      var e := cmp.Compare(a[i], a[k]);
      m := if e < 0 then i else k;
    }
  }

  /** `m` is one of the three, and lies between the other two. */
  ghost predicate Middle<T(!new)>(cmp: (T, T) -> int, x: T, y: T, z: T, m: T) {
    || (m == x && Between(cmp, y, m, z))
    || (m == y && Between(cmp, x, m, z))
    || (m == z && Between(cmp, x, m, y))
  }

  ghost predicate Between<T>(cmp: (T, T) -> int, p: T, m: T, q: T) {
    (cmp(p, m) <= 0 && cmp(m, q) <= 0) || (cmp(q, m) <= 0 && cmp(m, p) <= 0)
  }

  /** Smaller than `v` up to `b`, equal up to `c`, greater up to `d`, equal again up to `e`. */
  ghost predicate Zones<T>(cmp: (T, T) -> int, s: seq<T>, v: T, a: int, b: int, c: int, d: int, e: int) {
    && 0 <= a <= b <= c <= d <= e <= |s|
    && (forall x :: a <= x < b ==> cmp(v, s[x]) > 0)
    && (forall x :: b <= x < c ==> cmp(v, s[x]) == 0)
    && (forall x :: c <= x < d ==> cmp(v, s[x]) < 0)
    && (forall x :: d <= x < e ==> cmp(v, s[x]) == 0)
  }

  /** The elements equal to the pivot leave the front. */
  lemma GatherLeft<T>(cmp: (T, T) -> int, s: seq<T>, v: T, lo: nat, plt: nat, pi: nat, pgt: nat, top: nat, span: nat)
    requires lo < plt <= pi <= pgt <= top <= |s| && Parts(cmp, s, v, lo + 1, plt, pi, pi, pgt, top) &&
             cmp(v, s[lo]) == 0
    requires span == if plt - lo > pi - plt then pi - plt else plt - lo
    ensures Zones(cmp, Exchanged(s, lo, pi - span, span), v, lo, lo + (pi - plt), pi, pgt, top)
  {
    hide Exchanged;
    var s' := Exchanged(s, lo, pi - span, span);
    forall x | lo <= x < top
      ensures x < lo + (pi - plt) ==> cmp(v, s'[x]) > 0
      ensures lo + (pi - plt) <= x < pi ==> cmp(v, s'[x]) == 0
      ensures pi <= x < pgt ==> cmp(v, s'[x]) < 0
      ensures pgt <= x ==> cmp(v, s'[x]) == 0
    {
      ExchangedAt(s, lo, pi - span, span, x);
    }
  }

  /** The elements equal to the pivot leave the end. */
  lemma GatherRight<T>(cmp: (T, T) -> int, s: seq<T>, v: T, lo: nat, b: nat, pi: nat, pgt: nat, top: nat, span: nat)
    requires Zones(cmp, s, v, lo, b, pi, pgt, top)
    requires span == if top - pgt > pgt - pi then pgt - pi else top - pgt
    ensures var mid := top - (pgt - pi); Zones(cmp, Exchanged(s, pi, top - span, span), v, lo, b, mid, top, top)
  {
    hide Exchanged;
    var s' := Exchanged(s, pi, top - span, span);
    forall x | lo <= x < top
      ensures x < b ==> cmp(v, s'[x]) > 0
      ensures b <= x < top - (pgt - pi) ==> cmp(v, s'[x]) == 0
      ensures top - (pgt - pi) <= x ==> cmp(v, s'[x]) < 0
    {
      ExchangedAt(s, pi, top - span, span, x);
    }
  }

  /** The three parts of a partition: nothing in a part is greater than anything in a later one, and the
      middle part is in order. */
  ghost predicate Partitioned<T(!new)>(cmp: (T, T) -> int, s: seq<T>, lo: int, b: int, c: int, hi: int) {
    Below(cmp, s, lo, b, b, hi) && Below(cmp, s, lo, c, c, hi) && SortedIn(cmp, s, b, c)
  }

  lemma ZonesPartition<T(!new)>(cmp: (T, T) -> int, s: seq<T>, v: T, lo: int, b: int, c: int, hi: int)
    requires Preorder(cmp) && Zones(cmp, s, v, lo, b, c, hi, hi)
    ensures Partitioned(cmp, s, lo, b, c, hi)
  {
    forall x, y | lo <= x < hi && lo <= y < hi && ((x < b && b <= y) || (x < c && c <= y) || (b <= x < y < c))
      ensures cmp(s[x], s[y]) <= 0
    {
      Flip(cmp, v, s[x]);
      Flip(cmp, s[x], v);
      Trans(cmp, s[x], v, s[y]);
    }
  }

  /** The partition step: picks a pivot, splits the segment around it and gathers what is equal to the
      pivot in the middle.  The middle is never empty, so both other parts are shorter. */
  method Partition<T(!new)>(a: array<T>, lo: nat, n: nat, cmp: Comparator<T>) returns (lt: nat, gt: nat)
    requires lo + n <= a.Length && n > SMALL
    modifies a, cmp
    ensures Shuffled(old(a[..]), a[..], lo, lo + n) && lt < gt <= n
    ensures Orderly(cmp) ==> Partitioned(Order(cmp), a[..], lo, lo + lt, lo + gt, lo + n)
  {
    hide Shuffled, Orderly, Order, Parts, Zones, Exchanged, Partitioned;
    ChoosePivot(a, lo, n, cmp);
    ghost var s := a[..];
    lt, gt := SplitGather(a, lo, n, cmp);
    ShuffledTrans(old(a[..]), s, a[..], lo, lo + n);
  }

  /** The median of the elements at one, two and three quarters goes to the front. */
  method ChoosePivot<T(!new)>(a: array<T>, lo: nat, n: nat, cmp: Comparator<T>)
    requires lo + n <= a.Length && n > SMALL
    modifies a, cmp
    ensures Shuffled(old(a[..]), a[..], lo, lo + n)
  {
    hide Shuffled, Preorder, Steady, Order, Middle;
    var m4 := n / 4;
    var m := Med3(a, lo + m4, lo + 2 * m4, lo + 3 * m4, cmp);
    Swap(a, lo, m, lo, lo + n);
  }

  method SplitGather<T(!new)>(a: array<T>, lo: nat, n: nat, cmp: Comparator<T>) returns (lt: nat, gt: nat)
    requires lo + n <= a.Length && n > SMALL
    modifies a, cmp
    ensures Shuffled(old(a[..]), a[..], lo, lo + n) && lt < gt <= n
    ensures Orderly(cmp) ==> Partitioned(Order(cmp), a[..], lo, lo + lt, lo + gt, lo + n)
  {
    hide Shuffled, Orderly, Order, Parts, Partitioned;
    var v := a[lo];
    var plt, pi, pgt := Split(a, v, lo, lo + n, cmp);
    ghost var s := a[..];
    lt, gt := Gather(a, v, lo, n, plt, pi, pgt, cmp);
    ShuffledTrans(old(a[..]), s, a[..], lo, lo + n);
  }

  method Gather<T(!new)>(a: array<T>, ghost v: T, lo: nat, n: nat, plt: nat, pi: nat, pgt: nat, cmp: Comparator<T>)
    returns (lt: nat, gt: nat)
    requires lo < plt <= pi <= pgt <= lo + n <= a.Length && a[lo] == v
    requires Steady(cmp) ==> Parts(Order(cmp), a[..], v, lo + 1, plt, pi, pi, pgt, lo + n)
    modifies a, cmp
    ensures Shuffled(old(a[..]), a[..], lo, lo + n) && lt < gt <= n
    ensures Orderly(cmp) ==> Partitioned(Order(cmp), a[..], lo, lo + lt, lo + gt, lo + n)
  {
    hide Shuffled, Preorder, Steady, Order, Parts, Zones, Exchanged, Partitioned;
    var top := lo + n;
    if Orderly(cmp) {
      Flip(Order(cmp), v, v);
    }
    var span, span2 := plt - lo, pi - plt;
    lt := pi - plt;
    if span > span2 {
      span := span2;
    }
    ghost var s := a[..];
    SwapBlocks(a, lo, pi - span, span, lo, top);
    ghost var s1 := a[..];
    if Orderly(cmp) {
      GatherLeft(Order(cmp), s, v, lo, plt, pi, pgt, top, span);
    }
    span, span2 := top - pgt, pgt - pi;
    gt := n - (pgt - pi);
    if span > span2 {
      span := span2;
    }
    SwapBlocks(a, pi, top - span, span, lo, top);
    ghost var s2 := a[..];
    ShuffledTrans(s, s1, s2, lo, top);
    if Orderly(cmp) {
      GatherRight(Order(cmp), s1, v, lo, lo + lt, pi, pgt, top, span);
      ZonesPartition(Order(cmp), s2, v, lo, lo + lt, lo + gt, top);
    }
  }

  // ---------------------------------------------------------------- segments still to be sorted

  datatype Segment = Segment(base: nat, count: nat, depth: nat)

  predicate Inside(g: Segment, i: int) {
    g.base <= i < g.base + g.count
  }

  ghost predicate Together(segs: seq<Segment>, i: int, j: int) {
    exists g :: g in segs && Inside(g, i) && Inside(g, j)
  }

  /** The segments do not overlap and lie in the first `n` positions. */
  ghost predicate Apart(segs: seq<Segment>, n: int) {
    && (forall k :: 0 <= k < |segs| ==> segs[k].base + segs[k].count <= n)
    && (forall k, l, i :: 0 <= k < l < |segs| && Inside(segs[k], i) ==> !Inside(segs[l], i))
  }

  /** Everything is in order, except inside the segments. */
  ghost predicate SortedAround<T(!new)>(cmp: (T, T) -> int, s: seq<T>, segs: seq<Segment>) {
    forall i, j :: 0 <= i < j < |s| ==> Together(segs, i, j) || cmp(s[i], s[j]) <= 0
  }

  lemma TogetherLast(segs: seq<Segment>, g: Segment, i: int, j: int)
    ensures Together(segs + [g], i, j) <==> Together(segs, i, j) || (Inside(g, i) && Inside(g, j))
  {
    if Together(segs, i, j) {
      var h :| h in segs && Inside(h, i) && Inside(h, j);
      assert h in segs + [g];
    }
    assert g in segs + [g];
  }

  lemma ApartLast(segs: seq<Segment>, g: Segment, n: int, i: int, j: int)
    requires Apart(segs + [g], n) && Together(segs, i, j)
    ensures !Inside(g, i) && !Inside(g, j)
  {
    var h :| h in segs && Inside(h, i) && Inside(h, j);
    var k :| 0 <= k < |segs| && segs[k] == h;
    assert (segs + [g])[k] == h && (segs + [g])[|segs|] == g;
  }

  lemma AroundPair<T(!new)>(cmp: (T, T) -> int, s: seq<T>, segs: seq<Segment>, g: Segment, i: int, j: int)
    requires Apart(segs + [g], |s|) && SortedAround(cmp, s, segs + [g]) && 0 <= i < j < |s|
    requires !(Inside(g, i) && Inside(g, j)) && (Inside(g, i) || Inside(g, j) || !Together(segs, i, j))
    ensures cmp(s[i], s[j]) <= 0
  {
    hide Apart, Together;
    TogetherLast(segs, g, i, j);
    if Together(segs, i, j) {
      ApartLast(segs, g, |s|, i, j);
    }
  }

  /** Two elements in other places, if they lie in the last segment. */
  lemma {:induction false} AroundMoved<T(!new)>(cmp: (T, T) -> int, s: seq<T>, s': seq<T>, segs: seq<Segment>,
                                                g: Segment, i: int, j: int)
    requires Apart(segs + [g], |s|) && SortedAround(cmp, s, segs + [g]) && Shuffled(s, s', g.base, g.base + g.count)
    requires 0 <= i < j < |s| && !(Inside(g, i) && Inside(g, j)) && !Together(segs, i, j)
    ensures cmp(s'[i], s'[j]) <= 0
  {
    hide Apart, Together, SortedAround;
    var i', j' := i, j;
    if Inside(g, i) {
      i' := ShuffledFrom(s, s', g.base, g.base + g.count, i);
    }
    if Inside(g, j) {
      j' := ShuffledFrom(s, s', g.base, g.base + g.count, j);
    }
    AroundPair(cmp, s, segs, g, i', j');
  }

  /** Rearranging the last segment keeps the order around the segments. */
  lemma {:induction false} AroundShuffled<T(!new)>(cmp: (T, T) -> int, s: seq<T>, s': seq<T>, segs: seq<Segment>,
                                                   g: Segment)
    requires Apart(segs + [g], |s|) && SortedAround(cmp, s, segs + [g]) && Shuffled(s, s', g.base, g.base + g.count)
    ensures SortedAround(cmp, s', segs + [g])
  {
    hide Apart, Together, Shuffled;
    assert |s| == |s'| by { ShuffledSame(s, s', g.base, g.base + g.count); }
    forall i, j | 0 <= i < j < |s'|
      ensures Together(segs + [g], i, j) || cmp(s'[i], s'[j]) <= 0
    {
      TogetherLast(segs, g, i, j);
      if !Together(segs, i, j) && !(Inside(g, i) && Inside(g, j)) {
        AroundMoved(cmp, s, s', segs, g, i, j);
      }
    }
  }

  /** A segment in order needs no more attention. */
  lemma AroundSorted<T(!new)>(cmp: (T, T) -> int, s: seq<T>, segs: seq<Segment>, g: Segment)
    requires SortedAround(cmp, s, segs + [g]) && g.base + g.count <= |s| && SortedIn(cmp, s, g.base, g.base + g.count)
    ensures SortedAround(cmp, s, segs)
  {
    hide Together;
    forall i, j | 0 <= i < j < |s|
      ensures Together(segs, i, j) || cmp(s[i], s[j]) <= 0
    {
      TogetherLast(segs, g, i, j);
    }
  }

  /** A partitioned segment is replaced by its outer parts. */
  lemma AroundSplit<T(!new)>(cmp: (T, T) -> int, s: seq<T>, segs: seq<Segment>, g: Segment, l: Segment, r: Segment)
    requires SortedAround(cmp, s, segs + [g]) && g.base + g.count <= |s|
    requires l.base == g.base && l.base + l.count <= r.base && r.base + r.count == g.base + g.count
    requires Partitioned(cmp, s, g.base, l.base + l.count, r.base, g.base + g.count)
    ensures SortedAround(cmp, s, segs + [l] + [r]) && SortedAround(cmp, s, segs + [r] + [l])
  {
    hide Together;
    forall i, j | 0 <= i < j < |s|
      ensures Together(segs + [l] + [r], i, j) || cmp(s[i], s[j]) <= 0
      ensures Together(segs + [r] + [l], i, j) || cmp(s[i], s[j]) <= 0
    {
      TogetherLast(segs, g, i, j);
      TogetherLast(segs, l, i, j);
      TogetherLast(segs, r, i, j);
      TogetherLast(segs + [l], r, i, j);
      TogetherLast(segs + [r], l, i, j);
    }
  }

  lemma ApartSplit(segs: seq<Segment>, g: Segment, l: Segment, r: Segment, n: int)
    requires Apart(segs + [g], n)
    requires l.base == g.base && l.base + l.count <= r.base && r.base + r.count == g.base + g.count
    ensures Apart(segs + [l] + [r], n) && Apart(segs + [r] + [l], n)
  {
    assert (segs + [g])[|segs|] == g && forall k :: 0 <= k < |segs| ==> (segs + [g])[k] == segs[k];
    forall i | Inside(l, i) || Inside(r, i)
      ensures Inside(g, i)
    {
    }
  }

  // ---------------------------------------------------------------- the explicit stack

  /** The depths of the segments on the stack grow from bottom to top, and none is more than 50; so there
      are never more than 50 of them. */
  ghost predicate Climbs(segs: seq<Segment>) {
    && (forall k :: 0 <= k < |segs| ==> k < segs[k].depth <= MAX_DEPTH)
    && (forall k, l :: 0 <= k < l < |segs| ==> segs[k].depth < segs[l].depth)
  }

  /** None of the waiting segments is deeper than the one at depth `depth`. */
  ghost predicate Climbing(segs: seq<Segment>, depth: nat) {
    Climbs(segs) && forall k :: 0 <= k < |segs| ==> segs[k].depth <= depth
  }

  lemma ClimbOne(segs: seq<Segment>, g: Segment)
    requires 0 < g.depth <= MAX_DEPTH && Climbing(segs, g.depth - 1)
    ensures |segs| < STACK_SIZE && Climbing(segs + [g], g.depth)
  {
    if |segs| > 0 {
      assert |segs| - 1 < segs[|segs| - 1].depth < g.depth;
    }
  }

  /** A measure of the work that is left. */
  ghost function Work(segs: seq<Segment>): nat {
    if |segs| == 0 then 0 else Work(segs[..|segs| - 1]) + 2 * segs[|segs| - 1].count + 1
  }

  lemma {:induction false} WorkLast(segs: seq<Segment>, g: Segment)
    ensures Work(segs + [g]) == Work(segs) + 2 * g.count + 1
  {
    assert (segs + [g])[..|segs|] == segs;
  }

  /** What holds while segment `g` is being worked on and `segs` are waiting. */
  ghost predicate Ordered<T(!new)>(ok: bool, cmp: (T, T) -> int, s: seq<T>, segs: seq<Segment>, g: Segment) {
    && Climbing(segs, g.depth) && g.depth <= MAX_DEPTH
    && Apart(segs + [g], |s|) && g.base + g.count <= |s|
    && (ok ==> SortedAround(cmp, s, segs + [g]))
  }

  /** Replacing a partitioned segment by its outer parts, either of them on the stack. */
  lemma {:induction false} OrderedSplit<T(!new)>(ok: bool, cmp: (T, T) -> int, s: seq<T>, s': seq<T>,
                                                 segs: seq<Segment>, g: Segment,
                                                 l: Segment, r: Segment)
    requires Ordered(ok, cmp, s, segs, g) && Shuffled(s, s', g.base, g.base + g.count) && |s| == |s'|
    requires l.base == g.base && l.base + l.count < r.base && r.base + r.count == g.base + g.count
    requires l.depth == r.depth == g.depth + 1 <= MAX_DEPTH
    requires ok ==> Partitioned(cmp, s', g.base, l.base + l.count, r.base, g.base + g.count)
    ensures |segs| < STACK_SIZE && Ordered(ok, cmp, s', segs + [l], r) && Ordered(ok, cmp, s', segs + [r], l)
    ensures Work(segs + [l] + [r]) < Work(segs + [g]) && Work(segs + [r] + [l]) < Work(segs + [g])
  {
    hide Shuffled, SortedAround, Partitioned, Climbing, Apart, Work;
    ApartSplit(segs, g, l, r, |s|);
    if ok {
      AroundShuffled(cmp, s, s', segs, g);
      AroundSplit(cmp, s', segs, g, l, r);
    }
    ClimbOne(segs, l);
    ClimbOne(segs, r);
    WorkLast(segs, g);
    WorkLast(segs, l);
    WorkLast(segs, r);
    WorkLast(segs + [l], r);
    WorkLast(segs + [r], l);
  }

  /** Partitions the current segment; either part may then be pushed, for there is a free entry. */
  method PartSegment<T(!new)>(a: array<T>, ghost segs: seq<Segment>, ptr: nat, n: nat, depth: nat, cmp: Comparator<T>)
    returns (lt: nat, gt: nat)
    requires n > SMALL && 0 < depth <= MAX_DEPTH
    requires Ordered(Orderly(cmp), Order(cmp), a[..], segs, Segment(ptr, n, depth - 1))
    modifies a, cmp
    ensures Shuffled(old(a[..]), a[..], 0, a.Length) && |segs| < STACK_SIZE && lt < gt <= n
    ensures var l, r := Segment(ptr, lt, depth), Segment(ptr + gt, n - gt, depth);
            Ordered(Orderly(cmp), Order(cmp), a[..], segs + [l], r) &&
            Ordered(Orderly(cmp), Order(cmp), a[..], segs + [r], l) &&
            Work(segs + [l] + [r]) < Work(segs + [Segment(ptr, n, depth - 1)]) &&
            Work(segs + [r] + [l]) < Work(segs + [Segment(ptr, n, depth - 1)])
  {
    hide Shuffled, Orderly, Order, Partitioned, Ordered, Work;
    ghost var s := a[..];
    OrderedFits(Orderly(cmp), Order(cmp), s, segs, Segment(ptr, n, depth - 1));
    lt, gt := Partition(a, ptr, n, cmp);
    ShuffledWiden(s, a[..], ptr, ptr + n, 0, a.Length);
    var l, r := Segment(ptr, lt, depth), Segment(ptr + gt, n - gt, depth);
    OrderedSplit(Orderly(cmp), Order(cmp), s, a[..], segs, Segment(ptr, n, depth - 1), l, r);
  }

  lemma OrderedFits<T(!new)>(ok: bool, cmp: (T, T) -> int, s: seq<T>, segs: seq<Segment>, g: Segment)
    requires Ordered(ok, cmp, s, segs, g)
    ensures g.base + g.count <= |s|
  {
  }

  /** The stack is an array of 50 entries, apart from the array that is sorted. */
  predicate StackOk<T>(a: array<T>, stack: array<Segment>) {
    stack.Length == 50 && a as object != stack as object
  }

  /** Partitions the current segment, pushes its larger part and goes on with the smaller one. */
  method PushLarger<T(!new)>(a: array<T>, stack: array<Segment>, sp0: nat, ptr0: nat, n0: nat, depth: nat,
                             cmp: Comparator<T>)
    returns (sp: nat, ptr: nat, n: nat)
    requires StackOk(a, stack) && sp0 <= STACK_SIZE && n0 > SMALL && 0 < depth <= MAX_DEPTH
    requires Ordered(Orderly(cmp), Order(cmp), a[..], stack[..sp0], Segment(ptr0, n0, depth - 1))
    modifies a, stack, cmp
    ensures Shuffled(old(a[..]), a[..], 0, a.Length) && sp <= STACK_SIZE
    ensures Ordered(Orderly(cmp), Order(cmp), a[..], stack[..sp], Segment(ptr, n, depth))
    ensures Work(stack[..sp] + [Segment(ptr, n, depth)]) < Work(old(stack[..sp0]) + [Segment(ptr0, n0, depth - 1)])
  {
    hide Shuffled, Orderly, Order, Ordered, Work;
    ghost var segs := stack[..sp0];
    var lt, gt := PartSegment(a, segs, ptr0, n0, depth, cmp);
    assert stack[..sp0] == segs;
    var l, r := Segment(ptr0, lt, depth), Segment(ptr0 + gt, n0 - gt, depth);
    if lt > n0 - gt {
      stack[sp0] := l;
      ptr, n := r.base, r.count;
      assert stack[..sp0 + 1] == segs + [l];
    } else {
      stack[sp0] := r;
      ptr, n := l.base, l.count;
      assert stack[..sp0 + 1] == segs + [r];
    }
    sp := sp0 + 1;
  }

  /** The segment at the top of the stack is taken off. */
  lemma {:induction false} OrderedPop<T(!new)>(ok: bool, cmp: (T, T) -> int, s: seq<T>, segs: seq<Segment>, g: Segment)
    requires g.base + g.count <= |s| && (ok ==> SortedIn(cmp, s, g.base, g.base + g.count))
    requires Ordered(ok, cmp, s, segs, g)
    ensures ok ==> SortedAround(cmp, s, segs)
    ensures Apart(segs, |s|) && Climbs(segs) && |segs| <= STACK_SIZE
    ensures Work(segs) < Work(segs + [g])
  {
    hide SortedIn, SortedAround;
    WorkLast(segs, g);
    ApartRest(segs, g, |s|);
    if |segs| > 0 {
      assert |segs| - 1 < segs[|segs| - 1].depth;
    }
    if ok {
      AroundSorted(cmp, s, segs, g);
    }
  }

  lemma ApartRest(segs: seq<Segment>, g: Segment, n: int)
    requires Apart(segs + [g], n)
    ensures Apart(segs, n)
  {
    assert forall k :: 0 <= k < |segs| ==> (segs + [g])[k] == segs[k];
  }

  /** The small or heap-sorted rest of a segment. */
  lemma OrderedSort<T(!new)>(ok: bool, cmp: (T, T) -> int, s: seq<T>, s': seq<T>, segs: seq<Segment>, g: Segment)
    requires Ordered(ok, cmp, s, segs, g) && Shuffled(s, s', g.base, g.base + g.count) && |s| == |s'|
    ensures Ordered(ok, cmp, s', segs, g)
  {
    hide Shuffled, SortedAround, Apart, Climbing;
    if ok {
      AroundShuffled(cmp, s, s', segs, g);
    }
  }

  /** Works off one segment; its larger parts go on the stack. */
  method Narrow<T(!new)>(a: array<T>, stack: array<Segment>, sp0: nat, ptr0: nat, n0: nat, depth0: nat,
                         cmp: Comparator<T>)
    returns (sp: nat)
    requires StackOk(a, stack) && sp0 <= STACK_SIZE
    requires Ordered(Orderly(cmp), Order(cmp), a[..], stack[..sp0], Segment(ptr0, n0, depth0))
    modifies a, stack, cmp
    ensures Shuffled(old(a[..]), a[..], 0, a.Length)
    ensures sp <= STACK_SIZE && Apart(stack[..sp], a.Length) && Climbs(stack[..sp])
    ensures Orderly(cmp) ==> SortedAround(Order(cmp), a[..], stack[..sp])
    ensures Work(stack[..sp]) < Work(old(stack[..sp0]) + [Segment(ptr0, n0, depth0)])
  {
    hide Shuffled, Orderly, Order, Ordered, Work, SortedIn, SortedAround, Climbs, Climbing, Apart;
    ShuffledSelf(a[..], 0, a.Length);
    sp := sp0;
    var ptr: nat, n: nat, depth: nat := ptr0, n0, depth0;
    while n > SMALL
      invariant sp <= STACK_SIZE && Shuffled(old(a[..]), a[..], 0, a.Length)
      invariant Ordered(Orderly(cmp), Order(cmp), a[..], stack[..sp], Segment(ptr, n, depth))
      invariant Work(stack[..sp] + [Segment(ptr, n, depth)]) <= Work(old(stack[..sp0]) + [Segment(ptr0, n0, depth0)])
      decreases Work(stack[..sp] + [Segment(ptr, n, depth)])
    {
      ghost var s := a[..];
      depth := depth + 1;
      if depth > MAX_DEPTH {
        SortRest(a, stack, sp, ptr, n, depth - 1, cmp, true);
        ShuffledTrans(old(a[..]), s, a[..], 0, a.Length);
        return;
      }
      sp, ptr, n := PushLarger(a, stack, sp, ptr, n, depth, cmp);
      ShuffledTrans(old(a[..]), s, a[..], 0, a.Length);
    }
    ghost var s := a[..];
    SortRest(a, stack, sp, ptr, n, depth, cmp, false);
    ShuffledTrans(old(a[..]), s, a[..], 0, a.Length);
  }

  /** The end of a segment: the heap sort when it is too deep, the insertion sort when it is short. */
  method SortRest<T(!new)>(a: array<T>, stack: array<Segment>, sp: nat, ptr: nat, n: nat, ghost depth: nat,
                           cmp: Comparator<T>, deep: bool)
    requires StackOk(a, stack) && sp <= STACK_SIZE
    requires Ordered(Orderly(cmp), Order(cmp), a[..], stack[..sp], Segment(ptr, n, depth))
    modifies a, cmp
    ensures stack[..] == old(stack[..]) && Shuffled(old(a[..]), a[..], 0, a.Length)
    ensures Apart(stack[..sp], a.Length) && Climbs(stack[..sp])
    ensures Orderly(cmp) ==> SortedAround(Order(cmp), a[..], stack[..sp])
    ensures Work(stack[..sp]) < Work(stack[..sp] + [Segment(ptr, n, depth)])
  {
    assert ptr + n <= a.Length;
    hide Shuffled, Orderly, Order, Ordered, Work, SortedIn, SortedAround, Climbs, Climbing, Apart;
    ghost var s, segs := a[..], stack[..sp];
    SortPart(a, ptr, n, cmp, deep);
    assert stack[..sp] == segs;
    RestSorted(Orderly(cmp), Order(cmp), s, a[..], segs, Segment(ptr, n, depth));
  }

  method SortPart<T(!new)>(a: array<T>, ptr: nat, n: nat, cmp: Comparator<T>, deep: bool)
    requires ptr + n <= a.Length
    modifies a, cmp
    ensures Shuffled(old(a[..]), a[..], ptr, ptr + n) && (Orderly(cmp) ==> SortedIn(Order(cmp), a[..], ptr, ptr + n))
  {
    hide Shuffled, Orderly, Order, SortedIn;
    if deep {
      HeapSort(a, ptr, n, cmp);
    } else {
      InsertionSort(a, ptr, ptr + n, cmp);
    }
  }

  lemma {:induction false} RestSorted<T(!new)>(ok: bool, cmp: (T, T) -> int, s: seq<T>, s': seq<T>,
                                               segs: seq<Segment>, g: Segment)
    requires Ordered(ok, cmp, s, segs, g) && Shuffled(s, s', g.base, g.base + g.count) && |s| == |s'|
    requires g.base + g.count <= |s| && (ok ==> SortedIn(cmp, s', g.base, g.base + g.count))
    ensures Shuffled(s, s', 0, |s|)
    ensures Apart(segs, |s|) && |segs| <= STACK_SIZE && Climbs(segs) && (ok ==> SortedAround(cmp, s', segs))
    ensures Work(segs) < Work(segs + [g])
  {
    hide Shuffled, Ordered, Work, SortedIn, SortedAround, Climbs, Climbing, Apart;
    OrderedSort(ok, cmp, s, s', segs, g);
    OrderedPop(ok, cmp, s', segs, g);
    ShuffledWiden(s, s', g.base, g.base + g.count, 0, |s|);
  }

  /** What holds between two segments: the stack fits, and the array is in order around what it holds. */
  ghost predicate Waiting<T(!new)>(ok: bool, cmp: (T, T) -> int, s: seq<T>, segs: seq<Segment>) {
    && |segs| <= STACK_SIZE && (Climbs(segs) || segs == [Segment(0, |s|, 0)])
    && Apart(segs, |s|) && (ok ==> SortedAround(cmp, s, segs))
  }

  lemma WaitingPop<T(!new)>(ok: bool, cmp: (T, T) -> int, s: seq<T>, segs: seq<Segment>)
    requires Waiting(ok, cmp, s, segs) && |segs| > 0
    ensures Ordered(ok, cmp, s, segs[..|segs| - 1], segs[|segs| - 1])
    ensures segs == segs[..|segs| - 1] + [segs[|segs| - 1]]
  {
    hide SortedAround, Inside;
    var top := |segs| - 1;
    assert segs[..top] + [segs[top]] == segs;
    assert segs[top].base + segs[top].count <= |s|;
  }

  lemma WaitingAll<T(!new)>(ok: bool, cmp: (T, T) -> int, s: seq<T>)
    ensures Waiting(ok, cmp, s, [Segment(0, |s|, 0)])
  {
    var g := Segment(0, |s|, 0);
    forall i, j | 0 <= i < j < |s|
      ensures Together([g], i, j)
    {
      assert g in [g] && Inside(g, i) && Inside(g, j);
    }
  }

  lemma NothingWaiting<T(!new)>(cmp: (T, T) -> int, s: seq<T>)
    requires SortedAround(cmp, s, [])
    ensures SortedIn(cmp, s, 0, |s|)
  {
  }

  /** `rqsort`: whatever the comparison function answers, even if it answers the same question differently
      each time, the array is left as a permutation of itself and the 50 entries of the stack are enough: no
      index leaves them.  For a function whose answers order the elements the result is sorted. */
  method RqSort<T(!new)>(a: array<T>, cmp: Comparator<T>)
    modifies a, cmp
    ensures multiset(a[..]) == multiset(old(a[..]))
    ensures Orderly(cmp) ==> SortedIn(Order(cmp), a[..], 0, a.Length)
    ensures Orderly(cmp) ==> forall i, j :: 0 <= i < j < a.Length ==> cmp.answer(0, a[i], a[j]) <= 0
  {
    if a.Length < 2 {
      return;
    }
    hide Shuffled, Orderly, Order, Waiting, Work, SortedIn, SortedAround;
    ShuffledSelf(a[..], 0, a.Length);
    var stack := new Segment[STACK_SIZE](_ => Segment(0, 0, 0));
    stack[0] := Segment(0, a.Length, 0);
    var sp := 1;
    WaitingAll(Orderly(cmp), Order(cmp), a[..]);
    assert stack[..sp] == [Segment(0, a.Length, 0)];
    while sp > 0
      invariant StackOk(a, stack) && fresh(stack) && sp <= STACK_SIZE
      invariant Waiting(Orderly(cmp), Order(cmp), a[..], stack[..sp]) && Shuffled(old(a[..]), a[..], 0, a.Length)
      decreases Work(stack[..sp])
    {
      ghost var s, segs := a[..], stack[..sp];
      WaitingPop(Orderly(cmp), Order(cmp), s, segs);
      sp := sp - 1;
      assert stack[..sp] == segs[..sp];
      var top := stack[sp];
      sp := Narrow(a, stack, sp, top.base, top.count, top.depth, cmp);
      ShuffledTrans(old(a[..]), s, a[..], 0, a.Length);
      WaitingAgain(Orderly(cmp), Order(cmp), a[..], stack[..sp]);
    }
    ShuffledAll(old(a[..]), a[..]);
    WaitingNone(Orderly(cmp), Order(cmp), a[..], stack[..sp]);
  }

  lemma WaitingAgain<T(!new)>(ok: bool, cmp: (T, T) -> int, s: seq<T>, segs: seq<Segment>)
    requires |segs| <= STACK_SIZE && Climbs(segs) && Apart(segs, |s|) && (ok ==> SortedAround(cmp, s, segs))
    ensures Waiting(ok, cmp, s, segs)
  {
  }

  lemma WaitingNone<T(!new)>(ok: bool, cmp: (T, T) -> int, s: seq<T>, segs: seq<Segment>)
    requires |segs| == 0 && Waiting(ok, cmp, s, segs)
    ensures ok ==> SortedIn(cmp, s, 0, |s|)
  {
    assert segs == [];
    if ok {
      NothingWaiting(cmp, s);
    }
  }
}