/** `utf8_to_utf16`: the units of a string, and for each of them the byte it came from. */
module Utf16 {
  import opened Integers
  import opened Utf8

  /** A C string: bytes other than NUL, and a NUL. */
  predicate CString(s: seq<u8>) {
    |s| > 0 && s[|s| - 1] == 0 && forall i :: 0 <= i < |s| - 1 ==> s[i] != 0
  }

  /** Byte `p` is the start of the rest of a well-formed string. */
  predicate Valid(s: seq<u8>, p: nat)
    requires CString(s)
    decreases |s| - p
  {
    if p >= |s| - 1 then p == |s| - 1
    else
      var d := Decode(s[p..], CHAR_LEN_MAX);
      d.Decoded? && Valid(s, p + d.len)
  }

  /** The code points from byte `p` on. */
  function CodePoints(s: seq<u8>, p: nat): (cs: seq<nat>)
    requires CString(s) && Valid(s, p)
    ensures forall c :: c in cs ==> c < LIMIT
    decreases |s| - p
  {
    if p == |s| - 1 then []
    else
      var d := Decode(s[p..], CHAR_LEN_MAX);
      DecodeEncode(s[p..], CHAR_LEN_MAX);
      [d.c] + CodePoints(s, p + d.len)
  }

  /** The index of each unit: the byte at which its character starts, and 0 for the second of two units. */
  function Indices(s: seq<u8>, p: nat): (ps: seq<nat>)
    requires CString(s) && Valid(s, p)
    decreases |s| - p
  {
    if p == |s| - 1 then []
    else
      var d := Decode(s[p..], CHAR_LEN_MAX);
      DecodeEncode(s[p..], CHAR_LEN_MAX);
      IndexOf(d.c, p) + Indices(s, p + d.len)
  }

  // ---------------------------------------------------------------- the units of a character

  /** Bitwise or. */
  function Or(a: nat, b: nat): (c: nat)
    ensures c <= a + b && (c == 0 <==> a == b == 0)
  {
    if a == 0 then b
    else if b == 0 then a
    else (if a % 2 == 1 || b % 2 == 1 then 1 else 0) + 2 * Or(a / 2, b / 2)
  }

  /** The units that are written for a code point. */
  function Written(c: nat): (units: seq<u16>)
    ensures |units| == if c < 0x1_0000 then 1 else 2
  {
    if c < 0x1_0000 then [c] else [Or((c - 0x1_0000) / 0x400, 0xd800) % 0x1_0000, Or(c % 0x10_0000, 0xdc00) % 0x1_0000]
  }

  function WrittenAll(cs: seq<nat>): (units: seq<u16>) {
    if |cs| == 0 then [] else WrittenAll(cs[..|cs| - 1]) + Written(cs[|cs| - 1])
  }

  /** The units of a code point in UTF-16 (section 2.1 of RFC 2781). */
  function Units(c: nat): (units: seq<u16>)
    requires c <= 0x10_FFFF
    ensures |units| == |Written(c)|
  {
    if c < 0x1_0000 then [c] else [0xd800 + (c - 0x1_0000) / 0x400, 0xdc00 + (c - 0x1_0000) % 0x400]
  }

  predicate InUnicode(cs: seq<nat>) {
    forall i :: 0 <= i < |cs| ==> cs[i] <= 0x10_FFFF
  }

  function UnitsAll(cs: seq<nat>): (units: seq<u16>)
    requires InUnicode(cs)
    ensures |units| == |WrittenAll(cs)|
  {
    if |cs| == 0 then [] else UnitsAll(cs[..|cs| - 1]) + Units(cs[|cs| - 1])
  }

  /** The second mask lets bit 13 of the code point through. */
  predicate LowBitsFit(c: nat) {
    c < 0x1_0000 || c / 0x2000 % 2 == 0
  }

  function Pow2(n: nat): (p: nat)
    ensures p > 0
  {
    if n == 0 then 1 else 2 * Pow2(n - 1)
  }

  /** One bit. */
  lemma {:induction false} OrHalf(a: nat, b: nat)
    ensures Or(a, b) == (if a % 2 == 1 || b % 2 == 1 then 1 else 0) + 2 * Or(a / 2, b / 2)
  {
  }

  lemma Halve(h: nat, l: nat)
    ensures (2 * h + l) / 2 == h + l / 2 && (2 * h + l) % 2 == l % 2
  {
  }

  lemma OrLowStep(h: nat, l: nat, g: nat)
    ensures Or(2 * h + l, 2 * g) == l % 2 + 2 * Or(h + l / 2, g)
  {
    hide Or;
    OrHalf(2 * h + l, 2 * g);
    Halve(h, l);
    Halve(g, 0);
  }

  /** Bits below the lowest bit of the mask stay as they are. */
  lemma {:induction false} OrLow(h: nat, l: nat, g: nat, n: nat)
    requires l < Pow2(n)
    ensures Or(h * Pow2(n) + l, g * Pow2(n)) == Or(h, g) * Pow2(n) + l
    decreases n
  {
    hide Or;
    if n > 0 {
      OrLow(h, l / 2, g, n - 1);
      var p := Pow2(n - 1);
      Twice(h, p);
      Twice(g, p);
      Twice(Or(h, g), p);
      OrLowStep(h * p, l, g * p);
    }
  }

  lemma Twice(a: nat, p: nat)
    ensures a * (2 * p) == 2 * (a * p)
  {
  }

  lemma Pow2Ten()
    ensures Pow2(10) == 0x400
  {
    assert Pow2(5) == 32;
    assert Pow2(8) == 8 * Pow2(5);
  }

  /** The six bits of the mask 0xdc00 let one bit in their middle, and all bits above them, through. */
  lemma {:induction false} OrHigh(h: nat)
    ensures Or(h, 0x37) == 0x37 + 8 * (h / 8 % 2) + 64 * (h / 64)
  {
    hide Or;
    var h1 := h / 2;
    var h2 := h1 / 2;
    var h3 := h2 / 2;
    var h4 := h3 / 2;
    var h5 := h4 / 2;
    OrHalf(h, 0x37);
    OrHalf(h1, 0x1b);
    OrHalf(h2, 0xd);
    OrHalf(h3, 6);
    OrHalf(h4, 3);
    OrHalf(h5, 1);
    OrNone(h5 / 2);
    assert h3 == h / 8 && h5 / 2 == h / 64;
  }

  /** The two units of a code point above 0xFFFF, in numbers. */
  lemma Masked(c: nat)
    requires 0x1_0000 <= c <= 0x10_FFFF
    ensures Written(c) == [0xd800 + (c - 0x1_0000) / 0x400, 0xdc00 + c / 0x2000 % 2 * 0x2000 + c % 0x400]
  {
    hide Or, Pow2;
    var first := (c - 0x1_0000) / 0x400;
    HighUnit(first);
    LowUnit(c / 0x10_0000, c % 0x10_0000);
    LowMasked(c % 0x10_0000);
  }

  lemma {:induction false} HighUnit(first: nat)
    requires first < 0x400
    ensures Or(first, 0xd800) == 0xd800 + first
  {
    hide Or, Pow2;
    Pow2Ten();
    OrLow(0, first, 0x36, 10);
    OrNone(0x36);
  }

  lemma {:induction false} LowMasked(r: nat)
    ensures Or(r, 0xdc00) % 0x1_0000 == 0xdc00 + r / 0x400 / 8 % 2 * 0x2000 + r % 0x400
  {
    hide Or, Pow2;
    var h, l := r / 0x400, r % 0x400;
    Pow2Ten();
    OrLow(h, l, 0x37, 10);
    OrHigh(h);
    Truncated(h / 8 % 2, h / 64, l);
  }

  lemma Truncated(bit: nat, high: nat, l: nat)
    requires bit < 2 && l < 0x400
    ensures ((0x37 + 8 * bit + 64 * high) * 0x400 + l) % 0x1_0000 == 0xdc00 + bit * 0x2000 + l
  {
  }

  /** The bits that the second unit keeps. */
  lemma LowUnit(k: nat, r: nat)
    ensures (k * 0x10_0000 + r) % 0x400 == r % 0x400
    ensures (k * 0x10_0000 + r) / 0x2000 % 2 == r / 0x400 / 8 % 2
  {
    LowBits(k, r);
    DropBits(r);
    TopBits(k, r);
  }

  lemma LowBits(k: nat, r: nat)
    ensures (k * 0x10_0000 + r) % 0x400 == r % 0x400
  {
  }

  lemma DropBits(r: nat)
    ensures r / 0x400 / 8 == r / 0x2000
  {
  }

  lemma TopBits(k: nat, r: nat)
    ensures (k * 0x10_0000 + r) / 0x2000 == 128 * k + r / 0x2000
  {
  }

  lemma {:induction false} OrNone(b: nat)
    ensures Or(0, b) == b == Or(b, 0)
  {
  }

  /** What is written for a code point is its UTF-16 form if and only if bit 13 of a code point above 0xFFFF
      is 0; the first of two units always is right. */
  lemma WrittenIsUnits(c: nat)
    requires c <= 0x10_FFFF
    ensures Written(c)[0] == Units(c)[0]
    ensures Written(c) == Units(c) <==> LowBitsFit(c)
  {
    if c >= 0x1_0000 {
      hide Written;
      Masked(c);
      SameLow(c);
    }
  }

  lemma SameLow(c: nat)
    requires c >= 0x1_0000
    ensures (c - 0x1_0000) % 0x400 == c % 0x400
  {
  }

  /** So the whole conversion is UTF-16 if and only if that holds of every character. */
  lemma {:induction false} WrittenAllIsUnits(cs: seq<nat>)
    requires InUnicode(cs)
    ensures WrittenAll(cs) == UnitsAll(cs) <==> forall i :: 0 <= i < |cs| ==> LowBitsFit(cs[i])
  {
    if |cs| > 0 {
      var init, last := cs[..|cs| - 1], cs[|cs| - 1];
      WrittenAllIsUnits(init);
      WrittenIsUnits(last);
      SplitEqual(WrittenAll(init), Written(last), UnitsAll(init), Units(last));
      assert cs == init + [last];
    }
  }

  lemma SplitEqual(a: seq<u16>, b: seq<u16>, c: seq<u16>, d: seq<u16>)
    requires |a| == |c|
    ensures a + b == c + d <==> a == c && b == d
  {
    if a + b == c + d {
      assert a == (a + b)[..|a|] == (c + d)[..|c|] == c;
      assert b == (a + b)[|a|..] == (c + d)[|c|..] == d;
    }
  }

  predicate BmpOnly(cs: seq<nat>) {
    forall c :: c in cs ==> c < 0x1_0000
  }

  function EncodeAll(units: seq<u16>): (s: seq<u8>) {
    if |units| == 0 then [] else Encode(units[0]) + EncodeAll(units[1..])
  }

  /** The bytes from `from` up to `end` are the character `u`. */
  predicate Spans(s: seq<u8>, u: u16, from: nat, end: nat) {
    from < end <= |s| && s[from..end] == Encode(u)
  }

  /** Unit `a` is the character whose bytes are those from indices[a] to indices[a + 1]. */
  ghost predicate Aligned(s: seq<u8>, units: seq<u16>, indices: seq<nat>) {
    && |indices| == |units| + 1
    && (forall a :: 0 <= a < |indices| ==> indices[a] <= |s|)
    && forall a :: 0 <= a < |units| ==> Spans(s, units[a], indices[a], indices[a + 1])
  }

  lemma {:induction false} Rising(s: seq<u8>, units: seq<u16>, indices: seq<nat>, a: nat, b: nat)
    requires Aligned(s, units, indices) && a <= b <= |units|
    ensures indices[a] <= indices[b] && (a < b ==> indices[a] < indices[b])
    decreases b
  {
    if a < b {
      Rising(s, units, indices, a, b - 1);
    }
  }

  /** The bytes between any two indices are the encoding of the units between them. */
  lemma {:induction false} SliceIsEncoding(s: seq<u8>, units: seq<u16>, indices: seq<nat>, a: nat, b: nat)
    requires Aligned(s, units, indices) && a <= b <= |units|
    ensures indices[a] <= indices[b] <= |s| && (a < b ==> indices[a] < indices[b])
    ensures s[indices[a]..indices[b]] == EncodeAll(units[a..b])
    decreases b - a
  {
    Rising(s, units, indices, a, b);
    if a < b {
      Rising(s, units, indices, a + 1, b);
      SliceIsEncoding(s, units, indices, a + 1, b);
      assert Spans(s, units[a], indices[a], indices[a + 1]);
      hide Encode;
      EncodeFirst(units, a, b);
      JoinSlices(s, indices[a], indices[a + 1], indices[b]);
    }
  }

  lemma EncodeFirst(units: seq<u16>, a: nat, b: nat)
    requires a < b <= |units|
    ensures EncodeAll(units[a..b]) == Encode(units[a]) + EncodeAll(units[a + 1..b])
  {
    assert units[a..b][1..] == units[a + 1..b];
  }

  lemma JoinSlices(s: seq<u8>, i: nat, j: nat, k: nat)
    requires i <= j <= k <= |s|
    ensures s[i..k] == s[i..j] + s[j..k]
  {
  }

  /** One more character at byte `p`. */
  lemma AlignedNext(s: seq<u8>, units: seq<u16>, indices: seq<nat>, d: Decoded, p: nat)
    requires p < |s| && Decode(s[p..], CHAR_LEN_MAX) == d && d.Decoded? && d.c < 0x1_0000
    requires Aligned(s, units, indices + [p])
    ensures p + d.len <= |s| && Aligned(s, units + [d.c], indices + [p] + [p + d.len])
  {
    hide Decode, Spans;
    SpansNext(s, d, p);
    var units', indices' := units + [d.c], indices + [p] + [p + d.len];
    forall a | 0 <= a < |units'|
      ensures Spans(s, units'[a], indices'[a], indices'[a + 1])
    {
      if a < |units| {
        assert indices'[a] == (indices + [p])[a] && indices'[a + 1] == (indices + [p])[a + 1];
      }
    }
  }

  lemma SpansNext(s: seq<u8>, d: Decoded, p: nat)
    requires p < |s| && Decode(s[p..], CHAR_LEN_MAX) == d && d.Decoded? && d.c < 0x1_0000
    ensures p + d.len <= |s| && Spans(s, d.c, p, p + d.len)
  {
    hide Decode;
    DecodeEncode(s[p..], CHAR_LEN_MAX);
    assert s[p..][..d.len] == s[p..p + d.len];
  }

  /** A character does not reach the NUL. */
  lemma BeforeNul(s: seq<u8>, p: nat)
    requires CString(s) && p < |s| - 1 && Decode(s[p..], CHAR_LEN_MAX).Decoded?
    ensures p + Decode(s[p..], CHAR_LEN_MAX).len <= |s| - 1
  {
    var r := s[p..];
    assert r[|r| - 1] == 0 && !Continuation(r[|r| - 1]);
  }

  /** Both halves of a character outside the basic plane need four bytes. */
  lemma FourBytes(s: seq<u8>)
    requires |s| > 0 && Decode(s, CHAR_LEN_MAX).Decoded? && Decode(s, CHAR_LEN_MAX).c >= 0x1_0000
    ensures Decode(s, CHAR_LEN_MAX).len >= 4
  {
    DecodeEncode(s, CHAR_LEN_MAX);
  }

  /** How far the conversion has come: `seen` are the code points in front of byte `pos`. */
  ghost predicate Converted(s: seq<u8>, units: seq<u16>, indices: seq<nat>, pos: nat, seen: seq<nat>)
    requires CString(s)
  {
    && |units| == |indices| <= pos < |s|
    && (Valid(s, 0) <==> Valid(s, pos))
    && (Valid(s, pos) ==> CodePoints(s, 0) == seen + CodePoints(s, pos) && Indices(s, 0) == indices + Indices(s, pos))
    && units == WrittenAll(seen)
    && (BmpOnly(seen) ==> units == seen && Aligned(s, units, indices + [pos]) && (indices + [pos])[0] == 0)
  }

  lemma ConvertedStart(s: seq<u8>)
    requires CString(s)
    ensures Converted(s, [], [], 0, [])
  {
    hide CodePoints, Valid, Indices;
    if Valid(s, 0) {
      assert [] + CodePoints(s, 0) == CodePoints(s, 0) && [] + Indices(s, 0) == Indices(s, 0);
    }
  }

  /** The indices of one character. */
  function IndexOf(c: nat, p: nat): seq<nat> {
    if c < 0x1_0000 then [p] else [p, 0]
  }

  lemma ConvertedNext(s: seq<u8>, units: seq<u16>, indices: seq<nat>, pos: nat, seen: seq<nat>, d: Decoded,
                      units': seq<u16>, indices': seq<nat>)
    requires CString(s) && Converted(s, units, indices, pos, seen) && pos < |s| - 1
    requires d == Decode(s[pos..], CHAR_LEN_MAX) && d.Decoded?
    requires units' == units + Written(d.c) && indices' == indices + IndexOf(d.c, pos)
    ensures Converted(s, units', indices', pos + d.len, seen + [d.c])
  {
    hide WrittenAll;
    BeforeNul(s, pos);
    PointsNext(s, pos, seen, indices, d);
    WrittenNext(seen, d.c);
    BmpMore(seen, d.c);
    if d.c >= 0x1_0000 {
      FourBytes(s[pos..]);
    } else if BmpOnly(seen) {
      AlignedNext(s, units, indices, d, pos);
    }
  }

  lemma {:induction false} WrittenNext(seen: seq<nat>, c: nat)
    ensures WrittenAll(seen + [c]) == WrittenAll(seen) + Written(c)
  {
    assert (seen + [c])[..|seen|] == seen;
  }

  lemma {:induction false} PointsNext(s: seq<u8>, pos: nat, seen: seq<nat>, indices: seq<nat>, d: Decoded)
    requires CString(s) && pos < |s| - 1 && d == Decode(s[pos..], CHAR_LEN_MAX) && d.Decoded?
    ensures Valid(s, pos) <==> Valid(s, pos + d.len)
    ensures Valid(s, pos) ==>
              seen + CodePoints(s, pos) == seen + [d.c] + CodePoints(s, pos + d.len) &&
              indices + Indices(s, pos) == indices + IndexOf(d.c, pos) + Indices(s, pos + d.len)
  {
    hide Decode, Valid, CodePoints, Indices;
    ValidNext(s, pos, d);
    if Valid(s, pos) {
      PointsFirst(s, pos, d);
      Associate(seen, [d.c], CodePoints(s, pos + d.len));
      Associate(indices, IndexOf(d.c, pos), Indices(s, pos + d.len));
    }
  }

  lemma {:induction false} ValidNext(s: seq<u8>, pos: nat, d: Decoded)
    requires CString(s) && pos < |s| - 1 && d == Decode(s[pos..], CHAR_LEN_MAX) && d.Decoded?
    ensures Valid(s, pos) <==> Valid(s, pos + d.len)
  {
    hide Decode;
  }

  lemma {:induction false} PointsFirst(s: seq<u8>, pos: nat, d: Decoded)
    requires CString(s) && pos < |s| - 1 && Valid(s, pos) && d == Decode(s[pos..], CHAR_LEN_MAX) && d.Decoded?
    requires Valid(s, pos + d.len)
    ensures CodePoints(s, pos) == [d.c] + CodePoints(s, pos + d.len)
    ensures Indices(s, pos) == IndexOf(d.c, pos) + Indices(s, pos + d.len)
  {
    hide Decode, Valid;
  }

  lemma Associate(a: seq<nat>, b: seq<nat>, c: seq<nat>)
    ensures a + (b + c) == a + b + c
  {
  }

  lemma BmpMore(seen: seq<nat>, c: nat)
    ensures BmpOnly(seen + [c]) <==> BmpOnly(seen) && c < 0x1_0000
  {
    assert c in seen + [c] && forall x :: x in seen ==> x in seen + [c];
  }

  lemma {:induction false} ConvertedEnd(s: seq<u8>, units: seq<u16>, indices: seq<nat>, pos: nat, seen: seq<nat>)
    requires CString(s) && Converted(s, units, indices, pos, seen) && pos == |s| - 1
    ensures Valid(s, 0) && units == WrittenAll(CodePoints(s, 0)) && indices == Indices(s, 0)
    ensures BmpOnly(CodePoints(s, 0)) ==>
              units == CodePoints(s, 0) && (indices + [pos])[0] == 0 && Aligned(s, units, indices + [pos])
  {
    assert seen + [] == seen && indices + [] == indices;
  }

  lemma {:induction false} ConvertedFails(s: seq<u8>, units: seq<u16>, indices: seq<nat>, pos: nat, seen: seq<nat>)
    requires CString(s) && Converted(s, units, indices, pos, seen) && pos < |s| - 1
    requires Decode(s[pos..], CHAR_LEN_MAX) == Malformed
    ensures !Valid(s, 0)
  {
  }

  /** The units of one character. */
  method WriteUnits(str: array<u16>, q: nat, c: nat) returns (next: nat)
    requires q + |Written(c)| <= str.Length
    modifies str
    ensures next == q + |Written(c)| && str[..next] == old(str[..q]) + Written(c)
  {
    hide Or;
    if c > 0xffff {
      str[q] := Or((c - 0x1_0000) / 0x400, 0xd800) % 0x1_0000;
      str[q + 1] := Or(c % 0x10_0000, 0xdc00) % 0x1_0000;
      next := q + 2;
    } else {
      str[q] := c;
      next := q + 1;
    }
  }

  /** One character of the string. */
  method ConvertOne(input: seq<u8>, str: array<u16>, index: array<nat>, q: nat, pos: nat, ghost seen: seq<nat>)
    returns (d: Decoded, next: nat)
    requires CString(input) && pos < |input| - 1 && q <= pos && str.Length == index.Length == |input|
    requires Converted(input, str[..q], index[..q], pos, seen) && forall k :: q < k < |input| ==> index[k] == 0
    modifies str, index
    ensures d == Decode(input[pos..], CHAR_LEN_MAX)
    ensures d == Malformed ==> !Valid(input, 0)
    ensures d.Decoded? ==> next <= pos + d.len < |input| && forall k :: next < k < |input| ==> index[k] == 0
    ensures d.Decoded? ==> Converted(input, str[..next], index[..next], pos + d.len, seen + [d.c])
  {
    hide Valid, Converted, Decode, CodePoints, Indices, WrittenAll;
    ghost var before, beforeIndex := str[..q], index[..q];
    index[q] := pos;
    d := UnicodeFromUtf8(input, pos, CHAR_LEN_MAX);
    next := q;
    if d == Malformed {
      ConvertedFails(input, before, beforeIndex, pos, seen);
      return;
    }
    BeforeNul(input, pos);
    if d.c > 0xffff {
      FourBytes(input[pos..]);
    }
    next := WriteUnits(str, q, d.c);
    assert index[..next] == beforeIndex + IndexOf(d.c, pos);
    ConvertedNext(input, before, beforeIndex, pos, seen, d, str[..next], index[..next]);
  }

  /** Fails exactly on malformed input, and never writes more units than there are bytes.  When all code
      points are below 0x10000, the units are the code points and the indices are aligned with them. */
  method Utf8ToUtf16(input: seq<u8>) returns (ok: bool, units: seq<u16>, indices: seq<nat>)
    requires CString(input)
    ensures ok <==> Valid(input, 0)
    ensures ok ==> |units| <= |input| - 1 && units == WrittenAll(CodePoints(input, 0)) &&
                   indices == Indices(input, 0) + [|input| - 1]
    ensures ok && BmpOnly(CodePoints(input, 0)) ==>
              units == CodePoints(input, 0) && indices[0] == 0 && Aligned(input, units, indices)
  {
    hide Valid, Converted, Decode, CodePoints, Indices, WrittenAll;
    var n := |input| - 1;
    var str := new u16[n + 1];
    var index := new nat[n + 1](_ => 0);
    var q, pos := 0, 0;
    ghost var seen := [];
    ConvertedStart(input);
    assert str[..0] == [] && index[..0] == [];
    while input[pos] != 0
      invariant 0 <= q <= pos <= n && Converted(input, str[..q], index[..q], pos, seen)
      invariant forall k :: q < k <= n ==> index[k] == 0
      decreases n - pos
    {
      var d;
      d, q := ConvertOne(input, str, index, q, pos, seen);
      if d == Malformed {
        return false, [], [];
      }
      seen := seen + [d.c];
      pos := pos + d.len;
    }
    ConvertedEnd(input, str[..q], index[..q], pos, seen);
    ghost var beforeIndex := index[..q];
    str[q] := 0;
    index[q] := n;
    assert index[..q + 1] == beforeIndex + [n];
    ok, units, indices := true, str[..q], index[..q + 1];
  }
}
