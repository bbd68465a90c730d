/** The 31-bit form of UTF-8 (section 2 of RFC 2279): `unicode_to_utf8` and `unicode_from_utf8`. */
module Utf8 {
  import opened Integers

  const LIMIT: nat := 0x8000_0000
  const CLASS_RANGE_BASE: nat := 0x4000_0000
  const CHAR_LEN_MAX: nat := 6

  datatype Decoded = Malformed | Decoded(c: nat, len: nat)

  // ---------------------------------------------------------------- the code

  function Pow64(n: nat): (p: nat)
    requires n <= 5
    ensures p > 0
  {
    [1, 0x40, 0x1000, 0x4_0000, 0x100_0000, 0x4000_0000][n]
  }

  /** The smallest value with `l` continuation bytes. */
  function MinCode(l: nat): nat
    requires l <= 5
  {
    [0, 0x80, 0x800, 0x1_0000, 0x20_0000, 0x400_0000][l]
  }

  /** The first byte with `l` continuation bytes, without its payload. */
  function Lead(l: nat): u8
    requires 1 <= l <= 5
  {
    [0xc0, 0xe0, 0xf0, 0xf8, 0xfc][l - 1]
  }

  /** How many values the payload of the first byte may have. */
  function LeadRange(l: nat): nat
    requires 1 <= l <= 5
  {
    [0x20, 0x10, 8, 4, 2][l - 1]
  }

  predicate Continuations(t: seq<u8>) {
    forall i :: 0 <= i < |t| ==> Continuation(t[i])
  }

  /** How many continuation bytes a value needs. */
  function Extra(c: nat): (l: nat)
    requires c < LIMIT
    ensures l <= 5
  {
    if c < 0x80 then 0 else if c < 0x800 then 1 else if c < 0x1_0000 then 2
    else if c < 0x20_0000 then 3 else if c < 0x400_0000 then 4 else 5
  }

  /** The `l` continuation bytes of `c`, the most significant first. */
  function Tail(c: nat, l: nat): (t: seq<u8>)
    ensures |t| == l
  {
    if l == 0 then [] else Tail(c / 0x40, l - 1) + [0x80 + c % 0x40]
  }

  function Encode(c: nat): (s: seq<u8>)
    requires c < LIMIT
    ensures |s| == 1 + Extra(c) <= CHAR_LEN_MAX
  {
    var l := Extra(c);
    if l == 0 then [c]
    else
      LeadFits(c);
      [Lead(l) + c / Pow64(l)] + Tail(c, l)
  }

  lemma LeadFits(c: nat)
    requires c < LIMIT && Extra(c) > 0
    ensures c / Pow64(Extra(c)) < LeadRange(Extra(c)) && Lead(Extra(c)) + LeadRange(Extra(c)) <= 0x100
  {
  }

  predicate Continuation(b: u8) {
    0x80 <= b < 0xc0
  }

  /** How many continuation bytes the first byte announces. */
  function ExtraOf(b: u8): (l: int)
    ensures l == -1 || 0 <= l <= 5
  {
    if b < 0x80 then 0 else if b < 0xc0 then -1 else if b < 0xe0 then 1 else if b < 0xf0 then 2
    else if b < 0xf8 then 3 else if b < 0xfc then 4 else if b < 0xfe then 5 else -1
  }

  /** The value of continuation bytes behind a payload `c`. */
  function Value(c: nat, t: seq<u8>): nat {
    if |t| == 0 then c else Value(c, t[..|t| - 1]) * 0x40 + t[|t| - 1] % 0x40
  }

  /** What stands at the start of `s`, looking at `maxLen` bytes at most; overlong forms are malformed. */
  function Decode(s: seq<u8>, maxLen: nat): (d: Decoded)
    requires |s| > 0
    ensures d.Decoded? ==> 1 <= d.len <= |s| && d.len <= CHAR_LEN_MAX
  {
    var l := ExtraOf(s[0]);
    if l == 0 then Decoded(s[0], 1)
    else if l < 0 || l + 1 > maxLen || l + 1 > |s| then Malformed
    else if exists i :: 1 <= i <= l && !Continuation(s[i]) then Malformed
    else
      var c := Value(s[0] - Lead(l), s[1..l + 1]);
      if c < MinCode(l) then Malformed else Decoded(c, l + 1)
  }

  // ---------------------------------------------------------------- round trips

  lemma {:induction false} TailValue(c: nat, l: nat)
    requires l <= 5
    ensures Value(c / Pow64(l), Tail(c, l)) == c
    ensures forall i :: 0 <= i < l ==> Continuation(Tail(c, l)[i])
    decreases l
  {
    if l > 0 {
      TailValue(c / 0x40, l - 1);
      assert c / 0x40 / Pow64(l - 1) == c / Pow64(l) by { DivPow(c, l); }
      assert Tail(c, l)[..l - 1] == Tail(c / 0x40, l - 1);
    }
  }

  lemma DivPow(c: nat, l: nat)
    requires 1 <= l <= 5
    ensures c / 0x40 / Pow64(l - 1) == c / Pow64(l)
  {
  }

  lemma {:induction false} LeadAnnounces(c: nat)
    requires c < LIMIT && Extra(c) > 0
    ensures Encode(c)[0] == Lead(Extra(c)) + c / Pow64(Extra(c)) && ExtraOf(Encode(c)[0]) == Extra(c)
    ensures Encode(c)[1..] == Tail(c, Extra(c)) && MinCode(Extra(c)) <= c
  {
    hide Tail, Pow64;
    LeadFits(c);
  }

  /** Decoding the encoding of any value below 2^31, whatever follows it, gives the value back and takes
      exactly its bytes, unless fewer bytes may be read. */
  lemma {:induction false} EncodeDecode(c: nat, rest: seq<u8>, maxLen: nat)
    requires c < LIMIT && maxLen >= 1
    ensures Decode(Encode(c) + rest, maxLen) == if |Encode(c)| <= maxLen then Decoded(c, |Encode(c)|) else Malformed
  {
    hide Extra, ExtraOf, Tail, Pow64, Lead, MinCode, Encode, Value, Decode;
    var l, s := Extra(c), Encode(c) + rest;
    if l == 0 {
      SmallCode(c);
      DecodeOne(s, maxLen);
    } else {
      LeadAnnounces(c);
      TailValue(c, l);
      assert s[1..l + 1] == Encode(c)[1..] == Tail(c, l);
      assert forall i :: 1 <= i <= l ==> s[i] == s[1..l + 1][i - 1];
      DecodeLong(s, maxLen, l, c);
    }
  }

  lemma SmallCode(c: nat)
    requires c < LIMIT && Extra(c) == 0
    ensures c < 0x80 && Encode(c) == [c]
  {
  }

  lemma DecodeOne(s: seq<u8>, maxLen: nat)
    requires |s| > 0 && s[0] < 0x80
    ensures Decode(s, maxLen) == Decoded(s[0], 1)
  {
  }

  lemma {:induction false} DecodeLong(s: seq<u8>, maxLen: nat, l: nat, c: nat)
    requires 0 < l < |s| && ExtraOf(s[0]) == l && s[0] >= Lead(l) && forall i :: 1 <= i <= l ==> Continuation(s[i])
    requires Value(s[0] - Lead(l), s[1..l + 1]) == c >= MinCode(l)
    ensures Decode(s, maxLen) == if l + 1 <= maxLen then Decoded(c, l + 1) else Malformed
  {
    hide Value, Lead, MinCode, ExtraOf;
  }

  /** The last continuation byte holds the last six bits. */
  lemma {:induction false} ValueDigits(c: nat, t: seq<u8>)
    requires |t| > 0 && Continuation(t[|t| - 1])
    ensures Value(c, t) / 0x40 == Value(c, t[..|t| - 1]) && 0x80 + Value(c, t) % 0x40 == t[|t| - 1]
  {
    var a, r := Value(c, t[..|t| - 1]), t[|t| - 1] - 0x80;
    assert Value(c, t) == a * 0x40 + r;
    hide Value;
    assert (a * 0x40 + r) / 0x40 == a;
  }

  lemma {:induction false} TailNext(v: nat, n: nat)
    ensures Tail(v, 0) == [] && Tail(v, n + 1) == Tail(v / 0x40, n) + [0x80 + v % 0x40]
  {
  }

  lemma {:induction false} ValueTail(c: nat, t: seq<u8>)
    requires |t| <= 5 && Continuations(t)
    ensures Tail(Value(c, t), |t|) == t && Value(c, t) / Pow64(|t|) == c
    decreases |t|
  {
    if |t| == 0 {
      assert t == [];
    } else {
      hide Value, Pow64, Tail;
      var init, last := t[..|t| - 1], t[|t| - 1];
      ValueTail(c, init);
      ValueDigits(c, t);
      TailNext(Value(c, t), |t| - 1);
      DivPow(Value(c, t), |t|);
      assert t == init + [last];
    }
  }

  /** A value that is not overlong needs as many bytes as it has. */
  lemma ExtraExact(c: nat, l: nat, p: nat)
    requires 1 <= l <= 5 && p < LeadRange(l) && c / Pow64(l) == p && c >= MinCode(l)
    ensures c < LIMIT && Extra(c) == l
  {
  }

  /** Encoding what was decoded gives the same bytes back: every value has one accepted form. */
  lemma DecodeEncode(s: seq<u8>, maxLen: nat)
    requires |s| > 0 && Decode(s, maxLen).Decoded?
    ensures var d := Decode(s, maxLen); d.c < LIMIT && Encode(d.c) == s[..d.len]
  {
    var d, l := Decode(s, maxLen), ExtraOf(s[0]);
    hide Decode, Encode, Extra, ExtraOf, Tail, Pow64, Lead, LeadRange, MinCode, Value, Continuations;
    DecodeParts(s, maxLen);
    if l == 0 {
      OneByte(s[0]);
      assert s[..1] == [s[0]];
    } else {
      var t, p := s[1..l + 1], s[0] - Lead(l);
      ValueTail(p, t);
      ExtraExact(d.c, l, p);
      EncodeParts(d.c);
      assert s[..l + 1] == [s[0]] + t;
    }
  }

  /** What an accepted form of more than one byte consists of. */
  lemma {:induction false} DecodeParts(s: seq<u8>, maxLen: nat)
    requires |s| > 0 && Decode(s, maxLen).Decoded?
    ensures var d, l := Decode(s, maxLen), ExtraOf(s[0]);
            l >= 0 && if l == 0 then d == Decoded(s[0], 1) && s[0] < 0x80
            else d.len == l + 1 <= |s| && Continuations(s[1..l + 1]) &&
                 0 <= s[0] - Lead(l) < LeadRange(l) && d.c == Value(s[0] - Lead(l), s[1..l + 1]) >= MinCode(l)
  {
    hide Value;
  }

  lemma OneByte(c: nat)
    requires c < 0x80
    ensures Encode(c) == [c]
  {
  }

  lemma {:induction false} EncodeParts(c: nat)
    requires c < LIMIT && Extra(c) > 0
    ensures Encode(c) == [Lead(Extra(c)) + c / Pow64(Extra(c))] + Tail(c, Extra(c))
  {
    hide Tail, Pow64, Lead, Extra;
  }

  /** Without the byte 0xfd, which compiling rejects, characters stay below the tags of classes. */
  lemma BelowClasses(s: seq<u8>, maxLen: nat)
    requires |s| > 0 && s[0] != 0xfd && Decode(s, maxLen).Decoded?
    ensures Decode(s, maxLen).c < CLASS_RANGE_BASE
  {
    hide Decode, Encode;
    var d := Decode(s, maxLen);
    DecodeEncode(s, maxLen);
    ClassesNeedFd(d.c);
    assert Encode(d.c)[0] == s[0];
  }

  /** With it they do not: the check is exact. */
  lemma ClassesNeedFd(c: nat)
    requires c < LIMIT
    ensures Encode(c)[0] == 0xfd <==> c >= CLASS_RANGE_BASE
  {
  }

  // ---------------------------------------------------------------- the two routines

  lemma {:induction false} TailAt(c: nat, l: nat, i: nat)
    requires i < l <= 5
    ensures Tail(c, l)[i] == 0x80 + c / Pow64(l - 1 - i) % 0x40
    decreases l
  {
    if i < l - 1 {
      TailAt(c / 0x40, l - 1, i);
      DivPow(c, l - 1 - i);
    }
  }

  /** The encoding, byte by byte. */
  lemma {:induction false} EncodeBytes(c: nat)
    requires c < 0x8000_0000
    ensures Encode(c) ==
            if c < 0x80 then [c]
            else if c < 0x800 then [0xc0 + c / 0x40, Six(c)]
            else if c < 0x1_0000 then [0xe0 + c / 0x1000, Six(c / 0x40), Six(c)]
            else if c < 0x20_0000 then [0xf0 + c / 0x4_0000, Six(c / 0x1000), Six(c / 0x40), Six(c)]
            else if c < 0x400_0000 then
              [0xf8 + c / 0x100_0000, Six(c / 0x4_0000), Six(c / 0x1000), Six(c / 0x40), Six(c)]
            else
              [0xfc + c / 0x4000_0000, Six(c / 0x100_0000), Six(c / 0x4_0000), Six(c / 0x1000), Six(c / 0x40), Six(c)]
  {
    hide Tail, Encode;
    var l := Extra(c);
    if l == 0 {
      OneByte(c);
    } else {
      LeadFits(c);
      EncodeParts(c);
      TailBytes(c, l);
    }
  }

  lemma {:induction false} TailBytes(c: nat, l: nat)
    requires 1 <= l <= 5
    ensures Tail(c, l) ==
            if l == 1 then [Six(c)]
            else if l == 2 then [Six(c / 0x40), Six(c)]
            else if l == 3 then [Six(c / 0x1000), Six(c / 0x40), Six(c)]
            else if l == 4 then [Six(c / 0x4_0000), Six(c / 0x1000), Six(c / 0x40), Six(c)]
            else [Six(c / 0x100_0000), Six(c / 0x4_0000), Six(c / 0x1000), Six(c / 0x40), Six(c)]
  {
    hide Tail;
    forall i | 0 <= i < l
      ensures Tail(c, l)[i] == Six(c / Pow64(l - 1 - i))
    {
      TailAt(c, l, i);
    }
    hide Six;
  }

  /** A continuation byte with the last six bits. */
  function Six(v: nat): u8 {
    0x80 + v % 0x40
  }

  /** `unicode_to_utf8`: the bytes are written from the most significant on; nothing is written for a value
      that needs more than 31 bits. */
  method UnicodeToUtf8(buf: array<u8>, c: nat) returns (len: nat)
    requires buf.Length >= CHAR_LEN_MAX
    modifies buf
    ensures if c < LIMIT then len == |Encode(c)| && buf[..len] == Encode(c) else len == 0
  {
    var q := 0;
    if c < 0x80 {
      buf[q] := c;
      q := q + 1;
    } else {
      if c < 0x800 {
        buf[q] := 0xc0 + c / 0x40;
        q := q + 1;
      } else {
        if c < 0x1_0000 {
          buf[q] := 0xe0 + c / 0x1000;
          q := q + 1;
        } else {
          if c < 0x20_0000 {
            buf[q] := 0xf0 + c / 0x4_0000;
            q := q + 1;
          } else {
            if c < 0x400_0000 {
              buf[q] := 0xf8 + c / 0x100_0000;
              q := q + 1;
            } else if c < LIMIT {
              buf[q] := 0xfc + c / 0x4000_0000;
              buf[q + 1] := 0x80 + c / 0x100_0000 % 0x40;
              q := q + 2;
            } else {
              return 0;
            }
            buf[q] := 0x80 + c / 0x4_0000 % 0x40;
            q := q + 1;
          }
          buf[q] := 0x80 + c / 0x1000 % 0x40;
          q := q + 1;
        }
        buf[q] := 0x80 + c / 0x40 % 0x40;
        q := q + 1;
      }
      buf[q] := 0x80 + c % 0x40;
      q := q + 1;
    }
    len := q;
    WrittenBytes(c, buf[..len]);
  }

  /** The bytes that are written, one by one. */
  lemma WrittenBytes(c: nat, s: seq<u8>)
    requires c < LIMIT && |s| == 1 + Extra(c)
    requires s[0] == if Extra(c) == 0 then c else Lead(Extra(c)) + c / Pow64(Extra(c))
    requires forall i :: 0 < i < |s| ==> s[i] == 0x80 + c / Pow64(Extra(c) - i) % 0x40
    ensures s == Encode(c)
  {
    hide Pow64, Tail, Lead;
    var l := Extra(c);
    if l > 0 {
      LeadAnnounces(c);
      forall i | 0 < i <= l
        ensures s[i] == Encode(c)[i]
      {
        TailAt(c, l, i - 1);
        assert Encode(c)[i] == Encode(c)[1..][i - 1];
      }
    }
  }

  lemma {:induction false} ValueNone(c: nat)
    ensures Value(c, []) == c
  {
  }

  lemma {:induction false} ValueNext(c: nat, t: seq<u8>, b: u8)
    ensures Value(c, t + [b]) == Value(c, t) * 0x40 + b % 0x40
  {
    assert (t + [b])[..|t|] == t;
  }

  /** `unicode_from_utf8` at byte `p` of a buffer that either has `maxLen` more bytes or ends in a byte that
      continues nothing, such as the NUL of a C string: it never reads behind the buffer. */
  method UnicodeFromUtf8(s: seq<u8>, p: nat, maxLen: nat) returns (d: Decoded)
    requires p < |s| && maxLen >= 1 && (p + maxLen <= |s| || s[|s| - 1] < 0x80)
    ensures d == Decode(s[p..], maxLen)
  {
    var l := ExtraOf(s[p]);
    if l == 0 {
      return Decoded(s[p], 1);
    }
    if l < 0 || l > maxLen - 1 {
      return Malformed;
    }
    var c, ok := Gather(s, p, l, s[p] - Lead(l));
    if !ok || c < MinCode(l) {
      return Malformed;
    }
    return Decoded(c, l + 1);
  }

  /** The loop over the continuation bytes. */
  method Gather(s: seq<u8>, p: nat, l: nat, c0: nat) returns (c: nat, ok: bool)
    requires p < |s| && l <= 5 && (p + l < |s| || s[|s| - 1] < 0x80) && s[p] >= 0xc0
    ensures ok ==> p + l < |s| && (forall i :: 1 <= i <= l ==> Continuation(s[p..][i]))
    ensures ok ==> c == Value(c0, s[p..][1..l + 1])
    ensures !ok ==> p + l >= |s| || exists i :: 1 <= i <= l && !Continuation(s[p..][i])
  {
    hide Value;
    ghost var rest := s[p..];
    c, ok := c0, true;
    ValueNone(c0);
    assert rest[1..1] == [];
    var i := 0;
    while i < l
      invariant 0 <= i <= l && i < |rest|
      invariant forall k :: 1 <= k <= i ==> Continuation(rest[k])
      invariant c == Value(c0, rest[1..i + 1])
    {
      assert rest[|rest| - 1] == s[|s| - 1];
      var b := s[p + i + 1];
      if b < 0x80 || b >= 0xc0 {
        assert !Continuation(rest[i + 1]);
        return c, false;
      }
      ValueNext(c0, rest[1..i + 1], b);
      assert rest[1..i + 1] + [b] == rest[1..i + 2];
      c := c * 0x40 + b % 0x40;
      i := i + 1;
    }
  }
}