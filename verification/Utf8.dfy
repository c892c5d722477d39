/** UTF-8 as the generated C reads and writes it (tools/gen-r7rs-unicode.py,
  * lines 335-355). Bytes are integers; the shifts and masks of the C are written
  * as division and remainder. */
module Utf8 {
  type Byte = b: int | 0 <= b < 256

  /** What four bytes can carry: the reader accepts more than the code space. */
  type Scalar21 = c: int | 0 <= c < 0x200000

  // ----- section 3 of RFC 3629 -----

  /** The encoding of a code point; the fourth form is also used above 0x10FFFF. */
  function Encode(cp: Scalar21): (e: seq<Byte>)
    ensures 1 <= |e| <= 4
    ensures forall k | 1 <= k < |e| :: IsTail(e[k])
    ensures Lead(e[0]) == |e|
  {
    if cp < 0x80 then [cp]
    else if cp < 0x800 then [0xC0 + cp / 0x40, 0x80 + cp % 0x40]
    else if cp < 0x10000 then [0xE0 + cp / 0x1000, 0x80 + cp / 0x40 % 0x40, 0x80 + cp % 0x40]
    else [0xF0 + cp / 0x40000, 0x80 + cp / 0x1000 % 0x40, 0x80 + cp / 0x40 % 0x40, 0x80 + cp % 0x40]
  }

  function EncodeAll(text: seq<Scalar21>): seq<Byte> {
    if text == [] then [] else Encode(text[0]) + EncodeAll(text[1..])
  }

  // ----- reading -----

  /** The length a lead byte announces, or 0. */
  function Lead(b: Byte): (n: nat)
    ensures n <= 4
  {
    if b < 0x80 then 1
    else if 0xC0 <= b < 0xE0 then 2
    else if 0xE0 <= b < 0xF0 then 3
    else if 0xF0 <= b < 0xF8 then 4
    else 0
  }

  predicate IsTail(b: Byte) { 0x80 <= b < 0xC0 }

  /** The payload bits of a lead byte announcing `n` bytes. */
  function LeadBits(b: Byte, n: nat): int
    requires 1 <= n <= 4
  {
    if n == 1 then b else if n == 2 then b % 0x20 else if n == 3 then b % 0x10 else b % 0x08
  }

  /** The six payload bits of a tail byte. */
  function Low6(b: Byte): (x: int)
    ensures 0 <= x < 0x40
  {
    b % 0x40
  }

  /** The lead bits followed by six bits of each byte. */
  function Accumulate(v: int, tail: seq<Byte>): int {
    if tail == [] then v else Accumulate(v, tail[..|tail| - 1]) * 0x40 + Low6(tail[|tail| - 1])
  }

  lemma AccumulateUpTo3(v: int, t: seq<Byte>)
    requires |t| <= 3
    ensures |t| == 0 ==> Accumulate(v, t) == v
    ensures |t| == 1 ==> Accumulate(v, t) == v * 0x40 + Low6(t[0])
    ensures |t| == 2 ==> Accumulate(v, t) == v * 0x1000 + Low6(t[0]) * 0x40 + Low6(t[1])
    ensures |t| == 3 ==> Accumulate(v, t) == v * 0x40000 + Low6(t[0]) * 0x1000 + Low6(t[1]) * 0x40 + Low6(t[2])
  {
    if |t| > 0 { AccumulateUpTo3(v, t[..|t| - 1]); }
  }

  /** `s` begins with a whole sequence: a lead byte and the tails it announces. */
  predicate Whole(s: seq<Byte>) {
    s != [] && 0 < Lead(s[0]) <= |s| && forall k | 1 <= k < Lead(s[0]) :: IsTail(s[k])
  }

  function CodeAt(s: seq<Byte>): Scalar21
    requires Whole(s)
  {
    var n := Lead(s[0]);
    AccumulateUpTo3(LeadBits(s[0], n), s[1..n]);
    Accumulate(LeadBits(s[0], n), s[1..n])
  }

  /** One thing the reader finds: a code point, or a byte that begins none. */
  datatype Item = Raw(b: Byte) | Code(cp: Scalar21)

  function HeadItem(s: seq<Byte>): Item
    requires s != []
  {
    if Whole(s) then Code(CodeAt(s)) else Raw(s[0])
  }

  function HeadLength(s: seq<Byte>): (n: nat)
    requires s != []
    ensures 1 <= n <= |s|
  {
    if Whole(s) then Lead(s[0]) else 1
  }

  /** All that is read up to the end of `s`. */
  function Items(s: seq<Byte>): seq<Item> {
    if s == [] then [] else [HeadItem(s)] + Items(s[HeadLength(s)..])
  }

  // ----- round trip -----

  /** A code point is what its six-bit digits and its lead bits say. */
  lemma Digits(cp: Scalar21)
    ensures cp == cp / 0x40 * 0x40 + cp % 0x40
    ensures cp / 0x40 == cp / 0x1000 * 0x40 + cp / 0x40 % 0x40
    ensures cp / 0x1000 == cp / 0x40000 * 0x40 + cp / 0x1000 % 0x40
  {
    assert cp / 0x40 / 0x40 == cp / 0x1000;
    assert cp / 0x1000 / 0x40 == cp / 0x40000;
  }

  lemma DecodeEncode(cp: Scalar21, rest: seq<Byte>)
    ensures var s := Encode(cp) + rest;
            Whole(s) && Lead(s[0]) == |Encode(cp)| && CodeAt(s) == cp
  {
    var e := Encode(cp);
    var s := e + rest;
    var n := |e|;
    assert s[0] == e[0] && forall k | 1 <= k < n :: s[k] == e[k];
    assert s[1..n] == e[1..];
    EncodedPayload(cp);
  }

  lemma Payload2(cp: Scalar21)
    requires 0x80 <= cp < 0x800
    ensures var e := Encode(cp); Accumulate(LeadBits(e[0], 2), e[1..]) == cp
  {
    var e := Encode(cp);
    Digits(cp);
    AccumulateUpTo3(LeadBits(e[0], 2), e[1..]);
    assert LeadBits(e[0], 2) == cp / 0x40 && Low6(e[1]) == cp % 0x40;
  }

  lemma Payload3(cp: Scalar21)
    requires 0x800 <= cp < 0x10000
    ensures var e := Encode(cp); Accumulate(LeadBits(e[0], 3), e[1..]) == cp
  {
    var e := Encode(cp);
    Digits(cp);
    AccumulateUpTo3(LeadBits(e[0], 3), e[1..]);
    assert LeadBits(e[0], 3) == cp / 0x1000;
    assert Low6(e[1]) == cp / 0x40 % 0x40 && Low6(e[2]) == cp % 0x40;
  }

  lemma Payload4(cp: Scalar21)
    requires 0x10000 <= cp
    ensures var e := Encode(cp); Accumulate(LeadBits(e[0], 4), e[1..]) == cp
  {
    var e := Encode(cp);
    Digits(cp);
    AccumulateUpTo3(LeadBits(e[0], 4), e[1..]);
    assert LeadBits(e[0], 4) == cp / 0x40000;
    assert Low6(e[1]) == cp / 0x1000 % 0x40 && Low6(e[2]) == cp / 0x40 % 0x40 && Low6(e[3]) == cp % 0x40;
  }

  lemma EncodedPayload(cp: Scalar21)
    ensures var e := Encode(cp); Accumulate(LeadBits(e[0], |e|), e[1..]) == cp
  {
    if cp < 0x80 {
      AccumulateUpTo3(cp, Encode(cp)[1..]);
    } else if cp < 0x800 {
      Payload2(cp);
    } else if cp < 0x10000 {
      Payload3(cp);
    } else {
      Payload4(cp);
    }
  }

  function Codes(text: seq<Scalar21>): (items: seq<Item>)
    ensures |items| == |text| && forall k | 0 <= k < |text| :: items[k] == Code(text[k])
  {
    seq(|text|, k requires 0 <= k < |text| => Code(text[k]))
  }

  /** Reading back an encoded text gives the text. */
  lemma {:induction false} ItemsOfText(text: seq<Scalar21>)
    ensures Items(EncodeAll(text)) == Codes(text)
  {
    if text != [] {
      var rest := EncodeAll(text[1..]);
      var s := EncodeAll(text);
      DecodeEncode(text[0], rest);
      assert s[|Encode(text[0])|..] == rest;
      ItemsOfText(text[1..]);
    } else {
      assert Codes(text) == [];
    }
  }

  lemma {:induction false} EncodeAllAppend(a: seq<Scalar21>, b: seq<Scalar21>)
    ensures EncodeAll(a + b) == EncodeAll(a) + EncodeAll(b)
  {
    if a == [] {
      assert a + b == b;
    } else {
      assert (a + b)[1..] == a[1..] + b;
      EncodeAllAppend(a[1..], b);
    }
  }

  // ----- the C functions -----

  /** Write `cp` at `at`; the number of bytes written. */
  method Put(o: array<Byte>, at: nat, cp: Scalar21) returns (n: nat)
    requires at + |Encode(cp)| <= o.Length
    modifies o
    ensures n == |Encode(cp)| && at + n <= o.Length
    ensures o[at..at + n] == Encode(cp)
    ensures forall k | 0 <= k < o.Length && !(at <= k < at + n) :: o[k] == old(o[k])
  {
    if cp < 0x80 {
      o[at] := cp;
      return 1;
    }
    if cp < 0x800 {
      o[at] := 0xC0 + cp / 0x40;
      o[at + 1] := 0x80 + cp % 0x40;
      return 2;
    }
    if cp < 0x10000 {
      o[at] := 0xE0 + cp / 0x1000;
      o[at + 1] := 0x80 + cp / 0x40 % 0x40;
      o[at + 2] := 0x80 + cp % 0x40;
      return 3;
    }
    o[at] := 0xF0 + cp / 0x40000;
    o[at + 1] := 0x80 + cp / 0x1000 % 0x40;
    o[at + 2] := 0x80 + cp / 0x40 % 0x40;
    o[at + 3] := 0x80 + cp % 0x40;
    return 4;
  }

  /** A NUL-terminated string. */
  predicate IsCString(s: array<Byte>)
    reads s
  {
    s.Length > 0 && s[s.Length - 1] == 0 && forall k | 0 <= k < s.Length - 1 :: s[k] != 0
  }

  ghost function Text(s: array<Byte>): seq<Byte>
    requires IsCString(s)
    reads s
  {
    s[..s.Length - 1]
  }

  /** The sequence at `p`: its length and code point, or 0 when the bytes there are
    * not one. Nothing past the NUL is read. */
  method GetAt(s: array<Byte>, p: nat) returns (n: nat, cp: int)
    requires IsCString(s) && p < s.Length - 1
    ensures var rest := Text(s)[p..];
            if Whole(rest) then n == Lead(rest[0]) && cp == CodeAt(rest) else n == 0
  {
    ghost var rest := Text(s)[p..];
    n, cp := 0, 0;
    if s[p] < 0x80 {
      assert rest[1..1] == [];
      return 1, s[p];
    }
    var len := Lead(s[p]);
    if len == 0 { return; }
    var v := LeadBits(s[p], len);
    var i := 1;
    while i < len
      invariant 1 <= i <= len && p + i <= s.Length - 1
      invariant forall k | 1 <= k < i :: IsTail(rest[k])
      invariant v == Accumulate(LeadBits(rest[0], len), rest[1..i])
    {
      if !IsTail(s[p + i]) {
        assert p + i < s.Length - 1 ==> rest[i] == s[p + i];
        return;
      }
      assert rest[i] == s[p + i];
      assert rest[1..i + 1][..i - 1] == rest[1..i];
      v := v * 0x40 + Low6(s[p + i]);
      i := i + 1;
    }
    return len, v;
  }

  /** The item a read of length `n` and value `cp` found. */
  ghost function Found(s: array<Byte>, p: nat, n: nat, cp: int): Item
    requires p < s.Length && (n > 0 ==> 0 <= cp < 0x200000)
    reads s
  {
    if n == 0 then Raw(s[p]) else Code(cp)
  }

  /** The reads of `GetAt`, one after another, are the items of the text. */
  method ReadItem(s: array<Byte>, p: nat) returns (n: nat, cp: int)
    requires IsCString(s) && p < s.Length - 1
    ensures n > 0 ==> 0 <= cp < 0x200000
    ensures var next := p + if n == 0 then 1 else n;
            next <= s.Length - 1 && Items(Text(s)[p..]) == [Found(s, p, n, cp)] + Items(Text(s)[next..])
  {
    n, cp := GetAt(s, p);
    ghost var rest := Text(s)[p..];
    assert rest[HeadLength(rest)..] == Text(s)[p + HeadLength(rest)..];
  }

  // ----- the bit operations behind the arithmetic -----

  /** The masks and shifts of the C, on bytes and on 32-bit code points, are the
    * comparisons, quotients and sums used above. */
  lemma Masks(b: bv8)
    ensures (b & 0xE0 == 0xC0) <==> 0xC0 <= b < 0xE0
    ensures (b & 0xF0 == 0xE0) <==> 0xE0 <= b < 0xF0
    ensures (b & 0xF8 == 0xF0) <==> 0xF0 <= b < 0xF8
    ensures (b & 0xC0 == 0x80) <==> 0x80 <= b < 0xC0
    ensures b & (0x7F >> 2) == b % 0x20 && b & (0x7F >> 3) == b % 0x10 && b & (0x7F >> 4) == b % 0x08
    ensures b & 0x3F == b % 0x40
  {
  }
}
