/** Editor columns, which count UTF-16 code units, and server columns, which count UTF-8
  * bytes (web/lsp-client.js, lines 40-78). */
module Columns {
  import Utf8

  type Unit = u: int | 0 <= u < 0x10000

  /** A Unicode scalar value: a code point that is not a surrogate. */
  type Scalar = c: int | 0 <= c < 0xD800 || 0xE000 <= c < 0x110000

  predicate High(u: Unit) { 0xD800 <= u < 0xDC00 }

  predicate Low(u: Unit) { 0xDC00 <= u < 0xE000 }

  /** A line begins with a surrogate pair; any other surrogate stands alone. */
  predicate Pair(s: seq<Unit>) { |s| > 1 && High(s[0]) && Low(s[1]) }

  /** Section 2.2 of RFC 2781. */
  function CodePointAt(s: seq<Unit>, i: nat): (c: nat)
    requires i < |s|
    ensures c > 0xFFFF <==> Pair(s[i..])
    ensures c < 0x110000
  {
    if Pair(s[i..]) then 0x10000 + (s[i] as int - 0xD800) * 0x400 + (s[i + 1] as int - 0xDC00) else s[i]
  }

  /** The code units of the first character. */
  function Step(s: seq<Unit>): (n: nat)
    requires s != []
    ensures 1 <= n <= |s|
  {
    if Pair(s) then 2 else 1
  }

  /** The bytes of the first character (section 3 of RFC 3629); the encoder writes the
    * replacement character, of three bytes, for a surrogate that stands alone. */
  function Width(s: seq<Unit>): (n: nat)
    requires s != []
    ensures 1 <= n <= 4
  {
    if Pair(s) then 4 else if s[0] < 0x80 then 1 else if s[0] < 0x800 then 2 else 3
  }

  /** The length of the encoder's output. */
  function Bytes(s: seq<Unit>): nat {
    if s == [] then 0 else Width(s) + Bytes(s[Step(s)..])
  }

  // ----- the encoder -----

  predicate Surrogate(u: Unit) { High(u) || Low(u) }

  /** What the encoder reads first: a surrogate that stands alone is replaced. */
  function FirstScalar(s: seq<Unit>): (c: Scalar)
    requires s != []
  {
    if Pair(s) then CodePointAt(s, 0) else if Surrogate(s[0]) then 0xFFFD else s[0]
  }

  function Scalars(s: seq<Unit>): seq<Scalar> {
    if s == [] then [] else [FirstScalar(s)] + Scalars(s[Step(s)..])
  }

  /** What the encoder writes for a text. */
  function Encoded(s: seq<Unit>): seq<Utf8.Byte> { Utf8.EncodeAll(Scalars(s)) }

  /** A character is as wide as its encoding, */
  lemma WidthIsEncoded(s: seq<Unit>)
    requires s != []
    ensures Width(s) == |Utf8.Encode(FirstScalar(s))|
  {
    assert s[0..] == s;
  }

  /** and so is a line. */
  lemma {:induction false} BytesAreEncoded(s: seq<Unit>)
    ensures Bytes(s) == |Encoded(s)|
  {
    if s != [] {
      var rest := s[Step(s)..];
      WidthIsEncoded(s);
      BytesAreEncoded(rest);
      assert ([FirstScalar(s)] + Scalars(rest))[1..] == Scalars(rest);
    }
  }

  /** The code units of a code point (section 2.1 of RFC 2781). */
  function Units(c: Scalar): (u: seq<Unit>)
    ensures 1 <= |u| <= 2
  {
    if c < 0x10000 then [c] else [0xD800 + (c - 0x10000) / 0x400, 0xDC00 + (c - 0x10000) % 0x400]
  }

  function UnitsOf(text: seq<Scalar>): seq<Unit>
  {
    if text == [] then [] else Units(text[0]) + UnitsOf(text[1..])
  }

  /** The scalar values of a text in UTF-16 are the text: none is replaced. */
  lemma {:induction false} ScalarsOfUnits(text: seq<Scalar>)
    ensures Scalars(UnitsOf(text)) == text
    ensures text != [] && UnitsOf(text) != [] ==> !Low(UnitsOf(text)[0])
  {
    if text != [] {
      var u, rest := Units(text[0]), UnitsOf(text[1..]);
      var s := u + rest;
      ScalarsOfUnits(text[1..]);
      if text[0] < 0x10000 {
        assert s[0] == text[0] && !Pair(s) && s[1..] == rest;
      } else {
        assert s[0] == u[0] && s[1] == u[1] && Pair(s) && s[2..] == rest;
        assert s[0..] == s && FirstScalar(s) == text[0];
      }
      assert [text[0]] + text[1..] == text;
    }
  }

  predicate Ascii(s: seq<Unit>) { forall k | 0 <= k < |s| :: s[k] < 0x80 }

  /** No character is cut at `k`. */
  predicate Boundary(s: seq<Unit>, k: nat) {
    k <= |s| && !(0 < k < |s| && High(s[k - 1]) && Low(s[k]))
  }

  // ----- lengths -----

  lemma {:induction false} BytesSplit(s: seq<Unit>, k: nat)
    requires Boundary(s, k)
    ensures Bytes(s[..k]) + Bytes(s[k..]) == Bytes(s)
    decreases |s|
  {
    if k == 0 {
      assert s[0..] == s && s[..0] == [];
    } else {
      var n := Step(s);
      var rest := s[n..];
      assert n <= k;
      BytesSplit(rest, k - n);
      assert s[..k][n..] == rest[..k - n] && s[k..] == rest[k - n..];
      assert k > 1 ==> s[..k][1] == s[1];
    }
  }

  /** One character more is its bytes more. */
  lemma BytesStep(s: seq<Unit>, i: nat)
    requires Boundary(s, i) && i < |s|
    ensures var j := i + Step(s[i..]);
            j <= |s| && Boundary(s, j) && Bytes(s[..j]) == Bytes(s[..i]) + Width(s[i..])
            && forall k | i < k < j :: !Boundary(s, k)
  {
    var j := i + Step(s[i..]);
    var t := s[..j];
    BytesSplit(t, i);
    assert t[..i] == s[..i] && t[i..][0] == s[i] && |t[i..]| == j - i;
    assert Pair(t[i..]) == Pair(s[i..]);
    assert t[i..][j - i..] == [];
  }

  lemma BytesGrow(s: seq<Unit>, k: nat, l: nat)
    requires Boundary(s, k) && Boundary(s, l) && k < l
    ensures Bytes(s[..k]) < Bytes(s[..l])
  {
    var t := s[..l];
    BytesSplit(t, k);
    assert t[..k] == s[..k];
  }

  lemma {:induction false} BytesAscii(s: seq<Unit>)
    requires Ascii(s)
    ensures Bytes(s) == |s| && forall k | 0 <= k <= |s| :: Boundary(s, k)
  {
    if s != [] { BytesAscii(s[1..]); }
  }

  // ----- the conversions -----

  predicate AllAscii(s: seq<Unit>)
    ensures AllAscii(s) <==> Ascii(s)
  {
    s == [] || (s[0] < 0x80 && AllAscii(s[1..]))
  }

  /** The byte offset of a column: the bytes before it. A column past the end is the end. */
  function Utf16ColumnToUtf8(line: seq<Unit>, column: nat): (b: nat)
    requires column >= 1
    ensures b == Bytes(if column - 1 <= |line| then line[..column - 1] else line)
    ensures b == |Encoded(if column - 1 <= |line| then line[..column - 1] else line)|
  {
    var prefix := if column - 1 <= |line| then line[..column - 1] else line;
    BytesAreEncoded(prefix);
    if AllAscii(prefix) then
      BytesAscii(prefix);
      |prefix|
    else Bytes(prefix)
  }

  /** The column is at the first boundary with at least `b` bytes before it, or at the end. */
  predicate RoundsUp(line: seq<Unit>, b: nat, column: nat) {
    && 1 <= column && Boundary(line, column - 1)
    && (column - 1 < |line| ==> b <= Bytes(line[..column - 1]))
    && forall k | 0 <= k < column - 1 && Boundary(line, k) :: Bytes(line[..k]) < b
  }

  lemma AsciiRoundsUp(line: seq<Unit>, b: nat)
    requires Ascii(line)
    ensures RoundsUp(line, b, (if b < |line| then b else |line|) + 1)
  {
    BytesAscii(line);
    forall k | 0 <= k <= |line|
      ensures Bytes(line[..k]) == k
    {
      BytesAscii(line[..k]);
    }
  }

  /** The same of what the encoder writes. */
  predicate RoundsUpEncoded(line: seq<Unit>, b: nat, column: nat) {
    && 1 <= column && Boundary(line, column - 1)
    && (column - 1 < |line| ==> b <= |Encoded(line[..column - 1])|)
    && forall k | 0 <= k < column - 1 && Boundary(line, k) :: |Encoded(line[..k])| < b
  }

  lemma RoundsUpBoth(line: seq<Unit>, b: nat, column: nat)
    ensures RoundsUp(line, b, column) <==> RoundsUpEncoded(line, b, column)
  {
    forall k | 0 <= k <= |line|
      ensures Bytes(line[..k]) == |Encoded(line[..k])|
    {
      BytesAreEncoded(line[..k]);
    }
  }

  /** The column of a byte offset. One inside a character is rounded up, past it. */
  method Utf8ColumnToUtf16(line: seq<Unit>, byteOffset: nat) returns (column: nat)
    ensures RoundsUp(line, byteOffset, column) && RoundsUpEncoded(line, byteOffset, column)
  {
    column := ColumnOf(line, byteOffset);
    RoundsUpBoth(line, byteOffset, column);
  }

  method ColumnOf(line: seq<Unit>, byteOffset: nat) returns (column: nat)
    ensures RoundsUp(line, byteOffset, column)
  {
    if AllAscii(line) {
      AsciiRoundsUp(line, byteOffset);
      return (if byteOffset < |line| then byteOffset else |line|) + 1;
    }
    var bytes, i := 0, 0;
    while i < |line|
      invariant Boundary(line, i) && bytes == Bytes(line[..i])
      invariant forall k | 0 <= k < i && Boundary(line, k) :: Bytes(line[..k]) < byteOffset
    {
      if bytes >= byteOffset { return i + 1; }
      BytesStep(line, i);
      var code := CodePointAt(line, i);
      if code > 0xFFFF {
        bytes := bytes + 4;
        i := i + 1;
      } else if code > 0x7FF {
        bytes := bytes + 3;
      } else if code > 0x7F {
        bytes := bytes + 2;
      } else {
        bytes := bytes + 1;
      }
      i := i + 1;
    }
    return |line| + 1;
  }

  // ----- the conversions are inverse at boundaries -----

  lemma RoundsUpUnique(line: seq<Unit>, b: nat, c: nat, d: nat)
    requires RoundsUp(line, b, c) && RoundsUp(line, b, d)
    ensures c == d
  {
    var k := (if c < d then c else d) - 1;
    assert k < |line| ==> Bytes(line[..k]) >= b || c == d;
  }

  /** From a column at a boundary and back, and from the bytes there and back. */
  lemma RoundTrip(line: seq<Unit>, k: nat, column: nat)
    requires Boundary(line, k) && RoundsUp(line, Utf16ColumnToUtf8(line, k + 1), column)
    ensures column == k + 1
    ensures Utf16ColumnToUtf8(line, column) == Utf16ColumnToUtf8(line, k + 1) == Bytes(line[..k])
  {
    forall j | 0 <= j < k && Boundary(line, j)
      ensures Bytes(line[..j]) < Bytes(line[..k])
    {
      BytesGrow(line, j, k);
    }
    RoundsUpUnique(line, Bytes(line[..k]), column, k + 1);
  }

  /** A column that cuts a pair does not come back: it is moved past the pair. */
  lemma CutColumn(line: seq<Unit>, k: nat, column: nat)
    requires k <= |line| && RoundsUp(line, Utf16ColumnToUtf8(line, k + 1), column)
    ensures column == if Boundary(line, k) then k + 1 else k + 2
  {
    if Boundary(line, k) {
      RoundTrip(line, k, column);
    } else {
      assert Boundary(line, k - 1) && Pair(line[k - 1..]);
      BytesStep(line, k - 1);
      CutPrefix(line, k);
      forall j | 0 <= j < k + 1 && Boundary(line, j)
        ensures Bytes(line[..j]) < Bytes(line[..k])
      {
        if j < k - 1 { BytesGrow(line, j, k - 1); }
      }
      RoundsUpUnique(line, Bytes(line[..k]), column, k + 2);
    }
  }

  /** Half a pair counts as the three bytes of a replacement character. */
  lemma CutPrefix(line: seq<Unit>, k: nat)
    requires k <= |line| && !Boundary(line, k)
    ensures Bytes(line[..k]) == Bytes(line[..k - 1]) + 3
  {
    var t := line[..k];
    BytesStep(t, k - 1);
    assert t[..k - 1] == line[..k - 1] && t[k - 1..] == [line[k - 1]] && t[..k] == t;
  }
}
