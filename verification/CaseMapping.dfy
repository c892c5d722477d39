/** Full case mapping of a UTF-8 string, with the Final_Sigma context
  * (tools/gen-r7rs-unicode.py, lines 356-396). */
module CaseMapping {
  import Strings
  import opened UnicodeTables
  import opened Utf8

  const SIGMA: Scalar21 := 0x3A3
  const FINAL_SIGMA: Scalar21 := 0x3C2

  // ----- the context of a sigma, as coded -----

  ghost predicate IsCased(u: UCD, x: Item) { x.Code? && IsScalar(x.cp) && u.cased(x.cp) }

  ghost predicate IsIgnorable(u: UCD, x: Item) { x.Code? && IsScalar(x.cp) && u.caseIgnorable(x.cp) }

  /** The state after `done`: a cased character, case-ignorables skipped. */
  ghost predicate PrevCased(u: UCD, done: seq<Item>) {
    done != [] &&
    var x := done[|done| - 1];
    IsCased(u, x) || (IsIgnorable(u, x) && PrevCased(u, done[..|done| - 1]))
  }

  /** The look-ahead: the first item that is not case-ignorable is cased. */
  ghost predicate NextCased(u: UCD, ahead: seq<Item>) {
    ahead != [] && if IsIgnorable(u, ahead[0]) then NextCased(u, ahead[1..]) else IsCased(u, ahead[0])
  }

  ghost predicate CodedFinal(u: UCD, items: seq<Item>, i: nat)
    requires i < |items|
  {
    PrevCased(u, items[..i]) && !NextCased(u, items[i + 1..])
  }

  // ----- the context of a sigma, section 3.13 of the Unicode Standard -----

  ghost predicate AllIgnorable(u: UCD, items: seq<Item>, from: int, to: int)
    requires 0 <= from && to <= |items|
  {
    forall k | from <= k < to :: IsIgnorable(u, items[k])
  }

  /** A cased character and then case-ignorables stand before `i`. */
  ghost predicate CasedBefore(u: UCD, items: seq<Item>, i: nat)
    requires i < |items|
  {
    exists j | 0 <= j < i :: IsCased(u, items[j]) && AllIgnorable(u, items, j + 1, i)
  }

  /** Case-ignorables and then a cased character stand after `i`. */
  ghost predicate CasedAfter(u: UCD, items: seq<Item>, i: nat)
    requires i < |items|
  {
    exists j | i < j < |items| :: IsCased(u, items[j]) && AllIgnorable(u, items, i + 1, j)
  }

  ghost predicate FinalSigma(u: UCD, items: seq<Item>, i: nat)
    requires i < |items|
  {
    CasedBefore(u, items, i) && !CasedAfter(u, items, i)
  }

  // ----- how the two contexts differ -----

  lemma {:induction false} PrevCasedIsCasedBefore(u: UCD, items: seq<Item>, i: nat)
    requires i < |items|
    ensures PrevCased(u, items[..i]) <==> CasedBefore(u, items, i)
  {
    if i > 0 {
      assert items[..i][..i - 1] == items[..i - 1];
      PrevCasedIsCasedBefore(u, items, i - 1);
      if PrevCased(u, items[..i]) {
        if IsCased(u, items[i - 1]) {
          assert AllIgnorable(u, items, i, i);
        } else {
          var j :| 0 <= j < i - 1 && IsCased(u, items[j]) && AllIgnorable(u, items, j + 1, i - 1);
          assert AllIgnorable(u, items, j + 1, i);
        }
      }
      if CasedBefore(u, items, i) && !IsCased(u, items[i - 1]) {
        var j :| 0 <= j < i && IsCased(u, items[j]) && AllIgnorable(u, items, j + 1, i);
        assert AllIgnorable(u, items, j + 1, i - 1);
      }
    }
  }

  /** A character both cased and case-ignorable stands after `i`, only ignorables between. */
  ghost predicate BothFollows(u: UCD, items: seq<Item>, i: nat)
    requires i < |items|
  {
    exists j | i < j < |items| ::
      IsCased(u, items[j]) && IsIgnorable(u, items[j]) && AllIgnorable(u, items, i + 1, j)
  }

  /** The standard's look-ahead sees what the coded one sees and, besides, the
    * characters that are both cased and ignorable. */
  lemma {:induction false} CasedAfterIs(u: UCD, items: seq<Item>, i: nat)
    requires i < |items|
    ensures CasedAfter(u, items, i) <==> NextCased(u, items[i + 1..]) || BothFollows(u, items, i)
    decreases |items| - i
  {
    if i + 1 < |items| {
      var n := i + 1;
      assert items[n..][0] == items[n] && items[n..][1..] == items[n + 1..];
      if IsIgnorable(u, items[n]) {
        CasedAfterIs(u, items, n);
        if CasedAfter(u, items, n) {
          var j :| n < j < |items| && IsCased(u, items[j]) && AllIgnorable(u, items, n + 1, j);
          assert AllIgnorable(u, items, i + 1, j);
        }
        if BothFollows(u, items, n) {
          var j :| n < j < |items| && IsCased(u, items[j]) && IsIgnorable(u, items[j])
                   && AllIgnorable(u, items, n + 1, j);
          assert AllIgnorable(u, items, i + 1, j);
        }
        if CasedAfter(u, items, i) {
          var j :| i < j < |items| && IsCased(u, items[j]) && AllIgnorable(u, items, i + 1, j);
          assert AllIgnorable(u, items, n + 1, j);
          if j == n { assert BothFollows(u, items, i); }
        }
        if BothFollows(u, items, i) {
          var j :| i < j < |items| && IsCased(u, items[j]) && IsIgnorable(u, items[j])
                   && AllIgnorable(u, items, i + 1, j);
          assert CasedAfter(u, items, i);
        }
      } else {
        assert AllIgnorable(u, items, i + 1, n);
        assert !IsIgnorable(u, items[n]);
        if CasedAfter(u, items, i) {
          var j :| i < j < |items| && IsCased(u, items[j]) && AllIgnorable(u, items, i + 1, j);
          assert j == n;
        }
      }
    }
  }

  /** The coded context errs in one family of places only: a sigma after a cased
    * letter whose following ignorables include a cased one and lead to no cased letter. */
  ghost predicate Misjudged(u: UCD, items: seq<Item>, i: nat)
    requires i < |items|
  {
    CasedBefore(u, items, i) && BothFollows(u, items, i) && !NextCased(u, items[i + 1..])
  }

  lemma CodedFinalIs(u: UCD, items: seq<Item>, i: nat)
    requires i < |items|
    ensures (CodedFinal(u, items, i) <==> FinalSigma(u, items, i)) <==> !Misjudged(u, items, i)
  {
    PrevCasedIsCasedBefore(u, items, i);
    CasedAfterIs(u, items, i);
  }

  // ----- the mapping -----

  ghost function FullOf(u: UCD, op: int): map<int, seq<int>> {
    if op == 0 then u.spUpper else if op == 1 then u.spLower else u.foldFull
  }

  ghost function SimpleOf(u: UCD, op: int): map<int, int> {
    if op == 0 then u.upper else if op == 1 then u.lower else u.foldSimple
  }

  /** The full mapping of one code point: the special entry, or the simple mapping. An
    * operation that is not one of the three folds, but for what titlecase would change
    * where folding has no special entry. */
  ghost function FullMap(u: UCD, op: int, cp: Scalar21): (out: seq<Scalar21>)
    requires ValidUCD(u)
    ensures |out| <= 3
    ensures op != 3 && IsScalar(cp) && cp in FullOf(u, op) ==> out == AsText(FullOf(u, op)[cp])
  {
    if IsScalar(cp) && InFull(FullOf(u, op), SimpleOf(u, op), cp) then AsText(FullOf(u, op)[cp]) else
    assert IntoCodePoints(SimpleOf(u, op));
    [SimpleMap(u, op, cp)]
  }

  function AsText(s: seq<int>): (t: seq<Scalar21>)
    requires forall k | 0 <= k < |s| :: 0 < s[k] < CODE_POINTS
    ensures |t| == |s| && forall k | 0 <= k < |s| :: t[k] == s[k]
  {
    if s == [] then [] else [s[0]] + AsText(s[1..])
  }

  /** What one item becomes, given its context. */
  ghost function MapItem(u: UCD, op: int, prevCased: bool, x: Item, nextCased: bool): seq<Byte>
    requires ValidUCD(u)
  {
    match x
    case Raw(b) => [b]
    case Code(cp) =>
      if op == 1 && cp == SIGMA && prevCased && !nextCased then Encode(FINAL_SIGMA) else EncodeAll(FullMap(u, op, cp))
  }

  /** What the items from `i` on become. */
  ghost function MapFrom(u: UCD, op: int, items: seq<Item>, i: nat): seq<Byte>
    requires ValidUCD(u) && i <= |items|
    decreases |items| - i
  {
    if i == |items| then [] else
    MapItem(u, op, PrevCased(u, items[..i]), items[i], NextCased(u, items[i + 1..])) + MapFrom(u, op, items, i + 1)
  }

  // ----- the mapping of a text -----

  /** What character `i` of a text maps to, given whether a sigma there is final. */
  ghost function MapChar(u: UCD, op: int, text: seq<Scalar21>, i: nat, final: bool): seq<Scalar21>
    requires ValidUCD(u) && i < |text|
  {
    if op == 1 && text[i] == SIGMA && final then [FINAL_SIGMA] else FullMap(u, op, text[i])
  }

  /** The full mapping of the text from `i` on, with the coded context. */
  ghost function CodedFrom(u: UCD, op: int, text: seq<Scalar21>, i: nat): seq<Scalar21>
    requires ValidUCD(u) && i <= |text|
    decreases |text| - i
  {
    if i == |text| then [] else
    MapChar(u, op, text, i, CodedFinal(u, Codes(text), i)) + CodedFrom(u, op, text, i + 1)
  }

  /** The full mapping of the text from `i` on, with the standard's context. */
  ghost function StandardFrom(u: UCD, op: int, text: seq<Scalar21>, i: nat): seq<Scalar21>
    requires ValidUCD(u) && i <= |text|
    decreases |text| - i
  {
    if i == |text| then [] else
    MapChar(u, op, text, i, FinalSigma(u, Codes(text), i)) + StandardFrom(u, op, text, i + 1)
  }

  lemma {:induction false} MapFromText(u: UCD, op: int, text: seq<Scalar21>, i: nat)
    requires ValidUCD(u) && i <= |text|
    ensures MapFrom(u, op, Codes(text), i) == EncodeAll(CodedFrom(u, op, text, i))
    decreases |text| - i
  {
    if i < |text| {
      MapFromText(u, op, text, i + 1);
      var head := MapChar(u, op, text, i, CodedFinal(u, Codes(text), i));
      EncodeAllAppend(head, CodedFrom(u, op, text, i + 1));
      if head == [FINAL_SIGMA] { assert EncodeAll(head) == Encode(FINAL_SIGMA) + EncodeAll([]); }
    }
  }

  /** On a valid text the mapped bytes are the encoding of the code-point-wise full
    * mapping, sigma by the coded context. */
  lemma MappingOfText(u: UCD, op: int, text: seq<Scalar21>)
    requires ValidUCD(u)
    ensures MapFrom(u, op, Items(EncodeAll(text)), 0) == EncodeAll(CodedFrom(u, op, text, 0))
  {
    ItemsOfText(text);
    MapFromText(u, op, text, 0);
  }

  /** And that is the standard's mapping exactly when no sigma is misjudged. */
  lemma {:induction false} CodedIsStandard(u: UCD, op: int, text: seq<Scalar21>, i: nat)
    requires ValidUCD(u) && i <= |text|
    requires |FullMap(u, 1, SIGMA)| == 1 && FullMap(u, 1, SIGMA) != [FINAL_SIGMA]
    ensures CodedFrom(u, op, text, i) == StandardFrom(u, op, text, i) <==>
            op != 1 || forall k | i <= k < |text| :: text[k] == SIGMA ==> !Misjudged(u, Codes(text), k)
    decreases |text| - i
  {
    if i < |text| {
      CodedIsStandard(u, op, text, i + 1);
      CodedFinalIs(u, Codes(text), i);
      var a := MapChar(u, op, text, i, CodedFinal(u, Codes(text), i));
      var b := MapChar(u, op, text, i, FinalSigma(u, Codes(text), i));
      SplitEqual(a, CodedFrom(u, op, text, i + 1), b, StandardFrom(u, op, text, i + 1));
    }
  }

  lemma SplitEqual<T>(a: seq<T>, x: seq<T>, b: seq<T>, y: seq<T>)
    requires |a| == |b|
    ensures a + x == b + y <==> a == b && x == y
  {
    assert (a + x)[..|a|] == a && (a + x)[|a|..] == x;
    assert (b + y)[..|b|] == b && (b + y)[|b|..] == y;
  }

  /** No sigma is misjudged in a text none of whose characters is both cased and
    * case-ignorable. */
  lemma NoneMisjudged(u: UCD, text: seq<Scalar21>, i: nat)
    requires i < |text|
    requires forall k | 0 <= k < |text| :: !(IsScalar(text[k]) && u.cased(text[k]) && u.caseIgnorable(text[k]))
    ensures !Misjudged(u, Codes(text), i)
  {
    var items := Codes(text);
    forall j | 0 <= j < |text|
      ensures !(IsCased(u, items[j]) && IsIgnorable(u, items[j]))
    {
      assert items[j] == Code(text[j]);
    }
  }

  /** Capital alpha, capital sigma, combining ypogegrammeni: the last is cased and
    * case-ignorable, so the standard keeps the sigma medial and the code does not. */
  lemma YpogegrammeniIsMisjudged(u: UCD)
    requires u.cased(0x391) && u.cased(0x345) && u.caseIgnorable(0x345)
    ensures var items := Codes([0x391, SIGMA, 0x345]);
            CodedFinal(u, items, 1) && !FinalSigma(u, items, 1) && Misjudged(u, items, 1)
  {
    var text: seq<Scalar21> := [0x391, SIGMA, 0x345];
    var items := Codes(text);
    assert items[0] == Code(0x391) && items[1] == Code(SIGMA) && items[2] == Code(0x345);
    assert items[2..][1..] == [];
    assert !NextCased(u, items[2..]);
    assert IsCased(u, items[0]) && AllIgnorable(u, items, 1, 1);
    assert IsCased(u, items[2]) && IsIgnorable(u, items[2]) && AllIgnorable(u, items, 2, 2);
    CodedFinalIs(u, items, 1);
    PrevCasedIsCasedBefore(u, items, 1);
  }

  lemma EncodeOne(c: Scalar21)
    ensures var text: seq<Scalar21> := [c]; EncodeAll(text) == Encode(c)
  {
    var text: seq<Scalar21> := [c];
    assert text[1..] == [] && EncodeAll(text) == Encode(c) + EncodeAll([]);
  }

  /** A capital sigma in lower case: `CF 82` at the end of a word and `CF 83` inside. */
  lemma SigmaLowered(u: UCD, next: bool)
    requires ValidUCD(u) && FullMap(u, 1, 0x3A3) == [0x3C3]
    ensures MapItem(u, 1, true, Code(0x3A3), next) == if next then [0xCF, 0x83] else [0xCF, 0x82]
  {
    EncodeOne(0x3C3);
  }

  lemma TwoItems(u: UCD, op: int, x: Item, y: Item)
    requires ValidUCD(u)
    ensures MapFrom(u, op, [x, y], 0)
         == MapItem(u, op, false, x, NextCased(u, [y])) + MapItem(u, op, PrevCased(u, [x]), y, false)
  {
    var items := [x, y];
    assert items[..0] == [] && items[..1] == [x] && items[1..] == [y] && items[2..] == [];
    var m, n := MapItem(u, op, false, x, NextCased(u, [y])), MapItem(u, op, PrevCased(u, [x]), y, false);
    assert MapFrom(u, op, items, 2) == [];
    assert MapFrom(u, op, items, 1) == n + [] == n;
  }

  lemma AlphaLowered(u: UCD, next: bool)
    requires ValidUCD(u) && FullMap(u, 1, 0x391) == [0x3B1]
    ensures MapItem(u, 1, false, Code(0x391), next) == [0xCE, 0xB1]
  {
    EncodeOne(0x3B1);
  }

  lemma AlphaSigma()
    ensures var text: seq<Scalar21> := [0x391, 0x3A3];
            EncodeAll(text) == [0xCE, 0x91, 0xCE, 0xA3] && Codes(text) == [Code(0x391), Code(0x3A3)]
  {
    var text: seq<Scalar21> := [0x391, 0x3A3];
    EncodeOne(0x3A3);
    assert text[1..] == [0x3A3];
  }

  /** Capital alpha and capital sigma, `CE 91 CE A3`, lower to alpha and final sigma. */
  lemma FinalSigmaLowered(u: UCD)
    requires ValidUCD(u) && u.cased(0x391) && FullMap(u, 1, 0x391) == [0x3B1] && FullMap(u, 1, 0x3A3) == [0x3C3]
    ensures EncodeAll([0x391, 0x3A3]) == [0xCE, 0x91, 0xCE, 0xA3]
    ensures MapFrom(u, 1, Codes([0x391, 0x3A3]), 0) == [0xCE, 0xB1, 0xCF, 0x82]
  {
    var x, y := Code(0x391), Code(0x3A3);
    AlphaSigma();
    PrevCasedSnoc(u, [], x);
    assert [] + [x] == [x];
    TwoItems(u, 1, x, y);
    AlphaLowered(u, NextCased(u, [y]));
    SigmaLowered(u, false);
  }

  // ----- the C function -----

  lemma {:induction false} EncodeAllBound(text: seq<Scalar21>)
    ensures |EncodeAll(text)| <= 4 * |text|
  {
    if text != [] { EncodeAllBound(text[1..]); }
  }

  method InTable(t: seq<Range>, ghost pred: int -> bool, cp: int) returns (b: bool)
    requires RangeTable(t, pred)
    ensures b <==> IsScalar(cp) && pred(cp)
  {
    b := In(t, cp);
  }

  /** Whether the item at `q` settles what comes next; if not, where the next one is. */
  method LookOne(cased: seq<Range>, ci: seq<Range>, ghost u: UCD, s: array<Byte>, q: nat)
    returns (settled: bool, b: bool, q': nat)
    requires RangeTable(cased, u.cased) && RangeTable(ci, u.caseIgnorable)
    requires IsCString(s) && q < s.Length - 1
    ensures q < q' <= s.Length - 1
    ensures NextCased(u, Items(Text(s)[q..])) == if settled then b else NextCased(u, Items(Text(s)[q'..]))
  {
    var m, cp := ReadItem(s, q);
    q' := q + if m == 0 then 1 else m;
    ghost var x, ahead := Found(s, q, m, cp), Items(Text(s)[q'..]);
    NextCasedCons(u, x, ahead);
    assert Items(Text(s)[q..]) == [x] + ahead;
    if m == 0 { return true, false, q'; }
    var ignorable := InTable(ci, u.caseIgnorable, cp);
    settled := !ignorable;
    b := InTable(cased, u.cased, cp);
  }

  /** Whether a cased character comes next, case-ignorables skipped. */
  method LookAhead(cased: seq<Range>, ci: seq<Range>, ghost u: UCD, s: array<Byte>, p: nat) returns (b: bool)
    requires RangeTable(cased, u.cased) && RangeTable(ci, u.caseIgnorable)
    requires IsCString(s) && p <= s.Length - 1
    ensures b <==> NextCased(u, Items(Text(s)[p..]))
  {
    var q := p;
    while s[q] != 0
      invariant p <= q <= s.Length - 1
      invariant NextCased(u, Items(Text(s)[p..])) == NextCased(u, Items(Text(s)[q..]))
      decreases s.Length - q
    {
      var settled;
      settled, b, q := LookOne(cased, ci, u, s, q);
      if settled { return; }
    }
    return false;
  }

  lemma NextCasedCons(u: UCD, x: Item, ahead: seq<Item>)
    ensures NextCased(u, [x] + ahead) == if IsIgnorable(u, x) then NextCased(u, ahead) else IsCased(u, x)
  {
    assert ([x] + ahead)[1..] == ahead;
  }

  lemma PrevCasedSnoc(u: UCD, done: seq<Item>, x: Item)
    ensures PrevCased(u, done + [x]) == (IsCased(u, x) || (IsIgnorable(u, x) && PrevCased(u, done)))
  {
    assert (done + [x])[..|done|] == done;
  }

  lemma EncodeAllSnoc(a: seq<Scalar21>, c: Scalar21)
    ensures EncodeAll(a + [c]) == EncodeAll(a) + Encode(c)
  {
    EncodeAllAppend(a, [c]);
    assert EncodeAll([c]) == Encode(c) + EncodeAll([]);
  }

  /** Write one more code point after `done` bytes. */
  method Append(r: array<Byte>, o: nat, c: Scalar21) returns (o': nat)
    requires o + 4 <= r.Length
    modifies r
    ensures o <= o' <= o + 4
    ensures r[..o'] == old(r[..o]) + Encode(c)
  {
    var n := Put(r, o, c);
    assert r[..o + n] == r[..o] + r[o..o + n];
    assert r[..o] == old(r[..o]);
    o' := o + n;
  }

  /** Write one byte as it is. */
  method PutByte(r: array<Byte>, o: nat, b: Byte) returns (o': nat)
    requires o < r.Length
    modifies r
    ensures o' == o + 1 && r[..o'] == old(r[..o]) + [b]
  {
    r[o] := b;
    return o + 1;
  }

  /** Write the entries of a row up to its first zero. */
  method PutRow(row: seq<int>, ghost out: seq<Scalar21>, r: array<Byte>, o: nat) returns (o': nat)
    requires |row| == 3 && |out| <= 3 && o + 12 <= r.Length
    requires forall k | 0 <= k < |out| :: row[k] == out[k] && out[k] != 0
    requires forall k | |out| <= k < 3 :: row[k] == 0
    modifies r
    ensures o <= o' <= o + 12
    ensures r[..o'] == old(r[..o]) + EncodeAll(out)
  {
    o' := o;
    ghost var before := r[..o];
    var i := 0;
    while i < 3 && row[i] != 0
      invariant 0 <= i <= |out|
      invariant o <= o' <= o + 4 * i
      invariant r[..o'] == before + EncodeAll(out[..i])
    {
      EncodeAllSnoc(out[..i], out[i]);
      Strings.ConcatAssoc(before, EncodeAll(out[..i]), Encode(out[i]));
      assert out[..i + 1] == out[..i] + [out[i]];
      o' := Append(r, o', row[i]);
      i := i + 1;
    }
    assert out[..i] == out;
  }

  /** The row a table has for a code point is its full mapping, and where there is no
    * row the simple mapping is. */
  lemma RowIsFullMap(sp: seq<Special>, u: UCD, op: int, cp: Scalar21, k: int)
    requires ValidUCD(u) && SpecialTable(sp, FullOf(u, op), SimpleOf(u, op))
    requires -1 <= k < |sp| && forall j | 0 <= j < |sp| :: Keys(sp)[j] <= cp <==> j <= k
    ensures var out := FullMap(u, op, cp);
            if k >= 0 && sp[k].cp == cp then
              && |sp[k].out| == 3
              && (forall i | 0 <= i < |out| :: sp[k].out[i] == out[i] && out[i] != 0)
              && (forall i | |out| <= i < 3 :: sp[k].out[i] == 0)
            else
              out == [SimpleMap(u, op, cp)]
  {
    var full, simple := FullOf(u, op), SimpleOf(u, op);
    assert FullMap3(full) && IntoCodePoints(simple);
    if !(k >= 0 && sp[k].cp == cp) {
      var ks := Keys(sp);
      if k >= 0 { assert ks[k] < cp; }
      assert forall j | 0 <= j <= k :: ks[j] <= ks[k];
      assert cp !in ks;
      assert IsScalar(cp) ==> !InFull(full, simple, cp);
    }
  }

  /** Write the full mapping of `cp` at `o`. */
  method PutMapped(t: Tables, ghost u: UCD, r: array<Byte>, o: nat, cp: Scalar21, op: int) returns (o': nat)
    requires Represents(t, u) && ValidUCD(u)
    requires o + 12 <= r.Length
    modifies r
    ensures o <= o' <= o + 12
    ensures r[..o'] == old(r[..o]) + EncodeAll(FullMap(u, op, cp))
  {
    var sp := if op == 0 then t.spUpper else if op == 1 then t.spLower else t.spFold;
    var k := Find(Keys(sp), cp);
    RowIsFullMap(sp, u, op, cp, k);
    if k >= 0 && sp[k].cp == cp {
      o' := PutRow(sp[k].out, FullMap(u, op, cp), r, o);
    } else {
      var c := Mapc(t, u, cp, op);
      assert FullMap(u, op, cp)[0] == c;
      o' := Append(r, o, c);
      EncodeAllSnoc([], c);
      assert [] + [c as Scalar21] == FullMap(u, op, cp);
    }
  }

  /** What a character makes of the left context. */
  method PrevAfter(t: Tables, ghost u: UCD, cp: Scalar21, prevCased: bool) returns (prevCased': bool)
    requires Represents(t, u)
    ensures prevCased' == (IsCased(u, Code(cp)) || (IsIgnorable(u, Code(cp)) && prevCased))
  {
    var cased := InTable(t.cased, u.cased, cp);
    if cased { return true; }
    var ignorable := InTable(t.ci, u.caseIgnorable, cp);
    return ignorable && prevCased;
  }

  /** Map one character, read before `p`: what it maps to is written at `o`. */
  method MapCode(t: Tables, ghost u: UCD, s: array<Byte>, p: nat, r: array<Byte>, o: nat, cp: Scalar21,
                 prevCased: bool, op: int)
    returns (o': nat, prevCased': bool)
    requires Represents(t, u) && ValidUCD(u) && u.cased(SIGMA)
    requires IsCString(s) && p <= s.Length - 1 && r != s && o + 12 <= r.Length
    modifies r
    ensures o <= o' <= o + 12
    ensures prevCased' == (IsCased(u, Code(cp)) || (IsIgnorable(u, Code(cp)) && prevCased))
    ensures r[..o'] == old(r[..o]) + MapItem(u, op, prevCased, Code(cp), NextCased(u, Items(old(Text(s))[p..])))
  {
    if op == 1 && cp == SIGMA && prevCased {
      var nextCased := LookAhead(t.cased, t.ci, u, s, p);
      if !nextCased {
        o' := Append(r, o, FINAL_SIGMA);
        return o', true;
      }
    }
    o' := PutMapped(t, u, r, o, cp, op);
    prevCased' := PrevAfter(t, u, cp, prevCased);
  }

  /** One turn of the loop: the item at `p` is read, its mapping is written at `o`. */
  method MapOne(t: Tables, ghost u: UCD, s: array<Byte>, p: nat, r: array<Byte>, o: nat, prevCased: bool, op: int)
    returns (p': nat, o': nat, prevCased': bool, ghost x: Item)
    requires Represents(t, u) && ValidUCD(u) && u.cased(SIGMA)
    requires IsCString(s) && p < s.Length - 1 && r != s && o + 12 <= r.Length
    modifies r
    ensures p < p' <= s.Length - 1 && o <= o' <= o + 12
    ensures Items(old(Text(s))[p..]) == [x] + Items(old(Text(s))[p'..])
    ensures prevCased' == (IsCased(u, x) || (IsIgnorable(u, x) && prevCased))
    ensures r[..o'] == old(r[..o]) + MapItem(u, op, prevCased, x, NextCased(u, Items(old(Text(s))[p'..])))
  {
    var n, cp := ReadItem(s, p);
    x, p' := Found(s, p, n, cp), p + if n == 0 then 1 else n;
    ghost var here, ahead := Items(Text(s)[p..]), Items(Text(s)[p'..]);
    assert here == [x] + ahead;
    if n == 0 {
      prevCased' := false;
      o' := PutByte(r, o, s[p]);
      return;
    }
    o', prevCased' := MapCode(t, u, s, p', r, o, cp, prevCased, op);
  }

  lemma MapFromStep(u: UCD, op: int, items: seq<Item>, done: seq<Item>, x: Item, ahead: seq<Item>)
    requires ValidUCD(u) && items == done + ([x] + ahead)
    ensures items == done + [x] + ahead
    ensures MapFrom(u, op, items, |done|) ==
            MapItem(u, op, PrevCased(u, done), x, NextCased(u, ahead)) + MapFrom(u, op, items, |done| + 1)
  {
    assert items[..|done|] == done && items[|done|] == x && items[|done| + 1..] == ahead;
  }

  /** `done` is mapped as `out`, `ahead` is to come. */
  ghost predicate Progress(u: UCD, op: int, items: seq<Item>, done: seq<Item>, ahead: seq<Item>,
                           prevCased: bool, out: seq<Byte>)
    requires ValidUCD(u)
  {
    && items == done + ahead && (prevCased <==> PrevCased(u, done))
    && out + MapFrom(u, op, items, |done|) == MapFrom(u, op, items, 0)
  }

  lemma ProgressStep(u: UCD, op: int, items: seq<Item>, done: seq<Item>, x: Item, ahead: seq<Item>,
                     prevCased: bool, out: seq<Byte>, prevCased': bool, out': seq<Byte>)
    requires ValidUCD(u) && Progress(u, op, items, done, [x] + ahead, prevCased, out)
    requires prevCased' == (IsCased(u, x) || (IsIgnorable(u, x) && prevCased))
    requires out' == out + MapItem(u, op, prevCased, x, NextCased(u, ahead))
    ensures Progress(u, op, items, done + [x], ahead, prevCased', out')
  {
    PrevCasedSnoc(u, done, x);
    MapFromStep(u, op, items, done, x, ahead);
    Strings.ConcatAssoc(out, MapItem(u, op, prevCased, x, NextCased(u, ahead)), MapFrom(u, op, items, |done| + 1));
  }

  /** The text of a C string that starts as `s` does. */
  function UpToNul(s: seq<Byte>): seq<Byte> {
    if s == [] || s[0] == 0 then [] else [s[0]] + UpToNul(s[1..])
  }

  lemma {:induction false} UpToNulOf(s: seq<Byte>, t: seq<Byte>)
    ensures UpToNul(s + [0] + t) == UpToNul(s)
    ensures UpToNul(s) == s <==> 0 !in s
    ensures |UpToNul(s)| <= |s|
  {
    if s == [] {
      assert (s + [0] + t)[0] == 0;
    } else {
      assert (s + [0] + t)[0] == s[0] && (s + [0] + t)[1..] == s[1..] + [0] + t;
      UpToNulOf(s[1..], t);
      assert s == [s[0]] + s[1..];
    }
  }

  /** The loop: every item of `s` is mapped, within twelve bytes for each byte read. */
  method MapAll(t: Tables, ghost u: UCD, s: array<Byte>, r: array<Byte>, op: int) returns (o: nat)
    requires Represents(t, u) && ValidUCD(u) && IsCString(s) && u.cased(SIGMA)
    requires r != s && r.Length == 12 * (s.Length - 1) + 1
    modifies r
    ensures o <= 12 * (s.Length - 1)
    ensures r[..o] == MapFrom(u, op, Items(old(Text(s))), 0)
  {
    ghost var text, items := Text(s), Items(Text(s));
    ghost var done: seq<Item> := [];
    var p, prevCased := 0, false;
    o := 0;
    assert text[0..] == text;
    while s[p] != 0
      invariant 0 <= p <= s.Length - 1 && 0 <= o <= 12 * p
      invariant IsCString(s) && Text(s) == text
      invariant Progress(u, op, items, done, Items(text[p..]), prevCased, r[..o])
      decreases s.Length - p
    {
      ghost var before, prev := r[..o], prevCased;
      ghost var x: Item;
      p, o, prevCased, x := MapOne(t, u, s, p, r, o, prevCased, op);
      ProgressStep(u, op, items, done, x, Items(text[p..]), prev, before, prevCased, r[..o]);
      done := done + [x];
    }
    assert text[p..] == [];
  }

  /** Map a C string. The output, with its NUL, fits in twelve bytes for each byte of
    * input and one more, whatever the bytes. It is the mapping of what they read as; the
    * text of the string returned is what of that stands before its first NUL. */
  method CaseString(t: Tables, ghost u: UCD, s: array<Byte>, op: int) returns (r: array<Byte>, ghost len: nat)
    requires Represents(t, u) && ValidUCD(u) && IsCString(s)
    requires u.cased(SIGMA)
    ensures fresh(r) && r.Length == 12 * (s.Length - 1) + 1
    ensures len < r.Length && r[len] == 0
    ensures r[..len] == MapFrom(u, op, Items(s[..s.Length - 1]), 0)
    ensures UpToNul(r[..]) == UpToNul(MapFrom(u, op, Items(s[..s.Length - 1]), 0))
  {
    r := new Byte[12 * (s.Length - 1) + 1];
    var o := MapAll(t, u, s, r, op);
    ghost var mapped := r[..o];
    r[o] := 0;
    len := o;
    assert r[..] == mapped + [0] + r[o + 1..];
    UpToNulOf(mapped, r[o + 1..]);
  }

  // ----- the string a C caller gets -----

  /** As in every version of the data: NUL, and nothing else, maps to NUL. */
  ghost predicate OnlyNulToNul(u: UCD, op: int)
    requires ValidUCD(u)
  {
    forall cp: Scalar21 :: 0 in FullMap(u, op, cp) <==> cp == 0
  }

  lemma {:induction false} NulEncoded(text: seq<Scalar21>)
    ensures 0 in EncodeAll(text) <==> 0 in text
  {
    if text != [] {
      NulEncoded(text[1..]);
      assert 0 in Encode(text[0]) <==> text[0] == 0;
      assert text == [text[0]] + text[1..];
    }
  }

  lemma {:induction false} NulMapped(u: UCD, op: int, items: seq<Item>, i: nat)
    requires ValidUCD(u) && OnlyNulToNul(u, op) && i <= |items|
    ensures 0 in MapFrom(u, op, items, i) <==> Raw(0) in items[i..] || Code(0) in items[i..]
    decreases |items| - i
  {
    if i < |items| {
      NulMapped(u, op, items, i + 1);
      var x, ahead := items[i], items[i + 1..];
      assert items[i..] == [x] + ahead;
      var m := MapItem(u, op, PrevCased(u, items[..i]), x, NextCased(u, ahead));
      if x.Code? { NulEncoded(FullMap(u, op, x.cp)); }
      assert 0 in m <==> x == Raw(0) || x == Code(0);
    }
  }

  /** No byte of a text without NUL reads as a raw NUL. */
  lemma {:induction false} NoRawNul(s: seq<Byte>)
    requires 0 !in s
    ensures Raw(0) !in Items(s)
  {
    if s != [] { NoRawNul(s[HeadLength(s)..]); }
  }

  /** The string returned holds the whole mapping if and only if nothing in the input reads
    * as code point 0, which only an overlong sequence does. */
  lemma WholeIffNoNul(u: UCD, op: int, s: seq<Byte>)
    requires ValidUCD(u) && OnlyNulToNul(u, op) && 0 !in s
    ensures UpToNul(MapFrom(u, op, Items(s), 0)) == MapFrom(u, op, Items(s), 0) <==> Code(0) !in Items(s)
  {
    NoRawNul(s);
    NulMapped(u, op, Items(s), 0);
    UpToNulOf(MapFrom(u, op, Items(s), 0), []);
    assert Items(s)[0..] == Items(s);
  }

  /** Such an input: `C0 80` reads as code point 0, and the string returned ends there,
    * whatever follows. */
  lemma OverlongNulCutsOff(u: UCD, op: int, rest: seq<Byte>)
    requires ValidUCD(u) && FullMap(u, op, 0) == [0]
    ensures Items([0xC0, 0x80] + rest) == [Code(0)] + Items(rest)
    ensures UpToNul(MapFrom(u, op, Items([0xC0, 0x80] + rest), 0)) == []
  {
    var s: seq<Byte> := [0xC0, 0x80] + rest;
    assert s[1..2] == [0x80] && s[2..] == rest;
    AccumulateUpTo3(0, s[1..2]);
    assert Whole(s) && CodeAt(s) == 0;
    var zero: seq<Scalar21> := [0];
    assert EncodeAll(zero) == Encode(0) + EncodeAll([]);
    assert MapItem(u, op, PrevCased(u, Items(s)[..0]), Items(s)[0], NextCased(u, Items(s)[1..])) == [0];
  }

  /** On a valid text without NUL the string returned is the encoding of its mapping. */
  lemma WholeOnText(u: UCD, op: int, text: seq<Scalar21>)
    requires ValidUCD(u) && OnlyNulToNul(u, op) && 0 !in text
    ensures UpToNul(MapFrom(u, op, Items(EncodeAll(text)), 0)) == EncodeAll(CodedFrom(u, op, text, 0))
  {
    NulEncoded(text);
    ItemsOfText(text);
    WholeIffNoNul(u, op, EncodeAll(text));
    MappingOfText(u, op, text);
  }
}
