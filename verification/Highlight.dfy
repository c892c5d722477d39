/** The guides' two syntax highlighters (tools/genguides.py, lines 493-523, 565-642 and
  * 652-782): markup is added, and nothing else is. */
module Highlight {
  import opened Wrappers
  import opened Strings
  import opened Markup

  // ----- scanning -----

  predicate Digit(c: char) { '0' <= c <= '9' }

  predicate Letter(c: char) { 'a' <= c <= 'z' || 'A' <= c <= 'Z' }

  predicate Word(c: char) { Letter(c) || Digit(c) || c == '_' }

  predicate Blank(c: char) { c == ' ' || c == '\t' }

  /** From `i` to `j`, and no further, there are characters of a kind only. */
  ghost predicate MaxRun(s: string, i: nat, j: nat, p: char -> bool) {
    i <= j <= |s| && (forall k | i <= k < j :: p(s[k])) && (j < |s| ==> !p(s[j]))
  }

  /** The end of the characters of a kind that stand at `i`. */
  method RunEnd(s: string, i: nat, p: char -> bool) returns (j: nat)
    requires i <= |s|
    ensures MaxRun(s, i, j, p)
  {
    j := i;
    while j < |s| && p(s[j])
      invariant i <= j <= |s| && forall k | i <= k < j :: p(s[k])
    {
      j := j + 1;
    }
  }

  lemma MaxRunUnique(s: string, i: nat, p: char -> bool, j: nat, j': nat)
    requires MaxRun(s, i, j, p) && MaxRun(s, i, j', p)
    ensures j == j'
  {
    assert j < |s| ==> !p(s[j]);
    assert j' < |s| ==> !p(s[j']);
  }

  /** Past the literal that opens at `i`; one of a brace language ends with its line. */
  method QuoteEnd(s: string, i: nat, oneLine: bool) returns (j: nat)
    requires i < |s| && s[i] != '\\'
    ensures i < j <= |s| && QuoteEndsAt(s, i + 1, s[i], oneLine, j)
  {
    QuoteStopIs(s, i + 1, s[i], oneLine);
    j := PastQuote(s, i, oneLine);
  }

  method PastQuote(s: string, i: nat, oneLine: bool) returns (j: nat)
    requires i < |s|
    ensures j == QuoteStop(s, i + 1, s[i], oneLine)
  {
    j := i + 1;
    while j < |s|
      invariant i < j
      invariant QuoteStop(s, Min(j, |s|), s[i], oneLine) == QuoteStop(s, i + 1, s[i], oneLine)
    {
      if s[j] == '\\' {
        j := j + 2;
        continue;
      }
      if s[j] == s[i] { return j + 1; }
      if oneLine && s[j] == '\n' { return; }
      j := j + 1;
    }
    j := Min(j, |s|);
  }

  // ----- C, C++ and GDScript -----

  datatype BraceSpec = BraceSpec(kw: set<string>, typ: set<string>, lit: set<string>,
                                 line: string, block: bool, preproc: bool, at: bool)

  predicate LooksLikeType(w: string) {
    w != "" && 'A' <= w[0] <= 'Z' && exists k :: 0 <= k < |w| && 'a' <= w[k] <= 'z'
  }

  function WordClass(spec: BraceSpec, w: string): Option<Class> {
    if w in spec.lit then Some(NumberClass)
    else if w in spec.kw then Some(KeywordClass)
    else if w in spec.typ || (|w| >= 2 && w[|w| - 2..] == "_t") || LooksLikeType(w) then Some(TypeClass)
    else None
  }

  predicate PathChar(c: char) { Word(c) || c == '/' }

  predicate NumberChar(c: char) { Digit(c) || c in "abcdefABCDEFxXbBoO_." }

  predicate NumberSuffix(c: char) { c in "uUlLfF" }

  /** Past the first `pat` at or after `i`, or the end. */
  function Past(s: string, pat: string, i: nat): nat
    requires i <= |s|
  {
    if Find(s, pat, i) == |s| then |s| else Find(s, pat, i) + |pat|
  }

  /** Digits and the like, and then a suffix. */
  ghost predicate NumberRun(code: string, i: nat, j: nat) {
    exists m: nat :: MaxRun(code, i, m, NumberChar) && MaxRun(code, m, j, NumberSuffix)
  }

  /** What stands at `i` of a source in a brace language, and where it ends. */
  ghost predicate BraceLexeme(code: string, spec: BraceSpec, i: nat, cls: Option<Class>, j: nat)
    requires i < |code|
  {
    var c := code[i];
    if c == '\n' || Blank(c) then cls == None && j == i + 1
    else if spec.line != "" && StartsWith(code, i, spec.line) then cls == Some(CommentClass) && j == Find(code, "\n", i)
    else if spec.block && StartsWith(code, i, "/*") then cls == Some(CommentClass) && j == Past(code, "*/", i + 2)
    else if c in "\"'" then cls == Some(StringClass) && QuoteEndsAt(code, i + 1, c, true, j)
    else if spec.at && c in "@$" && i + 1 < |code| && PathChar(code[i + 1]) then
      cls == Some(TypeClass) && MaxRun(code, i + 1, j, PathChar)
    else if Digit(c) then
      cls == Some(NumberClass) && NumberRun(code, i + 1, j)
    else if Letter(c) || c == '_' then MaxRun(code, i + 1, j, Word) && cls == WordClass(spec, code[i..j])
    else cls == None && j == i + 1
  }

  /** What stands at `i`, and whether a line still starts after it. */
  method BraceToken(code: string, spec: BraceSpec, i: nat, lineStart: bool)
    returns (cls: Option<Class>, j: nat, lineStart': bool)
    requires i < |code|
    ensures i < j <= |code| && BraceLexeme(code, spec, i, cls, j)
    ensures lineStart' == (code[i] == '\n' || (Blank(code[i]) && lineStart))
  {
    var c := code[i];
    if c == '\n' { return None, i + 1, true; }
    if Blank(c) { return None, i + 1, lineStart; }
    if spec.line != "" && StartsWith(code, i, spec.line) {
      j := Find(code, "\n", i);
      StartsWithChar(code, i, '\n');
      return Some(CommentClass), j, false;
    }
    if spec.block && StartsWith(code, i, "/*") {
      j := Find(code, "*/", i + 2);
      return Some(CommentClass), if j == |code| then j else j + 2, false;
    }
    if c == '"' || c == '\'' {
      j := QuoteEnd(code, i, true);
      return Some(StringClass), j, false;
    }
    if spec.at && (c == '@' || c == '$') {
      j := RunEnd(code, i + 1, PathChar);
      if j > i + 1 { return Some(TypeClass), j, false; }
    }
    if Digit(c) {
      var m := RunEnd(code, i + 1, NumberChar);
      j := RunEnd(code, m, NumberSuffix);
      return Some(NumberClass), j, false;
    }
    if Letter(c) || c == '_' {
      j := RunEnd(code, i + 1, Word);
      return WordClass(spec, code[i..j]), j, false;
    }
    return None, i + 1, false;
  }

  // ----- directives -----

  predicate NameChar(c: char) { 'a' <= c <= 'z' || c == '_' }

  /** A line begins with a directive, whose name ends at `d`. */
  ghost predicate DirectiveName(line: string, d: nat) {
    line != "" && line[0] == '#' && exists m: nat :: MaxRun(line, 1, m, Blank) && MaxRun(line, m, d, NameChar) && m < d
  }

  /** A bracketed header stands from `h` to `e`, with only blanks between `i` and it. */
  ghost predicate HeaderFrom(line: string, i: nat, h: nat, e: nat) {
    MaxRun(line, i, h, Blank) && h < |line| && line[h] == '<'
    && h < e <= |line| && e == Find(line, ">", h) + 1
  }

  /** The end of the directive name a line begins with, or 0. */
  method DirectiveEnd(line: string) returns (j: nat)
    ensures j > 0 ==> j <= |line| && DirectiveName(line, j)
    ensures j == 0 ==> forall d: nat :: !DirectiveName(line, d)
  {
    if line == "" || line[0] != '#' { return 0; }
    var m := RunEnd(line, 1, Blank);
    j := RunEnd(line, m, NameChar);
    forall d: nat | DirectiveName(line, d)
      ensures d == j > m
    {
      DirectiveNameUnique(line, m, j, d);
    }
    if j == m { j := 0; }
  }

  lemma DirectiveNameUnique(line: string, m: nat, j: nat, d: nat)
    requires DirectiveName(line, d) && MaxRun(line, 1, m, Blank) && MaxRun(line, m, j, NameChar)
    ensures d == j > m
  {
    var m': nat :| MaxRun(line, 1, m', Blank) && MaxRun(line, m', d, NameChar) && m' < d;
    MaxRunUnique(line, 1, Blank, m, m');
    MaxRunUnique(line, m, NameChar, j, d);
  }

  /** The bracketed header that follows blanks at `i`: where it starts and ends. */
  method HeaderEnd(line: string, i: nat) returns (start: nat, end: nat)
    requires i <= |line|
    ensures i <= start <= end <= |line|
    ensures if start < end then HeaderFrom(line, i, start, end)
            else start == i && forall h, e :: !HeaderFrom(line, i, h, e)
  {
    start := RunEnd(line, i, Blank);
    forall h, e | HeaderFrom(line, i, h, e)
      ensures h == start && e == Find(line, ">", start) + 1
    {
      MaxRunUnique(line, i, Blank, h, start);
    }
    if start == |line| || line[start] != '<' { return i, i; }
    end := Find(line, ">", start);
    if end == |line| { return i, i; }
    end := end + 1;
  }

  // ----- readings of a brace source -----

  /** What a source consists of: lexemes, and directive lines with a header or none and a
    * rest that is a source of its own. */
  datatype BraceItem =
    | Lexeme(cls: Option<Class>, end: nat)
    | Directive(name: nat, header: nat, headerEnd: nat, end: nat, rest: seq<BraceItem>)

  /** A directive line begins at `i`: its name ends at `k`, the line at `pe`. */
  ghost predicate DirectiveAt(code: string, spec: BraceSpec, i: nat, lineStart: bool, k: nat, pe: nat)
    requires i < |code|
  {
    spec.preproc && code[i] == '#' && lineStart && i < k && pe == Find(code, "\n", i)
    && DirectiveName(code[i..pe], k - i)
  }

  ghost predicate NoDirective(code: string, spec: BraceSpec, i: nat, lineStart: bool)
    requires i < |code|
  {
    forall k, pe :: !DirectiveAt(code, spec, i, lineStart, k, pe)
  }

  /** The header of a directive line, if it has one; if not, `h` and `e` are where its name ends. */
  ghost predicate HeaderAt(line: string, k: nat, h: nat, e: nat) {
    if h < e then HeaderFrom(line, k, h, e) else h == e == k && forall h', e' :: !HeaderFrom(line, k, h', e')
  }

  /** Whether a line still starts after the lexeme at `i`. */
  predicate StartsAfter(code: string, i: nat, lineStart: bool)
    requires i < |code|
  {
    code[i] == '\n' || (Blank(code[i]) && lineStart)
  }

  /** The item is what stands at `i`: a lexeme, where no directive line begins, or a
    * directive line, the rest of which is read to its end. */
  ghost predicate ItemAt(code: string, spec: BraceSpec, i: nat, lineStart: bool, x: BraceItem)
    requires i < |code|
    decreases x, 0
  {
    match x
    case Lexeme(cls, e) =>
      NoDirective(code, spec, i, lineStart) && i < e <= |code| && BraceLexeme(code, spec, i, cls, e)
    case Directive(k, h, e, pe, rest) =>
      && DirectiveAt(code, spec, i, lineStart, k, pe) && k <= h <= e <= pe <= |code| && HeaderAt(code[..pe], k, h, e)
      && BraceReads(code[e..pe], spec, 0, true, rest)
  }

  /** Whether a line still starts after the item at `i`. */
  predicate LineStartAfter(code: string, i: nat, lineStart: bool, x: BraceItem) {
    x.Lexeme? && i < |code| && StartsAfter(code, i, lineStart)
  }

  /** The items, one after another, are what stands in the source from `i` to its end. */
  ghost predicate BraceReads(code: string, spec: BraceSpec, i: nat, lineStart: bool, items: seq<BraceItem>)
    decreases items, 1
  {
    if items == [] then i == |code| else
    i < |code| && ItemAt(code, spec, i, lineStart, items[0])
    && BraceReads(code, spec, items[0].end, LineStartAfter(code, i, lineStart, items[0]), items[1..])
  }

  /** What a reading has come to: read up to `j`, whatever reads the source from there on
    * completes it. */
  ghost predicate BraceReadTo(code: string, spec: BraceSpec, items: seq<BraceItem>, j: nat, lineStart: bool) {
    forall more :: BraceReads(code, spec, j, lineStart, more) ==> BraceReads(code, spec, 0, true, items + more)
  }

  function Slice(s: string, i: nat, j: nat): string { if i <= j <= |s| then s[i..j] else "" }

  function HeaderPieces(code: string, k: nat, h: nat, e: nat): seq<Piece> {
    if h < e then [Piece(None, Slice(code, k, h)), Piece(Some(StringClass), Slice(code, h, e))] else []
  }

  /** How an item is shown: a lexeme in its class, a directive name as a keyword, its
    * header as a string, */
  function ItemPieces(code: string, i: nat, x: BraceItem): seq<Piece>
    decreases x, 0
  {
    match x
    case Lexeme(cls, e) => [Piece(cls, Slice(code, i, e))]
    case Directive(k, h, e, pe, rest) =>
      [Piece(Some(KeywordClass), Slice(code, i, k))]
      + HeaderPieces(code, k, h, e)
      + BracePieces(Slice(code, e, pe), 0, rest)
  }

  /** and a reading: its items in order. */
  function BracePieces(code: string, i: nat, items: seq<BraceItem>): seq<Piece>
    decreases items, 1
  {
    if items == [] then [] else ItemPieces(code, i, items[0]) + BracePieces(code, items[0].end, items[1..])
  }

  function EndOf(i: nat, items: seq<BraceItem>): nat { if items == [] then i else items[|items| - 1].end }

  lemma {:induction false} PiecesThen(code: string, i: nat, items: seq<BraceItem>, x: BraceItem)
    ensures BracePieces(code, i, items + [x]) == BracePieces(code, i, items) + ItemPieces(code, EndOf(i, items), x)
    decreases items
  {
    if items == [] {
      assert items + [x] == [x] && [x][1..] == [];
    } else {
      assert (items + [x])[0] == items[0] && (items + [x])[1..] == items[1..] + [x];
      PiecesThen(code, items[0].end, items[1..], x);
    }
  }

  lemma ReadThen(code: string, spec: BraceSpec, items: seq<BraceItem>, j: nat, ls: bool, x: BraceItem)
    requires BraceReadTo(code, spec, items, j, ls) && j < |code| && ItemAt(code, spec, j, ls, x)
    ensures BraceReadTo(code, spec, items + [x], x.end, LineStartAfter(code, j, ls, x))
  {
    forall more | BraceReads(code, spec, x.end, LineStartAfter(code, j, ls, x), more)
      ensures BraceReads(code, spec, 0, true, items + [x] + more)
    {
      assert ([x] + more)[0] == x && ([x] + more)[1..] == more;
      assert BraceReads(code, spec, j, ls, [x] + more);
      assert items + ([x] + more) == items + [x] + more;
    }
  }

  /** Highlighting a brace language shows a reading of its source, every lexeme in its
    * class, and the markup reads back as the source, whatever that is. */
  method HlBrace(code: string, spec: BraceSpec) returns (out: string, ghost items: seq<BraceItem>)
    ensures BraceReads(code, spec, 0, true, items)
    ensures Shows(out, BracePieces(code, 0, items), code, |code|) && Content(out, false) == Some(code)
    decreases |code|
  {
    out, items := "", [];
    ghost var ps: seq<Piece> := [];
    var i, lineStart := 0, true;
    assert BraceReadTo(code, spec, [], 0, true) by { NothingRead(code, spec); }
    while i < |code|
      invariant Shows(out, ps, code, i) && ps == BracePieces(code, 0, items) && EndOf(0, items) == i
      invariant BraceReadTo(code, spec, items, i, lineStart)
      decreases |code| - i
    {
      ghost var x: BraceItem;
      out, ps, i, lineStart, x := HlItem(out, ps, code, spec, i, lineStart, items);
      items := items + [x];
    }
    assert code[..|code|] == code && items + [] == items;
    assert BraceReads(code, spec, i, lineStart, []);
    ContentOfShown(ps);
  }

  lemma NothingRead(code: string, spec: BraceSpec)
    ensures BraceReadTo(code, spec, [], 0, true)
  {
    forall more | BraceReads(code, spec, 0, true, more)
      ensures BraceReads(code, spec, 0, true, [] + more)
    {
      assert [] + more == more;
    }
  }

  /** One turn of the loop: a directive line or a lexeme. */
  method HlItem(out: string, ghost ps: seq<Piece>, code: string, spec: BraceSpec, i: nat, lineStart: bool,
                ghost items: seq<BraceItem>)
    returns (out': string, ghost ps': seq<Piece>, j: nat, lineStart': bool, ghost x: BraceItem)
    requires i < |code| && Shows(out, ps, code, i)
    requires ps == BracePieces(code, 0, items) && EndOf(0, items) == i && BraceReadTo(code, spec, items, i, lineStart)
    ensures i < j == x.end <= |code| && Shows(out', ps', code, j) && ps' == BracePieces(code, 0, items + [x])
    ensures BraceReadTo(code, spec, items + [x], j, lineStart')
    decreases |code|, 1
  {
    out', ps', j, lineStart', x := ShowItem(out, ps, code, spec, i, lineStart);
    PiecesThen(code, 0, items, x);
    ReadThen(code, spec, items, i, lineStart, x);
  }

  method ShowItem(out: string, ghost ps: seq<Piece>, code: string, spec: BraceSpec, i: nat, lineStart: bool)
    returns (out': string, ghost ps': seq<Piece>, j: nat, lineStart': bool, ghost x: BraceItem)
    requires i < |code| && Shows(out, ps, code, i)
    ensures i < j == x.end <= |code| && Shows(out', ps', code, j) && ps' == ps + ItemPieces(code, i, x)
    ensures ItemAt(code, spec, i, lineStart, x) && lineStart' == LineStartAfter(code, i, lineStart, x)
    decreases |code|, 0, 1
  {
    if spec.preproc && code[i] == '#' && lineStart {
      var pe := Find(code, "\n", i);
      var d := DirectiveEnd(code[i..pe]);
      if d > 0 {
        out', ps', x := HlDirective(out, ps, code, spec, i, i + d, pe);
        return out', ps', pe, false, x;
      }
    }
    var cls;
    cls, j, lineStart' := BraceToken(code, spec, i, lineStart);
    x := Lexeme(cls, j);
    out', ps' := Put(out, ps, code, i, j, cls);
  }

  /** A directive line from `i` to `pe`, whose name ends at `k`. */
  method HlDirective(out: string, ghost ps: seq<Piece>, code: string, spec: BraceSpec, i: nat, k: nat, pe: nat)
    returns (out': string, ghost ps': seq<Piece>, ghost x: BraceItem)
    requires i < |code| && Shows(out, ps, code, i) && DirectiveAt(code, spec, i, true, k, pe) && k <= pe <= |code|
    ensures x.Directive? && x.end == pe && Shows(out', ps', code, pe) && ps' == ps + ItemPieces(code, i, x)
    ensures ItemAt(code, spec, i, true, x)
    decreases |code|, 0, 0
  {
    out', ps' := Put(out, ps, code, i, k, Some(KeywordClass));
    var start, end;
    out', ps', start, end := PutHeader(out', ps', code, k, pe);
    var inner;
    ghost var rest;
    inner, rest := HlBrace(code[end..pe], spec);
    out', ps' := Join(out', ps', code, end, pe, inner, BracePieces(code[end..pe], 0, rest));
    x := Directive(k, start, end, pe, rest);
    DirectivePieces(code, ps, i, k, start, end, pe, rest);
  }

  /** The header of a directive line, if it has one. */
  method PutHeader(out: string, ghost ps: seq<Piece>, code: string, k: nat, pe: nat)
    returns (out': string, ghost ps': seq<Piece>, h: nat, e: nat)
    requires Shows(out, ps, code, k) && k <= pe <= |code|
    ensures k <= h <= e <= pe && HeaderAt(code[..pe], k, h, e) && Shows(out', ps', code, e)
    ensures ps' == ps + HeaderPieces(code, k, h, e)
  {
    out', ps' := out, ps;
    h, e := HeaderEnd(code[..pe], k);
    if h < e {
      out', ps' := Put(out', ps', code, k, h, None);
      out', ps' := Put(out', ps', code, h, e, Some(StringClass));
    }
  }

  lemma DirectivePieces(code: string, ps: seq<Piece>, i: nat, k: nat, h: nat, e: nat, pe: nat, rest: seq<BraceItem>)
    requires i <= k <= h <= e <= pe <= |code|
    ensures ps + [Piece(Some(KeywordClass), code[i..k])] + HeaderPieces(code, k, h, e)
               + BracePieces(code[e..pe], 0, rest)
         == ps + ItemPieces(code, i, Directive(k, h, e, pe, rest))
  {
  }

  // ----- a source has one reading -----

  lemma NumberRunUnique(code: string, i: nat, j: nat, j': nat)
    requires NumberRun(code, i, j) && NumberRun(code, i, j')
    ensures j == j'
  {
    var m :| MaxRun(code, i, m, NumberChar) && MaxRun(code, m, j, NumberSuffix);
    var m' :| MaxRun(code, i, m', NumberChar) && MaxRun(code, m', j', NumberSuffix);
    MaxRunUnique(code, i, NumberChar, m, m');
    MaxRunUnique(code, m, NumberSuffix, j, j');
  }

  lemma RunsUnique(code: string, i: nat, j: nat, j': nat)
    ensures MaxRun(code, i, j, PathChar) && MaxRun(code, i, j', PathChar) ==> j == j'
    ensures MaxRun(code, i, j, Word) && MaxRun(code, i, j', Word) ==> j == j'
    ensures NumberRun(code, i, j) && NumberRun(code, i, j') ==> j == j'
  {
    if MaxRun(code, i, j, PathChar) && MaxRun(code, i, j', PathChar) { MaxRunUnique(code, i, PathChar, j, j'); }
    if MaxRun(code, i, j, Word) && MaxRun(code, i, j', Word) { MaxRunUnique(code, i, Word, j, j'); }
    if NumberRun(code, i, j) && NumberRun(code, i, j') { NumberRunUnique(code, i, j, j'); }
  }

  /** One thing stands at a place of a brace language. */
  lemma BraceLexemeUnique(code: string, spec: BraceSpec, i: nat, cls: Option<Class>, j: nat,
                          cls': Option<Class>, j': nat)
    requires i < |code| && BraceLexeme(code, spec, i, cls, j) && BraceLexeme(code, spec, i, cls', j')
    ensures cls == cls' && j == j'
  {
    RunsUnique(code, i + 1, j, j');
    if QuoteEndsAt(code, i + 1, code[i], true, j) && QuoteEndsAt(code, i + 1, code[i], true, j') {
      QuoteEndUnique(code, i + 1, code[i], true, j, j');
    }
  }

  lemma DirectiveUnique(code: string, spec: BraceSpec, i: nat, ls: bool, k: nat, pe: nat, k': nat, pe': nat)
    requires i < |code| && DirectiveAt(code, spec, i, ls, k, pe) && DirectiveAt(code, spec, i, ls, k', pe')
    ensures k == k' && pe == pe'
  {
    var line := code[i..pe];
    var m: nat :| MaxRun(line, 1, m, Blank) && MaxRun(line, m, k - i, NameChar) && m < k - i;
    DirectiveNameUnique(line, m, k - i, k' - i);
  }

  lemma HeaderUnique(line: string, k: nat, h: nat, e: nat, h': nat, e': nat)
    requires HeaderAt(line, k, h, e) && HeaderAt(line, k, h', e')
    ensures h == h' && e == e'
  {
    if h < e && h' < e' { MaxRunUnique(line, k, Blank, h, h'); }
  }

  /** A brace source has one reading, so the classes and extents that are shown are fixed. */
  lemma {:induction false} BraceReadsUnique(code: string, spec: BraceSpec, i: nat, ls: bool,
                                            a: seq<BraceItem>, b: seq<BraceItem>)
    requires BraceReads(code, spec, i, ls, a) && BraceReads(code, spec, i, ls, b)
    ensures a == b
    decreases a, 1
  {
    if a != [] && b != [] {
      ItemUnique(code, spec, i, ls, a[0], b[0]);
      BraceReadsUnique(code, spec, a[0].end, LineStartAfter(code, i, ls, a[0]), a[1..], b[1..]);
      assert a == [a[0]] + a[1..] && b == [b[0]] + b[1..];
    }
  }

  lemma {:induction false} ItemUnique(code: string, spec: BraceSpec, i: nat, ls: bool, x: BraceItem, y: BraceItem)
    requires i < |code| && ItemAt(code, spec, i, ls, x) && ItemAt(code, spec, i, ls, y)
    ensures x == y
    decreases x, 0
  {
    match (x, y) {
      case (Lexeme(cls, e), Lexeme(cls', e')) => BraceLexemeUnique(code, spec, i, cls, e, cls', e');
      case (Directive(k, h, e, pe, rest), Directive(k', h', e', pe', rest')) =>
        DirectiveUnique(code, spec, i, ls, k, pe, k', pe');
        HeaderUnique(code[..pe], k, h, e, h', e');
        BraceReadsUnique(code[e..pe], spec, 0, true, rest, rest');
      case _ =>
    }
  }

  /** For one: a source that is a keyword of the language reads as one, */
  lemma KeywordRead(w: string, spec: BraceSpec)
    requires w != "" && w in spec.kw && w !in spec.lit && !Digit(w[0]) && forall k | 0 <= k < |w| :: Word(w[k])
    requires spec.line == "" || !Word(spec.line[0])
    ensures BraceReads(w, spec, 0, true, [Lexeme(Some(KeywordClass), |w|)])
  {
    var x := Lexeme(Some(KeywordClass), |w|);
    assert w[0..|w|] == w && [x][1..] == [];
    if spec.line != "" && |spec.line| <= |w| { assert w[..|spec.line|][0] == w[0]; }
    if |w| > 1 { assert w[0..2][0] == w[0]; }
    assert BraceLexeme(w, spec, 0, Some(KeywordClass), |w|);
    assert ItemAt(w, spec, 0, true, x);
  }

  /** and is put out as one. */
  lemma KeywordShown(w: string)
    requires forall k | 0 <= k < |w| :: Word(w[k])
    ensures Shown(BracePieces(w, 0, [Lexeme(Some(KeywordClass), |w|)])) == "<span class=\"hl-keyword\">" + w + "</span>"
  {
    var x, p := Lexeme(Some(KeywordClass), |w|), Piece(Some(KeywordClass), w);
    assert w[0..|w|] == w && [x][1..] == [] && BracePieces(w, |w|, []) == [] && ItemPieces(w, 0, x) == [p];
    assert BracePieces(w, 0, [x]) == [p];
    EscWord(w);
    ShownOne(p);
    SpanIs(KeywordClass, w);
  }

  lemma {:induction false} EscWord(w: string)
    requires forall k | 0 <= k < |w| :: Word(w[k])
    ensures Esc(w) == w
  {
    if w != "" { EscWord(w[1..]); }
  }
}
