/** The guides' highlighter for Turmeric, Racket and Scheme (tools/genguides.py, lines
  * 493-513 and 652-782). */
module LispHighlight {
  import opened Wrappers
  import opened Strings
  import opened Markup
  import opened Highlight
  import opened LispComments

  /** How many characters a regular expression matches at the start of a text; 0, if it
    * does not match. */
  type Matcher = f: string -> nat | forall s: string :: f(s) <= |s| witness s => 0

  datatype LispSpec = LispSpec(kw: set<string>, lit: set<string>, space: char -> bool, number: Matcher,
                               inlineC: bool, colonType: bool, blockComment: bool, hashKeyword: bool,
                               datumComment: bool, charLit: bool, hashVector: bool, schemeNum: bool)

  predicate Delim(spec: LispSpec, c: char) { spec.space(c) || c in "()[]{}\";'`,|" }

  function NoDelim(spec: LispSpec): char -> bool { c => !Delim(spec, c) }

  predicate SymbolStart(c: char) { Letter(c) || c in "_-!?*+<>=/&%^~#@" }

  // ----- chains -----

  /** Items that stand one after another from `i` to `n`, each beginning where the last ends. */
  ghost predicate Chain<X(!new)>(at: (nat, X) -> bool, end: X -> nat, n: nat, i: nat, items: seq<X>)
    decreases items
  {
    if items == [] then i == n else
    i < n && at(i, items[0]) && Chain(at, end, n, end(items[0]), items[1..])
  }

  /** A chain so far, up to `j`: whatever goes on from there completes it. */
  ghost predicate ChainTo<X(!new)>(at: (nat, X) -> bool, end: X -> nat, n: nat, items: seq<X>, j: nat) {
    forall more :: Chain(at, end, n, j, more) ==> Chain(at, end, n, 0, items + more)
  }

  lemma ChainNothing<X(!new)>(at: (nat, X) -> bool, end: X -> nat, n: nat)
    ensures ChainTo(at, end, n, [], 0)
  {
    forall more | Chain(at, end, n, 0, more)
      ensures Chain(at, end, n, 0, [] + more)
    {
      assert [] + more == more;
    }
  }

  lemma ChainNext<X(!new)>(at: (nat, X) -> bool, end: X -> nat, n: nat, items: seq<X>, j: nat, x: X)
    requires ChainTo(at, end, n, items, j) && j < n && at(j, x)
    ensures ChainTo(at, end, n, items + [x], end(x))
  {
    forall more | Chain(at, end, n, end(x), more)
      ensures Chain(at, end, n, 0, items + [x] + more)
    {
      assert ([x] + more)[0] == x && ([x] + more)[1..] == more;
      assert Chain(at, end, n, j, [x] + more);
      assert items + ([x] + more) == items + [x] + more;
    }
  }

  /** If one thing stands at each place, there is one chain. */
  lemma {:induction false} ChainUnique<X(!new)>(at: (nat, X) -> bool, end: X -> nat, n: nat, i: nat,
                                                a: seq<X>, b: seq<X>)
    requires forall k: nat, x, y :: at(k, x) && at(k, y) ==> x == y
    requires Chain(at, end, n, i, a) && Chain(at, end, n, i, b)
    ensures a == b
    decreases a
  {
    if a != [] && b != [] {
      ChainUnique(at, end, n, end(a[0]), a[1..], b[1..]);
      assert a == [a[0]] + a[1..] && b == [b[0]] + b[1..];
    }
  }

  // ----- comments and characters -----

  predicate DatumBlank(c: char) { c in " \t\n" }

  /** Where the datum that `#;` at `i` removes ends: with its bracket, or with its word. */
  ghost predicate DatumAt(s: string, spec: LispSpec, i: nat, j: nat) {
    exists d: nat :: MaxRun(s, i + 2, d, DatumBlank) && DatumFrom(s, spec, d, j)
  }

  ghost predicate DatumFrom(s: string, spec: LispSpec, d: nat, j: nat) {
    if d < |s| && s[d] in "([" then DatumEndsAt(s, d, j) else MaxRun(s, d, j, NoDelim(spec))
  }

  /** Past the datum that `#;` at `i` removes. */
  method DatumEnd(s: string, spec: LispSpec, i: nat) returns (j: nat)
    requires i + 2 <= |s|
    ensures i < j <= |s| && DatumAt(s, spec, i, j)
  {
    var d := RunEnd(s, i + 2, DatumBlank);
    if d < |s| && s[d] in "([" {
      j := BracketedEnd(s, d);
    } else {
      j := RunEnd(s, d, NoDelim(spec));
    }
    assert DatumFrom(s, spec, d, j);
  }

  predicate LetterOrDigit(c: char) { Letter(c) || Digit(c) }

  /** The character literal at `i` ends at `j`: a letter takes letters and digits with it. */
  ghost predicate CharAt(s: string, i: nat, j: nat) {
    if i + 2 >= |s| then j == |s|
    else if Letter(s[i + 2]) then MaxRun(s, i + 3, j, LetterOrDigit)
    else j == i + 3
  }

  /** Past the character literal at `i`. */
  method CharEnd(s: string, i: nat) returns (j: nat)
    requires i + 2 <= |s|
    ensures i < j <= |s| && CharAt(s, i, j)
  {
    j := i + 2;
    if j < |s| {
      j := j + 1;
      if Letter(s[i + 2]) { j := RunEnd(s, j, LetterOrDigit); }
    }
  }

  /** A comment or a character literal begins at `i`. */
  predicate Hashed(code: string, spec: LispSpec, i: nat)
    requires i < |code|
  {
    || code[i] == ';' || (spec.blockComment && StartsWith(code, i, "#|"))
    || (spec.datumComment && StartsWith(code, i, "#;")) || (spec.charLit && StartsWith(code, i, "#\\"))
  }

  /** Of which class it is, and where it ends. */
  ghost predicate HashLexeme(code: string, spec: LispSpec, i: nat, cls: Option<Class>, j: nat)
    requires i < |code|
  {
    if code[i] == ';' then cls == Some(CommentClass) && j == Find(code, "\n", i)
    else if spec.blockComment && StartsWith(code, i, "#|") then cls == Some(CommentClass) && BlockEndsAt(code, i + 2, j)
    else if spec.datumComment && StartsWith(code, i, "#;") then cls == Some(CommentClass) && DatumAt(code, spec, i, j)
    else cls == Some(StringClass) && CharAt(code, i, j)
  }

  /** A comment or a character that begins with `#` or `;` at `i`, if there is one. */
  method HashToken(code: string, spec: LispSpec, i: nat) returns (cls: Option<Class>, j: nat)
    requires i < |code|
    ensures cls.Some? <==> Hashed(code, spec, i)
    ensures cls.Some? ==> i < j <= |code| && HashLexeme(code, spec, i, cls, j)
  {
    if code[i] == ';' {
      j := Find(code, "\n", i);
      StartsWithChar(code, i, '\n');
      return Some(CommentClass), j;
    }
    if spec.blockComment && StartsWith(code, i, "#|") {
      j := BlockEnd(code, i);
      return Some(CommentClass), j;
    }
    if spec.datumComment && StartsWith(code, i, "#;") {
      j := DatumEnd(code, spec, i);
      return Some(CommentClass), j;
    }
    if spec.charLit && StartsWith(code, i, "#\\") {
      j := CharEnd(code, i);
      return Some(StringClass), j;
    }
    return None, i;
  }

  // ----- prefixes, words and numbers -----

  /** A vector prefix stands at `i`, and its bracket at `b`. */
  predicate VectorAt(code: string, spec: LispSpec, i: nat, b: nat) {
    spec.hashVector && ((StartsWith(code, i, "#(") && b == i + 1) || (StartsWith(code, i, "#u8(") && b == i + 3))
  }

  /** Whether a vector prefix stands at `i`, and where its bracket is. */
  method VectorBracket(code: string, spec: LispSpec, i: nat) returns (b: nat)
    requires i < |code|
    ensures if b > i then b < |code| && VectorAt(code, spec, i, b) else forall b' :: !VectorAt(code, spec, i, b')
  {
    if spec.hashVector {
      if StartsWith(code, i, "#(") { return i + 1; }
      if StartsWith(code, i, "#u8(") { return i + 3; }
    }
    return i;
  }

  predicate KeywordChar(c: char) { Word(c) || c in "-!?*+<>=/" }

  predicate TypeChar(c: char) { Word(c) || c in "-?!" }

  predicate LispNumberChar(c: char) { Digit(c) || c in "abcdefABCDEFxX_." }

  predicate SymbolChar(c: char) { SymbolStart(c) || Digit(c) || c == '.' }

  function SymbolClass(spec: LispSpec, sym: string): Option<Class> {
    if sym in spec.lit then Some(NumberClass) else if sym in spec.kw then Some(KeywordClass) else None
  }

  /** A Scheme number stands at `i`, up to a delimiter or the end. */
  predicate SchemeNumber(code: string, spec: LispSpec, i: nat)
    requires i < |code|
  {
    spec.schemeNum && (Digit(code[i]) || code[i] in "+-.#") &&
    var m := spec.number(code[i..]);
    m > 0 && (i + m == |code| || Delim(spec, code[i + m]))
  }

  /** What stands at `i` of a source in a Lisp, once comments, prefixes and fences are out
    * of the way, and where it ends. */
  ghost predicate LispLexeme(code: string, spec: LispSpec, i: nat, cls: Option<Class>, j: nat)
    requires i < |code|
  {
    var c := code[i];
    if spec.colonType && c == ':' && i + 1 < |code| && (Letter(code[i + 1]) || code[i + 1] == '_') then
      cls == Some(TypeClass) && MaxRun(code, i + 1, j, TypeChar)
    else if SchemeNumber(code, spec, i) then cls == Some(NumberClass) && j == i + spec.number(code[i..])
    else if Digit(c) || (c == '-' && i + 1 < |code| && Digit(code[i + 1])) then
      cls == Some(NumberClass) && MaxRun(code, i + 1, j, LispNumberChar)
    else if SymbolStart(c) then MaxRun(code, i + 1, j, SymbolChar) && cls == SymbolClass(spec, code[i..j])
    else cls == None && j == i + 1
  }

  method LispToken(code: string, spec: LispSpec, i: nat) returns (cls: Option<Class>, j: nat)
    requires i < |code|
    ensures i < j <= |code| && LispLexeme(code, spec, i, cls, j)
  {
    var c := code[i];
    if spec.colonType && c == ':' && i + 1 < |code| && (Letter(code[i + 1]) || code[i + 1] == '_') {
      j := RunEnd(code, i + 1, TypeChar);
      return Some(TypeClass), j;
    }
    if spec.schemeNum && (Digit(c) || c in "+-.#") {
      var m := spec.number(code[i..]);
      if m > 0 && (i + m == |code| || Delim(spec, code[i + m])) { return Some(NumberClass), i + m; }
    }
    if Digit(c) || (c == '-' && i + 1 < |code| && Digit(code[i + 1])) {
      j := RunEnd(code, i + 1, LispNumberChar);
      return Some(NumberClass), j;
    }
    if SymbolStart(c) {
      j := RunEnd(code, i + 1, SymbolChar);
      return SymbolClass(spec, code[i..j]), j;
    }
    return None, i + 1;
  }

  // ----- readings of a Lisp source -----

  /** What a source consists of: tokens of a class, vector prefixes with their bracket, and
    * fences around a source in C. */
  datatype LispItem =
    | Token(cls: Option<Class>, tokenEnd: nat)
    | Vector(bracket: nat)
    | Fence(close: nat, rest: seq<BraceItem>)

  /** An inline-C fence stands at `i`. */
  predicate InlineC(code: string, i: nat) {
    StartsWith(code, i, "```c") && !(i + 4 < |code| && Word(code[i + 4]))
  }

  ghost predicate NoVector(code: string, spec: LispSpec, i: nat) { forall b :: !VectorAt(code, spec, i, b) }

  /** A token stands at `i`: a comment or character; else, where no vector begins, a keyword
    * argument, a string or, where no fence begins, a lexeme. */
  ghost predicate TokenAt(code: string, spec: LispSpec, i: nat, cls: Option<Class>, j: nat)
    requires i < |code|
  {
    if Hashed(code, spec, i) then HashLexeme(code, spec, i, cls, j)
    else
      NoVector(code, spec, i) &&
      if spec.hashKeyword && StartsWith(code, i, "#:") then
        cls == Some(TypeClass) && MaxRun(code, i + 2, j, KeywordChar)
      else if code[i] == '"' then cls == Some(StringClass) && QuoteEndsAt(code, i + 1, '"', false, j)
      else !(spec.inlineC && InlineC(code, i)) && LispLexeme(code, spec, i, cls, j)
  }

  /** A fence stands at `i`: nothing of the above does. */
  ghost predicate FenceAt(code: string, spec: LispSpec, i: nat)
    requires i < |code|
  {
    && !Hashed(code, spec, i) && NoVector(code, spec, i) && !(spec.hashKeyword && StartsWith(code, i, "#:"))
    && code[i] != '"' && spec.inlineC && InlineC(code, i)
  }

  /** Where an item ends: a fence with the next one, or with the source. */
  function LispEnd(code: string, x: LispItem): nat {
    match x
    case Token(_, j) => j
    case Vector(b) => b + 1
    case Fence(fe, _) => if fe < |code| then fe + 3 else fe
  }

  ghost predicate LispItemAt(code: string, spec: LispSpec, cSpec: BraceSpec, i: nat, x: LispItem)
    requires i < |code|
  {
    match x
    case Token(cls, j) => i < j <= |code| && TokenAt(code, spec, i, cls, j)
    case Vector(b) => !Hashed(code, spec, i) && b < |code| && VectorAt(code, spec, i, b)
    case Fence(fe, rest) =>
      && FenceAt(code, spec, i) && fe == Find(code, "```", i + 4)
      && BraceReads(code[i + 4..fe], cSpec, 0, true, rest)
  }

  ghost function LispAt(code: string, spec: LispSpec, cSpec: BraceSpec): (nat, LispItem) -> bool {
    (i: nat, x: LispItem) => i < |code| && LispItemAt(code, spec, cSpec, i, x)
  }

  function LispEnds(code: string): LispItem -> nat { x => LispEnd(code, x) }

  /** The items, one after another, are what stands in the source from its start to its end. */
  ghost predicate LispReads(code: string, spec: LispSpec, cSpec: BraceSpec, items: seq<LispItem>) {
    Chain(LispAt(code, spec, cSpec), LispEnds(code), |code|, 0, items)
  }

  /** How an item is shown: a token in its class, a vector prefix as a type, and the C of a
    * fence by the other highlighter between its bare fences; */
  function LispItemPieces(code: string, i: nat, x: LispItem): seq<Piece> {
    match x
    case Token(cls, j) => [Piece(cls, Slice(code, i, j))]
    case Vector(b) => [Piece(Some(TypeClass), Slice(code, i, b)), Piece(None, Slice(code, b, b + 1))]
    case Fence(fe, rest) =>
      [Piece(None, Slice(code, i, i + 4))] + BracePieces(Slice(code, i + 4, fe), 0, rest)
      + ClosingPieces(code, fe)
  }

  function ClosingPieces(code: string, fe: nat): seq<Piece> {
    if fe < |code| then [Piece(None, Slice(code, fe, fe + 3))] else []
  }

  /** and a reading: its items in order. */
  function LispPieces(code: string, i: nat, items: seq<LispItem>): seq<Piece>
    decreases items
  {
    if items == [] then [] else
    LispItemPieces(code, i, items[0]) + LispPieces(code, LispEnd(code, items[0]), items[1..])
  }

  function LispEndOf(code: string, i: nat, items: seq<LispItem>): nat {
    if items == [] then i else LispEnd(code, items[|items| - 1])
  }

  lemma {:induction false} LispPiecesThen(code: string, i: nat, items: seq<LispItem>, x: LispItem)
    ensures LispPieces(code, i, items + [x])
         == LispPieces(code, i, items) + LispItemPieces(code, LispEndOf(code, i, items), x)
    decreases items
  {
    if items == [] {
      assert items + [x] == [x] && [x][1..] == [];
    } else {
      assert (items + [x])[0] == items[0] && (items + [x])[1..] == items[1..] + [x];
      LispPiecesThen(code, LispEnd(code, items[0]), items[1..], x);
    }
  }

  // ----- the highlighter -----

  /** Highlighting a Lisp, with the C inside its fences, shows a reading of its source, every
    * token in its class, and the markup reads back as the source, whatever that is. */
  method Hl(code: string, spec: LispSpec, cSpec: BraceSpec) returns (out: string, ghost items: seq<LispItem>)
    ensures LispReads(code, spec, cSpec, items)
    ensures Shows(out, LispPieces(code, 0, items), code, |code|) && Content(out, false) == Some(code)
  {
    out, items := "", [];
    ghost var ps: seq<Piece> := [];
    var i := 0;
    ghost var at, end := LispAt(code, spec, cSpec), LispEnds(code);
    ChainNothing(at, end, |code|);
    while i < |code|
      invariant Shows(out, ps, code, i) && ps == LispPieces(code, 0, items) && LispEndOf(code, 0, items) == i
      invariant ChainTo(at, end, |code|, items, i)
      decreases |code| - i
    {
      ghost var x: LispItem;
      var j;
      out, ps, j, x := HlItem(out, ps, code, spec, cSpec, i);
      LispPiecesThen(code, 0, items, x);
      ChainNext(at, end, |code|, items, i, x);
      i, items := j, items + [x];
    }
    assert code[..|code|] == code && items + [] == items;
    assert Chain(at, end, |code|, i, []);
    ContentOfShown(ps);
  }

  /** One turn of the loop. */
  method HlItem(out: string, ghost ps: seq<Piece>, code: string, spec: LispSpec, cSpec: BraceSpec, i: nat)
    returns (out': string, ghost ps': seq<Piece>, j: nat, ghost x: LispItem)
    requires i < |code| && Shows(out, ps, code, i)
    ensures i < j == LispEnd(code, x) <= |code| && Shows(out', ps', code, j) && ps' == ps + LispItemPieces(code, i, x)
    ensures LispAt(code, spec, cSpec)(i, x)
  {
    var cls, e := HashToken(code, spec, i);
    if cls.Some? {
      out', ps', j, x := PutToken(out, ps, code, spec, cSpec, i, cls, e);
      return;
    }
    e := VectorBracket(code, spec, i);
    if e > i {
      out', ps', x := PutVector(out, ps, code, spec, cSpec, i, e);
      j := e + 1;
      return;
    }
    out', ps', j, x := HlPlain(out, ps, code, spec, cSpec, i);
  }

  /** What no comment, character or vector begins. */
  method HlPlain(out: string, ghost ps: seq<Piece>, code: string, spec: LispSpec, cSpec: BraceSpec, i: nat)
    returns (out': string, ghost ps': seq<Piece>, j: nat, ghost x: LispItem)
    requires i < |code| && Shows(out, ps, code, i) && !Hashed(code, spec, i) && NoVector(code, spec, i)
    ensures i < j == LispEnd(code, x) <= |code| && Shows(out', ps', code, j) && ps' == ps + LispItemPieces(code, i, x)
    ensures LispAt(code, spec, cSpec)(i, x)
  {
    if spec.hashKeyword && StartsWith(code, i, "#:") {
      var e := RunEnd(code, i + 2, KeywordChar);
      out', ps', j, x := PutToken(out, ps, code, spec, cSpec, i, Some(TypeClass), e);
      return;
    }
    if code[i] == '"' {
      var e := QuoteEnd(code, i, false);
      out', ps', j, x := PutToken(out, ps, code, spec, cSpec, i, Some(StringClass), e);
      return;
    }
    if spec.inlineC && InlineC(code, i) {
      out', ps', j, x := HlFence(out, ps, code, spec, i, cSpec);
      return;
    }
    var cls, e := LispToken(code, spec, i);
    out', ps', j, x := PutToken(out, ps, code, spec, cSpec, i, cls, e);
  }

  method PutToken(out: string, ghost ps: seq<Piece>, code: string, ghost spec: LispSpec, ghost cSpec: BraceSpec, i: nat,
                  cls: Option<Class>, e: nat)
    returns (out': string, ghost ps': seq<Piece>, j: nat, ghost x: LispItem)
    requires i < e <= |code| && Shows(out, ps, code, i) && TokenAt(code, spec, i, cls, e)
    ensures x == Token(cls, e) && j == e && LispItemAt(code, spec, cSpec, i, x)
    ensures Shows(out', ps', code, j) && ps' == ps + LispItemPieces(code, i, x)
  {
    out', ps' := Put(out, ps, code, i, e, cls);
    j, x := e, Token(cls, e);
  }

  method PutVector(out: string, ghost ps: seq<Piece>, code: string, ghost spec: LispSpec, ghost cSpec: BraceSpec,
                   i: nat, b: nat)
    returns (out': string, ghost ps': seq<Piece>, ghost x: LispItem)
    requires i < b < |code| && Shows(out, ps, code, i) && VectorAt(code, spec, i, b) && !Hashed(code, spec, i)
    ensures x == Vector(b) && LispItemAt(code, spec, cSpec, i, x)
    ensures Shows(out', ps', code, b + 1) && ps' == ps + LispItemPieces(code, i, x)
  {
    x := Vector(b);
    out', ps' := PutBracket(out, ps, code, i, b);
  }

  method PutBracket(out: string, ghost ps: seq<Piece>, code: string, i: nat, b: nat)
    returns (out': string, ghost ps': seq<Piece>)
    requires i < b < |code| && Shows(out, ps, code, i)
    ensures Shows(out', ps', code, b + 1) && ps' == ps + LispItemPieces(code, i, Vector(b))
  {
    out', ps' := Put(out, ps, code, i, b, Some(TypeClass));
    out', ps' := Put(out', ps', code, b, b + 1, None);
  }

  /** The fence at `i`, its C, and its closing fence if it has one. */
  method HlFence(out: string, ghost ps: seq<Piece>, code: string, spec: LispSpec, i: nat, cSpec: BraceSpec)
    returns (out': string, ghost ps': seq<Piece>, j: nat, ghost x: LispItem)
    requires i < |code| && FenceAt(code, spec, i) && Shows(out, ps, code, i)
    ensures x.Fence? && i < j == LispEnd(code, x) <= |code|
    ensures Shows(out', ps', code, j) && ps' == ps + LispItemPieces(code, i, x)
    ensures LispItemAt(code, spec, cSpec, i, x)
  {
    out', ps' := Put(out, ps, code, i, i + 4, None);
    var fe := Find(code, "```", i + 4);
    ghost var rest;
    out', ps', rest := PutC(out', ps', code, i + 4, fe, cSpec);
    out', ps', j := PutClosing(out', ps', code, fe);
    x := Fence(fe, rest);
    FencePieces(code, ps, i, fe, rest);
  }

  method PutC(out: string, ghost ps: seq<Piece>, code: string, i: nat, fe: nat, cSpec: BraceSpec)
    returns (out': string, ghost ps': seq<Piece>, ghost rest: seq<BraceItem>)
    requires i <= fe <= |code| && Shows(out, ps, code, i)
    ensures BraceReads(code[i..fe], cSpec, 0, true, rest)
    ensures Shows(out', ps', code, fe) && ps' == ps + BracePieces(code[i..fe], 0, rest)
  {
    var inner;
    inner, rest := HlBrace(code[i..fe], cSpec);
    out', ps' := Join(out, ps, code, i, fe, inner, BracePieces(code[i..fe], 0, rest));
  }

  method PutClosing(out: string, ghost ps: seq<Piece>, code: string, fe: nat)
    returns (out': string, ghost ps': seq<Piece>, j: nat)
    requires fe <= |code| && Shows(out, ps, code, fe) && (fe < |code| ==> StartsWith(code, fe, "```"))
    ensures j == (if fe < |code| then fe + 3 else fe) <= |code|
    ensures Shows(out', ps', code, j) && ps' == ps + ClosingPieces(code, fe)
  {
    out', ps', j := out, ps, fe;
    if fe < |code| {
      out', ps' := Put(out, ps, code, fe, fe + 3, None);
      j := fe + 3;
    }
  }

  lemma FencePieces(code: string, ps: seq<Piece>, i: nat, fe: nat, rest: seq<BraceItem>)
    requires i + 4 <= fe <= |code|
    ensures ps + [Piece(None, code[i..i + 4])] + BracePieces(code[i + 4..fe], 0, rest) + ClosingPieces(code, fe)
         == ps + LispItemPieces(code, i, Fence(fe, rest))
  {
  }

  // ----- a source has one reading -----

  lemma SymbolRunsUnique(code: string, i: nat, j: nat, j': nat)
    ensures MaxRun(code, i, j, TypeChar) && MaxRun(code, i, j', TypeChar) ==> j == j'
    ensures MaxRun(code, i, j, LispNumberChar) && MaxRun(code, i, j', LispNumberChar) ==> j == j'
    ensures MaxRun(code, i, j, SymbolChar) && MaxRun(code, i, j', SymbolChar) ==> j == j'
    ensures MaxRun(code, i, j, KeywordChar) && MaxRun(code, i, j', KeywordChar) ==> j == j'
    ensures MaxRun(code, i, j, LetterOrDigit) && MaxRun(code, i, j', LetterOrDigit) ==> j == j'
  {
    forall p | p in {TypeChar, LispNumberChar, SymbolChar, KeywordChar, LetterOrDigit}
               && MaxRun(code, i, j, p) && MaxRun(code, i, j', p)
      ensures j == j'
    {
      MaxRunUnique(code, i, p, j, j');
    }
  }

  /** One lexeme stands at a place of a Lisp. */
  lemma LispLexemeUnique(code: string, spec: LispSpec, i: nat, cls: Option<Class>, j: nat,
                         cls': Option<Class>, j': nat)
    requires i < |code| && LispLexeme(code, spec, i, cls, j) && LispLexeme(code, spec, i, cls', j')
    ensures cls == cls' && j == j'
  {
    SymbolRunsUnique(code, i + 1, j, j');
  }

  lemma DatumFromUnique(s: string, spec: LispSpec, d: nat, j: nat, j': nat)
    requires DatumFrom(s, spec, d, j) && DatumFrom(s, spec, d, j')
    ensures j == j'
  {
    if d < |s| && s[d] in "([" {
      DatumEndUnique(s, d, j, j');
    } else {
      MaxRunUnique(s, d, NoDelim(spec), j, j');
    }
  }

  lemma DatumUnique(s: string, spec: LispSpec, i: nat, j: nat, j': nat)
    requires DatumAt(s, spec, i, j) && DatumAt(s, spec, i, j')
    ensures j == j'
  {
    var d: nat :| MaxRun(s, i + 2, d, DatumBlank) && DatumFrom(s, spec, d, j);
    var d': nat :| MaxRun(s, i + 2, d', DatumBlank) && DatumFrom(s, spec, d', j');
    MaxRunUnique(s, i + 2, DatumBlank, d, d');
    DatumFromUnique(s, spec, d, j, j');
  }

  lemma HashUnique(code: string, spec: LispSpec, i: nat, cls: Option<Class>, j: nat, cls': Option<Class>, j': nat)
    requires i < |code| && HashLexeme(code, spec, i, cls, j) && HashLexeme(code, spec, i, cls', j')
    ensures cls == cls' && j == j'
  {
    if code[i] == ';' {
    } else if spec.blockComment && StartsWith(code, i, "#|") {
      BlockEndUnique(code, i + 2, j, j');
    } else if spec.datumComment && StartsWith(code, i, "#;") {
      DatumUnique(code, spec, i, j, j');
    } else {
      SymbolRunsUnique(code, i + 3, j, j');
    }
  }

  lemma LispItemUnique(code: string, spec: LispSpec, cSpec: BraceSpec, i: nat, x: LispItem, y: LispItem)
    requires i < |code| && LispItemAt(code, spec, cSpec, i, x) && LispItemAt(code, spec, cSpec, i, y)
    ensures x == y
  {
    match (x, y) {
      case (Token(cls, j), Token(cls', j')) => TokenUnique(code, spec, i, cls, j, cls', j');
      case (Fence(fe, rest), Fence(fe', rest')) =>
        BraceReadsUnique(code[i + 4..fe], cSpec, 0, true, rest, rest');
      case (Vector(b), Vector(b')) => VectorUnique(code, spec, i, b, b');
      case _ =>
    }
  }

  lemma VectorUnique(code: string, spec: LispSpec, i: nat, b: nat, b': nat)
    requires VectorAt(code, spec, i, b) && VectorAt(code, spec, i, b')
    ensures b == b'
  {
    if StartsWith(code, i, "#(") { assert code[i..i + 2][1] == code[i + 1]; }
    if StartsWith(code, i, "#u8(") { assert code[i..i + 4][1] == code[i + 1]; }
  }

  lemma TokenUnique(code: string, spec: LispSpec, i: nat, cls: Option<Class>, j: nat, cls': Option<Class>, j': nat)
    requires i < |code| && TokenAt(code, spec, i, cls, j) && TokenAt(code, spec, i, cls', j')
    ensures cls == cls' && j == j'
  {
    if Hashed(code, spec, i) {
      HashUnique(code, spec, i, cls, j, cls', j');
    } else if spec.hashKeyword && StartsWith(code, i, "#:") {
      SymbolRunsUnique(code, i + 2, j, j');
    } else if code[i] == '"' {
      QuoteEndUnique(code, i + 1, '"', false, j, j');
    } else {
      LispLexemeUnique(code, spec, i, cls, j, cls', j');
    }
  }

  /** A source in a Lisp has one reading, so what is shown of it is fixed. */
  lemma LispReadsUnique(code: string, spec: LispSpec, cSpec: BraceSpec, a: seq<LispItem>, b: seq<LispItem>)
    requires LispReads(code, spec, cSpec, a) && LispReads(code, spec, cSpec, b)
    ensures a == b
  {
    var at := LispAt(code, spec, cSpec);
    forall i: nat, x, y | at(i, x) && at(i, y)
      ensures x == y
    {
      LispItemUnique(code, spec, cSpec, i, x, y);
    }
    ChainUnique(at, LispEnds(code), |code|, 0, a, b);
  }
}
