/** The trivia-preserving tokenizer of the spaced-types codemod
  * (tools/spaced-types-rewrite.py, lines 36-295). */
module Tokens {
  import opened Wrappers
  import opened Strings

  datatype Kind =
    | LParen | RParen | LBracket | RBracket | LBrace | RBrace | HashLBrace | DispatchLBrace
    | Quote | Quasiquote | Unquote | UnquoteSplice
    | StringLit | CharLit | CodeFence | Comment | Newline | Ws
    | Keyword | Symbol | Number | HashAtom | LangLine | Shebang

  /** Python's `str.isspace` and `str.isdigit`. */
  datatype CharClass = CharClass(space: char -> bool, digit: char -> bool)

  /** A token. Its kind never changes; its text, value and mark do. `source` is the slice
    * of the source it was read from. */
  class Tok {
    const kind: Kind
    ghost const source: string
    var text: string
    var value: Option<string>
    var rewritten: bool

    constructor (kind: Kind, text: string)
      ensures this.kind == kind && this.source == text && Untouched()
    {
      this.kind, this.source, this.text, this.rewritten := kind, text, text, false;
      this.value := if kind in {Symbol, Keyword, Number} then Some(text) else None;
    }

    ghost predicate Untouched()
      reads this
    {
      text == source && !rewritten && (kind == Symbol ==> value == Some(source))
    }
  }

  /** A fused annotation: a colon and at least one more character, not a blank. */
  predicate IsFused(s: string) { |s| >= 2 && s[0] == ':' && s[1] != ' ' }

  predicate AtomChar(cc: CharClass, c: char) {
    c !in "()[]{}\"`'~,;\\" && !cc.space(c)
  }

  // ----- the lexical grammar -----

  /** From `i` to `j`, and no further, there are atom characters only, */
  predicate AtomRun(cc: CharClass, src: string, i: nat, j: nat) {
    && i <= j <= |src| && (forall k | i <= k < j :: AtomChar(cc, src[k]))
    && (j < |src| ==> !AtomChar(cc, src[j]))
  }

  /** blanks of one line only, */
  predicate BlankRun(cc: CharClass, src: string, i: nat, j: nat) {
    && i <= j <= |src| && (forall k | i <= k < j :: src[k] != '\n' && cc.space(src[k]))
    && (j < |src| ==> src[j] == '\n' || !cc.space(src[j]))
  }

  /** or the rest of a line. */
  predicate LineRun(src: string, i: nat, j: nat) {
    && i <= j <= |src| && (forall k | i <= k < j :: src[k] != '\n')
    && (j < |src| ==> src[j] == '\n')
  }

  /** Past the closing fence of a code fence whose body starts at `i`. */
  function FenceStop(src: string, i: nat): nat
    requires i <= |src|
  {
    var close := Find(src, "```", i);
    if close == |src| then close else close + 3
  }

  predicate IsBracket(c: char) { c in "()[]{}" }

  function BracketKind(c: char): Kind
    requires IsBracket(c)
  {
    if c == '(' then LParen else if c == ')' then RParen
    else if c == '[' then LBracket else if c == ']' then RBracket
    else if c == '{' then LBrace else RBrace
  }

  predicate NumberStart(cc: CharClass, src: string, i: nat)
    requires i < |src|
  {
    cc.digit(src[i]) || (src[i] in "+-." && i + 1 < |src| && cc.digit(src[i + 1]))
  }

  predicate NumberLike(cc: CharClass, s: string) {
    && (exists k :: 0 <= k < |s| && cc.digit(s[k]))
    && (forall k | 0 <= k < |s| :: cc.digit(s[k]) || s[k] in "+-._eExX0123456789abcdefABCDEF")
  }

  /** `src[i..j]` is a lexeme of the kind, by its shape and what stands after it. */
  predicate Lexeme(cc: CharClass, src: string, i: nat, kind: Kind, j: nat)
    requires i < |src|
  {
    var c := src[i];
    match kind
    case Comment => c == ';' && LineRun(src, i + 1, j)
    case StringLit => c == '"' && i < j && QuoteEndsAt(src, i + 1, '"', false, j)
    case CharLit => c == '\\' && AtomRun(cc, src, if i + 1 < |src| then i + 2 else i + 1, j)
    case CodeFence => StartsWith(src, i, "```") && j == FenceStop(src, i + 3)
    case HashLBrace => StartsWith(src, i, "#{") && j == i + 2
    case DispatchLBrace =>
      c == '#' && i + 1 < j - 1 && AtomRun(cc, src, i + 1, j - 1) && j <= |src| && src[j - 1] == '{'
    case HashAtom => c == '#' && AtomRun(cc, src, i + 1, j) && (j < |src| ==> src[j] != '{')
    case Quote => c == '\'' && j == i + 1
    case Quasiquote => c == '`' && !StartsWith(src, i, "```") && j == i + 1
    case UnquoteSplice => c in "~," && i + 1 < |src| && src[i + 1] == '@' && j == i + 2
    case Unquote => c in "~," && !(i + 1 < |src| && src[i + 1] == '@') && j == i + 1
    case Keyword => c == ':' && i + 1 < j && AtomRun(cc, src, i + 1, j)
    case Number => Atom(cc, src, i, j) && c != ':' && NumberStart(cc, src, i) && NumberLike(cc, src[i..j])
    case Symbol =>
      && Atom(cc, src, i, j)
      && if c == ':' then j == i + 1 else !(NumberStart(cc, src, i) && NumberLike(cc, src[i..j]))
    case _ => IsBracket(c) && kind == BracketKind(c) && j == i + 1
  }

  predicate Atom(cc: CharClass, src: string, i: nat, j: nat)
    requires i < |src|
  {
    AtomChar(cc, src[i]) && src[i] != '#' && AtomRun(cc, src, i, j)
  }

  /** `src[i..j]` is the token at `i`: a shebang, a language line, a blank or a lexeme. */
  predicate Token(cc: CharClass, src: string, i: nat, lineStart: bool, kind: Kind, j: nat)
    requires i < |src|
  {
    if i == 0 && StartsWith(src, 0, "#!") then kind == Shebang && LineRun(src, i, j)
    else if lineStart && StartsWith(src, i, "#lang") then kind == LangLine && LineRun(src, i, j)
    else if src[i] == '\n' then kind == Newline && j == i + 1
    else if cc.space(src[i]) then kind == Ws && BlankRun(cc, src, i, j)
    else Lexeme(cc, src, i, kind, j)
  }

  /** Only blanks, comments and directives leave the start of a line where it is. */
  predicate StillStart(kind: Kind, lineStart: bool) {
    kind == Newline || (kind in {Ws, Comment, Shebang, LangLine} && lineStart)
  }

  lemma RunsEnd(cc: CharClass, src: string, i: nat, j: nat, j': nat)
    ensures AtomRun(cc, src, i, j) && AtomRun(cc, src, i, j') ==> j == j'
    ensures BlankRun(cc, src, i, j) && BlankRun(cc, src, i, j') ==> j == j'
    ensures LineRun(src, i, j) && LineRun(src, i, j') ==> j == j'
  {
  }

  /** The kinds of lexeme that begin with a character. */
  function KindsOf(c: char): set<Kind> {
    if c == ';' then {Comment} else if c == '"' then {StringLit} else if c == '\\' then {CharLit}
    else if c == '`' then {CodeFence, Quasiquote} else if c == '#' then {HashLBrace, DispatchLBrace, HashAtom}
    else if c == '\'' then {Quote} else if c in "~," then {UnquoteSplice, Unquote}
    else if IsBracket(c) then {BracketKind(c)} else if c == ':' then {Keyword, Symbol} else {Number, Symbol}
  }

  lemma KindOfFirst(cc: CharClass, src: string, i: nat, kind: Kind, j: nat)
    requires i < |src| && Lexeme(cc, src, i, kind, j)
    ensures kind in KindsOf(src[i])
  {
    FenceStarts(src, i);
  }

  lemma NotBothHash(cc: CharClass, src: string, i: nat, j: nat, j': nat)
    requires i < |src|
    ensures !(Lexeme(cc, src, i, DispatchLBrace, j) && Lexeme(cc, src, i, HashAtom, j'))
    ensures StartsWith(src, i, "#{") ==>
            !Lexeme(cc, src, i, DispatchLBrace, j) && !Lexeme(cc, src, i, HashAtom, j)
  {
    FenceStarts(src, i);
    if j > 0 { RunsEnd(cc, src, i + 1, j - 1, j'); }
  }

  lemma HashKind(cc: CharClass, src: string, i: nat, kind: Kind, j: nat, kind': Kind, j': nat)
    requires i < |src| && Lexeme(cc, src, i, kind, j) && Lexeme(cc, src, i, kind', j')
    requires {kind, kind'} <= {HashLBrace, DispatchLBrace, HashAtom}
    ensures kind == kind'
  {
    NotBothHash(cc, src, i, j, j');
    NotBothHash(cc, src, i, j', j);
  }

  lemma AtomKind(cc: CharClass, src: string, i: nat, kind: Kind, j: nat, kind': Kind, j': nat)
    requires i < |src| && Lexeme(cc, src, i, kind, j) && Lexeme(cc, src, i, kind', j')
    requires {kind, kind'} <= {Keyword, Number, Symbol}
    ensures kind == kind'
  {
    RunsEnd(cc, src, i, j, j');
  }

  lemma LexemeKind(cc: CharClass, src: string, i: nat, kind: Kind, j: nat, kind': Kind, j': nat)
    requires i < |src| && Lexeme(cc, src, i, kind, j) && Lexeme(cc, src, i, kind', j')
    ensures kind == kind'
  {
    KindOfFirst(cc, src, i, kind, j);
    KindOfFirst(cc, src, i, kind', j');
    if src[i] == '#' {
      HashKind(cc, src, i, kind, j, kind', j');
    } else if kind in {Keyword, Number, Symbol} {
      AtomKind(cc, src, i, kind, j, kind', j');
    }
  }

  lemma LexemeEnd(cc: CharClass, src: string, i: nat, kind: Kind, j: nat, j': nat)
    requires i < |src| && Lexeme(cc, src, i, kind, j) && Lexeme(cc, src, i, kind, j')
    ensures j == j'
  {
    RunsEnd(cc, src, i, j, j');
    RunsEnd(cc, src, i + 1, j, j');
    RunsEnd(cc, src, i + 2, j, j');
    if kind == DispatchLBrace { RunsEnd(cc, src, i + 1, j - 1, j' - 1); }
  }

  lemma FenceStarts(src: string, i: nat)
    requires i < |src|
    ensures StartsWith(src, i, "```") ==> src[i] == '`'
    ensures StartsWith(src, i, "#{") <==> i + 1 < |src| && src[i] == '#' && src[i + 1] == '{'
  {
    if StartsWith(src, i, "```") { assert src[i..i + 3][0] == src[i]; }
    if i + 2 <= |src| { assert src[i..i + 2] == [src[i], src[i + 1]]; }
  }

  lemma LexemeUnique(cc: CharClass, src: string, i: nat, kind: Kind, j: nat, kind': Kind, j': nat)
    requires i < |src| && Lexeme(cc, src, i, kind, j) && Lexeme(cc, src, i, kind', j')
    ensures kind == kind' && j == j'
  {
    LexemeKind(cc, src, i, kind, j, kind', j');
    LexemeEnd(cc, src, i, kind, j, j');
  }

  /** The grammar is unambiguous: a source has one token at each place. */
  lemma TokenUnique(cc: CharClass, src: string, i: nat, lineStart: bool, kind: Kind, j: nat, kind': Kind, j': nat)
    requires i < |src| && Token(cc, src, i, lineStart, kind, j) && Token(cc, src, i, lineStart, kind', j')
    ensures kind == kind' && j == j'
  {
    if (i == 0 && StartsWith(src, 0, "#!")) || (lineStart && StartsWith(src, i, "#lang"))
      || src[i] == '\n' || cc.space(src[i]) {
      RunsEnd(cc, src, i, j, j');
    } else {
      LexemeUnique(cc, src, i, kind, j, kind', j');
    }
  }

  // ----- the scanner -----

  /** The end of the run of atom characters at `i`. */
  method AtomEnd(cc: CharClass, src: string, i: nat) returns (j: nat)
    requires i <= |src|
    ensures AtomRun(cc, src, i, j)
  {
    j := i;
    while j < |src| && AtomChar(cc, src[j])
      invariant i <= j <= |src|
      invariant forall k | i <= k < j :: AtomChar(cc, src[k])
    {
      j := j + 1;
    }
  }

  method StringEnd(src: string, i: nat) returns (j: nat)
    requires i < |src|
    ensures i < j <= |src| && QuoteEndsAt(src, i + 1, '"', false, j)
  {
    QuoteStopIs(src, i + 1, '"', false);
    j := i + 1;
    while j < |src|
      invariant i < j <= |src|
      invariant QuoteStop(src, j, '"', false) == LiteralEnd(src, i + 1)
    {
      if src[j] == '\\' && j + 1 < |src| {
        j := j + 2;
        continue;
      }
      if src[j] == '"' { return j + 1; }
      j := j + 1;
    }
  }

  method LineEnd(src: string, i: nat) returns (j: nat)
    requires i <= |src|
    ensures LineRun(src, i, j)
  {
    j := i;
    while j < |src| && src[j] != '\n'
      invariant i <= j <= |src|
      invariant forall k | i <= k < j :: src[k] != '\n'
    {
      j := j + 1;
    }
  }

  method BlankEnd(cc: CharClass, src: string, i: nat) returns (j: nat)
    requires i <= |src|
    ensures BlankRun(cc, src, i, j)
  {
    j := i;
    while j < |src| && src[j] != '\n' && cc.space(src[j])
      invariant i <= j <= |src|
      invariant forall k | i <= k < j :: src[k] != '\n' && cc.space(src[k])
    {
      j := j + 1;
    }
  }

  method NumberOrSymbol(cc: CharClass, text: string) returns (kind: Kind)
    ensures kind == if NumberLike(cc, text) then Number else Symbol
  {
    var digits, all := false, true;
    for n := 0 to |text|
      invariant digits <==> exists k :: 0 <= k < n && cc.digit(text[k])
      invariant all <==> forall k | 0 <= k < n :: cc.digit(text[k]) || text[k] in "+-._eExX0123456789abcdefABCDEF"
    {
      if cc.digit(text[n]) { digits := true; }
      if !cc.digit(text[n]) && text[n] !in "+-._eExX0123456789abcdefABCDEF" { all := false; }
    }
    return if digits && all then Number else Symbol;
  }

  lemma FoundLine(src: string, i: nat)
    requires i < |src| && src[i] != '\n'
    ensures i < Find(src, "\n", i) && LineRun(src, i, Find(src, "\n", i))
  {
    var j := Find(src, "\n", i);
    StartsWithChar(src, i, '\n');
    StartsWithChar(src, j, '\n');
    forall k | i <= k < j
      ensures src[k] != '\n'
    {
      FindFirst(src, "\n", i, k);
      StartsWithChar(src, k, '\n');
    }
  }

  lemma StartsAt(src: string, i: nat, pat: string)
    requires StartsWith(src, i, pat) && pat != ""
    ensures src[i] == pat[0] && (|pat| > 1 ==> src[i + 1] == pat[1])
  {
    assert src[i..i + |pat|][0] == src[i];
    if |pat| > 1 { assert src[i..i + |pat|][1] == src[i + 1]; }
  }

  /** The token that begins with `#` at `i`. */
  method HashToken(cc: CharClass, src: string, i: nat) returns (kind: Kind, j: nat)
    requires i < |src| && src[i] == '#'
    ensures i < j <= |src| && Lexeme(cc, src, i, kind, j) && kind in {HashLBrace, DispatchLBrace, HashAtom}
  {
    if i + 1 < |src| && src[i + 1] == '{' {
      assert src[i..i + 2] == "#{";
      return HashLBrace, i + 2;
    }
    j := AtomEnd(cc, src, i + 1);
    if j < |src| && src[j] == '{' { return DispatchLBrace, j + 1; }
    return HashAtom, j;
  }

  /** The atom at `i`. */
  method AtomToken(cc: CharClass, src: string, i: nat) returns (kind: Kind, j: nat)
    requires i < |src| && AtomChar(cc, src[i]) && src[i] != '#' && src[i] != ':'
    ensures i < j <= |src| && Lexeme(cc, src, i, kind, j) && kind in {Number, Symbol}
  {
    j := AtomEnd(cc, src, i);
    kind := Symbol;
    if cc.digit(src[i]) || (src[i] in "+-." && i + 1 < |src| && cc.digit(src[i + 1])) {
      kind := NumberOrSymbol(cc, src[i..j]);
    }
  }

  /** The lexeme at `i`. */
  method ScanLexeme(cc: CharClass, src: string, i: nat) returns (kind: Kind, j: nat)
    requires i < |src| && !cc.space(src[i]) && cc.space(' ')
    ensures i < j <= |src| && Lexeme(cc, src, i, kind, j)
  {
    var c := src[i];
    if c == ';' {
      j := LineEnd(src, i + 1);
      return Comment, j;
    }
    if c == '"' {
      j := StringEnd(src, i);
      return StringLit, j;
    }
    if c == '\\' {
      j := AtomEnd(cc, src, if i + 1 < |src| then i + 2 else i + 1);
      return CharLit, j;
    }
    if StartsWith(src, i, "```") {
      var close := Find(src, "```", i + 3);
      return CodeFence, if close == |src| then close else close + 3;
    }
    if IsBracket(c) { return BracketKind(c), i + 1; }
    if c == '#' {
      kind, j := HashToken(cc, src, i);
      return;
    }
    if c == '\'' { return Quote, i + 1; }
    if c == '`' { return Quasiquote, i + 1; }
    if c == '~' || c == ',' {
      if i + 1 < |src| && src[i + 1] == '@' { return UnquoteSplice, i + 2; }
      return Unquote, i + 1;
    }
    // nothing else is a delimiter or a blank
    assert AtomChar(cc, c);
    if c == ':' {
      j := AtomEnd(cc, src, i + 1);
      return if j == i + 1 then Symbol else Keyword, j;
    }
    kind, j := AtomToken(cc, src, i);
  }

  /** The token at `i`, and whether only blanks stand before the next on its line. */
  method Scan(cc: CharClass, src: string, i: nat, lineStart: bool) returns (kind: Kind, j: nat, lineStart': bool)
    requires i < |src| && cc.space(' ')
    ensures i < j <= |src| && Token(cc, src, i, lineStart, kind, j)
    ensures lineStart' == StillStart(kind, lineStart)
  {
    var c := src[i];
    if i == 0 && StartsWith(src, 0, "#!") {
      StartsAt(src, 0, "#!");
      FoundLine(src, i);
      return Shebang, Find(src, "\n", i), lineStart;
    }
    if lineStart && StartsWith(src, i, "#lang") {
      StartsAt(src, i, "#lang");
      FoundLine(src, i);
      return LangLine, Find(src, "\n", i), lineStart;
    }
    if c == '\n' { return Newline, i + 1, true; }
    if cc.space(c) {
      j := BlankEnd(cc, src, i);
      return Ws, j, lineStart;
    }
    kind, j := ScanLexeme(cc, src, i);
    lineStart' := kind == Comment && lineStart;
  }

  /** A keyword is a fused annotation. */
  lemma KeywordIsFused(cc: CharClass, src: string, i: nat, lineStart: bool, j: nat)
    requires i < j <= |src| && Token(cc, src, i, lineStart, Keyword, j) && cc.space(' ')
    ensures IsFused(src[i..j])
  {
    assert AtomChar(cc, src[i + 1]);
  }

  ghost function Sources(toks: seq<Tok>): string {
    if toks == [] then "" else Sources(toks[..|toks| - 1]) + toks[|toks| - 1].source
  }

  predicate Distinct(toks: seq<Tok>) {
    forall i, j | 0 <= i < j < |toks| :: toks[i] != toks[j]
  }

  ghost predicate AllUntouched(toks: seq<Tok>)
    reads toks
  {
    forall t | t in toks :: t.Untouched() && (t.kind == Keyword ==> IsFused(t.source))
  }

  /** Whether only blanks stand before the next token on its line. */
  function StartsLine(toks: seq<Tok>): bool {
    toks == [] || StillStart(toks[|toks| - 1].kind, StartsLine(toks[..|toks| - 1]))
  }

  /** The last token of a reading, at the end of what was read before it. */
  ghost predicate LastToken(cc: CharClass, src: string, i: nat, lineStart: bool, t: Tok, j: nat) {
    i < j <= |src| && t.source == src[i..j] && Token(cc, src, i, lineStart, t.kind, j)
  }

  /** The tokens are those of the grammar, read from the left. */
  ghost predicate Lexed(cc: CharClass, src: string, toks: seq<Tok>) {
    toks == [] ||
    (var init, t := toks[..|toks| - 1], toks[|toks| - 1];
     Lexed(cc, src, init) && LastToken(cc, src, |Sources(init)|, StartsLine(init), t, |Sources(toks)|))
  }

  lemma {:induction false} LexedPrefix(cc: CharClass, src: string, toks: seq<Tok>, n: nat)
    requires Lexed(cc, src, toks) && n <= |toks|
    ensures Lexed(cc, src, toks[..n]) && (n < |toks| ==> |Sources(toks[..n])| < |src|)
    decreases |toks|
  {
    if n == |toks| {
      assert toks[..n] == toks;
    } else {
      var init := toks[..|toks| - 1];
      assert init[..n] == toks[..n];
      if n < |init| {
        LexedPrefix(cc, src, init, n);
      } else {
        assert toks[..n] == init;
      }
    }
  }

  /** Tokens of the same kinds and the same texts. */
  ghost predicate SameTokens(a: seq<Tok>, b: seq<Tok>) {
    |a| == |b| &&
    (a == [] ||
     (var n := |a| - 1;
      SameTokens(a[..n], b[..n]) && a[n].kind == b[n].kind && a[n].source == b[n].source))
  }

  lemma LastUnique(cc: CharClass, src: string, i: nat, ls: bool, t: Tok, j: nat, i': nat, ls': bool, t': Tok, j': nat)
    requires i == i' && ls == ls' && LastToken(cc, src, i, ls, t, j) && LastToken(cc, src, i', ls', t', j')
    ensures t.kind == t'.kind && t.source == t'.source
  {
    TokenUnique(cc, src, i, ls, t.kind, j, t'.kind, j');
  }

  lemma {:induction false} SameReading(cc: CharClass, src: string, a: seq<Tok>, b: seq<Tok>)
    requires Lexed(cc, src, a) && Lexed(cc, src, b) && |a| == |b|
    ensures Sources(a) == Sources(b) && StartsLine(a) == StartsLine(b)
    ensures SameTokens(a, b)
  {
    if a != [] {
      var a', b', t, t' := a[..|a| - 1], b[..|b| - 1], a[|a| - 1], b[|b| - 1];
      SameReading(cc, src, a', b');
      LastUnique(cc, src, |Sources(a')|, StartsLine(a'), t, |Sources(a)|,
                 |Sources(b')|, StartsLine(b'), t', |Sources(b)|);
    }
  }

  lemma ShorterUnique(cc: CharClass, src: string, a: seq<Tok>, b: seq<Tok>)
    requires Lexed(cc, src, a) && Sources(a) == src && Lexed(cc, src, b) && |a| <= |b|
    ensures SameTokens(a, b)
  {
    var c := b[..|a|];
    LexedPrefix(cc, src, b, |a|);
    SameReading(cc, src, a, c);
    assert |a| == |b| && c == b;
  }

  /** A source has one token sequence: any two readings of all of it are the same. */
  lemma LexedUnique(cc: CharClass, src: string, a: seq<Tok>, b: seq<Tok>)
    requires Lexed(cc, src, a) && Sources(a) == src && Lexed(cc, src, b) && Sources(b) == src
    ensures SameTokens(a, b)
  {
    if |a| <= |b| {
      ShorterUnique(cc, src, a, b);
    } else {
      ShorterUnique(cc, src, b, a);
    }
  }

  /** Tokenizing ends, and the tokens are the source, cut up by the grammar. */
  method Tokenize(cc: CharClass, src: string) returns (toks: seq<Tok>)
    requires cc.space(' ')
    ensures fresh(toks) && Distinct(toks) && AllUntouched(toks)
    ensures Sources(toks) == src && Lexed(cc, src, toks)
  {
    toks := [];
    var i, lineStart := 0, true;
    while i < |src|
      invariant 0 <= i <= |src|
      invariant fresh(toks) && Distinct(toks) && AllUntouched(toks)
      invariant Sources(toks) == src[..i] && Lexed(cc, src, toks) && lineStart == StartsLine(toks)
    {
      var kind, j, ls := Scan(cc, src, i, lineStart);
      var t := new Tok(kind, src[i..j]);
      if kind == Keyword { KeywordIsFused(cc, src, i, lineStart, j); }
      assert src[..j] == src[..i] + src[i..j];
      assert (toks + [t])[..|toks|] == toks;
      toks, i, lineStart := toks + [t], j, ls;
    }
    assert src[..i] == src;
  }
}
