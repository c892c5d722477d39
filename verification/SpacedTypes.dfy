/** The spaced-types rewriter: walks the form tree and rewrites, in place, the fused
  * annotation of every type slot (tools/spaced-types-rewrite.py, lines 387-762 and 787-887). */
module SpacedTypes {
  import opened Wrappers
  import opened Strings
  import opened Tokens
  import opened Forms
  import opened TypeSlots
  import opened SlotGrammar

  /** `:foo` as `: foo`. */
  function Spaced(s: string): string
    requires s != ""
  {
    ": " + s[1..]
  }

  // ----- the state of a rewrite -----

  /** The token is as it was read, or is a fused annotation rewritten once. */
  ghost predicate GoodTok(t: Tok)
    reads t
  {
    && (t.kind == Keyword ==> IsFused(t.source))
    && (t.kind == Symbol ==> t.value == Some(t.source))
    && (if t.rewritten then t.kind == Keyword && t.text == Spaced(t.source) else t.text == t.source)
  }

  /** All tokens are good, and those rewritten are the marked ones. */
  ghost predicate AllGood(all: seq<Tok>, marked: set<Tok>)
    reads all
  {
    all == [] || (GoodTok(all[0]) && (all[0].rewritten <==> all[0] in marked) && AllGood(all[1..], marked))
  }

  lemma {:induction false} GoodAt(all: seq<Tok>, marked: set<Tok>, t: Tok)
    requires AllGood(all, marked) && t in all
    ensures GoodTok(t) && (t.rewritten <==> t in marked)
  {
    if all[0] != t { GoodAt(all[1..], marked, t); }
  }

  lemma {:induction false} GoodFrom(all: seq<Tok>, marked: set<Tok>)
    requires forall i | 0 <= i < |all| :: GoodTok(all[i]) && (all[i].rewritten <==> all[i] in marked)
    ensures AllGood(all, marked)
  {
    if all != [] { GoodFrom(all[1..], marked); }
  }

  /** The rewrite counter, with the tokens of the file and those rewritten so far. */
  class Stats {
    var rewrites: int
    ghost const all: seq<Tok>
    ghost var marked: set<Tok>

    constructor (ghost all: seq<Tok>)
      requires AllGood(all, {})
      ensures this.all == all && marked == {} && Valid() && rewrites == 0
    {
      this.rewrites, this.all, this.marked := 0, all, {};
    }

    /** Every token is good, and the count is the number of tokens rewritten. */
    ghost predicate Valid()
      reads this, all
    {
      AllGood(all, marked) && rewrites == |marked|
    }
  }

  /** The leaves of the nodes are among `all`. */
  ghost predicate Within(ns: seq<Node>, all: seq<Tok>)
    decreases ns, 1
  {
    ns == [] || (NodeWithin(ns[0], all) && Within(ns[1..], all))
  }

  ghost predicate NodeWithin(n: Node, all: seq<Tok>)
    decreases n, 0
  {
    match n
    case Leaf(t) => t in all
    case Form(_, _, children) => Within(children, all)
  }

  lemma {:induction false} WithinAt(ns: seq<Node>, all: seq<Tok>, i: nat)
    requires Within(ns, all) && i < |ns|
    ensures NodeWithin(ns[i], all)
  {
    if i > 0 { WithinAt(ns[1..], all, i - 1); }
  }

  lemma {:induction false} WithinCode(ns: seq<Node>, all: seq<Tok>)
    requires Within(ns, all)
    ensures Within(Code(ns), all) && Within(NonTrivia(ns), all)
  {
    if ns != [] {
      var c, t := Code(ns[1..]), NonTrivia(ns[1..]);
      WithinCode(ns[1..], all);
      assert ([ns[0]] + c)[1..] == c && [] + c == c;
      assert ([ns[0]] + t)[1..] == t && [] + t == t;
    }
  }

  lemma CodeWithin(ns: seq<Node>, all: seq<Tok>, i: nat)
    requires Within(ns, all) && i < |ns| && ns[i].Form?
    ensures Within(Code(ns[i].children), all)
  {
    WithinAt(ns, all, i);
    WithinCode(ns[i].children, all);
  }

  lemma UnionAssoc(a: set<Tok>, b: set<Tok>, c: set<Tok>)
    ensures a + b + c == a + (b + c)
  {
  }

  // ----- one token -----

  /** Rewrite a keyword not yet rewritten; whether it was. */
  method RewriteKeywordToken(t: Tok) returns (changed: bool)
    requires GoodTok(t)
    modifies t
    ensures changed == (t.kind == Keyword && !old(t.rewritten))
    ensures GoodTok(t) && t.rewritten == (old(t.rewritten) || t.kind == Keyword)
  {
    if t.kind != Keyword || |t.text| < 2 || t.text[0] != ':' { return false; }
    if t.text[..2] == ": " { return false; }
    if t.rewritten { return false; }
    t.text := ": " + t.text[1..];
    t.value := Some(t.text);
    t.rewritten := true;
    return true;
  }

  /** Rewrite and count a fused annotation. */
  method MarkToken(t: Tok, stats: Stats)
    requires stats.Valid() && t in stats.all && t.kind == Keyword
    modifies stats, t
    ensures stats.Valid() && stats.marked == old(stats.marked) + {t}
  {
    ghost var all, marked := stats.all, stats.marked;
    forall i | 0 <= i < |all|
      ensures GoodTok(all[i]) && (all[i].rewritten <==> all[i] in marked)
    {
      GoodAt(all, marked, all[i]);
    }
    var changed := RewriteKeywordToken(t);
    if changed {
      stats.rewrites := stats.rewrites + 1;
    }
    stats.marked := marked + {t};
    GoodFrom(all, stats.marked);
  }

  /** Rewrite and count the token at `i` of `items` if it is a fused annotation. */
  method RewriteSlot(items: seq<Node>, i: nat, stats: Stats)
    requires Within(items, stats.all) && stats.Valid()
    modifies stats, stats.all
    ensures stats.Valid() && stats.marked == old(stats.marked) + Slot(items, i)
  {
    if i < |items| && items[i].Leaf? && items[i].tok.kind == Keyword {
      WithinAt(items, stats.all, i);
      MarkToken(items[i].tok, stats);
    }
  }

  // ----- reading nodes -----

  method IsSymbol(items: seq<Node>, i: nat, name: string, stats: Stats) returns (b: bool)
    requires i < |items| && Within(items, stats.all) && stats.Valid()
    ensures b <==> SymIs(items[i], name)
  {
    WithinAt(items, stats.all, i);
    if items[i].Leaf? { GoodAt(stats.all, stats.marked, items[i].tok); }
    b := items[i].Leaf? && items[i].tok.kind == Symbol && items[i].tok.value == Some(name);
  }

  method IsCaret(items: seq<Node>, i: nat, stats: Stats) returns (b: bool)
    requires i < |items| && Within(items, stats.all) && stats.Valid()
    ensures b <==> Caret(items[i])
  {
    WithinAt(items, stats.all, i);
    if items[i].Leaf? { GoodAt(stats.all, stats.marked, items[i].tok); }
    b := items[i].Leaf? && items[i].tok.kind == Symbol && items[i].tok.value.Some?
         && items[i].tok.value.value != "" && items[i].tok.value.value[0] == '^';
  }

  method IsHeaded(code: seq<Node>, i: nat, names: set<string>, stats: Stats) returns (b: bool)
    requires Within(code, stats.all) && stats.Valid()
    ensures b <==> i < |code| && SymIn(code[i], names)
  {
    if i >= |code| { return false; }
    WithinAt(code, stats.all, i);
    if code[i].Leaf? { GoodAt(stats.all, stats.marked, code[i].tok); }
    b := code[i].Leaf? && code[i].tok.kind == Symbol && code[i].tok.value.Some? && code[i].tok.value.value in names;
  }

  // ----- vectors -----

  /** Rewrite the annotation at `i`, if there is one, and step past it. */
  method TakeAnnotation(items: seq<Node>, i: nat, stats: Stats) returns (j: nat)
    requires Within(items, stats.all) && stats.Valid()
    modifies stats, stats.all
    ensures j == AfterAnnotation(items, i)
    ensures stats.Valid() && stats.marked == old(stats.marked) + Slot(items, i)
  {
    if i >= |items| { return i; }
    if Kw(items[i]) {
      RewriteSlot(items, i, stats);
      return i + 1;
    }
    var colon := IsSymbol(items, i, ":", stats);
    if colon { return if i + 1 < |items| then i + 2 else i + 1; }
    return if Paren(items[i]) || HashBrace(items[i]) then i + 1 else i;
  }

  /** Where the rest parameter at `i` leads, its annotation at `a`. */
  lemma RestSplit(items: seq<Node>, i: nat, a: nat, marked: set<Tok>)
    requires i < |items| && !Caret(items[i]) && SymIs(items[i], "&") && a == Min(i + 2, |items|)
    ensures marked + ParamSlots(items, i) ==
            if a < |items| && Kw(items[a]) then marked + Slot(items, a) + ParamSlots(items, a + 1)
            else if a < |items| && SymIs(items[a], ":") then marked + ParamSlots(items, a + 2)
            else marked + ParamSlots(items, a)
  {
    UnionAssoc(marked, Slot(items, a), ParamSlots(items, a + 1));
  }

  /** The `&` of the rest parameter at `i`, its name and its annotation. */
  method TakeRest(items: seq<Node>, i: nat, stats: Stats) returns (j: nat)
    requires i < |items| && !Caret(items[i]) && SymIs(items[i], "&")
    requires Within(items, stats.all) && stats.Valid()
    modifies stats, stats.all
    ensures i < j && stats.Valid()
    ensures stats.marked + ParamSlots(items, j) == old(stats.marked) + ParamSlots(items, i)
  {
    j := i + 1;
    if j < |items| { j := j + 1; }
    RestSplit(items, i, j, stats.marked);
    if j < |items| {
      if Kw(items[j]) {
        RewriteSlot(items, j, stats);
        return j + 1;
      }
      var colon := IsSymbol(items, j, ":", stats);
      if colon { j := j + 2; }
    }
  }

  lemma ParamSplit(items: seq<Node>, i: nat, marked: set<Tok>)
    requires i < |items| && Sym(items[i]) && !Caret(items[i]) && !SymIs(items[i], "&")
    ensures marked + Slot(items, i + 1) + ParamSlots(items, AfterAnnotation(items, i + 1))
            == marked + ParamSlots(items, i)
  {
    UnionAssoc(marked, Slot(items, i + 1), ParamSlots(items, AfterAnnotation(items, i + 1)));
  }

  /** The parameter named at `i`, with its annotation. */
  method TakeNamed(items: seq<Node>, i: nat, stats: Stats) returns (j: nat)
    requires i < |items| && Sym(items[i]) && !Caret(items[i]) && !SymIs(items[i], "&")
    requires Within(items, stats.all) && stats.Valid()
    modifies stats, stats.all
    ensures i < j && stats.Valid()
    ensures stats.marked + ParamSlots(items, j) == old(stats.marked) + ParamSlots(items, i)
  {
    ParamSplit(items, i, stats.marked);
    j := TakeAnnotation(items, i + 1, stats);
  }

  lemma NoParam(items: seq<Node>, i: nat)
    requires i < |items| && (Caret(items[i]) || !Sym(items[i]))
    ensures ParamSlots(items, i) == ParamSlots(items, i + 1)
  {
  }

  /** One item of a parameter vector. */
  method TakeParam(items: seq<Node>, i: nat, stats: Stats) returns (j: nat)
    requires i < |items| && Within(items, stats.all) && stats.Valid()
    modifies stats, stats.all
    ensures i < j && stats.Valid()
    ensures stats.marked + ParamSlots(items, j) == old(stats.marked) + ParamSlots(items, i)
  {
    var caret := IsCaret(items, i, stats);
    if caret || !Sym(items[i]) {
      NoParam(items, i);
      return i + 1;
    }
    var rest := IsSymbol(items, i, "&", stats);
    if rest {
      j := TakeRest(items, i, stats);
    } else {
      j := TakeNamed(items, i, stats);
    }
  }

  method RewriteParamVec(vec: Node, stats: Stats)
    requires vec.Form? && Within(vec.children, stats.all) && stats.Valid()
    modifies stats, stats.all
    ensures stats.Valid() && stats.marked == old(stats.marked) + ParamSlots(Code(vec.children), 0)
  {
    var items := Code(vec.children);
    WithinCode(vec.children, stats.all);
    var ci := 0;
    while ci < |items|
      invariant stats.Valid()
      invariant stats.marked + ParamSlots(items, ci) == old(stats.marked) + ParamSlots(items, 0)
      decreases |items| - ci
    {
      ci := TakeParam(items, ci, stats);
    }
  }

  method RewriteStructFieldVec(vec: Node, stats: Stats)
    requires vec.Form? && Within(vec.children, stats.all) && stats.Valid()
    modifies stats, stats.all
    ensures stats.Valid() && stats.marked == old(stats.marked) + FieldSlots(Code(vec.children), 0)
  {
    var items := Code(vec.children);
    WithinCode(vec.children, stats.all);
    var ci := 0;
    while ci < |items|
      invariant stats.Valid()
      invariant stats.marked + FieldSlots(items, ci) == old(stats.marked) + FieldSlots(items, 0)
      decreases |items| - ci
    {
      if Sym(items[ci]) {
        UnionAssoc(stats.marked, Slot(items, ci + 1), FieldSlots(items, AfterAnnotation(items, ci + 1)));
        ci := TakeAnnotation(items, ci + 1, stats);
        continue;
      }
      ci := ci + 1;
    }
  }

  /** The annotation of the binding whose name stands before `i`; where its value is. */
  method TakeBindingType(items: seq<Node>, i: nat, stats: Stats) returns (j: nat)
    requires 0 < i && Within(items, stats.all) && stats.Valid()
    modifies stats, stats.all
    ensures j == AfterSpaced(items, AfterFused(items, i)) && stats.Valid()
    ensures stats.marked == old(stats.marked) + (if i + 1 < |items| then Slot(items, i) else {})
  {
    j := i;
    if j + 1 < |items| && Kw(items[j]) {
      RewriteSlot(items, j, stats);
      j := j + 1;
    }
    if j + 1 < |items| {
      var colon := IsSymbol(items, j, ":", stats);
      if colon { j := j + 2; }
    }
  }

  /** Walk the form at `i`, if there is one. */
  method WalkAt(items: seq<Node>, i: nat, stats: Stats, quoted: bool)
    requires Within(items, stats.all) && stats.Valid()
    modifies stats, stats.all
    ensures stats.Valid() && stats.marked == old(stats.marked) + WalkedAt(items, i, quoted)
    decreases Weights(items), 1
  {
    if i < |items| && items[i].Form? {
      WithinAt(items, stats.all, i);
      WeightAt(items, i);
      WalkForm(items[i], stats, quoted);
    }
  }

  /** The slots of a binding whose name stands before `i`, and past its value. */
  ghost function BoundSlots(items: seq<Node>, i: nat, quoted: bool): set<Tok> {
    (if i + 1 < |items| then Slot(items, i) else {}) + WalkedAt(items, AfterSpaced(items, AfterFused(items, i)), quoted)
  }

  ghost function AfterBound(items: seq<Node>, i: nat): nat { AfterSpaced(items, AfterFused(items, i)) + 1 }

  lemma BindingSplit(items: seq<Node>, i: nat, quoted: bool, marked: set<Tok>)
    requires i < |items| && Sym(items[i]) && !Caret(items[i])
    ensures marked + BoundSlots(items, i + 1, quoted) + LetSlots(items, AfterBound(items, i + 1), quoted)
            == marked + LetSlots(items, i, quoted)
  {
    UnionAssoc(marked, BoundSlots(items, i + 1, quoted), LetSlots(items, AfterBound(items, i + 1), quoted));
  }

  lemma NoBinding(items: seq<Node>, i: nat, quoted: bool)
    requires i < |items| && (Caret(items[i]) || !Sym(items[i]))
    ensures LetSlots(items, i, quoted) == LetSlots(items, i + 1, quoted)
  {
  }

  /** One binding, from past its name on. */
  method TakeBound(items: seq<Node>, i: nat, stats: Stats, quoted: bool) returns (j: nat)
    requires 0 < i && Within(items, stats.all) && stats.Valid()
    modifies stats, stats.all
    ensures i < j == AfterBound(items, i) && stats.Valid()
    ensures stats.marked == old(stats.marked) + BoundSlots(items, i, quoted)
    decreases Weights(items), 2
  {
    j := TakeBindingType(items, i, stats);
    UnionAssoc(old(stats.marked), if i + 1 < |items| then Slot(items, i) else {}, WalkedAt(items, j, quoted));
    WalkAt(items, j, stats, quoted);
    j := j + 1;
  }

  /** One item of a binding vector. */
  method TakeBinding(items: seq<Node>, i: nat, stats: Stats, quoted: bool) returns (j: nat)
    requires i < |items| && Within(items, stats.all) && stats.Valid()
    modifies stats, stats.all
    ensures i < j && stats.Valid()
    ensures stats.marked + LetSlots(items, j, quoted) == old(stats.marked) + LetSlots(items, i, quoted)
    decreases Weights(items), 3
  {
    var caret := IsCaret(items, i, stats);
    if caret || !Sym(items[i]) {
      NoBinding(items, i, quoted);
      return i + 1;
    }
    BindingSplit(items, i, quoted, stats.marked);
    j := TakeBound(items, i + 1, stats, quoted);
  }

  method RewriteLetBindingVec(vec: Node, stats: Stats, quoted: bool)
    requires vec.Form? && Within(vec.children, stats.all) && stats.Valid()
    modifies stats, stats.all
    ensures stats.Valid() && stats.marked == old(stats.marked) + LetSlots(Code(vec.children), 0, quoted)
    decreases Weights(Code(vec.children)), 4
  {
    var items := Code(vec.children);
    WithinCode(vec.children, stats.all);
    var ci := 0;
    while ci < |items|
      invariant stats.Valid()
      invariant stats.marked + LetSlots(items, ci, quoted) == old(stats.marked) + LetSlots(items, 0, quoted)
      decreases |items| - ci
    {
      ci := TakeBinding(items, ci, stats, quoted);
    }
  }

  // ----- forms -----

  method SkipEffects(code: seq<Node>, i: nat) returns (j: nat)
    ensures j == SkipHash(code, i)
  {
    j := i;
    while j < |code| && HashBrace(code[j])
      invariant SkipHash(code, j) == SkipHash(code, i)
      decreases |code| - j
    {
      j := j + 1;
    }
  }

  /** Rewrite the return annotation at `i`, if there is one, and step past it. */
  method TakeReturn(code: seq<Node>, i: nat, stats: Stats) returns (j: nat)
    requires Within(code, stats.all) && stats.Valid()
    modifies stats, stats.all
    ensures j == AfterReturn(code, i)
    ensures stats.Valid() && stats.marked == old(stats.marked) + Slot(code, i)
  {
    if i >= |code| { return i; }
    if Kw(code[i]) {
      RewriteSlot(code, i, stats);
      return i + 1;
    }
    var colon := IsSymbol(code, i, ":", stats);
    if colon { return if i + 1 < |code| then i + 2 else i + 1; }
    return i;
  }

  /** Rewrite the parameter vector at `i`, if there is one, and step past it. */
  method TakeParams(code: seq<Node>, i: nat, stats: Stats) returns (j: nat)
    requires Within(code, stats.all) && stats.Valid()
    modifies stats, stats.all
    ensures j == AfterVec(code, i)
    ensures stats.Valid() && stats.marked == old(stats.marked) + VecSlots(code, i)
  {
    if i < |code| && Bracket(code[i]) {
      WithinAt(code, stats.all, i);
      RewriteParamVec(code[i], stats);
      return i + 1;
    }
    return i;
  }

  /** Walk the forms from `i` on. */
  method WalkBody(code: seq<Node>, i: nat, stats: Stats, quoted: bool)
    requires Within(code, stats.all) && stats.Valid()
    modifies stats, stats.all
    ensures stats.Valid() && stats.marked == old(stats.marked) + BodySlots(code, i, quoted)
    decreases Weights(code), 2
  {
    var idx := i;
    while idx < |code|
      invariant stats.Valid()
      invariant stats.marked + BodySlots(code, idx, quoted) == old(stats.marked) + BodySlots(code, i, quoted)
      decreases |code| - idx
    {
      UnionAssoc(stats.marked, WalkedAt(code, idx, quoted), BodySlots(code, idx + 1, quoted));
      WalkAt(code, idx, stats, quoted);
      idx := idx + 1;
    }
  }

  lemma SigSplit(code: seq<Node>, i: nat, quoted: bool, marked: set<Tok>)
    ensures var r := SkipHash(code, AfterVec(code, i));
            marked + VecSlots(code, i) + Slot(code, r) + BodySlots(code, AfterReturn(code, r), quoted)
            == marked + SigSlots(code, i, quoted)
  {
    var r := SkipHash(code, AfterVec(code, i));
    var v, s, b := VecSlots(code, i), Slot(code, r), BodySlots(code, AfterReturn(code, r), quoted);
    UnionAssoc(marked, v, s);
    UnionAssoc(marked, v + s, b);
  }

  /** Parameters, effects, return annotation and body, from `i` on: the shared shape of
    * definitions, functions and methods. */
  method RewriteSignature(code: seq<Node>, i: nat, stats: Stats, quoted: bool)
    requires Within(code, stats.all) && stats.Valid()
    modifies stats, stats.all
    ensures stats.Valid() && stats.marked == old(stats.marked) + SigSlots(code, i, quoted)
    decreases Weights(code), 3
  {
    SigSplit(code, i, quoted, stats.marked);
    var idx := TakeParams(code, i, stats);
    idx := SkipEffects(code, idx);
    idx := TakeReturn(code, idx, stats);
    WalkBody(code, idx, stats, quoted);
  }

  lemma StructSplit(code: seq<Node>, quoted: bool, marked: set<Tok>)
    ensures var i := FirstBracket(code, Min(2, |code|));
            marked + StructSlots(code, quoted) ==
            if i < |code| then marked + FieldSlots(Code(code[i].children), 0) + BodySlots(code, i + 1, quoted)
            else marked
  {
    var i := FirstBracket(code, Min(2, |code|));
    if i < |code| {
      UnionAssoc(marked, FieldSlots(Code(code[i].children), 0), BodySlots(code, i + 1, quoted));
    }
  }

  method RewriteDefstruct(code: seq<Node>, stats: Stats, quoted: bool)
    requires Within(code, stats.all) && stats.Valid()
    modifies stats, stats.all
    ensures stats.Valid() && stats.marked == old(stats.marked) + StructSlots(code, quoted)
    decreases Weights(code), 3
  {
    StructSplit(code, quoted, stats.marked);
    var idx := FirstBracket(code, Min(2, |code|));
    if idx < |code| {
      WithinAt(code, stats.all, idx);
      RewriteStructFieldVec(code[idx], stats);
      WalkBody(code, idx + 1, stats, quoted);
    }
  }

  /** Rewrite the binding vector at `i`, if there is one, and step past it. */
  method TakeBindings(code: seq<Node>, i: nat, stats: Stats, quoted: bool) returns (j: nat)
    requires Within(code, stats.all) && stats.Valid()
    modifies stats, stats.all
    ensures j == AfterVec(code, i)
    ensures stats.Valid() && stats.marked == old(stats.marked) + BindingSlots(code, i, quoted)
    decreases Weights(code), 0
  {
    if i < |code| && Bracket(code[i]) {
      WithinAt(code, stats.all, i);
      CodeOf(code, i);
      RewriteLetBindingVec(code[i], stats, quoted);
      return i + 1;
    }
    return i;
  }

  lemma LetSplit(code: seq<Node>, quoted: bool, marked: set<Tok>)
    ensures var i := LetStart(code);
            marked + BindingSlots(code, i, quoted) + BodySlots(code, AfterVec(code, i), quoted)
            == marked + LetFormSlots(code, quoted)
  {
    var i := LetStart(code);
    UnionAssoc(marked, BindingSlots(code, i, quoted), BodySlots(code, AfterVec(code, i), quoted));
  }

  method RewriteLetLike(code: seq<Node>, stats: Stats, quoted: bool)
    requires Within(code, stats.all) && stats.Valid()
    modifies stats, stats.all
    ensures stats.Valid() && stats.marked == old(stats.marked) + LetFormSlots(code, quoted)
    decreases Weights(code), 3
  {
    LetSplit(code, quoted, stats.marked);
    var idx := 1;
    if idx < |code| && Sym(code[idx]) { idx := idx + 1; }
    idx := TakeBindings(code, idx, stats, quoted);
    WalkBody(code, idx, stats, quoted);
  }

  /** The member of a class or an instance at `k`. */
  method TakeMember(children: seq<Node>, k: nat, stats: Stats, quoted: bool)
    requires k < |children| && Within(children, stats.all) && stats.Valid()
    modifies stats, stats.all
    ensures stats.Valid() && stats.marked == old(stats.marked) + MethodSlots(children, k, quoted)
    decreases Weights(children), 2
  {
    if Paren(children[k]) {
      CodeOf(children, k);
      CodeWithin(children, stats.all, k);
      var code := Code(children[k].children);
      if code != [] { RewriteSignature(code, 1, stats, quoted); }
    } else {
      WalkAt(children, k, stats, quoted);
    }
  }

  method RewriteClassOrInstance(children: seq<Node>, stats: Stats, quoted: bool)
    requires Within(children, stats.all) && stats.Valid()
    modifies stats, stats.all
    ensures stats.Valid() && stats.marked == old(stats.marked) + ClassSlots(children, 0, quoted)
    decreases Weights(children), 3
  {
    var k := 0;
    while k < |children|
      invariant stats.Valid()
      invariant stats.marked + ClassSlots(children, k, quoted) == old(stats.marked) + ClassSlots(children, 0, quoted)
      decreases |children| - k
    {
      UnionAssoc(stats.marked, MethodSlots(children, k, quoted), ClassSlots(children, k + 1, quoted));
      TakeMember(children, k, stats, quoted);
      k := k + 1;
    }
  }

  /** What the head symbol of a list, if it has one, makes of it. */
  method HeadOf(code: seq<Node>, stats: Stats) returns (h: Head)
    requires Within(code, stats.all) && stats.Valid()
    ensures h == HeadKind(code)
    ensures h == QuoteHead <==> Headed(code, QUOTE_HEADS)
    ensures h == DefnHead <==> Headed(code, DEFN_HEADS)
    ensures h == FnHead <==> Headed(code, FN_HEADS)
    ensures h == StructHead <==> Headed(code, STRUCT_HEADS)
    ensures h == LetHead <==> Headed(code, LET_HEADS)
    ensures h == ClassHead <==> Headed(code, CLASS_HEADS)
  {
    h := OtherHead;
    var b := IsHeaded(code, 0, QUOTE_HEADS, stats);
    if b { return QuoteHead; }
    b := IsHeaded(code, 0, DEFN_HEADS, stats);
    if b { return DefnHead; }
    b := IsHeaded(code, 0, FN_HEADS, stats);
    if b { return FnHead; }
    b := IsHeaded(code, 0, STRUCT_HEADS, stats);
    if b { return StructHead; }
    b := IsHeaded(code, 0, LET_HEADS, stats);
    if b { return LetHead; }
    b := IsHeaded(code, 0, CLASS_HEADS, stats);
    if b { return ClassHead; }
  }

  method WalkForm(form: Node, stats: Stats, quoted: bool)
    requires form.Form? && NodeWithin(form, stats.all) && stats.Valid()
    modifies stats, stats.all
    ensures stats.Valid() && stats.marked == old(stats.marked) + WalkSlots(form, quoted)
    decreases Weight(form), 0
  {
    if HashBrace(form) || DispatchBrace(form) { return; }
    CodeWeight(form.children);
    WithinCode(form.children, stats.all);
    if Paren(form) {
      var code := Code(form.children);
      var head := HeadOf(code, stats);
      match head {
        case QuoteHead =>
          if !quoted { return; }
        case DefnHead =>
          RewriteSignature(code, FirstBracket(code, Min(2, |code|)), stats, quoted);
          return;
        case FnHead =>
          RewriteSignature(code, 1, stats, quoted);
          return;
        case StructHead =>
          RewriteDefstruct(code, stats, quoted);
          return;
        case LetHead =>
          RewriteLetLike(code, stats, quoted);
          return;
        case ClassHead =>
          RewriteClassOrInstance(form.children, stats, quoted);
          return;
        case OtherHead =>
      }
    }
    WalkBody(form.children, 0, stats, quoted);
  }

  // ----- sweet-expressions -----

  /** A definition or a function without parentheses whose head stands at `i`. */
  method TakeImplicitDefn(code: seq<Node>, i: nat, stats: Stats, quoted: bool) returns (j: nat)
    requires i < |code| && SymIn(code[i], DEFN_HEADS + FN_HEADS) && Within(code, stats.all) && stats.Valid()
    modifies stats, stats.all
    ensures i < j && stats.Valid()
    ensures stats.marked + ImplicitSlots(code, j, quoted) == old(stats.marked) + ImplicitSlots(code, i, quoted)
  {
    var named := IsHeaded(code, i, DEFN_HEADS, stats);
    var a := if named && i + 1 < |code| && Sym(code[i + 1]) then i + 2 else i + 1;
    j := TakeParams(code, a, stats);
    j := SkipEffects(code, j);
    ghost var r := j;
    j := TakeReturn(code, j, stats);
    UnionAssoc(old(stats.marked), VecSlots(code, a), Slot(code, r));
    UnionAssoc(old(stats.marked), VecSlots(code, a) + Slot(code, r), ImplicitSlots(code, j, quoted));
  }

  method TakeImplicitStruct(code: seq<Node>, i: nat, stats: Stats, quoted: bool) returns (j: nat)
    requires i < |code| && SymIn(code[i], STRUCT_HEADS) && !SymIn(code[i], DEFN_HEADS + FN_HEADS)
    requires Within(code, stats.all) && stats.Valid()
    modifies stats, stats.all
    ensures i < j && stats.Valid()
    ensures stats.marked + ImplicitSlots(code, j, quoted) == old(stats.marked) + ImplicitSlots(code, i, quoted)
  {
    var b := FirstBracket(code, Min(i + 2, |code|));
    if b < |code| {
      WithinAt(code, stats.all, b);
      UnionAssoc(stats.marked, FieldSlots(Code(code[b].children), 0), ImplicitSlots(code, b + 1, quoted));
      RewriteStructFieldVec(code[b], stats);
    }
    return b + 1;
  }

  method TakeImplicitLet(code: seq<Node>, i: nat, stats: Stats, quoted: bool) returns (j: nat)
    requires i < |code| && SymIn(code[i], LET_HEADS)
    requires !SymIn(code[i], DEFN_HEADS + FN_HEADS) && !SymIn(code[i], STRUCT_HEADS)
    requires Within(code, stats.all) && stats.Valid()
    modifies stats, stats.all
    ensures i < j && stats.Valid()
    ensures stats.marked + ImplicitSlots(code, j, quoted) == old(stats.marked) + ImplicitSlots(code, i, quoted)
  {
    var a := if i + 1 < |code| && Sym(code[i + 1]) then i + 2 else i + 1;
    j := TakeBindings(code, a, stats, quoted);
    UnionAssoc(old(stats.marked), BindingSlots(code, a, quoted), ImplicitSlots(code, j, quoted));
  }

  /** What starts at `i` of a file without parentheses. */
  method TakeImplicit(code: seq<Node>, i: nat, stats: Stats, quoted: bool) returns (j: nat)
    requires i < |code| && Within(code, stats.all) && stats.Valid()
    modifies stats, stats.all
    ensures i < j && stats.Valid()
    ensures stats.marked + ImplicitSlots(code, j, quoted) == old(stats.marked) + ImplicitSlots(code, i, quoted)
  {
    var b := IsHeaded(code, i, DEFN_HEADS + FN_HEADS, stats);
    if b {
      j := TakeImplicitDefn(code, i, stats, quoted);
      return;
    }
    b := IsHeaded(code, i, STRUCT_HEADS, stats);
    if b {
      j := TakeImplicitStruct(code, i, stats, quoted);
      return;
    }
    b := IsHeaded(code, i, LET_HEADS, stats);
    if b {
      j := TakeImplicitLet(code, i, stats, quoted);
      return;
    }
    return i + 1;
  }

  method WalkImplicitSeq(nodes: seq<Node>, stats: Stats, quoted: bool)
    requires Within(nodes, stats.all) && stats.Valid()
    modifies stats, stats.all
    ensures stats.Valid() && stats.marked == old(stats.marked) + ImplicitSlots(NonTrivia(nodes), 0, quoted)
  {
    var code := NonTrivia(nodes);
    WithinCode(nodes, stats.all);
    var ci := 0;
    while ci < |code|
      invariant stats.Valid()
      invariant stats.marked + ImplicitSlots(code, ci, quoted) == old(stats.marked) + ImplicitSlots(code, 0, quoted)
      decreases |code| - ci
    {
      ci := TakeImplicit(code, ci, stats, quoted);
    }
  }

  // ----- the driver -----

  predicate Contains(s: string, pat: string) { Find(s, pat, 0) < |s| }

  /** Some `#lang` line of the file names sweet-expressions. */
  ghost predicate Sweet(tree: seq<Node>) {
    exists i :: 0 <= i < |tree| && tree[i].Leaf? && tree[i].tok.kind == LangLine
                && Contains(tree[i].tok.source, "sweet-exp")
  }

  method IsSweet(tree: seq<Node>, stats: Stats) returns (sweet: bool)
    requires Within(tree, stats.all) && stats.Valid()
    ensures sweet <==> Sweet(tree)
  {
    for i := 0 to |tree|
      invariant !Sweet(tree[..i])
    {
      assert forall k | 0 <= k < i :: tree[..i][k] == tree[k];
      if tree[i].Leaf? && tree[i].tok.kind == LangLine {
        WithinAt(tree, stats.all, i);
        GoodAt(stats.all, stats.marked, tree[i].tok);
        if Contains(tree[i].tok.text, "sweet-exp") { return true; }
      }
      assert tree[..i + 1] == tree[..i] + [tree[i]];
    }
    assert tree[..|tree|] == tree;
    return false;
  }

  /** The source with the marked tokens spaced. */
  ghost function Render(toks: seq<Tok>, marked: set<Tok>): string {
    if toks == [] then "" else
    var t := toks[|toks| - 1];
    Render(toks[..|toks| - 1], marked) + (if t in marked && t.source != "" then Spaced(t.source) else t.source)
  }

  lemma {:induction false} TextsRendered(toks: seq<Tok>, all: seq<Tok>, marked: set<Tok>)
    requires AllGood(all, marked) && forall t | t in toks :: t in all
    requires forall t | t in marked :: t.kind == Keyword
    ensures Texts(toks) == Render(toks, marked)
  {
    if toks != [] {
      var t := toks[|toks| - 1];
      assert forall x | x in toks[..|toks| - 1] :: x in toks;
      TextsRendered(toks[..|toks| - 1], all, marked);
      assert t in toks;
      GoodAt(all, marked, t);
    }
  }

  lemma CountSnoc(marked: set<Tok>, elems: set<Tok>, t: Tok)
    requires t !in elems
    ensures |marked * (elems + {t})| == |marked * elems| + (if t in marked then 1 else 0)
  {
    assert marked * (elems + {t}) == if t in marked then marked * elems + {t} else marked * elems;
  }

  lemma ElemsSnoc(toks: seq<Tok>)
    requires Distinct(toks) && toks != []
    ensures var init, t := toks[..|toks| - 1], toks[|toks| - 1];
            Distinct(init) && t !in Elems(init) && Elems(toks) == Elems(init) + {t}
  {
    assert toks == toks[..|toks| - 1] + [toks[|toks| - 1]];
  }

  /** Each marked token makes the text one character longer. */
  lemma {:induction false} RenderLength(toks: seq<Tok>, marked: set<Tok>)
    requires Distinct(toks) && forall t | t in marked :: t.source != ""
    ensures |Render(toks, marked)| == |Sources(toks)| + |marked * Elems(toks)|
  {
    if toks == [] {
      assert marked * Elems(toks) == {};
    } else {
      var init, t := toks[..|toks| - 1], toks[|toks| - 1];
      ElemsSnoc(toks);
      RenderLength(init, marked);
      CountSnoc(marked, Elems(init), t);
    }
  }

  lemma {:induction false} WithinOwn(ns: seq<Node>, all: seq<Tok>)
    requires forall t | t in FlattenAll(ns) :: t in all
    ensures Within(ns, all)
    decreases ns, 1
  {
    if ns != [] {
      FlattenFirst(ns);
      NodeWithinOwn(ns[0], all);
      WithinOwn(ns[1..], all);
    }
  }

  lemma {:induction false} NodeWithinOwn(n: Node, all: seq<Tok>)
    requires forall t | t in Flatten(n) :: t in all
    ensures NodeWithin(n, all)
    decreases n, 0
  {
    if n.Form? {
      FormContains(n);
      WithinOwn(n.children, all);
    } else {
      assert Flatten(n)[0] == n.tok;
    }
  }

  /** The slots of a file are fused annotations directly in vectors or in return places,
    * and no brace shields one. */
  lemma SlotsOfFile(tree: seq<Node>, quoted: bool, sweet: bool)
    requires Distinct(FlattenAll(tree))
    ensures var slots := FileSlots(tree, quoted, sweet);
            && slots <= Elems(FlattenAll(tree)) && slots <= FilePlaces(tree, quoted, sweet)
            && slots !! ShieldedAll(tree) && forall t | t in slots :: t.kind == Keyword
  {
    FileSeen(tree, quoted, sweet);
    PartsOfNodes(tree);
  }

  /** Walk a whole file. */
  method WalkFile(tree: seq<Node>, stats: Stats, quoted: bool)
    requires Within(tree, stats.all) && stats.Valid() && stats.marked == {}
    modifies stats, stats.all
    ensures stats.Valid() && stats.marked == FileSlots(tree, quoted, Sweet(tree))
  {
    var sweet := IsSweet(tree, stats);
    WalkBody(tree, 0, stats, quoted);
    if sweet { WalkImplicitSeq(tree, stats, quoted); }
  }

  /** With the slots of a file rewritten, what prints is the source with them spaced. */
  lemma RewrittenFile(tree: seq<Node>, toks: seq<Tok>, quoted: bool, sweet: bool)
    requires toks == FlattenAll(tree) && Distinct(toks)
    requires AllGood(toks, FileSlots(tree, quoted, sweet))
    ensures var slots := FileSlots(tree, quoted, sweet);
            && Serialize(tree) == Render(toks, slots)
            && |Render(toks, slots)| == |Sources(toks)| + |slots|
            && slots <= FilePlaces(tree, quoted, sweet) && slots !! ShieldedAll(tree)
            && forall t | t in slots :: t.kind == Keyword && IsFused(t.source)
  {
    var slots := FileSlots(tree, quoted, sweet);
    SlotsOfFile(tree, quoted, sweet);
    SlotsFused(toks, slots);
    SerializeIsTexts(tree);
    TextsRendered(toks, toks, slots);
    RenderLength(toks, slots);
    assert slots * Elems(toks) == slots;
  }

  lemma SlotsFused(toks: seq<Tok>, slots: set<Tok>)
    requires AllGood(toks, slots) && slots <= Elems(toks) && forall t | t in slots :: t.kind == Keyword
    ensures forall t | t in slots :: IsFused(t.source)
  {
    forall t | t in slots
      ensures IsFused(t.source)
    {
      GoodAt(toks, slots, t);
    }
  }

  /** Rewriting a source: exactly the annotations in the type-bearing positions of its tree
    * are spaced, each by one character; each stands directly in a vector or in a return
    * place, and none is inside a shielding brace. */
  method RewriteSource(cc: CharClass, src: string, quoted: bool)
    returns (out: string, rewrites: int, ghost tree: seq<Node>)
    requires cc.space(' ')
    ensures Sources(FlattenAll(tree)) == src && Lexed(cc, src, FlattenAll(tree))
    ensures Nested(tree, {}, true) && Distinct(FlattenAll(tree))
    ensures rewrites >= 0 && |out| == |src| + rewrites
    ensures var slots := FileSlots(tree, quoted, Sweet(tree));
            && out == Render(FlattenAll(tree), slots)
            && rewrites == |slots|
            && slots <= FilePlaces(tree, quoted, Sweet(tree)) && slots !! ShieldedAll(tree)
            && slots <= Elems(FlattenAll(tree))
            && (forall t | t in slots :: t.kind == Keyword && IsFused(t.source))
            && forall t | t in FlattenAll(tree) :: t in slots <==> FileSlot(tree, quoted, Sweet(tree), t)
  {
    var toks := Tokenize(cc, src);
    var nodes := Parse(toks);
    GoodFrom(toks, {});
    var stats := new Stats(toks);
    WithinOwn(nodes, toks);
    WalkFile(nodes, stats, quoted);
    RewrittenFile(nodes, toks, quoted, Sweet(nodes));
    SlotsOfFile(nodes, quoted, Sweet(nodes));
    forall t | t in toks
      ensures t in FileSlots(nodes, quoted, Sweet(nodes)) <==> FileSlot(nodes, quoted, Sweet(nodes), t)
    {
      FileSlotsAre(nodes, quoted, Sweet(nodes), t);
    }
    out, rewrites, tree := Serialize(nodes), stats.rewrites, nodes;
  }
}
