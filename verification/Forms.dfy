/** The form tree of the spaced-types codemod: parsing and printing
  * (tools/spaced-types-rewrite.py, lines 298-351 and 765-784). */
module Forms {
  import opened Wrappers
  import opened Strings
  import opened Tokens

  /** A token, or a bracketed form; a form that the source leaves open has no closer. */
  datatype Node = Leaf(tok: Tok) | Form(open: Tok, close: Option<Tok>, children: seq<Node>)

  /** The tokens of a tree, in order. */
  function Flatten(n: Node): seq<Tok>
    decreases n, 0
  {
    match n
    case Leaf(t) => [t]
    case Form(open, close, children) =>
      [open] + FlattenAll(children) + (if close.Some? then [close.value] else [])
  }

  function FlattenAll(ns: seq<Node>): seq<Tok>
    decreases ns, 1
  {
    if ns == [] then [] else FlattenAll(ns[..|ns| - 1]) + Flatten(ns[|ns| - 1])
  }

  predicate IsOpen(k: Kind) { k in {LParen, LBracket, LBrace, HashLBrace, DispatchLBrace} }

  function Closer(k: Kind): Kind
    requires IsOpen(k)
  {
    match k
    case LParen => RParen
    case LBracket => RBracket
    case _ => RBrace
  }

  /** How forms nest, in a sequence that a token of a kind in `stop` would end: leaves
    * open nothing and would not end it; a form's closer, when it has one, matches its
    * opener and is the first that does; and only at the end of the source is a form left
    * open. */
  predicate NestedNode(n: Node, stop: set<Kind>, atEnd: bool)
    decreases n, 0
  {
    match n
    case Leaf(t) => !IsOpen(t.kind) && t.kind !in stop
    case Form(open, close, children) =>
      && IsOpen(open.kind)
      && (if close.Some? then close.value.kind == Closer(open.kind) else atEnd)
      && Nested(children, {Closer(open.kind)}, close.None?)
  }

  predicate Nested(ns: seq<Node>, stop: set<Kind>, atEnd: bool)
    decreases ns, 1
  {
    ns == [] || (Nested(ns[..|ns| - 1], stop, false) && NestedNode(ns[|ns| - 1], stop, atEnd))
  }

  /** Parse from `pos` up to a token of a kind in `stop`, or to the end. A closer that
    * does not match what is open is a leaf like any other. */
  method ParseSeq(tokens: seq<Tok>, pos: nat, stop: set<Kind>) returns (out: seq<Node>, pos': nat)
    requires pos <= |tokens|
    ensures pos <= pos' <= |tokens|
    ensures FlattenAll(out) == tokens[pos..pos'] && Nested(out, stop, pos' == |tokens|)
    ensures pos' < |tokens| ==> tokens[pos'].kind in stop
    decreases |tokens| - pos, 1
  {
    out, pos' := [], pos;
    while pos' < |tokens|
      invariant pos <= pos' <= |tokens|
      invariant FlattenAll(out) == tokens[pos..pos'] && Nested(out, stop, pos' == |tokens|)
    {
      if tokens[pos'].kind in stop { return; }
      ghost var start := pos';
      var node;
      node, pos' := ParseNode(tokens, pos', stop);
      SliceSplit(tokens, pos, start, pos');
      FlattenSnoc(out, node);
      assert (out + [node])[..|out|] == out;
      out := out + [node];
    }
  }

  /** One node: a form with everything up to its closer, or a leaf. */
  method ParseNode(tokens: seq<Tok>, pos: nat, ghost stop: set<Kind>) returns (node: Node, pos': nat)
    requires pos < |tokens| && tokens[pos].kind !in stop
    ensures pos < pos' <= |tokens|
    ensures Flatten(node) == tokens[pos..pos'] && NestedNode(node, stop, pos' == |tokens|)
    decreases |tokens| - pos, 0
  {
    var t := tokens[pos];
    if !IsOpen(t.kind) {
      SliceOne(tokens, pos);
      return Leaf(t), pos + 1;
    }
    var closeKind := Closer(t.kind);
    var children, p := ParseSeq(tokens, pos + 1, {closeKind});
    var close: Option<Tok> := None;
    ghost var open := p == |tokens|;
    if p < |tokens| && tokens[p].kind == closeKind {
      close := Some(tokens[p]);
      p := p + 1;
    }
    assert open == close.None?;
    node, pos' := Form(t, close, children), p;
    FlattenForm(tokens, pos, node, p);
  }

  lemma SliceOne(tokens: seq<Tok>, i: nat)
    requires i < |tokens|
    ensures tokens[i..i + 1] == [tokens[i]]
  {
  }

  lemma SliceSplit(tokens: seq<Tok>, a: nat, b: nat, c: nat)
    requires a <= b <= c <= |tokens|
    ensures tokens[a..c] == tokens[a..b] + tokens[b..c]
  {
  }

  lemma FlattenSnoc(ns: seq<Node>, n: Node)
    ensures FlattenAll(ns + [n]) == FlattenAll(ns) + Flatten(n)
  {
    assert (ns + [n])[..|ns|] == ns;
  }

  lemma FlattenForm(tokens: seq<Tok>, start: nat, node: Node, end: nat)
    requires node.Form? && start < end <= |tokens| && node.open == tokens[start]
    requires if node.close.None? then FlattenAll(node.children) == tokens[start + 1..end]
             else start + 1 < end && FlattenAll(node.children) == tokens[start + 1..end - 1]
                  && node.close.value == tokens[end - 1]
    ensures Flatten(node) == tokens[start..end]
  {
  }

  method Parse(tokens: seq<Tok>) returns (tree: seq<Node>)
    ensures FlattenAll(tree) == tokens && Nested(tree, {}, true)
  {
    var end;
    tree, end := ParseSeq(tokens, 0, {});
    assert tokens[0..end] == tokens;
  }

  // ----- there is one way to nest a source -----

  lemma {:induction false} FlattenFirst(ns: seq<Node>)
    requires ns != []
    ensures FlattenAll(ns) == Flatten(ns[0]) + FlattenAll(ns[1..])
    decreases |ns|
  {
    if |ns| == 1 {
      assert ns[..0] == [] && ns[1..] == [];
    } else {
      var init, tail, last := ns[..|ns| - 1], ns[1..], ns[|ns| - 1];
      FlattenFirst(init);
      assert init[1..] == tail[..|tail| - 1] && tail[|tail| - 1] == last;
      ConcatAssoc(Flatten(ns[0]), FlattenAll(init[1..]), Flatten(last));
    }
  }

  lemma NestedFirst(ns: seq<Node>, stop: set<Kind>, atEnd: bool)
    requires ns != [] && Nested(ns, stop, atEnd)
    ensures NestedNode(ns[0], stop, atEnd && |ns| == 1) && Nested(ns[1..], stop, atEnd)
    decreases |ns|
  {
    if |ns| == 1 {
      assert ns[..0] == [] && ns[1..] == [];
    } else {
      var init := ns[..|ns| - 1];
      NestedFirst(init, stop, false);
      assert init[1..] == ns[1..][..|ns| - 2];
      assert ns[1..][|ns| - 2] == ns[|ns| - 1];
    }
  }

  /** What follows a nested sequence: nothing, when it runs to the end, and otherwise a
    * closer that ends it. */
  predicate Follows(rest: seq<Tok>, stop: set<Kind>, atEnd: bool) {
    if atEnd then rest == [] else rest != [] && rest[0].kind in stop
  }

  function Closing(n: Node): seq<Tok>
    requires n.Form?
  {
    if n.close.Some? then [n.close.value] else []
  }

  /** A nested sequence that is not empty does not begin as what follows it does. */
  lemma Begins(ns: seq<Node>, stop: set<Kind>, atEnd: bool, rest: seq<Tok>)
    requires ns != [] && Nested(ns, stop, atEnd) && forall k | k in stop :: !IsOpen(k)
    ensures var t := First(ns[0]);
            && FlattenAll(ns) + rest != [] && (FlattenAll(ns) + rest)[0] == t && t.kind !in stop
            && ns[0].Form? == IsOpen(t.kind)
  {
    FlattenFirst(ns);
    NestedFirst(ns, stop, atEnd);
    assert Flatten(ns[0])[0] == First(ns[0]);
  }

  function First(n: Node): Tok { if n.Leaf? then n.tok else n.open }

  /** What stands after the children of the first form. */
  function AfterChildren(ns: seq<Node>, rest: seq<Tok>): seq<Tok>
    requires ns != [] && ns[0].Form?
  {
    Closing(ns[0]) + (FlattenAll(ns[1..]) + rest)
  }

  lemma SplitForm(ns: seq<Node>, stop: set<Kind>, atEnd: bool, rest: seq<Tok>)
    requires ns != [] && ns[0].Form? && Nested(ns, stop, atEnd) && Follows(rest, stop, atEnd)
    ensures FlattenAll(ns) + rest == [ns[0].open] + (FlattenAll(ns[0].children) + AfterChildren(ns, rest))
    ensures Nested(ns[1..], stop, atEnd)
    ensures IsOpen(ns[0].open.kind) && Nested(ns[0].children, {Closer(ns[0].open.kind)}, ns[0].close.None?)
    ensures Follows(AfterChildren(ns, rest), {Closer(ns[0].open.kind)}, ns[0].close.None?)
  {
    FlattenFirst(ns);
    NestedFirst(ns, stop, atEnd);
  }

  lemma SplitLeaf(ns: seq<Node>, stop: set<Kind>, atEnd: bool, rest: seq<Tok>)
    requires ns != [] && ns[0].Leaf? && Nested(ns, stop, atEnd)
    ensures FlattenAll(ns) + rest == [ns[0].tok] + (FlattenAll(ns[1..]) + rest)
    ensures Nested(ns[1..], stop, atEnd)
  {
    FlattenFirst(ns);
    NestedFirst(ns, stop, atEnd);
  }

  lemma SameTail<T>(x: T, a: seq<T>, y: T, b: seq<T>)
    requires [x] + a == [y] + b
    ensures x == y && a == b
  {
    assert ([x] + a)[0] == ([y] + b)[0];
    assert a == ([x] + a)[1..] == ([y] + b)[1..] == b;
  }

  /** Two nested sequences that read the same, up to where each ends, are the same. */
  lemma {:induction false} NestingUnique(a: seq<Node>, ra: seq<Tok>, ea: bool, b: seq<Node>, rb: seq<Tok>, eb: bool,
                                         stop: set<Kind>)
    requires Nested(a, stop, ea) && Follows(ra, stop, ea)
    requires Nested(b, stop, eb) && Follows(rb, stop, eb)
    requires forall k | k in stop :: !IsOpen(k)
    requires FlattenAll(a) + ra == FlattenAll(b) + rb
    ensures a == b && ra == rb
    decreases |FlattenAll(a)| + |ra|
  {
    assert [] + ra == ra && [] + rb == rb;
    if a != [] { Begins(a, stop, ea, ra); }
    if b != [] { Begins(b, stop, eb, rb); }
    if a != [] && b != [] {
      if a[0].Leaf? {
        SplitLeaf(a, stop, ea, ra);
        SplitLeaf(b, stop, eb, rb);
        SameTail(a[0].tok, FlattenAll(a[1..]) + ra, b[0].tok, FlattenAll(b[1..]) + rb);
      } else {
        FormUnique(a, ra, ea, b, rb, eb, stop);
      }
      NestingUnique(a[1..], ra, ea, b[1..], rb, eb, stop);
      assert a == [a[0]] + a[1..] && b == [b[0]] + b[1..];
    }
  }

  lemma {:induction false} FormUnique(a: seq<Node>, ra: seq<Tok>, ea: bool, b: seq<Node>, rb: seq<Tok>, eb: bool,
                                      stop: set<Kind>)
    requires a != [] && a[0].Form? && Nested(a, stop, ea) && Follows(ra, stop, ea)
    requires b != [] && b[0].Form? && Nested(b, stop, eb) && Follows(rb, stop, eb)
    requires FlattenAll(a) + ra == FlattenAll(b) + rb
    ensures a[0] == b[0] && FlattenAll(a[1..]) + ra == FlattenAll(b[1..]) + rb
    ensures |FlattenAll(a[1..])| < |FlattenAll(a)|
    ensures Nested(a[1..], stop, ea) && Nested(b[1..], stop, eb)
    decreases |FlattenAll(a)| + |ra|, 0
  {
    SplitForm(a, stop, ea, ra);
    SplitForm(b, stop, eb, rb);
    var xa, xb := AfterChildren(a, ra), AfterChildren(b, rb);
    SameTail(a[0].open, FlattenAll(a[0].children) + xa, b[0].open, FlattenAll(b[0].children) + xb);
    NestingUnique(a[0].children, xa, a[0].close.None?, b[0].children, xb, b[0].close.None?, {Closer(a[0].open.kind)});
    if a[0].close.Some? {
      SameTail(a[0].close.value, FlattenAll(a[1..]) + ra, b[0].close.value, FlattenAll(b[1..]) + rb);
    }
  }

  /** A source has one form tree: any nesting of its tokens is the one parsing finds. */
  lemma ParseUnique(a: seq<Node>, b: seq<Node>)
    requires Nested(a, {}, true) && Nested(b, {}, true) && FlattenAll(a) == FlattenAll(b)
    ensures a == b
  {
    NestingUnique(a, [], true, b, [], true, {});
  }

  ghost function Texts(toks: seq<Tok>): string
    reads toks
  {
    if toks == [] then "" else Texts(toks[..|toks| - 1]) + toks[|toks| - 1].text
  }

  lemma {:induction false} TextsAppend(a: seq<Tok>, b: seq<Tok>)
    ensures Texts(a + b) == Texts(a) + Texts(b)
  {
    if b == [] {
      assert a + b == a;
    } else {
      assert (a + b)[..|a + b| - 1] == a + b[..|b| - 1];
      TextsAppend(a, b[..|b| - 1]);
    }
  }

  lemma FormContains(node: Node)
    requires node.Form?
    ensures node.open in Flatten(node)
    ensures node.close.Some? ==> node.close.value in Flatten(node)
    ensures forall i | 0 <= i < |FlattenAll(node.children)| :: FlattenAll(node.children)[i] in Flatten(node)
  {
    var a, b := [node.open], FlattenAll(node.children);
    var c := if node.close.Some? then [node.close.value] else [];
    assert Flatten(node) == a + b + c;
    assert (a + b + c)[0] == node.open;
    if c != [] { assert (a + b + c)[|a + b|] == c[0]; }
    forall i | 0 <= i < |b|
      ensures b[i] in Flatten(node)
    {
      assert (a + b + c)[1 + i] == b[i];
    }
  }

  lemma AllContain(nodes: seq<Node>)
    requires nodes != []
    ensures var init := FlattenAll(nodes[..|nodes| - 1]); forall i | 0 <= i < |init| :: init[i] in FlattenAll(nodes)
    ensures var last := Flatten(nodes[|nodes| - 1]); forall i | 0 <= i < |last| :: last[i] in FlattenAll(nodes)
  {
    var init, last := FlattenAll(nodes[..|nodes| - 1]), Flatten(nodes[|nodes| - 1]);
    assert FlattenAll(nodes) == init + last;
    forall i | 0 <= i < |last|
      ensures last[i] in init + last
    {
      assert (init + last)[|init| + i] == last[i];
    }
    forall i | 0 <= i < |init|
      ensures init[i] in init + last
    {
      assert (init + last)[i] == init[i];
    }
  }

  /** Print a form: its opener, its children, its closer if it has one. */
  function Visit(node: Node): string
    reads Flatten(node)
    decreases node, 0
  {
    match node
    case Leaf(t) => assert Flatten(node)[0] == t; t.text
    case Form(open, close, children) =>
      FormContains(node);
      open.text + Serialize(children) + (if close.Some? then close.value.text else "")
  }

  function Serialize(nodes: seq<Node>): string
    reads FlattenAll(nodes)
    decreases nodes, 1
  {
    if nodes == [] then "" else
    var init, last := nodes[..|nodes| - 1], nodes[|nodes| - 1];
    AllContain(nodes);
    var lastToks := Flatten(last);
    assert forall i | 0 <= i < |lastToks| :: lastToks[i] in FlattenAll(nodes);
    Serialize(init) + Visit(last)
  }

  /** What is printed is the texts of the tokens, in order. */
  lemma {:induction false} SerializeIsTexts(nodes: seq<Node>)
    ensures Serialize(nodes) == Texts(FlattenAll(nodes))
    decreases nodes, 1
  {
    if nodes != [] {
      var init, last := nodes[..|nodes| - 1], nodes[|nodes| - 1];
      SerializeIsTexts(init);
      VisitIsTexts(last);
      TextsAppend(FlattenAll(init), Flatten(last));
    }
  }

  lemma {:induction false} VisitIsTexts(node: Node)
    ensures Visit(node) == Texts(Flatten(node))
    decreases node, 0
  {
    match node
    case Leaf(t) => assert [t][..0] == [];
    case Form(_, _, children) =>
      SerializeIsTexts(children);
      FormTexts(node);
  }

  lemma FormTexts(node: Node)
    requires node.Form?
    ensures Texts(Flatten(node)) ==
            node.open.text + Texts(FlattenAll(node.children)) + (if node.close.Some? then node.close.value.text else "")
  {
    var a, b := [node.open], FlattenAll(node.children);
    var c := if node.close.Some? then [node.close.value] else [];
    TextsAppend(a, b);
    TextsAppend(a + b, c);
    assert a[..0] == [];
    if c != [] { assert c[..0] == []; }
  }

  lemma {:induction false} UntouchedTexts(toks: seq<Tok>)
    requires forall t | t in toks :: t.text == t.source
    ensures Texts(toks) == Sources(toks)
  {
    if toks != [] { UntouchedTexts(toks[..|toks| - 1]); }
  }

  /** Whatever the text, unbalanced or not, cutting it up, nesting it and printing it
    * gives it back. */
  method Reprint(cc: CharClass, src: string) returns (out: string)
    requires cc.space(' ')
    ensures out == src
  {
    var toks := Tokenize(cc, src);
    var tree := Parse(toks);
    SerializeIsTexts(tree);
    out := Serialize(tree);
    UntouchedTexts(toks);
  }
}
