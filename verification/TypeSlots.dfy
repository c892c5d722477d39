/** Which tokens of a form tree stand in a type-bearing position, for the spaced-types
  * codemod (tools/spaced-types-rewrite.py, lines 354-402, 442-563, 571-762 and 789-867). */
module TypeSlots {
  import opened Strings
  import opened Tokens
  import opened Forms

  // ----- kinds of nodes -----

  predicate Kw(n: Node) { n.Leaf? && n.tok.kind == Keyword }

  predicate Sym(n: Node) { n.Leaf? && n.tok.kind == Symbol }

  ghost predicate SymIs(n: Node, s: string) { Sym(n) && n.tok.source == s }

  ghost predicate SymIn(n: Node, names: set<string>) { Sym(n) && n.tok.source in names }

  ghost predicate Caret(n: Node) { Sym(n) && n.tok.source != "" && n.tok.source[0] == '^' }

  predicate Paren(n: Node) { n.Form? && n.open.kind == LParen }

  predicate Bracket(n: Node) { n.Form? && n.open.kind == LBracket }

  predicate HashBrace(n: Node) { n.Form? && n.open.kind == HashLBrace }

  predicate DispatchBrace(n: Node) { n.Form? && n.open.kind == DispatchLBrace }

  predicate Trivia(k: Kind) { k in {Ws, Newline, Comment} }

  predicate Prefix(k: Kind) { k in {Quote, Quasiquote, Unquote, UnquoteSplice} }

  /** The children without trivia and, for `Code`, without reader-macro prefixes. */
  function NonTrivia(ns: seq<Node>): seq<Node> {
    if ns == [] then [] else
    (if ns[0].Leaf? && Trivia(ns[0].tok.kind) then [] else [ns[0]]) + NonTrivia(ns[1..])
  }

  function Code(ns: seq<Node>): seq<Node> {
    if ns == [] then [] else
    (if ns[0].Leaf? && (Trivia(ns[0].tok.kind) || Prefix(ns[0].tok.kind)) then [] else [ns[0]]) + Code(ns[1..])
  }

  /** Of the children all but blanks, line ends, comments and, for code, prefixes are left. */
  lemma {:induction false} CodeHolds(ns: seq<Node>, m: Node)
    ensures m in NonTrivia(ns) <==> m in ns && !(m.Leaf? && m.tok.kind in {Ws, Newline, Comment})
    ensures m in Code(ns) <==>
            m in ns && !(m.Leaf? && m.tok.kind in {Ws, Newline, Comment, Quote, Quasiquote, Unquote, UnquoteSplice})
  {
    if ns != [] {
      CodeHolds(ns[1..], m);
      assert ns == [ns[0]] + ns[1..];
    }
  }

  // ----- sizes -----

  ghost function Weight(n: Node): (w: nat)
    ensures w > 0
    decreases n, 0
  {
    match n
    case Leaf(_) => 1
    case Form(_, _, children) => 1 + Weights(children)
  }

  ghost function Weights(ns: seq<Node>): nat
    decreases ns, 1
  {
    if ns == [] then 0 else Weight(ns[0]) + Weights(ns[1..])
  }

  lemma {:induction false} WeightAt(ns: seq<Node>, i: nat)
    requires i < |ns|
    ensures Weight(ns[i]) <= Weights(ns)
  {
    if i > 0 { WeightAt(ns[1..], i - 1); }
  }

  lemma {:induction false} CodeWeight(ns: seq<Node>)
    ensures Weights(Code(ns)) <= Weights(ns) && Weights(NonTrivia(ns)) <= Weights(ns)
  {
    if ns != [] {
      var c, t := Code(ns[1..]), NonTrivia(ns[1..]);
      CodeWeight(ns[1..]);
      assert ([ns[0]] + c)[1..] == c && [] + c == c;
      assert ([ns[0]] + t)[1..] == t && [] + t == t;
    }
  }

  /** A form inside a sequence is lighter in code than the sequence. */
  lemma CodeOf(ns: seq<Node>, i: nat)
    requires i < |ns| && ns[i].Form?
    ensures Weights(Code(ns[i].children)) < Weights(ns) && Weights(ns[i].children) < Weights(ns)
  {
    WeightAt(ns, i);
    CodeWeight(ns[i].children);
  }

  // ----- annotations -----

  /** The token at `i` when it is a fused annotation. */
  function Slot(items: seq<Node>, i: nat): set<Tok> {
    if i < |items| && Kw(items[i]) then {items[i].tok} else {}
  }

  /** Past the annotation after a name: fused, spaced, or a compound type. */
  ghost function AfterAnnotation(items: seq<Node>, i: nat): (j: nat)
    ensures i <= j && (i <= |items| ==> j <= |items|)
  {
    if i >= |items| then i
    else if Kw(items[i]) then i + 1
    else if SymIs(items[i], ":") then Min(i + 2, |items|)
    else if Paren(items[i]) || HashBrace(items[i]) then i + 1
    else i
  }

  /** Parameters: `[^mod* name annotation? ... & rest annotation?]`. */
  ghost function ParamSlots(items: seq<Node>, i: nat): set<Tok>
    decreases |items| - i
  {
    if i >= |items| then {}
    else if Caret(items[i]) then ParamSlots(items, i + 1)
    else if SymIs(items[i], "&") then
      var a := Min(i + 2, |items|);
      if a < |items| && Kw(items[a]) then Slot(items, a) + ParamSlots(items, a + 1)
      else if a < |items| && SymIs(items[a], ":") then ParamSlots(items, a + 2)
      else ParamSlots(items, a)
    else if Sym(items[i]) then Slot(items, i + 1) + ParamSlots(items, AfterAnnotation(items, i + 1))
    else ParamSlots(items, i + 1)
  }

  /** Structure fields: `[name annotation? ...]`. */
  ghost function FieldSlots(items: seq<Node>, i: nat): set<Tok>
    decreases |items| - i
  {
    if i >= |items| then {}
    else if Sym(items[i]) then Slot(items, i + 1) + FieldSlots(items, AfterAnnotation(items, i + 1))
    else FieldSlots(items, i + 1)
  }

  /** In a binding, past a fused annotation, which needs a value after it, */
  ghost function AfterFused(items: seq<Node>, a: nat): nat {
    if a + 1 < |items| && Kw(items[a]) then a + 1 else a
  }

  /** and past a spaced one. */
  ghost function AfterSpaced(items: seq<Node>, a: nat): nat {
    if a + 1 < |items| && SymIs(items[a], ":") then a + 2 else a
  }

  /** The slots of the form at `i`, if there is one, walked. */
  ghost function WalkedAt(items: seq<Node>, i: nat, quoted: bool): set<Tok>
    decreases Weights(items), 1
  {
    if i >= |items| then {} else
    WeightAt(items, i);
    WalkSlots(items[i], quoted)
  }

  /** Bindings: `[^mod* name annotation? value ...]`; values are walked. */
  ghost function LetSlots(items: seq<Node>, i: nat, quoted: bool): set<Tok>
    decreases Weights(items), 2, |items| - i
  {
    if i >= |items| then {}
    else if Caret(items[i]) then LetSlots(items, i + 1, quoted)
    else if Sym(items[i]) then
      var v := AfterSpaced(items, AfterFused(items, i + 1));
      (if i + 2 < |items| then Slot(items, i + 1) else {})
      + WalkedAt(items, v, quoted)
      + LetSlots(items, v + 1, quoted)
    else LetSlots(items, i + 1, quoted)
  }

  // ----- forms -----

  ghost function SkipHash(code: seq<Node>, i: nat): (j: nat)
    ensures i <= j
    decreases |code| - i
  {
    if i < |code| && HashBrace(code[i]) then SkipHash(code, i + 1) else i
  }

  /** Past the return annotation. */
  ghost function AfterReturn(code: seq<Node>, i: nat): (j: nat)
    ensures i <= j
  {
    if i >= |code| then i
    else if Kw(code[i]) then i + 1
    else if SymIs(code[i], ":") then Min(i + 2, |code|)
    else i
  }

  function FirstBracket(code: seq<Node>, i: nat): (j: nat)
    ensures i <= j && (j < |code| ==> Bracket(code[j]))
    decreases |code| - i
  {
    if i >= |code| || Bracket(code[i]) then i else FirstBracket(code, i + 1)
  }

  /** Past the parameter vector, if one stands at `i`. */
  function AfterVec(code: seq<Node>, i: nat): nat {
    if i < |code| && Bracket(code[i]) then i + 1 else i
  }

  ghost function VecSlots(code: seq<Node>, i: nat): set<Tok> {
    if i < |code| && Bracket(code[i]) then ParamSlots(Code(code[i].children), 0) else {}
  }

  /** `[PARAMS] #{...}* annotation? body...` from `i` on. */
  ghost function SigSlots(code: seq<Node>, i: nat, quoted: bool): set<Tok>
    decreases Weights(code), 3
  {
    var r := SkipHash(code, AfterVec(code, i));
    VecSlots(code, i) + Slot(code, r) + BodySlots(code, AfterReturn(code, r), quoted)
  }

  /** The forms from `i` on, walked. */
  ghost function BodySlots(code: seq<Node>, i: nat, quoted: bool): set<Tok>
    decreases Weights(code), 2, |code| - i
  {
    if i >= |code| then {} else
    WalkedAt(code, i, quoted) + BodySlots(code, i + 1, quoted)
  }

  ghost function StructSlots(code: seq<Node>, quoted: bool): set<Tok>
    decreases Weights(code), 3
  {
    var i := FirstBracket(code, Min(2, |code|));
    if i < |code| then FieldSlots(Code(code[i].children), 0) + BodySlots(code, i + 1, quoted) else {}
  }

  ghost function LetStart(code: seq<Node>): nat { if 1 < |code| && Sym(code[1]) then 2 else 1 }

  ghost function BindingSlots(code: seq<Node>, i: nat, quoted: bool): set<Tok>
    decreases Weights(code), 0
  {
    if i < |code| && Bracket(code[i]) then
      CodeOf(code, i);
      LetSlots(Code(code[i].children), 0, quoted)
    else {}
  }

  ghost function LetFormSlots(code: seq<Node>, quoted: bool): set<Tok>
    decreases Weights(code), 3
  {
    BindingSlots(code, LetStart(code), quoted) + BodySlots(code, AfterVec(code, LetStart(code)), quoted)
  }

  /** Methods of a class or an instance, from child `k` on. */
  ghost function ClassSlots(children: seq<Node>, k: nat, quoted: bool): set<Tok>
    decreases Weights(children), 1, |children| - k
  {
    if k >= |children| then {} else
    MethodSlots(children, k, quoted) + ClassSlots(children, k + 1, quoted)
  }

  ghost function MethodSlots(children: seq<Node>, k: nat, quoted: bool): set<Tok>
    requires k < |children|
    decreases Weights(children), 1, 0
  {
    WeightAt(children, k);
    if Paren(children[k]) then
      CodeOf(children, k);
      var code := Code(children[k].children);
      if code == [] then {} else SigSlots(code, 1, quoted)
    else WalkSlots(children[k], quoted)
  }

  const DEFN_HEADS: set<string> := {"defn", "defmacro"}
  const FN_HEADS: set<string> := {"fn"}
  const LET_HEADS: set<string> := {"let", "let*", "loop"}
  const STRUCT_HEADS: set<string> := {"defstruct"}
  const CLASS_HEADS: set<string> := {"defclass", "defprotocol", "definstance"}
  const QUOTE_HEADS: set<string> := {"quote", "quasiquote"}

  /** The first code item of a list is a symbol among `names`. */
  ghost predicate Headed(code: seq<Node>, names: set<string>) { code != [] && SymIn(code[0], names) }

  ghost function DefnStart(code: seq<Node>): nat { FirstBracket(code, Min(2, |code|)) }

  datatype Head = QuoteHead | DefnHead | FnHead | StructHead | LetHead | ClassHead | OtherHead

  /** What the head symbol of a list, if it has one, makes of it. */
  ghost function HeadKind(code: seq<Node>): Head {
    if Headed(code, QUOTE_HEADS) then QuoteHead
    else if Headed(code, DEFN_HEADS) then DefnHead
    else if Headed(code, FN_HEADS) then FnHead
    else if Headed(code, STRUCT_HEADS) then StructHead
    else if Headed(code, LET_HEADS) then LetHead
    else if Headed(code, CLASS_HEADS) then ClassHead
    else OtherHead
  }

  /** The slots of a form, nothing inside `#{...}` or a dispatch brace, and inside a quoted
    * form only on request. */
  ghost function WalkSlots(n: Node, quoted: bool): set<Tok>
    decreases Weight(n), 0
  {
    if n.Leaf? || HashBrace(n) || DispatchBrace(n) then {} else
    CodeWeight(n.children);
    var code := Code(n.children);
    match (if Paren(n) then HeadKind(code) else OtherHead)
    case QuoteHead => if quoted then BodySlots(n.children, 0, quoted) else {}
    case DefnHead => SigSlots(code, DefnStart(code), quoted)
    case FnHead => SigSlots(code, 1, quoted)
    case StructHead => StructSlots(code, quoted)
    case LetHead => LetFormSlots(code, quoted)
    case ClassHead => ClassSlots(n.children, 0, quoted)
    case OtherHead => BodySlots(n.children, 0, quoted)
  }

  /** Definitions without parentheses at the top of a sweet-expression file. */
  ghost function ImplicitSlots(code: seq<Node>, i: nat, quoted: bool): set<Tok>
    decreases |code| - i
  {
    if i >= |code| then {}
    else if SymIn(code[i], DEFN_HEADS + FN_HEADS) then
      var a := if SymIn(code[i], DEFN_HEADS) && i + 1 < |code| && Sym(code[i + 1]) then i + 2 else i + 1;
      var r := SkipHash(code, AfterVec(code, a));
      VecSlots(code, a) + Slot(code, r) + ImplicitSlots(code, AfterReturn(code, r), quoted)
    else if SymIn(code[i], STRUCT_HEADS) then
      var b := FirstBracket(code, Min(i + 2, |code|));
      (if b < |code| then FieldSlots(Code(code[b].children), 0) else {}) + ImplicitSlots(code, b + 1, quoted)
    else if SymIn(code[i], LET_HEADS) then
      var a := if i + 1 < |code| && Sym(code[i + 1]) then i + 2 else i + 1;
      BindingSlots(code, a, quoted) + ImplicitSlots(code, AfterVec(code, a), quoted)
    else ImplicitSlots(code, i + 1, quoted)
  }

  /** The slots of a file. */
  ghost function FileSlots(tree: seq<Node>, quoted: bool, sweet: bool): set<Tok> {
    BodySlots(tree, 0, quoted) + (if sweet then ImplicitSlots(NonTrivia(tree), 0, quoted) else {})
  }

  // ----- where slots can be -----

  /** The tokens of a tree outside every `#{...}` and dispatch brace. */
  ghost function Exposed(n: Node): set<Tok>
    decreases n, 0
  {
    match n
    case Leaf(t) => {t}
    case Form(_, _, children) => if HashBrace(n) || DispatchBrace(n) then {} else ExposedAll(children)
  }

  ghost function ExposedAll(ns: seq<Node>): set<Tok>
    decreases ns, 1
  {
    if ns == [] then {} else Exposed(ns[0]) + ExposedAll(ns[1..])
  }

  /** The tokens of a tree inside some `#{...}` or dispatch brace. */
  ghost function Shielded(n: Node): set<Tok>
    decreases n, 0
  {
    match n
    case Leaf(_) => {}
    case Form(_, _, children) =>
      if HashBrace(n) || DispatchBrace(n) then Elems(FlattenAll(children)) else ShieldedAll(children)
  }

  ghost function ShieldedAll(ns: seq<Node>): set<Tok>
    decreases ns, 1
  {
    if ns == [] then {} else Shielded(ns[0]) + ShieldedAll(ns[1..])
  }

  ghost function Elems(ts: seq<Tok>): set<Tok> { set t | t in ts }

  /** Fused annotations that can be seen from outside the braces. */
  ghost predicate Seen(slots: set<Tok>, exposed: set<Tok>) {
    slots <= exposed && forall t | t in slots :: t.kind == Keyword
  }

  ghost predicate AllHash(code: seq<Node>, i: nat, j: nat)
    requires j <= |code|
  {
    forall k | i <= k < j :: HashBrace(code[k])
  }

  /** A parameter vector, or what stands where one may: the head of a list, or at the top
    * of a sweet-expression file a symbol. */
  ghost predicate Opens(code: seq<Node>, v: nat, sweet: bool)
    requires v < |code|
  {
    Bracket(code[v]) || if sweet then Sym(code[v]) else v == 0
  }

  /** The keyword at `j` follows its parameter vector, with nothing but `#{...}` between. */
  ghost predicate ReturnPlace(code: seq<Node>, j: nat, sweet: bool) {
    j < |code| && Kw(code[j]) && exists v: nat :: v < j && Opens(code, v, sweet) && AllHash(code, v + 1, j)
  }

  ghost function Returns(code: seq<Node>, sweet: bool): set<Tok> {
    set j: nat | 0 <= j < |code| && ReturnPlace(code, j, sweet) :: code[j].tok
  }

  ghost function Keys(ns: seq<Node>): set<Tok> {
    if ns == [] then {} else (if Kw(ns[0]) then {ns[0].tok} else {}) + Keys(ns[1..])
  }

  /** The keywords of a tree directly inside a bracket vector or in the return place of a
    * definition, a function or a method. */
  ghost function Places(n: Node, quoted: bool): set<Tok>
    decreases n, 0
  {
    match n
    case Leaf(_) => {}
    case Form(_, _, children) =>
      if HashBrace(n) || DispatchBrace(n) then {}
      else if Bracket(n) then Keys(children) + PlacesAll(children, quoted)
      else if !Paren(n) then PlacesAll(children, quoted)
      else
        match HeadKind(Code(children))
        case QuoteHead => if quoted then PlacesAll(children, quoted) else {}
        case DefnHead => Returns(Code(children), false) + PlacesAll(children, quoted)
        case FnHead => Returns(Code(children), false) + PlacesAll(children, quoted)
        case ClassHead => MethodPlaces(children, quoted)
        case _ => PlacesAll(children, quoted)
  }

  ghost function PlacesAll(ns: seq<Node>, quoted: bool): set<Tok>
    decreases ns, 1
  {
    if ns == [] then {} else Places(ns[0], quoted) + PlacesAll(ns[1..], quoted)
  }

  /** A list directly in a class is a method, whatever its head. */
  ghost function MethodPlace(n: Node, quoted: bool): set<Tok>
    decreases n, 1
  {
    if Paren(n) then Returns(Code(n.children), false) + PlacesAll(n.children, quoted) else Places(n, quoted)
  }

  ghost function MethodPlaces(ns: seq<Node>, quoted: bool): set<Tok>
    decreases ns, 2
  {
    if ns == [] then {} else MethodPlace(ns[0], quoted) + MethodPlaces(ns[1..], quoted)
  }

  ghost function FilePlaces(tree: seq<Node>, quoted: bool, sweet: bool): set<Tok> {
    PlacesAll(tree, quoted) + (if sweet then Returns(NonTrivia(tree), true) else {})
  }

  lemma {:induction false} ExposedAt(ns: seq<Node>, i: nat)
    requires i < |ns|
    ensures Exposed(ns[i]) <= ExposedAll(ns)
  {
    if i > 0 { ExposedAt(ns[1..], i - 1); }
  }

  lemma {:induction false} ExposedCode(ns: seq<Node>)
    ensures ExposedAll(Code(ns)) <= ExposedAll(ns) && ExposedAll(NonTrivia(ns)) <= ExposedAll(ns)
  {
    if ns != [] {
      var c, t := Code(ns[1..]), NonTrivia(ns[1..]);
      ExposedCode(ns[1..]);
      assert ([ns[0]] + c)[1..] == c && [] + c == c;
      assert ([ns[0]] + t)[1..] == t && [] + t == t;
    }
  }

  lemma {:induction false} PlacesAt(ns: seq<Node>, i: nat, quoted: bool)
    requires i < |ns|
    ensures Places(ns[i], quoted) <= PlacesAll(ns, quoted) && MethodPlace(ns[i], quoted) <= MethodPlaces(ns, quoted)
    ensures Kw(ns[i]) ==> ns[i].tok in Keys(ns)
  {
    if i > 0 { PlacesAt(ns[1..], i - 1, quoted); }
  }

  lemma {:induction false} PlacesCode(ns: seq<Node>, quoted: bool)
    ensures Keys(Code(ns)) <= Keys(ns) && PlacesAll(Code(ns), quoted) <= PlacesAll(ns, quoted)
    ensures PlacesAll(NonTrivia(ns), quoted) <= PlacesAll(ns, quoted)
  {
    if ns != [] {
      var c, t := Code(ns[1..]), NonTrivia(ns[1..]);
      PlacesCode(ns[1..], quoted);
      assert ([ns[0]] + c)[1..] == c && [] + c == c;
      assert ([ns[0]] + t)[1..] == t && [] + t == t;
    }
  }

  // ----- no slot stands anywhere else -----

  lemma SlotPlaced(items: seq<Node>, i: nat)
    ensures Slot(items, i) <= Keys(items)
  {
    if i < |items| { PlacesAt(items, i, false); }
  }

  lemma {:induction false} ParamsPlaced(items: seq<Node>, i: nat)
    ensures ParamSlots(items, i) <= Keys(items)
    decreases |items| - i
  {
    if i < |items| {
      if Caret(items[i]) {
        ParamsPlaced(items, i + 1);
      } else if SymIs(items[i], "&") {
        var a := Min(i + 2, |items|);
        SlotPlaced(items, a);
        ParamsPlaced(items, a);
        ParamsPlaced(items, a + 1);
        ParamsPlaced(items, a + 2);
      } else if Sym(items[i]) {
        SlotPlaced(items, i + 1);
        ParamsPlaced(items, AfterAnnotation(items, i + 1));
      } else {
        ParamsPlaced(items, i + 1);
      }
    }
  }

  lemma {:induction false} FieldsPlaced(items: seq<Node>, i: nat)
    ensures FieldSlots(items, i) <= Keys(items)
    decreases |items| - i
  {
    if i < |items| {
      SlotPlaced(items, i + 1);
      FieldsPlaced(items, AfterAnnotation(items, i + 1));
      FieldsPlaced(items, i + 1);
    }
  }

  /** What is placed in the code of a vector is placed in the list around it. */
  lemma InsidePlaced(code: seq<Node>, i: nat, slots: set<Tok>, quoted: bool)
    requires i < |code| && Bracket(code[i])
    requires slots <= Keys(Code(code[i].children)) + PlacesAll(Code(code[i].children), quoted)
    ensures slots <= PlacesAll(code, quoted)
  {
    PlacesCode(code[i].children, quoted);
    PlacesAt(code, i, quoted);
  }

  lemma VecPlaced(code: seq<Node>, i: nat, quoted: bool)
    ensures VecSlots(code, i) <= PlacesAll(code, quoted)
  {
    if i < |code| && Bracket(code[i]) {
      ParamsPlaced(Code(code[i].children), 0);
      InsidePlaced(code, i, VecSlots(code, i), quoted);
    }
  }

  lemma {:induction false} HashRun(code: seq<Node>, i: nat)
    ensures forall k | i <= k < SkipHash(code, i) :: k < |code| && HashBrace(code[k])
    decreases |code| - i
  {
    if i < |code| && HashBrace(code[i]) { HashRun(code, i + 1); }
  }

  lemma ReturnPlaced(code: seq<Node>, v: nat, sweet: bool)
    requires v < |code| && Opens(code, v, sweet)
    ensures Slot(code, SkipHash(code, v + 1)) <= Returns(code, sweet)
  {
    var r := SkipHash(code, v + 1);
    HashRun(code, v + 1);
    if r < |code| && Kw(code[r]) {
      assert AllHash(code, v + 1, r);
      assert ReturnPlace(code, r, sweet);
    }
  }

  lemma {:induction false} LetPlaced(items: seq<Node>, i: nat, quoted: bool)
    ensures LetSlots(items, i, quoted) <= Keys(items) + PlacesAll(items, quoted)
    decreases Weights(items), 1, |items| - i
  {
    if i < |items| {
      if !Caret(items[i]) && Sym(items[i]) {
        var v := AfterSpaced(items, AfterFused(items, i + 1));
        SlotPlaced(items, i + 1);
        if v < |items| {
          WeightAt(items, v);
          WalkPlaced(items[v], quoted);
          PlacesAt(items, v, quoted);
        }
        LetPlaced(items, v + 1, quoted);
      } else {
        LetPlaced(items, i + 1, quoted);
      }
    }
  }

  lemma {:induction false} BodyPlaced(code: seq<Node>, i: nat, quoted: bool)
    ensures BodySlots(code, i, quoted) <= PlacesAll(code, quoted)
    decreases Weights(code), 1, |code| - i
  {
    if i < |code| {
      WeightAt(code, i);
      WalkPlaced(code[i], quoted);
      PlacesAt(code, i, quoted);
      BodyPlaced(code, i + 1, quoted);
    }
  }

  lemma {:induction false} SigPlaced(code: seq<Node>, i: nat, quoted: bool)
    requires code != [] && (i == 1 || i >= |code| || Bracket(code[i]))
    ensures SigSlots(code, i, quoted) <= Returns(code, false) + PlacesAll(code, quoted)
    decreases Weights(code), 2
  {
    var r := SkipHash(code, AfterVec(code, i));
    VecPlaced(code, i, quoted);
    if i < |code| && Bracket(code[i]) {
      ReturnPlaced(code, i, false);
    } else if i == 1 {
      ReturnPlaced(code, 0, false);
    }
    BodyPlaced(code, AfterReturn(code, r), quoted);
  }

  lemma {:induction false} StructPlaced(code: seq<Node>, quoted: bool)
    ensures StructSlots(code, quoted) <= PlacesAll(code, quoted)
    decreases Weights(code), 2
  {
    var i := FirstBracket(code, Min(2, |code|));
    if i < |code| {
      FieldsPlaced(Code(code[i].children), 0);
      InsidePlaced(code, i, FieldSlots(Code(code[i].children), 0), quoted);
      BodyPlaced(code, i + 1, quoted);
    }
  }

  lemma {:induction false} BindingPlaced(code: seq<Node>, i: nat, quoted: bool)
    ensures BindingSlots(code, i, quoted) <= PlacesAll(code, quoted)
    decreases Weights(code), 0
  {
    if i < |code| && Bracket(code[i]) {
      CodeOf(code, i);
      LetPlaced(Code(code[i].children), 0, quoted);
      InsidePlaced(code, i, LetSlots(Code(code[i].children), 0, quoted), quoted);
    }
  }

  lemma {:induction false} ClassPlaced(children: seq<Node>, k: nat, quoted: bool)
    ensures ClassSlots(children, k, quoted) <= MethodPlaces(children, quoted)
    decreases Weights(children), 1, |children| - k
  {
    if k < |children| {
      ClassPlaced(children, k + 1, quoted);
      WeightAt(children, k);
      PlacesAt(children, k, quoted);
      if Paren(children[k]) {
        CodeOf(children, k);
        PlacesCode(children[k].children, quoted);
        if Code(children[k].children) != [] { SigPlaced(Code(children[k].children), 1, quoted); }
      } else {
        WalkPlaced(children[k], quoted);
      }
    }
  }

  lemma {:induction false} LetFormPlaced(code: seq<Node>, quoted: bool)
    ensures LetFormSlots(code, quoted) <= PlacesAll(code, quoted)
    decreases Weights(code), 2
  {
    BindingPlaced(code, LetStart(code), quoted);
    BodyPlaced(code, AfterVec(code, LetStart(code)), quoted);
  }

  /** The slots of a list, which its head decides. */
  lemma {:induction false} ListPlaced(n: Node, quoted: bool)
    requires Paren(n) && Weights(Code(n.children)) <= Weights(n.children)
    ensures WalkSlots(n, quoted) <= Places(n, quoted)
    decreases Weights(n.children), 3
  {
    var code := Code(n.children);
    PlacesCode(n.children, quoted);
    match HeadKind(code)
    case QuoteHead => BodyPlaced(n.children, 0, quoted);
    case DefnHead => SigPlaced(code, DefnStart(code), quoted);
    case FnHead => SigPlaced(code, 1, quoted);
    case StructHead => StructPlaced(code, quoted);
    case LetHead => LetFormPlaced(code, quoted);
    case ClassHead => ClassPlaced(n.children, 0, quoted);
    case OtherHead => BodyPlaced(n.children, 0, quoted);
  }

  lemma {:induction false} WalkPlaced(n: Node, quoted: bool)
    ensures WalkSlots(n, quoted) <= Places(n, quoted)
    decreases Weight(n), 0
  {
    if n.Form? && !HashBrace(n) && !DispatchBrace(n) {
      if Paren(n) {
        CodeWeight(n.children);
        ListPlaced(n, quoted);
      } else {
        BodyPlaced(n.children, 0, quoted);
      }
    }
  }

  /** A signature without parentheses, its vector at `a` or its return place next. */
  lemma ImplicitSigPlaced(code: seq<Node>, a: nat, quoted: bool)
    requires 0 < a <= |code| && Sym(code[a - 1])
    ensures VecSlots(code, a) + Slot(code, SkipHash(code, AfterVec(code, a)))
            <= Returns(code, true) + PlacesAll(code, quoted)
  {
    VecPlaced(code, a, quoted);
    ReturnPlaced(code, AfterVec(code, a) - 1, true);
  }

  lemma ImplicitStructPlaced(code: seq<Node>, i: nat, quoted: bool)
    ensures var b := FirstBracket(code, i);
            b < |code| ==> FieldSlots(Code(code[b].children), 0) <= PlacesAll(code, quoted)
  {
    var b := FirstBracket(code, i);
    if b < |code| {
      FieldsPlaced(Code(code[b].children), 0);
      InsidePlaced(code, b, FieldSlots(Code(code[b].children), 0), quoted);
    }
  }

  lemma ImplicitSigNext(code: seq<Node>, i: nat, quoted: bool) returns (own: set<Tok>, q: nat)
    requires i < |code| && SymIn(code[i], DEFN_HEADS + FN_HEADS)
    ensures i < q && ImplicitSlots(code, i, quoted) == own + ImplicitSlots(code, q, quoted)
    ensures own <= Returns(code, true) + PlacesAll(code, quoted)
  {
    var a := if SymIn(code[i], DEFN_HEADS) && i + 1 < |code| && Sym(code[i + 1]) then i + 2 else i + 1;
    var r := SkipHash(code, AfterVec(code, a));
    ImplicitSigPlaced(code, a, quoted);
    own, q := VecSlots(code, a) + Slot(code, r), AfterReturn(code, r);
  }

  lemma ImplicitStructNext(code: seq<Node>, i: nat, quoted: bool) returns (own: set<Tok>, q: nat)
    requires i < |code| && SymIn(code[i], STRUCT_HEADS) && !SymIn(code[i], DEFN_HEADS + FN_HEADS)
    ensures i < q && ImplicitSlots(code, i, quoted) == own + ImplicitSlots(code, q, quoted)
    ensures own <= Returns(code, true) + PlacesAll(code, quoted)
  {
    var b := FirstBracket(code, Min(i + 2, |code|));
    ImplicitStructPlaced(code, Min(i + 2, |code|), quoted);
    own, q := if b < |code| then FieldSlots(Code(code[b].children), 0) else {}, b + 1;
  }

  lemma ImplicitSkips(code: seq<Node>, i: nat, quoted: bool)
    requires i < |code| && !SymIn(code[i], DEFN_HEADS + FN_HEADS)
    requires !SymIn(code[i], STRUCT_HEADS) && !SymIn(code[i], LET_HEADS)
    ensures ImplicitSlots(code, i, quoted) == ImplicitSlots(code, i + 1, quoted)
  {
  }

  lemma ImplicitBindNext(code: seq<Node>, i: nat, quoted: bool) returns (own: set<Tok>, q: nat)
    requires i < |code| && SymIn(code[i], LET_HEADS)
    requires !SymIn(code[i], DEFN_HEADS + FN_HEADS) && !SymIn(code[i], STRUCT_HEADS)
    ensures i < q && ImplicitSlots(code, i, quoted) == own + ImplicitSlots(code, q, quoted)
    ensures own <= Returns(code, true) + PlacesAll(code, quoted)
  {
    var a := if i + 1 < |code| && Sym(code[i + 1]) then i + 2 else i + 1;
    BindingPlaced(code, a, quoted);
    own, q := BindingSlots(code, a, quoted), AfterVec(code, a);
  }

  /** The slots of what begins at `i`, and where the next thing does. */
  lemma ImplicitNext(code: seq<Node>, i: nat, quoted: bool) returns (own: set<Tok>, q: nat)
    requires i < |code|
    ensures i < q && ImplicitSlots(code, i, quoted) == own + ImplicitSlots(code, q, quoted)
    ensures own <= Returns(code, true) + PlacesAll(code, quoted)
  {
    if SymIn(code[i], DEFN_HEADS + FN_HEADS) {
      own, q := ImplicitSigNext(code, i, quoted);
    } else if SymIn(code[i], STRUCT_HEADS) {
      own, q := ImplicitStructNext(code, i, quoted);
    } else if SymIn(code[i], LET_HEADS) {
      own, q := ImplicitBindNext(code, i, quoted);
    } else {
      ImplicitSkips(code, i, quoted);
      own, q := {}, i + 1;
    }
  }

  lemma {:induction false} ImplicitPlaced(code: seq<Node>, i: nat, quoted: bool)
    ensures ImplicitSlots(code, i, quoted) <= Returns(code, true) + PlacesAll(code, quoted)
    decreases |code| - i
  {
    if i < |code| {
      var own, q := ImplicitNext(code, i, quoted);
      ImplicitPlaced(code, q, quoted);
    }
  }

  // ----- those places are keywords outside the braces -----

  lemma ReturnsSeen(code: seq<Node>, sweet: bool)
    ensures Seen(Returns(code, sweet), ExposedAll(code))
  {
    forall j: nat | j < |code| && ReturnPlace(code, j, sweet)
      ensures code[j].tok in ExposedAll(code)
    {
      ExposedAt(code, j);
    }
  }

  lemma {:induction false} KeysSeen(ns: seq<Node>)
    ensures Seen(Keys(ns), ExposedAll(ns))
  {
    if ns != [] { KeysSeen(ns[1..]); }
  }

  lemma {:induction false} PlacesSeen(n: Node, quoted: bool)
    ensures Seen(Places(n, quoted), Exposed(n))
    ensures Paren(n) ==> Seen(MethodPlace(n, quoted), Exposed(n))
    decreases n, 0
  {
    if n.Form? && !HashBrace(n) && !DispatchBrace(n) {
      PlacesAllSeen(n.children, quoted);
      KeysSeen(n.children);
      ReturnsSeen(Code(n.children), false);
      ExposedCode(n.children);
    }
  }

  lemma {:induction false} PlacesAllSeen(ns: seq<Node>, quoted: bool)
    ensures Seen(PlacesAll(ns, quoted), ExposedAll(ns)) && Seen(MethodPlaces(ns, quoted), ExposedAll(ns))
    decreases ns, 1
  {
    if ns != [] {
      PlacesSeen(ns[0], quoted);
      PlacesAllSeen(ns[1..], quoted);
    }
  }

  /** Slots are fused annotations directly in a vector or in a return place, and none is
    * inside a shielding brace. */
  lemma WalkSeen(n: Node, quoted: bool)
    ensures WalkSlots(n, quoted) <= Places(n, quoted) && Seen(WalkSlots(n, quoted), Exposed(n))
  {
    WalkPlaced(n, quoted);
    PlacesSeen(n, quoted);
  }

  lemma ImplicitSeen(code: seq<Node>, i: nat, quoted: bool)
    ensures ImplicitSlots(code, i, quoted) <= Returns(code, true) + PlacesAll(code, quoted)
    ensures Seen(ImplicitSlots(code, i, quoted), ExposedAll(code))
  {
    ImplicitPlaced(code, i, quoted);
    ReturnsSeen(code, true);
    PlacesAllSeen(code, quoted);
  }

  lemma FileSeen(tree: seq<Node>, quoted: bool, sweet: bool)
    ensures FileSlots(tree, quoted, sweet) <= FilePlaces(tree, quoted, sweet)
    ensures Seen(FileSlots(tree, quoted, sweet), ExposedAll(tree))
  {
    BodyPlaced(tree, 0, quoted);
    PlacesAllSeen(tree, quoted);
    PlacesCode(tree, quoted);
    ImplicitSeen(NonTrivia(tree), 0, quoted);
    ExposedCode(tree);
  }

  // ----- exposed and shielded tokens are different tokens -----

  lemma {:induction false} PartsOfNode(n: Node)
    ensures Exposed(n) <= Elems(Flatten(n)) && Shielded(n) <= Elems(Flatten(n))
    ensures Distinct(Flatten(n)) ==> Exposed(n) !! Shielded(n)
    decreases n, 0
  {
    if n.Form? {
      PartsOfNodes(n.children);
      FormContains(n);
      assert Elems(FlattenAll(n.children)) <= Elems(Flatten(n));
      var f := FlattenAll(n.children);
      assert Flatten(n)[1..1 + |f|] == f;
      assert Distinct(Flatten(n)) ==> Distinct(f) by {
        assert forall i | 0 <= i < |f| :: f[i] == Flatten(n)[1 + i];
      }
    }
  }

  lemma {:induction false} PartsOfNodes(ns: seq<Node>)
    ensures ExposedAll(ns) <= Elems(FlattenAll(ns)) && ShieldedAll(ns) <= Elems(FlattenAll(ns))
    ensures Distinct(FlattenAll(ns)) ==> ExposedAll(ns) !! ShieldedAll(ns)
    decreases ns, 1
  {
    if ns != [] {
      PartsOfNode(ns[0]);
      PartsOfNodes(ns[1..]);
      FlattenFirst(ns);
      DistinctParts(Flatten(ns[0]), FlattenAll(ns[1..]));
    }
  }

  lemma DistinctParts(a: seq<Tok>, b: seq<Tok>)
    ensures Elems(a + b) == Elems(a) + Elems(b)
    ensures Distinct(a + b) ==> Distinct(a) && Distinct(b) && Elems(a) !! Elems(b)
  {
    var c := a + b;
    assert forall i | 0 <= i < |a| :: c[i] == a[i];
    assert forall j | 0 <= j < |b| :: c[|a| + j] == b[j];
    if Distinct(c) {
      forall t | t in a
        ensures t !in b
      {
        var i :| 0 <= i < |a| && a[i] == t;
        forall j | 0 <= j < |b|
          ensures b[j] != t
        {
          assert c[|a| + j] == b[j];
        }
      }
    }
  }
}
