/** The type-bearing positions of a form tree, by the shapes of the forms they stand in: the
  * slots of the spaced-types codemod are these positions and no others
  * (tools/spaced-types-rewrite.py, lines 442-563, 571-762 and 789-867). */
module SlotGrammar {
  import opened Wrappers
  import opened Strings
  import opened Tokens
  import opened Forms
  import opened TypeSlots

  // ----- annotations -----

  ghost predicate Fused(items: seq<Node>, r: nat) { r < |items| && Kw(items[r]) }

  ghost predicate Spaced(items: seq<Node>, r: nat) { r < |items| && SymIs(items[r], ":") }

  ghost predicate Compound(items: seq<Node>, r: nat) { r < |items| && (Paren(items[r]) || HashBrace(items[r])) }

  /** A name may be annotated at `r`; what comes next stands at `q`. */
  ghost predicate Annotated(items: seq<Node>, r: nat, q: nat, a: Option<nat>) {
    if Fused(items, r) then a == Some(r) && q == r + 1
    else a == None && q == if Spaced(items, r) then Min(r + 2, |items|) else if Compound(items, r) then r + 1 else r
  }

  // ----- parameters: [^mod* name annotation? ... & rest annotation?] -----

  /** One thing of a parameter vector stands from `p` to `q`, its fused annotation at `a`. */
  ghost predicate ParamStep(items: seq<Node>, p: nat, q: nat, a: Option<nat>) {
    p < |items| &&
    if Caret(items[p]) || !Sym(items[p]) then q == p + 1 && a == None
    else if SymIs(items[p], "&") then
      var r := Min(p + 2, |items|);
      if Fused(items, r) then a == Some(r) && q == r + 1
      else a == None && q == if Spaced(items, r) then r + 2 else r
    else Annotated(items, p + 1, q, a)
  }

  /** Something of the vector begins at `p`, if something does at `i`. */
  ghost predicate ParamsTo(items: seq<Node>, i: nat, p: nat)
    decreases |items| - i
  {
    i == p || (i < |items| && exists q: nat, a :: i < q && ParamStep(items, i, q, a) && ParamsTo(items, q, p))
  }

  ghost predicate ParamSlotFrom(items: seq<Node>, i: nat, t: Tok) {
    exists p: nat, q: nat, a: nat ::
      ParamsTo(items, i, p) && ParamStep(items, p, q, Some(a)) && items[a].tok == t
  }

  /** The token annotates a parameter. */
  ghost predicate ParamSlot(items: seq<Node>, t: Tok) { ParamSlotFrom(items, 0, t) }

  /** The one step from a place. */
  lemma ParamNext(items: seq<Node>, i: nat) returns (q: nat, a: Option<nat>)
    requires i < |items|
    ensures i < q && ParamStep(items, i, q, a) && (a.Some? ==> Fused(items, a.value))
    ensures forall q': nat, a' | ParamStep(items, i, q', a') :: q' == q && a' == a
    ensures ParamSlots(items, i) == (if a.Some? then {items[a.value].tok} else {}) + ParamSlots(items, q)
  {
    if Caret(items[i]) || !Sym(items[i]) {
      q, a := i + 1, None;
    } else if SymIs(items[i], "&") {
      var r := Min(i + 2, |items|);
      a := if Fused(items, r) then Some(r) else None;
      q := if Fused(items, r) then r + 1 else if Spaced(items, r) then r + 2 else r;
    } else {
      a := if Fused(items, i + 1) then Some(i + 1) else None;
      q := AfterAnnotation(items, i + 1);
    }
  }

  lemma {:induction false} ParamSlotsAre(items: seq<Node>, i: nat, t: Tok)
    ensures t in ParamSlots(items, i) <==> ParamSlotFrom(items, i, t)
    decreases |items| - i
  {
    if i < |items| {
      var q, a := ParamNext(items, i);
      ParamSlotsAre(items, q, t);
      if t in ParamSlots(items, i) {
        if a.Some? && t == items[a.value].tok {
          assert ParamsTo(items, i, i);
        } else {
          var p: nat, q': nat, a': nat :|
            ParamsTo(items, q, p) && ParamStep(items, p, q', Some(a')) && items[a'].tok == t;
          assert ParamsTo(items, i, p);
        }
      }
    }
  }

  // ----- fields: [name annotation? ...] -----

  ghost predicate FieldStep(items: seq<Node>, p: nat, q: nat, a: Option<nat>) {
    p < |items| && if Sym(items[p]) then Annotated(items, p + 1, q, a) else q == p + 1 && a == None
  }

  ghost predicate FieldsTo(items: seq<Node>, i: nat, p: nat)
    decreases |items| - i
  {
    i == p || (i < |items| && exists q: nat, a :: i < q && FieldStep(items, i, q, a) && FieldsTo(items, q, p))
  }

  ghost predicate FieldSlotFrom(items: seq<Node>, i: nat, t: Tok) {
    exists p: nat, q: nat, a: nat ::
      FieldsTo(items, i, p) && FieldStep(items, p, q, Some(a)) && items[a].tok == t
  }

  /** The token annotates a field. */
  ghost predicate FieldSlot(items: seq<Node>, t: Tok) { FieldSlotFrom(items, 0, t) }

  lemma FieldNext(items: seq<Node>, i: nat) returns (q: nat, a: Option<nat>)
    requires i < |items|
    ensures i < q && FieldStep(items, i, q, a) && (a.Some? ==> Fused(items, a.value))
    ensures forall q': nat, a' | FieldStep(items, i, q', a') :: q' == q && a' == a
    ensures FieldSlots(items, i) == (if a.Some? then {items[a.value].tok} else {}) + FieldSlots(items, q)
  {
    if Sym(items[i]) {
      a := if Fused(items, i + 1) then Some(i + 1) else None;
      q := AfterAnnotation(items, i + 1);
    } else {
      q, a := i + 1, None;
    }
  }

  lemma {:induction false} FieldSlotsAre(items: seq<Node>, i: nat, t: Tok)
    ensures t in FieldSlots(items, i) <==> FieldSlotFrom(items, i, t)
    decreases |items| - i
  {
    if i < |items| {
      var q, a := FieldNext(items, i);
      FieldSlotsAre(items, q, t);
      if t in FieldSlots(items, i) {
        if a.Some? && t == items[a.value].tok {
          assert FieldsTo(items, i, i);
        } else {
          var p: nat, q': nat, a': nat :|
            FieldsTo(items, q, p) && FieldStep(items, p, q', Some(a')) && items[a'].tok == t;
          assert FieldsTo(items, i, p);
        }
      }
    }
  }

  // ----- bindings: [^mod* name annotation? value ...] -----

  /** One thing of a binding vector stands from `p` to `q`, its fused annotation, which needs
    * a value after it, at `a`, and its value at `v`. */
  ghost predicate BindingStep(items: seq<Node>, p: nat, q: nat, a: Option<nat>, v: Option<nat>) {
    p < |items| &&
    if Caret(items[p]) || !Sym(items[p]) then q == p + 1 && a == None && v == None
    else
      var fused := p + 2 < |items| && Fused(items, p + 1);
      var r := if fused then p + 2 else p + 1;
      var w := if r + 1 < |items| && Spaced(items, r) then r + 2 else r;
      && a == (if fused then Some(p + 1) else None)
      && v == (if w < |items| then Some(w) else None) && q == w + 1
  }

  ghost predicate BindingsTo(items: seq<Node>, i: nat, p: nat)
    decreases |items| - i
  {
    i == p || (i < |items| && exists q: nat, a, v :: i < q && BindingStep(items, i, q, a, v) && BindingsTo(items, q, p))
  }

  ghost predicate BindingSlotFrom(items: seq<Node>, i: nat, t: Tok) {
    exists p: nat, q: nat, a: nat, v ::
      BindingsTo(items, i, p) && BindingStep(items, p, q, Some(a), v) && items[a].tok == t
  }

  ghost predicate BindingValueFrom(items: seq<Node>, i: nat, k: nat) {
    exists p: nat, q: nat, a :: BindingsTo(items, i, p) && BindingStep(items, p, q, a, Some(k))
  }

  /** The token annotates a binding. */
  ghost predicate BindingSlot(items: seq<Node>, t: Tok) { BindingSlotFrom(items, 0, t) }

  /** The form at `k` is the value of a binding. */
  ghost predicate BindingValue(items: seq<Node>, k: nat) { BindingValueFrom(items, 0, k) }

  lemma BindingNext(items: seq<Node>, i: nat, quoted: bool) returns (q: nat, a: Option<nat>, v: Option<nat>)
    requires i < |items|
    ensures i < q && BindingStep(items, i, q, a, v)
    ensures (a.Some? ==> Fused(items, a.value)) && (v.Some? ==> v.value < |items|)
    ensures forall q': nat, a', v' | BindingStep(items, i, q', a', v') :: q' == q && a' == a && v' == v
    ensures LetSlots(items, i, quoted)
         == (if a.Some? then {items[a.value].tok} else {})
            + (if v.Some? then WalkedAt(items, v.value, quoted) else {}) + LetSlots(items, q, quoted)
  {
    q, a, v := i + 1, None, None;
    if !Caret(items[i]) && Sym(items[i]) {
      var w := AfterSpaced(items, AfterFused(items, i + 1));
      a := if i + 2 < |items| && Fused(items, i + 1) then Some(i + 1) else None;
      v := if w < |items| then Some(w) else None;
      q := w + 1;
    }
  }

  lemma BindingStepOn(items: seq<Node>, i: nat, q: nat, a: Option<nat>, v: Option<nat>, t: Tok)
    requires i < q && BindingStep(items, i, q, a, v)
    requires forall q': nat, a', v' | BindingStep(items, i, q', a', v') :: q' == q && a' == a && v' == v
    ensures BindingSlotFrom(items, i, t) <==> (a.Some? && items[a.value].tok == t) || BindingSlotFrom(items, q, t)
    ensures forall k: nat :: BindingValueFrom(items, i, k) <==> v == Some(k) || BindingValueFrom(items, q, k)
  {
    assert BindingsTo(items, i, i);
    forall p: nat | BindingsTo(items, q, p)
      ensures BindingsTo(items, i, p)
    {
    }
  }

  lemma {:induction false} LetSlotsAre(items: seq<Node>, i: nat, quoted: bool, t: Tok)
    ensures t in LetSlots(items, i, quoted) <==>
            || BindingSlotFrom(items, i, t)
            || exists k: nat :: BindingValueFrom(items, i, k) && t in WalkedAt(items, k, quoted)
    decreases |items| - i
  {
    if i < |items| {
      var q, a, v := BindingNext(items, i, quoted);
      LetSlotsAre(items, q, quoted, t);
      BindingStepOn(items, i, q, a, v, t);
    }
  }

  // ----- signatures: [PARAMS] #{...}* annotation? body... -----

  /** Past the vector at `i`, if one stands there, and past what braces follow it, is `r`. */
  ghost predicate ReturnAt(code: seq<Node>, i: nat, r: nat) {
    var s := if i < |code| && Bracket(code[i]) then i + 1 else i;
    s <= r && (forall k | s <= k < r :: k < |code| && HashBrace(code[k])) && !(r < |code| && HashBrace(code[r]))
  }

  /** The token annotates a parameter or the result. */
  ghost predicate SigSlot(code: seq<Node>, i: nat, t: Tok) {
    || (i < |code| && Bracket(code[i]) && ParamSlot(Code(code[i].children), t))
    || exists r: nat :: ReturnAt(code, i, r) && Fused(code, r) && code[r].tok == t
  }

  /** The form at `k` is in the body, past the annotation of the result. */
  ghost predicate SigBody(code: seq<Node>, i: nat, k: nat) {
    exists r: nat :: ReturnAt(code, i, r) && k < |code| &&
      k >= if Fused(code, r) then r + 1 else if Spaced(code, r) then r + 2 else r
  }

  lemma ReturnIs(code: seq<Node>, i: nat) returns (r: nat)
    ensures r == SkipHash(code, AfterVec(code, i)) && ReturnAt(code, i, r)
    ensures forall r': nat | ReturnAt(code, i, r') :: r' == r
  {
    r := SkipHash(code, AfterVec(code, i));
    HashRun(code, AfterVec(code, i));
    NotHash(code, AfterVec(code, i));
  }

  lemma {:induction false} NotHash(code: seq<Node>, i: nat)
    ensures var r := SkipHash(code, i); !(r < |code| && HashBrace(code[r]))
    decreases |code| - i
  {
    if i < |code| && HashBrace(code[i]) { NotHash(code, i + 1); }
  }

  lemma {:induction false} BodyAt(code: seq<Node>, i: nat, quoted: bool, t: Tok) returns (k: nat)
    requires t in BodySlots(code, i, quoted)
    ensures i <= k < |code| && t in WalkedAt(code, k, quoted)
    decreases |code| - i
  {
    if t in WalkedAt(code, i, quoted) { k := i; } else { k := BodyAt(code, i + 1, quoted, t); }
  }

  lemma {:induction false} BodyIn(code: seq<Node>, i: nat, k: nat, quoted: bool, t: Tok)
    requires i <= k < |code| && t in WalkedAt(code, k, quoted)
    ensures t in BodySlots(code, i, quoted)
    decreases |code| - i
  {
    if i < k { BodyIn(code, i + 1, k, quoted, t); }
  }

  lemma BodyIs(code: seq<Node>, i: nat, quoted: bool, t: Tok)
    ensures t in BodySlots(code, i, quoted) <==> exists k: nat :: i <= k < |code| && t in WalkedAt(code, k, quoted)
  {
    if t in BodySlots(code, i, quoted) { var k := BodyAt(code, i, quoted, t); }
    forall k: nat | i <= k < |code| && t in WalkedAt(code, k, quoted)
      ensures t in BodySlots(code, i, quoted)
    {
      BodyIn(code, i, k, quoted, t);
    }
  }

  lemma SigIs(code: seq<Node>, i: nat, quoted: bool, t: Tok)
    ensures t in SigSlots(code, i, quoted) <==>
            SigSlot(code, i, t) || exists k: nat :: SigBody(code, i, k) && t in WalkedAt(code, k, quoted)
  {
    var r := ReturnIs(code, i);
    BodyIs(code, AfterReturn(code, r), quoted, t);
    if i < |code| && Bracket(code[i]) { ParamSlotsAre(Code(code[i].children), 0, t); }
    forall k: nat | k < |code|
      ensures SigBody(code, i, k) <==> k >= AfterReturn(code, r)
    {
    }
  }

  // ----- forms -----

  /** The first bracket from `from` on stands at `i`, or none does and `i` is at the end. */
  ghost predicate BracketFrom(code: seq<Node>, from: nat, i: nat) {
    from <= i && (forall k | from <= k < i && k < |code| :: !Bracket(code[k]))
    && (i < |code| ==> Bracket(code[i])) && (i >= |code| ==> i == if from > |code| then from else |code|)
  }

  /** The vector of a definition. */
  ghost predicate DefnVec(code: seq<Node>, i: nat) { BracketFrom(code, Min(2, |code|), i) }

  function LetVec(code: seq<Node>): nat { if 1 < |code| && Sym(code[1]) then 2 else 1 }

  ghost predicate ClassMember(children: seq<Node>, k: nat) {
    k < |children| && Paren(children[k]) && Code(children[k].children) != []
  }

  /** What a list is taken for: nothing else than a list is taken for anything. */
  ghost function Taken(n: Node): Head {
    if Paren(n) then HeadKind(Code(n.children)) else OtherHead
  }

  /** No `#{...}` and no dispatch brace. */
  ghost predicate Plain(n: Node) { n.Form? && !HashBrace(n) && !DispatchBrace(n) }

  /** The token is a slot of this very form: it annotates a parameter, the result, a field
    * or a binding. */
  ghost predicate SlotOf(n: Node, t: Tok) {
    Plain(n) &&
    var code := Code(n.children);
    match Taken(n)
    case DefnHead => exists i: nat :: DefnVec(code, i) && SigSlot(code, i, t)
    case FnHead => SigSlot(code, 1, t)
    case StructHead => exists i: nat :: DefnVec(code, i) && i < |code| && FieldSlot(Code(code[i].children), t)
    case LetHead => var i := LetVec(code); i < |code| && Bracket(code[i]) && BindingSlot(Code(code[i].children), t)
    case ClassHead => exists k: nat :: ClassMember(n.children, k) && SigSlot(Code(n.children[k].children), 1, t)
    case _ => false
  }

  /** The form is looked into from this one: bodies, the values of bindings, and everything
    * in a form of no such kind; quoted forms on request. */
  ghost predicate Inside(n: Node, m: Node, quoted: bool) {
    Plain(n) &&
    var code := Code(n.children);
    match Taken(n)
    case QuoteHead => quoted && m in n.children
    case DefnHead => exists i: nat, k: nat :: DefnVec(code, i) && SigBody(code, i, k) && m == code[k]
    case FnHead => exists k: nat :: SigBody(code, 1, k) && m == code[k]
    case StructHead => exists i: nat, k: nat :: DefnVec(code, i) && i < k < |code| && m == code[k]
    case LetHead =>
      var i := LetVec(code);
      if i < |code| && Bracket(code[i]) then
        var items := Code(code[i].children);
        || (exists k: nat :: BindingValue(items, k) && k < |items| && m == items[k])
        || (exists k: nat :: i < k < |code| && m == code[k])
      else exists k: nat :: i <= k < |code| && m == code[k]
    case ClassHead => exists k: nat :: k < |n.children| && InsideMember(n.children[k], m)
    case OtherHead => m in n.children
  }

  ghost predicate InsideMember(x: Node, m: Node) {
    if Paren(x) then
      Code(x.children) != [] && exists k: nat :: SigBody(Code(x.children), 1, k) && m == Code(x.children)[k]
    else m == x
  }

  // ----- the slots of one form and of what it looks into -----

  /** The form and all that is in it. */
  ghost function AllNodes(n: Node): set<Node>
    decreases n, 0
  {
    {n} + if n.Form? then Under(n.children) else {}
  }

  ghost function Under(ns: seq<Node>): set<Node>
    decreases ns, 1
  {
    if ns == [] then {} else AllNodes(ns[0]) + Under(ns[1..])
  }

  lemma {:induction false} UnderHas(ns: seq<Node>, i: nat)
    requires i < |ns|
    ensures AllNodes(ns[i]) <= Under(ns) && ns[i] in Under(ns) && Weight(ns[i]) <= Weights(ns)
  {
    if i > 0 { UnderHas(ns[1..], i - 1); }
  }

  lemma {:induction false} UnderCode(ns: seq<Node>)
    ensures Under(Code(ns)) <= Under(ns) && Weights(Code(ns)) <= Weights(ns)
  {
    if ns != [] {
      var c := Code(ns[1..]);
      UnderCode(ns[1..]);
      assert ([ns[0]] + c)[1..] == c && [] + c == c;
    }
  }

  /** A place in the code of a form. */
  lemma CodeHas(n: Node, k: nat)
    requires n.Form? && k < |Code(n.children)|
    ensures Code(n.children)[k] in AllNodes(n) && Weight(Code(n.children)[k]) < Weight(n)
    ensures AllNodes(Code(n.children)[k]) <= AllNodes(n)
  {
    UnderCode(n.children);
    UnderHas(Code(n.children), k);
  }

  lemma ChildHas(n: Node, k: nat)
    requires n.Form? && k < |n.children|
    ensures n.children[k] in AllNodes(n) && Weight(n.children[k]) < Weight(n)
    ensures AllNodes(n.children[k]) <= AllNodes(n)
  {
    UnderHas(n.children, k);
  }

  /** What is looked into is in the form, and smaller. */
  lemma InsideIsUnder(n: Node, m: Node, quoted: bool)
    requires Inside(n, m, quoted)
    ensures m in AllNodes(n) && Weight(m) < Weight(n)
  {
    var code := Code(n.children);
    if m in n.children {
      var k :| 0 <= k < |n.children| && n.children[k] == m;
      ChildHas(n, k);
    } else if m in code {
      var k :| 0 <= k < |code| && code[k] == m;
      CodeHas(n, k);
    } else if Taken(n) == LetHead {
      var i := LetVec(code);
      CodeHas(n, i);
      var items := Code(code[i].children);
      var k: nat :| BindingValue(items, k) && k < |items| && m == items[k];
      CodeHas(code[i], k);
    } else {
      var k: nat :| k < |n.children| && InsideMember(n.children[k], m);
      ChildHas(n, k);
      var j: nat :| SigBody(Code(n.children[k].children), 1, j) && m == Code(n.children[k].children)[j];
      CodeHas(n.children[k], j);
    }
  }

  lemma VecIs(code: seq<Node>, from: nat) returns (i: nat)
    ensures i == FirstBracket(code, from) && BracketFrom(code, from, i)
    ensures forall i': nat | BracketFrom(code, from, i') :: i' == i
  {
    i := FirstBracket(code, from);
    FirstBracketIs(code, from);
  }

  lemma {:induction false} FirstBracketIs(code: seq<Node>, from: nat)
    ensures BracketFrom(code, from, FirstBracket(code, from))
    decreases |code| - from
  {
    if from < |code| && !Bracket(code[from]) { FirstBracketIs(code, from + 1); }
  }

  ghost predicate InsideSlot(n: Node, quoted: bool, t: Tok) {
    exists m | m in AllNodes(n) :: Inside(n, m, quoted) && t in WalkSlots(m, quoted)
  }

  lemma WalkedIs(code: seq<Node>, k: nat, quoted: bool)
    requires k < |code|
    ensures WalkedAt(code, k, quoted) == WalkSlots(code[k], quoted)
  {
  }

  /** A list of a definition, a function, or a method. */
  lemma SigInside(code: seq<Node>, i: nat, quoted: bool, t: Tok)
    ensures t in SigSlots(code, i, quoted) <==>
            SigSlot(code, i, t) || exists k: nat :: SigBody(code, i, k) && t in WalkSlots(code[k], quoted)
  {
    SigIs(code, i, quoted, t);
    forall k: nat | SigBody(code, i, k)
      ensures WalkedAt(code, k, quoted) == WalkSlots(code[k], quoted)
    {
      WalkedIs(code, k, quoted);
    }
  }

  lemma DefnStep(n: Node, quoted: bool, t: Tok)
    requires Plain(n) && Taken(n) == DefnHead
    ensures t in WalkSlots(n, quoted) <==> SlotOf(n, t) || InsideSlot(n, quoted, t)
  {
    var code := Code(n.children);
    var i := VecIs(code, Min(2, |code|));
    SigInside(code, i, quoted, t);
    if t in WalkSlots(n, quoted) && !SlotOf(n, t) {
      var k: nat :| SigBody(code, i, k) && t in WalkSlots(code[k], quoted);
      assert DefnVec(code, i) && Inside(n, code[k], quoted);
      CodeHas(n, k);
    }
  }

  lemma FnStep(n: Node, quoted: bool, t: Tok)
    requires Plain(n) && Taken(n) == FnHead
    ensures t in WalkSlots(n, quoted) <==> SlotOf(n, t) || InsideSlot(n, quoted, t)
  {
    var code := Code(n.children);
    SigInside(code, 1, quoted, t);
    if t in WalkSlots(n, quoted) && !SlotOf(n, t) {
      var k: nat :| SigBody(code, 1, k) && t in WalkSlots(code[k], quoted);
      assert Inside(n, code[k], quoted);
      CodeHas(n, k);
    }
  }

  /** The same of what is walked from a place on. */
  lemma BodyFind(code: seq<Node>, i: nat, quoted: bool, t: Tok) returns (k: nat)
    requires t in BodySlots(code, i, quoted)
    ensures i <= k < |code| && t in WalkSlots(code[k], quoted)
  {
    k := BodyAt(code, i, quoted, t);
    WalkedIs(code, k, quoted);
  }

  lemma BodyHas(code: seq<Node>, i: nat, k: nat, quoted: bool, t: Tok)
    requires i <= k < |code| && t in WalkSlots(code[k], quoted)
    ensures t in BodySlots(code, i, quoted)
  {
    WalkedIs(code, k, quoted);
    BodyIn(code, i, k, quoted, t);
  }

  lemma StructIs(n: Node, quoted: bool, t: Tok)
    requires Plain(n) && Taken(n) == StructHead
    ensures var code := Code(n.children); var i := FirstBracket(code, Min(2, |code|));
            t in WalkSlots(n, quoted) <==>
            i < |code| && (FieldSlot(Code(code[i].children), t) || t in BodySlots(code, i + 1, quoted))
  {
    var code := Code(n.children);
    var i := FirstBracket(code, Min(2, |code|));
    if i < |code| { FieldSlotsAre(Code(code[i].children), 0, t); }
  }

  /** What a structure looks into: what follows its fields. */
  lemma StructInside(n: Node, k: nat, quoted: bool)
    requires Plain(n) && Taken(n) == StructHead && FirstBracket(Code(n.children), Min(2, |Code(n.children)|)) < k
    requires k < |Code(n.children)|
    ensures Inside(n, Code(n.children)[k], quoted) && Code(n.children)[k] in AllNodes(n)
  {
    var i := VecIs(Code(n.children), Min(2, |Code(n.children)|));
    assert DefnVec(Code(n.children), i);
    CodeHas(n, k);
  }

  lemma StructLooks(n: Node, m: Node, quoted: bool) returns (k: nat)
    requires Plain(n) && Taken(n) == StructHead && Inside(n, m, quoted)
    ensures FirstBracket(Code(n.children), Min(2, |Code(n.children)|)) < k < |Code(n.children)|
    ensures m == Code(n.children)[k]
  {
    var i := VecIs(Code(n.children), Min(2, |Code(n.children)|));
    var i': nat, k': nat :| DefnVec(Code(n.children), i') && i' < k' < |Code(n.children)| && m == Code(n.children)[k'];
    k := k';
  }

  lemma StructOwn(n: Node, t: Tok)
    requires Plain(n) && Taken(n) == StructHead
    ensures var code := Code(n.children); var i := FirstBracket(code, Min(2, |code|));
            SlotOf(n, t) <==> i < |code| && FieldSlot(Code(code[i].children), t)
  {
    var i := VecIs(Code(n.children), Min(2, |Code(n.children)|));
    assert DefnVec(Code(n.children), i);
  }

  lemma StructFind(n: Node, quoted: bool, t: Tok)
    requires Plain(n) && Taken(n) == StructHead
    requires var code := Code(n.children); t in BodySlots(code, FirstBracket(code, Min(2, |code|)) + 1, quoted)
    ensures InsideSlot(n, quoted, t)
  {
    var code := Code(n.children);
    var k := BodyFind(code, FirstBracket(code, Min(2, |code|)) + 1, quoted, t);
    StructInside(n, k, quoted);
  }

  lemma StructBack(n: Node, m: Node, quoted: bool, t: Tok)
    requires Plain(n) && Taken(n) == StructHead && Inside(n, m, quoted) && t in WalkSlots(m, quoted)
    ensures var code := Code(n.children); var i := FirstBracket(code, Min(2, |code|));
            i < |code| && t in BodySlots(code, i + 1, quoted)
  {
    var code := Code(n.children);
    var k := StructLooks(n, m, quoted);
    BodyHas(code, FirstBracket(code, Min(2, |code|)) + 1, k, quoted, t);
  }

  lemma StructStep(n: Node, quoted: bool, t: Tok)
    requires Plain(n) && Taken(n) == StructHead
    ensures t in WalkSlots(n, quoted) <==> SlotOf(n, t) || InsideSlot(n, quoted, t)
  {
    var code := Code(n.children);
    StructIs(n, quoted, t);
    StructOwn(n, t);
    if t in BodySlots(code, FirstBracket(code, Min(2, |code|)) + 1, quoted) { StructFind(n, quoted, t); }
    forall m | m in AllNodes(n) && Inside(n, m, quoted) && t in WalkSlots(m, quoted)
      ensures t in WalkSlots(n, quoted)
    {
      StructBack(n, m, quoted, t);
    }
  }

  lemma BindingStepIs(n: Node, quoted: bool, t: Tok)
    requires Plain(n) && Taken(n) == LetHead
    ensures var code, i := Code(n.children), LetVec(Code(n.children));
            t in BindingSlots(code, i, quoted) <==>
            i < |code| && Bracket(code[i]) &&
            var items := Code(code[i].children);
            BindingSlot(items, t)
            || exists k: nat :: BindingValue(items, k) && k < |items| && t in WalkSlots(items[k], quoted)
  {
    var code, i := Code(n.children), LetVec(Code(n.children));
    if i < |code| && Bracket(code[i]) {
      var items := Code(code[i].children);
      LetSlotsAre(items, 0, quoted, t);
      forall k: nat
        ensures t in WalkedAt(items, k, quoted) <==> k < |items| && t in WalkSlots(items[k], quoted)
      {
        if k < |items| { WalkedIs(items, k, quoted); }
      }
    }
  }

  lemma LetIs(n: Node, quoted: bool, t: Tok)
    requires Plain(n) && Taken(n) == LetHead
    ensures var code, i := Code(n.children), LetVec(Code(n.children));
            t in WalkSlots(n, quoted) <==>
            t in BindingSlots(code, i, quoted) || t in BodySlots(code, AfterVec(code, i), quoted)
  {
  }

  /** What a binding form looks into: values, */
  lemma ValueInside(n: Node, k: nat, quoted: bool)
    requires Plain(n) && Taken(n) == LetHead
    requires var code, i := Code(n.children), LetVec(Code(n.children));
             i < |code| && Bracket(code[i]) && BindingValue(Code(code[i].children), k) && k < |Code(code[i].children)|
    ensures var m := Code(Code(n.children)[LetVec(Code(n.children))].children)[k];
            Inside(n, m, quoted) && m in AllNodes(n)
  {
    var code, i := Code(n.children), LetVec(Code(n.children));
    CodeHas(n, i);
    CodeHas(code[i], k);
  }

  /** and its body. */
  lemma LetBodyInside(n: Node, k: nat, quoted: bool)
    requires Plain(n) && Taken(n) == LetHead
    requires AfterVec(Code(n.children), LetVec(Code(n.children))) <= k < |Code(n.children)|
    ensures Inside(n, Code(n.children)[k], quoted) && Code(n.children)[k] in AllNodes(n)
  {
    CodeHas(n, k);
  }

  lemma LetStep(n: Node, quoted: bool, t: Tok)
    requires Plain(n) && Taken(n) == LetHead
    ensures t in WalkSlots(n, quoted) <==> SlotOf(n, t) || InsideSlot(n, quoted, t)
  {
    LetIs(n, quoted, t);
    BindingStepIs(n, quoted, t);
    if t in WalkSlots(n, quoted) && !SlotOf(n, t) { LetFind(n, quoted, t); }
    forall m | m in AllNodes(n) && Inside(n, m, quoted) && t in WalkSlots(m, quoted)
      ensures t in WalkSlots(n, quoted)
    {
      LetBack(n, m, quoted, t);
    }
  }

  lemma LetFind(n: Node, quoted: bool, t: Tok)
    requires Plain(n) && Taken(n) == LetHead && t in WalkSlots(n, quoted) && !SlotOf(n, t)
    ensures InsideSlot(n, quoted, t)
  {
    var code, i := Code(n.children), LetVec(Code(n.children));
    LetIs(n, quoted, t);
    BindingStepIs(n, quoted, t);
    if t in BodySlots(code, AfterVec(code, i), quoted) {
      var k := BodyFind(code, AfterVec(code, i), quoted, t);
      LetBodyInside(n, k, quoted);
    } else {
      var items := Code(code[i].children);
      var k: nat :| BindingValue(items, k) && k < |items| && t in WalkSlots(items[k], quoted);
      ValueInside(n, k, quoted);
    }
  }

  /** The value or the body form that is looked into. */
  lemma LetLooks(n: Node, m: Node, quoted: bool) returns (value: bool, k: nat)
    requires Plain(n) && Taken(n) == LetHead && Inside(n, m, quoted)
    ensures var code, i := Code(n.children), LetVec(Code(n.children));
            if value then
              && i < |code| && Bracket(code[i]) && k < |Code(code[i].children)|
              && BindingValue(Code(code[i].children), k) && m == Code(code[i].children)[k]
            else AfterVec(code, i) <= k < |code| && m == code[k]
  {
    var code, i := Code(n.children), LetVec(Code(n.children));
    if j: nat :| AfterVec(code, i) <= j < |code| && m == code[j] {
      value, k := false, j;
    } else {
      var items := Code(code[i].children);
      var j: nat :| BindingValue(items, j) && j < |items| && m == items[j];
      value, k := true, j;
    }
  }

  lemma LetBack(n: Node, m: Node, quoted: bool, t: Tok)
    requires Plain(n) && Taken(n) == LetHead && Inside(n, m, quoted) && t in WalkSlots(m, quoted)
    ensures var code, i := Code(n.children), LetVec(Code(n.children));
            t in BindingSlots(code, i, quoted) || t in BodySlots(code, AfterVec(code, i), quoted)
  {
    var code, i := Code(n.children), LetVec(Code(n.children));
    var value, k := LetLooks(n, m, quoted);
    if value {
      BindingStepIs(n, quoted, t);
    } else {
      BodyHas(code, AfterVec(code, i), k, quoted, t);
    }
  }

  lemma MemberStep(n: Node, k: nat, quoted: bool, t: Tok)
    requires Plain(n) && Taken(n) == ClassHead && k < |n.children|
    ensures t in MethodSlots(n.children, k, quoted) <==>
            || (ClassMember(n.children, k) && SigSlot(Code(n.children[k].children), 1, t))
            || exists m | m in AllNodes(n) :: InsideMember(n.children[k], m) && t in WalkSlots(m, quoted)
  {
    var x := n.children[k];
    ChildHas(n, k);
    if Paren(x) {
      var code := Code(x.children);
      SigInside(code, 1, quoted, t);
      forall j: nat | SigBody(code, 1, j)
        ensures code[j] in AllNodes(n)
      {
        CodeHas(x, j);
      }
    }
  }

  lemma {:induction false} ClassFind(children: seq<Node>, k: nat, quoted: bool, t: Tok) returns (j: nat)
    requires t in ClassSlots(children, k, quoted)
    ensures k <= j < |children| && t in MethodSlots(children, j, quoted)
    decreases |children| - k
  {
    if t in MethodSlots(children, k, quoted) { j := k; } else { j := ClassFind(children, k + 1, quoted, t); }
  }

  lemma {:induction false} ClassHas(children: seq<Node>, k: nat, j: nat, quoted: bool, t: Tok)
    requires k <= j < |children| && t in MethodSlots(children, j, quoted)
    ensures t in ClassSlots(children, k, quoted)
    decreases |children| - k
  {
    if k < j { ClassHas(children, k + 1, j, quoted, t); }
  }

  lemma ClassIs(n: Node, quoted: bool)
    requires Plain(n) && Taken(n) == ClassHead
    ensures WalkSlots(n, quoted) == ClassSlots(n.children, 0, quoted)
  {
  }

  lemma ClassStep(n: Node, quoted: bool, t: Tok)
    requires Plain(n) && Taken(n) == ClassHead
    ensures t in WalkSlots(n, quoted) <==> SlotOf(n, t) || InsideSlot(n, quoted, t)
  {
    ClassIs(n, quoted);
    if t in WalkSlots(n, quoted) {
      var k := ClassFind(n.children, 0, quoted, t);
      MemberStep(n, k, quoted, t);
      if !SlotOf(n, t) {
        var m :| m in AllNodes(n) && InsideMember(n.children[k], m) && t in WalkSlots(m, quoted);
        assert Inside(n, m, quoted);
      }
    }
    if SlotOf(n, t) {
      var k: nat :| ClassMember(n.children, k) && SigSlot(Code(n.children[k].children), 1, t);
      MemberStep(n, k, quoted, t);
      ClassHas(n.children, 0, k, quoted, t);
    } else if InsideSlot(n, quoted, t) {
      var m :| m in AllNodes(n) && Inside(n, m, quoted) && t in WalkSlots(m, quoted);
      var k: nat :| k < |n.children| && InsideMember(n.children[k], m);
      MemberStep(n, k, quoted, t);
      ClassHas(n.children, 0, k, quoted, t);
    }
  }

  lemma OtherIs(n: Node, quoted: bool)
    requires Plain(n) && Taken(n) in {QuoteHead, OtherHead}
    ensures WalkSlots(n, quoted)
         == if Taken(n) == OtherHead || quoted then BodySlots(n.children, 0, quoted) else {}
  {
  }

  lemma OtherStep(n: Node, quoted: bool, t: Tok)
    requires Plain(n) && Taken(n) in {QuoteHead, OtherHead}
    ensures t in WalkSlots(n, quoted) <==> SlotOf(n, t) || InsideSlot(n, quoted, t)
  {
    OtherIs(n, quoted);
    if t in WalkSlots(n, quoted) {
      var k := BodyFind(n.children, 0, quoted, t);
      ChildHas(n, k);
      assert Inside(n, n.children[k], quoted);
    }
    if InsideSlot(n, quoted, t) {
      var m :| m in AllNodes(n) && Inside(n, m, quoted) && t in WalkSlots(m, quoted);
      var k: nat :| k < |n.children| && n.children[k] == m;
      BodyHas(n.children, 0, k, quoted, t);
    }
  }

  /** The slots of a form are its own and those of what it looks into. */
  lemma FormStep(n: Node, quoted: bool, t: Tok)
    ensures t in WalkSlots(n, quoted) <==> SlotOf(n, t) || InsideSlot(n, quoted, t)
  {
    if Plain(n) {
      match Taken(n)
      case DefnHead => DefnStep(n, quoted, t);
      case FnHead => FnStep(n, quoted, t);
      case StructHead => StructStep(n, quoted, t);
      case LetHead => LetStep(n, quoted, t);
      case ClassHead => ClassStep(n, quoted, t);
      case _ => OtherStep(n, quoted, t);
    }
  }

  // ----- the slots of a whole tree -----

  /** The form is looked into from `n`, or from what is, and so on. */
  ghost predicate Reached(n: Node, m: Node, quoted: bool)
    decreases Weight(n)
  {
    n == m || exists k | k in AllNodes(n) :: Inside(n, k, quoted) && Weight(k) < Weight(n) && Reached(k, m, quoted)
  }

  lemma {:induction false} ReachedIsUnder(n: Node, m: Node, quoted: bool)
    requires Reached(n, m, quoted)
    ensures m in AllNodes(n)
    decreases Weight(n)
  {
    if n != m {
      var k :| k in AllNodes(n) && Inside(n, k, quoted) && Weight(k) < Weight(n) && Reached(k, m, quoted);
      ReachedIsUnder(k, m, quoted);
      UnderIn(n, k);
    }
  }

  lemma {:induction false} UnderIn(n: Node, k: Node)
    requires k in AllNodes(n)
    ensures AllNodes(k) <= AllNodes(n)
    decreases n, 0
  {
    if k != n { UnderInAll(n.children, k); }
  }

  lemma {:induction false} UnderInAll(ns: seq<Node>, k: Node)
    requires k in Under(ns)
    ensures AllNodes(k) <= Under(ns)
    decreases ns, 1
  {
    if k in AllNodes(ns[0]) { UnderIn(ns[0], k); } else { UnderInAll(ns[1..], k); }
  }

  /** Exactly: a token is a slot below `n` if and only if it is a slot of a form that is
    * reached from `n`. */
  lemma {:induction false} SlotsAre(n: Node, quoted: bool, t: Tok)
    ensures t in WalkSlots(n, quoted) <==> exists m | m in AllNodes(n) :: Reached(n, m, quoted) && SlotOf(m, t)
    decreases Weight(n)
  {
    FormStep(n, quoted, t);
    forall k | k in AllNodes(n) && Inside(n, k, quoted)
      ensures Weight(k) < Weight(n)
      ensures t in WalkSlots(k, quoted) <==> exists m | m in AllNodes(k) :: Reached(k, m, quoted) && SlotOf(m, t)
    {
      InsideIsUnder(n, k, quoted);
      SlotsAre(k, quoted, t);
    }
    if t in WalkSlots(n, quoted) {
      if SlotOf(n, t) {
        assert Reached(n, n, quoted);
      } else {
        var k :| k in AllNodes(n) && Inside(n, k, quoted) && t in WalkSlots(k, quoted);
        var m :| m in AllNodes(k) && Reached(k, m, quoted) && SlotOf(m, t);
        UnderIn(n, k);
        assert Reached(n, m, quoted);
      }
    }
    if m :| m in AllNodes(n) && Reached(n, m, quoted) && SlotOf(m, t) {
      if m != n {
        var k :| k in AllNodes(n) && Inside(n, k, quoted) && Weight(k) < Weight(n) && Reached(k, m, quoted);
        ReachedIsUnder(k, m, quoted);
      }
    }
  }

  // ----- definitions without parentheses -----

  /** Where the parameters of the definition or function whose head stands at `p` are. */
  ghost function HeadVec(code: seq<Node>, p: nat): nat
    requires p < |code|
  {
    if SymIn(code[p], DEFN_HEADS) && p + 1 < |code| && Sym(code[p + 1]) then p + 2 else p + 1
  }

  ghost function LetVecAt(code: seq<Node>, p: nat): nat {
    if p + 1 < |code| && Sym(code[p + 1]) then p + 2 else p + 1
  }

  /** What begins at `p` of a flat file goes on to `q`. */
  ghost predicate FlatStep(code: seq<Node>, p: nat, q: nat) {
    p < |code| &&
    if SymIn(code[p], DEFN_HEADS + FN_HEADS) then
      exists r: nat :: ReturnAt(code, HeadVec(code, p), r) &&
        q == if Fused(code, r) then r + 1 else if Spaced(code, r) then Min(r + 2, |code|) else r
    else if SymIn(code[p], STRUCT_HEADS) then
      var from := Min(p + 2, |code|);
      exists b: nat :: BracketFrom(code, from, b) && q == b + 1
    else if SymIn(code[p], LET_HEADS) then
      var a := LetVecAt(code, p);
      q == if a < |code| && Bracket(code[a]) then a + 1 else a
    else q == p + 1
  }

  /** The token is a slot of what begins at `p`. */
  ghost predicate FlatSlot(code: seq<Node>, p: nat, quoted: bool, t: Tok) {
    p < |code| &&
    if SymIn(code[p], DEFN_HEADS + FN_HEADS) then SigSlot(code, HeadVec(code, p), t)
    else if SymIn(code[p], STRUCT_HEADS) then
      var from := Min(p + 2, |code|);
      exists b: nat :: BracketFrom(code, from, b) && b < |code| && FieldSlot(Code(code[b].children), t)
    else if SymIn(code[p], LET_HEADS) then
      var a := LetVecAt(code, p);
      a < |code| && Bracket(code[a]) &&
      var items := Code(code[a].children);
      || BindingSlot(items, t)
      || exists k: nat :: BindingValue(items, k) && k < |items| && t in WalkSlots(items[k], quoted)
    else false
  }

  ghost predicate FlatTo(code: seq<Node>, i: nat, p: nat)
    decreases |code| - i
  {
    i == p || (i < |code| && exists q: nat :: i < q && FlatStep(code, i, q) && FlatTo(code, q, p))
  }

  ghost predicate FlatSlotFrom(code: seq<Node>, i: nat, quoted: bool, t: Tok) {
    exists p: nat :: FlatTo(code, i, p) && FlatSlot(code, p, quoted, t)
  }

  lemma FlatSig(code: seq<Node>, i: nat, quoted: bool, t: Tok) returns (q: nat)
    requires i < |code| && SymIn(code[i], DEFN_HEADS + FN_HEADS)
    ensures i < q && FlatStep(code, i, q) && forall q': nat | FlatStep(code, i, q') :: q' == q
    ensures t in ImplicitSlots(code, i, quoted) <==> FlatSlot(code, i, quoted, t) || t in ImplicitSlots(code, q, quoted)
  {
    var a := HeadVec(code, i);
    var r := ReturnIs(code, a);
    q := AfterReturn(code, r);
    if a < |code| && Bracket(code[a]) { ParamSlotsAre(Code(code[a].children), 0, t); }
  }

  lemma FlatStruct(code: seq<Node>, i: nat, quoted: bool, t: Tok) returns (q: nat)
    requires i < |code| && SymIn(code[i], STRUCT_HEADS) && !SymIn(code[i], DEFN_HEADS + FN_HEADS)
    ensures i < q && FlatStep(code, i, q) && forall q': nat | FlatStep(code, i, q') :: q' == q
    ensures t in ImplicitSlots(code, i, quoted) <==> FlatSlot(code, i, quoted, t) || t in ImplicitSlots(code, q, quoted)
  {
    var b := VecIs(code, Min(i + 2, |code|));
    q := b + 1;
    if b < |code| { FieldSlotsAre(Code(code[b].children), 0, t); }
  }

  lemma FlatLet(code: seq<Node>, i: nat, quoted: bool, t: Tok) returns (q: nat)
    requires i < |code| && SymIn(code[i], LET_HEADS)
    requires !SymIn(code[i], DEFN_HEADS + FN_HEADS) && !SymIn(code[i], STRUCT_HEADS)
    ensures i < q && FlatStep(code, i, q) && forall q': nat | FlatStep(code, i, q') :: q' == q
    ensures t in ImplicitSlots(code, i, quoted) <==> FlatSlot(code, i, quoted, t) || t in ImplicitSlots(code, q, quoted)
  {
    var a := LetVecAt(code, i);
    q := AfterVec(code, a);
    if a < |code| && Bracket(code[a]) {
      var items := Code(code[a].children);
      LetSlotsAre(items, 0, quoted, t);
      forall k: nat
        ensures t in WalkedAt(items, k, quoted) <==> k < |items| && t in WalkSlots(items[k], quoted)
      {
        if k < |items| { WalkedIs(items, k, quoted); }
      }
    }
  }

  lemma FlatNext(code: seq<Node>, i: nat, quoted: bool, t: Tok) returns (q: nat)
    requires i < |code|
    ensures i < q && FlatStep(code, i, q) && forall q': nat | FlatStep(code, i, q') :: q' == q
    ensures t in ImplicitSlots(code, i, quoted) <==> FlatSlot(code, i, quoted, t) || t in ImplicitSlots(code, q, quoted)
  {
    if SymIn(code[i], DEFN_HEADS + FN_HEADS) {
      q := FlatSig(code, i, quoted, t);
    } else if SymIn(code[i], STRUCT_HEADS) {
      q := FlatStruct(code, i, quoted, t);
    } else if SymIn(code[i], LET_HEADS) {
      q := FlatLet(code, i, quoted, t);
    } else {
      q := i + 1;
    }
  }

  lemma {:induction false} FlatSlotsAre(code: seq<Node>, i: nat, quoted: bool, t: Tok)
    ensures t in ImplicitSlots(code, i, quoted) <==> FlatSlotFrom(code, i, quoted, t)
    decreases |code| - i
  {
    if i < |code| {
      var q := FlatNext(code, i, quoted, t);
      FlatSlotsAre(code, q, quoted, t);
      if t in ImplicitSlots(code, i, quoted) {
        if FlatSlot(code, i, quoted, t) {
          assert FlatTo(code, i, i);
        } else {
          var p: nat :| FlatTo(code, q, p) && FlatSlot(code, p, quoted, t);
          assert FlatTo(code, i, p);
        }
      }
    }
  }

  // ----- files -----

  /** The token stands in a type-bearing position of the file: it is a slot of a form that is
    * reached from one of its forms, or, where the file has sweet-expressions, of something
    * without parentheses. */
  ghost predicate FileSlot(tree: seq<Node>, quoted: bool, sweet: bool, t: Tok) {
    || (exists n, m | n in tree && m in AllNodes(n) :: Reached(n, m, quoted) && SlotOf(m, t))
    || (sweet && FlatSlotFrom(NonTrivia(tree), 0, quoted, t))
  }

  lemma FileSlotsAre(tree: seq<Node>, quoted: bool, sweet: bool, t: Tok)
    ensures t in FileSlots(tree, quoted, sweet) <==> FileSlot(tree, quoted, sweet, t)
  {
    FlatSlotsAre(NonTrivia(tree), 0, quoted, t);
    if t in BodySlots(tree, 0, quoted) {
      var k := BodyFind(tree, 0, quoted, t);
      SlotsAre(tree[k], quoted, t);
    }
    if n, m :| n in tree && m in AllNodes(n) && Reached(n, m, quoted) && SlotOf(m, t) {
      SlotsAre(n, quoted, t);
      var k: nat :| k < |tree| && tree[k] == n;
      BodyHas(tree, 0, k, quoted, t);
    }
  }

  // ----- in particular -----

  /** A keyword that follows a parameter name directly annotates it. The name is a symbol
    * that is no modifier, no marker, and not itself an annotation. */
  lemma {:induction false} AfterName(items: seq<Node>, i: nat, k: nat)
    requires i <= k && k + 1 < |items| && Kw(items[k + 1]) && PlainName(items, k)
    ensures ParamSlotFrom(items, i, items[k + 1].tok)
    decreases k - i
  {
    assert ParamsTo(items, i, i);
    if i < k {
      var q, a := ParamNext(items, i);
      if q <= k {
        AfterName(items, q, k);
        var p: nat, q': nat, a': nat :|
          ParamsTo(items, q, p) && ParamStep(items, p, q', Some(a')) && items[a'].tok == items[k + 1].tok;
        assert ParamsTo(items, i, p);
      } else {
        assert i + 1 == k && SymIs(items[i], "&") && ParamStep(items, i, k + 2, Some(k + 1));
      }
    } else {
      assert ParamStep(items, k, k + 2, Some(k + 1));
    }
  }

  ghost predicate PlainName(items: seq<Node>, k: nat) {
    && k < |items| && Sym(items[k]) && !Caret(items[k]) && !SymIs(items[k], "&") && !SymIs(items[k], ":")
    && (k > 0 ==> !SymIs(items[k - 1], ":"))
  }

  /** The names a list may be headed by, and what it is then taken for. */
  lemma HeadNames(code: seq<Node>, name: string)
    requires code != [] && SymIs(code[0], name)
    ensures HeadKind(code) ==
            if name == "quote" || name == "quasiquote" then QuoteHead
            else if name == "defn" || name == "defmacro" then DefnHead
            else if name == "fn" then FnHead
            else if name == "defstruct" then StructHead
            else if name == "let" || name == "let*" || name == "loop" then LetHead
            else if name == "defclass" || name == "defprotocol" || name == "definstance" then ClassHead
            else OtherHead
  {
  }

  /** In a definition anywhere it is reached, that keyword is a slot. */
  lemma ParameterIsSlot(n: Node, quoted: bool, m: Node, i: nat, k: nat)
    requires m in AllNodes(n) && Reached(n, m, quoted) && Plain(m)
    requires (Taken(m) == DefnHead && DefnVec(Code(m.children), i)) || (Taken(m) == FnHead && i == 1)
    requires i < |Code(m.children)| && Bracket(Code(m.children)[i])
    requires var items := Code(Code(m.children)[i].children);
             k + 1 < |items| && Kw(items[k + 1]) && PlainName(items, k)
    ensures Code(Code(m.children)[i].children)[k + 1].tok in WalkSlots(n, quoted)
  {
    var items := Code(Code(m.children)[i].children);
    AfterName(items, 0, k);
    SlotsAre(n, quoted, items[k + 1].tok);
    assert SigSlot(Code(m.children), i, items[k + 1].tok);
  }
}
