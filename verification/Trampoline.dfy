/** Nested catch-unwind on a heap continuation chain driven by one loop
  * (docs/artifacts/d3-stackless-catch-unwind.c, lines 30-98). */
module Trampoline {
  import opened Wrappers
  import Overflow

  // ----- what the recursive programs mean -----

  datatype Outcome = Value(v: int) | Panicked(payload: int)

  /** `catch-unwind` of a thunk: a value whatever the thunk did. */
  function Catch(body: Outcome): Outcome {
    match body
    case Value(v) => Value(v)
    case Panicked(payload) => Value(payload)
  }

  /** `do`: the second outcome unless the first panics. */
  function Do(a: Outcome, b: Outcome): Outcome { if a.Panicked? then a else b }

  function Plus1(a: Outcome): Outcome { if a.Panicked? then a else Value(1 + a.v) }

  /** A level that is not the last catches the recursion, drops its value and gives its own. */
  function CuRec(n: nat): Outcome {
    if n == 0 then Value(0) else Do(Catch(CuRec(n - 1)), Value(n))
  }

  /** A level that is not the last catches a panic, and then adds one to the level below. */
  function CuRecP(n: nat): Outcome {
    if n == 0 then Value(0) else Do(Catch(Panicked(42)), Plus1(CuRecP(n - 1)))
  }

  // ----- the machine's memory: the fields of a block are written once, when it is allocated -----

  class HNode {
    const parent: HNode?
    constructor (parent: HNode?)
      ensures this.parent == parent
    {
      this.parent := parent;
    }
  }

  datatype Tag = KDone | KCuRecAfter | KAdd1

  class Cont {
    const tag: Tag
    const n: int
    const boundary: HNode?
    const next: Cont?
    constructor (tag: Tag, n: int, boundary: HNode?, next: Cont?)
      ensures this.tag == tag && this.n == n && this.boundary == boundary && this.next == next
    {
      this.tag, this.n, this.boundary, this.next := tag, n, boundary, next;
    }
  }

  datatype Act = Descend | Return

  /** The continuation chain, oldest first: `KDone` and then, for each level entered,
    * the continuation after its catch with its boundary; and the boundaries, linked to
    * the handler chain `base`. */
  ghost predicate AfterChain(chain: seq<Cont>, bs: seq<HNode>, n0: int, base: HNode?) {
    |chain| == |bs| + 1 &&
    var k := chain[|chain| - 1];
    if bs == [] then k.tag == KDone else
    && k.tag == KCuRecAfter && k.n == n0 - |bs| + 1
    && k.boundary == bs[|bs| - 1] && k.next == chain[|chain| - 2]
    && k.boundary.parent == Top(bs[..|bs| - 1], base)
    && AfterChain(chain[..|chain| - 1], bs[..|bs| - 1], n0, base)
  }

  ghost function Top(bs: seq<HNode>, base: HNode?): HNode? { if bs == [] then base else bs[|bs| - 1] }

  /** Entering a level. */
  lemma PushLevel(chain: seq<Cont>, bs: seq<HNode>, n0: int, base: HNode?, k: Cont, b: HNode)
    requires AfterChain(chain, bs, n0, base)
    requires b.parent == Top(bs, base)
    requires k.tag == KCuRecAfter && k.n == n0 - |bs| && k.boundary == b && k.next == chain[|chain| - 1]
    ensures AfterChain(chain + [k], bs + [b], n0, base)
  {
    assert (chain + [k])[..|chain|] == chain && (bs + [b])[..|bs|] == bs;
  }

  /** Leaving one. */
  lemma PopLevel(chain: seq<Cont>, bs: seq<HNode>, n0: int, base: HNode?)
    requires AfterChain(chain, bs, n0, base) && bs != []
    ensures var k := chain[|chain| - 1];
            && k.tag == KCuRecAfter && k.n == n0 - |bs| + 1
            && k.boundary == bs[|bs| - 1] && k.boundary.parent == Top(bs[..|bs| - 1], base)
            && k.next == chain[|chain| - 2]
    ensures AfterChain(chain[..|chain| - 1], bs[..|bs| - 1], n0, base)
  {
  }

  /** The chain of the panicking program: `KDone` and one `KAdd1` for each level. */
  ghost predicate AddChain(chain: seq<Cont>) {
    chain != [] &&
    var k := chain[|chain| - 1];
    if |chain| == 1 then k.tag == KDone
    else k.tag == KAdd1 && k.next == chain[|chain| - 2] && AddChain(chain[..|chain| - 1])
  }

  /** Blocks in use besides those in `was`: freeing them, last first, leaves `was`. */
  ghost predicate InUse<T>(now: set<T>, was: set<T>, blocks: seq<T>) {
    if blocks == [] then now == was else
    var x := blocks[|blocks| - 1];
    x in now && InUse(now - {x}, was, blocks[..|blocks| - 1])
  }

  lemma InUsePush<T>(now: set<T>, was: set<T>, blocks: seq<T>, x: T)
    requires InUse(now, was, blocks) && x !in now
    ensures InUse(now + {x}, was, blocks + [x])
  {
    assert now + {x} - {x} == now && (blocks + [x])[..|blocks|] == blocks;
  }

  /** The thread's globals, and the blocks allocated and not yet freed. */
  class Runtime {
    var handlers: HNode?
    var panicking: bool
    var payload: int
    ghost var nodes: set<HNode>
    ghost var conts: set<Cont>

    /** Set the flag and stage the payload; without a handler the process is over. */
    method DoPanic(p: int) returns (aborted: bool)
      modifies this`payload, this`panicking
      ensures aborted <==> handlers == null
      ensures if aborted then payload == old(payload) && panicking == old(panicking)
              else payload == p && panicking
    {
      if handlers == null { return true; }
      payload, panicking := p, true;
      return false;
    }

    method NewHNode() returns (b: HNode)
      modifies this`nodes
      ensures fresh(b) && b.parent == handlers && nodes == old(nodes) + {b}
    {
      b := new HNode(handlers);
      nodes := nodes + {b};
    }

    /** A block is freed once: it must be allocated, and no longer is. */
    method FreeHNode(b: HNode)
      requires b in nodes
      modifies this`nodes
      ensures nodes == old(nodes) - {b}
    {
      nodes := nodes - {b};
    }

    method NewCont(tag: Tag, n: int, boundary: HNode?, next: Cont?) returns (c: Cont)
      modifies this`conts
      ensures fresh(c) && conts == old(conts) + {c}
      ensures c.tag == tag && c.n == n && c.boundary == boundary && c.next == next
    {
      c := new Cont(tag, n, boundary, next);
      conts := conts + {c};
    }

    method FreeCont(c: Cont)
      requires c in conts
      modifies this`conts
      ensures conts == old(conts) - {c}
    {
      conts := conts - {c};
    }

    /** Install a boundary and leave behind the continuation after it. */
    method EnterCatch(n: int, k: Cont) returns (k2: Cont, b: HNode)
      modifies this`handlers, this`nodes, this`conts
      ensures handlers == b && b.parent == old(handlers)
      ensures b !in old(nodes) && nodes == old(nodes) + {b}
      ensures k2 !in old(conts) && conts == old(conts) + {k2}
      ensures k2.tag == KCuRecAfter && k2.n == n && k2.boundary == b && k2.next == k
    {
      b := NewHNode();
      handlers := b;
      k2 := NewCont(KCuRecAfter, n, b, k);
    }

    /** The catch of `k` completed: pop its boundary, consume a panic, resume. */
    method LeaveCatch(k: Cont) returns (out: int, kk: Cont?)
      requires k in conts && k.boundary != null && k.boundary in nodes
      modifies this`handlers, this`nodes, this`conts, this`panicking
      ensures handlers == k.boundary.parent && !panicking
      ensures nodes == old(nodes) - {k.boundary} && conts == old(conts) - {k}
      ensures out == k.n && kk == k.next
    {
      handlers := k.boundary.parent;
      FreeHNode(k.boundary);
      if panicking { panicking := false; }
      out, kk := k.n, k.next;
      FreeCont(k);
    }

    /** One continuation and one boundary for each level entered since the memory was
      * `nodes0` and `conts0` and the handler chain `base`. */
    ghost predicate Levels(chain: seq<Cont>, bs: seq<HNode>, n0: int, base: HNode?,
                           nodes0: set<HNode>, conts0: set<Cont>)
      reads this
    {
      && AfterChain(chain, bs, n0, base) && handlers == Top(bs, base)
      && InUse(conts, conts0, chain) && InUse(nodes, nodes0, bs)
    }

    /** At the bottom everything but the `KDone` block has been freed. */
    lemma AtBottom(chain: seq<Cont>, bs: seq<HNode>, n0: int, base: HNode?, nodes0: set<HNode>, conts0: set<Cont>)
      requires Levels(chain, bs, n0, base, nodes0, conts0) && chain[|chain| - 1].tag == KDone
      ensures bs == [] && handlers == base && nodes == nodes0
      ensures chain[0] in conts && conts - {chain[0]} == conts0 && |chain| == 1
    {
      assert |chain| == 1 && chain[..|chain| - 1] == [];
      assert InUse(conts - {chain[0]}, conts0, []);
    }

    /** DESCEND: enter the level of `n`. */
    method EnterLevel(n: int, k: Cont, ghost chain: seq<Cont>, ghost bs: seq<HNode>, ghost n0: int, ghost base: HNode?,
                      ghost nodes0: set<HNode>, ghost conts0: set<Cont>)
      returns (k2: Cont, ghost b: HNode)
      requires Levels(chain, bs, n0, base, nodes0, conts0) && k == chain[|chain| - 1] && n == n0 - |bs|
      modifies this`handlers, this`nodes, this`conts
      ensures Levels(chain + [k2], bs + [b], n0, base, nodes0, conts0)
      ensures payload == old(payload) && panicking == old(panicking)
    {
      ghost var conts', nodes' := conts, nodes;
      var b';
      k2, b' := EnterCatch(n, k);
      b := b';
      InUsePush(conts', conts0, chain, k2);
      InUsePush(nodes', nodes0, bs, b);
      PushLevel(chain, bs, n0, base, k2, b);
    }

    /** RETURN: leave the last level with its value. */
    method LeaveLevel(k: Cont, ghost chain: seq<Cont>, ghost bs: seq<HNode>, ghost n0: int, ghost base: HNode?,
                      ghost nodes0: set<HNode>, ghost conts0: set<Cont>)
      returns (out: int, kk: Cont)
      requires Levels(chain, bs, n0, base, nodes0, conts0) && k == chain[|chain| - 1] && bs != []
      modifies this`handlers, this`nodes, this`conts, this`panicking
      ensures Levels(chain[..|chain| - 1], bs[..|bs| - 1], n0, base, nodes0, conts0)
      ensures kk == chain[|chain| - 2] && out == n0 - |bs| + 1
      ensures payload == old(payload) && !panicking
    {
      PopLevel(chain, bs, n0, base);
      var next;
      out, next := LeaveCatch(k);
      kk := next;
    }

    /** The trampolined cu-rec, of whose endless loop `turns` turns are taken. It is over by
      * then if and only if its argument is not negative and they are as many as it takes to
      * enter each level, reach the bottom, leave each level and return; below zero the
      * bottom is never met, up to the decrement that overflows. Over, it has returned what
      * the recursive program means, with the handler chain restored and exactly what was
      * allocated freed. */
    method CuRecTurns(n0: int, turns: nat) returns (r: Option<int>)
      requires n0 <= Overflow.INT64_MAX && (n0 >= 0 || Overflow.INT64_MIN <= n0 - turns)
      modifies this
      ensures r.Some? <==> n0 >= 0 && turns >= 2 * n0 + 2
      ensures r.Some? ==> CuRec(n0) == Value(r.value) && nodes == old(nodes) && conts == old(conts)
      ensures r.Some? ==> handlers == old(handlers) && panicking == (old(panicking) && n0 == 0)
      ensures payload == old(payload)
    {
      ghost var base, nodes0, conts0 := handlers, nodes, conts;
      var done := NewCont(KDone, 0, null, null);
      var act, n, k, v := Descend, n0, done, 0;
      ghost var chain: seq<Cont>, bs: seq<HNode> := [done], [];
      InUsePush(conts0, conts0, [], done);
      for turn := 0 to turns
        invariant Levels(chain, bs, n0, base, nodes0, conts0) && k == chain[|chain| - 1]
        invariant act == Descend ==> n == n0 - |bs| && |bs| == turn && (n0 >= 0 ==> n >= 0)
        invariant act == Return ==> v == n0 - |bs| && 0 <= v && turn == n0 + 1 + v
        invariant payload == old(payload)
        invariant panicking == (old(panicking) && (act == Descend || |bs| == n0))
      {
        if act == Descend {
          if n == 0 {
            v, act := 0, Return;
            continue;
          }
          ghost var b: HNode;
          k, b := EnterLevel(n, k, chain, bs, n0, base, nodes0, conts0);
          chain, bs := chain + [k], bs + [b];
          assert n > Overflow.INT64_MIN;
          n := n - 1;
        } else {
          if k.tag == KDone {
            AtBottom(chain, bs, n0, base, nodes0, conts0);
            FreeCont(k);
            CuRecIs(n0);
            return Some(v);
          }
          v, k := LeaveLevel(k, chain, bs, n0, base, nodes0, conts0);
          chain, bs := chain[..|chain| - 1], bs[..|bs| - 1];
        }
      }
      r := None;
    }

    /** The trampolined cu-rec returns what the recursive program means, terminates,
      * restores the handler chain, and frees exactly what it allocated. */
    method RunCuRec(n0: int) returns (r: int)
      requires 0 <= n0 <= Overflow.INT64_MAX
      modifies this
      ensures CuRec(n0) == Value(r)
      ensures handlers == old(handlers) && payload == old(payload)
      ensures panicking == (old(panicking) && n0 == 0)
      ensures nodes == old(nodes) && conts == old(conts)
    {
      var over := CuRecTurns(n0, 2 * n0 + 2);
      r := over.value;
    }

    /** A catch of a panic, inline: the panic is staged, caught and consumed. */
    method CatchPanic(p: int)
      modifies this
      ensures handlers == old(handlers) && nodes == old(nodes) && conts == old(conts)
      ensures !panicking && payload == p
    {
      var b := NewHNode();
      handlers := b;
      var aborted := DoPanic(p);
      assert !aborted;
      handlers := b.parent;
      FreeHNode(b);
      if panicking { panicking := false; }
    }

    /** The trampolined cu-rec-p, which catches a panic at every level, for `turns` turns. */
    method CuRecPTurns(n0: int, turns: nat) returns (r: Option<int>)
      requires n0 <= Overflow.INT64_MAX && (n0 >= 0 || Overflow.INT64_MIN <= n0 - turns)
      modifies this
      ensures r.Some? <==> n0 >= 0 && turns >= 2 * n0 + 2
      ensures r.Some? ==> CuRecP(n0) == Value(r.value) && conts == old(conts)
      ensures r.Some? ==> panicking == (old(panicking) && n0 == 0) && payload == if n0 == 0 then old(payload) else 42
      ensures handlers == old(handlers) && nodes == old(nodes)
    {
      var done := NewCont(KDone, 0, null, null);
      var act, n, k, v := Descend, n0, done, 0;
      ghost var chain: seq<Cont> := [done];
      InUsePush(old(conts), old(conts), [], done);
      for turn := 0 to turns
        invariant AddChain(chain) && k == chain[|chain| - 1]
        invariant InUse(conts, old(conts), chain)
        invariant nodes == old(nodes) && handlers == old(handlers)
        invariant act == Descend ==> n == n0 + 1 - |chain| && |chain| == turn + 1 && (n0 >= 0 ==> n >= 0)
        invariant act == Return ==> v == n0 + 1 - |chain| && 0 <= v && turn == n0 + 1 + v
        invariant n0 == 0 || (act == Descend && n == n0) ==> panicking == old(panicking) && payload == old(payload)
        invariant !(n0 == 0 || (act == Descend && n == n0)) ==> !panicking && payload == 42
      {
        if act == Descend {
          if n == 0 {
            v, act := 0, Return;
            continue;
          }
          CatchPanic(42);
          ghost var conts' := conts;
          var k2 := NewCont(KAdd1, 0, null, k);
          InUsePush(conts', old(conts), chain, k2);
          assert (chain + [k2])[..|chain|] == chain;
          chain := chain + [k2];
          assert n > Overflow.INT64_MIN;
          n, k := n - 1, k2;
        } else {
          if k.tag == KDone {
            r := Some(v);
            FreeCont(k);
            CuRecPIs(n0);
            return;
          }
          assert 1 + v <= Overflow.INT64_MAX;
          var out, kk := 1 + v, k.next;
          FreeCont(k);
          chain := chain[..|chain| - 1];
          v, k := out, kk;
        }
      }
      r := None;
    }

    /** The same of the program that panics. */
    method RunCuRecP(n0: int) returns (r: int)
      requires 0 <= n0 <= Overflow.INT64_MAX
      modifies this
      ensures CuRecP(n0) == Value(r)
      ensures handlers == old(handlers)
      ensures panicking == (old(panicking) && n0 == 0)
      ensures payload == if n0 == 0 then old(payload) else 42
      ensures nodes == old(nodes) && conts == old(conts)
    {
      var over := CuRecPTurns(n0, 2 * n0 + 2);
      r := over.value;
    }

    lemma {:induction false} CuRecPIs(n: nat)
      ensures CuRecP(n) == Value(n)
    {
      if n > 0 { CuRecPIs(n - 1); }
    }

    lemma {:induction false} CuRecIs(n: nat)
      ensures CuRec(n) == Value(n)
    {
      if n > 0 { CuRecIs(n - 1); }
    }
  }
}
