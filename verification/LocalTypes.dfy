/** Local session types, the free-variable test and the merge of two
  * projections (tools/project.py, lines 63-194). */
module LocalTypes {
  import opened Wrappers

  type Role = string
  type Label = string

  datatype LocalType =
    | LSend(msgType: string, cont: LocalType)
    | LRecv(msgType: string, cont: LocalType)
    | LChoose(branches: seq<LocalBranch>)
    | LBranch(branches: seq<LocalBranch>)
    | LRec(name: Label, body: LocalType)
    | LRecVar(name: Label)
    | LClose

  datatype LocalBranch = LocalBranch(name: Label, ty: LocalType)

  /** The one error a projection raises (TUR_E0220). */
  datatype ProjectionError = NotMergeable

  // ----- free recursion variables -----

  /** `t` contains a free `LRecVar` called `name`. */
  predicate HasRecVar(t: LocalType, name: Label)
    decreases t, 0
  {
    match t
    case LRecVar(l) => l == name
    case LSend(_, k) => HasRecVar(k, name)
    case LRecv(_, k) => HasRecVar(k, name)
    case LChoose(bs) => AnyHasRecVar(bs, name)
    case LBranch(bs) => AnyHasRecVar(bs, name)
    case LRec(l, body) => l != name && HasRecVar(body, name)
    case LClose => false
  }

  predicate AnyHasRecVar(bs: seq<LocalBranch>, name: Label)
    decreases bs, 1
  {
    bs != [] && (HasRecVar(bs[0].ty, name) || AnyHasRecVar(bs[1..], name))
  }

  /** The set of free recursion variables, as a set. */
  ghost function FreeVars(t: LocalType): set<Label>
    decreases t, 0
  {
    match t
    case LRecVar(l) => {l}
    case LSend(_, k) => FreeVars(k)
    case LRecv(_, k) => FreeVars(k)
    case LChoose(bs) => FreeVarsOf(bs)
    case LBranch(bs) => FreeVarsOf(bs)
    case LRec(l, body) => FreeVars(body) - {l}
    case LClose => {}
  }

  ghost function FreeVarsOf(bs: seq<LocalBranch>): set<Label>
    decreases bs, 1
  {
    if bs == [] then {} else FreeVars(bs[0].ty) + FreeVarsOf(bs[1..])
  }

  lemma {:induction false} HasRecVarIsFreeVars(t: LocalType, name: Label)
    ensures HasRecVar(t, name) <==> name in FreeVars(t)
    decreases t, 0
  {
    match t
    case LRecVar(_) =>
    case LClose =>
    case LSend(_, k) => HasRecVarIsFreeVars(k, name);
    case LRecv(_, k) => HasRecVarIsFreeVars(k, name);
    case LChoose(bs) => AnyHasRecVarIsFreeVars(bs, name);
    case LBranch(bs) => AnyHasRecVarIsFreeVars(bs, name);
    case LRec(_, body) => HasRecVarIsFreeVars(body, name);
  }

  lemma {:induction false} AnyHasRecVarIsFreeVars(bs: seq<LocalBranch>, name: Label)
    ensures AnyHasRecVar(bs, name) <==> name in FreeVarsOf(bs)
    decreases bs, 1
  {
    if bs != [] {
      HasRecVarIsFreeVars(bs[0].ty, name);
      AnyHasRecVarIsFreeVars(bs[1..], name);
    }
  }

  /** One branch's variables are among those of the list. */
  lemma {:induction false} BranchFreeVars(bs: seq<LocalBranch>, i: nat)
    requires i < |bs|
    ensures FreeVars(bs[i].ty) <= FreeVarsOf(bs)
  {
    if i > 0 { BranchFreeVars(bs[1..], i - 1); }
  }

  // ----- merge -----

  function Labels(bs: seq<LocalBranch>): (ls: seq<Label>)
    ensures |ls| == |bs| && forall i | 0 <= i < |bs| :: ls[i] == bs[i].name
  {
    seq(|bs|, i requires 0 <= i < |bs| => bs[i].name)
  }

  /** The one type a role that is not told about a choice must have in both branches. */
  function Merge(t1: LocalType, t2: LocalType): Result<LocalType, ProjectionError>
    decreases t1, 0
  {
    match (t1, t2)
    case (LClose, LClose) => Ok(LClose)
    case (LRecVar(l1), LRecVar(l2)) =>
      if l1 != l2 then Err(NotMergeable) else Ok(t1)
    case (LSend(m1, k1), LSend(m2, k2)) =>
      if m1 != m2 then Err(NotMergeable) else
      var k :- Merge(k1, k2);
      Ok(LSend(m1, k))
    case (LRecv(m1, k1), LRecv(m2, k2)) =>
      if m1 != m2 then Err(NotMergeable) else
      var k :- Merge(k1, k2);
      Ok(LRecv(m1, k))
    case (LBranch(bs1), LBranch(bs2)) =>
      if Labels(bs1) != Labels(bs2) then Err(NotMergeable) else
      var bs :- MergeBranches(bs1, bs2);
      Ok(LBranch(bs))
    case (LChoose(bs1), LChoose(bs2)) =>
      if Labels(bs1) != Labels(bs2) then Err(NotMergeable) else
      var bs :- MergeBranches(bs1, bs2);
      Ok(LChoose(bs))
    case (LRec(l1, b1), LRec(l2, b2)) =>
      if l1 != l2 then Err(NotMergeable) else
      var b :- Merge(b1, b2);
      Ok(LRec(l1, b))
    case _ => Err(NotMergeable)
  }

  /** The pairwise merge over `zip`: the shorter list decides the length. */
  function MergeBranches(bs1: seq<LocalBranch>, bs2: seq<LocalBranch>): Result<seq<LocalBranch>, ProjectionError>
    decreases bs1, 1
  {
    if bs1 == [] || bs2 == [] then Ok([]) else
    var t :- Merge(bs1[0].ty, bs2[0].ty);
    var rest :- MergeBranches(bs1[1..], bs2[1..]);
    Ok([LocalBranch(bs1[0].name, t)] + rest)
  }

  /** The left fold of `Merge` over the projections of the branches. */
  function MergeAll(acc: LocalType, others: seq<LocalType>): Result<LocalType, ProjectionError>
    decreases |others|
  {
    if others == [] then Ok(acc) else
    var t :- Merge(acc, others[0]);
    MergeAll(t, others[1..])
  }

  /** Merging succeeds exactly on equal types, and then returns that type. */
  lemma {:induction false} MergeIsEquality(t1: LocalType, t2: LocalType)
    ensures Merge(t1, t2) == if t1 == t2 then Ok(t1) else Err(NotMergeable)
    decreases t1, 0
  {
    match (t1, t2)
    case (LSend(_, k1), LSend(_, k2)) => MergeIsEquality(k1, k2);
    case (LRecv(_, k1), LRecv(_, k2)) => MergeIsEquality(k1, k2);
    case (LBranch(bs1), LBranch(bs2)) =>
      if Labels(bs1) == Labels(bs2) { MergeBranchesIsEquality(bs1, bs2); }
    case (LChoose(bs1), LChoose(bs2)) =>
      if Labels(bs1) == Labels(bs2) { MergeBranchesIsEquality(bs1, bs2); }
    case (LRec(_, b1), LRec(_, b2)) => MergeIsEquality(b1, b2);
    case _ =>
  }

  lemma LabelsTail(bs: seq<LocalBranch>)
    requires bs != []
    ensures Labels(bs) == [bs[0].name] + Labels(bs[1..])
  {
  }

  lemma {:induction false} MergeBranchesIsEquality(bs1: seq<LocalBranch>, bs2: seq<LocalBranch>)
    requires Labels(bs1) == Labels(bs2)
    ensures MergeBranches(bs1, bs2) == if bs1 == bs2 then Ok(bs1) else Err(NotMergeable)
    decreases bs1, 1
  {
    assert |bs1| == |Labels(bs1)| == |Labels(bs2)| == |bs2|;
    if bs1 == [] {
      assert bs2 == [];
    } else {
      var r1, r2 := bs1[1..], bs2[1..];
      LabelsTail(bs1);
      LabelsTail(bs2);
      assert Labels(r1) == Labels(bs1)[1..] && Labels(r2) == Labels(bs2)[1..];
      MergeIsEquality(bs1[0].ty, bs2[0].ty);
      MergeBranchesIsEquality(r1, r2);
      assert bs1[0].name == bs2[0].name;
      SplitHead(bs1, bs2);
    }
  }

  lemma SplitHead<T>(a: seq<T>, b: seq<T>)
    requires a != [] && b != []
    ensures a == b <==> a[0] == b[0] && a[1..] == b[1..]
    ensures [a[0]] + a[1..] == a
  {
    if a[0] == b[0] && a[1..] == b[1..] {
      assert a == [a[0]] + a[1..] == [b[0]] + b[1..] == b;
    }
  }

  /** The fold succeeds exactly when every branch projects to the same type,
    * whatever the order of the branches. */
  lemma {:induction false} MergeAllIsEquality(acc: LocalType, others: seq<LocalType>)
    ensures MergeAll(acc, others) ==
            if forall t | t in others :: t == acc then Ok(acc) else Err(NotMergeable)
    decreases |others|
  {
    if others != [] {
      assert others[0] in others;
      MergeIsEquality(acc, others[0]);
      MergeAllIsEquality(acc, others[1..]);
      assert MergeAll(acc, others) == if acc == others[0] then MergeAll(acc, others[1..]) else Err(NotMergeable);
      assert forall t :: t in others <==> t == others[0] || t in others[1..];
    }
  }
}
