/** Global protocols and their projection onto a role (tools/project.py,
  * lines 29-56 and 197-304). */
module Projection {
  import opened Wrappers
  import opened LocalTypes

  datatype GlobalNode =
    | GMsg(fromRole: Role, toRole: Role, msgType: string)
    | GChoice(decidingRole: Role, branches: seq<GlobalBranch>)
    | GLoop(name: Label, body: seq<GlobalNode>)
    | GContinue(name: Label)

  datatype GlobalBranch = GlobalBranch(name: Label, body: seq<GlobalNode>)

  type Protocol = seq<GlobalNode>

  // ----- sizes: a choice is projected by continuing each branch with what follows it -----

  ghost function Size(g: Protocol): nat
    decreases g, 0
  {
    if g == [] then 0 else NodeSize(g[0]) + Size(g[1..])
  }

  ghost function NodeSize(n: GlobalNode): nat
    decreases n, 1
  {
    match n
    case GMsg(_, _, _) => 1
    case GChoice(_, bs) => 1 + BranchesSize(bs)
    case GLoop(_, body) => 1 + Size(body)
    case GContinue(_) => 1
  }

  ghost function BranchesSize(bs: seq<GlobalBranch>): nat
    decreases bs, 2
  {
    if bs == [] then 0 else 1 + Size(bs[0].body) + BranchesSize(bs[1..])
  }

  /** The measure drops from a sequence to its tail and to the parts of its head. */
  lemma SizeDrops(g: Protocol)
    requires g != []
    ensures Size(g[1..]) < Size(g)
    ensures g[0].GChoice? ==> BranchesSize(g[0].branches) + Size(g[1..]) < Size(g)
    ensures g[0].GLoop? ==> Size(g[0].body) < Size(g)
  {
    assert Size(g) == NodeSize(g[0]) + Size(g[1..]);
  }

  lemma {:induction false} SizeAppend(a: Protocol, b: Protocol)
    ensures Size(a + b) == Size(a) + Size(b)
  {
    if a == [] {
      assert a + b == b;
    } else {
      assert (a + b)[0] == a[0] && (a + b)[1..] == a[1..] + b;
      SizeAppend(a[1..], b);
    }
  }

  lemma {:induction false} BranchSize(bs: seq<GlobalBranch>, i: nat)
    requires i < |bs|
    ensures Size(bs[i].body) < BranchesSize(bs)
  {
    if i > 0 { BranchSize(bs[1..], i - 1); }
  }

  // ----- who takes part -----

  /** `role` takes part in the top-level interactions of `body`: a message, a
    * choice it decides, or those of a loop body, but nothing inside a branch. */
  predicate Involves(body: Protocol, role: Role)
  {
    body != [] &&
    ((match body[0]
      case GMsg(p, q, _) => p == role || q == role
      case GChoice(d, _) => d == role
      case GLoop(_, inner) => Involves(inner, role)
      case GContinue(_) => false)
     || Involves(body[1..], role))
  }

  predicate InvolvedInAny(bs: seq<GlobalBranch>, role: Role)
  {
    exists i | 0 <= i < |bs| :: Involves(bs[i].body, role)
  }

  // ----- projection -----

  function Project(g: Protocol, role: Role): (r: Result<LocalType, ProjectionError>)
    decreases Size(g), 0
  {
    if g == [] then Ok(LClose) else
    SizeDrops(g);
    var rest := g[1..];
    match g[0]
    case GMsg(p, q, t) =>
      if p == role then
        var k :- Project(rest, role);
        Ok(LSend(t, k))
      else if q == role then
        var k :- Project(rest, role);
        Ok(LRecv(t, k))
      else
        Project(rest, role)
    case GChoice(d, bs) =>
      var projected :- ProjectBranches(bs, rest, role);
      if d == role then Ok(LChoose(projected))
      else if InvolvedInAny(bs, role) then Ok(LBranch(projected))
      else if projected == [] then Project(rest, role)
      else MergeAll(projected[0].ty, Types(projected[1..]))
    case GLoop(l, body) =>
      var t :- Project(body, role);
      Ok(if HasRecVar(t, l) then LRec(l, t) else t)
    case GContinue(l) => Ok(LRecVar(l))
  }

  /** Project every branch, continued by `rest`; the first failure is the result. */
  function ProjectBranches(bs: seq<GlobalBranch>, rest: Protocol, role: Role):
    (r: Result<seq<LocalBranch>, ProjectionError>)
    ensures r.Ok? ==> |r.value| == |bs|
    decreases BranchesSize(bs) + Size(rest), 1
  {
    if bs == [] then Ok([]) else
    SizeAppend(bs[0].body, rest);
    var t :- Project(bs[0].body + rest, role);
    var ts :- ProjectBranches(bs[1..], rest, role);
    Ok([LocalBranch(bs[0].name, t)] + ts)
  }

  /** What projecting the branches gives, branch by branch. */
  lemma {:induction false} ProjectBranchesPointwise(bs: seq<GlobalBranch>, rest: Protocol, role: Role)
    ensures var r := ProjectBranches(bs, rest, role);
            && (r.Ok? <==> forall i | 0 <= i < |bs| :: Project(bs[i].body + rest, role).Ok?)
            && (r.Ok? ==> forall i | 0 <= i < |bs| ::
                  r.value[i].name == bs[i].name && Project(bs[i].body + rest, role) == Ok(r.value[i].ty))
  {
    if bs != [] {
      var tail := bs[1..];
      ProjectBranchesPointwise(tail, rest, role);
      var r := ProjectBranches(bs, rest, role);
      if r.Ok? {
        forall i | 0 <= i < |bs|
          ensures r.value[i].name == bs[i].name && Project(bs[i].body + rest, role) == Ok(r.value[i].ty)
        {
          if i > 0 { assert bs[i] == tail[i - 1]; }
        }
      } else if Project(bs[0].body + rest, role).Ok? {
        var j :| 0 <= j < |tail| && Project(tail[j].body + rest, role).Err?;
        assert bs[j + 1] == tail[j];
      }
    }
  }

  function Types(bs: seq<LocalBranch>): (ts: seq<LocalType>)
    ensures |ts| == |bs| && forall i | 0 <= i < |bs| :: ts[i] == bs[i].ty
  {
    seq(|bs|, i requires 0 <= i < |bs| => bs[i].ty)
  }

  predicate Projectable(g: Protocol, role: Role)
  {
    Project(g, role).Ok?
  }

  /** The projection of a protocol that has one. */
  ghost function P(g: Protocol, role: Role): LocalType
    requires Projectable(g, role)
  {
    Project(g, role).value
  }

  /** What the projection of a choice is, in terms of its continued branches:
    * all must project, the decider chooses, a role involved at the top level of
    * some branch is told, and any other role must project to one and the same type. */
  lemma ProjectChoice(g: Protocol, role: Role)
    requires g != [] && g[0].GChoice? && g[0].branches != []
    ensures
      var bs, rest := g[0].branches, g[1..];
      Projectable(g, role) <==>
        && (forall i | 0 <= i < |bs| :: Projectable(bs[i].body + rest, role))
        && (role == g[0].decidingRole || InvolvedInAny(bs, role)
            || forall i | 0 <= i < |bs| :: Project(bs[i].body + rest, role) == Project(bs[0].body + rest, role))
    ensures
      var bs, rest := g[0].branches, g[1..];
      Projectable(g, role) ==>
        if role == g[0].decidingRole || InvolvedInAny(bs, role) then
          var t := P(g, role);
          && (if role == g[0].decidingRole then t.LChoose? else t.LBranch?)
          && |t.branches| == |bs|
          && forall i | 0 <= i < |bs| ::
               t.branches[i].name == bs[i].name && Project(bs[i].body + rest, role) == Ok(t.branches[i].ty)
        else
          forall i | 0 <= i < |bs| :: Project(bs[i].body + rest, role) == Project(g, role)
  {
    var bs, rest := g[0].branches, g[1..];
    ProjectBranchesPointwise(bs, rest, role);
    var r := ProjectBranches(bs, rest, role);
    if r.Ok? && role != g[0].decidingRole && !InvolvedInAny(bs, role) {
      var first, others := r.value[0].ty, Types(r.value[1..]);
      MergeAllIsEquality(first, others);
      assert Project(g, role) == MergeAll(first, others);
      OthersEqualFirst(r.value, first, others);
    }
  }

  lemma OthersEqualFirst(ts: seq<LocalBranch>, first: LocalType, others: seq<LocalType>)
    requires ts != [] && first == ts[0].ty && others == Types(ts[1..])
    ensures (forall t | t in others :: t == first) <==> forall i | 0 <= i < |ts| :: ts[i].ty == first
  {
    assert forall j | 0 <= j < |others| :: others[j] == ts[1..][j].ty == ts[j + 1].ty;
    forall i | 0 < i < |ts|
      ensures ts[i].ty in others
    {
      assert others[i - 1] == ts[i].ty;
    }
  }

  // ----- free continue labels -----

  /** The labels a run of `g` can `continue` at without having entered their loop. */
  ghost function FreeContinues(g: Protocol): set<Label>
    decreases Size(g), 0
  {
    if g == [] then {} else
    SizeDrops(g);
    match g[0]
    case GMsg(_, _, _) => FreeContinues(g[1..])
    case GChoice(_, bs) => FreeContinuesOf(bs, g[1..])
    case GLoop(l, body) => FreeContinues(body) - {l}
    case GContinue(l) => {l}
  }

  ghost function FreeContinuesOf(bs: seq<GlobalBranch>, rest: Protocol): set<Label>
    decreases BranchesSize(bs) + Size(rest), 1
  {
    if bs == [] then {} else
    SizeAppend(bs[0].body, rest);
    FreeContinues(bs[0].body + rest) + FreeContinuesOf(bs[1..], rest)
  }

  lemma {:induction false} BranchFreeContinues(bs: seq<GlobalBranch>, rest: Protocol, i: nat)
    requires i < |bs|
    ensures FreeContinues(bs[i].body + rest) <= FreeContinuesOf(bs, rest)
  {
    if i > 0 { BranchFreeContinues(bs[1..], rest, i - 1); }
  }

  // ----- well-formed protocols -----

  predicate DistinctNames(bs: seq<GlobalBranch>)
  {
    forall i, j | 0 <= i < j < |bs| :: bs[i].name != bs[j].name
  }

  /** The protocols the algorithm is documented for: a message joins two roles, a
    * choice offers at least one branch under distinct labels, and a loop is last
    * in the sequence it stands in, the continuation of its branch included. */
  ghost predicate WellFormed(g: Protocol)
    decreases Size(g), 0
  {
    if g == [] then true else
    SizeDrops(g);
    match g[0]
    case GMsg(p, q, _) => p != q && WellFormed(g[1..])
    case GChoice(_, bs) => bs != [] && DistinctNames(bs) && AllWellFormed(bs, g[1..])
    case GLoop(_, body) => g[1..] == [] && WellFormed(body)
    case GContinue(_) => true
  }

  ghost predicate AllWellFormed(bs: seq<GlobalBranch>, rest: Protocol)
    decreases BranchesSize(bs) + Size(rest), 1
  {
    if bs == [] then true else
    SizeAppend(bs[0].body, rest);
    WellFormed(bs[0].body + rest) && AllWellFormed(bs[1..], rest)
  }

  lemma {:induction false} BranchWellFormed(bs: seq<GlobalBranch>, rest: Protocol, i: nat)
    requires AllWellFormed(bs, rest) && i < |bs|
    ensures WellFormed(bs[i].body + rest)
  {
    if i > 0 { BranchWellFormed(bs[1..], rest, i - 1); }
  }

  /** Only `roles` are named in what a run of `g` can reach. */
  ghost predicate CastIn(g: Protocol, roles: set<Role>)
    decreases Size(g), 0
  {
    if g == [] then true else
    SizeDrops(g);
    match g[0]
    case GMsg(p, q, _) => p in roles && q in roles && CastIn(g[1..], roles)
    case GChoice(d, bs) => d in roles && AllCastIn(bs, g[1..], roles)
    case GLoop(_, body) => CastIn(body, roles)
    case GContinue(_) => true
  }

  ghost predicate AllCastIn(bs: seq<GlobalBranch>, rest: Protocol, roles: set<Role>)
    decreases BranchesSize(bs) + Size(rest), 1
  {
    if bs == [] then true else
    SizeAppend(bs[0].body, rest);
    CastIn(bs[0].body + rest, roles) && AllCastIn(bs[1..], rest, roles)
  }

  lemma {:induction false} BranchCastIn(bs: seq<GlobalBranch>, rest: Protocol, roles: set<Role>, i: nat)
    requires AllCastIn(bs, rest, roles) && i < |bs|
    ensures CastIn(bs[i].body + rest, roles)
  {
    if i > 0 { BranchCastIn(bs[1..], rest, roles, i - 1); }
  }

  // ----- which variables a projection has -----

  /** Every role's projection has exactly the protocol's free continue labels as
    * its free recursion variables, whether or not the role takes part. */
  lemma {:induction false} FreeVarsOfProjection(g: Protocol, role: Role)
    requires WellFormed(g) && Projectable(g, role)
    ensures FreeVars(P(g, role)) == FreeContinues(g)
    decreases Size(g), 0
  {
    if g != [] {
      SizeDrops(g);
      match g[0]
      case GMsg(_, _, _) => FreeVarsOfProjection(g[1..], role);
      case GChoice(d, bs) =>
        ProjectChoice(g, role);
        forall i | 0 <= i < |bs|
          ensures WellFormed(bs[i].body + g[1..])
                  && FreeVars(P(bs[i].body + g[1..], role)) == FreeContinues(bs[i].body + g[1..])
        {
          BranchWellFormed(bs, g[1..], i);
          SizeAppend(bs[i].body, g[1..]);
          BranchSize(bs, i);
          FreeVarsOfProjection(bs[i].body + g[1..], role);
        }
        if role == d || InvolvedInAny(bs, role) {
          FreeVarsPointwise(P(g, role).branches, bs, g[1..], role);
        } else {
          FreeContinuesConstant(bs, g[1..], FreeVars(P(g, role)));
        }
      case GLoop(l, body) =>
        FreeVarsOfProjection(body, role);
        HasRecVarIsFreeVars(P(body, role), l);
      case GContinue(_) =>
    }
  }

  lemma {:induction false} FreeVarsPointwise(ts: seq<LocalBranch>, bs: seq<GlobalBranch>, rest: Protocol, role: Role)
    requires |ts| == |bs|
    requires forall i | 0 <= i < |bs| :: FreeVars(ts[i].ty) == FreeContinues(bs[i].body + rest)
    ensures FreeVarsOf(ts) == FreeContinuesOf(bs, rest)
  {
    if bs != [] {
      FreeVarsPointwise(ts[1..], bs[1..], rest, role);
    }
  }

  lemma {:induction false} FreeContinuesConstant(bs: seq<GlobalBranch>, rest: Protocol, vars: set<Label>)
    requires bs != [] && forall i | 0 <= i < |bs| :: FreeContinues(bs[i].body + rest) == vars
    ensures FreeContinuesOf(bs, rest) == vars
  {
    if |bs| > 1 {
      FreeContinuesConstant(bs[1..], rest, vars);
    } else {
      assert bs[1..] == [];
    }
  }

  /** A loop gets a `Rec` exactly when its body can continue at it, for every role. */
  lemma RecIffContinued(l: Label, body: Protocol, role: Role)
    requires WellFormed(body) && Projectable(body, role)
    ensures Project([GLoop(l, body)], role) ==
            Ok(if l in FreeContinues(body) then LRec(l, P(body, role)) else P(body, role))
  {
    FreeVarsOfProjection(body, role);
    HasRecVarIsFreeVars(P(body, role), l);
  }
}
