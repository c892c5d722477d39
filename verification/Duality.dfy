/** Two-role protocols: when one role's projection is the dual of the other's. */
module Duality {
  import opened LocalTypes
  import opened Projection

  function Dual(t: LocalType): LocalType
    decreases t, 0
  {
    match t
    case LSend(m, k) => LRecv(m, Dual(k))
    case LRecv(m, k) => LSend(m, Dual(k))
    case LChoose(bs) => LBranch(DualBranches(bs))
    case LBranch(bs) => LChoose(DualBranches(bs))
    case LRec(l, body) => LRec(l, Dual(body))
    case LRecVar(_) => t
    case LClose => t
  }

  function DualBranches(bs: seq<LocalBranch>): (ds: seq<LocalBranch>)
    ensures |ds| == |bs|
    decreases bs, 1
  {
    if bs == [] then [] else [LocalBranch(bs[0].name, Dual(bs[0].ty))] + DualBranches(bs[1..])
  }

  lemma {:induction false} DualBranchAt(bs: seq<LocalBranch>, i: nat)
    requires i < |bs|
    ensures DualBranches(bs)[i] == LocalBranch(bs[i].name, Dual(bs[i].ty))
  {
    if i > 0 { DualBranchAt(bs[1..], i - 1); }
  }

  lemma {:induction false} DualInvolutive(t: LocalType)
    ensures Dual(Dual(t)) == t
    decreases t, 0
  {
    match t
    case LSend(_, k) => DualInvolutive(k);
    case LRecv(_, k) => DualInvolutive(k);
    case LChoose(bs) => DualBranchesInvolutive(bs);
    case LBranch(bs) => DualBranchesInvolutive(bs);
    case LRec(_, body) => DualInvolutive(body);
    case _ =>
  }

  lemma {:induction false} DualBranchesInvolutive(bs: seq<LocalBranch>)
    ensures DualBranches(DualBranches(bs)) == bs
    decreases bs, 1
  {
    if bs != [] {
      DualInvolutive(bs[0].ty);
      DualBranchesInvolutive(bs[1..]);
      assert DualBranches(bs)[1..] == DualBranches(bs[1..]);
    }
  }

  /** Two lists of branches are dual when they are so branch by branch. */
  lemma {:induction false} DualBranchesPointwise(ts: seq<LocalBranch>, us: seq<LocalBranch>)
    requires |ts| == |us|
    ensures ts == DualBranches(us) <==>
            forall i | 0 <= i < |ts| :: ts[i].name == us[i].name && ts[i].ty == Dual(us[i].ty)
  {
    forall i | 0 <= i < |us|
      ensures DualBranches(us)[i] == LocalBranch(us[i].name, Dual(us[i].ty))
    {
      DualBranchAt(us, i);
    }
  }

  function Other(role: Role, a: Role, b: Role): Role { if role == a then b else a }

  /** Wherever a run of `g` reaches a choice, the role that does not decide it takes
    * part at the top level of some branch. */
  ghost predicate AlwaysTold(g: Protocol, a: Role, b: Role)
    decreases Size(g), 0
  {
    if g == [] then true else
    SizeDrops(g);
    match g[0]
    case GMsg(_, _, _) => AlwaysTold(g[1..], a, b)
    case GChoice(d, bs) => InvolvedInAny(bs, Other(d, a, b)) && AllAlwaysTold(bs, g[1..], a, b)
    case GLoop(_, body) => AlwaysTold(body, a, b)
    case GContinue(_) => true
  }

  ghost predicate AllAlwaysTold(bs: seq<GlobalBranch>, rest: Protocol, a: Role, b: Role)
    decreases BranchesSize(bs) + Size(rest), 1
  {
    if bs == [] then true else
    SizeAppend(bs[0].body, rest);
    AlwaysTold(bs[0].body + rest, a, b) && AllAlwaysTold(bs[1..], rest, a, b)
  }

  lemma {:induction false} AllAlwaysToldPointwise(bs: seq<GlobalBranch>, rest: Protocol, a: Role, b: Role)
    ensures AllAlwaysTold(bs, rest, a, b) <==> forall i | 0 <= i < |bs| :: AlwaysTold(bs[i].body + rest, a, b)
  {
    if bs != [] {
      var tail := bs[1..];
      AllAlwaysToldPointwise(tail, rest, a, b);
      assert forall i | 0 < i < |bs| :: bs[i] == tail[i - 1];
      assert forall i | 0 <= i < |tail| :: tail[i] == bs[i + 1];
    }
  }

  ghost predicate TwoRoles(g: Protocol, a: Role, b: Role) {
    a != b && WellFormed(g) && CastIn(g, {a, b})
  }

  // ----- the leftmost path of a type -----

  datatype Tag = TSend(msgType: string) | TRecv(msgType: string) | TChoose | TBranch | TRec(name: Label)

  /** The events of a type along the first branch of every choice. */
  ghost function Spine(t: LocalType): seq<Tag> {
    match t
    case LSend(m, k) => [TSend(m)] + Spine(k)
    case LRecv(m, k) => [TRecv(m)] + Spine(k)
    case LChoose(bs) => [TChoose] + if bs == [] then [] else Spine(bs[0].ty)
    case LBranch(bs) => [TBranch] + if bs == [] then [] else Spine(bs[0].ty)
    case LRec(l, body) => [TRec(l)] + Spine(body)
    case _ => []
  }

  ghost function Chooses(k: nat): (w: seq<Tag>)
    ensures |w| == k && forall i | 0 <= i < k :: w[i] == TChoose
  {
    seq(k, _ => TChoose)
  }

  lemma ChoosesShift(k: nat, s: seq<Tag>)
    ensures Chooses(k) + ([TChoose] + s) == Chooses(k + 1) + s == [TChoose] + (Chooses(k) + s)
  {
  }

  lemma SpineOfChoice(g: Protocol, role: Role)
    requires g != [] && g[0].GChoice? && WellFormed(g) && Projectable(g, role)
    ensures var bs := g[0].branches; var h := bs[0].body + g[1..];
            && Projectable(h, role)
            && Spine(P(g, role)) == (if g[0].decidingRole == role then [TChoose]
                                     else if InvolvedInAny(bs, role) then [TBranch] else [])
                                    + Spine(P(h, role))
  {
    ProjectChoice(g, role);
  }

  lemma DualSpineOfChoice(g: Protocol, role: Role)
    requires g != [] && g[0].GChoice? && WellFormed(g) && Projectable(g, role)
    ensures var bs := g[0].branches; var h := bs[0].body + g[1..];
            && Projectable(h, role)
            && Spine(Dual(P(g, role))) == (if g[0].decidingRole == role then [TBranch]
                                           else if InvolvedInAny(bs, role) then [TChoose] else [])
                                          + Spine(Dual(P(h, role)))
  {
    ProjectChoice(g, role);
    var t := P(g, role);
    if (t.LBranch? || t.LChoose?) && t.branches != [] { DualBranchAt(t.branches, 0); }
  }

  /** The first branch of a choice of a two-role protocol, and the spines of both projections. */
  lemma FirstBranch(g: Protocol, a: Role, b: Role)
    requires TwoRoles(g, a, b) && g != [] && g[0].GChoice? && Projectable(g, a) && Projectable(g, b)
    ensures var bs := g[0].branches; var h := bs[0].body + g[1..];
            && TwoRoles(h, a, b) && Projectable(h, a) && Projectable(h, b) && Size(h) < Size(g)
            && Spine(P(g, a)) == (if g[0].decidingRole == a then [TChoose]
                                  else if InvolvedInAny(bs, a) then [TBranch] else [])
                                 + Spine(P(h, a))
            && Spine(Dual(P(g, b))) == (if g[0].decidingRole == b then [TBranch]
                                        else if InvolvedInAny(bs, b) then [TChoose] else [])
                                 + Spine(Dual(P(h, b)))
  {
    var bs, rest := g[0].branches, g[1..];
    SizeDrops(g);
    SizeAppend(bs[0].body, rest);
    BranchSize(bs, 0);
    BranchWellFormed(bs, rest, 0);
    BranchCastIn(bs, rest, {a, b}, 0);
    SpineOfChoice(g, a);
    DualSpineOfChoice(g, b);
  }

  /** Once `a` has chosen without telling `b`, no continuation of the protocol lets
    * `b` catch up: `a` stays ahead by choices, and the two paths never match. */
  lemma {:induction false} AheadNeverMatches(g: Protocol, a: Role, b: Role, k: nat)
    requires TwoRoles(g, a, b) && Projectable(g, a) && Projectable(g, b) && k > 0
    ensures Chooses(k) + Spine(P(g, a)) != Spine(Dual(P(g, b)))
    decreases Size(g)
  {
    var lead := Chooses(k) + Spine(P(g, a));
    assert lead[0] == TChoose;
    if g != [] {
      SizeDrops(g);
      match g[0]
      case GMsg(_, _, _) =>
      case GContinue(_) =>
      case GLoop(l, body) =>
        assert g == [g[0]];
        RecIffContinued(l, body, a);
        RecIffContinued(l, body, b);
        if l !in FreeContinues(body) { AheadNeverMatches(body, a, b, k); }
      case GChoice(d, bs) =>
        FirstBranch(g, a, b);
        var h := bs[0].body + g[1..];
        if d == a {
          ChoosesShift(k, Spine(P(h, a)));
          if InvolvedInAny(bs, b) {
            AheadNeverMatches(h, a, b, k);
            assert Spine(Dual(P(g, b)))[1..] == Spine(Dual(P(h, b)));
            assert lead[1..] == Chooses(k) + Spine(P(h, a));
          } else {
            AheadNeverMatches(h, a, b, k + 1);
          }
        }
    }
  }

  /** A choice kept from the other role makes the projections differ. */
  lemma UntoldNotDual(g: Protocol, a: Role, b: Role)
    requires TwoRoles(g, a, b) && Projectable(g, a) && Projectable(g, b)
    requires g != [] && g[0].GChoice? && g[0].decidingRole == a && !InvolvedInAny(g[0].branches, b)
    ensures P(g, a) != Dual(P(g, b))
  {
    FirstBranch(g, a, b);
    var h := g[0].branches[0].body + g[1..];
    AheadNeverMatches(h, a, b, 1);
    assert Chooses(1) == [TChoose];
  }

  // ----- the theorem -----

  ghost predicate DualProjections(g: Protocol, a: Role, b: Role) {
    Projectable(g, a) && Projectable(g, b) && P(g, a) == Dual(P(g, b))
  }

  /** Binary duality: a two-role protocol projects onto both roles with dual types if
    * and only if no reachable choice is kept from the role that does not decide it. */
  lemma {:induction false} DualIffAlwaysTold(g: Protocol, a: Role, b: Role)
    requires TwoRoles(g, a, b)
    ensures DualProjections(g, a, b) <==> AlwaysTold(g, a, b)
    decreases Size(g)
  {
    if g != [] {
      SizeDrops(g);
      match g[0]
      case GMsg(_, _, _) => DualIffAlwaysTold(g[1..], a, b);
      case GContinue(_) =>
      case GLoop(l, body) =>
        assert g == [g[0]];
        DualIffAlwaysTold(body, a, b);
        if Projectable(body, a) && Projectable(body, b) {
          RecIffContinued(l, body, a);
          RecIffContinued(l, body, b);
        }
      case GChoice(d, bs) => ChoiceDualIffAlwaysTold(g, a, b);
    }
  }

  lemma {:induction false} ChoiceDualIffAlwaysTold(g: Protocol, a: Role, b: Role)
    requires TwoRoles(g, a, b) && g != [] && g[0].GChoice?
    ensures DualProjections(g, a, b) <==> AlwaysTold(g, a, b)
    decreases Size(g), 0
  {
    var d, bs, rest := g[0].decidingRole, g[0].branches, g[1..];
    SizeDrops(g);
    forall i | 0 <= i < |bs|
      ensures DualProjections(bs[i].body + rest, a, b) <==> AlwaysTold(bs[i].body + rest, a, b)
    {
      SizeAppend(bs[i].body, rest);
      BranchSize(bs, i);
      BranchWellFormed(bs, rest, i);
      BranchCastIn(bs, rest, {a, b}, i);
      DualIffAlwaysTold(bs[i].body + rest, a, b);
    }
    AllAlwaysToldPointwise(bs, rest, a, b);
    if !InvolvedInAny(bs, Other(d, a, b)) {
      if DualProjections(g, a, b) {
        DualInvolutive(P(g, b));
        assert {a, b} == {b, a};
        if d == a { UntoldNotDual(g, a, b); } else { UntoldNotDual(g, b, a); }
      }
    } else {
      ToldChoice(g, a, b);
    }
  }

  /** A choice both roles know of is dual when its branches are. */
  lemma ToldChoice(g: Protocol, a: Role, b: Role)
    requires TwoRoles(g, a, b) && g != [] && g[0].GChoice?
    requires InvolvedInAny(g[0].branches, Other(g[0].decidingRole, a, b))
    ensures DualProjections(g, a, b) <==>
            forall i | 0 <= i < |g[0].branches| :: DualProjections(g[0].branches[i].body + g[1..], a, b)
  {
    var d, bs, rest := g[0].decidingRole, g[0].branches, g[1..];
    ProjectChoice(g, a);
    ProjectChoice(g, b);
    if Projectable(g, a) && Projectable(g, b) {
      var ts, us := P(g, a).branches, P(g, b).branches;
      DualBranchesPointwise(ts, us);
      assert P(g, a) == Dual(P(g, b)) <==> ts == DualBranches(us);
      assert forall i | 0 <= i < |bs| ::
          DualProjections(bs[i].body + rest, a, b) <==> ts[i].ty == Dual(us[i].ty);
    }
  }
}
