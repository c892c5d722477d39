/** Who is told of a choice: what the coded test of involvement comes to, in terms of what
  * the role does (tools/project.py, lines 197-218 and 256-289). */
module Involvement {
  import opened Wrappers
  import opened LocalTypes
  import opened Projection

  // ----- the test, by the interactions it looks at -----

  /** The interaction stands in `body` or in a loop of it, outside every branch. */
  ghost predicate AtTop(body: Protocol, n: GlobalNode) {
    body != [] && (body[0] == n || (body[0].GLoop? && AtTop(body[0].body, n)) || AtTop(body[1..], n))
  }

  /** The role sends it, receives it, or decides it. */
  predicate Does(role: Role, n: GlobalNode) {
    match n
    case GMsg(p, q, _) => role in {p, q}
    case GChoice(d, _) => role == d
    case _ => false
  }

  ghost predicate ActsAtTop(role: Role, body: Protocol) {
    exists n :: AtTop(body, n) && Does(role, n)
  }

  lemma {:induction false} InvolvesIffActs(body: Protocol, role: Role)
    ensures Involves(body, role) <==> ActsAtTop(role, body)
  {
    if body != [] {
      InvolvesIffActs(body[1..], role);
      if body[0].GLoop? { InvolvesIffActs(body[0].body, role); }
      if Involves(body, role) {
        if Does(role, body[0]) {
          assert AtTop(body, body[0]);
        } else if body[0].GLoop? && Involves(body[0].body, role) {
          var n :| AtTop(body[0].body, n) && Does(role, n);
          assert AtTop(body, n);
        } else {
          var n :| AtTop(body[1..], n) && Does(role, n);
          assert AtTop(body, n);
        }
      }
    }
  }

  // ----- the test, by the role's own projection -----

  /** The body with nothing inside its choices. */
  ghost function Outline(body: Protocol): Protocol {
    if body == [] then [] else
    var n := match body[0]
      case GChoice(d, _) => GChoice(d, [GlobalBranch("", [])])
      case GLoop(l, inner) => GLoop(l, Outline(inner))
      case n => n;
    [n] + Outline(body[1..])
  }

  /** Loops and continues stand last: projection drops what follows them. */
  predicate EndsThere(body: Protocol) {
    body != [] ==>
      && (body[0].GLoop? || body[0].GContinue? ==> body[1..] == [])
      && (body[0].GLoop? ==> EndsThere(body[0].body))
      && EndsThere(body[1..])
  }

  predicate ChoiceFree(body: Protocol) {
    body != [] ==> !body[0].GChoice? && (body[0].GLoop? ==> ChoiceFree(body[0].body)) && ChoiceFree(body[1..])
  }

  /** The type sends, receives or chooses somewhere, loop bodies included. */
  predicate Acts(t: LocalType)
    decreases t, 0
  {
    match t
    case LSend(_, _) => true
    case LRecv(_, _) => true
    case LChoose(_) => true
    case LBranch(bs) => AnyActs(bs)
    case LRec(_, body) => Acts(body)
    case LRecVar(_) => false
    case LClose => false
  }

  predicate AnyActs(bs: seq<LocalBranch>)
    decreases bs, 1
  {
    bs != [] && (Acts(bs[0].ty) || AnyActs(bs[1..]))
  }

  /** A role is involved in a body if and only if what it does in the outline of the body
    * sends, receives or chooses. */
  lemma {:induction false} InvolvesIffOutlineActs(body: Protocol, role: Role)
    requires EndsThere(body)
    ensures Projectable(Outline(body), role)
    ensures Involves(body, role) <==> Acts(P(Outline(body), role))
  {
    if body != [] {
      var rest, outline := body[1..], Outline(body);
      InvolvesIffOutlineActs(rest, role);
      assert outline[1..] == Outline(rest);
      match body[0] {
        case GMsg(_, _, _) =>
        case GChoice(d, _) =>
          var bs := outline[0].branches;
          assert bs[0].body + Outline(rest) == Outline(rest) && !InvolvedInAny(bs, role);
          ProjectChoice(outline, role);
        case GLoop(l, inner) => InvolvesIffOutlineActs(inner, role);
        case GContinue(_) =>
      }
    }
  }

  lemma {:induction false} OutlineOfChoiceFree(body: Protocol)
    requires ChoiceFree(body)
    ensures Outline(body) == body
  {
    if body != [] {
      OutlineOfChoiceFree(body[1..]);
      if body[0].GLoop? { OutlineOfChoiceFree(body[0].body); }
      assert [body[0]] + body[1..] == body;
    }
  }

  /** Without choices: a role is involved if and only if its own projection of the body
    * holds a `Send` or a `Recv`. */
  lemma InvolvesIffSendsOrReceives(body: Protocol, role: Role)
    requires EndsThere(body) && ChoiceFree(body)
    ensures Projectable(body, role) && (Involves(body, role) <==> Acts(P(body, role)))
  {
    OutlineOfChoiceFree(body);
    InvolvesIffOutlineActs(body, role);
  }

  /** Nothing inside a branch counts. */
  lemma {:induction false} InnerBranchesDoNotCount(body: Protocol, body': Protocol, role: Role)
    requires Outline(body) == Outline(body')
    ensures Involves(body, role) <==> Involves(body', role)
    decreases body
  {
    if body != [] {
      var o, o' := Outline(body), Outline(body');
      assert o[0] == o'[0] && o[1..] == o'[1..] && o[1..] == Outline(body[1..]) && o'[1..] == Outline(body'[1..]);
      InnerBranchesDoNotCount(body[1..], body'[1..], role);
      if body[0].GLoop? { InnerBranchesDoNotCount(body[0].body, body'[0].body, role); }
    }
  }

  // ----- choices -----

  /** Whoever does something at the top of some branch of a choice another role decides is
    * told which branch it is; whoever does not must do the same in every branch. */
  lemma ChoiceTells(g: Protocol, role: Role)
    requires g != [] && g[0].GChoice? && g[0].branches != [] && role != g[0].decidingRole && Projectable(g, role)
    ensures
      var bs, rest := g[0].branches, g[1..];
      if exists i | 0 <= i < |bs| :: ActsAtTop(role, bs[i].body) then
        && P(g, role).LBranch? && |P(g, role).branches| == |bs|
        && forall i | 0 <= i < |bs| ::
             && P(g, role).branches[i].name == bs[i].name
             && Project(bs[i].body + rest, role) == Ok(P(g, role).branches[i].ty)
      else
        forall i | 0 <= i < |bs| :: Project(bs[i].body + rest, role) == Project(g, role)
  {
    var bs := g[0].branches;
    forall i | 0 <= i < |bs|
      ensures Involves(bs[i].body, role) <==> ActsAtTop(role, bs[i].body)
    {
      InvolvesIffActs(bs[i].body, role);
    }
    ProjectChoice(g, role);
  }

  // ----- the cases the algorithm is validated on, for any roles, labels and types -----

  /** A choice between two branches, once it is known what each projects to. */
  lemma TwoBranches(d: Role, x: GlobalBranch, y: GlobalBranch, rest: Protocol, role: Role, t: LocalType, u: LocalType)
    requires Project(x.body + rest, role) == Ok(t) && Project(y.body + rest, role) == Ok(u)
    ensures Project([GChoice(d, [x, y])] + rest, role) ==
            var bs := [LocalBranch(x.name, t), LocalBranch(y.name, u)];
            if role == d then Ok(LChoose(bs))
            else if ActsAtTop(role, x.body) || ActsAtTop(role, y.body) then Ok(LBranch(bs))
            else if t == u then Ok(t) else Err(NotMergeable)
  {
    var g, bs := [GChoice(d, [x, y])] + rest, [x, y];
    assert g[1..] == rest && bs[0] == x && bs[1] == y;
    InvolvesIffActs(x.body, role);
    InvolvesIffActs(y.body, role);
    assert InvolvedInAny(bs, role) <==> Involves(bs[0].body, role) || Involves(bs[1].body, role);
    ProjectChoice(g, role);
    if role == d || InvolvedInAny(bs, role) {
      var ts := P(g, role).branches;
      assert ts == [LocalBranch(x.name, t), LocalBranch(y.name, u)];
    } else if t == u {
      assert Project(bs[0].body + rest, role) == Project(g, role);
    } else {
      assert Project(bs[1].body + rest, role) != Project(bs[0].body + rest, role);
      assert !Projectable(g, role) && Project(g, role).error.NotMergeable?;
    }
  }

  lemma MessageActs(role: Role, p: Role, q: Role, m: string, rest: Protocol)
    requires role in {p, q}
    ensures ActsAtTop(role, [GMsg(p, q, m)] + rest)
  {
    assert AtTop([GMsg(p, q, m)] + rest, GMsg(p, q, m));
  }

  lemma ProjectMessage(p: Role, q: Role, m: string, rest: Protocol, role: Role)
    requires Projectable(rest, role)
    ensures Project([GMsg(p, q, m)] + rest, role)
         == Ok(if role == p then LSend(m, P(rest, role))
               else if role == q then LRecv(m, P(rest, role)) else P(rest, role))
  {
    assert ([GMsg(p, q, m)] + rest)[1..] == rest;
  }

  /** The receiver of the one message of one branch is told of both. */
  lemma ReceiverIsTold(a: Role, b: Role, yes: Label, no: Label, m: string)
    requires a != b
    ensures var g := [GChoice(a, [GlobalBranch(yes, [GMsg(a, b, m)]), GlobalBranch(no, [])])];
            && Project(g, a) == Ok(LChoose([LocalBranch(yes, LSend(m, LClose)), LocalBranch(no, LClose)]))
            && Project(g, b) == Ok(LBranch([LocalBranch(yes, LRecv(m, LClose)), LocalBranch(no, LClose)]))
  {
    var x, y := GlobalBranch(yes, [GMsg(a, b, m)]), GlobalBranch(no, []);
    assert x.body + [] == [GMsg(a, b, m)] + [] && y.body + [] == [];
    assert [GChoice(a, [x, y])] + [] == [GChoice(a, [x, y])];
    ProjectMessage(a, b, m, [], a);
    ProjectMessage(a, b, m, [], b);
    MessageActs(b, a, b, m, []);
    TwoBranches(a, x, y, [], a, LSend(m, LClose), LClose);
    TwoBranches(a, x, y, [], b, LRecv(m, LClose), LClose);
  }

  /** Case 4: who is told only inside inner choices is not told which of them is on, so it
    * must not matter: with different messages the protocol does not project. */
  lemma ToldOnlyInside(a: Role, b: Role, c: Role, left: Label, right: Label, go: Label, skip: Label,
                       m: string, n: string)
    requires a != b && a != c && b != c
    ensures
      var x := [GChoice(b, [GlobalBranch(go, [GMsg(b, c, m)]), GlobalBranch(skip, [])])];
      var y := [GChoice(b, [GlobalBranch(go, [GMsg(b, c, n)]), GlobalBranch(skip, [])])];
      Project([GChoice(a, [GlobalBranch(left, x), GlobalBranch(right, y)])], c) ==
      if m == n then Ok(LBranch([LocalBranch(go, LRecv(m, LClose)), LocalBranch(skip, LClose)])) else Err(NotMergeable)
  {
    var x := [GChoice(b, [GlobalBranch(go, [GMsg(b, c, m)]), GlobalBranch(skip, [])])];
    var y := [GChoice(b, [GlobalBranch(go, [GMsg(b, c, n)]), GlobalBranch(skip, [])])];
    ReceiverIsTold(b, c, go, skip, m);
    ReceiverIsTold(b, c, go, skip, n);
    OnlyInside(b, c, GlobalBranch(go, [GMsg(b, c, m)]), GlobalBranch(skip, []));
    OnlyInside(b, c, GlobalBranch(go, [GMsg(b, c, n)]), GlobalBranch(skip, []));
    assert x + [] == x && y + [] == y;
    TwoBranches(a, GlobalBranch(left, x), GlobalBranch(right, y), [], c, P(x, c), P(y, c));
    assert LocalBranch(go, LRecv(m, LClose)) == LocalBranch(go, LRecv(n, LClose)) <==> m == n;
    assert P(x, c).branches[0].ty.msgType == m && P(y, c).branches[0].ty.msgType == n;
    var g := [GChoice(a, [GlobalBranch(left, x), GlobalBranch(right, y)])];
    assert g + [] == g;
  }

  lemma OnlyInside(b: Role, c: Role, x: GlobalBranch, y: GlobalBranch)
    requires b != c
    ensures !ActsAtTop(c, [GChoice(b, [x, y])])
  {
    var g := [GChoice(b, [x, y])];
    InvolvesIffActs(g, c);
    assert g[1..] == [];
  }
}
