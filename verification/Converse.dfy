/** The converse of the simulation: which moves of the projected roles are steps of the
  * protocol (tools/project.py, lines 197-304). */
module Converse {
  import opened Wrappers
  import opened LocalTypes
  import opened Projection
  import opened Simulation
  import opened Duality

  // ----- silent loops -----

  /** The next step enters a loop that nothing continues at: no role sees it. */
  ghost predicate Silent(c: Global) {
    c.now != [] && c.now[0].GLoop? && c.now[0].name !in FreeContinues(c.now[0].body + c.now[1..])
  }

  ghost function Entered(c: Global): Global
    requires c.now != [] && c.now[0].GLoop?
  {
    var body := c.now[0].body + c.now[1..];
    Global(GBind(c.now[0].name, body, c.env), body)
  }

  /** The configuration once every silent loop at the head is entered. */
  ghost function Settled(c: Global): Global
    decreases Size(c.now)
  {
    if Silent(c) then
      SizeDrops(c.now);
      SizeAppend(c.now[0].body, c.now[1..]);
      Settled(Entered(c))
    else c
  }

  lemma EnterSilently(c: Global, roles: set<Role>)
    requires Inv(c, roles) && AllProjectable(c, roles) && Silent(c)
    ensures GlobalStep(c, Enter(c.now[0].name), Entered(c)) && Size(Entered(c).now) < Size(c.now)
    ensures Inv(Entered(c), roles) && AllProjectable(Entered(c), roles)
    ensures ProjectSystem(Entered(c), roles) == ProjectSystem(c, roles)
  {
    var l, body := c.now[0].name, c.now[0].body;
    assert body + c.now[1..] == body && c.now == [c.now[0]];
    SizeDrops(c.now);
    StepSimulated(c, Enter(l), Entered(c), roles);
    forall role | role in roles
      ensures ProjectConfig(Entered(c), role) == ProjectConfig(c, role)
    {
      RecIffContinued(l, body, role);
      FreeVarsOfProjection(body, role);
      HasRecVarIsFreeVars(P(body, role), l);
    }
  }

  /** Settling takes only steps the system does not notice. */
  lemma {:induction false} SettledIs(c: Global, roles: set<Role>)
    requires Inv(c, roles) && AllProjectable(c, roles)
    ensures !Silent(Settled(c)) && Inv(Settled(c), roles) && AllProjectable(Settled(c), roles)
    ensures ProjectSystem(Settled(c), roles) == ProjectSystem(c, roles)
    decreases Size(c.now)
  {
    if Silent(c) {
      EnterSilently(c, roles);
      SettledIs(Entered(c), roles);
    }
  }

  // ----- moves at the head -----

  /** `a` is a move of the roles the head of the protocol names. */
  ghost predicate AtHead(c: Global, a: Action) {
    c.now != [] &&
    match c.now[0]
    case GMsg(p, q, _) => a.Exchange? && a.fromRole == p && a.toRole == q
    case GChoice(d, _) => a.Select? && a.decidingRole == d
    case GLoop(l, _) => a == Enter(l)
    case GContinue(l) => a == Jump(l)
  }

  /** A step of the system in which the protocol's own participants take part, made by the
    * roles its head names, is a step of the protocol and ends on its projections. */
  lemma HeadStepIsGlobal(c: Global, a: Action, s': System, roles: set<Role>) returns (c': Global)
    requires Inv(c, roles) && AllProjectable(c, roles) && AtHead(c, a)
    requires SystemStep(ProjectSystem(c, roles), a, Participants(c, roles), s')
    ensures GlobalStep(c, a, c') && AllProjectable(c', roles) && s' == ProjectSystem(c', roles)
  {
    var rest := c.now[1..];
    match c.now[0] {
      case GMsg(p, q, t) =>
        assert LocalStep(p, ProjectConfig(c, p), a, {}, s'[p]);
        c' := Global(c.env, rest);
      case GChoice(d, bs) =>
        ProjectChoice(c.now, d);
        var ts := P(c.now, d).branches;
        assert LocalStep(d, ProjectConfig(c, d), a, Participants(c, roles), s'[d]);
        var i :| 0 <= i < |ts| && ts[i].name == a.name;
        c' := Global(c.env, bs[i].body + rest);
        assert GlobalStep(c, a, c');
      case GLoop(l, body) => c' := Entered(c);
      case GContinue(l) =>
        FindInScope(c.env, l, roles);
        c' := Global(FindLoop(c.env, l), FindLoop(c.env, l).resume);
    }
    StepSimulated(c, a, c', roles);
    forall role | role in roles
      ensures s'[role] == ProjectConfig(c', role)
    {
      var others := Participants(c, roles);
      LocalStepDeterministic(role, ProjectConfig(c, role), a, others, s'[role], ProjectConfig(c', role));
    }
    assert s' == ProjectSystem(c', roles);
  }

  /** The protocol makes the move, silent loops entered first, and `s'` is what its
    * successor projects to. */
  ghost predicate Matched(c: Global, a: Action, s': System, roles: set<Role>) {
    exists c' :: GlobalStep(Settled(c), a, c') && AllProjectable(c', roles) && s' == ProjectSystem(c', roles)
  }

  /** Who hears of a selection or of an entry, moves. */
  lemma HearingMoves(role: Role, s: Local, a: Action, others: set<Role>, s': Local)
    requires LocalStep(role, s, a, others, s') && role in others && role !in Named(a)
    requires a.Select? || a.Enter?
    ensures s' != s
  {
  }

  lemma EveryoneJumps(c: Global, l: Label, roles: set<Role>)
    requires AllProjectable(c, roles) && c.now != [] && c.now[0] == GContinue(l)
    ensures Heard(ProjectSystem(c, roles), Jump(l)) == roles
  {
  }

  /** The exact condition: a move the projected roles make by themselves is a step of the
    * protocol if and only if the roles it names are those at the head of the protocol,
    * and those who hear of it are those the protocol involves. */
  lemma MatchedIff(c: Global, a: Action, s': System, roles: set<Role>)
    requires Inv(c, roles) && AllProjectable(c, roles) && SystemMove(ProjectSystem(c, roles), a, s')
    ensures Matched(c, a, s', roles) <==>
            AtHead(Settled(c), a) && Heard(ProjectSystem(c, roles), a) == Participants(Settled(c), roles)
  {
    var d, s := Settled(c), ProjectSystem(c, roles);
    SettledIs(c, roles);
    if AtHead(d, a) && Heard(s, a) == Participants(d, roles) {
      var c' := HeadStepIsGlobal(d, a, s', roles);
    }
    if Matched(c, a, s', roles) {
      var c' :| GlobalStep(d, a, c') && AllProjectable(c', roles) && s' == ProjectSystem(c', roles);
      StepSimulated(d, a, c', roles);
      var named := Participants(d, roles);
      if a.Jump? {
        EveryoneJumps(d, a.name, roles);
      } else if !a.Exchange? {
        forall role | role in roles
          ensures role in Heard(s, a) <==> role in named
        {
          if role !in Named(a) && role in Heard(s, a) + named {
            if role in named {
              HearingMoves(role, s[role], a, named, s'[role]);
            } else {
              HearingMoves(role, s[role], a, Heard(s, a), s'[role]);
            }
          }
        }
        assert Heard(s, a) == named;
      }
    }
  }

  /** The simulation by the roles alone, exactly: a step of the protocol that the system
    * notices is a move the projected roles make by themselves if and only if those who
    * hear of it are those the protocol involves. */
  lemma StepIsMoveIff(c: Global, a: Action, c': Global, roles: set<Role>)
    requires Inv(c, roles) && AllProjectable(c, roles) && !Silent(c) && roles != {} && GlobalStep(c, a, c')
    ensures AllProjectable(c', roles)
    ensures SystemMove(ProjectSystem(c, roles), a, ProjectSystem(c', roles)) <==>
            Heard(ProjectSystem(c, roles), a) == Participants(c, roles)
  {
    StepSimulated(c, a, c', roles);
    if SystemMove(ProjectSystem(c, roles), a, ProjectSystem(c', roles)) {
      MatchedIff(c, a, ProjectSystem(c', roles), roles);
    }
  }

  // ----- three roles or more: the moves a protocol does not have -----

  /** Send and Recv do not name the other role: two protocols that pair the senders and
    * receivers differently have the same projections onto every role. */
  lemma PeersAreForgotten(role: Role)
    ensures Project([GMsg("A", "B", "T"), GMsg("C", "D", "T")], role)
         == Project([GMsg("A", "D", "T"), GMsg("C", "B", "T")], role)
  {
    var g, h := [GMsg("A", "B", "T"), GMsg("C", "D", "T")], [GMsg("A", "D", "T"), GMsg("C", "B", "T")];
    assert g[1..] == [GMsg("C", "D", "T")] && g[1..][1..] == [];
    assert h[1..] == [GMsg("C", "B", "T")] && h[1..][1..] == [];
  }

  lemma ProjectTwo(p: Role, q: Role, r: Role, u: Role, t: string, role: Role)
    requires p != q && r != u && {p, q} !! {r, u} && role in {p, q, r, u}
    ensures Project([GMsg(p, q, t), GMsg(r, u, t)], role)
         == Ok(if role == p || role == r then LSend(t, LClose) else LRecv(t, LClose))
  {
    var g, h := [GMsg(p, q, t), GMsg(r, u, t)], [GMsg(r, u, t)];
    assert g[1..] == h && h[1..] == [];
    assert Project(h[1..], role) == Ok(LClose);
    assert Project(h, role)
        == Ok(if role == r then LSend(t, LClose) else if role == u then LRecv(t, LClose) else LClose);
  }

  lemma ClosedTwo(p: Role, q: Role, r: Role, u: Role, t: string)
    requires p != q && r != u
    ensures Closed([GMsg(p, q, t), GMsg(r, u, t)], {p, q, r, u})
  {
    var g, h := [GMsg(p, q, t), GMsg(r, u, t)], [GMsg(r, u, t)];
    assert g[1..] == h && h[1..] == [];
    assert Closed(h, {p, q, r, u});
  }

  /** Two messages between disjoint pairs. Closed and projectable, and yet the projected
    * roles can exchange the second message first, and can pair the first sender with the
    * second receiver; the protocol makes neither move. */
  lemma UnorderedAndMispaired(p: Role, q: Role, r: Role, u: Role, t: string) returns (early: System, crossed: System)
    requires p != q && r != u && {p, q} !! {r, u}
    ensures
      var g := [GMsg(p, q, t), GMsg(r, u, t)];
      var roles := {p, q, r, u};
      var c := Global(GTop, g);
      && Closed(g, roles) && Inv(c, roles) && AllProjectable(c, roles)
      && SystemMove(ProjectSystem(c, roles), Exchange(r, u, t), early)
      && !Matched(c, Exchange(r, u, t), early, roles)
      && SystemMove(ProjectSystem(c, roles), Exchange(p, u, t), crossed)
      && !Matched(c, Exchange(p, u, t), crossed, roles)
  {
    var g, roles := [GMsg(p, q, t), GMsg(r, u, t)], {p, q, r, u};
    var c := Global(GTop, g);
    forall role | role in roles
      ensures Project(g, role) == Ok(if role == p || role == r then LSend(t, LClose) else LRecv(t, LClose))
    {
      ProjectTwo(p, q, r, u, t, role);
    }
    ClosedTwo(p, q, r, u, t);
    var s := ProjectSystem(c, roles);
    early := s[r := Local(LTop, LClose)][u := Local(LTop, LClose)];
    crossed := s[p := Local(LTop, LClose)][u := Local(LTop, LClose)];
    MatchedIff(c, Exchange(r, u, t), early, roles);
    MatchedIff(c, Exchange(p, u, t), crossed, roles);
  }

  // ----- two roles: the protocols that have every move -----

  function Names(bs: seq<GlobalBranch>): (ls: seq<Label>)
    ensures |ls| == |bs| && forall i | 0 <= i < |bs| :: ls[i] == bs[i].name
  {
    seq(|bs|, i requires 0 <= i < |bs| => bs[i].name)
  }

  /** A role that is not told of a choice has to wait for it: its type neither chooses,
    * nor unfolds, nor listens for those very labels. */
  predicate Waits(t: LocalType, bs: seq<GlobalBranch>) {
    match t
    case LChoose(ts) => ts == []
    case LBranch(ts) => Labels(ts) != Names(bs)
    case LRec(_, _) => false
    case LRecVar(_) => false
    case _ => true
  }

  /** At every choice a run of `g` reaches, the role that does not decide is told, or waits. */
  ghost predicate InStep(g: Protocol, a: Role, b: Role)
    decreases Size(g), 0
  {
    if g == [] then true else
    SizeDrops(g);
    match g[0]
    case GMsg(_, _, _) => InStep(g[1..], a, b)
    case GChoice(d, bs) =>
      var o := Other(d, a, b);
      (InvolvedInAny(bs, o) || (Projectable(g, o) && Waits(P(g, o), bs))) && AllInStep(bs, g[1..], a, b)
    case GLoop(_, body) => InStep(body, a, b)
    case GContinue(_) => true
  }

  ghost predicate AllInStep(bs: seq<GlobalBranch>, rest: Protocol, a: Role, b: Role)
    decreases BranchesSize(bs) + Size(rest), 1
  {
    if bs == [] then true else
    SizeAppend(bs[0].body, rest);
    InStep(bs[0].body + rest, a, b) && AllInStep(bs[1..], rest, a, b)
  }

  lemma {:induction false} AllInStepPointwise(bs: seq<GlobalBranch>, rest: Protocol, a: Role, b: Role)
    ensures AllInStep(bs, rest, a, b) <==> forall i | 0 <= i < |bs| :: InStep(bs[i].body + rest, a, b)
  {
    if bs != [] {
      var tail := bs[1..];
      AllInStepPointwise(tail, rest, a, b);
      assert forall i | 0 < i < |bs| :: bs[i] == tail[i - 1];
      assert forall i | 0 <= i < |tail| :: tail[i] == bs[i + 1];
    }
  }

  ghost predicate EnvInStep(env: GlobalEnv, a: Role, b: Role) {
    env.GBind? ==> InStep(env.resume, a, b) && EnvInStep(env.outer, a, b)
  }

  /** All that is ahead of a configuration is in step. */
  ghost predicate ConfigInStep(c: Global, a: Role, b: Role) {
    InStep(c.now, a, b) && EnvInStep(c.env, a, b)
  }

  lemma {:induction false} FindInStep(env: GlobalEnv, l: Label, a: Role, b: Role)
    requires EnvInStep(env, a, b)
    ensures EnvInStep(FindLoop(env, l), a, b)
  {
    if env.GBind? && env.name != l { FindInStep(env.outer, l, a, b); }
  }

  lemma InStepKept(c: Global, act: Action, c': Global, a: Role, b: Role)
    requires Inv(c, {a, b}) && GlobalStep(c, act, c') && ConfigInStep(c, a, b)
    ensures ConfigInStep(c', a, b)
  {
    var rest := c.now[1..];
    match c.now[0]
    case GMsg(_, _, _) =>
    case GChoice(_, bs) => AllInStepPointwise(bs, rest, a, b);
    case GLoop(_, body) => assert body + rest == body;
    case GContinue(l) => FindInStep(c.env, l, a, b);
  }

  lemma {:induction false} SettledInStep(c: Global, a: Role, b: Role)
    requires Inv(c, {a, b}) && AllProjectable(c, {a, b}) && ConfigInStep(c, a, b)
    ensures ConfigInStep(Settled(c), a, b)
    decreases Size(c.now)
  {
    if Silent(c) {
      EnterSilently(c, {a, b});
      InStepKept(c, Enter(c.now[0].name), Entered(c), a, b);
      SettledInStep(Entered(c), a, b);
    }
  }

  /** Where the projections of a settled configuration stand, one role or the other. */
  lemma WhereTheyStand(c: Global, role: Role, roles: set<Role>)
    requires Inv(c, roles) && AllProjectable(c, roles) && !Silent(c) && role in roles
    ensures var t := P(c.now, role);
            if c.now == [] then t == LClose else
            match c.now[0]
            case GMsg(p, q, m) =>
              (role == p ==> t.LSend? && t.msgType == m) && (role == q ==> t.LRecv? && t.msgType == m)
            case GChoice(d, bs) =>
              && (role == d ==> t.LChoose? && Labels(t.branches) == Names(bs))
              && (role != d && InvolvedInAny(bs, role) ==> t.LBranch? && Labels(t.branches) == Names(bs))
            case GLoop(l, _) => t.LRec? && t.name == l
            case GContinue(l) => t == LRecVar(l)
  {
    if c.now != [] {
      match c.now[0]
      case GMsg(_, _, _) =>
      case GChoice(d, bs) => ProjectChoice(c.now, role);
      case GLoop(l, body) =>
        assert body + c.now[1..] == body && c.now == [c.now[0]];
        RecIffContinued(l, body, role);
      case GContinue(_) =>
    }
  }

  /** In step, those who hear of a move at the head are those the protocol involves. */
  lemma HeardAtHead(c: Global, act: Action, a: Role, b: Role)
    requires a != b && Inv(c, {a, b}) && AllProjectable(c, {a, b}) && ConfigInStep(c, a, b) && !Silent(c)
    requires AtHead(c, act)
    ensures Heard(ProjectSystem(c, {a, b}), act) == Participants(c, {a, b})
  {
    var s := ProjectSystem(c, {a, b});
    WhereTheyStand(c, a, {a, b});
    WhereTheyStand(c, b, {a, b});
    assert s.Keys == {a, b} && s[a].ty == P(c.now, a) && s[b].ty == P(c.now, b);
  }

  /** What stands where, for a move of both. */
  lemma BothStand(c: Global, act: Action, s': System, a: Role, b: Role)
    requires a != b && AllProjectable(c, {a, b}) && SystemMove(ProjectSystem(c, {a, b}), act, s')
    ensures var s := ProjectSystem(c, {a, b});
            && Named(act) <= {a, b} && Heard(s, act) <= {a, b}
            && LocalStep(a, ProjectConfig(c, a), act, Heard(s, act), s'[a])
            && LocalStep(b, ProjectConfig(c, b), act, Heard(s, act), s'[b])
  {
  }

  /** Beside a role that listens for its choice, or waits, only the decider can move. */
  lemma DeciderMoves(d: Role, x: Local, x': Local, o: Role, y: Local, y': Local, act: Action, heard: set<Role>)
    requires d != o && Named(act) <= {d, o} && LocalStep(d, x, act, heard, x') && LocalStep(o, y, act, heard, y')
    requires x.ty.LChoose? && (y.ty.LBranch? || y.ty.LSend? || y.ty.LRecv? || y.ty == LClose || y.ty == LChoose([]))
    requires act.Exchange? ==> act.fromRole != act.toRole
    requires act.Enter? || act.Jump? ==> heard * {d, o} != {}
    ensures act.Select? && act.decidingRole == d
  {
  }

  lemma OnlyTheDecider(c: Global, act: Action, s': System, a: Role, b: Role)
    requires a != b && Inv(c, {a, b}) && AllProjectable(c, {a, b}) && ConfigInStep(c, a, b)
    requires c.now != [] && c.now[0].GChoice? && SystemMove(ProjectSystem(c, {a, b}), act, s')
    ensures act.Select? && act.decidingRole == c.now[0].decidingRole
  {
    var d := c.now[0].decidingRole;
    var o := Other(d, a, b);
    BothStand(c, act, s', a, b);
    WhereTheyStand(c, d, {a, b});
    WhereTheyStand(c, o, {a, b});
    var s := ProjectSystem(c, {a, b});
    assert InvolvedInAny(c.now[0].branches, o) || Waits(P(c.now, o), c.now[0].branches);
    DeciderMoves(d, s[d], s'[d], o, s[o], s'[o], act, Heard(s, act));
  }

  /** In step, the two roles can only move at the head of the protocol. */
  lemma OnlyAtHead(c: Global, act: Action, s': System, a: Role, b: Role)
    requires a != b && Inv(c, {a, b}) && AllProjectable(c, {a, b}) && ConfigInStep(c, a, b) && !Silent(c)
    requires SystemMove(ProjectSystem(c, {a, b}), act, s')
    ensures AtHead(c, act)
  {
    if c.now != [] && c.now[0].GChoice? {
      OnlyTheDecider(c, act, s', a, b);
    } else {
      BothStand(c, act, s', a, b);
      WhereTheyStand(c, a, {a, b});
      WhereTheyStand(c, b, {a, b});
    }
  }

  /** In step, whatever the two projected roles do by themselves is a step of the protocol. */
  lemma InStepMatched(c: Global, act: Action, s': System, a: Role, b: Role)
    requires a != b && Inv(c, {a, b}) && AllProjectable(c, {a, b}) && ConfigInStep(c, a, b)
    requires SystemMove(ProjectSystem(c, {a, b}), act, s')
    ensures Matched(c, act, s', {a, b})
  {
    SettledIs(c, {a, b});
    SettledInStep(c, a, b);
    OnlyAtHead(Settled(c), act, s', a, b);
    HeardAtHead(Settled(c), act, a, b);
    MatchedIff(c, act, s', {a, b});
  }

  // ----- and only those -----

  /** A role that was not told goes ahead. */
  lemma StrayAhead(c: Global, a: Role, b: Role) returns (act: Action, s': System)
    requires a != b && Inv(c, {a, b}) && AllProjectable(c, {a, b}) && c.now != [] && c.now[0].GChoice?
    requires var t := P(c.now, Other(c.now[0].decidingRole, a, b));
             !t.LBranch? && !Waits(t, c.now[0].branches)
    ensures SystemMove(ProjectSystem(c, {a, b}), act, s') && !Matched(c, act, s', {a, b})
  {
    var d, s := c.now[0].decidingRole, ProjectSystem(c, {a, b});
    var o := Other(d, a, b);
    WhereTheyStand(c, d, {a, b});
    assert s.Keys == {d, o} && s[d].ty == P(c.now, d) && s[o].ty == P(c.now, o);
    match s[o].ty {
      case LChoose(ts) => act, s' := Select(o, ts[0].name), s[o := Local(s[o].env, ts[0].ty)];
      case LRec(l, body) => act, s' := Enter(l), s[o := Local(LBind(l, body, s[o].env), body)];
      case LRecVar(l) =>
        FreeVarsOfProjection(c.now, o);
        FindCommutes(c.env, l, o, {a, b});
        var env := FindRec(s[o].env, l);
        act, s' := Jump(l), s[o := Local(env, env.body)];
    }
    assert Heard(s, act) == if act.Select? then {} else {o};
    assert LocalStep(o, s[o], act, Heard(s, act), s'[o]) && LocalStep(d, s[d], act, Heard(s, act), s'[d]);
    MatchedIff(c, act, s', {a, b});
  }

  /** Or it takes the choice for one it listens for. */
  lemma StrayListener(c: Global, a: Role, b: Role) returns (act: Action, s': System)
    requires a != b && Inv(c, {a, b}) && AllProjectable(c, {a, b}) && c.now != [] && c.now[0].GChoice?
    requires var o := Other(c.now[0].decidingRole, a, b);
             !InvolvedInAny(c.now[0].branches, o) && P(c.now, o).LBranch? && !Waits(P(c.now, o), c.now[0].branches)
    ensures SystemMove(ProjectSystem(c, {a, b}), act, s') && !Matched(c, act, s', {a, b})
  {
    var d, s := c.now[0].decidingRole, ProjectSystem(c, {a, b});
    var o := Other(d, a, b);
    WhereTheyStand(c, d, {a, b});
    assert s.Keys == {d, o} && s[d].ty == P(c.now, d) && s[o].ty == P(c.now, o);
    var ts, us := s[o].ty.branches, s[d].ty.branches;
    assert Labels(us)[0] == Labels(ts)[0];
    act := Select(d, ts[0].name);
    s' := s[o := Local(s[o].env, ts[0].ty)][d := Local(s[d].env, us[0].ty)];
    assert Heard(s, act) == {o};
    assert LocalStep(o, s[o], act, {o}, s'[o]) && LocalStep(d, s[d], act, {o}, s'[d]);
    assert Participants(c, {a, b}) == {};
    MatchedIff(c, act, s', {a, b});
  }

  ghost predicate Reaches(c: Global, d: Global) {
    exists cs, acts :: GlobalRun(cs, acts) && cs[0] == c && cs[|acts|] == d
  }

  lemma ReachesSelf(c: Global)
    ensures Reaches(c, c)
  {
    assert GlobalRun([c], []);
  }

  lemma ReachesAfter(c: Global, act: Action, c': Global, d: Global)
    requires GlobalStep(c, act, c') && Reaches(c', d)
    ensures Reaches(c, d)
  {
    var cs, acts :| GlobalRun(cs, acts) && cs[0] == c' && cs[|acts|] == d;
    var cs', acts' := [c] + cs, [act] + acts;
    assert forall i | 0 < i < |acts'| :: acts'[i] == acts[i - 1] && cs'[i] == cs[i - 1] && cs'[i + 1] == cs[i];
    assert GlobalRun(cs', acts') && cs'[|acts'|] == d;
  }

  lemma ReachesThen(c: Global, d: Global, act: Action, d': Global)
    requires Reaches(c, d) && GlobalStep(d, act, d')
    ensures Reaches(c, d')
  {
    var cs, acts :| GlobalRun(cs, acts) && cs[0] == c && cs[|acts|] == d;
    var cs', acts' := cs + [d'], acts + [act];
    forall i | 0 <= i < |acts'|
      ensures GlobalStep(cs'[i], acts'[i], cs'[i + 1])
    {
      if i < |acts| { assert GlobalStep(cs[i], acts[i], cs[i + 1]); }
    }
    assert GlobalRun(cs', acts') && cs'[0] == c && cs'[|acts'|] == d';
  }

  /** Whatever the projected roles do by themselves at `c`, the protocol does. */
  ghost predicate Follows(c: Global, roles: set<Role>) {
    AllProjectable(c, roles) &&
    forall act, s' | SystemMove(ProjectSystem(c, roles), act, s') :: Matched(c, act, s', roles)
  }

  lemma {:induction false} FindStray(c: Global, a: Role, b: Role) returns (d: Global)
    requires a != b && Inv(c, {a, b}) && AllProjectable(c, {a, b}) && !InStep(c.now, a, b)
    ensures Reaches(c, d) && !Follows(d, {a, b})
    decreases Size(c.now)
  {
    SizeDrops(c.now);
    var rest := c.now[1..];
    match c.now[0] {
      case GMsg(p, q, t) =>
        var c' := Global(c.env, rest);
        StepSimulated(c, Exchange(p, q, t), c', {a, b});
        d := FindStray(c', a, b);
        ReachesAfter(c, Exchange(p, q, t), c', d);
      case GChoice(e, bs) =>
        var o := Other(e, a, b);
        AllInStepPointwise(bs, rest, a, b);
        if !InvolvedInAny(bs, o) && !Waits(P(c.now, o), bs) {
          var act, s';
          if P(c.now, o).LBranch? {
            act, s' := StrayListener(c, a, b);
          } else {
            act, s' := StrayAhead(c, a, b);
          }
          ReachesSelf(c);
          d := c;
        } else {
          var i :| 0 <= i < |bs| && !InStep(bs[i].body + rest, a, b);
          SizeAppend(bs[i].body, rest);
          BranchSize(bs, i);
          var c' := Global(c.env, bs[i].body + rest);
          StepSimulated(c, Select(e, bs[i].name), c', {a, b});
          d := FindStray(c', a, b);
          ReachesAfter(c, Select(e, bs[i].name), c', d);
        }
      case GLoop(l, body) =>
        assert body + rest == body;
        StepSimulated(c, Enter(l), Entered(c), {a, b});
        d := FindStray(Entered(c), a, b);
        ReachesAfter(c, Enter(l), Entered(c), d);
    }
  }

  /** What a run keeps. */
  lemma {:induction false} RunInStep(cs: seq<Global>, acts: seq<Action>, a: Role, b: Role, n: nat)
    requires GlobalRun(cs, acts) && n <= |acts|
    requires Inv(cs[0], {a, b}) && AllProjectable(cs[0], {a, b}) && ConfigInStep(cs[0], a, b)
    ensures Inv(cs[n], {a, b}) && AllProjectable(cs[n], {a, b}) && ConfigInStep(cs[n], a, b)
  {
    if n > 0 {
      RunInStep(cs, acts, a, b, n - 1);
      assert GlobalStep(cs[n - 1], acts[n - 1], cs[n]);
      StepSimulated(cs[n - 1], acts[n - 1], cs[n], {a, b});
      InStepKept(cs[n - 1], acts[n - 1], cs[n], a, b);
    }
  }

  /** The converse of the simulation, exactly: of a closed two-role protocol, every move the
    * projections make by themselves, wherever a run has got to, is a step of the protocol
    * if and only if at every choice the other role is told or waits. */
  lemma FollowsIffInStep(g: Protocol, a: Role, b: Role)
    requires a != b && Closed(g, {a, b}) && Projectable(g, a) && Projectable(g, b)
    ensures InStep(g, a, b) <==> forall d | Reaches(Global(GTop, g), d) :: Follows(d, {a, b})
  {
    var c := Global(GTop, g);
    if InStep(g, a, b) {
      forall d | Reaches(c, d)
        ensures Follows(d, {a, b})
      {
        var cs, acts :| GlobalRun(cs, acts) && cs[0] == c && cs[|acts|] == d;
        RunInStep(cs, acts, a, b, |acts|);
        forall act, s' | SystemMove(ProjectSystem(d, {a, b}), act, s')
          ensures Matched(d, act, s', {a, b})
        {
          InStepMatched(d, act, s', a, b);
        }
      }
    } else {
      var d := FindStray(c, a, b);
    }
  }

  /** The condition for duality is enough. */
  lemma {:induction false} AlwaysToldInStep(g: Protocol, a: Role, b: Role)
    requires AlwaysTold(g, a, b)
    ensures InStep(g, a, b)
    decreases Size(g)
  {
    if g != [] {
      SizeDrops(g);
      match g[0]
      case GMsg(_, _, _) => AlwaysToldInStep(g[1..], a, b);
      case GChoice(_, bs) =>
        AllAlwaysToldPointwise(bs, g[1..], a, b);
        forall i | 0 <= i < |bs|
          ensures InStep(bs[i].body + g[1..], a, b)
        {
          SizeAppend(bs[i].body, g[1..]);
          BranchSize(bs, i);
          AlwaysToldInStep(bs[i].body + g[1..], a, b);
        }
        AllInStepPointwise(bs, g[1..], a, b);
      case GLoop(_, body) => AlwaysToldInStep(body, a, b);
      case GContinue(_) =>
    }
  }

  // ----- whole runs of the system -----

  ghost predicate SystemRun(ss: seq<System>, acts: seq<Action>) {
    |ss| == |acts| + 1 && forall i | 0 <= i < |acts| :: SystemMove(ss[i], acts[i], ss[i + 1])
  }

  lemma {:induction false} SettledReached(c: Global, d: Global, roles: set<Role>)
    requires Reaches(c, d) && Inv(d, roles) && AllProjectable(d, roles)
    ensures Reaches(c, Settled(d))
    decreases Size(d.now)
  {
    if Silent(d) {
      EnterSilently(d, roles);
      ReachesThen(c, d, Enter(d.now[0].name), Entered(d));
      SettledReached(c, Entered(d), roles);
    }
  }

  /** Two roles in step, left to themselves, are at every point of every run of theirs on the
    * projections of a configuration the protocol reaches. */
  lemma {:induction false} SystemRunFollows(g: Protocol, a: Role, b: Role, ss: seq<System>, acts: seq<Action>, n: nat)
    returns (d: Global)
    requires a != b && Closed(g, {a, b}) && Projectable(g, a) && Projectable(g, b) && InStep(g, a, b)
    requires SystemRun(ss, acts) && ss[0] == ProjectSystem(Global(GTop, g), {a, b}) && n <= |acts|
    ensures Reaches(Global(GTop, g), d) && Inv(d, {a, b}) && AllProjectable(d, {a, b}) && ConfigInStep(d, a, b)
    ensures ss[n] == ProjectSystem(d, {a, b})
  {
    var c := Global(GTop, g);
    if n == 0 {
      ReachesSelf(c);
      d := c;
    } else {
      var e := SystemRunFollows(g, a, b, ss, acts, n - 1);
      assert SystemMove(ss[n - 1], acts[n - 1], ss[n]);
      InStepMatched(e, acts[n - 1], ss[n], a, b);
      SettledIs(e, {a, b});
      SettledInStep(e, a, b);
      SettledReached(c, e, {a, b});
      d :| GlobalStep(Settled(e), acts[n - 1], d) && AllProjectable(d, {a, b}) && ss[n] == ProjectSystem(d, {a, b});
      ReachesThen(c, Settled(e), acts[n - 1], d);
      InvStep(Settled(e), acts[n - 1], d, {a, b});
      InStepKept(Settled(e), acts[n - 1], d, a, b);
    }
  }

  /** Nor do they get stuck: all is over for both, or they can move on. */
  lemma SystemRunProgress(g: Protocol, a: Role, b: Role, ss: seq<System>, acts: seq<Action>, n: nat)
    requires a != b && Closed(g, {a, b}) && Projectable(g, a) && Projectable(g, b) && InStep(g, a, b)
    requires SystemRun(ss, acts) && ss[0] == ProjectSystem(Global(GTop, g), {a, b}) && n <= |acts|
    ensures ss[n].Keys == {a, b}
    ensures (ss[n][a].ty == ss[n][b].ty == LClose) || exists act, s' :: SystemMove(ss[n], act, s')
  {
    var e := SystemRunFollows(g, a, b, ss, acts, n);
    SettledIs(e, {a, b});
    SettledInStep(e, a, b);
    var d := Settled(e);
    if d.now == [] {
      WhereTheyStand(d, a, {a, b});
      WhereTheyStand(d, b, {a, b});
      assert ss[n][a] == ProjectConfig(d, a) && ss[n][b] == ProjectConfig(d, b);
    } else {
      var act, d' := GlobalProgress(d, {a, b});
      StepSimulated(d, act, d', {a, b});
      HeardAtHead(d, act, a, b);
      assert SystemMove(ss[n], act, ProjectSystem(d', {a, b}));
    }
  }
}
