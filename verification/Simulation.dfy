/** Runs of a global protocol and of its projections, and the forward
  * simulation between them. */
module Simulation {
  import opened Wrappers
  import opened LocalTypes
  import opened Projection

  // ----- runs of the global protocol -----

  /** The loops entered and not left, innermost first; `resume` is what a
    * `continue` at `name` goes on with. */
  datatype GlobalEnv = GTop | GBind(name: Label, resume: Protocol, outer: GlobalEnv)

  datatype Global = Global(env: GlobalEnv, now: Protocol)

  datatype Action =
    | Exchange(fromRole: Role, toRole: Role, msgType: string)
    | Select(decidingRole: Role, name: Label)
    | Enter(name: Label)
    | Jump(name: Label)

  /** The environment from the innermost binder of `l` outwards. */
  ghost function FindLoop(env: GlobalEnv, l: Label): GlobalEnv {
    match env
    case GTop => GTop
    case GBind(name, _, outer) => if name == l then env else FindLoop(outer, l)
  }

  ghost predicate GlobalStep(c: Global, a: Action, c': Global) {
    c.now != [] &&
    var rest := c.now[1..];
    match c.now[0]
    case GMsg(p, q, t) => a == Exchange(p, q, t) && c' == Global(c.env, rest)
    case GChoice(d, bs) =>
      exists i | 0 <= i < |bs| :: a == Select(d, bs[i].name) && c' == Global(c.env, bs[i].body + rest)
    case GLoop(l, body) =>
      a == Enter(l) && c' == Global(GBind(l, body + rest, c.env), body + rest)
    case GContinue(l) =>
      var env := FindLoop(c.env, l);
      a == Jump(l) && env.GBind? && c' == Global(env, env.resume)
  }

  // ----- runs of a system of local types -----

  datatype LocalEnv = LTop | LBind(name: Label, body: LocalType, outer: LocalEnv)

  datatype Local = Local(env: LocalEnv, ty: LocalType)

  type System = map<Role, Local>

  ghost function FindRec(env: LocalEnv, l: Label): LocalEnv {
    match env
    case LTop => LTop
    case LBind(name, _, outer) => if name == l then env else FindRec(outer, l)
  }

  /** The first of the branches called `l` continues as `t`. */
  ghost predicate TakesBranch(bs: seq<LocalBranch>, l: Label, t: LocalType) {
    exists i | 0 <= i < |bs| :: bs[i].name == l && bs[i].ty == t && forall j | 0 <= j < i :: bs[j].name != l
  }

  /** What one role does in a step `a` of the system whose other participants are
    * `others`: the ones told of a selection, or the ones that unfold a `Rec` or a
    * `RecVar`. A role that takes no part does not move. */
  ghost predicate LocalStep(role: Role, s: Local, a: Action, others: set<Role>, s': Local) {
    match a
    case Exchange(p, q, t) =>
      if role == p then s.ty.LSend? && s.ty.msgType == t && s' == Local(s.env, s.ty.cont)
      else if role == q then s.ty.LRecv? && s.ty.msgType == t && s' == Local(s.env, s.ty.cont)
      else s' == s
    case Select(d, l) =>
      if role == d then s.ty.LChoose? && TakesBranch(s.ty.branches, l, s'.ty) && s'.env == s.env
      else if role in others then s.ty.LBranch? && TakesBranch(s.ty.branches, l, s'.ty) && s'.env == s.env
      else s' == s
    case Enter(l) =>
      if role in others then s.ty.LRec? && s.ty.name == l && s' == Local(LBind(l, s.ty.body, s.env), s.ty.body)
      else s' == s
    case Jump(l) =>
      if role in others then
        var env := FindRec(s.env, l);
        s.ty == LRecVar(l) && env.LBind? && s' == Local(env, env.body)
      else s' == s
  }

  /** The roles an action names. */
  ghost function Named(a: Action): set<Role> {
    match a
    case Exchange(p, q, _) => {p, q}
    case Select(d, _) => {d}
    case _ => {}
  }

  /** A step labelled with all that take part in it. Which roles those are is for the
    * protocol to say (`Participants`), or for the roles themselves (`SystemMove`). */
  ghost predicate SystemStep(s: System, a: Action, others: set<Role>, s': System) {
    && Named(a) <= s.Keys == s'.Keys && others <= s.Keys
    && (a.Exchange? ==> a.fromRole != a.toRole)
    && forall role | role in s :: LocalStep(role, s[role], a, others, s'[role])
  }

  /** The roles that hear of an action, told from their own types alone: a selection is
    * heard by whoever stands at a `Branch` over the labels it was made from, and whoever
    * stands at a `Rec` or a `RecVar` unfolds it. */
  ghost function Heard(s: System, a: Action): set<Role> {
    match a
    case Exchange(_, _, _) => {}
    case Select(d, _) =>
      set role | role in s && role != d && d in s && s[d].ty.LChoose? && s[role].ty.LBranch?
                 && Labels(s[role].ty.branches) == Labels(s[d].ty.branches)
    case Enter(l) => set role | role in s && s[role].ty.LRec? && s[role].ty.name == l
    case Jump(l) => set role | role in s && s[role].ty == LRecVar(l)
  }

  /** A move of the roles by themselves: everyone who hears of it takes part, and an
    * unfolding has someone who does. No global protocol is consulted. */
  ghost predicate SystemMove(s: System, a: Action, s': System) {
    SystemStep(s, a, Heard(s, a), s') && (a.Enter? || a.Jump? ==> Heard(s, a) != {})
  }

  // ----- the projection of a configuration -----

  ghost predicate EnvProjectable(env: GlobalEnv, role: Role) {
    env.GBind? ==> Projectable(env.resume, role) && EnvProjectable(env.outer, role)
  }

  ghost predicate ConfigProjectable(c: Global, role: Role) {
    Projectable(c.now, role) && EnvProjectable(c.env, role)
  }

  /** A loop leaves a binder in a role's environment exactly when it left a `Rec` in its type. */
  ghost function ProjectEnv(env: GlobalEnv, role: Role): LocalEnv
    requires EnvProjectable(env, role)
  {
    match env
    case GTop => LTop
    case GBind(l, body, outer) =>
      var t := P(body, role);
      if HasRecVar(t, l) then LBind(l, t, ProjectEnv(outer, role)) else ProjectEnv(outer, role)
  }

  ghost function ProjectConfig(c: Global, role: Role): Local
    requires ConfigProjectable(c, role)
  {
    Local(ProjectEnv(c.env, role), P(c.now, role))
  }

  ghost function ProjectSystem(c: Global, roles: set<Role>): System
    requires AllProjectable(c, roles)
  {
    map role | role in roles :: ProjectConfig(c, role)
  }

  /** The roles that take part in the next step besides those its action names:
    * for a choice, the ones involved at the top level of some branch; for a loop
    * or a continue, every role if the loop is continued at and none if not. */
  ghost function Participants(c: Global, roles: set<Role>): set<Role>
    requires c.now != []
  {
    match c.now[0]
    case GMsg(_, _, _) => {}
    case GChoice(d, bs) => set role | role in roles && role != d && InvolvedInAny(bs, role)
    case GLoop(l, body) => if l in FreeContinues(body + c.now[1..]) then roles else {}
    case GContinue(_) => roles
  }

  // ----- the invariant of a run -----

  /** The labels whose innermost loop is continued at. */
  ghost function Scope(env: GlobalEnv): set<Label> {
    match env
    case GTop => {}
    case GBind(l, body, outer) => if l in FreeContinues(body) then Scope(outer) + {l} else Scope(outer) - {l}
  }

  ghost predicate EnvInv(env: GlobalEnv, roles: set<Role>) {
    env.GBind? ==>
      && WellFormed(env.resume)
      && CastIn(env.resume, roles)
      && FreeContinues(env.resume) - {env.name} <= Scope(env.outer)
      && EnvInv(env.outer, roles)
  }

  /** Every loop body is well formed, every `continue` ahead has its loop open, and
    * no role outside `roles` is named. */
  ghost predicate Inv(c: Global, roles: set<Role>) {
    && WellFormed(c.now)
    && CastIn(c.now, roles)
    && FreeContinues(c.now) <= Scope(c.env)
    && EnvInv(c.env, roles)
  }

  /** A protocol that stands alone: well formed, among `roles`, with no `continue`
    * outside its loop. */
  ghost predicate Closed(g: Protocol, roles: set<Role>) {
    WellFormed(g) && CastIn(g, roles) && FreeContinues(g) == {}
  }

  /** Every role projects. */
  ghost predicate AllProjectable(c: Global, roles: set<Role>) {
    forall role | role in roles :: ConfigProjectable(c, role)
  }

  // ----- one step -----

  lemma {:induction false} FindInScope(env: GlobalEnv, l: Label, roles: set<Role>)
    requires EnvInv(env, roles) && l in Scope(env)
    ensures var e := FindLoop(env, l);
            && e.GBind? && e.name == l && l in FreeContinues(e.resume) && EnvInv(e, roles)
            && FreeContinues(e.resume) <= Scope(e)
  {
    if env.name != l { FindInScope(env.outer, l, roles); }
  }

  /** A role's environment resolves a continued label to the projection of the
    * loop the global environment resolves it to: skipping the loops that left no
    * `Rec` loses nothing. */
  lemma {:induction false} FindCommutes(env: GlobalEnv, l: Label, role: Role, roles: set<Role>)
    requires EnvInv(env, roles) && l in Scope(env) && EnvProjectable(env, role)
    ensures var e := FindLoop(env, l);
            && e.GBind? && EnvProjectable(e, role)
            && FindRec(ProjectEnv(env, role), l) == ProjectEnv(e, role)
            && ProjectEnv(e, role).LBind? && ProjectEnv(e, role).body == P(e.resume, role)
  {
    FreeVarsOfProjection(env.resume, role);
    HasRecVarIsFreeVars(P(env.resume, role), env.name);
    if env.name != l { FindCommutes(env.outer, l, role, roles); }
  }

  /** The invariant survives a step. */
  lemma InvStep(c: Global, a: Action, c': Global, roles: set<Role>)
    requires Inv(c, roles) && GlobalStep(c, a, c')
    ensures Inv(c', roles)
  {
    var rest := c.now[1..];
    match c.now[0]
    case GMsg(_, _, _) =>
    case GChoice(d, bs) =>
      var i :| 0 <= i < |bs| && a == Select(d, bs[i].name) && c' == Global(c.env, bs[i].body + rest);
      BranchWellFormed(bs, rest, i);
      BranchFreeContinues(bs, rest, i);
      BranchCastIn(bs, rest, roles, i);
    case GLoop(l, body) =>
      assert body + rest == body;
    case GContinue(l) => FindInScope(c.env, l, roles);
  }

  lemma ProjectableStep(c: Global, a: Action, c': Global, role: Role, roles: set<Role>)
    requires Inv(c, roles) && GlobalStep(c, a, c') && ConfigProjectable(c, role)
    ensures ConfigProjectable(c', role)
  {
    var rest := c.now[1..];
    match c.now[0]
    case GMsg(_, _, _) =>
    case GChoice(_, _) => ProjectChoice(c.now, role);
    case GLoop(_, body) => assert body + rest == body;
    case GContinue(l) => FindCommutes(c.env, l, role, roles);
  }

  /** Forward simulation, one role: its part in the step takes it exactly to its
    * projection of the successor. */
  lemma RoleFollows(c: Global, a: Action, c': Global, roles: set<Role>, role: Role)
    requires Inv(c, roles) && GlobalStep(c, a, c') && ConfigProjectable(c, role) && role in roles
    requires ConfigProjectable(c', role)
    ensures LocalStep(role, ProjectConfig(c, role), a, Participants(c, roles), ProjectConfig(c', role))
  {
    var rest := c.now[1..];
    match c.now[0]
    case GMsg(_, _, _) =>
    case GChoice(d, bs) =>
      var i :| 0 <= i < |bs| && a == Select(d, bs[i].name) && c' == Global(c.env, bs[i].body + rest);
      ProjectChoice(c.now, role);
      if role == d || InvolvedInAny(bs, role) {
        var ts := P(c.now, role).branches;
        assert ts[i].name == bs[i].name && ts[i].ty == P(c'.now, role);
        assert TakesBranch(ts, bs[i].name, P(c'.now, role));
      }
    case GLoop(l, body) =>
      assert body + rest == body && [c.now[0]] == c.now;
      RecIffContinued(l, body, role);
      FreeVarsOfProjection(body, role);
      HasRecVarIsFreeVars(P(body, role), l);
    case GContinue(l) => FindCommutes(c.env, l, role, roles);
  }

  /** Forward simulation, the whole system: every step of the global protocol is a
    * step of the projected roles, and lands on the projections of the successor. */
  lemma StepSimulated(c: Global, a: Action, c': Global, roles: set<Role>)
    requires Inv(c, roles) && GlobalStep(c, a, c')
    requires AllProjectable(c, roles)
    ensures Inv(c', roles) && AllProjectable(c', roles)
    ensures SystemStep(ProjectSystem(c, roles), a, Participants(c, roles), ProjectSystem(c', roles))
  {
    InvStep(c, a, c', roles);
    forall role | role in roles
      ensures ConfigProjectable(c', role)
    {
      ProjectableStep(c, a, c', role, roles);
    }
    forall role | role in roles
      ensures LocalStep(role, ProjectConfig(c, role), a, Participants(c, roles), ProjectConfig(c', role))
    {
      RoleFollows(c, a, c', roles, role);
    }
  }

  // ----- whole runs -----

  ghost predicate GlobalRun(cs: seq<Global>, acts: seq<Action>) {
    |cs| == |acts| + 1 && forall i | 0 <= i < |acts| :: GlobalStep(cs[i], acts[i], cs[i + 1])
  }

  /** Along every run of a closed protocol that projects onto every role of `roles`,
    * the system of projections takes the same actions and stays, at every point,
    * exactly the projections of the global configuration. */
  lemma {:induction false} RunSimulated(g: Protocol, cs: seq<Global>, acts: seq<Action>, roles: set<Role>, n: nat)
    requires Closed(g, roles) && GlobalRun(cs, acts) && cs[0] == Global(GTop, g)
    requires forall role | role in roles :: Projectable(g, role)
    requires n <= |acts|
    ensures Inv(cs[n], roles) && AllProjectable(cs[n], roles)
    ensures n > 0 ==>
              && AllProjectable(cs[n - 1], roles)
              && cs[n - 1].now != []
              && SystemStep(ProjectSystem(cs[n - 1], roles), acts[n - 1], Participants(cs[n - 1], roles),
                            ProjectSystem(cs[n], roles))
  {
    if n > 0 {
      RunSimulated(g, cs, acts, roles, n - 1);
      assert GlobalStep(cs[n - 1], acts[n - 1], cs[n]);
      StepSimulated(cs[n - 1], acts[n - 1], cs[n], roles);
    }
  }

  /** A configuration of a run has nothing left to do or can step: every `continue`
    * finds its loop, every choice a branch. */
  lemma GlobalProgress(c: Global, roles: set<Role>) returns (a: Action, c': Global)
    requires Inv(c, roles) && c.now != []
    ensures GlobalStep(c, a, c')
  {
    var rest := c.now[1..];
    match c.now[0]
    case GMsg(p, q, t) => a, c' := Exchange(p, q, t), Global(c.env, rest);
    case GChoice(d, bs) =>
      a, c' := Select(d, bs[0].name), Global(c.env, bs[0].body + rest);
    case GLoop(l, body) => a, c' := Enter(l), Global(GBind(l, body + rest, c.env), body + rest);
    case GContinue(l) =>
      FindInScope(c.env, l, roles);
      a, c' := Jump(l), Global(FindLoop(c.env, l), FindLoop(c.env, l).resume);
  }

  /** A role never stands at a `RecVar` whose `Rec` it did not enter. */
  ghost predicate Bound(s: Local) {
    s.ty.LRecVar? ==> FindRec(s.env, s.ty.name).LBind?
  }

  /** Never stuck: wherever a run of the protocol has got to, either the protocol
    * is over and every role's type is `Close`, or the projected system can follow
    * some further step of it; and every `RecVar` a role stands at is bound. */
  lemma NeverStuck(g: Protocol, cs: seq<Global>, acts: seq<Action>, roles: set<Role>, n: nat)
    requires Closed(g, roles) && GlobalRun(cs, acts) && cs[0] == Global(GTop, g)
    requires forall role | role in roles :: Projectable(g, role)
    requires n <= |acts|
    ensures AllProjectable(cs[n], roles)
    ensures forall role | role in roles :: Bound(ProjectConfig(cs[n], role))
    ensures
      if cs[n].now == [] then
        forall role | role in roles :: ProjectConfig(cs[n], role).ty == LClose
      else
        exists a, c' ::
          && GlobalStep(cs[n], a, c')
          && AllProjectable(c', roles)
          && SystemStep(ProjectSystem(cs[n], roles), a, Participants(cs[n], roles), ProjectSystem(c', roles))
  {
    RunSimulated(g, cs, acts, roles, n);
    var c := cs[n];
    forall role | role in roles
      ensures Bound(ProjectConfig(c, role))
    {
      var t := P(c.now, role);
      FreeVarsOfProjection(c.now, role);
      if t.LRecVar? { FindCommutes(c.env, t.name, role, roles); }
    }
    if c.now != [] {
      var a, c' := GlobalProgress(c, roles);
      StepSimulated(c, a, c', roles);
    }
  }

  lemma LocalStepDeterministic(role: Role, s: Local, a: Action, others: set<Role>, s1: Local, s2: Local)
    requires LocalStep(role, s, a, others, s1) && LocalStep(role, s, a, others, s2)
    ensures s1 == s2
  {
    if a.Select? && (role == a.decidingRole || role in others) {
      var bs := s.ty.branches;
      var i :| 0 <= i < |bs| && bs[i].name == a.name && bs[i].ty == s1.ty
               && forall j | 0 <= j < i :: bs[j].name != a.name;
      var k :| 0 <= k < |bs| && bs[k].name == a.name && bs[k].ty == s2.ty
               && forall j | 0 <= j < k :: bs[j].name != a.name;
      assert !(i < k) && !(k < i);
    }
  }

  // ----- the edges of the projection -----

  /** The documented limit on loops is needed: what follows a loop is lost. The
    * protocol below has a run that reaches C's message, and C's type is `Close`. */
  lemma LoopMustBeLast() returns (g: Protocol, c: Global)
    ensures !WellFormed(g) && Projectable(g, "C") && P(g, "C") == LClose
    ensures GlobalRun([Global(GTop, g), c], [Enter("l")])
    ensures exists c' :: GlobalStep(c, Exchange("C", "D", "T"), c')
  {
    g := [GLoop("l", []), GMsg("C", "D", "T")];
    c := Global(GBind("l", g[1..], GTop), g[1..]);
    assert [] + g[1..] == g[1..];
    assert GlobalStep(Global(GTop, g), Enter("l"), c);
    assert GlobalStep(c, Exchange("C", "D", "T"), Global(c.env, c.now[1..]));
  }

  /** A role that does nothing in a loop still gets a `Rec` when the loop is continued
    * at: its projection is the type that only unfolds. */
  lemma IdleRoleGetsRec(l: Label, p: Role, q: Role, t: string, role: Role)
    requires p != q && role != p && role != q
    ensures Project([GLoop(l, [GMsg(p, q, t), GContinue(l)])], role) == Ok(LRec(l, LRecVar(l)))
  {
    var body := [GMsg(p, q, t), GContinue(l)];
    assert body[1..] == [GContinue(l)];
    assert Project(body, role) == Project(body[1..], role) == Ok(LRecVar(l));
  }
}
