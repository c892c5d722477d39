/** The JIT's lazy generation: the generation lock, the switch to eager at the first
  * thread start, the fork handlers, and the life of the lazy context
  * (src/jit_engine.c, lines 459-562, 1010-1021 and 1058-1114). One process of one
  * engine run is a state machine over the steps of its threads; every step is one
  * access to shared state. */
module LazyGeneration {
  import opened Wrappers

  type Tid = nat

  const ENTRY: Tid := 0

  /** Where a program thread is. */
  datatype Pc =
    | Running
    | Exited
    // jit_lazy_gen_locked
    | LazyWait(f: nat)
    | LazyCheck(f: nat)
    | LazyGen(f: nat)
    | LazyPatch(f: nat)
    | LazyDone(f: nat)
    // jit_pthread_create and jit_generate_rest
    | Swap
    | RestWait
    | RestAt(i: nat)
    | RestGen(i: nat)
    | RestPatch(i: nat)
    | Spawn
    // fork, between its handlers
    | ForkWait
    | ForkHeld
    | ForkRelease

  /** What the threads share. */
  datatype Shared = Shared(
    code: set<nat>,        // functions whose machine code is set
    patched: set<nat>,     // functions whose thunk was rewritten to the code
    gens: seq<nat>,        // how often each was generated
    lock: Option<Tid>,     // holder of the generation lock
    lazyCtx: bool)         // the lazy-context global names this context

  /** Where the engine is: linked, ready (the lazy context stored), running the entry
    * thread, joined (or never started), past forgetting the context, torn down. A
    * forked child has no engine thread. */
  datatype Host = Linked | Ready | Started | Joined | Forgotten | TornDown | Absent

  datatype Process = Process(
    isFunc: seq<bool>,     // the items of the context's modules, in order: functions or not
    sh: Shared,
    torn: bool,            // the context is torn down
    threads: map<Tid, Pc>, // every program thread started so far
    host: Host,
    bypassed: bool)        // a thread was started otherwise than through the shim

  ghost predicate FuncAt(isFunc: seq<bool>, f: nat) { f < |isFunc| && isFunc[f] }

  // ----- the steps of one thread inside the engine -----

  ghost predicate CanStep(isFunc: seq<bool>, sh: Shared, pc: Pc) {
    match pc
    case LazyWait(_) => sh.lock.None?
    case LazyCheck(_) => true
    case LazyGen(f) => f < |sh.gens|
    case LazyPatch(_) => true
    case LazyDone(_) => true
    case Swap => true
    case RestWait => sh.lock.None?
    case RestAt(_) => true
    case RestGen(i) => i < |sh.gens|
    case RestPatch(_) => true
    case ForkWait => sh.lock.None?
    case ForkHeld => true
    case ForkRelease => true
    case _ => false
  }

  /** A generator run fills in the machine code of `f`. */
  ghost function Generate(sh: Shared, f: nat): Shared
    requires f < |sh.gens|
  {
    sh.(code := sh.code + {f}, gens := sh.gens[f := sh.gens[f] + 1])
  }

  ghost function Step(isFunc: seq<bool>, sh: Shared, t: Tid, pc: Pc): (Shared, Pc)
    requires CanStep(isFunc, sh, pc)
  {
    match pc
    // lock; read the code; if it is NULL generate it, then rewrite the thunk; unlock
    case LazyWait(f) => (sh.(lock := Some(t)), LazyCheck(f))
    case LazyCheck(f) => (sh, if f in sh.code then LazyDone(f) else LazyGen(f))
    case LazyGen(f) => (Generate(sh, f), LazyPatch(f))
    case LazyPatch(f) => (sh.(patched := sh.patched + {f}), LazyDone(f))
    case LazyDone(_) => (sh.(lock := None), Running)
    // exchange the lazy context for NULL; if it was set, generate the rest under the lock
    case Swap => (sh.(lazyCtx := false), if sh.lazyCtx then RestWait else Spawn)
    case RestWait => (sh.(lock := Some(t)), RestAt(0))
    case RestAt(i) =>
      if i >= |isFunc| then (sh.(lock := None), Spawn)
      else (sh, if isFunc[i] && i !in sh.code then RestGen(i) else RestAt(i + 1))
    case RestGen(i) => (Generate(sh, i), RestPatch(i))
    case RestPatch(i) => (sh.(patched := sh.patched + {i}), RestAt(i + 1))
    // lock before the fork, unlock after it
    case ForkWait => (sh.(lock := Some(t)), ForkHeld)
    case ForkHeld => (sh, ForkRelease)
    case ForkRelease => (sh.(lock := None), Running)
    case _ => (sh, pc)
  }

  // ----- the steps of a process -----

  datatype Event =
    | Link(lazy: bool) | StartEntry | GiveUp | Join | Forget | TearDown
    | Call(t: Tid, f: nat) | CreateThread(t: Tid) | Fork(t: Tid) | Exit(t: Tid)
    | Inside(t: Tid)
    | NewThread(t: Tid, child: Tid) | FailThread(t: Tid)
    | ForeignThread(child: Tid)

  ghost predicate At(s: Process, t: Tid, pc: Pc) { t in s.threads && s.threads[t] == pc }

  ghost function Moved(s: Process, t: Tid, pc: Pc): Process { s.(threads := s.threads[t := pc]) }

  ghost predicate Enabled(s: Process, e: Event) {
    match e
    case Link(_) => s.host == Linked
    case StartEntry => s.host == Ready
    case GiveUp => s.host == Ready
    case Join => s.host == Started && At(s, ENTRY, Exited)
    case Forget => s.host == Joined
    case TearDown => s.host == Forgotten
    case Call(t, f) => At(s, t, Running) && FuncAt(s.isFunc, f) && f !in s.sh.patched
    case CreateThread(t) => At(s, t, Running)
    case Fork(t) => At(s, t, Running)
    case Exit(t) => At(s, t, Running)
    case Inside(t) => t in s.threads && CanStep(s.isFunc, s.sh, s.threads[t])
    case NewThread(t, child) => At(s, t, Spawn) && child !in s.threads && child != ENTRY
    case FailThread(t) => At(s, t, Spawn)
    case ForeignThread(child) => child !in s.threads && child != ENTRY && s.host != Linked
  }

  ghost function All(isFunc: seq<bool>): set<nat> { set f | 0 <= f < |isFunc| && isFunc[f] }

  ghost function Once(isFunc: seq<bool>): (gens: seq<nat>)
    ensures |gens| == |isFunc| && forall f | 0 <= f < |gens| :: gens[f] == if isFunc[f] then 1 else 0
  {
    seq(|isFunc|, f requires 0 <= f < |isFunc| => if isFunc[f] then 1 else 0)
  }

  ghost function Next(s: Process, e: Event): Process
    requires Enabled(s, e)
  {
    match e
    // lazy linking stores the context; eager linking generates every function
    case Link(lazy) =>
      s.(host := Ready,
         sh := if lazy then s.sh.(lazyCtx := true)
               else s.sh.(code := All(s.isFunc), patched := All(s.isFunc), gens := Once(s.isFunc)))
    case StartEntry => Moved(s, ENTRY, Running).(host := Started)
    // no main, or the entry thread could not be created
    case GiveUp => s.(host := Joined)
    case Join => s.(host := Joined)
    case Forget => s.(host := Forgotten, sh := s.sh.(lazyCtx := false))
    case TearDown => s.(host := TornDown, torn := true)
    // a first call enters through the stub the thunk still holds
    case Call(t, f) => Moved(s, t, LazyWait(f))
    case CreateThread(t) => Moved(s, t, Swap)
    case Fork(t) => Moved(s, t, ForkWait)
    case Exit(t) => Moved(s, t, Exited)
    case Inside(t) =>
      var (sh, pc) := Step(s.isFunc, s.sh, t, s.threads[t]);
      Moved(s, t, pc).(sh := sh)
    case NewThread(t, child) => Moved(Moved(s, t, Running), child, Running)
    case FailThread(t) => Moved(s, t, Running)
    case ForeignThread(child) => Moved(s, child, Running).(bypassed := true)
  }

  /** The child of a fork by `t`: a copy of the memory in which only `t` runs on, past
    * the prepare handler. */
  ghost function Child(s: Process, t: Tid): Process {
    s.(threads := map[t := ForkRelease], host := Absent)
  }

  ghost predicate Initial(s: Process) {
    s == Process(s.isFunc, Shared({}, {}, seq(|s.isFunc|, _ => 0), None, false), false, map[], Linked, false)
  }

  // ----- the invariant of the lock -----

  ghost predicate Holds(pc: Pc) {
    pc.LazyCheck? || pc.LazyGen? || pc.LazyPatch? || pc.LazyDone? ||
    pc.RestAt? || pc.RestGen? || pc.RestPatch? || pc.ForkHeld? || pc.ForkRelease?
  }

  /** The thread is between the start and the end of a generator run. */
  ghost predicate Generating(pc: Pc) { pc.LazyGen? || pc.LazyPatch? || pc.RestGen? || pc.RestPatch? }

  /** The thread is rewriting the thunk of `f`. */
  ghost predicate Patching(pc: Pc, f: nat) { pc == LazyPatch(f) || pc == RestPatch(f) }

  /** Every function before `i` has its code. */
  ghost predicate DoneBelow(isFunc: seq<bool>, code: set<nat>, i: nat) {
    forall f: nat | f < i && FuncAt(isFunc, f) :: f in code
  }

  /** What a thread's position says. */
  ghost predicate PcInv(isFunc: seq<bool>, sh: Shared, t: Tid, pc: Pc) {
    && (Holds(pc) <==> sh.lock == Some(t))
    && match pc
       case LazyWait(f) => FuncAt(isFunc, f)
       case LazyCheck(f) => FuncAt(isFunc, f)
       case LazyGen(f) => FuncAt(isFunc, f) && f !in sh.code
       case LazyPatch(f) => FuncAt(isFunc, f) && f in sh.code && f !in sh.patched
       case LazyDone(f) => f in sh.code && f in sh.patched
       case RestAt(i) => DoneBelow(isFunc, sh.code, i)
       case RestGen(i) => FuncAt(isFunc, i) && i !in sh.code && DoneBelow(isFunc, sh.code, i)
       case RestPatch(i) => FuncAt(isFunc, i) && i in sh.code && i !in sh.patched && DoneBelow(isFunc, sh.code, i)
       case _ => true
  }

  /** Each function was generated as often as it has code: never or once. */
  ghost predicate Counts(isFunc: seq<bool>, sh: Shared) {
    && |sh.gens| == |isFunc|
    && (forall f | f in sh.code :: FuncAt(isFunc, f))
    && sh.patched <= sh.code
    && (forall f | 0 <= f < |sh.gens| :: sh.gens[f] == if f in sh.code then 1 else 0)
  }

  /** Only a function `pc` is patching has code and no patched thunk. */
  ghost predicate OnlyHalf(sh: Shared, pc: Pc) {
    forall f | f in sh.code && f !in sh.patched :: Patching(pc, f)
  }

  ghost predicate LockInv(s: Process) {
    && Counts(s.isFunc, s.sh)
    && (forall t | t in s.threads :: PcInv(s.isFunc, s.sh, t, s.threads[t]))
    && (match s.sh.lock
        case None => OnlyHalf(s.sh, Running)
        case Some(t) => t in s.threads && OnlyHalf(s.sh, s.threads[t]))
  }

  /** A step of a thread inside the engine, seen from that thread. */
  lemma StepKeeps(isFunc: seq<bool>, sh: Shared, t: Tid, pc: Pc)
    requires CanStep(isFunc, sh, pc) && Counts(isFunc, sh) && PcInv(isFunc, sh, t, pc)
    requires sh.lock.None? || sh.lock == Some(t) ==> OnlyHalf(sh, pc)
    ensures var (sh', pc') := Step(isFunc, sh, t, pc);
            Counts(isFunc, sh') && PcInv(isFunc, sh', t, pc')
  {
  }

  lemma StepKeepsHalf(isFunc: seq<bool>, sh: Shared, t: Tid, pc: Pc)
    requires CanStep(isFunc, sh, pc) && Counts(isFunc, sh) && PcInv(isFunc, sh, t, pc)
    requires sh.lock.None? || sh.lock == Some(t) ==> OnlyHalf(sh, pc)
    ensures var (sh', pc') := Step(isFunc, sh, t, pc);
            sh.lock.None? || sh.lock == Some(t) ==> OnlyHalf(sh', pc') && (sh'.lock.None? ==> OnlyHalf(sh', Running))
  {
  }

  /** The same step, seen from another thread. */
  lemma StepKeepsOther(isFunc: seq<bool>, sh: Shared, t: Tid, pc: Pc, u: Tid, other: Pc)
    requires CanStep(isFunc, sh, pc) && PcInv(isFunc, sh, t, pc)
    requires t != u && PcInv(isFunc, sh, u, other)
    ensures var (sh', _) := Step(isFunc, sh, t, pc);
            && PcInv(isFunc, sh', u, other)
            && (sh.lock == Some(u) ==> sh'.lock == Some(u) && sh'.code == sh.code && sh'.patched == sh.patched)
  {
  }

  lemma InsideKeepsLock(s: Process, t: Tid)
    requires LockInv(s) && Enabled(s, Inside(t))
    ensures LockInv(Next(s, Inside(t)))
  {
    var (sh, pc) := Step(s.isFunc, s.sh, t, s.threads[t]);
    var s' := Next(s, Inside(t));
    assert PcInv(s.isFunc, s.sh, t, s.threads[t]);
    StepKeeps(s.isFunc, s.sh, t, s.threads[t]);
    StepKeepsHalf(s.isFunc, s.sh, t, s.threads[t]);
    forall u | u in s'.threads
      ensures PcInv(s.isFunc, sh, u, s'.threads[u])
    {
      if u != t { StepKeepsOther(s.isFunc, s.sh, t, s.threads[t], u, s.threads[u]); }
    }
    if s.sh.lock.Some? && s.sh.lock != Some(t) {
      StepKeepsOther(s.isFunc, s.sh, t, s.threads[t], s.sh.lock.value, s.threads[s.sh.lock.value]);
    }
  }

  lemma MoveKeepsLock(s: Process, t: Tid, pc: Pc)
    requires LockInv(s) && !Holds(pc) && PcInv(s.isFunc, s.sh, t, pc)
    ensures LockInv(Moved(s, t, pc))
  {
  }

  /** Steps that only move one thread to another point. */
  ghost predicate IsMove(e: Event) { e.Call? || e.CreateThread? || e.Fork? || e.Exit? || e.FailThread? }

  lemma MovesKeepLock(s: Process, e: Event)
    requires LockInv(s) && ContextInv(s) && Enabled(s, e) && IsMove(e)
    ensures LockInv(Next(s, e))
  {
    match e
    case Call(t, f) => MoveKeepsLock(s, t, LazyWait(f));
    case CreateThread(t) => MoveKeepsLock(s, t, Swap);
    case Fork(t) => MoveKeepsLock(s, t, ForkWait);
    case Exit(t) => MoveKeepsLock(s, t, Exited);
    case FailThread(t) => MoveKeepsLock(s, t, Running);
  }

  lemma StartsKeepLock(s: Process, e: Event)
    requires LockInv(s) && ContextInv(s) && Enabled(s, e) && (e.StartEntry? || e.NewThread? || e.ForeignThread?)
    ensures LockInv(Next(s, e))
  {
    match e
    case StartEntry => MoveKeepsLock(s, ENTRY, Running);
    case NewThread(t, child) =>
      MoveKeepsLock(s, t, Running);
      MoveKeepsLock(Moved(s, t, Running), child, Running);
    case ForeignThread(child) => MoveKeepsLock(s, child, Running);
  }

  lemma NextKeepsLock(s: Process, e: Event)
    requires LockInv(s) && ContextInv(s) && Enabled(s, e)
    ensures LockInv(Next(s, e))
  {
    if e.Inside? {
      InsideKeepsLock(s, e.t);
    } else if IsMove(e) {
      MovesKeepLock(s, e);
    } else if e.StartEntry? || e.NewThread? || e.ForeignThread? {
      StartsKeepLock(s, e);
    } else if e.Forget? {
      assert Next(s, e).sh == s.sh.(lazyCtx := false);
    }
  }

  // ----- the invariant of the lazy context -----

  /** Kept however threads are started: the context is not torn down while it is named,
    * and before the engine has forgotten it. */
  ghost predicate ContextInv(s: Process) {
    && (s.host == Linked ==> s.threads == map[] && s.sh.code == {} && s.sh.lock.None?)
    && (s.host == Ready ==> ENTRY !in s.threads && (s.bypassed || s.threads == map[]))
    && (s.torn || s.host in {Forgotten, TornDown} ==> !s.sh.lazyCtx)
    && (s.host in {Linked, Ready, Started, Joined, Forgotten} ==> !s.torn)
    && (s.host == Started ==> ENTRY in s.threads)
  }

  lemma NextKeepsContext(s: Process, e: Event)
    requires LockInv(s) && ContextInv(s) && Enabled(s, e)
    ensures ContextInv(Next(s, e))
  {
  }

  // ----- the invariant of thread starts -----

  ghost predicate InRest(pc: Pc) { pc.RestWait? || pc.RestAt? || pc.RestGen? || pc.RestPatch? }

  ghost predicate AllGenerated(s: Process) {
    All(s.isFunc) <= s.sh.code && All(s.isFunc) <= s.sh.patched
  }

  ghost predicate Live(s: Process, t: Tid) { t in s.threads && s.threads[t] != Exited }

  /** At most one thread was ever started, and the context is up while it runs. */
  ghost predicate Lone(s: Process) {
    && (forall t, u | t in s.threads && u in s.threads :: t == u)
    && (forall t | Live(s, t) :: s.host in {Started, Absent} && !s.torn)
  }

  ghost predicate Several(s: Process) { exists t, u :: t in s.threads && u in s.threads && t != u }

  /** The switch to eager is still ahead, or a thread is making it. */
  ghost predicate Early(s: Process) {
    s.sh.lazyCtx || exists t :: t in s.threads && InRest(s.threads[t])
  }

  /** Until the switch is made there is one thread at most; once it is, nothing is left
    * to generate. */
  ghost predicate ThreadInv(s: Process) {
    && (Early(s) ==> Lone(s))
    && (!Early(s) && (s.host == Ready || (exists t :: Live(s, t)) || Several(s)) ==> AllGenerated(s))
    && (forall t | t in s.threads && (InRest(s.threads[t]) || s.threads[t] == Spawn) :: !s.sh.lazyCtx)
  }

  ghost predicate Inv(s: Process) {
    LockInv(s) && ContextInv(s) && (!s.bypassed ==> ThreadInv(s))
  }

  lemma AllGeneratedStays(s: Process, e: Event)
    requires LockInv(s) && ContextInv(s) && Enabled(s, e) && AllGenerated(s)
    ensures AllGenerated(Next(s, e))
  {
  }

  /** `jit_generate_rest` leaves nothing to generate. */
  lemma RestFinishes(s: Process, t: Tid, i: nat)
    requires LockInv(s) && At(s, t, RestAt(i)) && i >= |s.isFunc|
    ensures AllGenerated(s)
  {
    assert PcInv(s.isFunc, s.sh, t, s.threads[t]);
    forall f | f in All(s.isFunc)
      ensures f in s.sh.code && f in s.sh.patched
    {
      assert FuncAt(s.isFunc, f);
    }
  }

  /** A thread past the switch, or one about to start another, has nothing to generate. */
  lemma PastTheSwitch(s: Process, t: Tid)
    requires LockInv(s) && ThreadInv(s) && Live(s, t) && !s.sh.lazyCtx && !InRest(s.threads[t])
    ensures AllGenerated(s) && !Early(s)
  {
    assert Early(s) ==> Lone(s);
  }

  lemma InsideKeepsThreads(s: Process, t: Tid)
    requires Inv(s) && !s.bypassed && Enabled(s, Inside(t))
    ensures ThreadInv(Next(s, Inside(t)))
  {
    var s' := Next(s, Inside(t));
    var pc := s.threads[t];
    assert Live(s, t);
    if AllGenerated(s) { AllGeneratedStays(s, Inside(t)); }
    if pc.RestAt? && pc.i >= |s.isFunc| {
      RestFinishes(s, t, pc.i);
    }
    if !s.sh.lazyCtx && !InRest(pc) {
      PastTheSwitch(s, t);
      assert forall u | u in s'.threads :: !InRest(s'.threads[u]) by {
        forall u | u in s'.threads
          ensures !InRest(s'.threads[u])
        {
          assert u in s.threads && !InRest(s.threads[u]);
        }
      }
    } else {
      assert Early(s) && Lone(s);
      assert s'.threads.Keys == s.threads.Keys;
    }
  }

  lemma MoveKeepsThreads(s: Process, t: Tid, pc: Pc)
    requires LockInv(s) && ThreadInv(s) && Live(s, t) && !InRest(s.threads[t]) && !InRest(pc) && pc != Spawn
    ensures ThreadInv(Moved(s, t, pc))
  {
    var s' := Moved(s, t, pc);
    if Early(s) {
      assert s.sh.lazyCtx;
    } else {
      assert forall u | u in s'.threads && u != t :: !InRest(s.threads[u]);
      assert !Early(s');
    }
  }

  lemma NewThreadKeepsThreads(s: Process, t: Tid, child: Tid)
    requires Inv(s) && Enabled(s, NewThread(t, child)) && !s.bypassed
    ensures ThreadInv(Next(s, NewThread(t, child)))
  {
    PastTheSwitch(s, t);
    var s' := Next(s, NewThread(t, child));
    assert forall u | u in s'.threads :: u == t || u == child || u in s.threads;
    assert !Early(s');
  }

  lemma MovesKeepThreads(s: Process, e: Event)
    requires Inv(s) && Enabled(s, e) && !s.bypassed && IsMove(e)
    ensures ThreadInv(Next(s, e))
  {
    match e
    case Call(t, f) => MoveKeepsThreads(s, t, LazyWait(f));
    case CreateThread(t) => MoveKeepsThreads(s, t, Swap);
    case Fork(t) => MoveKeepsThreads(s, t, ForkWait);
    case Exit(t) => MoveKeepsThreads(s, t, Exited);
    case FailThread(t) => MoveKeepsThreads(s, t, Running);
  }

  lemma NextKeepsThreads(s: Process, e: Event)
    requires Inv(s) && Enabled(s, e) && !s.bypassed && !e.ForeignThread?
    ensures ThreadInv(Next(s, e))
  {
    match e
    case Inside(t) => InsideKeepsThreads(s, t);
    case NewThread(t, child) => NewThreadKeepsThreads(s, t, child);
    case _ =>
      if IsMove(e) {
        MovesKeepThreads(s, e);
      } else {
        HostKeepsThreads(s, e);
      }
  }

  lemma HostKeepsThreads(s: Process, e: Event)
    requires Inv(s) && Enabled(s, e) && !s.bypassed
    requires e.Link? || e.StartEntry? || e.GiveUp? || e.Join? || e.Forget? || e.TearDown?
    ensures ThreadInv(Next(s, e))
  {
    var s' := Next(s, e);
    if AllGenerated(s) { AllGeneratedStays(s, e); }
    assert forall t | t in s.threads && InRest(s.threads[t]) :: Live(s, t);
    assert forall t | Live(s', t) && !e.StartEntry? :: Live(s, t);
    if e.Join? && Early(s) {
      assert forall t | t in s.threads :: t == ENTRY;
    }
    if e.Forget? && s.sh.lazyCtx {
      assert Lone(s);
    }
  }

  lemma NextKeepsInv(s: Process, e: Event)
    requires Inv(s) && Enabled(s, e)
    ensures Inv(Next(s, e))
  {
    NextKeepsLock(s, e);
    NextKeepsContext(s, e);
    if !Next(s, e).bypassed { NextKeepsThreads(s, e); }
  }

  lemma ChildInv(s: Process, t: Tid)
    requires Inv(s) && At(s, t, ForkHeld)
    ensures Inv(Child(s, t))
  {
    assert PcInv(s.isFunc, s.sh, t, s.threads[t]);
    assert Live(s, t);
  }

  // ----- every run, and every process a run forks -----

  /** How one process state comes from another: by a step, or as the child of a fork. */
  ghost predicate Follows(s: Process, s': Process) {
    (exists e :: Enabled(s, e) && s' == Next(s, e)) || (exists t :: At(s, t, ForkHeld) && s' == Child(s, t))
  }

  /** A line of descent: the states of the first process up to a fork, then those of
    * that child, and so on, in any interleaving. */
  ghost predicate Descent(ss: seq<Process>) {
    ss != [] && Initial(ss[0]) && forall i | 0 <= i < |ss| - 1 :: Follows(ss[i], ss[i + 1])
  }

  lemma {:induction false} EveryStateInv(ss: seq<Process>, n: nat)
    requires Descent(ss) && n < |ss|
    ensures Inv(ss[n])
  {
    if n > 0 {
      EveryStateInv(ss, n - 1);
      var s, s' := ss[n - 1], ss[n];
      assert Follows(s, s');
      if e :| Enabled(s, e) && s' == Next(s, e) {
        NextKeepsInv(s, e);
      } else {
        var t :| At(s, t, ForkHeld) && s' == Child(s, t);
        ChildInv(s, t);
      }
    }
  }

  // ----- no thread is left waiting -----

  /** How many more steps a thread that holds the lock takes before it lets go. */
  ghost function Work(isFunc: seq<bool>, pc: Pc): int {
    match pc
    case LazyCheck(_) => 4
    case LazyGen(_) => 3
    case LazyPatch(_) => 2
    case LazyDone(_) => 1
    case RestAt(i) => if i >= |isFunc| then 1 else 3 * (|isFunc| - i) + 1
    case RestGen(i) => 3 * (|isFunc| - i)
    case RestPatch(i) => 3 * (|isFunc| - i) - 1
    case ForkHeld => 2
    case ForkRelease => 1
    case _ => 0
  }

  /** Whoever holds the lock can go on, and with each step lets go of it or comes nearer. */
  lemma HolderGoesOn(s: Process, t: Tid)
    requires LockInv(s) && s.sh.lock == Some(t)
    ensures Enabled(s, Inside(t)) && 0 < Work(s.isFunc, s.threads[t]) <= 3 * |s.isFunc| + 4
    ensures var s' := Next(s, Inside(t));
            s'.sh.lock.None? || Work(s.isFunc, s'.threads[t]) < Work(s.isFunc, s.threads[t])
  {
    assert PcInv(s.isFunc, s.sh, t, s.threads[t]);
  }

  /** What others do does not take it further away. */
  lemma HolderUndisturbed(s: Process, t: Tid, e: Event)
    requires LockInv(s) && ContextInv(s) && s.sh.lock == Some(t) && Enabled(s, e) && e != Inside(t)
    ensures var s' := Next(s, e); s'.isFunc == s.isFunc && t in s'.threads && s'.threads[t] == s.threads[t]
  {
    assert PcInv(s.isFunc, s.sh, t, s.threads[t]);
  }

  ghost predicate Run(ss: seq<Process>, es: seq<Event>) {
    |ss| == |es| + 1 && forall i | 0 <= i < |es| :: Enabled(ss[i], es[i]) && ss[i + 1] == Next(ss[i], es[i])
  }

  ghost function StepsOf(es: seq<Event>, t: Tid): nat {
    if es == [] then 0 else StepsOf(es[..|es| - 1], t) + if es[|es| - 1] == Inside(t) then 1 else 0
  }

  /** In every interleaving: as long as a thread keeps the lock, it has taken fewer steps than
    * three for each function and four. */
  lemma {:induction false} LockIsLetGo(ss: seq<Process>, es: seq<Event>, t: Tid)
    requires Run(ss, es) && Inv(ss[0]) && forall i | 0 <= i < |ss| :: ss[i].sh.lock == Some(t)
    ensures Inv(ss[|es|]) && ss[|es|].isFunc == ss[0].isFunc && t in ss[0].threads && t in ss[|es|].threads
    ensures StepsOf(es, t) + Work(ss[0].isFunc, ss[|es|].threads[t]) <= Work(ss[0].isFunc, ss[0].threads[t])
    ensures StepsOf(es, t) < 3 * |ss[0].isFunc| + 4
    decreases |es|
  {
    HolderGoesOn(ss[0], t);
    if es != [] {
      var n := |es| - 1;
      var before, e := ss[n], es[n];
      assert es[..n] + [e] == es;
      LockIsLetGo(ss[..n + 1], es[..n], t);
      assert Enabled(before, e) && ss[n + 1] == Next(before, e);
      NextKeepsInv(before, e);
      HolderGoesOn(before, t);
      if e != Inside(t) { HolderUndisturbed(before, t, e); }
      HolderGoesOn(ss[n + 1], t);
    }
  }

  /** A thread that is inside the engine is never stuck there: it can go on, or the holder
    * of the lock it waits for can. */
  lemma NoneStuck(s: Process, t: Tid)
    requires Inv(s) && t in s.threads && s.threads[t] !in {Running, Exited, Spawn}
    ensures Enabled(s, Inside(t)) || (s.sh.lock.Some? && Enabled(s, Inside(s.sh.lock.value)))
  {
    assert PcInv(s.isFunc, s.sh, t, s.threads[t]);
    if s.sh.lock.Some? { HolderGoesOn(s, s.sh.lock.value); }
  }

  // ----- what that secures -----

  /** However threads are started: no function is ever generated twice, no two threads
    * generate at once, the lazy context is never one already torn down, and when no
    * thread holds the lock every generated function's thunk leads to its code. */
  lemma GenerationIsSafe(ss: seq<Process>, n: nat)
    requires Descent(ss) && n < |ss|
    ensures var s := ss[n];
            && (forall f | 0 <= f < |s.sh.gens| :: s.sh.gens[f] <= 1)
            && (forall t, u | t in s.threads && u in s.threads
                              && Generating(s.threads[t]) && Generating(s.threads[u]) :: t == u)
            && (s.sh.lazyCtx ==> !s.torn)
            && (s.sh.lock.None? ==> s.sh.code == s.sh.patched)
  {
    EveryStateInv(ss, n);
    var s := ss[n];
    forall t | t in s.threads && Generating(s.threads[t])
      ensures s.sh.lock == Some(t)
    {
      assert PcInv(s.isFunc, s.sh, t, s.threads[t]);
    }
  }

  /** A forked child starts with nothing half generated and the lock its own to
    * release; its next step frees it, whatever the parent's other threads were doing. */
  lemma ForkedChildIsClean(ss: seq<Process>, n: nat, t: Tid)
    requires Descent(ss) && n < |ss| && At(ss[n], t, ForkHeld)
    ensures var c := Child(ss[n], t);
            && c.sh.lock == Some(t) && c.sh.code == c.sh.patched
            && (forall u | u in c.threads :: !Generating(c.threads[u]))
            && Enabled(c, Inside(t)) && Next(c, Inside(t)).sh == c.sh.(lock := None)
            && (forall f | 0 <= f < |c.sh.gens| :: c.sh.gens[f] == if f in c.sh.patched then 1 else 0)
  {
    EveryStateInv(ss, n);
    assert PcInv(ss[n].isFunc, ss[n].sh, t, ss[n].threads[t]);
  }

  /** With every thread started through the shim, code is generated and a thunk is
    * rewritten only while one thread has ever been started and the context is up; and
    * once there are two, no call goes through a stub. */
  lemma NoPatchAmongThreads(ss: seq<Process>, n: nat)
    requires Descent(ss) && n < |ss| && !ss[n].bypassed
    ensures var s := ss[n];
            && (forall t | t in s.threads && (Generating(s.threads[t]) || InRest(s.threads[t])) ::
                  s.threads.Keys == {t} && !s.torn)
            && (forall t, u | t in s.threads && u in s.threads && t != u :: AllGenerated(s))
            && (forall e | Enabled(s, e) && Next(s, e).sh.patched != s.sh.patched && s.host != Linked ::
                  e.Inside? && s.threads.Keys == {e.t})
  {
    EveryStateInv(ss, n);
    var s := ss[n];
    forall t | t in s.threads && (Generating(s.threads[t]) || InRest(s.threads[t]))
      ensures s.threads.Keys == {t} && !s.torn
    {
      assert Live(s, t);
      if !InRest(s.threads[t]) { GeneratingNotAll(s, t); }
      assert Early(s);
      assert forall u | u in s.threads :: u == t;
    }
    if Several(s) { assert !Lone(s); }
  }

  lemma GeneratingNotAll(s: Process, t: Tid)
    requires LockInv(s) && t in s.threads && Generating(s.threads[t])
    ensures !AllGenerated(s)
  {
    assert PcInv(s.isFunc, s.sh, t, s.threads[t]);
    match s.threads[t]
    case LazyGen(f) => assert f in All(s.isFunc);
    case LazyPatch(f) => assert f in All(s.isFunc);
    case RestGen(f) => assert f in All(s.isFunc);
    case RestPatch(f) => assert f in All(s.isFunc);
  }

  lemma FollowsBy(s: Process, e: Event, s': Process)
    requires Enabled(s, e) && s' == Next(s, e)
    ensures Follows(s, s')
  {
  }

  /** One function, and two threads of which the first is at `pc`. */
  ghost function TwoAt(pc: Pc, lock: Option<Tid>, code: set<nat>): Process {
    var sh := Shared(code, {}, [if code == {} then 0 else 1], lock, true);
    Process([true], sh, false, map[0 := pc, 1 := Running], Started, true)
  }

  lemma ForeignThreadStarts() returns (ss: seq<Process>)
    ensures Descent(ss) && ss[|ss| - 1] == TwoAt(Running, None, {})
  {
    var sh := Shared({}, {}, [0], None, true);
    var s0 := Process([true], sh.(lazyCtx := false), false, map[], Linked, false);
    var s1 := Process([true], sh, false, map[], Ready, false);
    var s2 := Process([true], sh, false, map[0 := Running], Started, false);
    assert [0] == seq(|s0.isFunc|, _ => 0);
    FollowsBy(s0, Link(true), s1);
    FollowsBy(s1, StartEntry, s2);
    FollowsBy(s2, ForeignThread(1), TwoAt(Running, None, {}));
    ss := [s0, s1, s2, TwoAt(Running, None, {})];
  }

  lemma TwoAtInside(pc: Pc, lock: Option<Tid>, code: set<nat>, pc': Pc, lock': Option<Tid>, code': set<nat>)
    requires CanStep([true], TwoAt(pc, lock, code).sh, pc)
    requires Step([true], TwoAt(pc, lock, code).sh, 0, pc) == (TwoAt(pc', lock', code').sh, pc')
    ensures Follows(TwoAt(pc, lock, code), TwoAt(pc', lock', code'))
  {
    FollowsBy(TwoAt(pc, lock, code), Inside(0), TwoAt(pc', lock', code'));
  }

  /** The shim has to see every thread start: with a thread started behind it, a
    * generator, which ends in rewriting a thunk, can run while another thread does. */
  lemma ForeignThreadBreaksIt() returns (ss: seq<Process>)
    ensures Descent(ss) && ss[|ss| - 1] == TwoAt(LazyGen(0), Some(0), {})
  {
    ss := ForeignThreadStarts();
    FollowsBy(TwoAt(Running, None, {}), Call(0, 0), TwoAt(LazyWait(0), None, {}));
    ss := Extended(ss, TwoAt(LazyWait(0), None, {}));
    TwoAtInside(LazyWait(0), None, {}, LazyCheck(0), Some(0), {});
    ss := Extended(ss, TwoAt(LazyCheck(0), Some(0), {}));
    TwoAtInside(LazyCheck(0), Some(0), {}, LazyGen(0), Some(0), {});
    ss := Extended(ss, TwoAt(LazyGen(0), Some(0), {}));
  }

  lemma Extended(ss: seq<Process>, s: Process) returns (ss': seq<Process>)
    requires Descent(ss) && Follows(ss[|ss| - 1], s)
    ensures Descent(ss') && ss'[|ss'| - 1] == s
  {
    ss' := ss + [s];
  }
}
