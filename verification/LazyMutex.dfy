/** The Windows mutex of gtest-all.cc with its lazy initialisation, as a state machine: one
    step is one atomic action of one thread, any number of threads, any interleaving.  A
    critical section may be entered again by the thread that holds it. */
module LazyMutex {

  type Tid = n: nat | n > 0 witness 1  // a thread id; 0 is nobody

  datatype MutexKind = Static | Dynamic

  datatype Call = Lock | Unlock | AssertHeld

  /** Where a thread is in the code. */
  datatype Pc =
    | Idle                    // outside the mutex
    | TestPhase(call: Call)   // before the exchange of 0 for 1
    | ClearFirst(call: Call)  // initialising: owner_thread_id_ = 0
    | Allocate(call: Call)    // initialising: new CRITICAL_SECTION
    | Initialize(call: Call)  // initialising: InitializeCriticalSection
    | Publish(call: Call)     // initialising: before the checked exchange of 1 for 2
    | Spin(call: Call)        // waiting for phase 2
    | Enter                   // before EnterCriticalSection
    | TakeOwner               // before owner_thread_id_ = current thread
    | ClearOwner              // before owner_thread_id_ = 0
    | Leave                   // before LeaveCriticalSection
    | CheckOwner              // before the check of AssertHeld
    | HeldCheckFailed         // the check of AssertHeld failed
    | InitCheckFailed         // a check of ThreadSafeLazyInit failed
    | Undefined               // a critical section was used that is not there

  datatype State = State(
    kind: MutexKind,
    phase: int,               // critical_section_init_phase_
    owner: nat,               // owner_thread_id_
    present: bool,          // critical_section_ points to a section
    initialized: bool,        // the section is initialised
    csOwner: nat,             // the section: the thread it admits, and how many times
    csCount: nat,
    pcs: map<Tid, Pc>,
    depth: map<Tid, nat>,     // how many times each thread has entered and not left
    clean: set<Tid>,          // threads with no Unlock begun since their last Lock returned
    inits: nat)               // how many times the section of a static mutex was initialised

  /** The first action of a call after initialisation. */
  function After(call: Call): Pc {
    match call
    case Lock => Enter
    case Unlock => ClearOwner
    case AssertHeld => CheckOwner
  }

  ghost predicate Init(s: State) {
    && s.phase == 0 && s.owner == 0 && s.csOwner == 0 && s.csCount == 0 && s.clean == {} && s.inits == 0
    && s.present == s.initialized == (s.kind == Dynamic)
    && s.depth.Keys == s.pcs.Keys
    && forall t :: t in s.pcs ==> s.pcs[t] == Idle && s.depth[t] == 0
  }

  function Go(s: State, t: Tid, pc: Pc): State {
    s.(pcs := s.pcs[t := pc])
  }

  /** Nothing happens to the other threads, and only one that finds phase 0 initialises. */
  ghost predicate Local(s: State, s': State, t: Tid)
    requires t in s.pcs
  {
    && s'.pcs.Keys == s.pcs.Keys && s'.depth.Keys == s.depth.Keys && s'.clean <= s.clean + {t}
    && (forall u :: u in s.pcs && u != t ==> s'.pcs[u] == s.pcs[u])
    && (Initializing(s'.pcs[t]) ==> Initializing(s.pcs[t]) || s.phase == 0)
  }

  /** The switch on the phase, with the exchange of 0 for 1. */
  function Test(s: State, t: Tid, call: Call): (s': State)
    requires t in s.pcs && t in s.depth
    ensures Local(s, s', t)
  {
    if s.kind == Dynamic then Go(s, t, After(call))
    else if s.phase == 0 then Go(s, t, ClearFirst(call)).(phase := 1)
    else if s.phase == 1 then Go(s, t, Spin(call))
    else if s.phase == 2 then Go(s, t, After(call))
    else Go(s, t, InitCheckFailed)
  }

  /** The actions of ThreadSafeLazyInit. */
  function ActInitializing(s: State, t: Tid): (s': State)
    requires t in s.pcs && t in s.depth
    ensures Local(s, s', t)
  {
    match s.pcs[t]
    case TestPhase(call) => Test(s, t, call)
    case ClearFirst(call) => Go(s, t, Allocate(call)).(owner := 0)
    case Allocate(call) => Go(s, t, Initialize(call)).(present := true, initialized := false)
    case Initialize(call) =>
      if s.present then
        Go(s, t, Publish(call)).(initialized := true, csOwner := 0, csCount := 0, inits := s.inits + 1)
      else Go(s, t, Undefined)
    case Publish(call) =>
      if s.phase == 1 then Go(s, t, After(call)).(phase := 2) else Go(s, t, InitCheckFailed)
    case Spin(call) => if s.phase == 2 then Go(s, t, After(call)) else s
    case _ => s
  }

  /** EnterCriticalSection, which waits while another thread is inside. */
  function Acquire(s: State, t: Tid): (s': State)
    requires t in s.pcs && t in s.depth
    ensures Local(s, s', t)
  {
    if !s.initialized then Go(s, t, Undefined)
    else if s.csCount == 0 || s.csOwner == t then
      Go(s, t, TakeOwner).(csOwner := t, csCount := s.csCount + 1, depth := s.depth[t := s.depth[t] + 1])
    else s
  }

  /** LeaveCriticalSection. */
  function Release(s: State, t: Tid): (s': State)
    requires t in s.pcs && t in s.depth
    ensures Local(s, s', t)
  {
    if !s.initialized || s.csCount == 0 || s.csOwner != t || s.depth[t] == 0 then Go(s, t, Undefined)
    else
      Go(s, t, Idle).(csCount := s.csCount - 1, csOwner := if s.csCount == 1 then 0 else t,
                      depth := s.depth[t := s.depth[t] - 1])
  }

  /** The actions of Lock, Unlock and AssertHeld after it. */
  function ActUsing(s: State, t: Tid): (s': State)
    requires t in s.pcs && t in s.depth
    ensures Local(s, s', t)
  {
    match s.pcs[t]
    case Enter => Acquire(s, t)
    case TakeOwner => Go(s, t, Idle).(owner := t, clean := s.clean + {t})
    case ClearOwner => Go(s, t, Leave).(owner := 0)
    case Leave => Release(s, t)
    case CheckOwner => Go(s, t, if s.owner == t then Idle else HeldCheckFailed)
    case _ => s
  }

  /** What the action of thread t makes of the state. */
  function Act(s: State, t: Tid): (s': State)
    requires t in s.pcs && t in s.depth
    ensures Local(s, s', t)
  {
    if Using(s.pcs[t]) then ActUsing(s, t) else ActInitializing(s, t)
  }

  /** A thread outside the mutex calls it; only a thread that holds it may call Unlock. */
  ghost predicate MayCall(s: State, t: Tid, call: Call) {
    t in s.pcs && s.pcs[t] == Idle && t in s.depth && (call == Unlock ==> s.depth[t] > 0)
  }

  function Begin(s: State, t: Tid, call: Call): State {
    Go(s, t, TestPhase(call)).(clean := if call == Unlock then s.clean - {t} else s.clean)
  }

  ghost predicate Step(s: State, s': State, t: Tid) {
    || (exists call :: MayCall(s, t, call) && s' == Begin(s, t, call))
    || (t in s.pcs && t in s.depth && s.pcs[t] != Idle && s' == Act(s, t))
  }

  ghost predicate SomeStep(s: State, s': State) {
    exists t :: Step(s, s', t)
  }

  /** The j-th state follows from the one before it. */
  ghost predicate StepAt(run: seq<State>, j: nat)
    requires 0 < j < |run|
  {
    SomeStep(run[j - 1], run[j])
  }

  /** A run of the machine, any thread taking each step. */
  ghost predicate IsRun(run: seq<State>) {
    && run != [] && Init(run[0])
    && forall j :: 0 < j < |run| ==> StepAt(run, j)
  }

  // ---------------------------------------------------------------- the invariant

  predicate Initializing(pc: Pc) {
    pc.ClearFirst? || pc.Allocate? || pc.Initialize? || pc.Publish?
  }

  /** In the initialisation part of this call. */
  predicate Starting(pc: Pc, call: Call) {
    match pc
    case TestPhase(c) => c == call
    case ClearFirst(c) => c == call
    case Allocate(c) => c == call
    case Initialize(c) => c == call
    case Publish(c) => c == call
    case Spin(c) => c == call
    case _ => false
  }

  /** Actions that need the section. */
  predicate Using(pc: Pc) {
    pc in {Enter, TakeOwner, ClearOwner, Leave, CheckOwner}
  }

  /** Where thread t may be, given the shared state. */
  ghost predicate ThreadOk(s: State, t: Tid)
    requires t in s.pcs && t in s.depth
  {
    var pc := s.pcs[t];
    && pc != InitCheckFailed && pc != Undefined
    && (Initializing(pc) ==> s.kind == Static && s.phase == 1)
    && (pc.Initialize? || pc.Publish? ==> s.present)
    && (s.kind == Static && s.phase == 1 && s.initialized && Initializing(pc) ==> pc.Publish?)
    && (pc.Publish? ==> s.initialized && s.inits == 1)
    && (pc.Spin? ==> s.kind == Static && s.phase >= 1)
    && (Using(pc) ==> Ready(s))
    && (pc in {TakeOwner, ClearOwner, Leave} ==> s.csOwner == t)
    && (Starting(pc, Unlock) ==> s.csOwner == t)
    && s.depth[t] == (if s.csOwner == t then s.csCount else 0)
    && (t in s.clean ==> s.csOwner == t && s.owner == t)
    && (s.owner == t ==> s.csOwner == t && (t in s.clean || pc == ClearOwner || Starting(pc, Unlock)))
    && (t in s.clean ==> !(pc == ClearOwner || pc == Leave || Starting(pc, Unlock)))
  }

  /** The section is there for everybody. */
  predicate Ready(s: State) {
    s.initialized && (s.kind == Dynamic || s.phase == 2)
  }

  /** What holds of the shared state alone. */
  predicate Shared(s: State) {
    && 0 <= s.phase <= 2
    && (s.kind == Dynamic ==> s.phase == 0 && s.initialized && s.inits == 0)
    && (s.kind == Static ==>
          && (s.phase == 0 ==> !s.initialized && s.inits == 0)
          && (s.phase == 1 ==> s.inits == (if s.initialized then 1 else 0))
          && (s.phase == 2 ==> s.initialized && s.inits == 1))
    && (s.csCount == 0 <==> s.csOwner == 0)
    && (s.csOwner != 0 ==> Ready(s))
    && (s.owner != 0 ==> s.owner == s.csOwner)
  }

  /** At most one of two threads is initialising. */
  predicate NotBoth(s: State, t: Tid, u: Tid)
    requires t in s.pcs && u in s.pcs
  {
    Initializing(s.pcs[t]) && Initializing(s.pcs[u]) ==> t == u
  }

  predicate OwnerListed(s: State) {
    s.csOwner != 0 ==> s.csOwner in s.pcs
  }

  ghost predicate Inv(s: State) {
    && s.depth.Keys == s.pcs.Keys
    && s.clean <= s.pcs.Keys
    && OwnerListed(s)
    && Shared(s)
    && (forall t :: t in s.pcs ==> ThreadOk(s, t))
    && (forall t, u :: t in s.pcs && u in s.pcs ==> NotBoth(s, t, u))
    && (s.phase == 1 ==> exists t :: t in s.pcs && Initializing(s.pcs[t]))
  }

  lemma {:induction false} InitInv(s: State)
    requires Init(s)
    ensures Inv(s)
  {
  }

  lemma {:induction false} BeginKeeps(s: State, t: Tid, call: Call)
    requires Inv(s) && MayCall(s, t, call)
    ensures Inv(Begin(s, t, call))
  {
    var s' := Begin(s, t, call);
    assert ThreadOk(s, t);
    forall u | u in s'.pcs ensures ThreadOk(s', u) {
      assert ThreadOk(s, u);
      BeginThread(s, t, call, u);
    }
    BeginPairs(s, t, call);
  }

  lemma {:induction false} BeginPairs(s: State, t: Tid, call: Call)
    requires Inv(s) && MayCall(s, t, call)
    ensures
      var s' := Begin(s, t, call);
      && (forall u, v :: u in s'.pcs && v in s'.pcs ==> NotBoth(s', u, v))
      && (s'.phase == 1 ==> exists u :: u in s'.pcs && Initializing(s'.pcs[u]))
  {
    var s' := Begin(s, t, call);
    forall u, v | u in s'.pcs && v in s'.pcs ensures NotBoth(s', u, v) {
      assert NotBoth(s, u, v);
    }
    if s'.phase == 1 {
      var u :| u in s.pcs && Initializing(s.pcs[u]);
      assert u in s'.pcs && Initializing(s'.pcs[u]);
    }
  }

  lemma {:induction false} BeginThread(s: State, t: Tid, call: Call, u: Tid)
    requires t in s.pcs && u in s.pcs && s.depth.Keys == s.pcs.Keys && Shared(s) && MayCall(s, t, call)
    requires ThreadOk(s, t) && ThreadOk(s, u)
    ensures ThreadOk(Begin(s, t, call), u)
  {
  }

  /** The thread clauses of the invariant. */
  ghost predicate AllThreadsOk(s: State)
    requires s.depth.Keys == s.pcs.Keys
  {
    forall t :: t in s.pcs ==> ThreadOk(s, t)
  }

  lemma {:induction false} ActKeeps(s: State, t: Tid)
    requires Inv(s) && t in s.pcs && s.pcs[t] != Idle
    ensures Inv(Act(s, t))
  {
    assert ThreadOk(s, t);
    if Using(s.pcs[t]) { ActSharedUsing(s, t); } else { ActSharedInitializing(s, t); }
    ActOwner(s, t);
    ActThreads(s, t);
    ActPairs(s, t);
    Together(s, Act(s, t), t);
  }

  lemma {:induction false} ActOwner(s: State, t: Tid)
    requires t in s.pcs && t in s.depth && OwnerListed(s)
    ensures OwnerListed(Act(s, t))
  {
  }

  lemma {:induction false} Together(s: State, s': State, t: Tid)
    requires Inv(s) && t in s.pcs && Local(s, s', t) && Shared(s') && OwnerListed(s')
    requires AllThreadsOk(s')
    requires forall u, v :: u in s'.pcs && v in s'.pcs ==> NotBoth(s', u, v)
    requires s'.phase == 1 ==> exists u :: u in s'.pcs && Initializing(s'.pcs[u])
    ensures Inv(s')
  {
  }

  lemma {:induction false} ActThreads(s: State, t: Tid)
    requires Inv(s) && t in s.pcs && t in s.depth
    ensures Act(s, t).depth.Keys == Act(s, t).pcs.Keys && AllThreadsOk(Act(s, t))
  {
    var s' := Act(s, t);
    assert ThreadOk(s, t);
    forall u | u in s'.pcs ensures ThreadOk(s', u) {
      assert ThreadOk(s, u) && NotBoth(s, t, u);
      ActThread(s, t, u);
    }
  }

  lemma {:induction false} ActPairs(s: State, t: Tid)
    requires Inv(s) && t in s.pcs && t in s.depth
    ensures
      var s' := Act(s, t);
      && (forall u, v :: u in s'.pcs && v in s'.pcs ==> NotBoth(s', u, v))
      && (s'.phase == 1 ==> exists u :: u in s'.pcs && Initializing(s'.pcs[u]))
  {
    var s' := Act(s, t);
    assert ThreadOk(s, t);
    forall u, v | u in s'.pcs && v in s'.pcs ensures NotBoth(s', u, v) {
      assert ThreadOk(s, u) && ThreadOk(s, v) && NotBoth(s, u, v);
      ActPair(s, t, u, v);
    }
    if s'.phase == 1 {
      if s.phase == 1 {
        var u :| u in s.pcs && Initializing(s.pcs[u]);
        ActGoesOn(s, t, u);
      } else {
        ActGoesOn(s, t, t);
      }
    }
  }

  lemma {:induction false} ActThread(s: State, t: Tid, u: Tid)
    requires t in s.pcs && t in s.depth && Shared(s) && ThreadOk(s, t)
    requires u in s.pcs && u in s.depth && ThreadOk(s, u) && NotBoth(s, t, u)
    ensures ThreadOk(Act(s, t), u)
  {
    if u != t {
      if Using(s.pcs[t]) { ActOtherUsing(s, t, u); } else { ActOtherInitializing(s, t, u); }
    } else if Using(s.pcs[t]) {
      ActSelfUsing(s, t);
    } else if s.pcs[t].TestPhase? || s.pcs[t].Spin? {
      ActSelfWaiting(s, t);
    } else {
      ActSelfInitializing(s, t);
    }
  }

  /** While the phase is 1, somebody is initialising. */
  lemma {:induction false} ActGoesOn(s: State, t: Tid, u: Tid)
    requires t in s.pcs && t in s.depth && u in s.pcs && ThreadOk(s, t) && Shared(s)
    requires Act(s, t).phase == 1 && (if s.phase == 1 then Initializing(s.pcs[u]) else u == t)
    ensures u in Act(s, t).pcs && Initializing(Act(s, t).pcs[u])
  {
  }

  lemma {:induction false} ActPair(s: State, t: Tid, u: Tid, v: Tid)
    requires t in s.pcs && t in s.depth && u in s.pcs && v in s.pcs && u in s.depth && v in s.depth
    requires ThreadOk(s, u) && ThreadOk(s, v) && NotBoth(s, u, v)
    ensures NotBoth(Act(s, t), u, v)
  {
  }

  lemma {:induction false} ActSharedUsing(s: State, t: Tid)
    requires t in s.pcs && t in s.depth && Shared(s) && ThreadOk(s, t) && Using(s.pcs[t])
    ensures Shared(Act(s, t))
  {
  }

  lemma {:induction false} ActSharedInitializing(s: State, t: Tid)
    requires t in s.pcs && t in s.depth && Shared(s) && ThreadOk(s, t) && !Using(s.pcs[t])
    ensures Shared(Act(s, t))
  {
  }

  lemma {:induction false} ActSelfWaiting(s: State, t: Tid)
    requires t in s.pcs && t in s.depth && Shared(s) && ThreadOk(s, t)
    requires s.pcs[t].TestPhase? || s.pcs[t].Spin?
    ensures ThreadOk(Act(s, t), t)
  {
  }

  lemma {:induction false} ActSelfInitializing(s: State, t: Tid)
    requires t in s.pcs && t in s.depth && Shared(s) && ThreadOk(s, t)
    requires !Using(s.pcs[t]) && !s.pcs[t].TestPhase? && !s.pcs[t].Spin?
    ensures ThreadOk(Act(s, t), t)
  {
  }

  lemma {:induction false} ActSelfUsing(s: State, t: Tid)
    requires t in s.pcs && t in s.depth && Shared(s) && ThreadOk(s, t) && Using(s.pcs[t])
    ensures ThreadOk(Act(s, t), t)
  {
  }

  lemma {:induction false} ActOtherUsing(s: State, t: Tid, u: Tid)
    requires t in s.pcs && t in s.depth && Shared(s) && ThreadOk(s, t) && Using(s.pcs[t])
    requires u in s.pcs && u in s.depth && u != t && ThreadOk(s, u)
    ensures ThreadOk(Act(s, t), u)
  {
  }

  lemma {:induction false} ActOtherInitializing(s: State, t: Tid, u: Tid)
    requires t in s.pcs && t in s.depth && Shared(s) && ThreadOk(s, t) && !Using(s.pcs[t])
    requires u in s.pcs && u in s.depth && u != t && ThreadOk(s, u) && NotBoth(s, t, u)
    ensures ThreadOk(Act(s, t), u)
  {
  }

  lemma {:induction false} StepKeeps(s: State, s': State, t: Tid)
    requires Inv(s) && Step(s, s', t)
    ensures Inv(s')
  {
    if call :| MayCall(s, t, call) && s' == Begin(s, t, call) {
      BeginKeeps(s, t, call);
    } else {
      ActKeeps(s, t);
    }
  }

  lemma {:induction false} RunsKeepInv(run: seq<State>, k: nat)
    requires IsRun(run) && k < |run|
    ensures Inv(run[k])
    decreases k
  {
    if k == 0 {
      InitInv(run[0]);
    } else {
      RunsKeepInv(run, k - 1);
      assert StepAt(run, k);
      var t :| Step(run[k - 1], run[k], t);
      StepKeeps(run[k - 1], run[k], t);
    }
  }

  // ---------------------------------------------------------------- what every run keeps

  /** In every interleaving: no check of the initialisation fails and no section is used that
      is not there; the section is initialised at most once, by one thread at a time, and
      before anybody enters it; at most one thread is inside. */
  lemma {:induction false} Safety(run: seq<State>, k: nat, t: Tid, u: Tid)
    requires IsRun(run) && k < |run| && t in run[k].pcs && u in run[k].pcs
    ensures run[k].pcs[t] != InitCheckFailed && run[k].pcs[t] != Undefined
    ensures run[k].inits <= 1
    ensures Initializing(run[k].pcs[t]) && Initializing(run[k].pcs[u]) ==> t == u
    ensures Using(run[k].pcs[t]) ==> run[k].initialized && (run[k].kind == Static ==> run[k].inits == 1)
    ensures t in run[k].depth && u in run[k].depth && run[k].depth[t] > 0 && run[k].depth[u] > 0 ==> t == u
  {
    RunsKeepInv(run, k);
    assert ThreadOk(run[k], t) && ThreadOk(run[k], u) && NotBoth(run[k], t, u);
  }

  /** The check of AssertHeld passes exactly for a thread that has begun no Unlock since its
      last Lock returned. */
  lemma {:induction false} HeldIffClean(run: seq<State>, k: nat, t: Tid)
    requires IsRun(run) && k < |run| && t in run[k].pcs && t in run[k].depth && run[k].pcs[t] == CheckOwner
    ensures Act(run[k], t).pcs[t] == Idle <==> t in run[k].clean
    ensures t in run[k].clean ==> run[k].depth[t] > 0
  {
    RunsKeepInv(run, k);
    assert ThreadOk(run[k], t);
  }

  // ---------------------------------------------------------------- nested locks

  /** Whoever holds the mutex, and is not just taking or giving it, is clean. */
  ghost predicate HolderClean(s: State, t: Tid)
    requires t in s.pcs && t in s.depth
  {
    s.depth[t] > 0 && !(s.pcs[t] in {TakeOwner, ClearOwner, Leave}) && !Starting(s.pcs[t], Unlock) ==> t in s.clean
  }

  ghost predicate NeverNested(run: seq<State>) {
    forall k, t :: 0 <= k < |run| && t in run[k].depth ==> run[k].depth[t] <= 1
  }

  lemma {:induction false} StepHolderClean(s: State, s': State, t: Tid, u: Tid)
    requires Inv(s) && Step(s, s', t) && u in s.pcs && u in s.depth && HolderClean(s, u)
    requires u in s'.pcs && u in s'.depth && s.depth[u] <= 1 && s'.depth[u] <= 1
    ensures HolderClean(s', u)
  {
    assert ThreadOk(s, u) && ThreadOk(s, t);
    if call :| MayCall(s, t, call) && s' == Begin(s, t, call) {
    } else if Using(s.pcs[t]) {
      UsingHolderClean(s, t, u);
    } else {
      InitializingHolderClean(s, t, u);
    }
  }

  lemma {:induction false} UsingHolderClean(s: State, t: Tid, u: Tid)
    requires t in s.pcs && t in s.depth && Shared(s) && ThreadOk(s, t) && Using(s.pcs[t])
    requires u in s.pcs && u in s.depth && ThreadOk(s, u) && HolderClean(s, u)
    requires s.depth[u] <= 1 && Act(s, t).depth[u] <= 1
    ensures HolderClean(Act(s, t), u)
  {
  }

  lemma {:induction false} InitializingHolderClean(s: State, t: Tid, u: Tid)
    requires t in s.pcs && t in s.depth && Shared(s) && ThreadOk(s, t) && !Using(s.pcs[t]) && s.pcs[t] != Idle
    requires u in s.pcs && u in s.depth && ThreadOk(s, u) && HolderClean(s, u)
    ensures HolderClean(Act(s, t), u)
  {
  }

  lemma {:induction false} StepKeys(s: State, s': State, t: Tid)
    requires Step(s, s', t)
    ensures s'.pcs.Keys == s.pcs.Keys && s'.depth.Keys == s.depth.Keys
  {
  }

  lemma {:induction false} RunsHolderClean(run: seq<State>, k: nat, t: Tid)
    requires IsRun(run) && NeverNested(run) && k < |run| && t in run[k].pcs && t in run[k].depth
    ensures HolderClean(run[k], t)
    decreases k
  {
    if k > 0 {
      RunsKeepInv(run, k - 1);
      assert StepAt(run, k);
      SomeStepKeys(run[k - 1], run[k]);
      RunsHolderClean(run, k - 1, t);
      SomeStepHolderClean(run[k - 1], run[k], t);
    }
  }

  lemma {:induction false} SomeStepKeys(s: State, s': State)
    requires SomeStep(s, s')
    ensures s'.pcs.Keys == s.pcs.Keys && s'.depth.Keys == s.depth.Keys
  {
    var u :| Step(s, s', u);
    StepKeys(s, s', u);
  }

  lemma {:induction false} SomeStepHolderClean(s: State, s': State, t: Tid)
    requires Inv(s) && SomeStep(s, s') && t in s.pcs && t in s.depth && HolderClean(s, t)
    requires t in s'.pcs && t in s'.depth && s.depth[t] <= 1 && s'.depth[t] <= 1
    ensures HolderClean(s', t)
  {
    var u :| Step(s, s', u);
    StepHolderClean(s, s', u, t);
  }

  /** As long as no thread locks again what it holds, AssertHeld passes exactly for the thread
      that holds the mutex. */
  lemma {:induction false} HeldIffHolding(run: seq<State>, k: nat, t: Tid)
    requires IsRun(run) && NeverNested(run) && k < |run|
    requires t in run[k].pcs && t in run[k].depth && run[k].pcs[t] == CheckOwner
    ensures Act(run[k], t).pcs[t] == Idle <==> run[k].depth[t] > 0
  {
    HeldIffClean(run, k, t);
    RunsHolderClean(run, k, t);
  }

  /** Thread t makes a whole call alone: it begins it and takes its actions (at most three when
      the section is ready). */
  function Alone(s: State, t: Tid, call: Call): (s': State)
    requires t in s.pcs && t in s.depth
    ensures t in s'.pcs && t in s'.depth
  {
    Act(Act(Act(Begin(s, t, call), t), t), t)
  }

  /** A thread that locks twice and unlocks once still holds the mutex, but is no longer its
      recorded owner: AssertHeld then fails for it. */
  lemma {:induction false} NestedUnlockLosesOwner(s: State, t: Tid)
    requires Inv(s) && Ready(s) && t in s.pcs && t in s.depth && s.pcs[t] == Idle && s.csCount == 0
    ensures
      var locked := Alone(s, t, Lock);
      var twice := Alone(locked, t, Lock);
      var once := Alone(twice, t, Unlock);
      && MayCall(s, t, Lock) && MayCall(locked, t, Lock) && MayCall(twice, t, Unlock) && MayCall(once, t, AssertHeld)
      && once.depth[t] == 1 && Alone(once, t, AssertHeld).pcs[t] == HeldCheckFailed
  {
    assert ThreadOk(s, t);
    LockOnce(s, t);
    var locked := Alone(s, t, Lock);
    LockOnce(locked, t);
    var twice := Alone(locked, t, Lock);
    UnlockOnce(twice, t);
    CheckOnce(Alone(twice, t, Unlock), t);
  }

  lemma {:induction false} BeginOnce(s: State, t: Tid, call: Call)
    requires t in s.pcs && t in s.depth && Ready(s) && (s.kind == Dynamic || s.phase == 2)
    ensures Act(Begin(s, t, call), t) == Go(Begin(s, t, call), t, After(call))
  {
  }

  lemma {:induction false} LockOnce(s: State, t: Tid)
    requires t in s.pcs && t in s.depth && Ready(s) && (s.kind == Dynamic || s.phase == 2)
    requires s.pcs[t] == Idle && (s.csCount == 0 || s.csOwner == t)
    ensures var s' := Alone(s, t, Lock);
      && s'.pcs[t] == Idle && s'.owner == t && s'.csOwner == t && s'.csCount == s.csCount + 1
      && s'.depth[t] == s.depth[t] + 1 && s'.kind == s.kind && s'.phase == s.phase && s'.initialized
  {
    BeginOnce(s, t, Lock);
    var s2 := Go(Begin(s, t, Lock), t, Enter);
    EnterOnce(s2, t);
  }

  lemma {:induction false} EnterOnce(s: State, t: Tid)
    requires t in s.pcs && t in s.depth && s.initialized && s.pcs[t] == Enter && (s.csCount == 0 || s.csOwner == t)
    ensures var s' := Act(Act(s, t), t);
      && s'.pcs[t] == Idle && s'.owner == t && s'.csOwner == t && s'.csCount == s.csCount + 1
      && s'.depth[t] == s.depth[t] + 1 && s'.kind == s.kind && s'.phase == s.phase && s'.initialized
  {
    var s1 := Act(s, t);
    assert s1.pcs[t] == TakeOwner && s1.depth[t] == s.depth[t] + 1;
  }

  lemma {:induction false} UnlockOnce(s: State, t: Tid)
    requires t in s.pcs && t in s.depth && Ready(s) && (s.kind == Dynamic || s.phase == 2)
    requires s.pcs[t] == Idle && s.csOwner == t && s.csCount > 1 && s.depth[t] > 1
    ensures var s' := Alone(s, t, Unlock);
      && s'.pcs[t] == Idle && s'.owner == 0 && s'.csOwner == t
      && s'.depth[t] == s.depth[t] - 1 && s'.kind == s.kind && s'.phase == s.phase && s'.initialized
  {
    BeginOnce(s, t, Unlock);
    var s2 := Go(Begin(s, t, Unlock), t, ClearOwner);
    LeaveOnce(s2, t);
  }

  lemma {:induction false} LeaveOnce(s: State, t: Tid)
    requires t in s.pcs && t in s.depth && s.initialized && s.pcs[t] == ClearOwner
    requires s.csOwner == t && s.csCount > 1 && s.depth[t] > 1
    ensures var s' := Act(Act(s, t), t);
      && s'.pcs[t] == Idle && s'.owner == 0 && s'.csOwner == t
      && s'.depth[t] == s.depth[t] - 1 && s'.kind == s.kind && s'.phase == s.phase && s'.initialized
  {
    var s1 := Act(s, t);
    assert s1.pcs[t] == Leave && s1.depth[t] == s.depth[t];
  }

  lemma {:induction false} CheckOnce(s: State, t: Tid)
    requires t in s.pcs && t in s.depth && Ready(s) && (s.kind == Dynamic || s.phase == 2)
    requires s.pcs[t] == Idle && s.owner == 0
    ensures Alone(s, t, AssertHeld).pcs[t] == HeldCheckFailed
  {
    BeginOnce(s, t, AssertHeld);
    var s2 := Act(Begin(s, t, AssertHeld), t);
    assert s2.pcs[t] == CheckOwner && s2.owner == 0;
    var s3 := Act(s2, t);
    assert s3.pcs[t] == HeldCheckFailed;
  }

  // ---------------------------------------------------------------- progress

  /** Waiting for the section, which another thread is in, or for its initialisation. */
  predicate Waits(s: State, t: Tid)
    requires t in s.pcs
  {
    || (s.pcs[t] == Enter && s.csCount > 0 && s.csOwner != t)
    || (s.pcs[t].Spin? && s.phase != 2)
  }

  /** A thread stands still exactly outside a call, after a failed check, and while it waits. */
  lemma {:induction false} StandsStillIff(run: seq<State>, k: nat, t: Tid)
    requires IsRun(run) && k < |run| && t in run[k].pcs && t in run[k].depth
    ensures Act(run[k], t) == run[k] <==>
            run[k].pcs[t] == Idle || run[k].pcs[t] == HeldCheckFailed || Waits(run[k], t)
  {
    RunsKeepInv(run, k);
    assert ThreadOk(run[k], t);
    if Using(run[k].pcs[t]) { StillUsing(run[k], t); } else { StillInitializing(run[k], t); }
  }

  lemma {:induction false} StillUsing(s: State, t: Tid)
    requires t in s.pcs && t in s.depth && ThreadOk(s, t) && Shared(s) && Using(s.pcs[t])
    ensures Act(s, t) == s <==> Waits(s, t)
  {
    if !Waits(s, t) { assert Act(s, t).pcs[t] != s.pcs[t]; }
  }

  lemma {:induction false} StillInitializing(s: State, t: Tid)
    requires t in s.pcs && t in s.depth && ThreadOk(s, t) && Shared(s) && !Using(s.pcs[t])
    ensures Act(s, t) == s <==> s.pcs[t] == Idle || s.pcs[t] == HeldCheckFailed || Waits(s, t)
  {
    if !(s.pcs[t] == Idle || s.pcs[t] == HeldCheckFailed || Waits(s, t)) { assert Act(s, t).pcs[t] != s.pcs[t]; }
  }

  /** A thread that leaves returns from Unlock with one entry less; with its last entry it frees
      the section, and then any other thread can lock it. */
  lemma {:induction false} UnlockReturns(run: seq<State>, k: nat, t: Tid, u: Tid)
    requires IsRun(run) && k < |run| && t in run[k].pcs && t in run[k].depth && run[k].pcs[t] == Leave
    requires u in run[k].pcs && u in run[k].depth
    ensures
      var s, s' := run[k], Act(run[k], t);
      && s'.pcs[t] == Idle && s'.depth[t] == s.depth[t] - 1 && (u != t ==> s'.depth[u] == s.depth[u])
      && s'.csCount == s'.depth[t] && s'.csOwner == (if s.depth[t] == 1 then 0 else t)
      && (s.depth[t] == 1 && s'.pcs[u] == Idle ==>
            Alone(s', u, Lock).pcs[u] == Idle && Alone(s', u, Lock).depth[u] == 1)
      && (s.depth[t] == 1 && s'.pcs[u] == Enter ==>
            Act(Act(s', u), u).pcs[u] == Idle && Act(Act(s', u), u).depth[u] == 1)
  {
    RunsKeepInv(run, k);
    var s := run[k];
    assert ThreadOk(s, t) && ThreadOk(s, u);
    LeaveFrees(s, t, u);
    if s.depth[t] == 1 {
      if Act(s, t).pcs[u] == Idle { LockOnce(Act(s, t), u); }
      if Act(s, t).pcs[u] == Enter { EnterOnce(Act(s, t), u); }
    }
  }

  lemma {:induction false} LeaveFrees(s: State, t: Tid, u: Tid)
    requires t in s.pcs && t in s.depth && u in s.pcs && u in s.depth && s.pcs[t] == Leave
    requires Shared(s) && ThreadOk(s, t) && ThreadOk(s, u)
    ensures var s' := Act(s, t);
      && s'.pcs[t] == Idle && s'.depth[t] == s.depth[t] - 1 && s'.csCount == s'.depth[t]
      && s'.csOwner == (if s.depth[t] == 1 then 0 else t)
      && (u != t ==> s'.pcs[u] == s.pcs[u] && s'.depth[u] == s.depth[u] == 0)
      && Ready(s')
  {
  }

  /** A thread inside a call that has not failed its check. */
  predicate InCall(pc: Pc) {
    pc != Idle && pc != HeldCheckFailed
  }

  /** No deadlock: while some thread is in a call, the action of some thread changes the state,
      unless they wait for a thread that holds the section outside a call or has failed its
      check. */
  lemma {:induction false} NoDeadlock(run: seq<State>, k: nat, t: Tid) returns (u: Tid)
    requires IsRun(run) && k < |run| && t in run[k].pcs && InCall(run[k].pcs[t])
    ensures u in run[k].pcs && u in run[k].depth
    ensures Act(run[k], u) != run[k] || (!InCall(run[k].pcs[u]) && run[k].depth[u] > 0 && run[k].csOwner == u)
  {
    var s := run[k];
    RunsKeepInv(run, k);
    assert ThreadOk(s, t);
    if !Waits(s, t) {
      u := t;
    } else if s.pcs[t].Spin? {
      u := Initializer(s);
    } else {
      u := s.csOwner;
    }
    StandsStillIff(run, k, u);
    assert ThreadOk(s, u);
  }

  lemma {:induction false} Initializer(s: State) returns (u: Tid)
    requires Inv(s) && s.phase == 1
    ensures u in s.pcs && u in s.depth && Initializing(s.pcs[u]) && !Waits(s, u)
  {
    u :| u in s.pcs && Initializing(s.pcs[u]);
  }

  // ---------------------------------------------------------------- every call can return

  function Last(run: seq<State>): State
    requires run != []
  {
    run[|run| - 1]
  }

  /** A longer run. */
  ghost predicate Continues(run': seq<State>, run: seq<State>) {
    run != [] && IsRun(run') && run <= run'
  }

  lemma {:induction false} OneStep(run: seq<State>, run0: seq<State>, s': State, t: Tid)
    requires Continues(run, run0) && Step(Last(run), s', t)
    ensures Continues(run + [s'], run0) && Last(run + [s']) == s'
  {
    var more := run + [s'];
    assert more[0] == run[0] && run <= more && run0 <= more;
    forall j | 0 < j < |more| ensures StepAt(more, j) {
      if j < |run| {
        assert StepAt(run, j);
      } else {
        assert Step(more[j - 1], more[j], t);
      }
    }
  }

  lemma {:induction false} LastInv(run: seq<State>)
    requires IsRun(run)
    ensures Inv(Last(run))
  {
    RunsKeepInv(run, |run| - 1);
  }

  /** The action of t as the next step. */
  lemma {:induction false} ActNext(run: seq<State>, run0: seq<State>, t: Tid) returns (run': seq<State>)
    requires Continues(run, run0) && t in Last(run).pcs && Last(run).pcs[t] != Idle
    ensures t in Last(run).depth && Continues(run', run0) && Last(run') == Act(Last(run), t)
    ensures Inv(Last(run)) && Inv(Last(run'))
  {
    LastInv(run);
    var s' := Act(Last(run), t);
    run' := run + [s'];
    OneStep(run, run0, s', t);
    LastInv(run');
  }

  /** In a call of AssertHeld, or failed there. */
  predicate Checking(pc: Pc) {
    Starting(pc, AssertHeld) || pc == CheckOwner || pc == HeldCheckFailed
  }

  lemma {:induction false} ActChecking(s: State, t: Tid)
    requires t in s.pcs && t in s.depth && Checking(Act(s, t).pcs[t])
    ensures Checking(s.pcs[t])
  {
    if Using(s.pcs[t]) { UsingChecking(s, t); } else { InitializingChecking(s, t); }
  }

  lemma {:induction false} UsingChecking(s: State, t: Tid)
    requires t in s.pcs && t in s.depth && Using(s.pcs[t]) && Checking(ActUsing(s, t).pcs[t])
    ensures Checking(s.pcs[t])
  {
  }

  lemma {:induction false} InitializingChecking(s: State, t: Tid)
    requires t in s.pcs && t in s.depth && Checking(ActInitializing(s, t).pcs[t])
    ensures Checking(s.pcs[t])
  {
  }

  /** How many actions a call still takes at most. */
  function Rank(pc: Pc): nat {
    match pc
    case TestPhase(_) => 8
    case ClearFirst(_) => 7
    case Allocate(_) => 6
    case Initialize(_) => 5
    case Publish(_) => 4
    case Spin(_) => 4
    case Enter => 3
    case ClearOwner => 3
    case CheckOwner => 3
    case TakeOwner => 2
    case Leave => 2
    case _ => 0
  }

  lemma {:induction false} ActLowers(s: State, t: Tid)
    requires t in s.pcs && t in s.depth && Shared(s) && ThreadOk(s, t) && InCall(s.pcs[t]) && !Waits(s, t)
    ensures Rank(Act(s, t).pcs[t]) < Rank(s.pcs[t])
  {
    if Using(s.pcs[t]) { UsingLowers(s, t); } else { InitializingLowers(s, t); }
  }

  lemma {:induction false} UsingLowers(s: State, t: Tid)
    requires t in s.pcs && t in s.depth && Using(s.pcs[t]) && Shared(s) && ThreadOk(s, t) && !Waits(s, t)
    ensures Rank(ActUsing(s, t).pcs[t]) < Rank(s.pcs[t])
  {
  }

  lemma {:induction false} InitializingLowers(s: State, t: Tid)
    requires t in s.pcs && t in s.depth && !Using(s.pcs[t]) && InCall(s.pcs[t]) && !Waits(s, t)
    requires Shared(s) && ThreadOk(s, t)
    ensures Rank(ActInitializing(s, t).pcs[t]) < Rank(s.pcs[t])
  {
  }

  /** The section is free or held by t. */
  predicate HeldBy(s: State, t: Tid) {
    s.csOwner == 0 || s.csOwner == t
  }

  /** Nothing takes the section from t while only t acts, and nobody else moves. */
  lemma {:induction false} ActKeepsOwner(s: State, t: Tid)
    requires t in s.pcs && t in s.depth && Shared(s) && ThreadOk(s, t) && Ready(s)
    ensures Ready(Act(s, t)) && (HeldBy(s, t) ==> HeldBy(Act(s, t), t))
  {
  }

  /** t goes on alone until it returns, fails its check or waits. */
  lemma {:induction false} Solo(run: seq<State>, run0: seq<State>, t: Tid) returns (run': seq<State>)
    requires Continues(run, run0) && t in Last(run).pcs
    ensures Continues(run', run0) && Last(run').pcs.Keys == Last(run).pcs.Keys
    ensures InCall(Last(run').pcs[t]) ==> Waits(Last(run'), t)
    ensures Checking(Last(run').pcs[t]) ==> Checking(Last(run).pcs[t])
    ensures forall u :: u in Last(run).pcs && u != t ==> Last(run').pcs[u] == Last(run).pcs[u]
    ensures Ready(Last(run)) ==> Ready(Last(run'))
    ensures Ready(Last(run)) && HeldBy(Last(run), t) ==> HeldBy(Last(run'), t)
    decreases Rank(Last(run).pcs[t])
  {
    var s := Last(run);
    run' := run;
    if InCall(s.pcs[t]) && !Waits(s, t) {
      LastInv(run);
      assert ThreadOk(s, t);
      run' := ActNext(run, run0, t);
      ActLowers(s, t);
      if Ready(s) { ActKeepsOwner(s, t); }
      if Checking(Act(s, t).pcs[t]) { ActChecking(s, t); }
      run' := Solo(run', run0, t);
    }
  }

  /** The initialising thread goes on alone until the section is ready. */
  lemma {:induction false} InitializerFinishes(run: seq<State>, run0: seq<State>, u: Tid) returns (run': seq<State>)
    requires Continues(run, run0) && u in Last(run).pcs && Initializing(Last(run).pcs[u])
    ensures Continues(run', run0) && Last(run').pcs.Keys == Last(run).pcs.Keys && Ready(Last(run'))
    ensures forall v :: v in Last(run).pcs && v != u ==> Last(run').pcs[v] == Last(run).pcs[v]
    ensures Checking(Last(run').pcs[u]) ==> Checking(Last(run).pcs[u])
    decreases Rank(Last(run).pcs[u])
  {
    var s := Last(run);
    run' := ActNext(run, run0, u);
    assert ThreadOk(s, u);
    InitializerNext(s, u);
    if Checking(Act(s, u).pcs[u]) { ActChecking(s, u); }
    if Initializing(Last(run').pcs[u]) {
      run' := InitializerFinishes(run', run0, u);
    }
  }

  lemma {:induction false} InitializerNext(s: State, u: Tid)
    requires u in s.pcs && u in s.depth && Shared(s) && ThreadOk(s, u) && Initializing(s.pcs[u])
    ensures Rank(Act(s, u).pcs[u]) < Rank(s.pcs[u])
    ensures Initializing(Act(s, u).pcs[u]) || Ready(Act(s, u))
  {
  }

  /** A holder outside a call unlocks once. */
  lemma {:induction false} UnlocksOnce(run: seq<State>, run0: seq<State>, u: Tid) returns (run': seq<State>)
    requires Continues(run, run0) && u in Last(run).pcs && u in Last(run).depth
    requires Ready(Last(run)) && Last(run).pcs[u] == Idle && Last(run).depth[u] > 0
    ensures Continues(run', run0) && Last(run').pcs.Keys == Last(run).pcs.Keys && u in Last(run').depth
    ensures Last(run').pcs[u] == Idle && Last(run').depth[u] == Last(run).depth[u] - 1
    ensures Ready(Last(run')) && HeldBy(Last(run'), u)
    ensures forall v :: v in Last(run).pcs && v != u ==> Last(run').pcs[v] == Last(run).pcs[v]
  {
    var s := Last(run);
    LastInv(run);
    assert ThreadOk(s, u) && MayCall(s, u, Unlock);
    var s1 := Begin(s, u, Unlock);
    OneStep(run, run0, s1, u);
    BeginOnce(s, u, Unlock);
    run' := ActNext(run + [s1], run0, u);
    LeaveLast(s, Last(run'), u);
    run' := ActNext(run', run0, u);
    run' := ActNext(run', run0, u);
  }

  lemma {:induction false} LeaveLast(s: State, s2: State, u: Tid)
    requires u in s.pcs && u in s.depth && Shared(s) && ThreadOk(s, u) && Ready(s) && s.depth[u] > 0
    requires s2 == Go(Begin(s, u, Unlock), u, ClearOwner)
    ensures Act(s2, u).pcs[u] == Leave && Act(Act(s2, u), u).pcs.Keys == s.pcs.Keys
    ensures
      var s4 := Act(Act(s2, u), u);
      s4.pcs[u] == Idle && s4.depth[u] == s.depth[u] - 1 && Ready(s4) && HeldBy(s4, u)
    ensures forall v :: v in s.pcs && v != u ==> Act(Act(s2, u), u).pcs[v] == s.pcs[v]
  {
    var s3 := Go(s2, u, Leave).(owner := 0);
    assert Act(s2, u) == s3;
    ReleaseOne(s3, u);
  }

  lemma {:induction false} ReleaseOne(s: State, u: Tid)
    requires u in s.pcs && u in s.depth && s.pcs[u] == Leave && Ready(s)
    requires s.csOwner == u && s.depth[u] == s.csCount > 0
    ensures
      var s' := Act(s, u);
      && s'.pcs.Keys == s.pcs.Keys && s'.pcs[u] == Idle && s'.depth[u] == s.depth[u] - 1 && Ready(s') && HeldBy(s', u)
      && forall v :: v in s.pcs && v != u ==> s'.pcs[v] == s.pcs[v]
  {
  }

  /** A holder outside a call frees the section. */
  lemma {:induction false} Frees(run: seq<State>, run0: seq<State>, u: Tid) returns (run': seq<State>)
    requires Continues(run, run0) && u in Last(run).pcs && u in Last(run).depth
    requires Ready(Last(run)) && Last(run).pcs[u] == Idle && HeldBy(Last(run), u)
    ensures Continues(run', run0) && Last(run').pcs.Keys == Last(run).pcs.Keys
    ensures Last(run').csCount == 0 && Ready(Last(run'))
    ensures forall v :: v in Last(run).pcs && v != u ==> Last(run').pcs[v] == Last(run).pcs[v]
    decreases Last(run).depth[u]
  {
    var s := Last(run);
    LastInv(run);
    assert ThreadOk(s, u);
    run' := run;
    if s.csOwner == u {
      run' := UnlocksOnce(run, run0, u);
      run' := Frees(run', run0, u);
    }
  }

  /** Another thread holds the section and has failed a check that it was making in state s. */
  ghost predicate HolderFailed(s: State, s': State, t: Tid) {
    && s'.csOwner in s.pcs && s'.csOwner in s'.pcs && s'.csOwner != t
    && s'.pcs[s'.csOwner] == HeldCheckFailed && Checking(s.pcs[s'.csOwner])
  }

  /** The thread that t waits for lets the section go, or fails its check. */
  lemma {:induction false} HolderLets(run: seq<State>, run0: seq<State>, t: Tid, u: Tid) returns (run': seq<State>)
    requires Continues(run, run0) && t in Last(run).pcs && u in Last(run).pcs && u != t
    requires Ready(Last(run)) && Last(run).csOwner == u
    ensures Continues(run', run0) && Last(run').pcs.Keys == Last(run).pcs.Keys && Ready(Last(run'))
    ensures Last(run').csCount == 0 || HolderFailed(Last(run), Last(run'), t)
    ensures Last(run').pcs[t] == Last(run).pcs[t]
  {
    run' := Solo(run, run0, u);
    LastInv(run');
    assert ThreadOk(Last(run'), u);
    if Last(run').pcs[u] == Idle {
      run' := Frees(run', run0, u);
    }
  }

  /** A thread in a call whose section is ready can return, unless the holder fails its check. */
  lemma {:induction false} ReadyReturns(run: seq<State>, run0: seq<State>, t: Tid) returns (run': seq<State>)
    requires Continues(run, run0) && t in Last(run).pcs && Ready(Last(run))
    ensures Continues(run', run0) && t in Last(run').pcs
    ensures !InCall(Last(run').pcs[t]) || HolderFailed(Last(run), Last(run'), t)
  {
    run' := Solo(run, run0, t);
    LastInv(run');
    if InCall(Last(run').pcs[t]) {
      run' := HolderLets(run', run0, t, Last(run').csOwner);
      if Last(run').csCount == 0 {
        run' := EntersFree(run', run0, t);
      }
    }
  }

  lemma {:induction false} EntersFree(run: seq<State>, run0: seq<State>, t: Tid) returns (run': seq<State>)
    requires Continues(run, run0) && t in Last(run).pcs && Last(run).pcs[t] == Enter && Last(run).csCount == 0
    ensures Continues(run', run0) && t in Last(run').pcs && Last(run').pcs[t] == Idle
  {
    LastInv(run);
    assert ThreadOk(Last(run), t);
    EnterOnce(Last(run), t);
    run' := ActNext(run, run0, t);
    run' := ActNext(run', run0, t);
  }

  /** From every state of every run, whatever thread is in a call, the run can go on so that the
      call returns or fails its own check, unless another thread that holds the section is in
      a call of AssertHeld that fails. */
  lemma {:induction false} CallsCanReturn(run: seq<State>, t: Tid) returns (run': seq<State>)
    requires IsRun(run) && t in Last(run).pcs
    ensures Continues(run', run) && t in Last(run').pcs
    ensures !InCall(Last(run').pcs[t]) || HolderFailed(Last(run), Last(run'), t)
  {
    run' := Solo(run, run, t);
    if InCall(Last(run').pcs[t]) {
      LastInv(run');
      assert ThreadOk(Last(run'), t);
      if Last(run').pcs[t].Spin? {
        var u := Initializer(Last(run'));
        run' := InitializerFinishes(run', run, u);
      }
      run' := ReadyReturns(run', run, t);
    }
  }
}
