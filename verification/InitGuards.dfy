/** The guards of function-local static objects, components/cxx/cxx_guards.cpp, which
    implement the One-time Construction API of the Itanium C++ ABI (section 3.3.2).

    All guards share one mutex, one counting semaphore and one count of waiting tasks.
    The model is a transition system over any finite set of tasks and any guards: a step
    is one access of one task to the shared state, and tasks interleave freely. The
    scheduler is running and the semaphores exist. Between calls, a task may acquire any
    guard, and may release or abort any guard that it acquired and has not finished yet,
    so initialisers may be nested. */
module InitGuards {

  type Task = nat
  type Guard = nat

  /** Where a task is inside the three entry points. Up to WaitTake a name says what
      the task does next; the comments say whether it holds the mutex. */
  datatype Pc =
    | Idle                           // outside; may be running initialisers
    | AcqLock(g: Guard)              // __cxa_guard_acquire: take the mutex
    | AcqCheck(g: Guard)             //   holding: is the guard pending?
    | WaitCount(g: Guard)            // wait_for_guard_obj, holding: count myself
    | WaitGive(g: Guard)             //   holding: give the mutex
    | WaitTake(g: Guard)             //   take the semaphore
    | WaitLock(g: Guard)             //   take the mutex
    | WaitTest(g: Guard)             //   holding: is the guard still pending?
    | WaitLeave(g: Guard)            //   holding: discount myself
    | AcqTest(g: Guard)              //   holding: is the guard ready?
    | AcqGive(g: Guard, ret: bool)   //   holding: give the mutex, return
    | EndLock(g: Guard, ok: bool)    // __cxa_guard_release or _abort: take the mutex
    | EndClear(g: Guard, ok: bool)   //   holding: update the guard
    | EndCount(g: Guard)             // signal_waiting_tasks, holding: read the count
    | EndSignal(g: Guard, left: nat) //   holding: give the semaphore `left` times
    | EndGive(g: Guard)              //   holding: give the mutex, return

  datatype Mutex = Free | HeldBy(t: Task)

  /** A call that an idle task starts, or the next step of the call it is in. */
  datatype Action = Proceed | Acquire(g: Guard) | Finish(g: Guard, ok: bool)

  /** The shared variables, the position of every task, and the history: which guards a
      task was told to initialise and has not finished, and how often each guard was
      granted, released and aborted. */
  datatype State = State(
    mutex: Mutex,
    sem: nat,
    waiting: nat,
    ready: set<Guard>,
    pending: set<Guard>,
    pc: map<Task, Pc>,
    holds: map<Task, set<Guard>>,
    granted: multiset<Guard>,
    released: multiset<Guard>,
    aborted: multiset<Guard>)

  predicate InCritical(p: Pc)
  {
    !(p.Idle? || p.AcqLock? || p.WaitTake? || p.WaitLock? || p.EndLock?)
  }

  /** Inside the wait loop, between counting and discounting itself. */
  predicate Counted(p: Pc)
  {
    p.WaitGive? || p.WaitTake? || p.WaitLock? || p.WaitTest? || p.WaitLeave?
  }

  /** Before its take of the semaphore. */
  predicate Blocked(p: Pc)
  {
    p.WaitTake?
  }

  predicate Start(s: State)
  {
    && s.mutex == Free && s.sem == 0 && s.waiting == 0
    && s.ready == {} && s.pending == {}
    && s.holds.Keys == s.pc.Keys
    && (forall t :: t in s.pc ==> s.pc[t] == Idle && s.holds[t] == {})
    && s.granted == s.released == s.aborted == multiset{}
  }

  predicate Enabled(s: State, t: Task, a: Action)
  {
    && t in s.pc && t in s.holds
    && match s.pc[t]
       case Idle => a.Acquire? || (a.Finish? && a.g in s.holds[t])
       case AcqLock(_) => a == Proceed && s.mutex == Free
       case WaitLock(_) => a == Proceed && s.mutex == Free
       case EndLock(_, _) => a == Proceed && s.mutex == Free
       case WaitTake(_) => a == Proceed && s.sem > 0
       case WaitLeave(_) => a == Proceed && s.waiting > 0
       case _ => a == Proceed
  }

  function Move(s: State, t: Task, p: Pc): State
  {
    s.(pc := s.pc[t := p])
  }

  /** The guard becomes pending, and `t` is the one to initialise it. */
  function Grant(s: State, t: Task, g: Guard): State
    requires t in s.holds
  {
    s.(pending := s.pending + {g},
       holds := s.holds[t := s.holds[t] + {g}],
       granted := s.granted + multiset{g})
  }

  /** The guard is no longer pending; after a release it is ready. */
  function Clear(s: State, t: Task, g: Guard, ok: bool): State
    requires t in s.holds
  {
    s.(pending := s.pending - {g},
       ready := if ok then s.ready + {g} else s.ready,
       holds := s.holds[t := s.holds[t] - {g}],
       released := if ok then s.released + multiset{g} else s.released,
       aborted := if ok then s.aborted else s.aborted + multiset{g})
  }

  /** One step of task `t`. */
  function Step(s: State, t: Task, a: Action): State
    requires Enabled(s, t, a)
  {
    match s.pc[t]
    case Idle => Move(s, t, if a.Acquire? then AcqLock(a.g) else EndLock(a.g, a.ok))
    case AcqLock(g) => Move(s.(mutex := HeldBy(t)), t, AcqCheck(g))
    case AcqCheck(g) => Move(s, t, if g in s.pending then WaitCount(g) else AcqTest(g))
    case WaitCount(g) => Move(s.(waiting := s.waiting + 1), t, WaitGive(g))
    case WaitGive(g) => Move(s.(mutex := Free), t, WaitTake(g))
    case WaitTake(g) => Move(s.(sem := s.sem - 1), t, WaitLock(g))
    case WaitLock(g) => Move(s.(mutex := HeldBy(t)), t, WaitTest(g))
    case WaitTest(g) => Move(s, t, if g in s.pending then WaitGive(g) else WaitLeave(g))
    case WaitLeave(g) => Move(s.(waiting := s.waiting - 1), t, AcqTest(g))
    case AcqTest(g) =>
      if g in s.ready then Move(s, t, AcqGive(g, false))
      else Move(Grant(s, t, g), t, AcqGive(g, true))
    case AcqGive(g, _) => Move(s.(mutex := Free), t, Idle)
    case EndLock(g, ok) => Move(s.(mutex := HeldBy(t)), t, EndClear(g, ok))
    case EndClear(g, ok) => Move(Clear(s, t, g, ok), t, EndCount(g))
    case EndCount(g) => Move(s, t, EndSignal(g, s.waiting))
    case EndSignal(g, left) =>
      if left > 0 then Move(s.(sem := s.sem + 1), t, EndSignal(g, left - 1)) else Move(s, t, EndGive(g))
    case EndGive(_) => Move(s.(mutex := Free), t, Idle)
  }

  type Schedule = seq<(Task, Action)>

  /** The steps of a schedule can be taken one after the other. */
  predicate Runs(s: State, acts: Schedule)
    decreases acts
  {
    acts == [] || (Enabled(s, acts[0].0, acts[0].1) && Runs(Step(s, acts[0].0, acts[0].1), acts[1..]))
  }

  function Run(s: State, acts: Schedule): State
    requires Runs(s, acts)
    decreases acts
  {
    if acts == [] then s else Run(Step(s, acts[0].0, acts[0].1), acts[1..])
  }

  // ---- Invariants ----

  /** Exactly the task that holds the mutex is in a critical section. */
  ghost predicate MutexInv(s: State)
  {
    && s.holds.Keys == s.pc.Keys
    && (s.mutex.HeldBy? ==> s.mutex.t in s.pc)
    && forall t :: t in s.pc ==> Exclusive(s, t)
  }

  ghost predicate Exclusive(s: State, t: Task)
    requires t in s.pc
  {
    InCritical(s.pc[t]) <==> s.mutex == HeldBy(t)
  }

  /** A guard is pending while exactly one task initialises it, and is then not ready. */
  ghost predicate HoldInv(s: State)
  {
    && s.holds.Keys == s.pc.Keys
    && s.pending !! s.ready
    && (forall t, g :: t in s.holds && g in s.holds[t] ==> g in s.pending)
    && (forall g :: g in s.pending ==> exists t :: t in s.holds && g in s.holds[t])
    && (forall t, u, g :: t in s.holds && u in s.holds && g in s.holds[t] && g in s.holds[u] ==> t == u)
  }

  /** What a position inside a call says about its guard. */
  ghost predicate Place(s: State, t: Task)
    requires t in s.pc && t in s.holds
  {
    match s.pc[t]
    case WaitCount(g) => g in s.pending
    case WaitGive(g) => g in s.pending
    case WaitLeave(g) => g !in s.pending
    case AcqTest(g) => g !in s.pending
    case AcqGive(g, ret) => if ret then g in s.holds[t] else g in s.ready
    case EndLock(g, _) => g in s.holds[t]
    case EndClear(g, _) => g in s.holds[t]
    case _ => true
  }

  ghost predicate PlaceInv(s: State)
  {
    s.holds.Keys == s.pc.Keys && forall t :: t in s.pc ==> Place(s, t)
  }

  /** Every grant is either finished once or still pending, and a guard is released at
      most once. */
  ghost predicate TallyInv(s: State)
  {
    forall g ::
      && s.granted[g] == s.released[g] + s.aborted[g] + (if g in s.pending then 1 else 0)
      && s.released[g] == (if g in s.ready then 1 else 0)
  }

  ghost function Where(pc: map<Task, Pc>, f: Pc -> bool): set<Task>
  {
    set t | t in pc && f(pc[t])
  }

  /** Tokens that the task inside signal_waiting_tasks still has to give. */
  ghost function Owed(s: State): nat
  {
    if s.mutex.HeldBy? && s.mutex.t in s.pc then
      match s.pc[s.mutex.t]
      case EndCount(_) => s.waiting
      case EndSignal(_, left) => left
      case _ => 0
    else 0
  }

  /** The count of waiting tasks is exact. */
  ghost predicate CountInv(s: State)
  {
    s.waiting == |Where(s.pc, Counted)|
  }

  /** Inside the wait loop for a guard that is still pending. */
  predicate Stays(s: State, t: Task)
    requires t in s.pc
  {
    Counted(s.pc[t]) && s.pc[t].g in s.pending
  }

  ghost predicate SomeoneStays(s: State)
  {
    exists t :: t in s.pc && Stays(s, t)
  }

  /** Unless some task waits for a guard that is still pending, there is a token for every
      blocked task, counting the tokens that are about to be given. */
  ghost predicate WakeInv(s: State)
  {
    !SomeoneStays(s) ==> s.sem + Owed(s) >= |Where(s.pc, Blocked)|
  }

  ghost predicate Inv(s: State)
  {
    MutexInv(s) && HoldInv(s) && PlaceInv(s) && TallyInv(s) && CountInv(s) && WakeInv(s)
  }

  // ---- Every step keeps the invariants ----

  lemma StartInv(s: State)
    requires Start(s)
    ensures Inv(s)
  {
    assert Where(s.pc, Counted) == {} && Where(s.pc, Blocked) == {};
  }

  lemma MutexStep(s: State, t: Task, a: Action)
    requires MutexInv(s) && Enabled(s, t, a)
    ensures MutexInv(Step(s, t, a))
  {
    assert Exclusive(s, t);
    forall u | u in s.pc
      ensures Exclusive(Step(s, t, a), u)
    {
      assert Exclusive(s, u);
    }
  }

  lemma HoldGrant(s: State, t: Task, g: Guard)
    requires HoldInv(s) && t in s.holds && g !in s.ready && g !in s.pending
    ensures HoldInv(Grant(s, t, g).(pc := s.pc))
  {
    var s' := Grant(s, t, g);
    forall h | h in s'.pending
      ensures exists u :: u in s'.holds && h in s'.holds[u]
    {
      if h == g {
        assert h in s'.holds[t];
      } else {
        var u :| u in s.holds && h in s.holds[u];
        assert h in s'.holds[u];
      }
    }
  }

  lemma HoldClear(s: State, t: Task, g: Guard, ok: bool)
    requires HoldInv(s) && t in s.holds && g in s.holds[t]
    ensures HoldInv(Clear(s, t, g, ok))
  {
    var s' := Clear(s, t, g, ok);
    forall h | h in s'.pending
      ensures exists u :: u in s'.holds && h in s'.holds[u]
    {
      var u :| u in s.holds && h in s.holds[u];
      assert h in s'.holds[u];
    }
  }

  lemma HoldMove(s: State, s': State)
    requires HoldInv(s) && s'.pending == s.pending && s'.ready == s.ready
    requires s'.holds == s.holds && s'.pc.Keys == s.pc.Keys
    ensures HoldInv(s')
  {
  }

  /** The only steps that change a guard are those that grant it or clear it. */
  predicate Quiet(s: State, p: Pc)
  {
    !(p.AcqTest? && p.g !in s.ready) && !p.EndClear?
  }

  lemma QuietStep(s: State, t: Task, a: Action)
    requires Enabled(s, t, a) && Quiet(s, s.pc[t])
    ensures var s' := Step(s, t, a);
            && s'.pending == s.pending && s'.ready == s.ready && s'.holds == s.holds
            && s'.granted == s.granted && s'.released == s.released && s'.aborted == s.aborted
            && s'.pc.Keys == s.pc.Keys
  {
  }

  lemma HoldStep(s: State, t: Task, a: Action)
    requires HoldInv(s) && PlaceInv(s) && Enabled(s, t, a)
    ensures HoldInv(Step(s, t, a))
  {
    if Quiet(s, s.pc[t]) {
      QuietStep(s, t, a);
      HoldMove(s, Step(s, t, a));
    } else {
      LoudHoldStep(s, t, a);
    }
  }

  lemma LoudHoldStep(s: State, t: Task, a: Action)
    requires HoldInv(s) && PlaceInv(s) && Enabled(s, t, a) && !Quiet(s, s.pc[t])
    ensures HoldInv(Step(s, t, a))
  {
    var g := s.pc[t].g;
    if s.pc[t].AcqTest? {
      HoldGrant(s, t, g);
      HoldMove(Grant(s, t, g), Step(s, t, a));
    } else {
      HoldClear(s, t, g, s.pc[t].ok);
      HoldMove(Clear(s, t, g, s.pc[t].ok), Step(s, t, a));
    }
  }

  lemma PlaceSelf(s: State, t: Task, a: Action)
    requires s.holds.Keys == s.pc.Keys && Enabled(s, t, a) && Place(s, t)
    ensures Place(Step(s, t, a), t)
  {
  }

  /** Another task's step cannot disturb `u`: only the task in a critical section changes
      the guards, and then `u` is in none. */
  lemma PlaceOther(s: State, t: Task, a: Action, u: Task)
    requires MutexInv(s) && Enabled(s, t, a) && u in s.pc && u != t && Place(s, u)
    ensures Place(Step(s, t, a), u)
  {
    assert Exclusive(s, t) && Exclusive(s, u);
  }

  lemma PlaceStep(s: State, t: Task, a: Action)
    requires MutexInv(s) && PlaceInv(s) && Enabled(s, t, a)
    ensures PlaceInv(Step(s, t, a))
  {
    forall u | u in s.pc
      ensures Place(Step(s, t, a), u)
    {
      if u == t {
        PlaceSelf(s, t, a);
      } else {
        PlaceOther(s, t, a, u);
      }
    }
  }

  lemma TallyStep(s: State, t: Task, a: Action)
    requires HoldInv(s) && PlaceInv(s) && TallyInv(s) && Enabled(s, t, a)
    ensures TallyInv(Step(s, t, a))
  {
    if Quiet(s, s.pc[t]) {
      QuietStep(s, t, a);
    } else {
      assert s.pc[t].AcqTest? ==> s.pc[t].g !in s.pending;
      assert s.pc[t].EndClear? ==> s.pc[t].g in s.pending && s.pc[t].g !in s.ready;
    }
  }

  lemma CountMove(pc: map<Task, Pc>, t: Task, p: Pc, f: Pc -> bool)
    requires t in pc
    ensures |Where(pc[t := p], f)| == |Where(pc, f)| - (if f(pc[t]) then 1 else 0) + (if f(p) then 1 else 0)
  {
    var others := Where(pc, f) - {t};
    assert Where(pc, f) == if f(pc[t]) then others + {t} else others;
    assert Where(pc[t := p], f) == if f(p) then others + {t} else others;
  }

  lemma CountStep(s: State, t: Task, a: Action)
    requires CountInv(s) && Enabled(s, t, a)
    ensures CountInv(Step(s, t, a))
  {
    CountMove(s.pc, t, Step(s, t, a).pc[t], Counted);
  }

  lemma BlockedAreCounted(pc: map<Task, Pc>)
    ensures |Where(pc, Blocked)| <= |Where(pc, Counted)|
  {
    assert Where(pc, Counted) == Where(pc, Blocked) + (Where(pc, Counted) - Where(pc, Blocked));
  }

  /** A task that waits for a pending guard goes on to do so until some guard is cleared. */
  lemma StaysStep(s: State, t: Task, a: Action, u: Task)
    requires Enabled(s, t, a) && Place(s, t) && !s.pc[t].EndClear?
    requires u in s.pc && Stays(s, u)
    ensures Stays(Step(s, t, a), u)
  {
  }

  lemma WakeStep(s: State, t: Task, a: Action)
    requires MutexInv(s) && PlaceInv(s) && CountInv(s) && WakeInv(s) && Enabled(s, t, a)
    ensures WakeInv(Step(s, t, a))
  {
    if SomeoneStays(s) && !s.pc[t].EndClear? {
      var u :| u in s.pc && Stays(s, u);
      assert Place(s, t);
      StaysStep(s, t, a, u);
    }
    CountMove(s.pc, t, Step(s, t, a).pc[t], Blocked);
    BlockedAreCounted(s.pc);
  }

  lemma StepInv(s: State, t: Task, a: Action)
    requires Inv(s) && Enabled(s, t, a)
    ensures Inv(Step(s, t, a))
  {
    MutexStep(s, t, a);
    HoldStep(s, t, a);
    PlaceStep(s, t, a);
    TallyStep(s, t, a);
    CountStep(s, t, a);
    WakeStep(s, t, a);
  }

  lemma {:induction false} RunInv(s: State, acts: Schedule)
    requires Inv(s) && Runs(s, acts)
    ensures Inv(Run(s, acts))
    decreases acts
  {
    if acts != [] {
      var s' := Step(s, acts[0].0, acts[0].1);
      StepInv(s, acts[0].0, acts[0].1);
      RunInv(s', acts[1..]);
    }
  }

  // ---- What the protocol guarantees ----

  /** Exactly-once initialisation, at every step of every interleaving. */
  lemma ExactlyOnce(s: State, acts: Schedule)
    requires Start(s) && Runs(s, acts)
    ensures var s' := Run(s, acts);
            && s'.holds.Keys == s'.pc.Keys
            && (forall t, u, g :: t in s'.holds && u in s'.holds && g in s'.holds[t] && g in s'.holds[u] ==> t == u)
            && s'.pending !! s'.ready
            && (forall g :: s'.released[g] <= 1 && (g in s'.ready <==> s'.released[g] == 1))
            && (forall g :: s'.granted[g] == s'.released[g] + s'.aborted[g] + (if g in s'.pending then 1 else 0))
  {
    StartInv(s);
    RunInv(s, acts);
  }

  /** How often a run takes a step of a call that ends an initialisation: the start of the call
      (`started`) or its update of the guard. */
  function EndsIn(s: State, acts: Schedule, g: Guard, ok: bool, started: bool): nat
    requires Runs(s, acts)
    decreases acts
  {
    if acts == [] then 0
    else
      var t, a := acts[0].0, acts[0].1;
      (if (if started then s.pc[t] == Idle && a == Finish(g, ok) else s.pc[t] == EndClear(g, ok)) then 1 else 0)
      + EndsIn(Step(s, t, a), acts[1..], g, ok, started)
  }

  /** How often a run takes a step in which an acquire of `g` is answered. */
  function AnswersIn(s: State, acts: Schedule, g: Guard, ret: bool): nat
    requires Runs(s, acts)
    decreases acts
  {
    if acts == [] then 0
    else
      (if s.pc[acts[0].0] == AcqGive(g, ret) then 1 else 0)
      + AnswersIn(Step(s, acts[0].0, acts[0].1), acts[1..], g, ret)
  }

  /** The tally of releases counts the calls of release that got past their update, that of
      aborts those of abort, and a guard is ready if and only if it was so at first or a release
      got past its update. */
  lemma {:induction false} TalliesCount(s: State, acts: Schedule, g: Guard)
    requires Runs(s, acts)
    ensures var s' := Run(s, acts);
            && s'.released[g] == s.released[g] + EndsIn(s, acts, g, true, false)
            && s'.aborted[g] == s.aborted[g] + EndsIn(s, acts, g, false, false)
            && (g in s'.ready <==> g in s.ready || EndsIn(s, acts, g, true, false) > 0)
    decreases acts
  {
    if acts != [] {
      TalliesCount(Step(s, acts[0].0, acts[0].1), acts[1..], g);
    }
  }

  predicate Ending(p: Pc, g: Guard, ok: bool)
  {
    p == EndLock(g, ok) || p == EndClear(g, ok)
  }

  /** Every call of release or abort that started has got past its update, or is on its way
      there: no call turns into another one. */
  lemma {:induction false} EndsAreStarted(s: State, acts: Schedule, g: Guard, ok: bool)
    requires Runs(s, acts)
    ensures EndsIn(s, acts, g, ok, true) + |Where(s.pc, (p: Pc) => Ending(p, g, ok))|
            == EndsIn(s, acts, g, ok, false) + |Where(Run(s, acts).pc, (p: Pc) => Ending(p, g, ok))|
    decreases acts
  {
    if acts != [] {
      var t, a := acts[0].0, acts[0].1;
      EndsAreStarted(Step(s, t, a), acts[1..], g, ok);
      CountMove(s.pc, t, Step(s, t, a).pc[t], (p: Pc) => Ending(p, g, ok));
    }
  }

  /** The tally of grants counts the acquires that were answered 1 or are about to be. */
  lemma {:induction false} GrantsCount(s: State, acts: Schedule, g: Guard)
    requires Runs(s, acts)
    ensures Run(s, acts).granted[g] + |Where(s.pc, (p: Pc) => p == AcqGive(g, true))|
            == s.granted[g] + AnswersIn(s, acts, g, true) + |Where(Run(s, acts).pc, (p: Pc) => p == AcqGive(g, true))|
    decreases acts
  {
    if acts != [] {
      var t, a := acts[0].0, acts[0].1;
      GrantsCount(Step(s, t, a), acts[1..], g);
      CountMove(s.pc, t, Step(s, t, a).pc[t], (p: Pc) => p == AcqGive(g, true));
    }
  }

  /** From the start: a guard is ready if and only if a release of it got past its update. */
  lemma ReadyIffReleased(s: State, acts: Schedule, g: Guard)
    requires Start(s) && Runs(s, acts)
    ensures var s' := Run(s, acts);
            && s'.released[g] == EndsIn(s, acts, g, true, false)
            && s'.aborted[g] == EndsIn(s, acts, g, false, false)
            && (g in s'.ready <==> EndsIn(s, acts, g, true, false) > 0)
  {
    TalliesCount(s, acts, g);
  }

  /** After an abort the guard is as if it had never been acquired. */
  lemma AbortResets(s: State, t: Task, g: Guard)
    requires Inv(s) && t in s.pc && s.pc[t] == EndClear(g, false)
    ensures Enabled(s, t, Proceed)
    ensures var s' := Step(s, t, Proceed);
            g !in s'.pending && g !in s'.ready && s'.aborted[g] == s.aborted[g] + 1 && s'.released[g] == s.released[g]
  {
    assert Place(s, t);
  }

  /** The assertions of release and abort never fail: the guard that a task is about to
      clear is pending and not ready. A task that was answered 1 initialises alone, and a
      task that was answered 0 finds the guard ready. */
  lemma CallsAreSound(s: State, acts: Schedule, t: Task)
    requires Start(s) && Runs(s, acts) && t in Run(s, acts).pc
    ensures var s' := Run(s, acts);
            && t in s'.holds
            && match s'.pc[t]
               case EndClear(g, _) => g in s'.pending && g !in s'.ready
               case AcqGive(g, ret) => ret == (g in s'.holds[t]) && !ret == (g in s'.ready)
               case _ => true
  {
    StartInv(s);
    RunInv(s, acts);
    assert Place(Run(s, acts), t);
  }

  /** Once a guard is ready it stays ready, and no acquire is answered 1 any more. */
  lemma {:induction false} ReadyIsFinal(s: State, acts: Schedule, g: Guard)
    requires Inv(s) && g in s.ready && Runs(s, acts)
    ensures var s' := Run(s, acts);
            g in s'.ready && s'.granted[g] == s.granted[g]
            && s'.released[g] == s.released[g] && s'.aborted[g] == s.aborted[g]
    decreases acts
  {
    if acts != [] {
      var t, a := acts[0].0, acts[0].1;
      StepInv(s, t, a);
      if Quiet(s, s.pc[t]) {
        QuietStep(s, t, a);
      } else {
        assert Place(s, t);
        assert s.pc[t].g != g;
      }
      ReadyIsFinal(Step(s, t, a), acts[1..], g);
    }
  }

  /** The waiting count is the number of tasks inside the wait loop. */
  lemma WaitingIsExact(s: State, acts: Schedule)
    requires Start(s) && Runs(s, acts)
    ensures Run(s, acts).waiting == |Where(Run(s, acts).pc, Counted)|
  {
    StartInv(s);
    RunInv(s, acts);
  }

  ghost predicate Signalling(s: State)
  {
    exists t :: t in s.pc && (s.pc[t].EndCount? || s.pc[t].EndSignal?)
  }

  /** When no task waits for a guard that is still pending and nobody is signalling, there is
      a token for every task that waits for one. */
  lemma NobodyStranded(s: State, acts: Schedule)
    requires Start(s) && Runs(s, acts)
    ensures var s' := Run(s, acts);
            !SomeoneStays(s') && !Signalling(s') ==> s'.sem >= |Where(s'.pc, Blocked)|
  {
    StartInv(s);
    RunInv(s, acts);
  }

  /** Tokens are not tied to guards: a task that waits for a guard that is still pending
      can take a token and go back to waiting, which changes nothing but the number of
      tokens. */
  lemma TokenTheft(s: State, t: Task)
    requires t in s.pc && t in s.holds && s.pc[t].WaitTake? && s.pc[t].g in s.pending
    requires s.mutex == Free && s.sem > 0
    ensures Runs(s, Steps(t, 4)) && Run(s, Steps(t, 4)) == s.(sem := s.sem - 1)
  {
    var s1 := Step(s, t, Proceed);
    var s2 := Step(s1, t, Proceed);
    var s3 := Step(s2, t, Proceed);
    assert Step(s3, t, Proceed).pc == s.pc;
    OneStep(s3, t, Steps(t, 0));
    OneStep(s2, t, Steps(t, 1));
    OneStep(s1, t, Steps(t, 2));
    OneStep(s, t, Steps(t, 3));
  }

  /** `n` steps of one call. */
  function Steps(t: Task, n: nat): Schedule
  {
    if n == 0 then [] else [(t, Proceed)] + Steps(t, n - 1)
  }

  lemma {:induction false} RunsAppend(s: State, a: Schedule, b: Schedule)
    requires Runs(s, a) && Runs(Run(s, a), b)
    ensures Runs(s, a + b) && Run(s, a + b) == Run(Run(s, a), b)
    decreases a
  {
    if a == [] {
      assert a + b == b;
    } else {
      assert (a + b)[1..] == a[1..] + b;
      RunsAppend(Step(s, a[0].0, a[0].1), a[1..], b);
    }
  }

  lemma {:induction false} StepsAppend(t: Task, m: nat, n: nat)
    ensures Steps(t, m) + Steps(t, n) == Steps(t, m + n)
  {
    if m > 0 {
      StepsAppend(t, m - 1, n);
    }
  }

  /** One such task can use up all tokens, and leave every other waiter without one. */
  lemma {:induction false} TokensDrained(s: State, t: Task, k: nat)
    requires t in s.pc && t in s.holds && s.pc[t].WaitTake? && s.pc[t].g in s.pending
    requires s.mutex == Free && s.sem == k
    ensures Runs(s, Steps(t, 4 * k)) && Run(s, Steps(t, 4 * k)) == s.(sem := 0)
    decreases k
  {
    if k > 0 {
      TokenTheft(s, t);
      var s' := s.(sem := s.sem - 1);
      TokensDrained(s', t, k - 1);
      RunsAppend(s, Steps(t, 4), Steps(t, 4 * (k - 1)));
      StepsAppend(t, 4, 4 * (k - 1));
    }
  }

  // ---- A stranded waiter ----

  /** Four tasks in this order: the first two initialise the guards 0 and 1, the third waits
      for guard 0 and the fourth for guard 1; guard 0 is released; the fourth takes both
      tokens and waits again. */
  function StrandingSchedule(): Schedule
  {
    (Call(0, Acquire(0), 4) + Call(1, Acquire(1), 4)) + (Call(2, Acquire(0), 4) + Call(3, Acquire(1), 4))
    + Call(0, Finish(0, true), 7) + Steps(3, 8)
  }

  function Call(t: Task, a: Action, n: nat): Schedule
  {
    [(t, a)] + Steps(t, n)
  }

  lemma CallGrants(s: State, t: Task, g: Guard)
    requires t in s.pc && t in s.holds && s.pc[t] == Idle && s.mutex == Free
    requires g !in s.pending && g !in s.ready
    ensures Runs(s, Call(t, Acquire(g), 4)) && Run(s, Call(t, Acquire(g), 4)) == Grant(s, t, g)
  {
    var s0 := Step(s, t, Acquire(g));
    var s1 := Step(s0, t, Proceed);
    var s2 := Step(s1, t, Proceed);
    var s3 := Step(s2, t, Proceed);
    OneStep(s3, t, Steps(t, 0));
    OneStep(s2, t, Steps(t, 1));
    OneStep(s1, t, Steps(t, 2));
    OneStep(s0, t, Steps(t, 3));
    FirstStep(s, t, Acquire(g), Steps(t, 4));
    assert Step(s3, t, Proceed).pc == s.pc;
  }

  /** An acquire of a guard that is not pending, while nobody holds the mutex, is answered 1 if
      and only if the guard is not ready. */
  lemma AcquireAnswered(s: State, t: Task, g: Guard)
    requires t in s.pc && t in s.holds && s.pc[t] == Idle && s.mutex == Free && g !in s.pending
    ensures Runs(s, Call(t, Acquire(g), 3))
    ensures Run(s, Call(t, Acquire(g), 3)).pc == s.pc[t := AcqGive(g, g !in s.ready)]
  {
    var s0 := Step(s, t, Acquire(g));
    var s1 := Step(s0, t, Proceed);
    var s2 := Step(s1, t, Proceed);
    OneStep(s2, t, Steps(t, 0));
    OneStep(s1, t, Steps(t, 1));
    OneStep(s0, t, Steps(t, 2));
    FirstStep(s, t, Acquire(g), Steps(t, 3));
    assert Step(s2, t, Proceed).pc == s.pc[t := AcqGive(g, g !in s.ready)];
  }

  /** The same for a task that waited for the guard and has its token. */
  lemma WaiterAnswered(s: State, t: Task, g: Guard)
    requires t in s.pc && t in s.holds && s.pc[t] == WaitLock(g) && s.mutex == Free && g !in s.pending
    requires s.waiting > 0
    ensures Runs(s, Steps(t, 4))
    ensures Run(s, Steps(t, 4)).pc == s.pc[t := AcqGive(g, g !in s.ready)]
  {
    var s1 := Step(s, t, Proceed);
    var s2 := Step(s1, t, Proceed);
    var s3 := Step(s2, t, Proceed);
    OneStep(s3, t, Steps(t, 0));
    OneStep(s2, t, Steps(t, 1));
    OneStep(s1, t, Steps(t, 2));
    OneStep(s, t, Steps(t, 3));
    assert Step(s3, t, Proceed).pc == s.pc[t := AcqGive(g, g !in s.ready)];
  }

  lemma CallWaits(s: State, t: Task, g: Guard)
    requires t in s.pc && t in s.holds && s.pc[t] == Idle && s.mutex == Free && g in s.pending
    ensures Runs(s, Call(t, Acquire(g), 4))
    ensures Run(s, Call(t, Acquire(g), 4)) == s.(waiting := s.waiting + 1, pc := s.pc[t := WaitTake(g)])
  {
    var s0 := Step(s, t, Acquire(g));
    var s1 := Step(s0, t, Proceed);
    var s2 := Step(s1, t, Proceed);
    var s3 := Step(s2, t, Proceed);
    OneStep(s3, t, Steps(t, 0));
    OneStep(s2, t, Steps(t, 1));
    OneStep(s1, t, Steps(t, 2));
    OneStep(s0, t, Steps(t, 3));
    FirstStep(s, t, Acquire(g), Steps(t, 4));
    assert Step(s3, t, Proceed).pc == s.pc[t := WaitTake(g)];
  }

  lemma CallSplit(t: Task, a: Action, m: nat, n: nat)
    ensures Call(t, a, m) + Steps(t, n) == Call(t, a, m + n)
  {
    StepsAppend(t, m, n);
  }

  /** The shared state after a whole call of release (`ok`) or abort: the guard is not pending,
      it is ready after a release only, and every waiting task gets one token. */
  function Ended(s: State, t: Task, g: Guard, ok: bool): State
    requires t in s.holds
  {
    s.(pending := s.pending - {g},
       ready := s.ready + (if ok then {g} else {}),
       holds := s.holds[t := s.holds[t] - {g}],
       released := s.released + (if ok then multiset{g} else multiset{}),
       aborted := s.aborted + (if ok then multiset{} else multiset{g}),
       sem := s.sem + s.waiting)
  }

  /** The state of such a call that has read the count. */
  function Signalled(s: State, t: Task, g: Guard, ok: bool): State
    requires t in s.holds
  {
    Ended(s, t, g, ok).(sem := s.sem, mutex := HeldBy(t), pc := s.pc[t := EndSignal(g, s.waiting)])
  }

  lemma CallLocks(s: State, t: Task, g: Guard, ok: bool)
    requires t in s.pc && t in s.holds && s.pc[t] == Idle && s.mutex == Free && g in s.holds[t]
    ensures Runs(s, Call(t, Finish(g, ok), 1))
    ensures Run(s, Call(t, Finish(g, ok), 1)) == s.(mutex := HeldBy(t), pc := s.pc[t := EndClear(g, ok)])
  {
    var s0 := Step(s, t, Finish(g, ok));
    OneStep(s0, t, Steps(t, 0));
    FirstStep(s, t, Finish(g, ok), Steps(t, 1));
    assert Step(s0, t, Proceed).pc == s.pc[t := EndClear(g, ok)];
  }

  lemma CallCounts(s: State, t: Task, g: Guard, ok: bool)
    requires t in s.pc && t in s.holds && s.pc[t] == EndClear(g, ok)
    ensures Runs(s, Steps(t, 2))
    ensures Run(s, Steps(t, 2)) == Ended(s, t, g, ok).(sem := s.sem, pc := s.pc[t := EndSignal(g, s.waiting)])
  {
    var s1 := Step(s, t, Proceed);
    OneStep(s1, t, Steps(t, 0));
    OneStep(s, t, Steps(t, 1));
    ClearEnds(s, t, g, ok);
    assert Step(s1, t, Proceed).pc == s.pc[t := EndSignal(g, s.waiting)];
  }

  lemma CallClears(s: State, t: Task, g: Guard, ok: bool)
    requires t in s.pc && t in s.holds && s.pc[t] == Idle && s.mutex == Free && g in s.holds[t]
    ensures Runs(s, Call(t, Finish(g, ok), 3))
    ensures Run(s, Call(t, Finish(g, ok), 3)) == Signalled(s, t, g, ok)
  {
    CallLocks(s, t, g, ok);
    var locked := s.(mutex := HeldBy(t), pc := s.pc[t := EndClear(g, ok)]);
    CallCounts(locked, t, g, ok);
    RunsAppend(s, Call(t, Finish(g, ok), 1), Steps(t, 2));
    CallSplit(t, Finish(g, ok), 1, 2);
    assert locked.pc[t := EndSignal(g, s.waiting)] == s.pc[t := EndSignal(g, s.waiting)];
  }

  lemma ClearEnds(s: State, t: Task, g: Guard, ok: bool)
    requires t in s.holds
    ensures Clear(s, t, g, ok) == Ended(s, t, g, ok).(sem := s.sem)
  {
    assert s.ready + {} == s.ready;
    assert s.released + multiset{} == s.released && s.aborted + multiset{} == s.aborted;
  }

  lemma {:induction false} CallSignals(s: State, t: Task, g: Guard, k: nat)
    requires t in s.pc && t in s.holds && s.pc[t] == EndSignal(g, k)
    ensures Runs(s, Steps(t, k + 2))
    ensures Run(s, Steps(t, k + 2)) == s.(mutex := Free, sem := s.sem + k, pc := s.pc[t := Idle])
    decreases k
  {
    var s1 := Step(s, t, Proceed);
    if k == 0 {
      OneStep(s1, t, Steps(t, 0));
      OneStep(s, t, Steps(t, 1));
      assert Step(s1, t, Proceed).pc == s.pc[t := Idle];
    } else {
      CallSignals(s1, t, g, k - 1);
      OneStep(s, t, Steps(t, k + 1));
      assert s1.pc[t := Idle] == s.pc[t := Idle];
    }
  }

  /** A call of release or abort that nothing interrupts. */
  lemma CallEnds(s: State, t: Task, g: Guard, ok: bool)
    requires t in s.pc && t in s.holds && s.pc[t] == Idle && s.mutex == Free && g in s.holds[t]
    ensures Runs(s, Call(t, Finish(g, ok), s.waiting + 5))
    ensures Run(s, Call(t, Finish(g, ok), s.waiting + 5)) == Ended(s, t, g, ok)
  {
    var first, signals := Call(t, Finish(g, ok), 3), Steps(t, s.waiting + 2);
    CallClears(s, t, g, ok);
    CallSignals(Signalled(s, t, g, ok), t, g, s.waiting);
    RunsAppend(s, first, signals);
    CallSplit(t, Finish(g, ok), 3, s.waiting + 2);
    SignalledEnds(s, t, g, ok);
  }

  lemma SignalledEnds(s: State, t: Task, g: Guard, ok: bool)
    requires t in s.pc && t in s.holds && s.pc[t] == Idle && s.mutex == Free
    ensures var l := Signalled(s, t, g, ok);
            l.(mutex := Free, sem := l.sem + s.waiting, pc := l.pc[t := Idle]) == Ended(s, t, g, ok)
  {
    assert s.pc[t := EndSignal(g, s.waiting)][t := Idle] == s.pc;
  }

  /** Guard 0 is ready, and outside the wait loops nothing is in progress, but the task that
      waits for guard 0 has no token. */
  predicate Stranded(s: State)
  {
    && s.mutex == Free && s.sem == 0 && 0 in s.ready
    && s.pc == WAITING
  }

  predicate Initialising(s: State, pc: map<Task, Pc>, waiting: nat)
  {
    && s.mutex == Free && s.sem == 0 && s.waiting == waiting && s.pc == pc
    && s.pending == {0, 1} && s.ready == {} && s.holds.Keys == s.pc.Keys && 0 in s.holds && 0 in s.holds[0]
  }

  const OUTSIDE: map<Task, Pc> := map[0 := Idle, 1 := Idle, 2 := Idle, 3 := Idle]
  const WAITING: map<Task, Pc> := map[0 := Idle, 1 := Idle, 2 := WaitTake(0), 3 := WaitTake(1)]

  lemma TwoInitialise(s: State)
    requires Start(s) && s.pc == OUTSIDE
    ensures var acts := Call(0, Acquire(0), 4) + Call(1, Acquire(1), 4);
            Runs(s, acts) && Initialising(Run(s, acts), OUTSIDE, 0)
  {
    CallGrants(s, 0, 0);
    CallGrants(Grant(s, 0, 0), 1, 1);
    RunsAppend(s, Call(0, Acquire(0), 4), Call(1, Acquire(1), 4));
  }

  lemma TwoWait(s: State)
    requires Initialising(s, OUTSIDE, 0)
    ensures var acts := Call(2, Acquire(0), 4) + Call(3, Acquire(1), 4);
            Runs(s, acts) && Initialising(Run(s, acts), WAITING, 2)
  {
    CallWaits(s, 2, 0);
    CallWaits(Run(s, Call(2, Acquire(0), 4)), 3, 1);
    RunsAppend(s, Call(2, Acquire(0), 4), Call(3, Acquire(1), 4));
  }

  /** Guard 0 was released, and both waiters were given a token. */
  predicate TwoTokens(s: State)
  {
    && s.mutex == Free && s.sem == 2 && s.pc == WAITING && s.holds.Keys == s.pc.Keys
    && 0 in s.ready && 1 in s.pending
  }

  lemma OneReleases(s: State)
    requires Initialising(s, WAITING, 2)
    ensures var acts := Call(0, Finish(0, true), 7);
            Runs(s, acts) && TwoTokens(Run(s, acts))
  {
    CallEnds(s, 0, 0, true);
  }

  lemma OneSteals(s: State, k: nat)
    requires TwoTokens(s) && k == 2
    ensures Runs(s, Steps(3, 4 * k)) && Stranded(Run(s, Steps(3, 4 * k)))
  {
    TokensDrained(s, 3, k);
  }

  /** From the start, four tasks can get there. */
  lemma WaiterStranded(s: State)
    requires Start(s) && s.pc == OUTSIDE
    ensures Runs(s, StrandingSchedule()) && Stranded(Run(s, StrandingSchedule()))
  {
    var a := Call(0, Acquire(0), 4) + Call(1, Acquire(1), 4);
    var b := Call(2, Acquire(0), 4) + Call(3, Acquire(1), 4);
    var c := Call(0, Finish(0, true), 7);
    TwoInitialise(s);
    TwoWait(Run(s, a));
    RunsAppend(s, a, b);
    OneReleases(Run(s, a + b));
    RunsAppend(s, a + b, c);
    OneSteals(Run(s, a + b + c), 2);
    RunsAppend(s, a + b + c, Steps(3, 8));
  }

  lemma FirstStep(s: State, t: Task, a: Action, rest: Schedule)
    requires Enabled(s, t, a) && Runs(Step(s, t, a), rest)
    ensures Runs(s, [(t, a)] + rest) && Run(s, [(t, a)] + rest) == Run(Step(s, t, a), rest)
  {
    assert ([(t, a)] + rest)[1..] == rest;
  }

  lemma OneStep(s: State, t: Task, rest: Schedule)
    requires Enabled(s, t, Proceed) && Runs(Step(s, t, Proceed), rest)
    ensures Runs(s, [(t, Proceed)] + rest)
    ensures Run(s, [(t, Proceed)] + rest) == Run(Step(s, t, Proceed), rest)
  {
    FirstStep(s, t, Proceed, rest);
  }

  /** No deadlock: if no task waits for a guard that is still pending and some call is in
      progress, one of the calls can go on. */
  lemma SomeoneMoves(s: State, t: Task)
    requires Inv(s) && !SomeoneStays(s) && t in s.pc && s.pc[t] != Idle
    ensures exists u :: u in s.pc && s.pc[u] != Idle && Enabled(s, u, Proceed)
  {
    if s.mutex.HeldBy? {
      var u := s.mutex.t;
      assert Exclusive(s, u);
      if s.pc[u].WaitLeave? {
        assert u in Where(s.pc, Counted);
      }
      assert Enabled(s, u, Proceed);
    } else {
      assert Exclusive(s, t);
      if s.pc[t].WaitTake? {
        assert t in Where(s.pc, Blocked);
      }
      assert Enabled(s, t, Proceed);
    }
  }

  // ---- Every waiter of a ready guard returns ----

  /** No guard is pending, every acquire in progress is for a ready guard, and no release
      or abort is about to read the count. */
  ghost predicate Settled(s: State)
  {
    s.pending == {} && forall t :: t in s.pc ==> Calm(s.pc[t], s.ready)
  }

  predicate Calm(p: Pc, ready: set<Guard>)
  {
    match p
    case AcqLock(g) => g in ready
    case AcqCheck(g) => g in ready
    case WaitTake(g) => g in ready
    case WaitLock(g) => g in ready
    case WaitTest(g) => g in ready
    case WaitLeave(g) => g in ready
    case AcqTest(g) => g in ready
    case EndCount(_) => false
    case _ => true
  }

  /** How many steps a call has left when it meets no pending guard. */
  function Left(p: Pc): nat
  {
    match p
    case Idle => 0
    case AcqLock(_) => 4
    case AcqCheck(_) => 3
    case WaitTake(_) => 6
    case WaitLock(_) => 5
    case WaitTest(_) => 4
    case WaitLeave(_) => 3
    case AcqTest(_) => 2
    case AcqGive(_, _) => 1
    case EndSignal(_, left) => left + 2
    case EndGive(_) => 1
    case _ => 0
  }

  ghost function TotalLeft(pc: map<Task, Pc>): nat
    decreases |pc|
  {
    if pc == map[] then 0
    else
      var t :| t in pc;
      Left(pc[t]) + TotalLeft(pc - {t})
  }

  lemma {:induction false} TotalLeftSplit(pc: map<Task, Pc>, t: Task)
    requires t in pc
    ensures TotalLeft(pc) == Left(pc[t]) + TotalLeft(pc - {t})
    decreases |pc|
  {
    var u :| u in pc && TotalLeft(pc) == Left(pc[u]) + TotalLeft(pc - {u});
    if u != t {
      TotalLeftSplit(pc - {u}, t);
      TotalLeftSplit(pc - {t}, u);
      assert (pc - {u}) - {t} == (pc - {t}) - {u};
    }
  }

  lemma CalmStep(s: State, t: Task)
    requires Enabled(s, t, Proceed) && HoldInv(s) && Place(s, t)
    requires s.pending == {} && Calm(s.pc[t], s.ready)
    ensures var s' := Step(s, t, Proceed);
            && Quiet(s, s.pc[t]) && s'.pc == s.pc[t := s'.pc[t]]
            && Calm(s'.pc[t], s.ready) && Left(s'.pc[t]) == Left(s.pc[t]) - 1
  {
  }

  lemma SettledStep(s: State, t: Task)
    requires Inv(s) && Settled(s) && Enabled(s, t, Proceed)
    ensures Settled(Step(s, t, Proceed))
    ensures TotalLeft(Step(s, t, Proceed).pc) == TotalLeft(s.pc) - 1
  {
    assert Place(s, t);
    CalmStep(s, t);
    QuietStep(s, t, Proceed);
    var p := Step(s, t, Proceed).pc[t];
    TotalLeftMove(s.pc, t, p);
  }

  lemma TotalLeftMove(pc: map<Task, Pc>, t: Task, p: Pc)
    requires t in pc
    ensures TotalLeft(pc[t := p]) == TotalLeft(pc) - Left(pc[t]) + Left(p)
  {
    TotalLeftSplit(pc, t);
    TotalLeftSplit(pc[t := p], t);
    assert pc[t := p] - {t} == pc - {t};
  }

  /** In a settled state, calls in progress need exactly `TotalLeft` more steps, in any
      order; by then every task is back outside. As long as some task is not, one of them
      can move, so every acquire of a ready guard returns. */
  lemma {:induction false} SettledDrains(s: State, acts: Schedule)
    requires Inv(s) && Settled(s) && Runs(s, acts)
    requires forall i :: 0 <= i < |acts| ==> acts[i].1 == Proceed
    ensures Inv(Run(s, acts)) && Settled(Run(s, acts))
    ensures TotalLeft(Run(s, acts).pc) + |acts| == TotalLeft(s.pc)
    decreases acts
  {
    if acts != [] {
      StepInv(s, acts[0].0, acts[0].1);
      SettledStep(s, acts[0].0);
      SettledDrains(Step(s, acts[0].0, acts[0].1), acts[1..]);
    }
  }
}
