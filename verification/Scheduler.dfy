/** The cooperative scheduler of the State Threads library, as a state machine.

    A step is what a thread does between two context switches: a library call up to the point
    where it returns or blocks, the tail of a call that blocked earlier, or one turn of the idle
    thread. What the kernel and the clock answer is part of the event that drives the step. */
module Scheduler {
  import opened Lists
  import opened ThreadStates

  /** A thread object. signalled is a history variable: the thread was taken off COND_WAIT by a
      signal or broadcast and has not yet returned from its wait. */
  datatype Thread = Thread(
    state: ThreadState,
    pc: Pc,
    onSleepQ: bool,
    interrupt: bool,
    timedOut: bool,
    joinable: bool,
    due: nat,
    signalled: bool)

  datatype Mutex = Mutex(owner: Option<Tid>, waitQ: seq<Tid>)

  datatype Vp = Vp(
    threads: map<Tid, Thread>,
    current: Tid,
    runQ: seq<Tid>,
    ioQ: seq<Tid>,
    zombieQ: seq<Tid>,
    sleepQ: set<Tid>,
    clock: nat,
    condQs: map<Cond, seq<Tid>>,
    mutexes: map<nat, Mutex>)
  {
    function CondQ(c: Cond): seq<Tid> {
      if c in condQs then condQs[c] else []
    }

    function MutexOf(m: nat): Mutex {
      if m in mutexes then mutexes[m] else Mutex(None, [])
    }
  }

  datatype Errno = EINTR | ETIME | EINVAL | EDEADLK | EPERM | EBUSY | EBADPOLL

  /** What a step reports to the code that called the library: nothing yet, success, the
      readiness found by a poll, an error, or a step that would touch a freed thread object. */
  datatype Ret = Blocked | Done | Polled(ready: bool) | Failed(errno: Errno) | Fault

  datatype Call =
    | Poll(added: bool, timeout: Option<nat>)
    | Sleep(timeout: Option<nat>)
    | CondWaitFor(cond: nat, timeout: Option<nat>)
    | CondSignal(cond: nat)
    | CondBroadcast(cond: nat)
    | Lock(mutex: nat)
    | Unlock(mutex: nat)
    | TryLock(mutex: nat)
    | Interrupt(thread: Tid)
    | Create(thread: Tid, join: bool)
    | Exit
    | Join(thread: Tid)

  /** What drives the machine. Turn is one turn of the idle thread: fired are the threads whose
      descriptors the kernel reported, now is the clock afterwards, and due lists the sleepers
      found due, in the order in which the timeout heap gives them up. */
  datatype Event =
    | Invoke(call: Call)
    | Resume
    | Turn(fired: set<Tid>, now: nat, due: seq<Tid>)

  // ---------------------------------------------------------------- the library's operations

  function Put(s: Vp, t: Tid, th: Thread): Vp {
    s.(threads := s.threads[t := th])
  }

  /** Takes t off the sleep queue if it is on it, makes it runnable and appends it to the run queue. */
  function MakeRunnable(s: Vp, t: Tid): Vp
    requires t in s.threads
  {
    Put(s, t, s.threads[t].(state := Runnable, onSleepQ := false)).(
    sleepQ := s.sleepQ - {t},
    runQ := s.runQ + [t])
  }

  /** _st_vp_schedule: the head of the run queue runs next, or the idle thread if there is none. */
  function Schedule(s: Vp): Vp
    requires IDLE in s.threads && forall t | t in s.runQ :: t in s.threads
  {
    var next := if s.runQ != [] then s.runQ[0] else IDLE;
    Put(s, next, s.threads[next].(state := Running)).(
    current := next,
    runQ := if s.runQ != [] then s.runQ[1..] else [])
  }

  /** The part of a blocking call before its context switch, after the checks: the current thread
      gets a waiting state, a place to continue and, with a timeout, a place on the sleep queue. */
  function Park(s: Vp, state: ThreadState, pc: Pc, timeout: Option<nat>): Vp
    requires s.current in s.threads
  {
    var me := s.threads[s.current];
    match timeout
    case None => Put(s, s.current, me.(state := state, pc := pc))
    case Some(d) =>
      Put(s, s.current, me.(state := state, pc := pc, onSleepQ := true, due := s.clock + d)).(
      sleepQ := s.sleepQ + {s.current})
  }

  /** The tail of a call: the current thread goes back to its own code. */
  function Return(s: Vp): Vp
    requires s.current in s.threads
  {
    Put(s, s.current, s.threads[s.current].(pc := InUserCode))
  }

  function ClearInterrupt(s: Vp): Vp
    requires s.current in s.threads
  {
    Put(s, s.current, s.threads[s.current].(interrupt := false))
  }

  /** The waiter a signal is for: the earliest one still waiting. */
  function FirstInState(s: Vp, q: seq<Tid>, state: ThreadState): Option<Tid> {
    if q == [] then None
    else if q[0] in s.threads && s.threads[q[0]].state == state then Some(q[0])
    else FirstInState(s, q[1..], state)
  }

  function SignalTo(s: Vp, t: Tid): Vp
    requires t in s.threads
  {
    var s1 := MakeRunnable(s, t);
    Put(s1, t, s1.threads[t].(signalled := true))
  }

  function Signal(s: Vp, c: Cond): Vp {
    match FirstInState(s, s.CondQ(c), CondWait)
    case None => s
    case Some(t) => if t in s.threads then SignalTo(s, t) else s
  }

  function SignalAll(s: Vp, q: seq<Tid>): Vp
    decreases |q|
  {
    if q == [] then s
    else
      var t := q[0];
      SignalAll(if t in s.threads && s.threads[t].state == CondWait then SignalTo(s, t) else s, q[1..])
  }

  function EnterCondWait(s: Vp, c: Cond, pc: Pc, timeout: Option<nat>): Vp
    requires s.current in s.threads
  {
    Park(s, CondWait, pc, timeout).(condQs := s.condQs[c := s.CondQ(c) + [s.current]])
  }

  function LeaveCondQ(s: Vp, c: Cond): Vp {
    s.(condQs := s.condQs[c := Without(s.CondQ(c), s.current)])
  }

  /** The end of a condition wait: flags are examined and reset, a timeout first. */
  function EndWait(s: Vp): (Vp, Ret)
    requires s.current in s.threads
  {
    var me := s.threads[s.current];
    (Put(s, s.current, me.(pc := InUserCode, timedOut := false, interrupt := false, signalled := false)),
     if me.interrupt then Failed(EINTR) else if me.timedOut then Failed(ETIME) else Done)
  }

  /** A zombie leaves the zombie queue and becomes runnable, to clean up after itself. */
  function TakeZombie(s: Vp, g: Tid): Vp
    requires g in s.threads
  {
    Put(s, g, s.threads[g].(state := Runnable)).(zombieQ := Without(s.zombieQ, g), runQ := s.runQ + [g])
  }

  /** The loop of st_thread_join at its test: the target is taken over if it is a zombie,
      otherwise the caller waits for its termination. */
  function JoinTest(s: Vp, g: Tid): (Vp, Ret)
    requires s.current in s.threads && SafeToSchedule(s)
  {
    if g !in s.threads then (s, Fault)
    else if s.threads[g].state == Zombie then
      (TakeZombie(s, g), Done)
    else if s.threads[s.current].interrupt then (ClearInterrupt(s), Failed(EINTR))
    else (Schedule(EnterCondWait(s, TermCond(g), InJoin(g), None)), Blocked)
  }

  /** A joinable thread ends: it waits on the zombie queue and its joiner is signalled. */
  function BecomeZombie(s: Vp): Vp
    requires s.current in s.threads
  {
    Signal(Park(s, Zombie, InExit, None).(zombieQ := s.zombieQ + [s.current]), TermCond(s.current))
  }

  /** The current thread object is freed. */
  function Vanish(s: Vp): Vp {
    s.(threads := s.threads - {s.current})
  }

  function SetOwner(s: Vp, m: nat, owner: Option<Tid>): Vp {
    s.(mutexes := s.mutexes[m := s.MutexOf(m).(owner := owner)])
  }

  predicate SafeToSchedule(s: Vp) {
    IDLE in s.threads && forall t | t in s.runQ :: t in s.threads
  }

  /** The current thread is an ordinary one, properly off the run queue. */
  predicate Executing(s: Vp) {
    s.current in s.threads && s.current != IDLE && s.current !in s.runQ && SafeToSchedule(s)
  }

  function StPoll(s: Vp, added: bool, timeout: Option<nat>): (Vp, Ret)
    requires Executing(s)
  {
    if s.threads[s.current].interrupt then (ClearInterrupt(s), Failed(EINTR))
    else if !added then (s, Failed(EBADPOLL))
    else (Schedule(Park(s, IoWait, InPoll, timeout).(ioQ := s.ioQ + [s.current])), Blocked)
  }

  function AfterPoll(s: Vp): (Vp, Ret)
    requires Executing(s)
  {
    var s1 := Return(s.(ioQ := Without(s.ioQ, s.current)));
    if s.threads[s.current].interrupt then (ClearInterrupt(s1), Failed(EINTR)) else (s1, Polled(s.current !in s.ioQ))
  }

  function StUsleep(s: Vp, timeout: Option<nat>): (Vp, Ret)
    requires Executing(s)
  {
    if s.threads[s.current].interrupt then (ClearInterrupt(s), Failed(EINTR))
    else (Schedule(Park(s, if timeout.Some? then Sleeping else Suspended, InSleep, timeout)), Blocked)
  }

  function AfterUsleep(s: Vp): (Vp, Ret)
    requires Executing(s)
  {
    if s.threads[s.current].interrupt then (ClearInterrupt(Return(s)), Failed(EINTR)) else (Return(s), Done)
  }

  function StCondTimedwait(s: Vp, c: nat, timeout: Option<nat>): (Vp, Ret)
    requires Executing(s)
  {
    if s.threads[s.current].interrupt then (ClearInterrupt(s), Failed(EINTR))
    else (Schedule(EnterCondWait(s, UserCond(c), InCondWait(c), timeout)), Blocked)
  }

  function AfterCondTimedwait(s: Vp, c: nat): (Vp, Ret)
    requires Executing(s)
  {
    EndWait(LeaveCondQ(s, UserCond(c)))
  }

  function StMutexLock(s: Vp, m: nat): (Vp, Ret)
    requires Executing(s)
  {
    var mu := s.MutexOf(m);
    if s.threads[s.current].interrupt then (ClearInterrupt(s), Failed(EINTR))
    else if mu.owner == None then (SetOwner(s, m, Some(s.current)), Done)
    else if mu.owner == Some(s.current) then (s, Failed(EDEADLK))
    else
      (Schedule(Park(s, LockWait, InLock(m), None).(
                mutexes := s.mutexes[m := mu.(waitQ := mu.waitQ + [s.current])])), Blocked)
  }

  /** An interrupt ends the wait for a mutex only if ownership was not handed over meanwhile;
      otherwise the flag stays set for the next call. */
  function AfterMutexLock(s: Vp, m: nat): (Vp, Ret)
    requires Executing(s)
  {
    var mu := s.MutexOf(m);
    var s1 := Return(s.(mutexes := s.mutexes[m := mu.(waitQ := Without(mu.waitQ, s.current))]));
    if s.threads[s.current].interrupt && mu.owner != Some(s.current)
    then (ClearInterrupt(s1), Failed(EINTR))
    else (s1, Done)
  }

  function StMutexUnlock(s: Vp, m: nat): (Vp, Ret)
    requires Executing(s)
  {
    if s.MutexOf(m).owner != Some(s.current) then (s, Failed(EPERM))
    else
      var next := FirstInState(s, s.MutexOf(m).waitQ, LockWait);
      var s1 := SetOwner(s, m, next);
      if next.Some? && next.value in s.threads then (MakeRunnable(s1, next.value), Done) else (s1, Done)
  }

  function StMutexTrylock(s: Vp, m: nat): (Vp, Ret)
    requires Executing(s)
  {
    if s.MutexOf(m).owner != None then (s, Failed(EBUSY)) else (SetOwner(s, m, Some(s.current)), Done)
  }

  function StThreadInterrupt(s: Vp, t: Tid): (Vp, Ret)
    requires Executing(s)
  {
    if t !in s.threads then (s, Fault)
    else if s.threads[t].state == Zombie then (s, Done)
    else
      var s1 := Put(s, t, s.threads[t].(interrupt := true));
      if s.threads[t].state == Running || s.threads[t].state == Runnable then (s1, Done)
      else (MakeRunnable(s1, t), Done)
  }

  function StThreadCreate(s: Vp, t: Tid, join: bool): (Vp, Ret)
    requires Executing(s)
  {
    (Put(s, t, Thread(Runnable, InUserCode, false, false, false, join, 0, false)).(runQ := s.runQ + [t]), Done)
  }

  function StThreadExit(s: Vp): (Vp, Ret)
    requires Executing(s)
  {
    if s.threads[s.current].joinable then (Schedule(BecomeZombie(s)), Blocked) else (Schedule(Vanish(s)), Blocked)
  }

  function AfterThreadExit(s: Vp): (Vp, Ret)
    requires Executing(s)
  {
    (Schedule(Vanish(s)), Blocked)
  }

  function StThreadJoin(s: Vp, g: Tid): (Vp, Ret)
    requires Executing(s)
  {
    if g !in s.threads then (s, Fault)
    else if !s.threads[g].joinable then (s, Failed(EINVAL))
    else if g == s.current then (s, Failed(EDEADLK))
    else if s.CondQ(TermCond(g)) != [] then (s, Failed(EINVAL))
    else JoinTest(s, g)
  }

  function AfterThreadJoin(s: Vp, g: Tid): (Vp, Ret)
    requires Executing(s)
  {
    var (s1, ret) := EndWait(LeaveCondQ(s, TermCond(g)));
    if ret == Done then JoinTest(s1, g) else (s1, ret)
  }

  /** Sleeping, condition variables and mutexes. */
  predicate IsSyncCall(call: Call) {
    call.Sleep? || call.CondWaitFor? || call.CondSignal? || call.CondBroadcast? || call.Lock? || call.Unlock? || call.TryLock?
  }

  function DoSyncCall(s: Vp, call: Call): (Vp, Ret)
    requires Executing(s) && IsSyncCall(call)
  {
    match call
    case Sleep(timeout) => StUsleep(s, timeout)
    case CondWaitFor(c, timeout) => StCondTimedwait(s, c, timeout)
    case CondSignal(c) => (Signal(s, UserCond(c)), Done)
    case CondBroadcast(c) => (SignalAll(s, s.CondQ(UserCond(c))), Done)
    case Lock(m) => StMutexLock(s, m)
    case Unlock(m) => StMutexUnlock(s, m)
    case TryLock(m) => StMutexTrylock(s, m)
  }

  function DoThreadCall(s: Vp, call: Call): (Vp, Ret)
    requires Executing(s) && !IsSyncCall(call)
  {
    match call
    case Poll(added, timeout) => StPoll(s, added, timeout)
    case Interrupt(t) => StThreadInterrupt(s, t)
    case Create(t, join) => StThreadCreate(s, t, join)
    case Exit => StThreadExit(s)
    case Join(g) => StThreadJoin(s, g)
  }

  function DoCall(s: Vp, call: Call): (Vp, Ret)
    requires Executing(s)
  {
    if IsSyncCall(call) then DoSyncCall(s, call) else DoThreadCall(s, call)
  }

  /** The tail of the call in which the current thread was switched out. */
  function DoResume(s: Vp): (Vp, Ret)
    requires Executing(s)
  {
    match s.threads[s.current].pc
    case InPoll => AfterPoll(s)
    case InSleep => AfterUsleep(s)
    case InCondWait(c) => AfterCondTimedwait(s, c)
    case InJoin(g) => AfterThreadJoin(s, g)
    case InLock(m) => AfterMutexLock(s, m)
    case InExit => AfterThreadExit(s)
    case InUserCode => (s, Blocked)
    case InIdleLoop => (s, Blocked)
  }

  /** Event dispatch: every queued poll with a descriptor that fired is taken off the I/O queue
      and its thread made runnable, in queue order and without a look at the thread's state. */
  function Dispatch(s: Vp, q: seq<Tid>, fired: set<Tid>): Vp
    decreases |q|
  {
    if q == [] then s
    else
      var t := q[0];
      Dispatch(
        if t in fired && t in s.threads then MakeRunnable(s, t).(ioQ := Without(s.ioQ, t)) else s,
        q[1..], fired)
  }

  function TimeOut(s: Vp, t: Tid): Vp
    requires t in s.threads
  {
    var th := s.threads[t];
    MakeRunnable(Put(s, t, th.(timedOut := th.timedOut || th.state == CondWait)), t)
  }

  function WakeDue(s: Vp, due: seq<Tid>): Vp
    decreases |due|
  {
    if due == [] then s
    else WakeDue(if due[0] in s.threads then TimeOut(s, due[0]) else s, due[1..])
  }

  /** due lists exactly the sleepers that are due at time now, once each, earliest first. */
  ghost predicate IsClockPass(s: Vp, now: nat, due: seq<Tid>) {
    && NoDup(due)
    && (forall t :: t in due <==> t in s.sleepQ && t in s.threads && s.threads[t].due <= now)
    && (forall i, j | 0 <= i < j < |due| :: s.threads[due[i]].due <= s.threads[due[j]].due)
  }

  /** One turn of the idle thread: dispatch, clock pass, and a context switch. */
  function DoTurn(s: Vp, fired: set<Tid>, now: nat, due: seq<Tid>): Vp
    requires IDLE in s.threads
  {
    var s1 := AfterPasses(s, fired, now, due);
    if SafeToSchedule(s1) then Schedule(Put(s1, IDLE, s1.threads[IDLE].(state := Runnable))) else s1
  }

  ghost predicate Enabled(s: Vp, e: Event) {
    && s.current in s.threads
    && match e
       case Invoke(call) =>
         && s.current != IDLE && s.threads[s.current].pc == InUserCode
         && (call.Create? ==> call.thread !in s.threads && call.thread != IDLE && s.CondQ(TermCond(call.thread)) == [])
         && (call.Interrupt? ==> call.thread in s.threads)
         && (call.Join? ==> call.thread in s.threads)
       case Resume => s.current != IDLE && s.threads[s.current].pc != InUserCode
       case Turn(fired, now, due) =>
         && s.current == IDLE
         && IsClockPass(Dispatch(s, s.ioQ, fired), now, due)
  }

  // ---------------------------------------------------------------- the global invariant

  /** The run queue holds exactly the runnable threads, each once; the idle thread is never on it. */
  ghost predicate RunOk(s: Vp) {
    NoDup(s.runQ) && forall t :: t in s.runQ <==> t in s.threads && s.threads[t].state == Runnable && t != IDLE
  }

  ghost predicate ZombieOk(s: Vp) {
    NoDup(s.zombieQ) && forall t :: t in s.zombieQ <==> t in s.threads && s.threads[t].state == Zombie
  }

  ghost predicate SleepOk(s: Vp) {
    forall t :: t in s.sleepQ <==> t in s.threads && s.threads[t].onSleepQ
  }

  /** Polls stay on the I/O queue until dispatched or until the poller runs again. */
  ghost predicate IoOk(s: Vp) {
    && NoDup(s.ioQ)
    && (forall t | t in s.ioQ :: t in s.threads && s.threads[t].pc == InPoll)
    && (forall t | t in s.threads && s.threads[t].state == IoWait :: t in s.ioQ)
  }

  /** q is the wait queue of c: the threads that will continue in a wait for c, each once. At
      most one thread waits for another to terminate. */
  ghost predicate CondQOk(q: seq<Tid>, c: Cond, threads: map<Tid, Thread>) {
    && NoDup(q)
    && (c.TermCond? ==> |q| <= 1)
    && forall t :: t in q <==> t in threads && threads[t].pc.WaitsFor() == Some(c)
  }

  ghost predicate CondOk(s: Vp) {
    forall c :: CondQOk(s.CondQ(c), c, s.threads)
  }

  /** q is the wait queue of mutex m. */
  ghost predicate LockQOk(q: seq<Tid>, m: nat, threads: map<Tid, Thread>) {
    NoDup(q) && forall t :: t in q <==> t in threads && threads[t].pc == InLock(m)
  }

  ghost predicate LockOk(s: Vp) {
    forall m :: LockQOk(s.MutexOf(m).waitQ, m, s.threads)
  }

  predicate Awake(th: Thread) {
    th.state == Running || th.state == Runnable
  }

  /** The states a thread may be in, given where it will continue. */
  predicate Consistent(t: Tid, th: Thread) {
    && (th.pc == InIdleLoop <==> t == IDLE)
    && (th.state == IoWait ==> th.pc == InPoll)
    && (th.state == LockWait ==> th.pc.InLock?)
    && (th.state == CondWait ==> th.pc.WaitsFor().Some?)
    && (th.state == Sleeping || th.state == Suspended ==> th.pc == InSleep)
    && (th.state == Zombie ==> th.pc == InExit && th.joinable)
    && (th.pc.InJoin? ==> th.pc.target != t)
    && (th.onSleepQ ==> th.state == IoWait || th.state == CondWait || th.state == Sleeping)
  }

  ghost predicate StatesOk(s: Vp) {
    forall t | t in s.threads :: Consistent(t, s.threads[t])
  }

  /** Why a thread that waited for a condition no longer waits. */
  predicate CondReason(th: Thread) {
    && (th.timedOut ==> th.pc.WaitsFor().Some? && Awake(th) && !th.signalled)
    && (th.signalled ==> th.pc.WaitsFor().Some? && Awake(th))
    && (th.pc.WaitsFor().Some? && Awake(th) ==> th.signalled || th.timedOut || th.interrupt)
  }

  ghost predicate CondReasons(s: Vp) {
    forall t | t in s.threads :: CondReason(s.threads[t])
  }

  /** A thread waits for a mutex only while somebody else owns it; it stopped waiting because it
      was made the owner or because it was interrupted. */
  ghost predicate LockReason(s: Vp, t: Tid, th: Thread) {
    th.pc.InLock? ==>
      var owner := s.MutexOf(th.pc.mutex).owner;
      if th.state == LockWait then owner.Some? && owner != Some(t) else owner == Some(t) || th.interrupt
  }

  ghost predicate LockReasons(s: Vp) {
    forall t | t in s.threads :: LockReason(s, t, s.threads[t])
  }

  /** A joiner that was signalled will find its target still there, as a zombie. */
  ghost predicate JoinReason(s: Vp, th: Thread) {
    th.pc.InJoin? && th.signalled ==> th.pc.target in s.threads && s.threads[th.pc.target].state == Zombie
  }

  ghost predicate JoinReasons(s: Vp) {
    forall t | t in s.threads :: JoinReason(s, s.threads[t])
  }

  ghost predicate Core(s: Vp) {
    && IDLE in s.threads && s.threads[IDLE].pc == InIdleLoop
    && RunOk(s) && ZombieOk(s) && SleepOk(s) && IoOk(s) && CondOk(s) && LockOk(s)
    && StatesOk(s) && CondReasons(s) && LockReasons(s) && JoinReasons(s)
  }

  /** The thread r, if any, is the only one in state RUNNING. */
  ghost predicate OnlyRunning(s: Vp, r: Option<Tid>) {
    forall t | t in s.threads :: s.threads[t].state == Running <==> r == Some(t)
  }

  ghost predicate Inv(s: Vp) {
    && Core(s)
    && s.current in s.threads && OnlyRunning(s, Some(s.current))
    && (s.current == IDLE ==> s.runQ == [])
  }

  // ---------------------------------------------------------------- one thread changes

  /** s1 and s agree on every thread but t. */
  ghost predicate Only(s: Vp, s1: Vp, t: Tid) {
    t in s.threads && t in s1.threads && s1.threads == s.threads[t := s1.threads[t]]
  }

  lemma RunSame(s: Vp, s1: Vp, t: Tid)
    requires RunOk(s) && Only(s, s1, t) && s1.runQ == s.runQ
    requires s.threads[t].state == Runnable <==> s1.threads[t].state == Runnable
    ensures RunOk(s1)
  {
  }

  lemma RunAppend(s: Vp, s1: Vp, t: Tid)
    requires RunOk(s) && Only(s, s1, t) && s1.runQ == s.runQ + [t]
    requires s.threads[t].state != Runnable && s1.threads[t].state == Runnable && t != IDLE
    ensures RunOk(s1)
  {
  }

  lemma ZombieSame(s: Vp, s1: Vp, t: Tid)
    requires ZombieOk(s) && Only(s, s1, t) && s1.zombieQ == s.zombieQ
    requires s.threads[t].state == Zombie <==> s1.threads[t].state == Zombie
    ensures ZombieOk(s1)
  {
  }

  lemma ZombieAppend(s: Vp, s1: Vp, t: Tid)
    requires ZombieOk(s) && Only(s, s1, t) && s1.zombieQ == s.zombieQ + [t]
    requires s.threads[t].state != Zombie && s1.threads[t].state == Zombie
    ensures ZombieOk(s1)
  {
  }

  lemma ZombieLeave(s: Vp, s1: Vp, t: Tid)
    requires ZombieOk(s) && Only(s, s1, t) && s1.zombieQ == Without(s.zombieQ, t)
    requires s1.threads[t].state != Zombie
    ensures ZombieOk(s1)
  {
    WithoutNoDup(s.zombieQ, t);
    forall u
      ensures u in s1.zombieQ <==> u in s1.threads && s1.threads[u].state == Zombie
    {
    }
  }

  lemma SleepChange(s: Vp, s1: Vp, t: Tid)
    requires SleepOk(s) && Only(s, s1, t)
    requires s1.sleepQ == if s1.threads[t].onSleepQ then s.sleepQ + {t} else s.sleepQ - {t}
    ensures SleepOk(s1)
  {
  }

  lemma IoSame(s: Vp, s1: Vp, t: Tid)
    requires IoOk(s) && Only(s, s1, t) && s1.ioQ == s.ioQ
    requires t in s.ioQ ==> s1.threads[t].pc == InPoll
    requires s1.threads[t].state == IoWait ==> t in s.ioQ
    ensures IoOk(s1)
  {
  }

  lemma IoAppend(s: Vp, s1: Vp, t: Tid)
    requires IoOk(s) && Only(s, s1, t) && s1.ioQ == s.ioQ + [t]
    requires s.threads[t].pc != InPoll && s1.threads[t].pc == InPoll
    ensures IoOk(s1)
  {
  }

  lemma IoLeave(s: Vp, s1: Vp, t: Tid)
    requires IoOk(s) && Only(s, s1, t) && s1.ioQ == Without(s.ioQ, t)
    requires s1.threads[t].state != IoWait
    ensures IoOk(s1)
  {
    WithoutNoDup(s.ioQ, t);
    forall u
      ensures u in s1.ioQ <==> u in s.ioQ && u != t
    {
    }
  }

  lemma CondQSame(q: seq<Tid>, c: Cond, threads: map<Tid, Thread>, t: Tid, th: Thread)
    requires CondQOk(q, c, threads) && t in threads
    requires th.pc.WaitsFor() == Some(c) <==> threads[t].pc.WaitsFor() == Some(c)
    ensures CondQOk(q, c, threads[t := th])
  {
  }

  lemma LockQSame(q: seq<Tid>, m: nat, threads: map<Tid, Thread>, t: Tid, th: Thread)
    requires LockQOk(q, m, threads) && t in threads
    requires th.pc == InLock(m) <==> threads[t].pc == InLock(m)
    ensures LockQOk(q, m, threads[t := th])
  {
  }

  lemma CondQAppend(q: seq<Tid>, c: Cond, threads: map<Tid, Thread>, t: Tid, th: Thread)
    requires CondQOk(q, c, threads) && t in threads && (c.TermCond? ==> q == [])
    requires threads[t].pc.WaitsFor() != Some(c) && th.pc.WaitsFor() == Some(c)
    ensures CondQOk(q + [t], c, threads[t := th])
  {
  }

  lemma LockQAppend(q: seq<Tid>, m: nat, threads: map<Tid, Thread>, t: Tid, th: Thread)
    requires LockQOk(q, m, threads) && t in threads
    requires threads[t].pc != InLock(m) && th.pc == InLock(m)
    ensures LockQOk(q + [t], m, threads[t := th])
  {
  }

  lemma CondQLeave(q: seq<Tid>, c: Cond, threads: map<Tid, Thread>, t: Tid, th: Thread)
    requires CondQOk(q, c, threads) && t in threads
    requires threads[t].pc.WaitsFor() == Some(c) && th.pc.WaitsFor() != Some(c)
    ensures CondQOk(Without(q, t), c, threads[t := th])
    ensures c.TermCond? ==> Without(q, t) == []
  {
    WithoutNoDup(q, t);
    forall u
      ensures u in Without(q, t) <==> u in q && u != t
    {
    }
    if c.TermCond? {
      assert t in q;
      assert q == [t];
      assert Without(q, t) == Without(q[1..], t) == [];
    }
  }

  lemma LockQLeave(q: seq<Tid>, m: nat, threads: map<Tid, Thread>, t: Tid, th: Thread)
    requires LockQOk(q, m, threads) && t in threads
    requires threads[t].pc == InLock(m) && th.pc != InLock(m)
    ensures LockQOk(Without(q, t), m, threads[t := th])
  {
    WithoutNoDup(q, t);
    forall u
      ensures u in Without(q, t) <==> u in q && u != t
    {
    }
  }

  lemma CondSame(s: Vp, s1: Vp, t: Tid)
    requires CondOk(s) && Only(s, s1, t) && s1.condQs == s.condQs
    requires s1.threads[t].pc.WaitsFor() == s.threads[t].pc.WaitsFor()
    ensures CondOk(s1)
  {
    forall c
      ensures CondQOk(s1.CondQ(c), c, s1.threads)
    {
      assert s1.CondQ(c) == s.CondQ(c);
      CondQSame(s.CondQ(c), c, s.threads, t, s1.threads[t]);
    }
  }

  lemma CondAppend(s: Vp, s1: Vp, t: Tid, c: Cond)
    requires CondOk(s) && Only(s, s1, t) && s1.condQs == s.condQs[c := s.CondQ(c) + [t]]
    requires s.threads[t].pc.WaitsFor() == None && s1.threads[t].pc.WaitsFor() == Some(c)
    requires c.TermCond? ==> s.CondQ(c) == []
    ensures CondOk(s1)
  {
    forall b
      ensures CondQOk(s1.CondQ(b), b, s1.threads)
    {
      if b == c {
        CondQAppend(s.CondQ(c), c, s.threads, t, s1.threads[t]);
      } else {
        assert s1.CondQ(b) == s.CondQ(b);
        CondQSame(s.CondQ(b), b, s.threads, t, s1.threads[t]);
      }
    }
  }

  lemma CondLeave(s: Vp, s1: Vp, t: Tid, c: Cond)
    requires CondOk(s) && Only(s, s1, t) && s1.condQs == s.condQs[c := Without(s.CondQ(c), t)]
    requires s.threads[t].pc.WaitsFor() == Some(c) && s1.threads[t].pc.WaitsFor() == None
    ensures CondOk(s1)
    ensures c.TermCond? ==> s1.CondQ(c) == []
  {
    CondQLeave(s.CondQ(c), c, s.threads, t, s1.threads[t]);
    forall b
      ensures CondQOk(s1.CondQ(b), b, s1.threads)
    {
      if b != c {
        assert s1.CondQ(b) == s.CondQ(b);
        CondQSame(s.CondQ(b), b, s.threads, t, s1.threads[t]);
      }
    }
  }

  lemma LockSame(s: Vp, s1: Vp, t: Tid)
    requires LockOk(s) && Only(s, s1, t) && forall m :: s1.MutexOf(m).waitQ == s.MutexOf(m).waitQ
    requires s1.threads[t].pc == s.threads[t].pc || (!s1.threads[t].pc.InLock? && !s.threads[t].pc.InLock?)
    ensures LockOk(s1)
  {
    forall m
      ensures LockQOk(s1.MutexOf(m).waitQ, m, s1.threads)
    {
      LockQSame(s.MutexOf(m).waitQ, m, s.threads, t, s1.threads[t]);
    }
  }

  lemma LockAppend(s: Vp, s1: Vp, t: Tid, m: nat)
    requires LockOk(s) && Only(s, s1, t)
    requires s1.mutexes == s.mutexes[m := s.MutexOf(m).(waitQ := s.MutexOf(m).waitQ + [t])]
    requires !s.threads[t].pc.InLock? && s1.threads[t].pc == InLock(m)
    ensures LockOk(s1)
  {
    forall n
      ensures LockQOk(s1.MutexOf(n).waitQ, n, s1.threads)
    {
      if n == m {
        LockQAppend(s.MutexOf(m).waitQ, m, s.threads, t, s1.threads[t]);
      } else {
        LockQSame(s.MutexOf(n).waitQ, n, s.threads, t, s1.threads[t]);
      }
    }
  }

  lemma LockLeave(s: Vp, s1: Vp, t: Tid, m: nat)
    requires LockOk(s) && Only(s, s1, t)
    requires s1.mutexes == s.mutexes[m := s.MutexOf(m).(waitQ := Without(s.MutexOf(m).waitQ, t))]
    requires s.threads[t].pc == InLock(m) && !s1.threads[t].pc.InLock?
    ensures LockOk(s1)
  {
    forall n
      ensures LockQOk(s1.MutexOf(n).waitQ, n, s1.threads)
    {
      if n == m {
        LockQLeave(s.MutexOf(m).waitQ, m, s.threads, t, s1.threads[t]);
      } else {
        LockQSame(s.MutexOf(n).waitQ, n, s.threads, t, s1.threads[t]);
      }
    }
  }

  lemma ReasonsSame(s: Vp, s1: Vp, t: Tid)
    requires Only(s, s1, t) && CondReasons(s) && CondReason(s1.threads[t])
    ensures CondReasons(s1)
  {
  }

  lemma StatesSame(s: Vp, s1: Vp, t: Tid)
    requires Only(s, s1, t) && StatesOk(s) && Consistent(t, s1.threads[t])
    ensures StatesOk(s1)
  {
  }

  lemma LockReasonsSame(s: Vp, s1: Vp, t: Tid)
    requires Only(s, s1, t) && LockReasons(s) && forall m :: s1.MutexOf(m).owner == s.MutexOf(m).owner
    requires LockReason(s1, t, s1.threads[t])
    ensures LockReasons(s1)
  {
  }

  /** Nobody loses the zombie it was told about, unless t stops being one that somebody joins. */
  lemma JoinReasonsSame(s: Vp, s1: Vp, t: Tid)
    requires Only(s, s1, t) && JoinReasons(s) && JoinReason(s1, s1.threads[t])
    requires s.threads[t].state == Zombie && s1.threads[t].state != Zombie ==>
      forall u | u in s1.threads :: s1.threads[u].pc != InJoin(t)
    ensures JoinReasons(s1)
  {
  }

  // ---------------------------------------------------------------- wake-ups

  predicate Waiting(th: Thread) {
    th.state != Running && th.state != Runnable && th.state != Zombie
  }

  lemma ThreadFacts(s: Vp, t: Tid)
    requires Core(s) && t in s.threads
    ensures (t in s.ioQ ==> s.threads[t].pc == InPoll) && (t in s.sleepQ <==> s.threads[t].onSleepQ)
    ensures JoinReason(s, s.threads[t])
    ensures Consistent(t, s.threads[t]) && CondReason(s.threads[t]) && LockReason(s, t, s.threads[t])
  {
  }

  /** Any of the ways to make a waiting thread runnable keeps the invariant, provided it leaves a
      reason behind. */
  lemma WakeKeeps(s: Vp, s1: Vp, t: Tid)
    requires Core(s) && Only(s, s1, t) && Waiting(s.threads[t])
    requires s1.threads[t].state == Runnable && !s1.threads[t].onSleepQ
    requires s1.threads[t].pc == s.threads[t].pc && s1.threads[t].joinable == s.threads[t].joinable
    requires s1.runQ == s.runQ + [t] && s1.sleepQ == s.sleepQ - {t} && s1.zombieQ == s.zombieQ
    requires s1.ioQ == s.ioQ || s1.ioQ == Without(s.ioQ, t)
    requires s1.condQs == s.condQs && forall m :: s1.MutexOf(m).waitQ == s.MutexOf(m).waitQ
    requires CondReason(s1.threads[t]) && LockReasons(s1) && JoinReason(s1, s1.threads[t])
    ensures Core(s1)
  {
    hide RunOk, ZombieOk, SleepOk, IoOk, CondOk, LockOk, StatesOk, CondReasons, LockReasons, JoinReasons;
    ThreadFacts(s, t);
    RunAppend(s, s1, t);
    ZombieSame(s, s1, t);
    SleepChange(s, s1, t);
    if s1.ioQ == s.ioQ {
      IoSame(s, s1, t);
    } else {
      IoLeave(s, s1, t);
    }
    CondSame(s, s1, t);
    LockSame(s, s1, t);
    StatesSame(s, s1, t);
    ReasonsSame(s, s1, t);
    JoinReasonsSame(s, s1, t);
  }

  /** The running thread, if any, stays the same when a waiting thread is woken. */
  lemma WakeRunning(s: Vp, s1: Vp, t: Tid, r: Option<Tid>)
    requires Only(s, s1, t) && Waiting(s.threads[t]) && s1.threads[t].state == Runnable
    requires OnlyRunning(s, r)
    ensures OnlyRunning(s1, r)
  {
  }

  lemma SignalToKeeps(s: Vp, t: Tid, r: Option<Tid>)
    requires Core(s) && OnlyRunning(s, r)
    requires t in s.threads && s.threads[t].state == CondWait
    requires s.threads[t].pc.InJoin? ==>
      s.threads[t].pc.target in s.threads && s.threads[s.threads[t].pc.target].state == Zombie
    ensures Core(SignalTo(s, t)) && OnlyRunning(SignalTo(s, t), r)
  {
    hide RunOk, ZombieOk, SleepOk, IoOk, CondOk, LockOk, StatesOk, CondReasons, LockReasons, JoinReasons, OnlyRunning;
    var s1 := SignalTo(s, t);
    ThreadFacts(s, t);
    LockReasonsSame(s, s1, t);
    WakeKeeps(s, s1, t);
    WakeRunning(s, s1, t, r);
  }

  lemma TimeOutKeeps(s: Vp, t: Tid, r: Option<Tid>)
    requires Core(s) && OnlyRunning(s, r) && t in s.sleepQ
    ensures t in s.threads && Core(TimeOut(s, t)) && OnlyRunning(TimeOut(s, t), r)
  {
    var s1 := TimeOut(s, t);
    assert Consistent(t, s.threads[t]) && CondReason(s.threads[t]);
    LockReasonsSame(s, s1, t);
    WakeKeeps(s, s1, t);
    WakeRunning(s, s1, t, r);
  }

  lemma FirstFound(s: Vp, q: seq<Tid>, state: ThreadState)
    ensures match FirstInState(s, q, state)
      case None => forall t | t in q && t in s.threads :: s.threads[t].state != state
      case Some(t) =>
        && t in s.threads && s.threads[t].state == state
        && exists i | 0 <= i < |q| :: q[i] == t && forall j | 0 <= j < i :: q[j] in s.threads ==> s.threads[q[j]].state != state
  {
    if q != [] && !(q[0] in s.threads && s.threads[q[0]].state == state) {
      FirstFound(s, q[1..], state);
      var rest := FirstInState(s, q[1..], state);
      if rest.Some? {
        var i :| 0 <= i < |q| - 1 && q[1..][i] == rest.value
          && forall j | 0 <= j < i :: q[1..][j] in s.threads ==> s.threads[q[1..][j]].state != state;
        assert q[i + 1] == rest.value;
        forall j | 0 <= j < i + 1
          ensures q[j] in s.threads ==> s.threads[q[j]].state != state
        {
          assert j > 0 ==> q[j] == q[1..][j - 1];
        }
      }
    }
  }

  lemma SignalKeeps(s: Vp, c: Cond, r: Option<Tid>)
    requires Core(s) && OnlyRunning(s, r)
    requires c.TermCond? ==> c.thread in s.threads && s.threads[c.thread].state == Zombie
    ensures Core(Signal(s, c)) && OnlyRunning(Signal(s, c), r)
  {
    FirstFound(s, s.CondQ(c), CondWait);
    var first := FirstInState(s, s.CondQ(c), CondWait);
    if first.Some? {
      assert CondQOk(s.CondQ(c), c, s.threads);
      SignalToKeeps(s, first.value, r);
    }
  }

  lemma {:induction false} SignalAllKeeps(s: Vp, q: seq<Tid>, r: Option<Tid>)
    requires Core(s) && OnlyRunning(s, r)
    requires forall t | t in q :: t in s.threads && s.threads[t].pc.InCondWait?
    ensures Core(SignalAll(s, q)) && OnlyRunning(SignalAll(s, q), r)
    decreases |q|
  {
    if q != [] {
      var t := q[0];
      var s1 := if s.threads[t].state == CondWait then SignalTo(s, t) else s;
      if s.threads[t].state == CondWait {
        SignalToKeeps(s, t, r);
      }
      forall u | u in q[1..]
        ensures u in s1.threads && s1.threads[u].pc.InCondWait?
      {
        assert u in q;
      }
      SignalAllKeeps(s1, q[1..], r);
    }
  }

  lemma {:induction false} WakeDueKeeps(s: Vp, due: seq<Tid>, r: Option<Tid>)
    requires Core(s) && OnlyRunning(s, r)
    requires NoDup(due) && forall t | t in due :: t in s.sleepQ
    ensures Core(WakeDue(s, due)) && OnlyRunning(WakeDue(s, due), r)
    decreases |due|
  {
    hide NoDup;
    if due != [] {
      NoDupTail(due);
      TimeOutKeeps(s, due[0], r);
      var s1 := TimeOut(s, due[0]);
      forall t | t in due[1..]
        ensures t in s1.sleepQ
      {
        assert t in due && t != due[0];
      }
      WakeDueKeeps(s1, due[1..], r);
    }
  }

  /** Dispatch looks at no thread's state. It is safe because, when the idle thread runs, every
      thread on the I/O queue still waits for I/O. */
  lemma {:induction false} DispatchKeeps(s: Vp, q: seq<Tid>, fired: set<Tid>, r: Option<Tid>)
    requires Core(s) && OnlyRunning(s, r)
    requires NoDup(q) && forall t | t in q :: t in s.ioQ && t in s.threads && s.threads[t].state == IoWait
    ensures Core(Dispatch(s, q, fired)) && OnlyRunning(Dispatch(s, q, fired), r)
    decreases |q|
  {
    hide NoDup, RunOk, ZombieOk, SleepOk, IoOk, CondOk, LockOk, StatesOk, CondReasons, LockReasons, JoinReasons, OnlyRunning;
    if q != [] {
      NoDupTail(q);
      var t := q[0];
      var s1 := if t in fired then MakeRunnable(s, t).(ioQ := Without(s.ioQ, t)) else s;
      if t in fired {
        ThreadFacts(s, t);
        LockReasonsSame(s, s1, t);
        WakeKeeps(s, s1, t);
        WakeRunning(s, s1, t, r);
      }
      forall u | u in q[1..]
        ensures u in s1.ioQ && u in s1.threads && s1.threads[u].state == IoWait
      {
        assert u in q && u != t;
      }
      DispatchKeeps(s1, q[1..], fired, r);
    }
  }

  /** With an empty run queue and the idle thread running, nobody on the I/O queue is runnable. */
  lemma IdleSeesOnlyWaiters(s: Vp)
    requires Inv(s) && s.current == IDLE
    ensures forall t | t in s.ioQ :: t in s.threads && s.threads[t].state == IoWait
  {
    forall t | t in s.ioQ
      ensures t in s.threads && s.threads[t].state == IoWait
    {
      assert t in s.threads && Consistent(t, s.threads[t]);
      assert t !in s.runQ;
    }
  }

  lemma IdleRunnable(s: Vp)
    requires Core(s) && OnlyRunning(s, Some(IDLE))
    ensures Core(Put(s, IDLE, s.threads[IDLE].(state := Runnable)))
    ensures OnlyRunning(Put(s, IDLE, s.threads[IDLE].(state := Runnable)), None)
  {
    var s1 := Put(s, IDLE, s.threads[IDLE].(state := Runnable));
    assert Consistent(IDLE, s.threads[IDLE]) && CondReason(s.threads[IDLE]);
    assert RunOk(s1);
    AwakeChange(s, s1, IDLE);
  }

  /** A thread that is awake changes between RUNNING and RUNNABLE; only the run queue cares. */
  lemma AwakeChange(s: Vp, s1: Vp, t: Tid)
    requires Core(s) && RunOk(s1) && Only(s, s1, t) && Awake(s.threads[t]) && Awake(s1.threads[t])
    requires s1.threads[t] == s.threads[t].(state := s1.threads[t].state)
    requires s1.sleepQ == s.sleepQ && s1.zombieQ == s.zombieQ && s1.ioQ == s.ioQ
    requires s1.condQs == s.condQs && s1.mutexes == s.mutexes
    ensures Core(s1)
  {
    assert Consistent(t, s.threads[t]) && CondReason(s.threads[t]);
    ZombieSame(s, s1, t);
    SleepChange(s, s1, t);
    IoSame(s, s1, t);
    CondSame(s, s1, t);
    LockSame(s, s1, t);
    StatesSame(s, s1, t);
    ReasonsSame(s, s1, t);
    LockReasonsSame(s, s1, t);
    JoinReasonsSame(s, s1, t);
  }

  lemma ScheduleKeeps(s: Vp)
    requires Core(s) && OnlyRunning(s, None)
    ensures SafeToSchedule(s) && Inv(Schedule(s))
  {
    var s1 := Schedule(s);
    var t := s1.current;
    assert Consistent(IDLE, s.threads[IDLE]);
    RunPop(s, s1);
    AwakeChange(s, s1, t);
  }

  lemma RunPop(s: Vp, s1: Vp)
    requires RunOk(s) && IDLE in s.threads && s.threads[IDLE].state == Runnable
    requires SafeToSchedule(s) && s1 == Schedule(s)
    ensures RunOk(s1) && (s1.current == IDLE ==> s1.runQ == [])
  {
    if s.runQ != [] {
      assert s.runQ == [s.runQ[0]] + s.runQ[1..];
    }
  }

  lemma TurnKeeps(s: Vp, fired: set<Tid>, now: nat, due: seq<Tid>)
    requires Inv(s) && Enabled(s, Turn(fired, now, due))
    ensures Inv(DoTurn(s, fired, now, due))
  {
    IdleSeesOnlyWaiters(s);
    DispatchKeeps(s, s.ioQ, fired, Some(IDLE));
    var s1 := Dispatch(s, s.ioQ, fired);
    var s2 := s1.(clock := now);
    ClockMoves(s1, s2);
    WakeDueKeeps(s2, due, Some(IDLE));
    var s3 := WakeDue(s2, due);
    IdleRunnable(s3);
    ScheduleKeeps(Put(s3, IDLE, s3.threads[IDLE].(state := Runnable)));
  }

  lemma ClockMoves(s: Vp, s1: Vp)
    requires Core(s) && s1 == s.(clock := s1.clock)
    ensures Core(s1)
  {
    assert forall c :: s1.CondQ(c) == s.CondQ(c);
    assert forall m :: s1.MutexOf(m) == s.MutexOf(m);
    assert LockReasons(s1);
  }

  // ---------------------------------------------------------------- calls and their tails

  /** The current thread is executing its own code. */
  ghost predicate InCall(s: Vp) {
    Inv(s) && s.current != IDLE && s.threads[s.current].pc == InUserCode
  }

  /** A blocking call up to its context switch. */
  lemma ParkKeeps(s: Vp, s1: Vp)
    requires InCall(s) && Only(s, s1, s.current)
    requires var th := s1.threads[s.current];
      && th.state != Running && th.state != Runnable
      && Consistent(s.current, th) && CondReason(th) && LockReason(s1, s.current, th) && !th.signalled
      && s1.sleepQ == (if th.onSleepQ then s.sleepQ + {s.current} else s.sleepQ)
    requires s1.runQ == s.runQ && ZombieOk(s1) && IoOk(s1) && CondOk(s1) && LockOk(s1)
    requires forall m :: s1.MutexOf(m).owner == s.MutexOf(m).owner
    ensures Core(s1) && OnlyRunning(s1, None)
    ensures SafeToSchedule(s1) && Inv(Schedule(s1))
  {
    hide RunOk, ZombieOk, SleepOk, IoOk, CondOk, LockOk, StatesOk, CondReasons, LockReasons, JoinReasons;
    var me := s.current;
    ThreadFacts(s, me);
    RunSame(s, s1, me);
    SleepChange(s, s1, me);
    StatesSame(s, s1, me);
    ReasonsSame(s, s1, me);
    LockReasonsSame(s, s1, me);
    JoinReasonsSame(s, s1, me);
    ScheduleKeeps(s1);
  }

  lemma PollKeeps(s: Vp, timeout: Option<nat>)
    requires InCall(s)
    ensures var s1 := Park(s, IoWait, InPoll, timeout).(ioQ := s.ioQ + [s.current]);
      SafeToSchedule(s1) && Inv(Schedule(s1))
  {
    hide RunOk, ZombieOk, SleepOk, IoOk, CondOk, LockOk, StatesOk, CondReasons, LockReasons, JoinReasons;
    var me := s.current;
    var s1 := Park(s, IoWait, InPoll, timeout).(ioQ := s.ioQ + [me]);
    ThreadFacts(s, me);
    ZombieSame(s, s1, me);
    IoAppend(s, s1, me);
    CondSame(s, s1, me);
    LockSame(s, s1, me);
    ParkKeeps(s, s1);
  }

  lemma SleepKeeps(s: Vp, state: ThreadState, timeout: Option<nat>)
    requires InCall(s) && state == if timeout.Some? then Sleeping else Suspended
    ensures var s1 := Park(s, state, InSleep, timeout);
      SafeToSchedule(s1) && Inv(Schedule(s1))
  {
    hide RunOk, ZombieOk, SleepOk, IoOk, CondOk, LockOk, StatesOk, CondReasons, LockReasons, JoinReasons;
    var me := s.current;
    var s1 := Park(s, state, InSleep, timeout);
    ThreadFacts(s, me);
    ZombieSame(s, s1, me);
    IoSame(s, s1, me);
    CondSame(s, s1, me);
    LockSame(s, s1, me);
    ParkKeeps(s, s1);
  }

  lemma CondWaitQueues(s: Vp, c: Cond, pc: Pc, timeout: Option<nat>)
    requires InCall(s) && pc.WaitsFor() == Some(c) && (c.TermCond? ==> s.CondQ(c) == [])
    ensures var s1 := EnterCondWait(s, c, pc, timeout);
      Only(s, s1, s.current) && ZombieOk(s1) && IoOk(s1) && CondOk(s1) && LockOk(s1)
  {
    var me := s.current;
    var s1 := EnterCondWait(s, c, pc, timeout);
    ZombieSame(s, s1, me);
    IoSame(s, s1, me);
    CondAppend(s, s1, me, c);
    LockSame(s, s1, me);
  }

  lemma CondWaitKeeps(s: Vp, c: Cond, pc: Pc, timeout: Option<nat>)
    requires InCall(s) && pc.WaitsFor() == Some(c) && (pc.InJoin? ==> pc.target != s.current)
    requires c.TermCond? ==> s.CondQ(c) == []
    ensures var s1 := EnterCondWait(s, c, pc, timeout);
      SafeToSchedule(s1) && Inv(Schedule(s1))
  {
    hide RunOk, ZombieOk, SleepOk, IoOk, CondOk, LockOk, StatesOk, CondReasons, LockReasons, JoinReasons;
    var me := s.current;
    ThreadFacts(s, me);
    CondWaitQueues(s, c, pc, timeout);
    ParkKeeps(s, EnterCondWait(s, c, pc, timeout));
  }

  lemma LockWaitKeeps(s: Vp, m: nat)
    requires InCall(s) && s.MutexOf(m).owner.Some? && s.MutexOf(m).owner != Some(s.current)
    ensures var mu := s.MutexOf(m);
      var s1 := Park(s, LockWait, InLock(m), None).(mutexes := s.mutexes[m := mu.(waitQ := mu.waitQ + [s.current])]);
      SafeToSchedule(s1) && Inv(Schedule(s1))
  {
    hide RunOk, ZombieOk, SleepOk, IoOk, CondOk, LockOk, StatesOk, CondReasons, LockReasons, JoinReasons;
    var me := s.current;
    var mu := s.MutexOf(m);
    var s1 := Park(s, LockWait, InLock(m), None).(mutexes := s.mutexes[m := mu.(waitQ := mu.waitQ + [me])]);
    ThreadFacts(s, me);
    ZombieSame(s, s1, me);
    IoSame(s, s1, me);
    CondSame(s, s1, me);
    LockAppend(s, s1, me, m);
    ParkKeeps(s, s1);
  }

  lemma ExitJoinableKeeps(s: Vp)
    requires InCall(s) && s.threads[s.current].joinable
    ensures SafeToSchedule(BecomeZombie(s)) && Inv(Schedule(BecomeZombie(s)))
  {
    hide RunOk, ZombieOk, SleepOk, IoOk, CondOk, LockOk, StatesOk, CondReasons, LockReasons, JoinReasons;
    var me := s.current;
    var s1 := Park(s, Zombie, InExit, None).(zombieQ := s.zombieQ + [me]);
    ThreadFacts(s, me);
    ZombieAppend(s, s1, me);
    IoSame(s, s1, me);
    CondSame(s, s1, me);
    LockSame(s, s1, me);
    ParkKeeps(s, s1);
    SignalKeeps(s1, TermCond(me), None);
    ScheduleKeeps(BecomeZombie(s));
  }

  /** The current thread object goes away. */
  lemma RemoveKeeps(s: Vp)
    requires Inv(s) && s.current != IDLE
    requires s.threads[s.current].pc == InUserCode || s.threads[s.current].pc == InExit
    ensures SafeToSchedule(Vanish(s)) && Inv(Schedule(Vanish(s)))
  {
    var me := s.current;
    var s1 := Vanish(s);
    assert Consistent(me, s.threads[me]);
    forall c
      ensures CondQOk(s1.CondQ(c), c, s1.threads)
    {
      assert CondQOk(s.CondQ(c), c, s.threads) && s1.CondQ(c) == s.CondQ(c);
    }
    forall m
      ensures LockQOk(s1.MutexOf(m).waitQ, m, s1.threads)
    {
      assert LockQOk(s.MutexOf(m).waitQ, m, s.threads);
    }
    RemoveQueues(s, s1);
    RemoveReasons(s, s1);
    ScheduleKeeps(s1);
  }

  lemma RemoveQueues(s: Vp, s1: Vp)
    requires s.current in s.threads && s1 == Vanish(s)
    requires s.threads[s.current].state == Running && s.threads[s.current].pc != InPoll && !s.threads[s.current].onSleepQ
    requires RunOk(s) && ZombieOk(s) && SleepOk(s) && IoOk(s)
    ensures RunOk(s1) && ZombieOk(s1) && SleepOk(s1) && IoOk(s1)
  {
  }

  lemma RemoveReasons(s: Vp, s1: Vp)
    requires s.current in s.threads && s1 == Vanish(s)
    requires s.threads[s.current].state == Running
    requires StatesOk(s) && CondReasons(s) && LockReasons(s) && JoinReasons(s)
    ensures StatesOk(s1) && CondReasons(s1) && LockReasons(s1) && JoinReasons(s1)
  {
    forall t | t in s1.threads
      ensures LockReason(s1, t, s1.threads[t]) && JoinReason(s1, s1.threads[t])
    {
      assert LockReason(s, t, s.threads[t]) && JoinReason(s, s.threads[t]);
    }
  }

  /** The tail of a blocking call: the current thread returns to its own code with its queue
      links undone. Only its interrupt flag may survive. */
  lemma ReturnKeeps(s: Vp, s1: Vp)
    requires Inv(s) && s.current != IDLE && Only(s, s1, s.current) && s1.current == s.current
    requires var th := s1.threads[s.current];
      && th.state == Running && th.pc == InUserCode && !th.onSleepQ && !th.timedOut && !th.signalled
    requires s1.runQ == s.runQ && s1.zombieQ == s.zombieQ && s1.sleepQ == s.sleepQ
    requires IoOk(s1) && CondOk(s1) && LockOk(s1)
    requires forall m :: s1.MutexOf(m).owner == s.MutexOf(m).owner
    ensures InCall(s1)
  {
    hide RunOk, ZombieOk, SleepOk, IoOk, CondOk, LockOk, StatesOk, CondReasons, LockReasons, JoinReasons;
    var me := s.current;
    ThreadFacts(s, me);
    RunSame(s, s1, me);
    ZombieSame(s, s1, me);
    SleepChange(s, s1, me);
    StatesSame(s, s1, me);
    ReasonsSame(s, s1, me);
    LockReasonsSame(s, s1, me);
    JoinReasonsSame(s, s1, me);
  }

  lemma NobodyJoins(s: Vp, g: Tid)
    requires CondOk(s) && s.CondQ(TermCond(g)) == []
    ensures forall u | u in s.threads :: s.threads[u].pc != InJoin(g)
  {
    assert CondQOk(s.CondQ(TermCond(g)), TermCond(g), s.threads);
    forall u | u in s.threads
      ensures s.threads[u].pc != InJoin(g)
    {
      assert s.threads[u].pc == InJoin(g) ==> u in s.CondQ(TermCond(g));
    }
  }

  /** A zombie is taken over by its joiner. */
  lemma TakeZombieKeeps(s: Vp, g: Tid)
    requires InCall(s) && g in s.threads && s.threads[g].state == Zombie && s.CondQ(TermCond(g)) == []
    ensures InCall(TakeZombie(s, g))
  {
    assert Consistent(g, s.threads[g]) && CondReason(s.threads[g]);
    TakeZombieQueues(s, TakeZombie(s, g), g);
    TakeZombieReasons(s, TakeZombie(s, g), g);
  }

  lemma TakeZombieQueues(s: Vp, s1: Vp, g: Tid)
    requires RunOk(s) && ZombieOk(s) && SleepOk(s) && IoOk(s) && CondOk(s) && LockOk(s)
    requires g in s.threads && s.threads[g].state == Zombie && s1 == TakeZombie(s, g)
    requires Consistent(g, s.threads[g]) && g != IDLE
    ensures RunOk(s1) && ZombieOk(s1) && SleepOk(s1) && IoOk(s1) && CondOk(s1) && LockOk(s1)
  {
    RunAppend(s, s1, g);
    ZombieLeave(s, s1, g);
    SleepChange(s, s1, g);
    IoSame(s, s1, g);
    CondSame(s, s1, g);
    LockSame(s, s1, g);
  }

  lemma TakeZombieReasons(s: Vp, s1: Vp, g: Tid)
    requires StatesOk(s) && CondReasons(s) && LockReasons(s) && JoinReasons(s) && CondOk(s)
    requires g in s.threads && s.threads[g].state == Zombie && s1 == TakeZombie(s, g)
    requires Consistent(g, s.threads[g]) && CondReason(s.threads[g]) && g != IDLE
    requires CondOk(s1) && s.CondQ(TermCond(g)) == []
    ensures StatesOk(s1) && CondReasons(s1) && LockReasons(s1) && JoinReasons(s1)
  {
    StatesSame(s, s1, g);
    ReasonsSame(s, s1, g);
    LockReasonsSame(s, s1, g);
    NobodyJoins(s1, g);
    JoinReasonsSame(s, s1, g);
  }

  lemma ClearInterruptKeeps(s: Vp)
    requires InCall(s)
    ensures InCall(ClearInterrupt(s))
  {
    var s1 := ClearInterrupt(s);
    var me := s.current;
    assert Consistent(me, s.threads[me]) && CondReason(s.threads[me]);
    IoSame(s, s1, me);
    CondSame(s, s1, me);
    LockSame(s, s1, me);
    ReturnKeeps(s, s1);
  }

  lemma JoinTestKeeps(s: Vp, g: Tid)
    requires InCall(s) && g in s.threads && g != s.current && s.CondQ(TermCond(g)) == []
    ensures Inv(JoinTest(s, g).0)
  {
    if s.threads[g].state == Zombie {
      TakeZombieKeeps(s, g);
    } else if s.threads[s.current].interrupt {
      ClearInterruptKeeps(s);
    } else {
      CondWaitKeeps(s, TermCond(g), InJoin(g), None);
    }
  }

  /** Only the owner of a mutex changes. */
  lemma OwnerChange(s: Vp, s1: Vp)
    requires Inv(s) && s1 == s.(mutexes := s1.mutexes)
    requires forall m :: s1.MutexOf(m).waitQ == s.MutexOf(m).waitQ
    requires LockReasons(s1)
    ensures Inv(s1)
  {
    forall c
      ensures CondQOk(s1.CondQ(c), c, s1.threads)
    {
      assert s1.CondQ(c) == s.CondQ(c);
    }
    forall m
      ensures LockQOk(s1.MutexOf(m).waitQ, m, s1.threads)
    {
      assert LockQOk(s.MutexOf(m).waitQ, m, s.threads);
    }
  }

  lemma AcquireKeeps(s: Vp, m: nat)
    requires InCall(s) && s.MutexOf(m).owner == None
    ensures Inv(SetOwner(s, m, Some(s.current)))
  {
    var s1 := SetOwner(s, m, Some(s.current));
    forall t | t in s1.threads
      ensures LockReason(s1, t, s1.threads[t])
    {
      assert LockReason(s, t, s.threads[t]);
    }
    OwnerChange(s, s1);
  }

  lemma ReleaseKeeps(s: Vp, m: nat)
    requires InCall(s) && s.MutexOf(m).owner == Some(s.current)
    requires FirstInState(s, s.MutexOf(m).waitQ, LockWait) == None
    ensures Inv(SetOwner(s, m, None))
  {
    var s1 := SetOwner(s, m, None);
    FirstFound(s, s.MutexOf(m).waitQ, LockWait);
    assert LockQOk(s.MutexOf(m).waitQ, m, s.threads);
    forall t | t in s1.threads
      ensures LockReason(s1, t, s1.threads[t])
    {
      assert LockReason(s, t, s.threads[t]);
    }
    OwnerChange(s, s1);
  }

  /** Ownership passes to t: every other waiter still has the reason it had. */
  lemma HandOffReasons(s: Vp, s1: Vp, m: nat, t: Tid)
    requires LockReasons(s) && s.MutexOf(m).owner == Some(s.current)
    requires s.current in s.threads && !s.threads[s.current].pc.InLock?
    requires Only(s, s1, t) && s.threads[t].pc == s1.threads[t].pc == InLock(m) && s1.threads[t].state == Runnable
    requires s1.mutexes == s.mutexes[m := s.MutexOf(m).(owner := Some(t))]
    ensures LockReasons(s1)
  {
    forall u | u in s1.threads
      ensures LockReason(s1, u, s1.threads[u])
    {
      assert LockReason(s, u, s.threads[u]);
    }
  }

  lemma HandOffKeeps(s: Vp, m: nat)
    requires InCall(s) && s.MutexOf(m).owner == Some(s.current)
    requires FirstInState(s, s.MutexOf(m).waitQ, LockWait).Some?
    ensures var next := FirstInState(s, s.MutexOf(m).waitQ, LockWait).value;
      next in s.threads && Inv(MakeRunnable(SetOwner(s, m, Some(next)), next))
  {
    var q := s.MutexOf(m).waitQ;
    FirstFound(s, q, LockWait);
    var t := FirstInState(s, q, LockWait).value;
    var s1 := MakeRunnable(SetOwner(s, m, Some(t)), t);
    assert LockQOk(q, m, s.threads);
    ThreadFacts(s, t);
    ThreadFacts(s, s.current);
    hide RunOk, ZombieOk, SleepOk, IoOk, CondOk, LockOk, StatesOk, CondReasons, LockReasons, JoinReasons, FirstInState;
    HandOffReasons(s, s1, m, t);
    WakeKeeps(s, s1, t);
    WakeRunning(s, s1, t, Some(s.current));
  }

  lemma UnlockKeeps(s: Vp, m: nat)
    requires InCall(s) && Executing(s)
    ensures Inv(StMutexUnlock(s, m).0) && StMutexUnlock(s, m).1 != Fault
  {
    if s.MutexOf(m).owner == Some(s.current) {
      if FirstInState(s, s.MutexOf(m).waitQ, LockWait) == None {
        ReleaseKeeps(s, m);
      } else {
        HandOffKeeps(s, m);
      }
    }
  }

  lemma InterruptKeeps(s: Vp, t: Tid)
    requires InCall(s) && Executing(s) && t in s.threads
    ensures Inv(StThreadInterrupt(s, t).0)
  {
    if Awake(s.threads[t]) {
      FlagKeeps(s, Put(s, t, s.threads[t].(interrupt := true)), t);
    } else if s.threads[t].state != Zombie {
      InterruptWaiterKeeps(s, t);
    }
  }

  lemma InterruptWaiterKeeps(s: Vp, t: Tid)
    requires InCall(s) && t in s.threads && Waiting(s.threads[t])
    ensures Inv(MakeRunnable(Put(s, t, s.threads[t].(interrupt := true)), t))
  {
    hide RunOk, ZombieOk, SleepOk, IoOk, CondOk, LockOk, StatesOk, CondReasons, LockReasons, JoinReasons, OnlyRunning;
    var s1 := MakeRunnable(Put(s, t, s.threads[t].(interrupt := true)), t);
    ThreadFacts(s, t);
    LockReasonsSame(s, s1, t);
    WakeKeeps(s, s1, t);
    WakeRunning(s, s1, t, Some(s.current));
  }

  lemma FlagKeeps(s: Vp, s1: Vp, t: Tid)
    requires Inv(s) && t in s.threads && s1 == Put(s, t, s.threads[t].(interrupt := true)) && Awake(s.threads[t])
    ensures Inv(s1)
  {
    hide RunOk, ZombieOk, SleepOk, IoOk, CondOk, LockOk, StatesOk, CondReasons, LockReasons, JoinReasons;
    ThreadFacts(s, t);
    RunSame(s, s1, t);
    ZombieSame(s, s1, t);
    SleepChange(s, s1, t);
    IoSame(s, s1, t);
    CondSame(s, s1, t);
    LockSame(s, s1, t);
    StatesSame(s, s1, t);
    ReasonsSame(s, s1, t);
    LockReasonsSame(s, s1, t);
    JoinReasonsSame(s, s1, t);
  }

  lemma CreateKeeps(s: Vp, t: Tid, join: bool)
    requires InCall(s) && Executing(s) && t !in s.threads && t != IDLE
    ensures Inv(StThreadCreate(s, t, join).0)
  {
    var s1 := StThreadCreate(s, t, join).0;
    forall c
      ensures CondQOk(s1.CondQ(c), c, s1.threads)
    {
      assert CondQOk(s.CondQ(c), c, s.threads) && s1.CondQ(c) == s.CondQ(c);
    }
    forall m
      ensures LockQOk(s1.MutexOf(m).waitQ, m, s1.threads)
    {
      assert LockQOk(s.MutexOf(m).waitQ, m, s.threads);
    }
    CreateQueues(s, s1, t);
    CreateReasons(s, s1, t);
  }

  lemma CreateQueues(s: Vp, s1: Vp, t: Tid)
    requires t !in s.threads && t != IDLE
    requires t in s1.threads && s1.threads == s.threads[t := s1.threads[t]] && s1.runQ == s.runQ + [t]
    requires s1.threads[t].state == Runnable && !s1.threads[t].onSleepQ
    requires s1 == s.(threads := s1.threads, runQ := s1.runQ)
    requires RunOk(s) && ZombieOk(s) && SleepOk(s) && IoOk(s)
    ensures RunOk(s1) && ZombieOk(s1) && SleepOk(s1) && IoOk(s1)
  {
  }

  lemma CreateReasons(s: Vp, s1: Vp, t: Tid)
    requires t !in s.threads && t != IDLE
    requires t in s1.threads && s1.threads == s.threads[t := s1.threads[t]]
    requires s1.threads[t].pc == InUserCode && s1.threads[t].state == Runnable
    requires !s1.threads[t].onSleepQ && !s1.threads[t].timedOut && !s1.threads[t].signalled
    requires s1.mutexes == s.mutexes
    requires StatesOk(s) && CondReasons(s) && LockReasons(s) && JoinReasons(s)
    ensures StatesOk(s1) && CondReasons(s1) && LockReasons(s1) && JoinReasons(s1)
  {
    forall u | u in s1.threads
      ensures LockReason(s1, u, s1.threads[u]) && JoinReason(s1, s1.threads[u])
    {
      if u != t {
        assert LockReason(s, u, s.threads[u]) && JoinReason(s, s.threads[u]);
      }
    }
  }

  lemma CanRun(s: Vp)
    requires Inv(s) && s.current != IDLE
    ensures Executing(s)
  {
  }

  lemma ResumePollKeeps(s: Vp)
    requires Inv(s) && s.current != IDLE && s.threads[s.current].pc == InPoll
    requires Executing(s)
    ensures Inv(AfterPoll(s).0)
  {
    hide RunOk, ZombieOk, SleepOk, IoOk, CondOk, LockOk, StatesOk, CondReasons, LockReasons, JoinReasons;
    var s1 := AfterPoll(s).0;
    var me := s.current;
    ThreadFacts(s, me);
    IoLeave(s, s1, me);
    CondSame(s, s1, me);
    LockSame(s, s1, me);
    ReturnKeeps(s, s1);
  }

  lemma ResumeSleepKeeps(s: Vp)
    requires Inv(s) && s.current != IDLE && s.threads[s.current].pc == InSleep
    requires Executing(s)
    ensures Inv(AfterUsleep(s).0)
  {
    hide RunOk, ZombieOk, SleepOk, IoOk, CondOk, LockOk, StatesOk, CondReasons, LockReasons, JoinReasons;
    var s1 := AfterUsleep(s).0;
    var me := s.current;
    ThreadFacts(s, me);
    IoSame(s, s1, me);
    CondSame(s, s1, me);
    LockSame(s, s1, me);
    ReturnKeeps(s, s1);
  }

  lemma EndWaitKeeps(s: Vp, c: Cond)
    requires Inv(s) && s.current != IDLE && s.threads[s.current].pc.WaitsFor() == Some(c)
    ensures InCall(EndWait(LeaveCondQ(s, c)).0)
    ensures c.TermCond? ==> EndWait(LeaveCondQ(s, c)).0.CondQ(c) == []
  {
    var s1 := EndWait(LeaveCondQ(s, c)).0;
    var me := s.current;
    ThreadFacts(s, me);
    IoSame(s, s1, me);
    CondLeave(s, s1, me, c);
    LockSame(s, s1, me);
    ReturnKeeps(s, s1);
  }

  /** A wait for a condition ends without an error only if it was signalled. */
  lemma EndWaitDone(s: Vp)
    requires CondReasons(s) && s.current in s.threads && Awake(s.threads[s.current])
    requires s.threads[s.current].pc.WaitsFor().Some?
    ensures EndWait(s).1 == Done ==> s.threads[s.current].signalled
    ensures EndWait(s).1 == Failed(ETIME) ==> !s.threads[s.current].signalled
  {
    assert CondReason(s.threads[s.current]);
  }

  lemma ResumeJoinKeeps(s: Vp, g: Tid)
    requires Inv(s) && s.current != IDLE && s.threads[s.current].pc == InJoin(g)
    requires Executing(s)
    ensures Inv(AfterThreadJoin(s, g).0) && AfterThreadJoin(s, g).1 != Fault
  {
    var me := s.current;
    EndWaitKeeps(s, TermCond(g));
    var (s1, ret) := EndWait(LeaveCondQ(s, TermCond(g)));
    if ret == Done {
      EndWaitDone(s);
      assert JoinReason(s, s.threads[me]) && Consistent(me, s.threads[me]);
      JoinTestKeeps(s1, g);
    }
  }

  lemma ResumeLockKeeps(s: Vp, m: nat)
    requires Inv(s) && s.current != IDLE && s.threads[s.current].pc == InLock(m)
    requires Executing(s)
    ensures Inv(AfterMutexLock(s, m).0)
  {
    hide RunOk, ZombieOk, SleepOk, IoOk, CondOk, LockOk, StatesOk, CondReasons, LockReasons, JoinReasons;
    var s1 := AfterMutexLock(s, m).0;
    var me := s.current;
    ThreadFacts(s, me);
    IoSame(s, s1, me);
    CondSame(s, s1, me);
    LockLeave(s, s1, me, m);
    ReturnKeeps(s, s1);
  }

  lemma ResumeKeeps(s: Vp)
    requires Inv(s) && Enabled(s, Resume)
    ensures Executing(s) && Inv(DoResume(s).0) && DoResume(s).1 != Fault
  {
    CanRun(s);
    assert Consistent(s.current, s.threads[s.current]);
    match s.threads[s.current].pc
    case InPoll => ResumePollKeeps(s);
    case InSleep => ResumeSleepKeeps(s);
    case InCondWait(c) => EndWaitKeeps(s, UserCond(c));
    case InJoin(g) => ResumeJoinKeeps(s, g);
    case InLock(m) => ResumeLockKeeps(s, m);
    case InExit => RemoveKeeps(s);
    case InUserCode =>
    case InIdleLoop =>
  }

  lemma StPollKeeps(s: Vp, added: bool, timeout: Option<nat>)
    requires InCall(s) && Executing(s)
    ensures Inv(StPoll(s, added, timeout).0)
  {
    if s.threads[s.current].interrupt {
      ClearInterruptKeeps(s);
    } else {
      PollKeeps(s, timeout);
    }
  }

  lemma StUsleepKeeps(s: Vp, timeout: Option<nat>)
    requires InCall(s) && Executing(s)
    ensures Inv(StUsleep(s, timeout).0)
  {
    if s.threads[s.current].interrupt {
      ClearInterruptKeeps(s);
    } else {
      SleepKeeps(s, if timeout.Some? then Sleeping else Suspended, timeout);
    }
  }

  lemma StCondTimedwaitKeeps(s: Vp, c: nat, timeout: Option<nat>)
    requires InCall(s) && Executing(s)
    ensures Inv(StCondTimedwait(s, c, timeout).0)
  {
    if s.threads[s.current].interrupt {
      ClearInterruptKeeps(s);
    } else {
      CondWaitKeeps(s, UserCond(c), InCondWait(c), timeout);
    }
  }

  lemma LockKeeps(s: Vp, m: nat)
    requires InCall(s) && Executing(s)
    ensures Inv(StMutexLock(s, m).0) && StMutexLock(s, m).1 != Fault
  {
    if s.threads[s.current].interrupt {
      ClearInterruptKeeps(s);
    } else if s.MutexOf(m).owner == None {
      AcquireKeeps(s, m);
    } else if s.MutexOf(m).owner != Some(s.current) {
      LockWaitKeeps(s, m);
    }
  }

  lemma TryLockKeeps(s: Vp, m: nat)
    requires InCall(s) && Executing(s)
    ensures Inv(StMutexTrylock(s, m).0) && StMutexTrylock(s, m).1 != Fault
  {
    if s.MutexOf(m).owner == None {
      AcquireKeeps(s, m);
    }
  }

  lemma SignalCallKeeps(s: Vp, c: nat)
    requires InCall(s) && Executing(s)
    ensures Inv(Signal(s, UserCond(c))) && Inv(SignalAll(s, s.CondQ(UserCond(c))))
  {
    SignalKeeps(s, UserCond(c), Some(s.current));
    assert CondQOk(s.CondQ(UserCond(c)), UserCond(c), s.threads);
    SignalAllKeeps(s, s.CondQ(UserCond(c)), Some(s.current));
    SignalAllFrame(s, s.CondQ(UserCond(c)));
  }

  lemma ExitKeeps(s: Vp)
    requires InCall(s) && Executing(s)
    ensures Inv(StThreadExit(s).0)
  {
    if s.threads[s.current].joinable {
      ExitJoinableKeeps(s);
    } else {
      RemoveKeeps(s);
    }
  }

  lemma JoinKeeps(s: Vp, g: Tid)
    requires InCall(s) && Executing(s) && g in s.threads
    ensures Inv(StThreadJoin(s, g).0) && StThreadJoin(s, g).1 != Fault
  {
    if s.threads[g].joinable && g != s.current && s.CondQ(TermCond(g)) == [] {
      JoinTestKeeps(s, g);
    }
  }

  lemma CondCallKeeps(s: Vp, call: Call)
    requires InCall(s) && Executing(s) && (call.Sleep? || call.CondWaitFor? || call.CondSignal? || call.CondBroadcast?)
    ensures Inv(DoSyncCall(s, call).0) && DoSyncCall(s, call).1 != Fault
  {
    match call
    case Sleep(timeout) => StUsleepKeeps(s, timeout);
    case CondWaitFor(c, timeout) => StCondTimedwaitKeeps(s, c, timeout);
    case CondSignal(c) => SignalCallKeeps(s, c);
    case CondBroadcast(c) => SignalCallKeeps(s, c);
  }

  lemma MutexCallKeeps(s: Vp, call: Call)
    requires InCall(s) && Executing(s) && (call.Lock? || call.Unlock? || call.TryLock?)
    ensures Inv(DoSyncCall(s, call).0) && DoSyncCall(s, call).1 != Fault
  {
    hide Inv, StMutexLock, StMutexUnlock, StMutexTrylock;
    match call
    case Lock(m) => LockKeeps(s, m);
    case Unlock(m) => UnlockKeeps(s, m);
    case TryLock(m) => TryLockKeeps(s, m);
  }

  lemma ThreadCallKeeps(s: Vp, call: Call)
    requires Executing(s) && Inv(s) && Enabled(s, Invoke(call)) && !IsSyncCall(call)
    ensures Inv(DoThreadCall(s, call).0) && DoThreadCall(s, call).1 != Fault
  {
    match call
    case Poll(added, timeout) => StPollKeeps(s, added, timeout);
    case Interrupt(t) => InterruptKeeps(s, t);
    case Create(t, join) => CreateKeeps(s, t, join);
    case Exit => ExitKeeps(s);
    case Join(g) => JoinKeeps(s, g);
  }

  lemma CallKeeps(s: Vp, call: Call)
    requires Inv(s) && Enabled(s, Invoke(call))
    ensures Executing(s) && Inv(DoCall(s, call).0) && DoCall(s, call).1 != Fault
  {
    CanRun(s);
    if call.Lock? || call.Unlock? || call.TryLock? {
      MutexCallKeeps(s, call);
    } else if IsSyncCall(call) {
      CondCallKeeps(s, call);
    } else {
      ThreadCallKeeps(s, call);
    }
  }

  lemma {:induction false} SignalAllFrame(s: Vp, q: seq<Tid>)
    ensures SignalAll(s, q).current == s.current && SignalAll(s, q).threads.Keys == s.threads.Keys
    ensures SignalAll(s, q).mutexes == s.mutexes
    decreases |q|
  {
    if q != [] {
      var t := q[0];
      SignalAllFrame(if t in s.threads && s.threads[t].state == CondWait then SignalTo(s, t) else s, q[1..]);
    }
  }

  // ---------------------------------------------------------------- runs

  ghost function Step(s: Vp, e: Event): (Vp, Ret)
    requires Inv(s) && Enabled(s, e)
  {
    match e
    case Invoke(call) => CallKeeps(s, call); DoCall(s, call)
    case Resume => ResumeKeeps(s); DoResume(s)
    case Turn(fired, now, due) => (DoTurn(s, fired, now, due), Blocked)
  }

  lemma StepKeeps(s: Vp, e: Event)
    requires Inv(s) && Enabled(s, e)
    ensures Inv(Step(s, e).0) && Step(s, e).1 != Fault
  {
    match e
    case Invoke(call) => CallKeeps(s, call);
    case Resume => ResumeKeeps(s);
    case Turn(fired, now, due) => TurnKeeps(s, fired, now, due);
  }

  /** The machine as st_init leaves it: the idle thread, off the run queue, and the primordial
      thread, running. */
  function Boot(now: nat): Vp {
    var idle := Thread(Runnable, InIdleLoop, false, false, false, false, 0, false);
    var primordial := Thread(Running, InUserCode, false, false, false, false, 0, false);
    Vp(map[IDLE := idle, 1 := primordial], 1, [], [], [], {}, now, map[], map[])
  }

  lemma BootQueues(now: nat)
    ensures var s := Boot(now); RunOk(s) && ZombieOk(s) && SleepOk(s) && IoOk(s)
  {
  }

  lemma BootWaiters(now: nat)
    ensures CondOk(Boot(now)) && LockOk(Boot(now))
  {
    var s := Boot(now);
    forall c
      ensures CondQOk(s.CondQ(c), c, s.threads)
    {
      assert s.CondQ(c) == [];
    }
    forall m
      ensures LockQOk(s.MutexOf(m).waitQ, m, s.threads)
    {
      assert s.MutexOf(m) == Mutex(None, []);
    }
  }

  lemma BootReasons(now: nat)
    ensures var s := Boot(now); StatesOk(s) && CondReasons(s) && LockReasons(s) && JoinReasons(s)
  {
  }

  lemma BootInv(now: nat)
    ensures Inv(Boot(now))
  {
    BootQueues(now);
    BootWaiters(now);
    BootReasons(now);
  }

  ghost predicate IsRun(s: Vp, es: seq<Event>)
    requires Inv(s)
    decreases |es|
  {
    es != [] ==> Enabled(s, es[0]) && (StepKeeps(s, es[0]); IsRun(Step(s, es[0]).0, es[1..]))
  }

  ghost function Exec(s: Vp, es: seq<Event>): Vp
    requires Inv(s) && IsRun(s, es)
    decreases |es|
  {
    if es == [] then s else (StepKeeps(s, es[0]); Exec(Step(s, es[0]).0, es[1..]))
  }

  /** Who is linked where. */
  ghost predicate QueueDiscipline(s: Vp) {
    && NoDup(s.runQ) && IDLE !in s.runQ && s.current !in s.runQ && s.current !in s.sleepQ
    && (forall t | t in s.runQ || t in s.sleepQ || t in s.zombieQ :: t in s.threads)
    && (forall t | t in s.threads && t != IDLE && t != s.current ::
          && (t in s.runQ <==> s.threads[t].state == Runnable)
          && (t in s.sleepQ <==> s.threads[t].onSleepQ)
          && (t in s.zombieQ <==> s.threads[t].state == Zombie))
    && (s.current == IDLE ==> s.runQ == [] && forall t | t in s.ioQ :: t in s.threads && s.threads[t].state == IoWait)
  }

  lemma InvDiscipline(s: Vp)
    requires Inv(s)
    ensures QueueDiscipline(s)
  {
    assert Consistent(s.current, s.threads[s.current]);
    if s.current == IDLE {
      IdleSeesOnlyWaiters(s);
    }
  }

  /** Over every run of the scheduler, for every choice the kernel, the clock and the threads
      make, no thread is on the run queue twice and every thread is linked where its state says. The
      current thread, the only one that can be put on the sleep queue, is not on it. */
  lemma {:induction false} EveryRunIsDisciplined(s: Vp, es: seq<Event>)
    requires Inv(s) && IsRun(s, es)
    ensures Inv(Exec(s, es)) && QueueDiscipline(Exec(s, es))
    decreases |es|
  {
    if es == [] {
      InvDiscipline(s);
    } else {
      StepKeeps(s, es[0]);
      EveryRunIsDisciplined(Step(s, es[0]).0, es[1..]);
    }
  }

  // ---------------------------------------------------------------- mutexes

  lemma FreeMutexHasNoWaiter(s: Vp, m: nat, t: Tid)
    requires Inv(s) && s.MutexOf(m).owner == None
    requires t in s.threads && s.threads[t].pc == InLock(m)
    ensures s.threads[t].state != LockWait
  {
    assert LockReason(s, t, s.threads[t]);
  }

  /** A call to st_mutex_lock that returns success, at once or after waiting, returns to the
      owner; it succeeds at once exactly if it is not interrupted and the mutex is free. One that waited fails exactly if it was interrupted before ownership reached it, and
      an interrupt that came later is still pending afterwards. */
  lemma LockReturnsToOwner(s: Vp, m: nat)
    requires Inv(s) && Executing(s)
    ensures s.threads[s.current].pc == InUserCode ==>
      var (s1, ret) := StMutexLock(s, m);
      && (ret == Done <==> !s.threads[s.current].interrupt && s.MutexOf(m).owner == None)
      && (ret == Done ==> s1.MutexOf(m).owner == Some(s.current))
    ensures s.threads[s.current].pc == InLock(m) ==>
      var (s1, ret) := AfterMutexLock(s, m);
      && (ret == Done <==> s1.MutexOf(m).owner == Some(s.current))
      && (ret == Failed(EINTR) <==> s1.MutexOf(m).owner != Some(s.current))
      && (ret == Done ==> s1.threads[s.current].interrupt == s.threads[s.current].interrupt)
      && (ret == Failed(EINTR) ==> s.threads[s.current].interrupt && !s1.threads[s.current].interrupt)
  {
    assert LockReason(s, s.current, s.threads[s.current]);
  }

  lemma CallKeepsOwner(s: Vp, call: Call, m: nat)
    requires Executing(s) && s.MutexOf(m).owner.Some?
    requires call == Unlock(m) ==> s.MutexOf(m).owner != Some(s.current)
    ensures DoCall(s, call).0.MutexOf(m).owner == s.MutexOf(m).owner
  {
    match call
    case CondBroadcast(c) => SignalAllFrame(s, s.CondQ(UserCond(c)));
    case _ =>
  }

  lemma {:induction false} DispatchMutexes(s: Vp, q: seq<Tid>, fired: set<Tid>)
    ensures Dispatch(s, q, fired).mutexes == s.mutexes
    decreases |q|
  {
    if q != [] {
      var t := q[0];
      DispatchMutexes(if t in fired && t in s.threads then MakeRunnable(s, t).(ioQ := Without(s.ioQ, t)) else s, q[1..], fired);
    }
  }

  lemma {:induction false} WakeDueMutexes(s: Vp, due: seq<Tid>)
    ensures WakeDue(s, due).mutexes == s.mutexes
    decreases |due|
  {
    if due != [] {
      WakeDueMutexes(if due[0] in s.threads then TimeOut(s, due[0]) else s, due[1..]);
    }
  }

  /** Nobody but the owner of a mutex, by unlocking it, can end its ownership. */
  lemma OnlyOwnerReleases(s: Vp, e: Event, m: nat)
    requires Inv(s) && Enabled(s, e) && s.MutexOf(m).owner.Some?
    ensures Step(s, e).0.MutexOf(m).owner != s.MutexOf(m).owner ==>
      e == Invoke(Unlock(m)) && s.MutexOf(m).owner == Some(s.current)
  {
    hide Inv, Dispatch, WakeDue, DoCall;
    match e
    case Invoke(call) =>
      CanRun(s);
      if call != Unlock(m) || s.MutexOf(m).owner != Some(s.current) {
        CallKeepsOwner(s, call, m);
      }
    case Resume =>
      CanRun(s);
    case Turn(fired, now, due) =>
      DispatchMutexes(s, s.ioQ, fired);
      WakeDueMutexes(Dispatch(s, s.ioQ, fired).(clock := now), due);
  }

  /** Thread t does not unlock m in the run. */
  ghost predicate Holds(s: Vp, es: seq<Event>, m: nat, t: Tid)
    requires Inv(s) && IsRun(s, es)
    decreases |es|
  {
    es == [] ||
    ((s.current == t ==> es[0] != Invoke(Unlock(m))) && (StepKeeps(s, es[0]); Holds(Step(s, es[0]).0, es[1..], m, t)))
  }

  /** Mutual exclusion: over every run in which the owner does not unlock, it stays the owner, and no
      lock or trylock of anybody else succeeds. */
  lemma {:induction false} MutualExclusion(s: Vp, es: seq<Event>, m: nat, t: Tid)
    requires Inv(s) && IsRun(s, es) && Holds(s, es, m, t) && s.MutexOf(m).owner == Some(t)
    ensures var r := Exec(s, es);
      && Inv(r) && r.MutexOf(m).owner == Some(t)
      && (Executing(r) && r.current != t ==>
            && StMutexLock(r, m).1 != Done && StMutexTrylock(r, m).1 != Done
            && (r.threads[r.current].pc == InLock(m) ==> AfterMutexLock(r, m).1 != Done))
    decreases |es|
  {
    if es == [] {
      if Executing(s) {
        LockReturnsToOwner(s, m);
      }
    } else {
      hide Inv, Enabled, Step;
      StepKeeps(s, es[0]);
      OnlyOwnerReleases(s, es[0], m);
      MutualExclusion(Step(s, es[0]).0, es[1..], m, t);
    }
  }

  /** The waiter that is first in q among those in the given state. */
  ghost predicate EarliestIn(s: Vp, q: seq<Tid>, state: ThreadState, i: nat) {
    && i < |q| && q[i] in s.threads && s.threads[q[i]].state == state
    && forall j | 0 <= j < i :: q[j] in s.threads ==> s.threads[q[j]].state != state
  }

  ghost predicate SomeoneIn(s: Vp, q: seq<Tid>, state: ThreadState) {
    exists t | t in q :: t in s.threads && s.threads[t].state == state
  }

  lemma FirstIsEarliest(s: Vp, q: seq<Tid>, state: ThreadState)
    ensures SomeoneIn(s, q, state) <==> FirstInState(s, q, state).Some?
    ensures SomeoneIn(s, q, state) ==>
      exists i: nat :: EarliestIn(s, q, state, i) && FirstInState(s, q, state) == Some(q[i])
  {
    FirstFound(s, q, state);
    var first := FirstInState(s, q, state);
    if first.Some? {
      var i :| 0 <= i < |q| && q[i] == first.value
        && forall j | 0 <= j < i :: q[j] in s.threads ==> s.threads[q[j]].state != state;
      assert EarliestIn(s, q, state, i);
      assert first.value in q;
    }
  }

  /** Mutex m passes from the current thread to waiter i, and nothing else changes. */
  ghost predicate HandedTo(s: Vp, s1: Vp, m: nat, i: nat) {
    var q := s.MutexOf(m).waitQ;
    && EarliestIn(s, q, LockWait, i)
    && s1.MutexOf(m).owner == Some(q[i]) && s1.runQ == s.runQ + [q[i]]
    && s1.threads == s.threads[q[i] := s.threads[q[i]].(state := Runnable, onSleepQ := false)]
  }

  /** Ownership goes to the earliest waiter still waiting, which becomes runnable behind everybody
      already runnable; with no such waiter the mutex becomes free. Nobody else is affected. */
  lemma UnlockHandsToEarliest(s: Vp, m: nat)
    requires Executing(s) && s.MutexOf(m).owner == Some(s.current)
    ensures var s1 := StMutexUnlock(s, m).0;
      && s1.MutexOf(m).waitQ == s.MutexOf(m).waitQ
      && (forall n | n != m :: s1.MutexOf(n) == s.MutexOf(n))
      && (SomeoneIn(s, s.MutexOf(m).waitQ, LockWait) ==> exists i: nat :: HandedTo(s, s1, m, i))
      && (!SomeoneIn(s, s.MutexOf(m).waitQ, LockWait) ==>
            s1.MutexOf(m).owner == None && s1.threads == s.threads && s1.runQ == s.runQ)
  {
    var q := s.MutexOf(m).waitQ;
    FirstIsEarliest(s, q, LockWait);
    if SomeoneIn(s, q, LockWait) {
      var i: nat :| EarliestIn(s, q, LockWait, i) && FirstInState(s, q, LockWait) == Some(q[i]);
      assert HandedTo(s, StMutexUnlock(s, m).0, m, i);
    }
  }

  // ---------------------------------------------------------------- condition variables

  /** The signal is spent on waiter i of q, and nothing else changes. */
  ghost predicate SpentOn(s: Vp, s1: Vp, q: seq<Tid>, i: nat) {
    && EarliestIn(s, q, CondWait, i)
    && s1.runQ == s.runQ + [q[i]] && s1.sleepQ == s.sleepQ - {q[i]} && !s.threads[q[i]].timedOut
    && s1.threads == s.threads[q[i] := s.threads[q[i]].(state := Runnable, onSleepQ := false, signalled := true)]
  }

  /** A signal wakes the earliest waiter still in COND_WAIT, if there is one, and nobody else; it
      is never spent on a waiter that a timeout or an interrupt already woke. */
  lemma SignalWakesEarliest(s: Vp, c: Cond)
    requires CondReasons(s)
    ensures Signal(s, c).condQs == s.condQs && Signal(s, c).mutexes == s.mutexes
    ensures SomeoneIn(s, s.CondQ(c), CondWait) ==> exists i: nat :: SpentOn(s, Signal(s, c), s.CondQ(c), i)
    ensures !SomeoneIn(s, s.CondQ(c), CondWait) ==> Signal(s, c) == s
  {
    var q := s.CondQ(c);
    FirstIsEarliest(s, q, CondWait);
    if SomeoneIn(s, q, CondWait) {
      var i: nat :| EarliestIn(s, q, CondWait, i) && FirstInState(s, q, CondWait) == Some(q[i]);
      assert CondReason(s.threads[q[i]]);
      assert SpentOn(s, Signal(s, c), q, i);
    }
  }

  /** What st_cond_timedwait returns: success only to a thread that was signalled, a timeout only
      to one no signal was spent on, and an interrupt exactly when one came before it ran again. So
      the call hides a signal spent on it exactly when an interrupt followed the signal. */
  lemma WaitResult(s: Vp, c: nat)
    requires Inv(s) && Executing(s) && s.threads[s.current].pc == InCondWait(c)
    ensures var me := s.threads[s.current];
      var ret := AfterCondTimedwait(s, c).1;
      && (ret == Done <==> me.signalled && !me.interrupt)
      && (ret == Failed(ETIME) <==> me.timedOut && !me.interrupt)
      && (ret == Failed(ETIME) ==> !me.signalled)
      && (ret == Failed(EINTR) <==> me.interrupt)
  {
    assert CondReason(s.threads[s.current]);
  }

  /** A signal can be lost: signal the condition, then interrupt the thread it woke. Whenever that
      thread runs again, it reports the interrupt. */
  lemma InterruptSwallowsSignal(s: Vp, c: nat, t: Tid)
    requires InCall(s) && Executing(s) && t in s.threads
    requires FirstInState(s, s.CondQ(UserCond(c)), CondWait) == Some(t) && s.threads[t].state == CondWait
    ensures var s1 := Signal(s, UserCond(c));
      && Executing(s1) && InCall(s1)
      && var s2 := StThreadInterrupt(s1, t).0;
         t in s2.threads && s2.threads[t].signalled && s2.threads[t].interrupt && t in s2.runQ
    ensures forall r | Inv(r) && Executing(r) && r.current == t && r.threads[t].pc == InCondWait(c) && r.threads[t].interrupt ::
      AfterCondTimedwait(r, c).1 == Failed(EINTR)
  {
    SignalKeeps(s, UserCond(c), Some(s.current));
    CanRun(Signal(s, UserCond(c)));
    forall r | Inv(r) && Executing(r) && r.current == t && r.threads[t].pc == InCondWait(c) && r.threads[t].interrupt
      ensures AfterCondTimedwait(r, c).1 == Failed(EINTR)
    {
      WaitResult(r, c);
    }
  }

  // A run in which this happens, from the start: the primordial thread creates thread 2 and waits;
  // thread 2 signals, interrupts and sleeps.

  function SwallowingRun(): seq<Event> {
    [Invoke(Create(2, false)), Invoke(CondWaitFor(0, None)), Invoke(CondSignal(0)), Invoke(Interrupt(1)), Invoke(Sleep(None))]
  }

  /** A thread that can only be told of the interrupt. */
  predicate Swallowing(s: Vp) {
    s.current == 1 && 1 in s.threads && s.threads[1].pc == InCondWait(0) && s.threads[1].signalled && s.threads[1].interrupt
  }

  function User(state: ThreadState, pc: Pc, interrupt: bool, signalled: bool): Thread {
    Thread(state, pc, false, interrupt, false, false, 0, signalled)
  }

  /** The states on the way, as far as threads 1 and 2 are concerned. */
  ghost predicate Pair(s: Vp, current: Tid, runQ: seq<Tid>, first: Thread, second: Thread, waiting: bool) {
    && s.current == current && s.runQ == runQ && s.threads.Keys == {IDLE, 1, 2}
    && s.threads[1] == first && s.threads[2] == second
    && s.CondQ(UserCond(0)) == (if waiting then [1] else [])
  }

  lemma SwallowCreate(now: nat)
    ensures Inv(Boot(now)) && var e := Invoke(Create(2, false));
      Enabled(Boot(now), e) &&
      Pair(Step(Boot(now), e).0, 1, [2], User(Running, InUserCode, false, false), User(Runnable, InUserCode, false, false), false)
  {
    BootInv(now);
  }

  lemma SwallowWait(s: Vp)
    requires Inv(s) && Pair(s, 1, [2], User(Running, InUserCode, false, false), User(Runnable, InUserCode, false, false), false)
    ensures var e := Invoke(CondWaitFor(0, None));
      Enabled(s, e) &&
      Pair(Step(s, e).0, 2, [], User(CondWait, InCondWait(0), false, false), User(Running, InUserCode, false, false), true)
  {
    hide Inv;
  }

  lemma SwallowSignal(s: Vp)
    requires Inv(s) && Pair(s, 2, [], User(CondWait, InCondWait(0), false, false), User(Running, InUserCode, false, false), true)
    ensures var e := Invoke(CondSignal(0));
      Enabled(s, e) &&
      Pair(Step(s, e).0, 2, [1], User(Runnable, InCondWait(0), false, true), User(Running, InUserCode, false, false), true)
  {
    hide Inv;
    assert FirstInState(s, [1], CondWait) == Some(1);
  }

  lemma SwallowInterrupt(s: Vp)
    requires Inv(s) && Pair(s, 2, [1], User(Runnable, InCondWait(0), false, true), User(Running, InUserCode, false, false), true)
    ensures var e := Invoke(Interrupt(1));
      Enabled(s, e) &&
      Pair(Step(s, e).0, 2, [1], User(Runnable, InCondWait(0), true, true), User(Running, InUserCode, false, false), true)
  {
    hide Inv;
  }

  lemma SwallowSleep(s: Vp)
    requires Inv(s) && Pair(s, 2, [1], User(Runnable, InCondWait(0), true, true), User(Running, InUserCode, false, false), true)
    ensures var e := Invoke(Sleep(None)); Enabled(s, e) && Swallowing(Step(s, e).0)
  {
    hide Inv;
  }

  lemma RunsOn(s: Vp, e: Event, es: seq<Event>)
    requires Inv(s) && Enabled(s, e) && Inv(Step(s, e).0) && IsRun(Step(s, e).0, es)
    ensures IsRun(s, [e] + es) && Exec(s, [e] + es) == Exec(Step(s, e).0, es)
  {
    hide Inv, Enabled, Step;
    assert ([e] + es)[1..] == es;
  }

  /** The scheduler reaches a state in which a signalled thread reports the interrupt only. */
  lemma SwallowingRunExists(now: nat)
    ensures Inv(Boot(now)) && IsRun(Boot(now), SwallowingRun())
    ensures var s := Exec(Boot(now), SwallowingRun());
      Inv(s) && Swallowing(s) && Enabled(s, Resume) && Step(s, Resume).1 == Failed(EINTR)
  {
    hide Inv, Enabled, Step, Pair, Swallowing;
    var e := SwallowingRun();
    SwallowCreate(now);
    var s0 := Boot(now);
    StepKeeps(s0, e[0]);
    var s1 := Step(s0, e[0]).0;
    SwallowWait(s1);
    StepKeeps(s1, e[1]);
    var s2 := Step(s1, e[1]).0;
    SwallowSignal(s2);
    StepKeeps(s2, e[2]);
    var s3 := Step(s2, e[2]).0;
    SwallowInterrupt(s3);
    StepKeeps(s3, e[3]);
    var s4 := Step(s3, e[3]).0;
    SwallowSleep(s4);
    StepKeeps(s4, e[4]);
    var s5 := Step(s4, e[4]).0;
    RunsOn(s4, e[4], []);
    RunsOn(s3, e[3], [e[4]]);
    RunsOn(s2, e[2], [e[3]] + [e[4]]);
    RunsOn(s1, e[1], [e[2]] + ([e[3]] + [e[4]]));
    RunsOn(s0, e[0], [e[1]] + ([e[2]] + ([e[3]] + [e[4]])));
    assert e == [e[0]] + ([e[1]] + ([e[2]] + ([e[3]] + [e[4]])));
    SwallowedResult(s5);
  }

  lemma SwallowedResult(s: Vp)
    requires Inv(s) && Swallowing(s)
    ensures Enabled(s, Resume) && Step(s, Resume).1 == Failed(EINTR)
  {
    CanRun(s);
    hide Inv;
    WaitResult(s, 0);
  }

  // ---------------------------------------------------------------- what one idle turn does

  /** The elements of q that are in fired, in queue order. */
  function Among(q: seq<Tid>, fired: set<Tid>): seq<Tid> {
    if q == [] then []
    else if q[0] in fired then [q[0]] + Among(q[1..], fired)
    else Among(q[1..], fired)
  }

  lemma {:induction false} AmongMember(q: seq<Tid>, fired: set<Tid>, t: Tid)
    ensures t in Among(q, fired) <==> t in q && t in fired
  {
    if q != [] {
      assert q == [q[0]] + q[1..];
      AmongMember(q[1..], fired, t);
    }
  }

  lemma WokenJoins(s: Vp, t: Tid)
    requires t in s.threads
    ensures var s1 := MakeRunnable(s, t);
      s1.runQ == s.runQ + [t] && s1.current == s.current && s1.threads.Keys == s.threads.Keys
  {
  }

  /** Dispatch makes the fired pollers runnable in the order in which they queued. */
  lemma {:induction false} DispatchQueue(s: Vp, q: seq<Tid>, fired: set<Tid>)
    requires forall t | t in q :: t in s.threads
    ensures Dispatch(s, q, fired).runQ == s.runQ + Among(q, fired)
    ensures Dispatch(s, q, fired).current == s.current && Dispatch(s, q, fired).threads.Keys == s.threads.Keys
    decreases |q|
  {
    hide Without, MakeRunnable;
    if q != [] {
      var t := q[0];
      WokenJoins(s, t);
      DispatchQueue(if t in fired then MakeRunnable(s, t).(ioQ := Without(s.ioQ, t)) else s, q[1..], fired);
    }
  }

  /** Dispatch changes nothing but the fired pollers. */
  lemma {:induction false} DispatchThreads(s: Vp, q: seq<Tid>, fired: set<Tid>)
    requires NoDup(q) && forall t | t in q :: t in s.threads
    ensures var s1 := Dispatch(s, q, fired);
      && s1.threads.Keys == s.threads.Keys
      && (forall t :: t in s1.sleepQ <==> t in s.sleepQ && !(t in q && t in fired))
      && forall t | t in s.threads :: s1.threads[t] ==
           if t in q && t in fired then s.threads[t].(state := Runnable, onSleepQ := false) else s.threads[t]
    decreases |q|
  {
    hide NoDup;
    if q != [] {
      NoDupTail(q);
      var t := q[0];
      assert q == [t] + q[1..] && t !in q[1..];
      DispatchThreads(if t in fired then MakeRunnable(s, t).(ioQ := Without(s.ioQ, t)) else s, q[1..], fired);
    }
  }

  /** Dispatch takes exactly the fired pollers off the I/O queue. */
  lemma {:induction false} DispatchIoQ(s: Vp, q: seq<Tid>, fired: set<Tid>, t: Tid)
    requires forall u | u in q :: u in s.threads
    ensures t in Dispatch(s, q, fired).ioQ <==> t in s.ioQ && !(t in q && t in fired)
    decreases |q|
  {
    if q != [] {
      var u := q[0];
      assert q == [u] + q[1..];
      DispatchIoQ(if u in fired then MakeRunnable(s, u).(ioQ := Without(s.ioQ, u)) else s, q[1..], fired, t);
    }
  }

  /** The clock pass makes the due sleepers runnable in due order. */
  lemma {:induction false} WakeDueQueue(s: Vp, due: seq<Tid>)
    requires forall t | t in due :: t in s.threads
    ensures WakeDue(s, due).runQ == s.runQ + due
    ensures WakeDue(s, due).current == s.current && WakeDue(s, due).threads.Keys == s.threads.Keys
    decreases |due|
  {
    if due != [] {
      assert due == [due[0]] + due[1..];
      WakeDueQueue(TimeOut(s, due[0]), due[1..]);
    }
  }

  /** The clock pass changes nothing but the due sleepers, and marks as timed out exactly those
      of them that wait on a condition variable. */
  lemma {:induction false} WakeDueThreads(s: Vp, due: seq<Tid>)
    requires NoDup(due) && forall t | t in due :: t in s.threads
    ensures var s1 := WakeDue(s, due);
      && s1.threads.Keys == s.threads.Keys
      && forall t | t in s.threads :: s1.threads[t] ==
           if t in due
           then s.threads[t].(state := Runnable, onSleepQ := false,
                              timedOut := s.threads[t].timedOut || s.threads[t].state == CondWait)
           else s.threads[t]
    decreases |due|
  {
    hide NoDup;
    if due != [] {
      NoDupTail(due);
      assert due == [due[0]] + due[1..] && due[0] !in due[1..];
      WakeDueThreads(TimeOut(s, due[0]), due[1..]);
    }
  }

  /** The clock pass changes nothing else. */
  lemma {:induction false} WakeDueFrame(s: Vp, due: seq<Tid>)
    requires forall t | t in due :: t in s.threads
    ensures var s1 := WakeDue(s, due);
      s1 == s.(threads := s1.threads, runQ := s1.runQ, sleepQ := s.sleepQ - set t | t in due)
    decreases |due|
  {
    if due == [] {
      assert s.sleepQ - (set t | t in due) == s.sleepQ;
    } else {
      assert due == [due[0]] + due[1..];
      WakeDueFrame(TimeOut(s, due[0]), due[1..]);
      assert s.sleepQ - {due[0]} - (set t | t in due[1..]) == s.sleepQ - set t | t in due;
    }
  }

  /** The threads a turn of the idle thread makes runnable: the fired pollers, in queue order,
      followed by the other sleepers that are due, in due order; the first of them runs. */
  ghost predicate TurnOutcome(s: Vp, s1: Vp, fired: set<Tid>, now: nat, due: seq<Tid>) {
    var woken := Among(s.ioQ, fired) + due;
    && s1.threads.Keys == s.threads.Keys
    && (if woken == [] then s1.current == IDLE && s1.runQ == [] else s1.current == woken[0] && s1.runQ == woken[1..])
    && (forall t :: t in due <==> t in s.sleepQ && t in s.threads && t !in Among(s.ioQ, fired) && s.threads[t].due <= now)
    && (forall t | t in s.threads ::
          s1.threads[t].timedOut <==> s.threads[t].timedOut || (t in due && s.threads[t].state == CondWait))
  }

  /** The state after dispatch and the clock pass, before the idle thread switches away. */
  function AfterPasses(s: Vp, fired: set<Tid>, now: nat, due: seq<Tid>): Vp {
    WakeDue(Dispatch(s, s.ioQ, fired).(clock := now), due)
  }

  lemma PassesQueue(s: Vp, fired: set<Tid>, now: nat, due: seq<Tid>)
    requires s.runQ == [] && forall t | t in s.ioQ :: t in s.threads
    requires IsClockPass(Dispatch(s, s.ioQ, fired), now, due)
    ensures var s1 := AfterPasses(s, fired, now, due);
      && s1.threads.Keys == s.threads.Keys && s1.current == s.current
      && s1.runQ == Among(s.ioQ, fired) + due
      && (forall t | t in s1.runQ :: t in s1.threads)
  {
    hide Dispatch, WakeDue, Among, NoDup;
    DispatchQueue(s, s.ioQ, fired);
    WakeDueQueue(Dispatch(s, s.ioQ, fired).(clock := now), due);
    forall t | t in Among(s.ioQ, fired)
      ensures t in s.ioQ
    {
      AmongMember(s.ioQ, fired, t);
    }
  }

  lemma PassesFlags(s: Vp, fired: set<Tid>, now: nat, due: seq<Tid>)
    requires NoDup(s.ioQ) && forall t | t in s.ioQ :: t in s.threads
    requires IsClockPass(Dispatch(s, s.ioQ, fired), now, due)
    ensures var s1 := AfterPasses(s, fired, now, due);
      && s1.threads.Keys == s.threads.Keys
      && (forall t :: t in due <==> t in s.sleepQ && t in s.threads && t !in Among(s.ioQ, fired) && s.threads[t].due <= now)
      && (forall t | t in s.threads ::
            s1.threads[t].timedOut <==> s.threads[t].timedOut || (t in due && s.threads[t].state == CondWait))
  {
    hide Dispatch, WakeDue, Among;
    DispatchThreads(s, s.ioQ, fired);
    WakeDueThreads(Dispatch(s, s.ioQ, fired).(clock := now), due);
    forall t
      ensures t in Among(s.ioQ, fired) <==> t in s.ioQ && t in fired
    {
      AmongMember(s.ioQ, fired, t);
    }
  }

  lemma IdleSwitches(s: Vp)
    requires SafeToSchedule(s)
    ensures var s1 := Schedule(Put(s, IDLE, s.threads[IDLE].(state := Runnable)));
      && s1.current == (if s.runQ == [] then IDLE else s.runQ[0])
      && s1.runQ == (if s.runQ == [] then [] else s.runQ[1..])
      && s1.threads.Keys == s.threads.Keys
      && forall t | t in s.threads :: s1.threads[t].timedOut == s.threads[t].timedOut
  {
  }

  lemma TurnEffect(s: Vp, fired: set<Tid>, now: nat, due: seq<Tid>)
    requires IDLE in s.threads && s.runQ == [] && NoDup(s.ioQ) && forall t | t in s.ioQ :: t in s.threads
    requires IsClockPass(Dispatch(s, s.ioQ, fired), now, due)
    ensures TurnOutcome(s, DoTurn(s, fired, now, due), fired, now, due)
  {
    hide Dispatch, WakeDue, Among, NoDup, AfterPasses, IsClockPass;
    PassesQueue(s, fired, now, due);
    PassesFlags(s, fired, now, due);
    IdleSwitches(AfterPasses(s, fired, now, due));
    hide Schedule, Put;
  }

  lemma TurnWakes(s: Vp, fired: set<Tid>, now: nat, due: seq<Tid>)
    requires Inv(s) && Enabled(s, Turn(fired, now, due))
    ensures TurnOutcome(s, Step(s, Turn(fired, now, due)).0, fired, now, due)
  {
    TurnEffect(s, fired, now, due);
  }

  // ---------------------------------------------------------------- first come, first served

  /** The run queue moved at most one place and only grew at its end. */
  ghost predicate Fifo(s: Vp, s1: Vp) {
    s.runQ <= s1.runQ || (s.runQ != [] && s1.current == s.runQ[0] && s.runQ[1..] <= s1.runQ)
  }

  lemma {:induction false} SignalAllAppends(s: Vp, q: seq<Tid>)
    ensures s.runQ <= SignalAll(s, q).runQ
    decreases |q|
  {
    if q != [] {
      var t := q[0];
      SignalAllAppends(if t in s.threads && s.threads[t].state == CondWait then SignalTo(s, t) else s, q[1..]);
    }
  }

  lemma ScheduleFifo(s: Vp, s1: Vp)
    requires SafeToSchedule(s1) && s.runQ <= s1.runQ
    ensures Fifo(s, Schedule(s1))
  {
  }

  lemma SyncCallFifo(s: Vp, call: Call)
    requires Executing(s) && IsSyncCall(call)
    ensures Fifo(s, DoSyncCall(s, call).0)
  {
    match call
    case CondBroadcast(c) => SignalAllAppends(s, s.CondQ(UserCond(c)));
    case _ =>
  }

  lemma JoinTestFifo(s: Vp, g: Tid)
    requires s.current in s.threads && SafeToSchedule(s)
    ensures Fifo(s, JoinTest(s, g).0)
  {
  }

  lemma ThreadCallFifo(s: Vp, call: Call)
    requires Executing(s) && !IsSyncCall(call)
    requires call.Exit? ==> SafeToSchedule(BecomeZombie(s)) && SafeToSchedule(Vanish(s))
    ensures Fifo(s, DoThreadCall(s, call).0)
  {
    match call
    case Exit =>
      ScheduleFifo(s, BecomeZombie(s));
      ScheduleFifo(s, Vanish(s));
    case Join(g) => JoinTestFifo(s, g);
    case _ =>
  }

  lemma ResumeFifo(s: Vp)
    requires Executing(s)
    ensures Fifo(s, DoResume(s).0)
  {
    match s.threads[s.current].pc
    case InJoin(g) => JoinTestFifo(EndWait(LeaveCondQ(s, TermCond(g))).0, g);
    case _ =>
  }

  /** No step overtakes: each runnable thread keeps its place or moves up by one, and the thread
      that moves up from the front is the one that runs. */
  lemma NoOvertaking(s: Vp, e: Event)
    requires Inv(s) && Enabled(s, e)
    ensures Fifo(s, Step(s, e).0)
  {
    match e
    case Invoke(call) =>
      CanRun(s);
      if IsSyncCall(call) {
        SyncCallFifo(s, call);
      } else {
        ThreadCallFifo(s, call);
      }
    case Resume =>
      CanRun(s);
      ResumeFifo(s);
    case Turn(fired, now, due) =>
  }

  /** The step takes the front of the run queue. */
  ghost predicate Takes(s: Vp, e: Event)
    requires Inv(s) && Enabled(s, e)
  {
    StepKeeps(s, e);
    !(s.runQ <= Step(s, e).0.runQ)
  }

  /** How often a run takes the front of the run queue. */
  ghost function TakenIn(s: Vp, es: seq<Event>): nat
    requires Inv(s) && IsRun(s, es)
    decreases |es|
  {
    if es == [] then 0
    else (StepKeeps(s, es[0]); (if Takes(s, es[0]) then 1 else 0) + TakenIn(Step(s, es[0]).0, es[1..]))
  }

  /** A step leaves a runnable thread at its place, moves it up by one, or runs it. */
  lemma PlaceMoves(s: Vp, e: Event, k: nat)
    requires Inv(s) && Enabled(s, e) && k < |s.runQ|
    ensures var q := Step(s, e).0.runQ;
      if !Takes(s, e) then k < |q| && q[k] == s.runQ[k]
      else if k == 0 then Step(s, e).0.current == s.runQ[0]
      else k - 1 < |q| && q[k - 1] == s.runQ[k]
  {
    hide Inv, Enabled, Step;
    NoOvertaking(s, e);
    if Takes(s, e) && k > 0 {
      assert s.runQ[1..][k - 1] == s.runQ[k];
    }
  }

  /** Over every run a runnable thread moves up one place each time the front of the queue is taken, and a
      thread at place k is the one that runs when it is taken for the time k + 1. */
  lemma {:induction false} ServedInTurn(s: Vp, es: seq<Event>, k: nat)
    requires Inv(s) && IsRun(s, es) && k < |s.runQ|
    ensures var r, n := Exec(s, es), TakenIn(s, es);
      && Inv(r)
      && (n <= k ==> k - n < |r.runQ| && r.runQ[k - n] == s.runQ[k])
      && (n == k ==> forall e | Enabled(r, e) && Takes(r, e) :: Step(r, e).0.current == s.runQ[k])
    decreases |es|
  {
    hide Inv, Enabled, Step, Takes;
    if es == [] {
      forall e | Enabled(s, e) && Takes(s, e)
        ensures k == 0 ==> Step(s, e).0.current == s.runQ[0]
      {
        PlaceMoves(s, e, k);
      }
    } else {
      StepKeeps(s, es[0]);
      PlaceMoves(s, es[0], k);
      var s1 := Step(s, es[0]).0;
      if !Takes(s, es[0]) {
        ServedInTurn(s1, es[1..], k);
      } else if k > 0 {
        ServedInTurn(s1, es[1..], k - 1);
      } else {
        EveryRunIsDisciplined(s1, es[1..]);
      }
    }
  }
}
