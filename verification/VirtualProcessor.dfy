/** The scheduler as the library implements it: one virtual processor, with thread objects whose fields
    are assigned in place and with the pointer-linked heap of sleepers. Every method is proved to move
    the processor to exactly the state that the step machine of module Scheduler prescribes, so what
    holds of every run of the machine holds of the objects, the heap included. */
module VirtualProcessor {
  import opened Lists
  import opened ThreadStates
  import opened Scheduler
  import H = TimeoutHeap

  lemma QueuesHoldThreads(s: Vp)
    requires Inv(s)
    ensures SleepOk(s)
    ensures forall c, t | t in s.CondQ(c) :: t in s.threads
    ensures forall m, t | t in s.MutexOf(m).waitQ :: t in s.threads
  {
    forall c, t | t in s.CondQ(c)
      ensures t in s.threads
    {
      assert CondQOk(s.CondQ(c), c, s.threads);
    }
    forall m, t | t in s.MutexOf(m).waitQ
      ensures t in s.threads
    {
      assert LockQOk(s.MutexOf(m).waitQ, m, s.threads);
    }
  }

  lemma CurrentIsAwake(s: Vp)
    requires Inv(s)
    ensures s.current !in s.sleepQ
  {
    assert Consistent(s.current, s.threads[s.current]);
  }

  lemma ExitIsSafe(s: Vp)
    requires InCall(s)
    ensures SafeToSchedule(if s.threads[s.current].joinable then BecomeZombie(s) else Vanish(s))
  {
    if s.threads[s.current].joinable {
      hide Inv, SafeToSchedule, BecomeZombie, Vanish;
      ExitJoinableKeeps(s);
    } else {
      hide Inv, SafeToSchedule, BecomeZombie, Vanish;
      RemoveKeeps(s);
    }
  }

  /** What the code of a call relies on. */
  ghost predicate CallReady(s: Vp, call: Call) {
    && Executing(s) && SleepOk(s) && s.current !in s.sleepQ
    && SafeToSchedule(if s.threads[s.current].joinable then BecomeZombie(s) else Vanish(s))
    && (forall c, t | t in s.CondQ(c) :: t in s.threads)
    && (forall m, t | t in s.MutexOf(m).waitQ :: t in s.threads)
    && (call.Interrupt? || call.Join? ==> call.thread in s.threads)
    && (call.Create? ==> call.thread !in s.threads)
  }

  lemma Ready(s: Vp, call: Call)
    requires Inv(s) && Enabled(s, Invoke(call))
    ensures CallReady(s, call)
  {
    CanRun(s);
    hide Inv, BecomeZombie, Vanish, SafeToSchedule;
    ExitIsSafe(s);
    CurrentIsAwake(s);
    QueuesHoldThreads(s);
  }

  /** What the tail of a call relies on. */
  ghost predicate ResumeReady(s: Vp) {
    && Executing(s) && s.current !in s.sleepQ
    && var th := s.threads[s.current];
    && (th.pc == InExit ==> SafeToSchedule(Vanish(s)))
    && (th.pc.InJoin? && !th.interrupt && !th.timedOut ==> th.pc.target in s.threads)
  }

  lemma ReadyToResume(s: Vp)
    requires Inv(s) && Enabled(s, Resume)
    ensures ResumeReady(s)
  {
    CanRun(s);
    hide Inv, Vanish, SafeToSchedule;
    CurrentIsAwake(s);
    JoinTargetLives(s);
    if s.threads[s.current].pc == InExit {
      RemoveKeeps(s);
    }
  }

  /** A joiner whose wait ends without an error finds its target alive. */
  lemma JoinTargetLives(s: Vp)
    requires Inv(s)
    ensures var th := s.threads[s.current];
      th.pc.InJoin? && !th.interrupt && !th.timedOut ==> th.pc.target in s.threads
  {
    assert CondReason(s.threads[s.current]) && JoinReason(s, s.threads[s.current]);
  }

  ghost function View(t: H.Thread): Thread
    reads t
  {
    Thread(t.state, t.pc, t.onSleepQ, t.interrupt, t.timedOut, t.joinable, t.due, t.signalled)
  }

  /** The names of sleepers. */
  ghost function Ids(sleepers: set<H.Thread>): set<Tid> {
    set t | t in sleepers :: t.id
  }

  /** Each object is at its own address. */
  ghost predicate Addressed(memory: map<Tid, H.Thread>) {
    forall i | i in memory :: memory[i].id == i
  }

  lemma ValuesOfPart(memory: map<Tid, H.Thread>, t: Tid)
    ensures (memory - {t}).Values <= memory.Values
  {
  }

  lemma IdsLess(memory: map<Tid, H.Thread>, sleepers: set<H.Thread>, t: Tid)
    requires Addressed(memory) && sleepers <= memory.Values && t in memory
    ensures Ids(sleepers - {memory[t]}) == Ids(sleepers) - {t}
  {
    forall x | x in sleepers
      ensures x.id == t <==> x == memory[t]
    {
      assert x in memory.Values;
    }
  }

  lemma IdsMore(sleepers: set<H.Thread>, x: H.Thread)
    ensures Ids(sleepers + {x}) == Ids(sleepers) + {x.id}
  {
  }

  /** Waking a thread, as the code does it: off the sleep queue if it is on it, then onto the run queue. */
  lemma WakeInTwo(s: Vp, t: Tid)
    requires t in s.threads && (t in s.sleepQ <==> s.threads[t].onSleepQ)
    ensures var s1 :=
        if s.threads[t].onSleepQ then Put(s, t, s.threads[t].(onSleepQ := false)).(sleepQ := s.sleepQ - {t}) else s;
      MakeRunnable(s, t) == Put(s1, t, s1.threads[t].(state := Runnable)).(runQ := s1.runQ + [t])
  {
  }

  lemma ScheduleInSteps(s: Vp)
    requires SafeToSchedule(s)
    ensures var next := if s.runQ != [] then s.runQ[0] else IDLE;
      var s1 := s.(runQ := if s.runQ != [] then s.runQ[1..] else []);
      Schedule(s) == Put(s1, next, s1.threads[next].(state := Running)).(current := next)
  {
  }

  // ---------------------------------------------------------------- calls as sequences of assignments

  /** The current thread gets a state and a place to continue. */
  function Marked(s: Vp, state: ThreadState, pc: Pc): (r: Vp)
    requires s.current in s.threads
    ensures r.threads.Keys == s.threads.Keys && r.current == s.current && r.runQ == s.runQ && r.sleepQ == s.sleepQ
  {
    Put(s, s.current, s.threads[s.current].(state := state, pc := pc))
  }

  /** The current thread goes on the sleep queue, if the call has a timeout. */
  function Queued(s: Vp, timeout: Option<nat>): (r: Vp)
    requires s.current in s.threads
    ensures r.threads.Keys == s.threads.Keys && r.current == s.current && r.runQ == s.runQ
    ensures timeout == None ==> r == s
  {
    match timeout
    case None => s
    case Some(d) =>
      Put(s, s.current, s.threads[s.current].(onSleepQ := true, due := s.clock + d)).(sleepQ := s.sleepQ + {s.current})
  }

  lemma QueuedIs(s: Vp, d: nat)
    requires s.current in s.threads
    ensures Queued(s, Some(d)) ==
      s.(threads := s.threads[s.current := s.threads[s.current].(onSleepQ := true, due := s.clock + d)],
         sleepQ := s.sleepQ + {s.current})
  {
  }

  lemma PutTwice(s: Vp, t: Tid, a: Thread, b: Thread)
    ensures Put(Put(s, t, a), t, b) == Put(s, t, b)
    ensures Put(s, t, a).threads[t] == a
  {
    assert s.threads[t := a][t := b] == s.threads[t := b];
  }

  /** The two may be done in either order. */
  lemma ParkInSteps(s: Vp, state: ThreadState, pc: Pc, timeout: Option<nat>)
    requires s.current in s.threads
    ensures Park(s, state, pc, timeout) == Queued(Marked(s, state, pc), timeout)
    ensures Park(s, state, pc, timeout) == Marked(Queued(s, timeout), state, pc)
  {
    if timeout.Some? {
      MarkThenQueue(s, state, pc, timeout.value);
      QueueThenMark(s, state, pc, timeout.value);
    }
  }

  lemma MarkThenQueue(s: Vp, state: ThreadState, pc: Pc, d: nat)
    requires s.current in s.threads
    ensures Park(s, state, pc, Some(d)) == Queued(Marked(s, state, pc), Some(d))
  {
    var me := s.threads[s.current].(state := state, pc := pc);
    PutTwice(s, s.current, me, me.(onSleepQ := true, due := s.clock + d));
  }

  lemma QueueThenMark(s: Vp, state: ThreadState, pc: Pc, d: nat)
    requires s.current in s.threads
    ensures Park(s, state, pc, Some(d)) == Marked(Queued(s, Some(d)), state, pc)
  {
    var me := s.threads[s.current].(onSleepQ := true, due := s.clock + d);
    PutTwice(s, s.current, me, me.(state := state, pc := pc));
    assert Queued(s, Some(d)) == Put(s, s.current, me).(sleepQ := s.sleepQ + {s.current});
  }

  lemma PollInSteps(s: Vp, timeout: Option<nat>)
    requires s.current in s.threads
    ensures var q := s.ioQ + [s.current];
      Park(s, IoWait, InPoll, timeout).(ioQ := q) == Marked(Queued(s.(ioQ := q), timeout), IoWait, InPoll)
  {
    var q := s.ioQ + [s.current];
    assert Park(s, IoWait, InPoll, timeout).(ioQ := q) == Park(s.(ioQ := q), IoWait, InPoll, timeout);
    ParkInSteps(s.(ioQ := q), IoWait, InPoll, timeout);
  }

  lemma CondWaitInSteps(s: Vp, c: Cond, pc: Pc, timeout: Option<nat>)
    requires s.current in s.threads
    ensures var s1 := Marked(s, CondWait, pc);
      EnterCondWait(s, c, pc, timeout) == Queued(s1.(condQs := s1.condQs[c := s1.CondQ(c) + [s1.current]]), timeout)
  {
    ParkInSteps(s, CondWait, pc, timeout);
  }

  // ---------------------------------------------------------------- the heap and the sleepers

  ghost function SleeperOf(th: Thread): H.Sleeper {
    H.Sleeper(th.state, th.onSleepQ, th.timedOut, th.due)
  }

  /** The thread objects in the heap, as they were before a clock pass, are the sleepers of s. */
  ghost predicate Stands(all: set<H.Thread>, before: map<H.Thread, H.Sleeper>, memory: map<Tid, H.Thread>, s: Vp) {
    && Addressed(memory) && all <= memory.Values && before.Keys == all
    && s.sleepQ == Ids(all) && s.threads.Keys == memory.Keys
    && forall t | t in all :: t.id in memory && memory[t.id] == t && before[t] == SleeperOf(s.threads[t.id])
  }

  /** A clock pass leaves alone what is no business of the sleep queue. */
  predicate ChangedInPass(th: Thread, th1: Thread, sleeper: bool) {
    if sleeper
    then th1 == th.(state := th1.state, onSleepQ := th1.onSleepQ, timedOut := th1.timedOut, due := th1.due)
    else th1 == th
  }

  lemma NamesMember(all: set<H.Thread>, before: map<H.Thread, H.Sleeper>, memory: map<Tid, H.Thread>, s: Vp,
      woken: seq<H.Thread>, t: H.Thread)
    requires Stands(all, before, memory, s) && (forall x | x in woken :: x in all) && t in all
    ensures t.id in H.Names(woken) <==> t in woken
  {
    var names := H.Names(woken);
    if t in woken {
      var k :| 0 <= k < |woken| && woken[k] == t;
      assert names[k] == t.id;
    }
    if t.id in names {
      var k :| 0 <= k < |names| && names[k] == t.id;
      assert woken[k] in woken;
    }
  }

  /** A pass over the heap wakes the sleepers in an order that the step machine allows. */
  lemma PassIsClockPass(all: set<H.Thread>, before: map<H.Thread, H.Sleeper>, memory: map<Tid, H.Thread>, s: Vp,
      now: nat, woken: seq<H.Thread>)
    requires Stands(all, before, memory, s) && H.ClockPass(before, now, woken)
    ensures IsClockPass(s, now, H.Names(woken))
  {
    var names := H.Names(woken);
    forall i
      ensures i in names <==> i in s.sleepQ && i in s.threads && s.threads[i].due <= now
    {
      if i in names {
        var k :| 0 <= k < |names| && names[k] == i;
        assert woken[k] in woken;
      }
      if i in s.sleepQ && i in s.threads && s.threads[i].due <= now {
        var t :| t in all && t.id == i;
        NamesMember(all, before, memory, s, woken, t);
      }
    }
    forall i, j | 0 <= i < j < |names|
      ensures names[i] != names[j] && s.threads[names[i]].due <= s.threads[names[j]].due
    {
      assert woken[i] in woken && woken[j] in woken;
    }
  }

  class Processor {
    /** The timeout heap, the run queue and the clock. */
    const heap: H.Vp
    /** The thread object at each address in use. */
    var memory: map<Tid, H.Thread>
    var current: Tid
    var ioQ: seq<Tid>
    var zombieQ: seq<Tid>
    var condQs: map<Cond, seq<Tid>>
    var mutexes: map<nat, Mutex>

    ghost function Threads(): map<Tid, Thread>
      reads this`memory, memory.Values
      ensures Threads().Keys == memory.Keys
    {
      map i | i in memory :: View(memory[i])
    }

    ghost function State(): Vp
      reads this, heap, memory.Values
      ensures State().current == current && State().threads.Keys == memory.Keys && State().runQ == heap.runQ
      ensures State().ioQ == ioQ && State().zombieQ == zombieQ && State().condQs == condQs && State().mutexes == mutexes
    {
      Vp(Threads(), current, heap.runQ, ioQ, zombieQ, Ids(H.Members(heap.nodes)), heap.lastClock, condQs, mutexes)
    }

    /** Each thread object is at its own address, and the sleep queue is a valid heap of such objects. */
    ghost predicate Valid()
      reads this`memory, heap`sleepQ, heap`sleepQSize, heap`nodes, heap`dues
      reads heap.nodes`left, heap.nodes`right, heap.nodes`heapIndex, heap.nodes`due, heap.nodes`onSleepQ
    {
      && Addressed(memory)
      && heap.SleepQValid() && H.Members(heap.nodes) <= memory.Values
    }

    constructor (now: nat)
      ensures Valid() && State() == Boot(now) && Inv(State())
      ensures fresh(heap) && fresh(memory.Values)
    {
      heap := new H.Vp(now);
      var m := FirstThreads();
      memory := m;
      current := 1;
      ioQ, zombieQ, condQs, mutexes := [], [], map[], map[];
      new;
      hide Valid, State, Inv, Boot, H.Vp.SleepQValid;
      Started(now);
    }

    /** The idle thread, off the run queue, and the primordial thread. */
    static method FirstThreads() returns (m: map<Tid, H.Thread>)
      ensures fresh(m.Values) && m.Keys == {IDLE, 1} && m[IDLE].id == IDLE && m[1].id == 1
      ensures View(m[IDLE]) == Thread(Runnable, InIdleLoop, false, false, false, false, 0, false)
      ensures View(m[1]) == Thread(Running, InUserCode, false, false, false, false, 0, false)
    {
      var idle := new H.Thread(IDLE, Runnable, InIdleLoop, false);
      var primordial := new H.Thread(1, Running, InUserCode, false);
      m := map[IDLE := idle, 1 := primordial];
      assert forall t | t in m.Values :: t == m[IDLE] || t == m[1];
    }

    lemma Started(now: nat)
      requires memory.Keys == {IDLE, 1} && current == 1 && ioQ == zombieQ == [] && condQs == map[] && mutexes == map[]
      requires View(memory[IDLE]) == Thread(Runnable, InIdleLoop, false, false, false, false, 0, false)
      requires View(memory[1]) == Thread(Running, InUserCode, false, false, false, false, 0, false)
      requires memory[IDLE].id == IDLE && memory[1].id == 1
      requires heap.SleepQValid() && heap.nodes == [null] && heap.runQ == [] && heap.lastClock == now
      ensures Valid() && State() == Boot(now) && Inv(State())
    {
      hide Inv, H.Vp.SleepQValid;
      assert H.Members(heap.nodes) == {};
      assert Threads() == Boot(now).threads;
      BootInv(now);
    }

    // -------------------------------------------------------------- thread objects

    /** A thread is in the heap exactly if its name is among the sleepers. */
    lemma InHeap(t: Tid)
      requires Valid() && t in memory
      ensures memory[t] in heap.nodes <==> t in Ids(H.Members(heap.nodes))
    {
      if t in Ids(H.Members(heap.nodes)) {
        var x :| x in H.Members(heap.nodes) && x.id == t;
        assert x in memory.Values;
      }
      if memory[t] in heap.nodes {
        assert memory[t] in H.Members(heap.nodes);
      }
    }

    /** If only thread t differs from before, the threads are those of before with the new t. */
    lemma OneChanged(before: map<Tid, Thread>, t: Tid)
      requires before.Keys == memory.Keys && t in memory
      requires forall i | i in memory && i != t :: View(memory[i]) == before[i]
      ensures Threads() == before[t := View(memory[t])]
    {
    }

    lemma Distinct(t: Tid)
      requires Valid() && t in memory
      ensures forall i | i in memory && i != t :: memory[i] != memory[t]
    {
    }

    function CondQ(c: Cond): seq<Tid>
      reads this`condQs
    {
      if c in condQs then condQs[c] else []
    }

    function MutexOf(m: nat): Mutex
      reads this`mutexes
    {
      if m in mutexes then mutexes[m] else Mutex(None, [])
    }

    method DelSleepQ(t: Tid)
      requires Valid() && t in memory && t in Ids(H.Members(heap.nodes))
      modifies heap`sleepQ, heap`sleepQSize, heap`nodes, heap`dues
      modifies memory.Values`left, memory.Values`right, memory.Values`heapIndex, memory.Values`onSleepQ
      ensures Valid()
      ensures var s := old(State()); State() == Put(s, t, s.threads[t].(onSleepQ := false)).(sleepQ := s.sleepQ - {t})
    {
      IdsLess(memory, H.Members(heap.nodes), t);
      hide Valid, Threads, Ids, H.Members;
      Unqueue(t);
    }

    method Unqueue(t: Tid)
      requires Valid() && t in memory && t in Ids(H.Members(heap.nodes))
      modifies heap`sleepQ, heap`sleepQSize, heap`nodes, heap`dues
      modifies memory.Values`left, memory.Values`right, memory.Values`heapIndex, memory.Values`onSleepQ
      ensures Valid() && H.Members(heap.nodes) == old(H.Members(heap.nodes)) - {memory[t]}
      ensures Threads() == old(Threads())[t := old(Threads())[t].(onSleepQ := false)]
    {
      InHeap(t);
      Distinct(t);
      hide Ids, H.Members;
      RemoveObject(t);
      hide H.Vp.SleepQValid, Addressed;
      OneChanged(old(Threads()), t);
    }

    /** Takes one thread object out of the heap, and leaves the others as they are. */
    method RemoveObject(t: Tid)
      requires heap.SleepQValid() && H.Members(heap.nodes) <= memory.Values && t in memory && memory[t] in heap.nodes
      modifies heap`sleepQ, heap`sleepQSize, heap`nodes, heap`dues
      modifies memory.Values`left, memory.Values`right, memory.Values`heapIndex, memory.Values`onSleepQ
      ensures heap.SleepQValid() && H.Members(heap.nodes) == old(H.Members(heap.nodes)) - {memory[t]}
      ensures View(memory[t]) == old(View(memory[t])).(onSleepQ := false)
      ensures forall i | i in memory && memory[i] != memory[t] :: View(memory[i]) == old(View(memory[i]))
    {
      hide H.Vp.SleepQValid, H.Members;
      heap.DelSleepQ(memory[t]);
    }

    /** The current thread goes on the sleep queue. */
    method AddSleepQ(timeout: nat)
      requires Valid() && current in memory && current !in State().sleepQ
      modifies heap`sleepQ, heap`sleepQSize, heap`nodes, heap`dues
      modifies memory.Values`left, memory.Values`right, memory.Values`heapIndex, memory.Values`onSleepQ, memory.Values`due
      ensures Valid() && State() == Queued(old(State()), Some(timeout))
    {
      assert memory[current].id == current;
      hide Valid, Threads, Ids, H.Members, Queued;
      ghost var s := State();
      QueuedIs(s, timeout);
      IdsMore(H.Members(heap.nodes), memory[current]);
      Queue(current, timeout);
      assert State() == s.(threads := Threads(), sleepQ := s.sleepQ + {current});
    }

    method Queue(t: Tid, timeout: nat)
      requires Valid() && t in memory && t !in Ids(H.Members(heap.nodes))
      modifies heap`sleepQ, heap`sleepQSize, heap`nodes, heap`dues
      modifies memory.Values`left, memory.Values`right, memory.Values`heapIndex, memory.Values`onSleepQ, memory.Values`due
      ensures Valid() && H.Members(heap.nodes) == old(H.Members(heap.nodes)) + {memory[t]}
      ensures Threads() == old(Threads())[t := old(Threads())[t].(onSleepQ := true, due := heap.lastClock + timeout)]
    {
      InHeap(t);
      Distinct(t);
      hide Ids, H.Members;
      InsertObject(t, timeout);
      hide H.Vp.SleepQValid, Addressed;
      OneChanged(old(Threads()), t);
    }

    /** Puts one thread object into the heap, and leaves the others as they are. */
    method InsertObject(t: Tid, timeout: nat)
      requires heap.SleepQValid() && H.Members(heap.nodes) <= memory.Values && t in memory && memory[t] !in heap.nodes
      modifies heap`sleepQ, heap`sleepQSize, heap`nodes, heap`dues
      modifies memory.Values`left, memory.Values`right, memory.Values`heapIndex, memory.Values`onSleepQ, memory.Values`due
      ensures heap.SleepQValid() && H.Members(heap.nodes) == old(H.Members(heap.nodes)) + {memory[t]}
      ensures View(memory[t]) == old(View(memory[t])).(onSleepQ := true, due := heap.lastClock + timeout)
      ensures forall i | i in memory && memory[i] != memory[t] :: View(memory[i]) == old(View(memory[i]))
    {
      hide H.Vp.SleepQValid, H.Members;
      heap.AddSleepQ(memory[t], timeout);
    }

    /** What every waker does; a thread that is not on the sleep queue has its flag clear. */
    method Wake(t: Tid)
      requires Valid() && t in memory && (t in Ids(H.Members(heap.nodes)) <==> memory[t].onSleepQ)
      modifies heap`sleepQ, heap`sleepQSize, heap`nodes, heap`dues, heap`runQ
      modifies memory.Values`left, memory.Values`right, memory.Values`heapIndex, memory.Values`onSleepQ, memory.Values`state
      ensures Valid() && State() == MakeRunnable(old(State()), t)
    {
      hide Valid, MakeRunnable;
      WakeInTwo(State(), t);
      if memory[t].onSleepQ {
        DelSleepQ(t);
      }
      PutRunnable(t);
    }

    method PutRunnable(t: Tid)
      requires Valid() && t in memory
      modifies heap`runQ, memory.Values`state
      ensures Valid()
      ensures var s := old(State()); State() == Put(s, t, s.threads[t].(state := Runnable)).(runQ := s.runQ + [t])
    {
      hide Valid, State;
      SwitchState(t, Runnable);
      AddRunQ(t);
    }

    method AddRunQ(t: Tid)
      requires Valid()
      modifies heap`runQ
      ensures Valid() && State() == old(State()).(runQ := old(heap.runQ) + [t])
    {
      hide Valid;
      heap.runQ := heap.runQ + [t];
      assert Threads() == old(Threads());
    }

    /** Takes the head off the run queue, or chooses the idle thread if the queue is empty. */
    method NextThread() returns (next: Tid)
      requires Valid()
      modifies heap`runQ
      ensures Valid()
      ensures var q := old(heap.runQ);
        && next == (if q != [] then q[0] else IDLE)
        && State() == old(State()).(runQ := if q != [] then q[1..] else [])
    {
      hide Valid;
      if heap.runQ != [] {
        next := heap.runQ[0];
        heap.runQ := heap.runQ[1..];
      } else {
        next := IDLE;
      }
      assert Threads() == old(Threads());
    }

    method VpSchedule()
      requires Valid() && SafeToSchedule(State())
      modifies this`current, heap`runQ, memory.Values`state
      ensures Valid() && State() == Schedule(old(State()))
    {
      assert IDLE in memory && forall t | t in heap.runQ :: t in memory;
      ScheduleInSteps(State());
      hide Valid, State, Schedule, SafeToSchedule;
      var next := NextThread();
      SwitchState(next, Running);
      SwitchTo(next);
    }

    method SwitchTo(t: Tid)
      requires Valid()
      modifies this`current
      ensures Valid() && current == t && State() == old(State()).(current := t)
    {
      current := t;
      assert Threads() == old(Threads());
    }

    method SwitchState(t: Tid, state: ThreadState)
      requires Valid() && t in memory
      modifies memory.Values`state
      ensures Valid()
      ensures var s := old(State()); State() == Put(s, t, s.threads[t].(state := state))
    {
      hide Valid;
      Distinct(t);
      memory[t].state := state;
      OneChanged(old(Threads()), t);
    }

    method SetState(state: ThreadState, pc: Pc)
      requires Valid() && current in memory
      modifies memory.Values`state, memory.Values`pc
      ensures Valid()
      ensures State() == Marked(old(State()), state, pc)
    {
      hide Valid;
      Distinct(current);
      memory[current].state, memory[current].pc := state, pc;
      OneChanged(old(Threads()), current);
    }

    /** The tail of a call ends. */
    method BackToCaller()
      requires Valid() && current in memory
      modifies memory.Values`pc
      ensures Valid() && State() == Return(old(State()))
    {
      hide Valid;
      Distinct(current);
      memory[current].pc := InUserCode;
      OneChanged(old(Threads()), current);
    }

    /** The interrupt check at the start of every blocking call. */
    method TakeInterrupt() returns (interrupted: bool)
      requires Valid() && current in memory
      modifies memory.Values`interrupt
      ensures Valid() && interrupted == old(memory[current].interrupt)
      ensures State() == if interrupted then ClearInterrupt(old(State())) else old(State())
    {
      hide Valid;
      Distinct(current);
      interrupted := memory[current].interrupt;
      if interrupted {
        memory[current].interrupt := false;
        OneChanged(old(Threads()), current);
      }
    }

    // -------------------------------------------------------------- links of queues

    method SetIoQ(q: seq<Tid>)
      requires Valid()
      modifies this`ioQ
      ensures Valid() && State() == old(State()).(ioQ := q)
    {
      hide Valid;
      ioQ := q;
      assert Threads() == old(Threads());
    }

    method SetZombieQ(q: seq<Tid>)
      requires Valid()
      modifies this`zombieQ
      ensures Valid() && State() == old(State()).(zombieQ := q)
    {
      hide Valid;
      zombieQ := q;
      assert Threads() == old(Threads());
    }

    method SetCondQ(c: Cond, q: seq<Tid>)
      requires Valid()
      modifies this`condQs
      ensures Valid() && State() == old(State()).(condQs := old(condQs)[c := q])
    {
      hide Valid;
      condQs := condQs[c := q];
      assert Threads() == old(Threads());
    }

    method SetMutex(m: nat, mu: Mutex)
      requires Valid()
      modifies this`mutexes
      ensures Valid() && State() == old(State()).(mutexes := old(mutexes)[m := mu])
    {
      hide Valid;
      mutexes := mutexes[m := mu];
      assert Threads() == old(Threads());
    }

    lemma Read(t: Tid)
      requires t in memory
      ensures State().threads[t] == View(memory[t])
    {
    }

    /** The flag of a thread object says whether it is in the heap. */
    lemma FlagTells(t: Tid)
      requires SleepOk(State()) && t in memory
      ensures t in Ids(H.Members(heap.nodes)) <==> memory[t].onSleepQ
    {
      assert t in State().sleepQ <==> t in State().threads && State().threads[t].onSleepQ;
    }

    // -------------------------------------------------------------- sched.c

    /** Queues the poll and makes the current thread wait. */
    method ParkOnIo(timeout: Option<nat>)
      requires Valid() && current in memory && current !in State().sleepQ
      modifies this`ioQ, heap, memory.Values
      ensures Valid()
      ensures var s := old(State()); State() == Park(s, IoWait, InPoll, timeout).(ioQ := s.ioQ + [s.current])
    {
      PollInSteps(State(), timeout);
      hide Valid, State, Park, Queued, Marked;
      SetIoQ(ioQ + [current]);
      if timeout.Some? {
        AddSleepQ(timeout.value);
      }
      SetState(IoWait, InPoll);
    }

    method PollCall(added: bool, timeout: Option<nat>) returns (ret: Ret)
      requires Valid() && Executing(State()) && current !in State().sleepQ
      modifies this`current, this`ioQ, heap, memory.Values
      ensures Valid() && (State(), ret) == StPoll(old(State()), added, timeout)
    {
      Read(current);
      hide Valid, State, Schedule;
      var interrupted := TakeInterrupt();
      if interrupted {
        return Failed(EINTR);
      }
      if !added {
        return Failed(EBADPOLL);
      }
      ParkOnIo(timeout);
      VpSchedule();
      ret := Blocked;
    }

    method PollTail() returns (ret: Ret)
      requires Valid() && Executing(State())
      modifies this`ioQ, memory.Values
      ensures Valid() && (State(), ret) == AfterPoll(old(State()))
    {
      Read(current);
      hide Valid, State, Return, ClearInterrupt;
      var fired := true;
      if current in ioQ {
        SetIoQ(Without(ioQ, current));
        fired := false;
      } else {
        WithoutAbsent(ioQ, current);
      }
      BackToCaller();
      var interrupted := TakeInterrupt();
      ret := if interrupted then Failed(EINTR) else Polled(fired);
    }

    method SetInterrupt(t: Tid)
      requires Valid() && t in memory
      modifies memory.Values`interrupt
      ensures Valid()
      ensures var s := old(State()); State() == Put(s, t, s.threads[t].(interrupt := true))
    {
      hide Valid;
      Distinct(t);
      memory[t].interrupt := true;
      OneChanged(old(Threads()), t);
    }

    method InterruptCall(t: Tid) returns (ret: Ret)
      requires Valid() && Executing(State()) && t in memory && SleepOk(State())
      modifies heap, memory.Values
      ensures Valid() && (State(), ret) == StThreadInterrupt(old(State()), t)
    {
      Read(t);
      FlagTells(t);
      hide Valid, Threads, SleepOk;
      if memory[t].state == Zombie {
        return Done;
      }
      SetInterrupt(t);
      if memory[t].state == Running || memory[t].state == Runnable {
        return Done;
      }
      Wake(t);
      ret := Done;
    }

    method CreateCall(t: Tid, join: bool) returns (ret: Ret)
      requires Valid() && Executing(State()) && t !in memory
      modifies this`memory, heap, memory.Values
      ensures Valid() && (State(), ret) == StThreadCreate(old(State()), t, join)
      ensures fresh(memory.Values - old(memory.Values))
    {
      hide Valid, State, Executing;
      var thread := new H.Thread(t, Runnable, InUserCode, join);
      Remember(thread);
      AddRunQ(t);
      ret := Done;
    }

    /** A new thread object is in use. */
    method Remember(thread: H.Thread)
      requires Valid() && thread.id !in memory && thread !in memory.Values
      modifies this`memory
      ensures Valid() && State() == Put(old(State()), thread.id, View(thread))
      ensures Threads() == old(Threads())[thread.id := View(thread)]
      ensures memory == old(memory)[thread.id := thread] && memory.Values - old(memory.Values) <= {thread}
    {
      hide H.Vp.SleepQValid;
      ghost var before := memory;
      memory := memory[thread.id := thread];
      forall t | t in before.Values
        ensures t in memory.Values
      {
        var i :| i in before && before[i] == t;
        assert memory[i] == t;
      }
    }

    method ExitCall() returns (ret: Ret)
      requires Valid() && Executing(State()) && SleepOk(State()) && current !in State().sleepQ
      requires forall t | t in CondQ(TermCond(current)) :: t in memory
      requires SafeToSchedule(if memory[current].joinable then BecomeZombie(State()) else Vanish(State()))
      modifies this`memory, this`current, this`zombieQ, heap, memory.Values
      ensures Valid() && (State(), ret) == StThreadExit(old(State()))
      ensures memory == old(memory) || memory == old(memory) - {old(current)}
    {
      assert current in memory;
      hide Valid, State, Schedule, BecomeZombie, Vanish, SleepOk, SafeToSchedule, Executing;
      Read(current);
      EndThread();
      VpSchedule();
      ret := Blocked;
    }

    /** The current thread becomes a zombie if it can be joined, and is gone otherwise. */
    method EndThread()
      requires Valid() && current in memory && SleepOk(State()) && current !in State().sleepQ
      requires forall t | t in CondQ(TermCond(current)) :: t in memory
      modifies this`memory, this`zombieQ, heap, memory.Values
      ensures Valid()
      ensures var s := old(State()); State() == if s.threads[s.current].joinable then BecomeZombie(s) else Vanish(s)
      ensures memory == old(memory) || memory == old(memory) - {old(current)}
    {
      hide Valid, State, BecomeZombie, Vanish, SleepOk;
      Read(current);
      if memory[current].joinable {
        BecomeZombieNow();
      } else {
        Free();
      }
    }

    /** Puts the current thread on the zombie queue and signals its joiner. */
    method BecomeZombieNow()
      requires Valid() && current in memory && SleepOk(State()) && current !in State().sleepQ
      requires forall t | t in CondQ(TermCond(current)) :: t in memory
      modifies this`zombieQ, heap, memory.Values
      ensures Valid() && State() == BecomeZombie(old(State()))
    {
      ghost var s := State();
      ParkInSteps(s, Zombie, InExit, None);
      SleepChange(s, Park(s, Zombie, InExit, None).(zombieQ := s.zombieQ + [s.current]), current);
      hide Valid, State, Park, Marked, Queued, SleepOk, Signal;
      SetState(Zombie, InExit);
      SetZombieQ(zombieQ + [current]);
      SignalOn(TermCond(current), false);
    }

    /** Frees the current thread object. */
    method Free()
      requires Valid() && current in memory && current !in State().sleepQ
      modifies this`memory
      ensures Valid() && State() == Vanish(old(State()))
      ensures memory == old(memory) - {current}
    {
      InHeap(current);
      hide H.Vp.SleepQValid, Ids;
      memory := memory - {current};
      forall t | t in H.Members(heap.nodes)
        ensures t in memory.Values
      {
        assert t in old(memory).Values && t != old(memory)[current];
        var i :| i in old(memory) && old(memory)[i] == t;
        assert i in memory && memory[i] == t;
      }
      assert Threads() == old(Threads()) - {current};
    }

    method ExitTail() returns (ret: Ret)
      requires Valid() && Executing(State()) && current !in State().sleepQ && SafeToSchedule(Vanish(State()))
      modifies this`memory, this`current, heap, memory.Values
      ensures Valid() && (State(), ret) == AfterThreadExit(old(State()))
      ensures memory == old(memory) - {old(current)}
    {
      hide Valid, State, Schedule, Vanish, SafeToSchedule;
      Free();
      VpSchedule();
      ret := Blocked;
    }

    /** The loop of st_thread_join from its test on. */
    method JoinLoop(g: Tid) returns (ret: Ret)
      requires Valid() && current in memory && SafeToSchedule(State()) && g in memory
      modifies this`current, this`zombieQ, this`condQs, heap, memory.Values
      ensures Valid() && (State(), ret) == JoinTest(old(State()), g)
    {
      Read(g);
      Read(current);
      if memory[g].state == Zombie {
        TakeOver(g);
        return Done;
      }
      hide Valid, State, Schedule, EnterCondWait;
      var interrupted := TakeInterrupt();
      if interrupted {
        return Failed(EINTR);
      }
      ParkOnCond(TermCond(g), InJoin(g), None);
      VpSchedule();
      ret := Blocked;
    }

    /** A zombie is made runnable, to clean up after itself. */
    method TakeOver(g: Tid)
      requires Valid() && g in memory
      modifies this`zombieQ, heap, memory.Values
      ensures Valid() && State() == TakeZombie(old(State()), g)
    {
      hide Valid, State;
      PutRunnable(g);
      SetZombieQ(Without(zombieQ, g));
    }

    /** Queues the current thread on a condition variable and makes it wait. */
    method ParkOnCond(c: Cond, pc: Pc, timeout: Option<nat>)
      requires Valid() && current in memory && (timeout.Some? ==> current !in State().sleepQ)
      modifies this`condQs, heap, memory.Values
      ensures Valid() && State() == EnterCondWait(old(State()), c, pc, timeout)
      ensures State().threads.Keys == old(State()).threads.Keys && State().runQ == old(State()).runQ && current == old(current)
    {
      CondWaitInSteps(State(), c, pc, timeout);
      hide Valid, State, EnterCondWait, Marked, Queued;
      SetState(CondWait, pc);
      SetCondQ(c, CondQ(c) + [current]);
      if timeout.Some? {
        AddSleepQ(timeout.value);
      }
    }

    method JoinCall(g: Tid) returns (ret: Ret)
      requires Valid() && Executing(State()) && g in memory
      modifies this`current, this`zombieQ, this`condQs, heap, memory.Values
      ensures Valid() && (State(), ret) == StThreadJoin(old(State()), g)
    {
      Read(g);
      hide Valid, State, JoinTest;
      if !memory[g].joinable {
        return Failed(EINVAL);
      }
      if g == current {
        return Failed(EDEADLK);
      }
      if CondQ(TermCond(g)) != [] {
        return Failed(EINVAL);
      }
      ret := JoinLoop(g);
    }

    method ResetWait()
      requires Valid() && current in memory
      modifies memory.Values`pc, memory.Values`timedOut, memory.Values`interrupt, memory.Values`signalled
      ensures Valid()
      ensures State() == EndWait(old(State())).0
    {
      hide Valid;
      Distinct(current);
      var me := memory[current];
      me.pc, me.timedOut, me.interrupt, me.signalled := InUserCode, false, false, false;
      OneChanged(old(Threads()), current);
    }

    /** The end of a condition wait: unlink, then examine and reset the flags. */
    method WaitTail(c: Cond) returns (ret: Ret)
      requires Valid() && current in memory
      modifies this`condQs, memory.Values
      ensures Valid() && (State(), ret) == EndWait(LeaveCondQ(old(State()), c))
    {
      Read(current);
      hide Valid, State;
      SetCondQ(c, Without(CondQ(c), current));
      ret := Done;
      if memory[current].timedOut {
        ret := Failed(ETIME);
      }
      if memory[current].interrupt {
        ret := Failed(EINTR);
      }
      ResetWait();
    }

    method JoinTail(g: Tid) returns (ret: Ret)
      requires Valid() && Executing(State())
      requires !memory[current].interrupt && !memory[current].timedOut ==> g in memory
      modifies this`current, this`zombieQ, this`condQs, heap, memory.Values
      ensures Valid() && (State(), ret) == AfterThreadJoin(old(State()), g)
    {
      Read(current);
      hide Valid, State, JoinTest;
      ret := WaitTail(TermCond(g));
      if ret == Done {
        ret := JoinLoop(g);
      }
    }

    // -------------------------------------------------------------- sync.c

    /** Makes the current thread sleep, for some time or until it is woken. */
    method ParkAsleep(timeout: Option<nat>)
      requires Valid() && current in memory && current !in State().sleepQ
      modifies heap, memory.Values
      ensures Valid()
      ensures State() == Park(old(State()), if timeout.Some? then Sleeping else Suspended, InSleep, timeout)
    {
      ParkInSteps(State(), if timeout.Some? then Sleeping else Suspended, InSleep, timeout);
      hide Valid, State, Park, Marked, Queued;
      if timeout.Some? {
        SetState(Sleeping, InSleep);
        AddSleepQ(timeout.value);
      } else {
        SetState(Suspended, InSleep);
      }
    }

    method SleepCall(timeout: Option<nat>) returns (ret: Ret)
      requires Valid() && Executing(State()) && current !in State().sleepQ
      modifies this`current, heap, memory.Values
      ensures Valid() && (State(), ret) == StUsleep(old(State()), timeout)
    {
      Read(current);
      hide Valid, State, Schedule;
      var interrupted := TakeInterrupt();
      if interrupted {
        return Failed(EINTR);
      }
      ParkAsleep(timeout);
      VpSchedule();
      ret := Blocked;
    }

    method SleepTail() returns (ret: Ret)
      requires Valid() && Executing(State())
      modifies memory.Values
      ensures Valid() && (State(), ret) == AfterUsleep(old(State()))
    {
      Read(current);
      hide Valid, State, Return, ClearInterrupt;
      BackToCaller();
      var interrupted := TakeInterrupt();
      ret := if interrupted then Failed(EINTR) else Done;
    }

    method CondWaitCall(c: nat, timeout: Option<nat>) returns (ret: Ret)
      requires Valid() && Executing(State()) && current !in State().sleepQ
      modifies this`current, this`condQs, heap, memory.Values
      ensures Valid() && (State(), ret) == StCondTimedwait(old(State()), c, timeout)
    {
      Read(current);
      hide Valid, State, Schedule, EnterCondWait;
      var interrupted := TakeInterrupt();
      if interrupted {
        return Failed(EINTR);
      }
      ParkOnCond(UserCond(c), InCondWait(c), timeout);
      VpSchedule();
      ret := Blocked;
    }

    method SignalThread(t: Tid)
      requires Valid() && SleepOk(State()) && t in memory
      modifies heap, memory.Values
      ensures Valid() && SleepOk(State()) && State() == SignalTo(old(State()), t)
    {
      FlagTells(t);
      SleepChange(State(), SignalTo(State(), t), t);
      hide Valid, SleepOk, MakeRunnable;
      Wake(t);
      MarkSignalled(t);
    }

    ghost method MarkSignalled(t: Tid)
      requires Valid() && t in memory
      modifies memory.Values`signalled
      ensures Valid()
      ensures var s := old(State()); State() == Put(s, t, s.threads[t].(signalled := true))
    {
      hide Valid;
      Distinct(t);
      memory[t].signalled := true;
      OneChanged(old(Threads()), t);
    }

    /** _st_cond_signal: walks the wait queue, which does not change, and wakes the first thread
        found waiting, or with broadcast every one. */
    method SignalOn(c: Cond, broadcast: bool)
      requires Valid() && SleepOk(State()) && forall t | t in CondQ(c) :: t in memory
      modifies heap, memory.Values
      ensures Valid() && SleepOk(State())
      ensures State() == if broadcast then SignalAll(old(State()), old(State()).CondQ(c)) else Signal(old(State()), c)
    {
      hide Valid, SleepOk, SignalTo;
      var q := CondQ(c);
      var i := 0;
      while i < |q|
        invariant 0 <= i <= |q| && Valid() && SleepOk(State())
        invariant broadcast ==> SignalAll(old(State()), q) == SignalAll(State(), q[i..])
        invariant !broadcast ==> State() == old(State())
        invariant !broadcast ==> FirstInState(State(), q, CondWait) == FirstInState(State(), q[i..], CondWait)
      {
        var t := q[i];
        assert q[i..] == [t] + q[i + 1..];
        Read(t);
        if memory[t].state == CondWait {
          SignalThread(t);
          if !broadcast {
            return;
          }
        }
        i := i + 1;
      }
    }

    method LockCall(m: nat) returns (ret: Ret)
      requires Valid() && Executing(State())
      modifies this`current, this`mutexes, heap, memory.Values
      ensures Valid() && (State(), ret) == StMutexLock(old(State()), m)
    {
      Read(current);
      ParkInSteps(State(), LockWait, InLock(m), None);
      hide Valid, State, Schedule, Park, Marked, Queued;
      var interrupted := TakeInterrupt();
      if interrupted {
        return Failed(EINTR);
      }
      var mu := MutexOf(m);
      if mu.owner == None {
        SetMutex(m, mu.(owner := Some(current)));
        return Done;
      }
      if mu.owner == Some(current) {
        return Failed(EDEADLK);
      }
      SetState(LockWait, InLock(m));
      SetMutex(m, mu.(waitQ := mu.waitQ + [current]));
      VpSchedule();
      ret := Blocked;
    }

    method LockTail(m: nat) returns (ret: Ret)
      requires Valid() && Executing(State())
      modifies this`mutexes, memory.Values
      ensures Valid() && (State(), ret) == AfterMutexLock(old(State()), m)
    {
      Read(current);
      hide Valid, State, Return, ClearInterrupt;
      var mu := MutexOf(m);
      SetMutex(m, mu.(waitQ := Without(mu.waitQ, current)));
      BackToCaller();
      if memory[current].interrupt && mu.owner != Some(current) {
        var interrupted := TakeInterrupt();
        return Failed(EINTR);
      }
      ret := Done;
    }

    /** st_mutex_unlock: the first waiter found still waiting becomes the owner. */
    method UnlockCall(m: nat) returns (ret: Ret)
      requires Valid() && Executing(State()) && SleepOk(State())
      requires forall t | t in MutexOf(m).waitQ :: t in memory
      modifies this`mutexes, heap, memory.Values
      ensures Valid() && (State(), ret) == StMutexUnlock(old(State()), m)
    {
      hide Valid, SleepOk, Executing, MakeRunnable;
      var mu := MutexOf(m);
      if mu.owner != Some(current) {
        return Failed(EPERM);
      }
      var q := mu.waitQ;
      var i := 0;
      while i < |q|
        invariant 0 <= i <= |q| && Valid() && State() == old(State())
        invariant FirstInState(State(), q, LockWait) == FirstInState(State(), q[i..], LockWait)
      {
        var t := q[i];
        assert q[i..] == [t] + q[i + 1..];
        Read(t);
        FlagTells(t);
        if memory[t].state == LockWait {
          SetMutex(m, mu.(owner := Some(t)));
          Wake(t);
          return Done;
        }
        i := i + 1;
      }
      SetMutex(m, mu.(owner := None));
      ret := Done;
    }

    method TryLockCall(m: nat) returns (ret: Ret)
      requires Valid() && Executing(State())
      modifies this`mutexes, memory.Values
      ensures Valid() && (State(), ret) == StMutexTrylock(old(State()), m)
    {
      hide Valid, State;
      var mu := MutexOf(m);
      if mu.owner != None {
        return Failed(EBUSY);
      }
      SetMutex(m, mu.(owner := Some(current)));
      ret := Done;
    }

    // -------------------------------------------------------------- the idle thread

    /** Takes a poll off the I/O queue and makes its thread runnable, whatever state it is in. */
    method WakePoller(t: Tid)
      requires Valid() && SleepOk(State()) && t in memory
      modifies this`ioQ, heap, memory.Values
      ensures Valid() && SleepOk(State())
      ensures var s := old(State()); State() == MakeRunnable(s, t).(ioQ := Without(s.ioQ, t))
    {
      FlagTells(t);
      SleepChange(State(), MakeRunnable(State(), t).(ioQ := Without(ioQ, t)), t);
      hide Valid, State, SleepOk, MakeRunnable;
      Wake(t);
      SetIoQ(Without(ioQ, t));
    }

    /** The dispatch loop over the I/O queue: pollers with a ready descriptor are unlinked and
        made runnable; the state of a thread is not looked at. */
    method DispatchLoop(fired: set<Tid>)
      requires Valid() && SleepOk(State()) && forall t | t in ioQ :: t in memory
      modifies this`ioQ, heap, memory.Values
      ensures Valid() && SleepOk(State()) && State() == Dispatch(old(State()), old(ioQ), fired)
    {
      hide Valid, State, SleepOk, MakeRunnable;
      var q := ioQ;
      var i := 0;
      while i < |q|
        invariant 0 <= i <= |q| && Valid() && SleepOk(State())
        invariant Dispatch(old(State()), q, fired) == Dispatch(State(), q[i..], fired)
      {
        var t := q[i];
        assert q[i..] == [t] + q[i + 1..];
        if t in fired {
          WakePoller(t);
        }
        i := i + 1;
      }
    }

    /** The pass over the heap, which changes of its threads what is the business of the sleep queue. */
    method HeapPass(now: nat) returns (ghost woken: seq<H.Thread>)
      requires Valid()
      modifies heap, memory.Values
      ensures Valid() && H.ClockPass(old(H.Sleepers(H.Members(heap.nodes))), now, woken)
      ensures heap.lastClock == now && heap.runQ == old(heap.runQ) + H.Names(woken)
      ensures H.Members(heap.nodes) == old(H.Members(heap.nodes)) - H.Elements(woken)
      ensures H.Sleepers(old(H.Members(heap.nodes))) == H.AfterWake(old(H.Sleepers(H.Members(heap.nodes))), woken)
      ensures forall i | i in memory ::
        ChangedInPass(old(View(memory[i])), View(memory[i]), memory[i] in old(H.Members(heap.nodes)))
    {
      hide H.Vp.SleepQValid, H.ClockPass, H.AfterWake, H.Sleepers;
      woken := heap.CheckClock(now);
    }

    /** The clock pass over the heap. It wakes sleepers in an order that the step machine allows, and
        leaves the state that the step machine prescribes for this order. */
    method CheckClock(now: nat) returns (ghost due: seq<Tid>)
      requires Valid() && SleepOk(State())
      modifies heap, memory.Values
      ensures Valid() && IsClockPass(old(State()), now, due)
      ensures State() == WakeDue(old(State()).(clock := now), due)
    {
      hide Valid, SleepOk, Stands, H.ClockPass, H.AfterWake, H.Sleepers, H.Members, WakeDue, ChangedInPass;
      ghost var s, all := State(), H.Members(heap.nodes);
      ghost var before := H.Sleepers(all);
      SleepersStand();
      ghost var woken := HeapPass(now);
      due := H.Names(woken);
      PassIsClockPass(all, before, memory, s, now, woken);
      WokenStand(all, before, s, now, woken);
    }

    /** The threads in the heap are the sleepers of the step machine. */
    lemma SleepersStand()
      requires Valid()
      ensures Stands(H.Members(heap.nodes), H.Sleepers(H.Members(heap.nodes)), memory, State())
    {
    }

    /** After the pass the processor is in the state that the step machine prescribes. */
    lemma WokenStand(all: set<H.Thread>, before: map<H.Thread, H.Sleeper>, s: Vp, now: nat, woken: seq<H.Thread>)
      requires Stands(all, before, memory, s) && H.ClockPass(before, now, woken) && NoDup(H.Names(woken))
      requires State() == s.(threads := Threads(), runQ := s.runQ + H.Names(woken),
                             sleepQ := Ids(all - H.Elements(woken)), clock := now)
      requires H.Sleepers(all) == H.AfterWake(before, woken)
      requires forall i | i in memory :: ChangedInPass(s.threads[i], View(memory[i]), memory[i] in all)
      ensures State() == WakeDue(s.(clock := now), H.Names(woken))
    {
      assert forall t | t in woken :: t in all;
      hide H.ClockPass, H.AfterWake, H.Sleepers, ChangedInPass, H.Members, H.Elements, WakeDue, Ids, View;
      var due, s0 := H.Names(woken), s.(clock := now);
      forall t | t in due
        ensures t in s0.threads
      {
        var k :| 0 <= k < |woken| && due[k] == t;
        assert woken[k] in woken;
      }
      WakeDueQueue(s0, due);
      WakeDueThreads(s0, due);
      WakeDueFrame(s0, due);
      IdsAwake(all, before, s, now, woken);
      forall i | i in memory
        ensures Threads()[i] == WakeDue(s0, due).threads[i]
      {
        ThreadAfterPass(all, before, s, now, woken, i);
      }
      assert Threads() == WakeDue(s0, due).threads;
    }

    lemma IdsAwake(all: set<H.Thread>, before: map<H.Thread, H.Sleeper>, s: Vp, now: nat, woken: seq<H.Thread>)
      requires Stands(all, before, memory, s) && H.ClockPass(before, now, woken)
      ensures Ids(all - H.Elements(woken)) == s.sleepQ - set t | t in H.Names(woken)
    {
      forall t | t in all
        ensures t.id in H.Names(woken) <==> t in woken
      {
        NamesMember(all, before, memory, s, woken, t);
      }
    }

    lemma ThreadAfterPass(all: set<H.Thread>, before: map<H.Thread, H.Sleeper>, s: Vp, now: nat, woken: seq<H.Thread>,
        i: Tid)
      requires Stands(all, before, memory, s) && H.ClockPass(before, now, woken) && i in memory
      requires H.Sleepers(all) == H.AfterWake(before, woken)
      requires ChangedInPass(s.threads[i], View(memory[i]), memory[i] in all)
      ensures View(memory[i]) ==
        if i in H.Names(woken)
        then s.threads[i].(state := Runnable, onSleepQ := false,
                           timedOut := s.threads[i].timedOut || s.threads[i].state == CondWait)
        else s.threads[i]
    {
      var t := memory[i];
      if t in all {
        NamesMember(all, before, memory, s, woken, t);
        assert SleeperOf(View(t)) == H.AfterWake(before, woken)[t];
      } else {
        forall k | 0 <= k < |woken|
          ensures H.Names(woken)[k] != i
        {
          assert woken[k] in woken;
        }
      }
    }

    method IdleTurn(fired: set<Tid>, now: nat) returns (ghost due: seq<Tid>)
      requires Valid() && Inv(State()) && current == IDLE
      modifies this, heap, memory.Values
      ensures Valid() && Enabled(old(State()), Turn(fired, now, due))
      ensures State() == Step(old(State()), Turn(fired, now, due)).0 && Inv(State())
    {
      ghost var s := State();
      IdleSeesOnlyWaiters(s);
      assert IDLE in memory && SleepOk(s) && s.runQ == [];
      hide Valid, State, Inv, SleepOk, WakeDue, Dispatch;
      DispatchLoop(fired);
      due := CheckClock(now);
      PassesQueue(s, fired, now, due);
      SwitchState(IDLE, Runnable);
      VpSchedule();
      StepKeeps(s, Turn(fired, now, due));
    }

    // -------------------------------------------------------------- one step

    /** Whatever the current thread does next, the processor follows the step machine, its heap stays
        valid, and the invariant of the machine holds again. */
    method Do(e: Event) returns (ret: Ret)
      requires Valid() && Inv(State()) && Enabled(State(), e) && !e.Turn?
      modifies this, heap, memory.Values
      ensures Valid() && (State(), ret) == Step(old(State()), e)
      ensures Inv(State()) && ret != Fault
      ensures fresh(memory.Values - old(memory.Values))
    {
      hide Valid, State, Inv, CallReady, ResumeReady;
      StepKeeps(State(), e);
      if e.Invoke? {
        Ready(State(), e.call);
        CanRun(State());
        ret := DoInvoke(e.call);
      } else {
        ReadyToResume(State());
        CanRun(State());
        ValuesOfPart(memory, current);
        ret := DoTail();
      }
    }

    method DoInvoke(call: Call) returns (ret: Ret)
      requires Valid() && Executing(State()) && CallReady(State(), call)
      modifies this, heap, memory.Values
      ensures Valid() && (State(), ret) == DoCall(old(State()), call)
      ensures fresh(memory.Values - old(memory.Values))
    {
      hide Valid, State, SleepOk, DoSyncCall, DoThreadCall, SafeToSchedule;
      QueuesAgree();
      Read(current);
      if IsSyncCall(call) {
        ret := DoSync(call);
      } else {
        ret := DoThread(call);
      }
    }

    lemma QueuesAgree()
      ensures forall c :: CondQ(c) == State().CondQ(c)
      ensures forall m :: MutexOf(m) == State().MutexOf(m)
    {
    }

    method DoSync(call: Call) returns (ret: Ret)
      requires Valid() && Executing(State()) && IsSyncCall(call) && SleepOk(State()) && current !in State().sleepQ
      requires forall c, t | t in CondQ(c) :: t in memory
      requires forall m, t | t in MutexOf(m).waitQ :: t in memory
      modifies this`current, this`condQs, this`mutexes, heap, memory.Values
      ensures Valid() && (State(), ret) == DoSyncCall(old(State()), call)
    {
      hide Valid, State, SleepOk, Executing, StUsleep, StCondTimedwait, Signal, SignalAll, StMutexLock, StMutexUnlock, StMutexTrylock;
      match call
      case Sleep(timeout) => ret := SleepCall(timeout);
      case CondWaitFor(c, timeout) => ret := CondWaitCall(c, timeout);
      case CondSignal(c) => SignalOn(UserCond(c), false); ret := Done;
      case CondBroadcast(c) => SignalOn(UserCond(c), true); ret := Done;
      case Lock(m) => ret := LockCall(m);
      case Unlock(m) => ret := UnlockCall(m);
      case TryLock(m) => ret := TryLockCall(m);
    }

    method DoThread(call: Call) returns (ret: Ret)
      requires Valid() && Executing(State()) && !IsSyncCall(call) && SleepOk(State()) && current !in State().sleepQ
      requires forall c, t | t in CondQ(c) :: t in memory
      requires SafeToSchedule(if memory[current].joinable then BecomeZombie(State()) else Vanish(State()))
      requires call.Interrupt? || call.Join? ==> call.thread in memory
      requires call.Create? ==> call.thread !in memory
      modifies this, heap, memory.Values
      ensures Valid() && (State(), ret) == DoThreadCall(old(State()), call)
      ensures fresh(memory.Values - old(memory.Values))
    {
      hide Valid, State, SleepOk, Executing, SafeToSchedule, StPoll, StThreadInterrupt, StThreadCreate, StThreadExit, StThreadJoin;
      match call
      case Poll(added, timeout) => ret := PollCall(added, timeout);
      case Interrupt(t) => ret := InterruptCall(t);
      case Create(t, join) => ret := CreateCall(t, join);
      case Exit => ValuesOfPart(memory, current); ret := ExitCall();
      case Join(g) => ret := JoinCall(g);
    }

    method DoTail() returns (ret: Ret)
      requires Valid() && Executing(State()) && ResumeReady(State())
      modifies this, heap, memory.Values
      ensures Valid() && (State(), ret) == DoResume(old(State()))
      ensures memory == old(memory) || memory == old(memory) - {old(current)}
    {
      hide Valid, State, SafeToSchedule, AfterPoll, AfterUsleep, AfterCondTimedwait, AfterThreadJoin, AfterMutexLock,
        AfterThreadExit;
      Read(current);
      var pc := memory[current].pc;
      if pc.InExit? {
        ret := ExitTail();
      } else {
        ret := TailOf(pc);
      }
    }

    /** The tails that return to the code of the current thread. */
    method TailOf(pc: Pc) returns (ret: Ret)
      requires Valid() && Executing(State()) && State().threads[current].pc == pc && !pc.InExit?
      requires pc.InJoin? && !State().threads[current].interrupt && !State().threads[current].timedOut ==> pc.target in memory
      modifies this`current, this`ioQ, this`zombieQ, this`condQs, this`mutexes, heap, memory.Values
      ensures Valid() && (State(), ret) == DoResume(old(State()))
    {
      Read(current);
      hide Valid, State, AfterPoll, AfterUsleep, AfterThreadJoin, AfterMutexLock;
      match pc
      case InPoll => ret := PollTail();
      case InSleep => ret := SleepTail();
      case InCondWait(c) => ret := WaitTail(UserCond(c));
      case InJoin(g) => ret := JoinTail(g);
      case InLock(m) => ret := LockTail(m);
      case InUserCode => ret := Blocked;
      case InIdleLoop => ret := Blocked;
    }
  }
}
