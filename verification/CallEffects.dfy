/** What each call of the State Threads library answers and leaves behind, in terms of the states before and
    after the step alone. */
module CallEffects {
  import opened Lists
  import opened Scheduler
  import opened ThreadStates

  // ---------------------------------------------------------------- what a step may leave

  /** The flag of a pending interrupt is down, and nothing else has changed. */
  ghost predicate InterruptTaken(s: Vp, s1: Vp)
    requires s.current in s.threads
  {
    s1 == s.(threads := s.threads[s.current := s.threads[s.current].(interrupt := false)])
  }

  /** A context switch away from these threads and this run queue: its head runs, or the idle thread. */
  ghost predicate Switched(threads: map<Tid, Thread>, runQ: seq<Tid>, s1: Vp) {
    var next := if runQ == [] then IDLE else runQ[0];
    && next in threads && s1.current == next && s1.runQ == (if runQ == [] then [] else runQ[1..])
    && s1.threads == threads[next := threads[next].(state := Running)]
  }

  /** The caller waits in the given state, on the sleep queue if it gave a timeout. */
  function Parked(s: Vp, state: ThreadState, pc: Pc, timeout: Option<nat>): Thread
    requires s.current in s.threads
  {
    var me := s.threads[s.current].(state := state, pc := pc);
    if timeout.Some? then me.(onSleepQ := true, due := s.clock + timeout.value) else me
  }

  function SleepersWith(s: Vp, timeout: Option<nat>): set<Tid> {
    if timeout.Some? then s.sleepQ + {s.current} else s.sleepQ
  }

  /** The caller waits, somebody else runs. */
  ghost predicate GaveWay(s: Vp, s1: Vp, state: ThreadState, pc: Pc, timeout: Option<nat>)
    requires s.current in s.threads
  {
    && Switched(s.threads[s.current := Parked(s, state, pc, timeout)], s.runQ, s1)
    && s1.sleepQ == SleepersWith(s, timeout)
    && s1.zombieQ == s.zombieQ && s1.clock == s.clock
  }

  /** A call that parks its thread and switches gives way, whatever queues it joined. */
  lemma ParkGivesWay(s: Vp, state: ThreadState, pc: Pc, timeout: Option<nat>,
      ioQ: seq<Tid>, condQs: map<Cond, seq<Tid>>, mutexes: map<nat, Mutex>)
    requires Executing(s)
    ensures var p := Park(s, state, pc, timeout);
      && p.ioQ == s.ioQ && p.condQs == s.condQs && p.mutexes == s.mutexes
      && var q := p.(ioQ := ioQ, condQs := condQs, mutexes := mutexes);
        && SafeToSchedule(q)
        && var s1 := Schedule(q);
          GaveWay(s, s1, state, pc, timeout) && s1.ioQ == ioQ && s1.condQs == condQs && s1.mutexes == mutexes
  {
  }

  /** Queue q1 is q without t, which was on it once. */
  ghost predicate TakenOff(q: seq<Tid>, q1: seq<Tid>, t: Tid) {
    exists i :: 0 <= i < |q| && q[i] == t && q1 == q[..i] + q[i + 1..]
  }

  lemma TakenOffBehind(x: Tid, q: seq<Tid>, q1: seq<Tid>, t: Tid)
    requires TakenOff(q, q1, t)
    ensures TakenOff([x] + q, [x] + q1, t)
  {
    var i :| 0 <= i < |q| && q[i] == t && q1 == q[..i] + q[i + 1..];
    var all, j := [x] + q, i + 1;
    assert all[..j] == [x] + q[..i] && all[j + 1..] == q[i + 1..];
    assert all[j] == t && [x] + q1 == all[..j] + all[j + 1..];
  }

  lemma {:induction false} WithoutTakesOff(q: seq<Tid>, t: Tid)
    requires NoDup(q) && t in q
    ensures TakenOff(q, Without(q, t), t)
  {
    NoDupTail(q);
    hide NoDup;
    assert q == [q[0]] + q[1..];
    if q[0] == t {
      WithoutAbsent(q[1..], t);
      assert q[0] == t && Without(q, t) == q[..0] + q[0 + 1..];
    } else {
      assert NoDup(q[1..]) && t in q[1..];
      WithoutTakesOff(q[1..], t);
      TakenOffBehind(q[0], q[1..], Without(q[1..], t), t);
    }
  }

  lemma LeavesQueue(q: seq<Tid>, t: Tid)
    requires NoDup(q)
    ensures if t in q then TakenOff(q, Without(q, t), t) else Without(q, t) == q
  {
    if t in q {
      WithoutTakesOff(q, t);
    } else {
      WithoutAbsent(q, t);
    }
  }

  // ---------------------------------------------------------------- mutexes

  /** A lock reports an interrupt, or takes a free mutex, or refuses to take it twice, or waits last. */
  lemma LockEffect(s: Vp, m: nat)
    requires Inv(s) && Enabled(s, Invoke(Lock(m)))
    ensures var (s1, ret) := Step(s, Invoke(Lock(m)));
      var mu := s.MutexOf(m);
      if s.threads[s.current].interrupt then ret == Failed(EINTR) && InterruptTaken(s, s1)
      else if mu.owner == None then
        ret == Done && s1 == s.(mutexes := s.mutexes[m := Mutex(Some(s.current), mu.waitQ)])
      else if mu.owner == Some(s.current) then ret == Failed(EDEADLK) && s1 == s
      else
        && ret == Blocked && GaveWay(s, s1, LockWait, InLock(m), None)
        && s1.mutexes == s.mutexes[m := Mutex(mu.owner, mu.waitQ + [s.current])]
        && s1.ioQ == s.ioQ && s1.condQs == s.condQs
  {
    CanRun(s);
    var mu := s.MutexOf(m);
    ParkGivesWay(s, LockWait, InLock(m), None, s.ioQ, s.condQs, s.mutexes[m := mu.(waitQ := mu.waitQ + [s.current])]);
    hide Inv, GaveWay, Park, Schedule, SafeToSchedule;
  }

  /** A lock that waited leaves the queue; it fails exactly if it was interrupted and is not the owner. */
  lemma LockResult(s: Vp, m: nat)
    requires Inv(s) && Enabled(s, Resume) && s.threads[s.current].pc == InLock(m)
    ensures var (s1, ret) := Step(s, Resume);
      var me, mu := s.threads[s.current], s.MutexOf(m);
      var failed := me.interrupt && mu.owner != Some(s.current);
      && ret == (if failed then Failed(EINTR) else Done)
      && s1.threads == s.threads[s.current := me.(pc := InUserCode, interrupt := me.interrupt && !failed)]
      && TakenOff(mu.waitQ, s1.MutexOf(m).waitQ, s.current)
      && s1.mutexes == s.mutexes[m := Mutex(mu.owner, s1.MutexOf(m).waitQ)]
      && s1 == s.(threads := s1.threads, mutexes := s1.mutexes)
  {
    CanRun(s);
    assert LockQOk(s.MutexOf(m).waitQ, m, s.threads);
    WithoutTakesOff(s.MutexOf(m).waitQ, s.current);
    hide Inv, Without, TakenOff;
  }

  lemma TryLockEffect(s: Vp, m: nat)
    requires Inv(s) && Enabled(s, Invoke(TryLock(m)))
    ensures var (s1, ret) := Step(s, Invoke(TryLock(m)));
      var mu := s.MutexOf(m);
      if mu.owner == None then
        ret == Done && s1 == s.(mutexes := s.mutexes[m := Mutex(Some(s.current), mu.waitQ)])
      else ret == Failed(EBUSY) && s1 == s
  {
    CanRun(s);
    hide Inv;
  }

  /** Waiter i of q, the earliest in its state, becomes runnable behind everybody else. */
  ghost predicate Woke(s: Vp, s1: Vp, q: seq<Tid>, state: ThreadState, i: nat, signalled: bool) {
    && EarliestIn(s, q, state, i)
    && var th := s.threads[q[i]];
      && s1.threads == s.threads[q[i] := th.(state := Runnable, onSleepQ := false, signalled := th.signalled || signalled)]
      && s1.runQ == s.runQ + [q[i]] && s1.sleepQ == s.sleepQ - {q[i]}
  }

  lemma UnlockEffect(s: Vp, m: nat)
    requires Inv(s) && Enabled(s, Invoke(Unlock(m)))
    ensures var (s1, ret) := Step(s, Invoke(Unlock(m)));
      var mu := s.MutexOf(m);
      if mu.owner != Some(s.current) then ret == Failed(EPERM) && s1 == s
      else
        && ret == Done
        && s1 == s.(threads := s1.threads, runQ := s1.runQ, sleepQ := s1.sleepQ, mutexes := s1.mutexes)
        && (if SomeoneIn(s, mu.waitQ, LockWait) then
              exists i: nat :: Woke(s, s1, mu.waitQ, LockWait, i, false)
                && s1.mutexes == s.mutexes[m := Mutex(Some(mu.waitQ[i]), mu.waitQ)]
            else s1 == s.(mutexes := s.mutexes[m := Mutex(None, mu.waitQ)]))
  {
    CanRun(s);
    var mu := s.MutexOf(m);
    FirstIsEarliest(s, mu.waitQ, LockWait);
    if mu.owner == Some(s.current) && SomeoneIn(s, mu.waitQ, LockWait) {
      var i: nat :| EarliestIn(s, mu.waitQ, LockWait, i) && FirstInState(s, mu.waitQ, LockWait) == Some(mu.waitQ[i]);
      assert Woke(s, Step(s, Invoke(Unlock(m))).0, mu.waitQ, LockWait, i, false);
    }
  }

  // ---------------------------------------------------------------- condition variables

  lemma CondWaitEffect(s: Vp, c: nat, timeout: Option<nat>)
    requires Inv(s) && Enabled(s, Invoke(CondWaitFor(c, timeout)))
    ensures var (s1, ret) := Step(s, Invoke(CondWaitFor(c, timeout)));
      if s.threads[s.current].interrupt then ret == Failed(EINTR) && InterruptTaken(s, s1)
      else
        && ret == Blocked && GaveWay(s, s1, CondWait, InCondWait(c), timeout)
        && s1.condQs == s.condQs[UserCond(c) := s.CondQ(UserCond(c)) + [s.current]]
        && s1.ioQ == s.ioQ && s1.mutexes == s.mutexes
  {
    CanRun(s);
    var c1 := UserCond(c);
    ParkGivesWay(s, CondWait, InCondWait(c), timeout, s.ioQ, s.condQs[c1 := s.CondQ(c1) + [s.current]], s.mutexes);
    hide Inv, GaveWay, Park, Schedule, SafeToSchedule;
  }

  /** A wait that ends leaves the queue, takes its flags down and reports an interrupt before a timeout. */
  lemma CondWaitResult(s: Vp, c: nat)
    requires Inv(s) && Enabled(s, Resume) && s.threads[s.current].pc == InCondWait(c)
    ensures var (s1, ret) := Step(s, Resume);
      var me, q := s.threads[s.current], s.CondQ(UserCond(c));
      && ret == (if me.interrupt then Failed(EINTR) else if me.timedOut then Failed(ETIME) else Done)
      && (ret == Done <==> me.signalled && !me.interrupt)
      && s1.threads == s.threads[s.current := me.(pc := InUserCode, timedOut := false, interrupt := false, signalled := false)]
      && TakenOff(q, s1.CondQ(UserCond(c)), s.current)
      && s1.condQs == s.condQs[UserCond(c) := s1.CondQ(UserCond(c))]
      && s1 == s.(threads := s1.threads, condQs := s1.condQs)
  {
    CanRun(s);
    assert CondReason(s.threads[s.current]);
    assert CondQOk(s.CondQ(UserCond(c)), UserCond(c), s.threads);
    WithoutTakesOff(s.CondQ(UserCond(c)), s.current);
  }

  /** The earliest waiter of q, if there is one, was signalled, and nothing else has changed. */
  ghost predicate Told(s: Vp, s1: Vp, q: seq<Tid>) {
    && s1 == s.(threads := s1.threads, runQ := s1.runQ, sleepQ := s1.sleepQ)
    && if SomeoneIn(s, q, CondWait) then exists i: nat :: Woke(s, s1, q, CondWait, i, true) else s1 == s
  }

  lemma TellsOne(s: Vp, c: Cond)
    ensures Told(s, Signal(s, c), s.CondQ(c))
  {
    var q := s.CondQ(c);
    FirstIsEarliest(s, q, CondWait);
    if SomeoneIn(s, q, CondWait) {
      var i: nat :| EarliestIn(s, q, CondWait, i) && FirstInState(s, q, CondWait) == Some(q[i]);
      assert Woke(s, Signal(s, c), q, CondWait, i, true);
    }
  }

  lemma SignalEffect(s: Vp, c: nat)
    requires Inv(s) && Enabled(s, Invoke(CondSignal(c)))
    ensures var (s1, ret) := Step(s, Invoke(CondSignal(c)));
      ret == Done && Told(s, s1, s.CondQ(UserCond(c)))
  {
    CanRun(s);
    TellsOne(s, UserCond(c));
    hide Inv, Signal, Told;
  }

  /** The threads of q that wait for a condition, in queue order. */
  function CondWaiters(s: Vp, q: seq<Tid>): (r: seq<Tid>)
    ensures forall t :: t in r <==> t in q && t in s.threads && s.threads[t].state == CondWait
  {
    if q == [] then []
    else
      (if q[0] in s.threads && s.threads[q[0]].state == CondWait then [q[0]] else []) + CondWaiters(s, q[1..])
  }

  /** The threads of woken are runnable, in this order behind everybody else, and marked as signalled. */
  ghost predicate AllWoke(s: Vp, s1: Vp, woken: seq<Tid>) {
    && s1.runQ == s.runQ + woken && s1.sleepQ == s.sleepQ - (set t | t in woken)
    && s1.threads.Keys == s.threads.Keys
    && (forall t | t in s.threads ::
          s1.threads[t] == if t in woken then s.threads[t].(state := Runnable, onSleepQ := false, signalled := true) else s.threads[t])
    && s1 == s.(threads := s1.threads, runQ := s1.runQ, sleepQ := s1.sleepQ)
  }

  lemma SameWaiters(s: Vp, s1: Vp, q: seq<Tid>)
    requires forall t | t in q :: (t in s.threads <==> t in s1.threads) && (t in s.threads ==> s.threads[t] == s1.threads[t])
    ensures CondWaiters(s, q) == CondWaiters(s1, q)
  {
    if q != [] {
      SameWaiters(s, s1, q[1..]);
    }
  }

  lemma OneMoreWoke(s: Vp, s1: Vp, t: Tid, w: seq<Tid>)
    requires t in s.threads && t !in w && AllWoke(SignalTo(s, t), s1, w)
    ensures AllWoke(s, s1, [t] + w)
  {
    var all := [t] + w;
    assert s.sleepQ - {t} - (set u | u in w) == s.sleepQ - (set u | u in all);
    assert s.runQ + [t] + w == s.runQ + all;
  }

  lemma {:induction false} AllAreWoken(s: Vp, q: seq<Tid>)
    requires NoDup(q)
    ensures AllWoke(s, SignalAll(s, q), CondWaiters(s, q))
    decreases |q|
  {
    if q == [] {
      assert s.sleepQ - (set t | t in []) == s.sleepQ;
    } else {
      NoDupTail(q);
      var t, rest := q[0], q[1..];
      var w := CondWaiters(s, rest);
      if t in s.threads && s.threads[t].state == CondWait {
        SameWaiters(s, SignalTo(s, t), rest);
        hide AllWoke, SignalTo, NoDup;
        AllAreWoken(SignalTo(s, t), rest);
        OneMoreWoke(s, SignalAll(s, q), t, w);
      } else {
        hide AllWoke, NoDup;
        AllAreWoken(s, rest);
        assert CondWaiters(s, q) == w;
      }
    }
  }

  /** A broadcast wakes every waiter still in COND_WAIT, in queue order, and nobody else. */
  lemma BroadcastEffect(s: Vp, c: nat)
    requires Inv(s) && Enabled(s, Invoke(CondBroadcast(c)))
    ensures var (s1, ret) := Step(s, Invoke(CondBroadcast(c)));
      ret == Done && AllWoke(s, s1, CondWaiters(s, s.CondQ(UserCond(c))))
  {
    CanRun(s);
    assert CondQOk(s.CondQ(UserCond(c)), UserCond(c), s.threads);
    AllAreWoken(s, s.CondQ(UserCond(c)));
  }

  // ---------------------------------------------------------------- sleeping and polling

  lemma SleepEffect(s: Vp, timeout: Option<nat>)
    requires Inv(s) && Enabled(s, Invoke(Sleep(timeout)))
    ensures var (s1, ret) := Step(s, Invoke(Sleep(timeout)));
      if s.threads[s.current].interrupt then ret == Failed(EINTR) && InterruptTaken(s, s1)
      else
        && ret == Blocked && GaveWay(s, s1, if timeout.Some? then Sleeping else Suspended, InSleep, timeout)
        && s1.ioQ == s.ioQ && s1.condQs == s.condQs && s1.mutexes == s.mutexes
  {
    CanRun(s);
    ParkGivesWay(s, if timeout.Some? then Sleeping else Suspended, InSleep, timeout, s.ioQ, s.condQs, s.mutexes);
    hide Inv, GaveWay, Park, Schedule, SafeToSchedule;
  }

  lemma SleepResult(s: Vp)
    requires Inv(s) && Enabled(s, Resume) && s.threads[s.current].pc == InSleep
    ensures var (s1, ret) := Step(s, Resume);
      && ret == (if s.threads[s.current].interrupt then Failed(EINTR) else Done)
      && s1 == s.(threads := s.threads[s.current := s.threads[s.current].(pc := InUserCode, interrupt := false)])
  {
    CanRun(s);
    hide Inv;
  }

  lemma PollEffect(s: Vp, added: bool, timeout: Option<nat>)
    requires Inv(s) && Enabled(s, Invoke(Poll(added, timeout)))
    ensures var (s1, ret) := Step(s, Invoke(Poll(added, timeout)));
      if s.threads[s.current].interrupt then ret == Failed(EINTR) && InterruptTaken(s, s1)
      else if !added then ret == Failed(EBADPOLL) && s1 == s
      else
        && ret == Blocked && GaveWay(s, s1, IoWait, InPoll, timeout)
        && s1.ioQ == s.ioQ + [s.current] && s1.condQs == s.condQs && s1.mutexes == s.mutexes
  {
    CanRun(s);
    ParkGivesWay(s, IoWait, InPoll, timeout, s.ioQ + [s.current], s.condQs, s.mutexes);
    hide Inv, GaveWay, Park, Schedule, SafeToSchedule;
  }

  lemma PutTwice(s: Vp, t: Tid, a: Thread, b: Thread)
    ensures s.threads[t := a][t := b] == s.threads[t := b]
  {
  }

  lemma PollReturns(s: Vp)
    requires Executing(s) && s.threads[s.current].pc == InPoll
    ensures var me := s.threads[s.current];
      DoResume(s) ==
        (s.(threads := s.threads[s.current := me.(pc := InUserCode, interrupt := false)], ioQ := Without(s.ioQ, s.current)),
         if me.interrupt then Failed(EINTR) else Polled(s.current !in s.ioQ))
  {
    hide Without;
    var me := s.threads[s.current];
    PutTwice(s, s.current, me.(pc := InUserCode), me.(pc := InUserCode, interrupt := false));
  }

  /** A poll that resumes reports an interrupt, or else readiness exactly if it is off the I/O queue; if it
      is not, it leaves that queue now. */
  lemma PollResult(s: Vp)
    requires Inv(s) && Enabled(s, Resume) && s.threads[s.current].pc == InPoll
    ensures var (s1, ret) := Step(s, Resume);
      var me := s.threads[s.current];
      && ret == (if me.interrupt then Failed(EINTR) else Polled(s.current !in s.ioQ))
      && s1 == s.(threads := s.threads[s.current := me.(pc := InUserCode, interrupt := false)], ioQ := s1.ioQ)
      && (if s.current in s.ioQ then TakenOff(s.ioQ, s1.ioQ, s.current) else s1.ioQ == s.ioQ)
  {
    CanRun(s);
    LeavesQueue(s.ioQ, s.current);
    PollReturns(s);
    hide Inv, TakenOff, Without, DoResume;
  }

  // ---------------------------------------------------------------- threads

  /** An interrupt raises the flag of a thread that has not ended, and wakes it if it waits. */
  lemma InterruptEffect(s: Vp, t: Tid)
    requires Inv(s) && Enabled(s, Invoke(Interrupt(t)))
    ensures var (s1, ret) := Step(s, Invoke(Interrupt(t)));
      var th := s.threads[t];
      && ret == Done
      && (if th.state == Zombie then s1 == s
          else if th.state == Running || th.state == Runnable then s1 == s.(threads := s.threads[t := th.(interrupt := true)])
          else s1 == s.(threads := s.threads[t := th.(interrupt := true, state := Runnable, onSleepQ := false)],
                        runQ := s.runQ + [t], sleepQ := s.sleepQ - {t}))
  {
    CanRun(s);
    hide Inv;
  }

  /** A new thread is runnable behind everybody else, with no flag up. */
  lemma CreateEffect(s: Vp, t: Tid, join: bool)
    requires Inv(s) && Enabled(s, Invoke(Create(t, join)))
    ensures var (s1, ret) := Step(s, Invoke(Create(t, join)));
      && ret == Done && t !in s.threads && t in s1.threads
      && var th := s1.threads[t];
        && s1 == s.(threads := s.threads[t := th], runQ := s.runQ + [t])
        && th.state == Runnable && th.pc == InUserCode && th.joinable == join
        && !th.interrupt && !th.timedOut && !th.onSleepQ && !th.signalled
  {
    CanRun(s);
    hide Inv;
  }

  lemma {:induction false} SameFirst(s: Vp, s1: Vp, q: seq<Tid>, state: ThreadState)
    requires s.threads == s1.threads
    ensures FirstInState(s, q, state) == FirstInState(s1, q, state)
  {
    if q != [] {
      SameFirst(s, s1, q[1..], state);
    }
  }

  /** The zombie queue plays no part in the signal. */
  lemma ZombieTold(s: Vp, zombieQ: seq<Tid>)
    requires s.current in s.threads
    ensures var ended := s.(threads := s.threads[s.current := s.threads[s.current].(state := Zombie, pc := InExit)]);
      var c := TermCond(s.current);
      Signal(ended.(zombieQ := zombieQ), c) == Signal(ended, c).(zombieQ := zombieQ)
  {
    var ended := s.(threads := s.threads[s.current := s.threads[s.current].(state := Zombie, pc := InExit)]);
    SameFirst(ended.(zombieQ := zombieQ), ended, s.CondQ(TermCond(s.current)), CondWait);
  }

  /** The caller is a zombie, its joiner, if it has one, is signalled, and somebody else runs. */
  ghost predicate EndedAsZombie(s: Vp, s1: Vp)
    requires s.current in s.threads
  {
    var ended := s.(threads := s.threads[s.current := s.threads[s.current].(state := Zombie, pc := InExit)]);
    exists told: Vp :: Told(ended, told, s.CondQ(TermCond(s.current))) && Switched(told.threads, told.runQ, s1)
      && s1 == told.(threads := s1.threads, current := s1.current, runQ := s1.runQ, zombieQ := s.zombieQ + [s.current])
  }

  lemma ZombieEnds(s: Vp)
    requires s.current in s.threads && SafeToSchedule(BecomeZombie(s))
    ensures EndedAsZombie(s, Schedule(BecomeZombie(s)))
  {
    var ended := s.(threads := s.threads[s.current := s.threads[s.current].(state := Zombie, pc := InExit)]);
    var told := Signal(ended, TermCond(s.current));
    TellsOne(ended, TermCond(s.current));
    ZombieTold(s, s.zombieQ + [s.current]);
    hide Told, Signal;
    assert BecomeZombie(s) == told.(zombieQ := s.zombieQ + [s.current]);
    hide BecomeZombie;
    var s1 := Schedule(BecomeZombie(s));
    assert Told(ended, told, s.CondQ(TermCond(s.current))) && Switched(told.threads, told.runQ, s1);
  }

  /** The current thread is gone, and somebody else runs. */
  ghost predicate Gone(s: Vp, s1: Vp) {
    && Switched(s.threads - {s.current}, s.runQ, s1)
    && s1 == s.(threads := s1.threads, current := s1.current, runQ := s1.runQ)
  }

  lemma GoneAtOnce(s: Vp)
    requires SafeToSchedule(Vanish(s))
    ensures Gone(s, Schedule(Vanish(s)))
  {
  }

  lemma ExitIsSafe(s: Vp)
    requires Inv(s) && Enabled(s, Invoke(Exit))
    ensures Executing(s)
    ensures if s.threads[s.current].joinable then SafeToSchedule(BecomeZombie(s)) else SafeToSchedule(Vanish(s))
  {
    CanRun(s);
    if s.threads[s.current].joinable {
      ExitJoinableKeeps(s);
    }
  }

  /** A joinable thread that ends becomes a zombie and signals its joiner; another one is gone at once. */
  lemma ExitEffect(s: Vp)
    requires Inv(s) && Enabled(s, Invoke(Exit))
    ensures var (s1, ret) := Step(s, Invoke(Exit));
      ret == Blocked && if s.threads[s.current].joinable then EndedAsZombie(s, s1) else Gone(s, s1)
  {
    ExitIsSafe(s);
    hide Inv, EndedAsZombie, Gone, BecomeZombie, Vanish, Schedule, SafeToSchedule;
    if s.threads[s.current].joinable {
      ZombieEnds(s);
    } else {
      GoneAtOnce(s);
    }
  }

  /** A zombie that was taken over disappears when it runs again. */
  lemma ExitResult(s: Vp)
    requires Inv(s) && Enabled(s, Resume) && s.threads[s.current].pc == InExit
    ensures var (s1, ret) := Step(s, Resume);
      ret == Blocked && Gone(s, s1)
  {
    CanRun(s);
    hide Inv;
  }

  /** The loop of a join at its test, from state s: a zombie is taken over, another thread is waited for. */
  ghost predicate Joining(s: Vp, g: Tid, s1: Vp, ret: Ret)
    requires s.current in s.threads && g in s.threads
  {
    if s.threads[g].state == Zombie then
      && ret == Done && TakenOff(s.zombieQ, s1.zombieQ, g)
      && s1 == s.(threads := s.threads[g := s.threads[g].(state := Runnable)], runQ := s.runQ + [g], zombieQ := s1.zombieQ)
    else if s.threads[s.current].interrupt then ret == Failed(EINTR) && InterruptTaken(s, s1)
    else
      && ret == Blocked && GaveWay(s, s1, CondWait, InJoin(g), None)
      && s1.condQs == s.condQs[TermCond(g) := s.CondQ(TermCond(g)) + [s.current]]
      && s1.ioQ == s.ioQ && s1.mutexes == s.mutexes
  }

  lemma JoinEffect(s: Vp, g: Tid)
    requires Inv(s) && Enabled(s, Invoke(Join(g)))
    ensures var (s1, ret) := Step(s, Invoke(Join(g)));
      if !s.threads[g].joinable then ret == Failed(EINVAL) && s1 == s
      else if g == s.current then ret == Failed(EDEADLK) && s1 == s
      else if s.CondQ(TermCond(g)) != [] then ret == Failed(EINVAL) && s1 == s
      else Joining(s, g, s1, ret)
  {
    CanRun(s);
    LeavesQueue(s.zombieQ, g);
    assert s.threads[g].state == Zombie ==> g in s.zombieQ;
    hide Inv, Without, TakenOff;
    if s.threads[g].joinable && g != s.current && s.CondQ(TermCond(g)) == [] {
      JoinTests(s, g);
      hide JoinTest, Joining;
    }
  }

  lemma JoinTests(s: Vp, g: Tid)
    requires Executing(s) && g in s.threads
    requires s.threads[g].state == Zombie ==> TakenOff(s.zombieQ, Without(s.zombieQ, g), g)
    ensures Joining(s, g, JoinTest(s, g).0, JoinTest(s, g).1)
  {
    var c := TermCond(g);
    ParkGivesWay(s, CondWait, InJoin(g), None, s.ioQ, s.condQs[c := s.CondQ(c) + [s.current]], s.mutexes);
    hide TakenOff, Without, GaveWay, Park, Schedule;
  }

  /** A join that resumes ends like a wait for a condition; if it was signalled, it takes the zombie over. */
  lemma JoinResult(s: Vp, g: Tid)
    requires Inv(s) && Enabled(s, Resume) && s.threads[s.current].pc == InJoin(g)
    ensures var (s1, ret) := Step(s, Resume);
      var me, q := s.threads[s.current], s.CondQ(TermCond(g));
      exists q1 :: TakenOff(q, q1, s.current)
        && var back := s.(threads := s.threads[s.current :=
               me.(pc := InUserCode, timedOut := false, interrupt := false, signalled := false)],
             condQs := s.condQs[TermCond(g) := q1]);
          if me.interrupt then ret == Failed(EINTR) && s1 == back
          else if me.timedOut then ret == Failed(ETIME) && s1 == back
          else g in s.threads && s.threads[g].state == Zombie && Joining(back, g, s1, ret)
  {
    CanRun(s);
    var me, q := s.threads[s.current], s.CondQ(TermCond(g));
    assert CondReason(me) && JoinReason(s, me) && Consistent(s.current, me);
    assert CondQOk(q, TermCond(g), s.threads);
    WithoutTakesOff(q, s.current);
    if !me.interrupt && !me.timedOut {
      WithoutTakesOff(s.zombieQ, g);
    }
    assert TakenOff(q, Without(q, s.current), s.current);
  }

  // ---------------------------------------------------------------- the idle thread

  /** The elements of q that are not in gone, in order. */
  function Remaining(q: seq<Tid>, gone: set<Tid>): (r: seq<Tid>)
    ensures forall t :: t in r <==> t in q && t !in gone
  {
    if q == [] then [] else (if q[0] in gone then [] else [q[0]]) + Remaining(q[1..], gone)
  }

  lemma {:induction false} RemainingWithout(q: seq<Tid>, t: Tid, gone: set<Tid>)
    ensures Remaining(Without(q, t), gone) == Remaining(q, gone + {t})
  {
    if q != [] {
      RemainingWithout(q[1..], t, gone);
      var w := Without(q[1..], t);
      assert ([q[0]] + w)[1..] == w;
    }
  }

  lemma {:induction false} RemainingAll(q: seq<Tid>)
    ensures Remaining(q, {}) == q
  {
    if q != [] {
      RemainingAll(q[1..]);
    }
  }

  function FiredOf(q: seq<Tid>, fired: set<Tid>): set<Tid> {
    set t | t in q && t in fired
  }

  lemma FiredOfMore(q: seq<Tid>, fired: set<Tid>)
    requires q != []
    ensures FiredOf(q, fired) == FiredOf(q[1..], fired) + (if q[0] in fired then {q[0]} else {})
  {
    assert q == [q[0]] + q[1..];
  }

  /** Dispatch takes the fired pollers off the I/O queue, and leaves most of the state alone. */
  lemma {:induction false} DispatchRest(s: Vp, q: seq<Tid>, fired: set<Tid>)
    requires forall t | t in q :: t in s.threads
    ensures var s1 := Dispatch(s, q, fired);
      && s1 == s.(threads := s1.threads, runQ := s1.runQ, sleepQ := s1.sleepQ, ioQ := s1.ioQ)
      && s1.ioQ == Remaining(s.ioQ, FiredOf(q, fired))
    decreases |q|
  {
    hide Without;
    if q == [] {
      assert FiredOf(q, fired) == {};
      RemainingAll(s.ioQ);
    } else {
      var t, rest := q[0], q[1..];
      FiredOfMore(q, fired);
      hide FiredOf, Remaining;
      if t in fired {
        DispatchRest(MakeRunnable(s, t).(ioQ := Without(s.ioQ, t)), rest, fired);
        RemainingWithout(s.ioQ, t, FiredOf(rest, fired));
      } else {
        DispatchRest(s, rest, fired);
        assert FiredOf(rest, fired) + {} == FiredOf(rest, fired);
      }
    }
  }

  /** A woken thread; dispatch looks at nothing, a timeout is noted on a wait for a condition. */
  function Woken(th: Thread, first: bool, timedOut: bool): Thread {
    th.(state := if first then Running else Runnable, onSleepQ := false,
        timedOut := th.timedOut || (timedOut && th.state == CondWait))
  }

  /** The threads of woken, of which those of due have timed out, wake, and the first of them runs. */
  ghost predicate TheseWoke(s: Vp, s1: Vp, woken: seq<Tid>, due: seq<Tid>) {
    && s1.current == (if woken == [] then IDLE else woken[0]) && s1.runQ == (if woken == [] then [] else woken[1..])
    && s1.threads.Keys == s.threads.Keys
    && (forall t :: t in s1.sleepQ <==> t in s.sleepQ && t !in woken)
    && forall t | t in s.threads && t != IDLE ::
         s1.threads[t] == if t in woken then Woken(s.threads[t], t == woken[0], t in due) else s.threads[t]
  }

  /** The fired pollers and then the other due sleepers wake, and nobody else is affected. */
  ghost predicate Turned(s: Vp, s1: Vp, fired: set<Tid>, now: nat, due: seq<Tid>) {
    && s1.clock == now && s1.zombieQ == s.zombieQ && s1.condQs == s.condQs && s1.mutexes == s.mutexes
    && s1.ioQ == Remaining(s.ioQ, fired)
    && TheseWoke(s, s1, Among(s.ioQ, fired) + due, due)
  }

  lemma {:induction false} SameRemaining(q: seq<Tid>, a: set<Tid>, b: set<Tid>)
    requires forall t | t in q :: t in a <==> t in b
    ensures Remaining(q, a) == Remaining(q, b)
  {
    if q != [] {
      SameRemaining(q[1..], a, b);
    }
  }

  /** The threads of woken are awake but not yet running. */
  ghost predicate MadeRunnable(s: Vp, s1: Vp, woken: seq<Tid>, due: seq<Tid>) {
    && s1.threads.Keys == s.threads.Keys
    && (forall t :: t in s1.sleepQ <==> t in s.sleepQ && t !in woken)
    && forall t | t in s.threads ::
         s1.threads[t] == if t in woken then Woken(s.threads[t], false, t in due) else s.threads[t]
  }

  /** The state before the context switch of a turn. */
  lemma PassesState(s: Vp, fired: set<Tid>, now: nat, due: seq<Tid>)
    requires NoDup(s.ioQ) && forall t | t in s.ioQ :: t in s.threads
    requires IsClockPass(Dispatch(s, s.ioQ, fired), now, due)
    ensures var s1 := AfterPasses(s, fired, now, due);
      && s1 == s.(threads := s1.threads, runQ := s1.runQ, sleepQ := s1.sleepQ, ioQ := s1.ioQ, clock := now)
      && s1.ioQ == Remaining(s.ioQ, fired)
      && MadeRunnable(s, s1, Among(s.ioQ, fired) + due, due)
  {
    hide Dispatch, WakeDue, Among, Remaining;
    var d := Dispatch(s, s.ioQ, fired);
    DispatchThreads(s, s.ioQ, fired);
    DispatchRest(s, s.ioQ, fired);
    SameRemaining(s.ioQ, FiredOf(s.ioQ, fired), fired);
    WakeDueThreads(d.(clock := now), due);
    WakeDueFrame(d.(clock := now), due);
    forall t
      ensures t in Among(s.ioQ, fired) <==> t in s.ioQ && t in fired
    {
      AmongMember(s.ioQ, fired, t);
    }
  }

  /** What the context switch of a turn does to the threads. */
  lemma IdleSwitchState(s: Vp)
    requires SafeToSchedule(s) && IDLE !in s.runQ
    ensures var s1 := Schedule(Put(s, IDLE, s.threads[IDLE].(state := Runnable)));
      && s1 == s.(threads := s1.threads, runQ := s1.runQ, current := s1.current)
      && s1.threads.Keys == s.threads.Keys
      && forall t | t in s.threads && t != IDLE ::
           s1.threads[t] == if s.runQ != [] && t == s.runQ[0] then s.threads[t].(state := Running) else s.threads[t]
  {
  }

  lemma WokenAreThreads(s: Vp, fired: set<Tid>, now: nat, due: seq<Tid>)
    requires Inv(s) && Enabled(s, Turn(fired, now, due))
    ensures s.runQ == [] && s.current == IDLE && IDLE in s.threads && NoDup(s.ioQ) && NoDup(due)
    ensures (forall t | t in s.ioQ :: t in s.threads && t != IDLE) && IDLE !in due
  {
    assert Consistent(IDLE, s.threads[IDLE]);
    assert IDLE !in s.ioQ && IDLE !in s.sleepQ;
    DispatchThreads(s, s.ioQ, fired);
  }

  lemma TurnState(s: Vp, fired: set<Tid>, now: nat, due: seq<Tid>)
    requires Inv(s) && Enabled(s, Turn(fired, now, due))
    ensures Turned(s, Step(s, Turn(fired, now, due)).0, fired, now, due)
  {
    WokenAreThreads(s, fired, now, due);
    PassesState(s, fired, now, due);
    PassesQueue(s, fired, now, due);
    forall t
      ensures t in Among(s.ioQ, fired) <==> t in s.ioQ && t in fired
    {
      AmongMember(s.ioQ, fired, t);
    }
    var s1 := AfterPasses(s, fired, now, due);
    var s2 := Schedule(Put(s1, IDLE, s1.threads[IDLE].(state := Runnable)));
    assert Step(s, Turn(fired, now, due)).0 == s2;
    FirstRuns(s, s1, Among(s.ioQ, fired) + due, due);
    IdleSwitchState(s1);
    hide Inv, Among, Remaining, AfterPasses, IsClockPass, Schedule, Put, NoDup, MadeRunnable, TheseWoke;
  }

  lemma FirstRuns(s: Vp, s1: Vp, woken: seq<Tid>, due: seq<Tid>)
    requires SafeToSchedule(s1) && IDLE !in woken && s1.runQ == woken && MadeRunnable(s, s1, woken, due)
    ensures TheseWoke(s, Schedule(Put(s1, IDLE, s1.threads[IDLE].(state := Runnable))), woken, due)
  {
    IdleSwitches(s1);
    IdleSwitchState(s1);
    var s2 := Schedule(Put(s1, IDLE, s1.threads[IDLE].(state := Runnable)));
    assert s2.sleepQ == s1.sleepQ;
    hide Schedule, Put;
  }

  // ---------------------------------------------------------------- what a poll is told

  /** Some turn of the run dispatches t. */
  ghost predicate FiredIn(es: seq<Event>, t: Tid) {
    exists i :: 0 <= i < |es| && es[i].Turn? && t in es[i].fired
  }

  /** Thread t does not run before the end of the run. */
  ghost predicate Waits(s: Vp, es: seq<Event>, t: Tid)
    requires Inv(s) && IsRun(s, es)
    decreases |es|
  {
    es == [] || (s.current != t && (StepKeeps(s, es[0]); Waits(Step(s, es[0]).0, es[1..], t)))
  }

  lemma CallLeavesPoll(s: Vp, call: Call, t: Tid)
    requires Executing(s) && t in s.threads && t != s.current && (call.Create? ==> call.thread != t)
    ensures var s1 := DoCall(s, call).0;
      t in s1.threads && s1.threads[t].pc == s.threads[t].pc && (t in s1.ioQ <==> t in s.ioQ)
  {
    hide Without, FirstInState;
    if IsSyncCall(call) {
      SyncCallLeavesPoll(s, call, t);
      hide DoSyncCall;
    } else if call.Exit? {
      ExitLeavesPoll(s, t);
      hide DoThreadCall;
    } else if call.Join? {
      JoinLeavesPoll(s, call.thread, t);
      hide JoinTest;
    }
  }

  lemma SyncCallLeavesPoll(s: Vp, call: Call, t: Tid)
    requires Executing(s) && IsSyncCall(call) && t in s.threads && t != s.current
    ensures var s1 := DoSyncCall(s, call).0;
      t in s1.threads && s1.threads[t].pc == s.threads[t].pc && s1.ioQ == s.ioQ
  {
    hide FirstInState, SignalAll;
    match call
    case CondBroadcast(c) => SignalAllLeavesPoll(s, s.CondQ(UserCond(c)), t);
    case _ =>
  }

  lemma SignalLeavesPoll(s: Vp, c: Cond, t: Tid)
    requires t in s.threads
    ensures var s1 := Signal(s, c); t in s1.threads && s1.threads[t].pc == s.threads[t].pc && s1.ioQ == s.ioQ
  {
  }

  lemma ExitLeavesPoll(s: Vp, t: Tid)
    requires Executing(s) && t in s.threads && t != s.current
    ensures var s1 := DoCall(s, Exit).0;
      t in s1.threads && s1.threads[t].pc == s.threads[t].pc && (t in s1.ioQ <==> t in s.ioQ)
  {
    hide Without;
    var ended := Park(s, Zombie, InExit, None).(zombieQ := s.zombieQ + [s.current]);
    SignalLeavesPoll(ended, TermCond(s.current), t);
    hide Signal;
  }

  lemma JoinLeavesPoll(s: Vp, g: Tid, t: Tid)
    requires s.current in s.threads && SafeToSchedule(s) && t in s.threads && t != s.current
    ensures var s1 := JoinTest(s, g).0;
      t in s1.threads && s1.threads[t].pc == s.threads[t].pc && (t in s1.ioQ <==> t in s.ioQ)
  {
    hide Without;
  }

  lemma {:induction false} SignalAllLeavesPoll(s: Vp, q: seq<Tid>, t: Tid)
    requires t in s.threads
    ensures var s1 := SignalAll(s, q);
      t in s1.threads && s1.threads[t].pc == s.threads[t].pc && s1.ioQ == s.ioQ
    decreases |q|
  {
    if q != [] {
      var u := q[0];
      SignalAllLeavesPoll(if u in s.threads && s.threads[u].state == CondWait then SignalTo(s, u) else s, q[1..], t);
    }
  }

  lemma ResumeLeavesPoll(s: Vp, t: Tid)
    requires Executing(s) && t in s.threads && t != s.current
    ensures var s1 := DoResume(s).0;
      t in s1.threads && s1.threads[t].pc == s.threads[t].pc && (t in s1.ioQ <==> t in s.ioQ)
  {
    hide Without;
    match s.threads[s.current].pc
    case InJoin(g) =>
      JoinLeavesPoll(EndWait(LeaveCondQ(s, TermCond(g))).0, g, t);
      hide JoinTest;
    case _ =>
  }

  /** No step of anybody else takes a poll off the I/O queue, except a dispatch that found it ready. */
  lemma StepLeavesPoll(s: Vp, e: Event, t: Tid)
    requires Inv(s) && Enabled(s, e) && t in s.threads && t != s.current
    ensures var s1 := Step(s, e).0;
      && t in s1.threads && s1.threads[t].pc == s.threads[t].pc
      && (t in s1.ioQ <==> t in s.ioQ && !(e.Turn? && t in e.fired))
  {
    match e
    case Invoke(call) =>
      CanRun(s);
      CallLeavesPoll(s, call, t);
      hide Inv, DoCall;
    case Resume =>
      CanRun(s);
      ResumeLeavesPoll(s, t);
      hide Inv, DoResume;
    case Turn(fired, now, due) =>
      TurnState(s, fired, now, due);
      hide Inv, DoTurn, Remaining, Among;
  }

  lemma {:induction false} PollWaits(s: Vp, es: seq<Event>, t: Tid)
    requires Inv(s) && IsRun(s, es) && Waits(s, es, t) && t in s.threads && s.threads[t].pc == InPoll
    ensures var r := Exec(s, es);
      && Inv(r) && t in r.threads && r.threads[t].pc == InPoll
      && (t in r.ioQ <==> t in s.ioQ && !FiredIn(es, t))
    decreases |es|
  {
    if es != [] {
      hide Inv, Enabled, Step, FiredIn;
      StepKeeps(s, es[0]);
      StepLeavesPoll(s, es[0], t);
      PollWaits(Step(s, es[0]).0, es[1..], t);
      FiredFirst(es, t);
    }
  }

  lemma FiredFirst(es: seq<Event>, t: Tid)
    requires es != []
    ensures FiredIn(es, t) <==> (es[0].Turn? && t in es[0].fired) || FiredIn(es[1..], t)
  {
    if FiredIn(es[1..], t) {
      var i :| 0 <= i < |es[1..]| && es[1..][i].Turn? && t in es[1..][i].fired;
      assert es[i + 1] == es[1..][i];
    }
    if FiredIn(es, t) {
      var i :| 0 <= i < |es| && es[i].Turn? && t in es[i].fired;
      assert i > 0 ==> es[1..][i - 1] == es[i];
    }
  }

  /** A poll that blocked, whatever happens until its thread runs again, reports an interrupt if one is
      pending then, and otherwise readiness exactly if a dispatch in between found it ready. */
  lemma PollReadyWhen(s: Vp, timeout: Option<nat>, es: seq<Event>)
    requires Inv(s) && Enabled(s, Invoke(Poll(true, timeout))) && !s.threads[s.current].interrupt
    requires var s1 := Step(s, Invoke(Poll(true, timeout))).0;
      && Inv(s1) && IsRun(s1, es) && Waits(s1, es, s.current)
      && Exec(s1, es).current == s.current && Enabled(Exec(s1, es), Resume)
    ensures var s1 := Step(s, Invoke(Poll(true, timeout))).0;
      var r := Exec(s1, es);
      Inv(r) && Step(r, Resume).1 ==
        if r.threads[r.current].interrupt then Failed(EINTR) else Polled(FiredIn(es, s.current))
  {
    CanRun(s);
    hide Inv, Step, Enabled, FiredIn, Switched;
    PollEffect(s, true, timeout);
    var s1 := Step(s, Invoke(Poll(true, timeout))).0;
    PollBlocked(s, s1, timeout);
    PollWaits(s1, es, s.current);
    PollResult(Exec(s1, es));
  }

  lemma PollBlocked(s: Vp, s1: Vp, timeout: Option<nat>)
    requires s.current in s.threads && s.current != IDLE && s.current !in s.runQ
    requires GaveWay(s, s1, IoWait, InPoll, timeout)
    ensures s.current in s1.threads && s1.threads[s.current].pc == InPoll
  {
  }
}
