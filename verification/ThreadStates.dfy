/** What a thread object of the State Threads library records (3rdparty/st/common.h): the states, and
    where the thread continues. */
module ThreadStates {
  import opened Lists

  datatype ThreadState =
    | Running
    | Runnable
    | IoWait
    | LockWait
    | CondWait
    | Sleeping
    | Zombie
    | Suspended

  /** A thread is named by its address. */
  type Tid = nat

  /** The idle thread, created first. */
  const IDLE: Tid := 0

  /** Condition variables: those user code creates, and the termination variable of a thread. */
  datatype Cond = UserCond(id: nat) | TermCond(thread: Tid)

  /** Where a thread continues when it is next scheduled. */
  datatype Pc =
    | InUserCode
    | InPoll
    | InSleep
    | InCondWait(cond: nat)
    | InJoin(target: Tid)
    | InLock(mutex: nat)
    | InExit
    | InIdleLoop
  {
    /** The condition variable whose wait queue a thread with this continuation is linked on. */
    function WaitsFor(): Option<Cond> {
      match this
      case InCondWait(c) => Some(UserCond(c))
      case InJoin(g) => Some(TermCond(g))
      case _ => None
    }
  }
}
