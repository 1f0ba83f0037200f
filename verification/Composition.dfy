/** How the models fit together: what the event systems wake is what the scheduler model assumes of
    dispatch. What the timeout heap wakes is the subject of VirtualProcessor. */
module Composition {
  import E = EventSpec
  import L = Lists
  import S = Scheduler
  import T = ThreadStates

  function Waiters(q: seq<E.PollQ>): seq<T.Tid> {
    if q == [] then [] else [q[0].thread] + Waiters(q[1..])
  }

  function WokenThreads(w: seq<E.Wake>): seq<T.Tid> {
    if w == [] then [] else [w[0].pq.thread] + WokenThreads(w[1..])
  }

  /** The threads of the polls that have something to report. */
  function Fired(q: seq<E.PollQ>, ready: E.Readiness): set<T.Tid> {
    if q == [] then {}
    else (if E.Fires(q[0], ready) then {q[0].thread} else {}) + Fired(q[1..], ready)
  }

  lemma {:induction false} FiredAreWaiters(q: seq<E.PollQ>, ready: E.Readiness)
    ensures forall t | t in Fired(q, ready) :: t in Waiters(q)
  {
    if q != [] {
      FiredAreWaiters(q[1..], ready);
    }
  }

  lemma {:induction false} AmongMore(q: seq<T.Tid>, fired: set<T.Tid>, t: T.Tid)
    requires t !in q
    ensures S.Among(q, fired + {t}) == S.Among(q, fired)
  {
    if q != [] {
      AmongMore(q[1..], fired, t);
    }
  }

  /** With one poll per thread, the polls that an event system wakes are those of the fired threads, in
      the order in which the scheduler's dispatch makes these threads runnable. */
  lemma {:induction false} EventsWakeWhatDispatchWakes(q: seq<E.PollQ>, ready: E.Readiness)
    requires L.NoDup(Waiters(q))
    ensures WokenThreads(E.Woken(q, ready)) == S.Among(Waiters(q), Fired(q, ready))
    ensures forall t :: t in Waiters(E.Left(q, ready)) <==> t in Waiters(q) && t !in Fired(q, ready)
  {
    if q != [] {
      var rest, t := q[1..], q[0].thread;
      assert Waiters(q)[1..] == Waiters(rest);
      L.NoDupTail(Waiters(q));
      EventsWakeWhatDispatchWakes(rest, ready);
      FiredAreWaiters(rest, ready);
      assert t !in Waiters(rest);
      if E.Fires(q[0], ready) {
        AmongMore(Waiters(rest), Fired(rest, ready), t);
        assert {t} + Fired(rest, ready) == Fired(rest, ready) + {t};
      } else {
        assert {} + Fired(rest, ready) == Fired(rest, ready);
      }
    }
  }
}
