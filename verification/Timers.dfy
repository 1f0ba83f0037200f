/** Timers in a multimap ordered by due time, the pass that fires those that are due, and the result
    that keeps the worker loop going. */
module Timers {

  import opened Bytes

  /** A timer in the map: when it is due, which one it is, and its period. */
  datatype Slot = Slot(key: nat, timer: nat, period: nat)

  /** A multimap: ordered by key, equal keys in order of insertion. */
  predicate Sorted(s: seq<Slot>) {
    s == [] || ((forall x | x in s[1..] :: s[0].key <= x.key) && Sorted(s[1..]))
  }

  /** Insertion into a multimap: behind all equal keys. */
  function Insert(s: seq<Slot>, x: Slot): (r: seq<Slot>)
    ensures |r| == |s| + 1
  {
    if s == [] || s[0].key > x.key then [x] + s else [s[0]] + Insert(s[1..], x)
  }

  lemma {:induction false} InsertKeeps(s: seq<Slot>, x: Slot)
    requires Sorted(s)
    ensures Sorted(Insert(s, x)) && multiset(Insert(s, x)) == multiset(s) + multiset{x}
    ensures forall y :: y in Insert(s, x) <==> y in s || y == x
  {
    if s == [] || s[0].key > x.key {
      assert multiset([x] + s) == multiset{x} + multiset(s);
      assert ([x] + s)[1..] == s;
      assert forall y | y in s :: y == s[0] || y in s[1..];
    } else {
      InsertKeeps(s[1..], x);
      var t := Insert(s[1..], x);
      assert s == [s[0]] + s[1..];
      assert multiset([s[0]] + t) == multiset{s[0]} + multiset(t);
      assert ([s[0]] + t)[1..] == t;
    }
  }

  /** A new slot goes behind all that are due no later, in front of the others. */
  lemma {:induction false} InsertPlace(s: seq<Slot>, x: Slot) returns (k: nat)
    requires Sorted(s)
    ensures k <= |s| && Insert(s, x) == s[..k] + [x] + s[k..]
    ensures (forall y | y in s[..k] :: y.key <= x.key) && (forall y | y in s[k..] :: y.key > x.key)
  {
    if s == [] || s[0].key > x.key {
      k := 0;
      assert s[..0] == [] && s[0..] == s;
      assert forall y | y in s :: y == s[0] || y in s[1..];
    } else {
      var j := InsertPlace(s[1..], x);
      k := j + 1;
      assert s[..k] == [s[0]] + s[1..][..j] && s[k..] == s[1..][j..];
    }
  }

  // ---------------------------------------------------------------- what a pass is to do

  /** The slots that are due, in order. */
  function Due(s: seq<Slot>, now: nat): seq<Slot> {
    if s == [] || s[0].key > now then [] else [s[0]] + Due(s[1..], now)
  }

  function Later(s: seq<Slot>, now: nat): seq<Slot> {
    if s == [] || s[0].key > now then s else Later(s[1..], now)
  }

  lemma {:induction false} DueIsExact(s: seq<Slot>, now: nat)
    requires Sorted(s)
    ensures s == Due(s, now) + Later(s, now)
    ensures (forall x | x in Due(s, now) :: x.key <= now) && forall x | x in Later(s, now) :: x.key > now
  {
    if s == [] {
    } else if s[0].key > now {
      assert forall x | x in s :: x == s[0] || x in s[1..];
    } else {
      DueIsExact(s[1..], now);
    }
  }

  function Rearmed(x: Slot, now: nat): Slot {
    x.(key := now + x.period)
  }

  function AllRearmed(s: seq<Slot>, now: nat): multiset<Slot> {
    if s == [] then multiset{} else multiset{Rearmed(s[0], now)} + AllRearmed(s[1..], now)
  }

  function TimersOf(s: seq<Slot>): seq<nat> {
    if s == [] then [] else [s[0].timer] + TimersOf(s[1..])
  }

  /** One round of the loop. */
  function Round(s: seq<Slot>, now: nat): seq<Slot>
    requires s != []
  {
    Insert(s, Rearmed(s[0], now))[1..]
  }

  lemma {:induction false} InsertLater(s: seq<Slot>, x: Slot, now: nat)
    requires Sorted(s) && x.key > now
    ensures Due(Insert(s, x), now) == Due(s, now)
    ensures multiset(Later(Insert(s, x), now)) == multiset(Later(s, now)) + multiset{x}
  {
    InsertKeeps(s, x);
    if s != [] && s[0].key <= now {
      InsertLater(s[1..], x, now);
      assert ([s[0]] + Insert(s[1..], x))[1..] == Insert(s[1..], x);
    } else if s == [] {
      assert ([x] + s)[1..] == s;
    }
  }

  /** A round takes the first due slot to a later place and leaves the other due slots as they are. */
  lemma RoundStep(s: seq<Slot>, now: nat)
    requires Sorted(s) && s != [] && s[0].key <= now && s[0].period > 0
    ensures Sorted(Round(s, now)) && Due(s, now) == [s[0]] + Due(Round(s, now), now)
    ensures multiset(Later(Round(s, now), now)) == multiset(Later(s, now)) + multiset{Rearmed(s[0], now)}
  {
    var x := Rearmed(s[0], now);
    InsertLater(s[1..], x, now);
    InsertKeeps(s[1..], x);
    assert Round(s, now) == Insert(s[1..], x);
  }

  /** What a pass owes: the slots that are not due, and those that are with a new key. */
  function Owed(s: seq<Slot>, now: nat): multiset<Slot> {
    multiset(Later(s, now)) + AllRearmed(Due(s, now), now)
  }

  function KeptOnes(s: seq<Slot>, now: nat): multiset<Slot> {
    if s == [] then multiset{} else (if s[0].key > now then multiset{s[0]} else multiset{}) + KeptOnes(s[1..], now)
  }

  /** The due slots of s, each due again its period after now. */
  function RepeatedOnes(s: seq<Slot>, now: nat): multiset<Slot> {
    if s == [] then multiset{}
    else
      (if s[0].key <= now then multiset{Slot(now + s[0].period, s[0].timer, s[0].period)} else multiset{})
      + RepeatedOnes(s[1..], now)
  }

  /** The timers of the due slots of s, in order. */
  function DueTimers(s: seq<Slot>, now: nat): seq<nat> {
    if s == [] then [] else (if s[0].key <= now then [s[0].timer] else []) + DueTimers(s[1..], now)
  }

  lemma {:induction false} NoneIsDue(s: seq<Slot>, now: nat)
    requires forall x | x in s :: x.key > now
    ensures KeptOnes(s, now) == multiset(s) && RepeatedOnes(s, now) == multiset{} && DueTimers(s, now) == []
  {
    if s != [] {
      NoneIsDue(s[1..], now);
      assert s == [s[0]] + s[1..];
    }
  }

  lemma OwedFirst(s: seq<Slot>, now: nat)
    requires s != [] && s[0].key <= now
    ensures Owed(s, now) == Owed(s[1..], now) + multiset{Slot(now + s[0].period, s[0].timer, s[0].period)}
    ensures TimersOf(Due(s, now)) == [s[0].timer] + TimersOf(Due(s[1..], now))
  {
    var d := [s[0]] + Due(s[1..], now);
    assert d[1..] == Due(s[1..], now);
  }

  lemma FirstRepeats(s: seq<Slot>, now: nat)
    requires s != [] && s[0].key <= now
    ensures KeptOnes(s, now) == KeptOnes(s[1..], now)
    ensures RepeatedOnes(s, now) == multiset{Slot(now + s[0].period, s[0].timer, s[0].period)} + RepeatedOnes(s[1..], now)
    ensures DueTimers(s, now) == [s[0].timer] + DueTimers(s[1..], now)
  {
  }

  lemma Regroup(a: multiset<Slot>, b: multiset<Slot>, c: multiset<Slot>)
    ensures a + b + c == a + (c + b)
  {
  }

  lemma OwedNothing(s: seq<Slot>, now: nat)
    requires s == [] || s[0].key > now
    ensures Owed(s, now) == multiset(s) && TimersOf(Due(s, now)) == []
  {
  }

  /** What a pass owes, slot by slot: one that is not due stays, one that is due is due again its period
      after now; and who is to fire. */
  lemma {:induction false} OwedIs(s: seq<Slot>, now: nat)
    requires Sorted(s)
    ensures Owed(s, now) == KeptOnes(s, now) + RepeatedOnes(s, now)
    ensures TimersOf(Due(s, now)) == DueTimers(s, now)
  {
    if s == [] || s[0].key > now {
      assert forall x | x in s :: x == s[0] || x in s[1..];
      NoneIsDue(s, now);
      OwedNothing(s, now);
    } else {
      OwedIs(s[1..], now);
      OwedFirst(s, now);
      FirstRepeats(s, now);
      hide *;
      Regroup(KeptOnes(s[1..], now), RepeatedOnes(s[1..], now), multiset{Slot(now + s[0].period, s[0].timer, s[0].period)});
    }
  }

  /** No timer is further away than its period. */
  predicate Near(s: seq<Slot>, now: nat) {
    forall x | x in s :: x.key <= now + x.period && x.period < U32
  }

  predicate Positive(s: seq<Slot>) {
    forall x | x in s :: x.period > 0
  }

  lemma {:induction false} RearmedIsNear(s: seq<Slot>, now: nat)
    requires forall x | x in s :: x.period < U32
    ensures forall y | y in AllRearmed(s, now) :: y.key <= now + y.period && y.period < U32
  {
    if s != [] {
      RearmedIsNear(s[1..], now);
    }
  }

  /** What a round does to what is due and to what the pass owes. */
  lemma FireStep(s: seq<Slot>, now: nat)
    requires Sorted(s) && s != [] && s[0].key <= now && Positive(Due(s, now))
    ensures |Insert(s, Rearmed(s[0], now))| > 0
    ensures var r := Insert(s, Rearmed(s[0], now))[1..];
      && Sorted(r) && Positive(Due(r, now)) && Owed(r, now) == Owed(s, now)
      && TimersOf(Due(s, now)) == [s[0].timer] + TimersOf(Due(r, now)) && |Due(r, now)| < |Due(s, now)|
  {
    assert s[0] in Due(s, now);
    RoundStep(s, now);
    var d, rest := Due(s, now), Due(Round(s, now), now);
    assert d[1..] == rest;
    assert forall y | y in rest :: y in d;
  }

  /** The slots that a pass owes are near if those it found were. */
  lemma OwedIsNear(s: seq<Slot>, t: seq<Slot>, before: nat, now: nat)
    requires Sorted(s) && Near(s, before) && before <= now && multiset(t) == Owed(s, now)
    ensures Near(t, now)
  {
    DueIsExact(s, now);
    RearmedIsNear(Due(s, now), now);
    forall y | y in t
      ensures y.key <= now + y.period && y.period < U32
    {
      assert y in multiset(t);
      assert y in Later(s, now) || y in AllRearmed(Due(s, now), now);
    }
  }

  /** When nothing is due any more, the next timer is less than 2^32 ahead. */
  lemma NothingIsDue(s: seq<Slot>, now: nat)
    requires Sorted(s) && Near(s, now) && Due(s, now) == []
    ensures forall x | x in s :: x.key > now
    ensures s != [] ==> 0 < s[0].key - now < U32
  {
    DueIsExact(s, now);
    assert s != [] ==> s[0] in s;
  }

  class TimersManager {
    var slots: seq<Slot>
    var fired: seq<nat>
    /** The latest time that any operation has seen. */
    ghost var clock: nat

    ghost predicate Valid()
      reads this
    {
      Sorted(slots) && Near(slots, clock)
    }

    constructor ()
      ensures Valid() && slots == [] && fired == [] && clock == 0
    {
      slots, fired, clock := [], [], 0;
    }

    /** A new timer is due at once. */
    method AddTimerEvent(timer: nat, period: nat, now: nat)
      requires Valid() && clock <= now && period < U32
      modifies `slots, `clock
      ensures Valid() && clock == now && multiset(slots) == multiset(old(slots)) + multiset{Slot(now, timer, period)}
      ensures slots == Insert(old(slots), Slot(now, timer, period))
    {
      InsertKeeps(slots, Slot(now, timer, period));
      slots := Insert(slots, Slot(now, timer, period));
      clock := now;
    }

    /** Fires every timer that is due, once each and in order of their keys, gives each its next key,
        and says how long the worker may sleep. */
    method TimeElapsedProcess(now: nat) returns (ms: nat)
      requires Valid() && clock <= now && Positive(Due(slots, now))
      modifies `slots, `fired, `clock
      ensures Valid() && clock == now
      ensures fired == old(fired) + TimersOf(old(Due(slots, now)))
      ensures fired == old(fired) + DueTimers(old(slots), now)
      ensures multiset(slots) == old(Owed(slots, now)) && Due(slots, now) == []
      ensures multiset(slots) == KeptOnes(old(slots), now) + RepeatedOnes(old(slots), now)
      ensures forall x | x in slots :: x.key > now
      ensures ms == if slots == [] then 1000 else slots[0].key - now
      ensures 1 <= ms < U32
    {
      hide KeptOnes, RepeatedOnes, DueTimers, Owed, TimersOf, Sorted, Near, Due, Positive;
      OwedIs(slots, now);
      ghost var s, c := slots, clock;
      FireDue(now);
      OwedIsNear(s, slots, c, now);
      clock := now;
      NothingIsDue(slots, now);
      if slots == [] {
        return 1000;
      }
      ms := (slots[0].key - now) % U32;
    }

    method FireDue(now: nat)
      requires Sorted(slots) && Positive(Due(slots, now))
      modifies `slots, `fired
      ensures Sorted(slots) && Due(slots, now) == [] && multiset(slots) == old(Owed(slots, now))
      ensures fired == old(fired) + TimersOf(old(Due(slots, now)))
    {
      ghost var owed, all := Owed(slots, now), fired + TimersOf(Due(slots, now));
      while slots != [] && now >= slots[0].key
        invariant Sorted(slots) && Positive(Due(slots, now)) && Owed(slots, now) == owed
        invariant fired + TimersOf(Due(slots, now)) == all
        decreases |Due(slots, now)|
      {
        Fire(now);
      }
      assert fired + [] == fired;
    }

    /** One round: the callback, the new entry, the end of the old one. */
    method Fire(now: nat)
      requires Sorted(slots) && slots != [] && slots[0].key <= now && Positive(Due(slots, now))
      modifies `slots, `fired
      ensures Sorted(slots) && Positive(Due(slots, now)) && Owed(slots, now) == old(Owed(slots, now))
      ensures fired + TimersOf(Due(slots, now)) == old(fired) + TimersOf(old(Due(slots, now)))
      ensures |Due(slots, now)| < old(|Due(slots, now)|)
    {
      hide Sorted, Positive, Due, Owed, TimersOf, Insert;
      FireStep(slots, now);
      var x := slots[0];
      fired := fired + [x.timer];
      slots := Insert(slots, Rearmed(x, now));
      slots := slots[1..];
      assert old(fired) + [x.timer] + TimersOf(Due(slots, now)) == old(fired) + ([x.timer] + TimersOf(Due(slots, now)));
    }
  }
  // ---------------------------------------------------------------- when a pass ends

  /** The slots after n rounds; nothing happens any more when nothing is due. */
  function Rounds(s: seq<Slot>, now: nat, n: nat): seq<Slot>
    decreases n
  {
    if n == 0 || s == [] || s[0].key > now then s else Rounds(Round(s, now), now, n - 1)
  }

  ghost predicate Ends(s: seq<Slot>, now: nat) {
    exists n: nat :: Due(Rounds(s, now, n), now) == []
  }

  lemma {:induction false} PositiveEnds(s: seq<Slot>, now: nat, n: nat)
    requires Sorted(s) && Positive(Due(s, now)) && |Due(s, now)| <= n
    ensures Due(Rounds(s, now, n), now) == []
    decreases n
  {
    if s != [] && s[0].key <= now {
      var d := Due(s, now);
      assert s[0] in d;
      RoundStep(s, now);
      assert d[1..] == Due(Round(s, now), now);
      assert forall x | x in d[1..] :: x in d;
      PositiveEnds(Round(s, now), now, n - 1);
    }
  }

  /** A due timer of period 0. */
  ghost predicate Stuck(s: seq<Slot>, now: nat) {
    Sorted(s) && exists x :: x in s && x.key <= now && x.period == 0
  }

  lemma StuckIsDue(s: seq<Slot>, now: nat)
    requires Stuck(s, now)
    ensures s != [] && s[0].key <= now && Due(s, now) != []
  {
    var x :| x in s && x.key <= now && x.period == 0;
    if x != s[0] {
      assert x in s[1..];
    }
  }

  /** A round leaves a due timer of period 0 due: either it is another one, or it comes back at now. */
  lemma StuckStays(s: seq<Slot>, now: nat)
    requires Stuck(s, now)
    ensures s != [] && Stuck(Round(s, now), now)
  {
    StuckIsDue(s, now);
    var x :| x in s && x.key <= now && x.period == 0;
    var y := Rearmed(s[0], now);
    InsertKeeps(s[1..], y);
    assert Round(s, now) == Insert(s[1..], y);
    if x == s[0] {
      assert y in Round(s, now) && y.key <= now && y.period == 0;
    } else {
      assert x in s[1..];
      assert x in Round(s, now);
    }
  }

  lemma {:induction false} StuckForever(s: seq<Slot>, now: nat, n: nat)
    requires Stuck(s, now)
    ensures Stuck(Rounds(s, now, n), now)
    decreases n
  {
    StuckIsDue(s, now);
    if n > 0 {
      StuckStays(s, now);
      StuckForever(Round(s, now), now, n - 1);
    }
  }

  /** A pass ends exactly if every timer that is due has a positive period. */
  lemma PassEndsWhen(s: seq<Slot>, now: nat)
    requires Sorted(s)
    ensures Ends(s, now) <==> Positive(Due(s, now))
  {
    if Positive(Due(s, now)) {
      PositiveEnds(s, now, |Due(s, now)|);
    } else {
      DueIsExact(s, now);
      var x :| x in Due(s, now) && x.period == 0;
      assert x in s && x.key <= now;
      forall n: nat
        ensures Due(Rounds(s, now, n), now) != []
      {
        StuckForever(s, now, n);
        StuckIsDue(Rounds(s, now, n), now);
      }
    }
  }

  // ---------------------------------------------------------------- the worker loop

  /** What epoll_wait does: it reports events, is interrupted, or fails. */
  datatype Wait = Events | Interrupted | Failed

  /** The sleep time for the next turn of the worker loop, which ends on 0: it is 0 exactly if waiting
      failed. After an interrupted wait it is a point in time, not a duration, and only then can it
      exceed a second. */
  method Pulse(timers: TimersManager, w: Wait, now: nat, later: nat) returns (ms: nat)
    requires timers.Valid() && timers.clock <= now <= later && Positive(Due(timers.slots, now))
    modifies timers
    ensures timers.Valid()
    ensures ms == 0 <==> w.Failed?
    ensures !w.Failed? ==>
      var next := if timers.slots == [] then 1000 else timers.slots[0].key - now;
      ms == if w.Interrupted? then later + next else if next > 1000 then 1000 else next
    ensures ms > 1000 ==> w.Interrupted?
    ensures w.Failed? ==> timers.slots == old(timers.slots) && timers.fired == old(timers.fired)
    ensures !w.Failed? ==> Due(timers.slots, now) == [] && multiset(timers.slots) == old(Owed(timers.slots, now))
  {
    if w.Failed? {
      return 0;
    }
    ms := timers.TimeElapsedProcess(now);
    if w.Interrupted? {
      ms := ms + later;
    } else if ms > 1000 {
      ms := 1000;
    }
  }
}
