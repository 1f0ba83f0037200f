/** The timeout heap: a pointer-linked, left-complete binary tree of sleeping threads. Nodes
    are numbered 1, 2, 3, ... from the root, node N has children 2N and 2N+1, and there are no
    parent pointers: every walk starts at the root and is steered by the bits of the
    destination's number.

    Two ghost sequences list, by node number, the nodes and the times they are due (slot 0 is
    unused). The shape of the whole tree is one statement about the first, the heap order one
    statement about the second. */
module TimeoutHeap {
  import opened ThreadStates

  /** A thread object. The saved context is where the thread continues; signalled is a history
      variable: the thread was woken by a signal or broadcast and has not yet returned from its wait. */
  class Thread {
    const id: Tid
    var state: ThreadState
    var pc: Pc
    var onSleepQ: bool
    var interrupt: bool
    var timedOut: bool
    var joinable: bool
    var due: nat
    var left: Thread?
    var right: Thread?
    var heapIndex: nat
    ghost var signalled: bool

    constructor (id: Tid, state: ThreadState, pc: Pc, joinable: bool)
      ensures this.id == id && this.state == state && this.pc == pc && this.joinable == joinable
      ensures !onSleepQ && !interrupt && !timedOut && due == 0 && !signalled
    {
      this.id, this.state, this.pc, this.joinable := id, state, pc, joinable;
      onSleepQ, interrupt, timedOut, due := false, false, false, 0;
      left, right, heapIndex, signalled := null, null, 0, false;
    }
  }

  // ---------------------------------------------------------------- bits of an index

  /** x >> k */
  function Shr(x: nat, k: nat): nat {
    if k == 0 then x else Shr(x / 2, k - 1)
  }

  lemma {:induction false} ShrStep(x: nat, k: nat)
    ensures Shr(x, k + 1) == Shr(x, k) / 2
  {
    if k > 0 {
      ShrStep(x / 2, k - 1);
    }
  }

  lemma {:induction false} ShrBound(x: nat, k: nat)
    ensures Shr(x, k) <= x
    ensures k > 0 && x > 0 ==> Shr(x, k) < x
  {
    if k > 0 {
      ShrBound(x / 2, k - 1);
    }
  }

  /** The next number on the way to x: the digits read so far, with one more digit appended. */
  lemma NextIndex(x: nat, bit: nat)
    ensures Shr(x, bit) == 2 * Shr(x, bit + 1) + Shr(x, bit) % 2 <= x
    ensures Shr(x, bit) / 2 == Shr(x, bit + 1)
  {
    ShrBound(x, bit);
    ShrStep(x, bit);
  }

  /** The number of binary digits of x: the top digit, a one, is digit number bits - 1. */
  method BitLength(x: nat) returns (bits: nat)
    requires x > 0
    ensures bits >= 1 && Shr(x, bits - 1) == 1
  {
    var n := x;
    bits := 0;
    while n != 0
      invariant n == Shr(x, bits)
      invariant bits > 0 ==> Shr(x, bits - 1) > 0
    {
      ShrStep(x, bits);
      n := n / 2;
      bits := bits + 1;
    }
    ShrStep(x, bits - 1);
  }

  // ---------------------------------------------------------------- the shape of the tree

  /** Node number k of the tree listed in s, or null when there is none. */
  function At(s: seq<Thread?>, k: nat): Thread? {
    if k < |s| then s[k] else null
  }

  ghost function Members(s: seq<Thread?>): set<Thread> {
    set t: Thread | t in s
  }

  /** The members of s when node number hole is replaced by t. */
  ghost function Filled(s: seq<Thread?>, hole: nat, t: Thread?): set<Thread>
    requires hole < |s|
  {
    Members(s[hole := t])
  }

  ghost predicate NodeOk(s: seq<Thread?>, i: nat)
    requires i < |s|
    reads (if s[i] != null then {s[i]} else {})`left
    reads (if s[i] != null then {s[i]} else {})`right
    reads (if s[i] != null then {s[i]} else {})`heapIndex
  {
    && s[i] != null
    && s[i].heapIndex == i
    && s[i].left == At(s, 2 * i)
    && s[i].right == At(s, 2 * i + 1)
  }

  /** The pointers under root form exactly the left-complete tree listed in s. Nothing is said
      about what is stored in the node numbered hole; hole 0 stands for "no exception". */
  ghost predicate Links(root: Thread?, s: seq<Thread?>, hole: nat)
    reads s`left, s`right, s`heapIndex
  {
    && |s| >= 1 && s[0] == null
    && root == At(s, 1)
    && (forall i | 1 <= i < |s| && i != hole :: NodeOk(s, i))
    && (forall i | 1 <= i < |s| && i != hole < |s| :: s[i] != s[hole])
  }

  ghost function Children(t: Thread?): (Thread?, Thread?)
    reads (if t != null then {t} else {})`left, (if t != null then {t} else {})`right
  {
    if t == null then (null, null) else (t.left, t.right)
  }

  ghost predicate Dues(s: seq<Thread?>, d: seq<nat>, hole: nat)
    reads s`due
  {
    |d| == |s| && forall i | 1 <= i < |s| && i != hole && s[i] != null :: s[i].due == d[i]
  }

  /** A pointer to a link of the tree: the root link or a child link of a node. */
  datatype Slot = RootLink | LeftLink(parent: Thread) | RightLink(parent: Thread)

  /** p is the link that leads to node k. */
  ghost predicate LeadsTo(p: Slot, s: seq<Thread?>, k: nat) {
    match p
    case RootLink => k == 1
    case LeftLink(t) => 2 <= k && k % 2 == 0 && k / 2 < |s| && s[k / 2] == t
    case RightLink(t) => 2 <= k && k % 2 == 1 && k / 2 < |s| && s[k / 2] == t
  }

  // ---------------------------------------------------------------- the heap order

  /** Every node other than those at and directly below hole is due no earlier than its parent. */
  ghost predicate OrderedExcept(d: seq<nat>, hole: nat) {
    forall i | 2 <= i < |d| && i != hole && i / 2 != hole :: d[i / 2] <= d[i]
  }

  /** The nodes directly below hole are due no earlier than the node above it. */
  ghost predicate OrderedAcross(d: seq<nat>, hole: nat) {
    forall i | 4 <= i < |d| && i / 2 == hole :: d[hole / 2] <= d[i]
  }

  ghost predicate Ordered(d: seq<nat>) {
    forall i | 2 <= i < |d| :: d[i / 2] <= d[i]
  }

  /** The root of a heap is due first. */
  lemma {:induction false} RootIsFirst(d: seq<nat>, i: nat)
    requires Ordered(d) && 1 <= i < |d|
    ensures d[1] <= d[i]
  {
    if i > 1 {
      RootIsFirst(d, i / 2);
    }
  }

  lemma OrderedWithHole(d: seq<nat>, hole: nat)
    requires Ordered(d) && 1 <= hole < |d|
    ensures OrderedExcept(d, hole) && OrderedAcross(d, hole)
  {
    forall i | 4 <= i < |d| && i / 2 == hole
      ensures d[hole / 2] <= d[i]
    {
      assert d[i / 2] <= d[i];
    }
  }

  lemma PrefixMembers(s: seq<Thread?>, n: nat)
    requires |s| == n + 1 && s[n] != null
    ensures Members(s) == Members(s[..n]) + {s[n]}
  {
    assert s == s[..n] + [s[n]];
  }

  lemma AppendMembers(s: seq<Thread?>, t: Thread)
    ensures Members(s + [null]) == Members(s) && Filled(s + [null], |s|, t) == Members(s) + {t}
  {
    var a: seq<Thread?> := s + [null];
    var b: seq<Thread?> := s + [t];
    assert a[|s| := t] == b;
  }

  lemma FilledMembers(s: seq<Thread?>, hole: nat, t: Thread)
    requires 1 <= hole < |s| && s[hole] != null
    requires forall i | 0 <= i < |s| && i != hole :: s[i] != s[hole]
    ensures Filled(s, hole, t) == Members(s) - {s[hole]} + {t}
  {
    var b: seq<Thread?> := s[hole := t];
    assert b[hole] == t;
    forall x: Thread ensures x in b <==> (x in s && x != s[hole]) || x == t {
      if x in s && x != s[hole] {
        var j :| 0 <= j < |s| && s[j] == x;
        assert b[j] == x;
      }
      if x in b {
        var j :| 0 <= j < |b| && b[j] == x;
        assert j != hole ==> s[j] == x;
      }
    }
  }

  lemma ExchangeOrder(d: seq<nat>, index: nat, hole: nat, due: nat)
    requires 1 <= index < hole < |d|
    requires OrderedExcept(d, hole) && OrderedAcross(d, hole)
    requires index >= 2 ==> d[index / 2] <= due
    requires due < d[index]
    ensures OrderedExcept(d[index := due], hole) && OrderedAcross(d[index := due], hole)
  {
    var e := d[index := due];
    forall i | 2 <= i < |e| && i != hole && i / 2 != hole
      ensures e[i / 2] <= e[i]
    {
      assert d[i / 2] <= d[i];
    }
  }

  /** Every node other than those directly below k is due no earlier than its parent. */
  ghost predicate OrderedBut(d: seq<nat>, k: nat) {
    forall i | 2 <= i < |d| && i / 2 != k :: d[i / 2] <= d[i]
  }

  /** Moving node k below its earlier child c leaves only the new position of k to be repaired. */
  lemma SinkOrder(d: seq<nat>, k: nat, c: nat)
    requires 1 <= k && c / 2 == k && c < |d|
    requires OrderedBut(d, k) && OrderedAcross(d, k)
    requires d[c] < d[k] && forall i | 2 <= i < |d| && i / 2 == k :: d[c] <= d[i]
    ensures OrderedBut(d[k := d[c]][c := d[k]], c) && OrderedAcross(d[k := d[c]][c := d[k]], c)
  {
    var e := d[k := d[c]][c := d[k]];
    forall i | 2 <= i < |e| && i / 2 != c
      ensures e[i / 2] <= e[i]
    {
      if i / 2 == k {
        assert d[c] <= d[i];
      } else {
        assert d[i / 2] <= d[i];
        assert i == k ==> d[k / 2] <= d[c];
      }
    }
  }

  lemma SwapHole(s: seq<Thread?>, index: nat, hole: nat, th: Thread?)
    requires index < |s| && hole < |s| && index != hole
    ensures Filled(s[index := th], hole, s[index]) == Filled(s, hole, th)
  {
    var a: seq<Thread?> := s[index := th][hole := s[index]];
    var b: seq<Thread?> := s[hole := th];
    assert a[hole := th][index := s[index]] == b;
    assert a[index] == th && a[hole] == s[index] && b[hole] == th && b[index] == s[index];
    assert forall k | 0 <= k < |s| && k != index && k != hole :: a[k] == b[k];
    forall x ensures x in a <==> x in b {
      if x in a {
        var k :| 0 <= k < |a| && a[k] == x;
        assert x == b[if k == index then hole else if k == hole then index else k];
      }
      if x in b {
        var k :| 0 <= k < |b| && b[k] == x;
        assert x == a[if k == index then hole else if k == hole then index else k];
      }
    }
  }

  lemma SwapMembers(s: seq<Thread?>, k: nat, c: nat)
    requires k < |s| && c < |s|
    ensures Members(s[k := s[c]][c := s[k]]) == Members(s)
  {
    var b: seq<Thread?> := s[k := s[c]][c := s[k]];
    forall x ensures x in s <==> x in b {
      if x in s {
        var j :| 0 <= j < |s| && s[j] == x;
        assert x == b[if j == k then c else if j == c then k else j];
      }
      if x in b {
        var j :| 0 <= j < |b| && b[j] == x;
        assert x == s[if j == k then c else if j == c then k else j];
      }
    }
  }

  // ---------------------------------------------------------------- the clock pass on values

  datatype Sleeper = Sleeper(state: ThreadState, onSleepQ: bool, timedOut: bool, due: nat)

  ghost function Sleepers(threads: set<Thread>): map<Thread, Sleeper>
    reads threads
  {
    map t | t in threads :: Sleeper(t.state, t.onSleepQ, t.timedOut, t.due)
  }

  ghost function Woken(s: Sleeper): Sleeper {
    Sleeper(Runnable, false, s.timedOut || s.state == CondWait, s.due)
  }

  /** The names of threads, in order. */
  function Names(s: seq<Thread>): (r: seq<Tid>)
    ensures |r| == |s| && forall k | 0 <= k < |s| :: r[k] == s[k].id
  {
    seq(|s|, k requires 0 <= k < |s| => s[k].id)
  }

  ghost function Elements(s: seq<Thread>): set<Thread> {
    set t | t in s
  }

  /** What waking the threads in woken does to the sleepers: those woken become runnable, leave
      the sleep queue, and are marked as timed out exactly if they waited on a condition. */
  ghost function AfterWake(before: map<Thread, Sleeper>, woken: seq<Thread>): map<Thread, Sleeper> {
    map t | t in before :: if t in woken then Woken(before[t]) else before[t]
  }

  ghost predicate InDueOrder(before: map<Thread, Sleeper>, woken: seq<Thread>) {
    && (forall t | t in woken :: t in before)
    && (forall i, j | 0 <= i < j < |woken| :: woken[i] != woken[j] && before[woken[i]].due <= before[woken[j]].due)
  }

  /** Part of a clock pass: nobody still asleep is due before anybody woken. */
  ghost predicate WokenSoFar(before: map<Thread, Sleeper>, now: nat, woken: seq<Thread>) {
    && InDueOrder(before, woken)
    && (forall t | t in woken :: before[t].due <= now)
    && (forall t, u | t in woken && u in before && u !in woken :: before[t].due <= before[u].due)
  }

  lemma WakeOneMore(before: map<Thread, Sleeper>, now: nat, woken: seq<Thread>, t: Thread)
    requires WokenSoFar(before, now, woken) && t in before && t !in woken && before[t].due <= now
    requires forall u | u in before && u !in woken :: before[t].due <= before[u].due
    ensures WokenSoFar(before, now, woken + [t])
    ensures AfterWake(before, woken + [t]) == AfterWake(before, woken)[t := Woken(AfterWake(before, woken)[t])]
    ensures Elements(woken + [t]) == Elements(woken) + {t}
  {
    var w := woken + [t];
    forall i, j | 0 <= i < j < |w|
      ensures w[i] != w[j] && before[w[i]].due <= before[w[j]].due
    {
      assert w[i] in woken;
    }
  }

  /** The threads a clock pass at time now must wake: each sleeper that is due, once, in order. */
  ghost predicate ClockPass(before: map<Thread, Sleeper>, now: nat, woken: seq<Thread>) {
    && InDueOrder(before, woken)
    && (forall t | t in before :: t in woken <==> before[t].due <= now)
  }

  lemma PassDone(before: map<Thread, Sleeper>, now: nat, woken: seq<Thread>)
    requires WokenSoFar(before, now, woken)
    requires forall t | t in before.Keys - Elements(woken) :: now < AfterWake(before, woken)[t].due
    ensures ClockPass(before, now, woken)
  {
    forall t | t in before
      ensures t in woken <==> before[t].due <= now
    {
      if t !in woken {
        assert t in before.Keys - Elements(woken);
      }
    }
  }

  class Vp {
    var sleepQ: Thread?
    var sleepQSize: nat
    var runQ: seq<Tid>
    var lastClock: nat
    ghost var nodes: seq<Thread?>
    ghost var dues: seq<nat>

    constructor (now: nat)
      ensures SleepQValid() && nodes == [null] && runQ == [] && lastClock == now
    {
      sleepQ, sleepQSize, runQ, lastClock, nodes, dues := null, 0, [], now, [null], [0];
    }

    function Load(p: Slot): Thread?
      reads this`sleepQ, (match p case RootLink => {} case LeftLink(t) => {t} case RightLink(t) => {t})
    {
      match p
      case RootLink => sleepQ
      case LeftLink(t) => t.left
      case RightLink(t) => t.right
    }

    method Store(p: Slot, v: Thread?)
      modifies this`sleepQ, (if p.LeftLink? then {p.parent} else {})`left, (if p.RightLink? then {p.parent} else {})`right
      ensures Load(p) == v
      ensures !p.RootLink? ==> sleepQ == old(sleepQ)
    {
      match p {
        case RootLink => sleepQ := v;
        case LeftLink(t) => t.left := v;
        case RightLink(t) => t.right := v;
      }
    }

    /** A walk towards node hole has reached node index through link p, carrying th: the tree
        listed in s is intact except for node hole, and th may stay below every node passed. */
    ghost predicate Walking(s: seq<Thread?>, d: seq<nat>, p: Slot, index: nat, hole: nat, th: Thread)
      reads this`sleepQ, s`left, s`right, s`heapIndex, s`due, th`due
    {
      && 1 <= index <= hole < |s| && th !in s
      && Links(sleepQ, s, hole) && Dues(s, d, hole)
      && LeadsTo(p, s, index) && index / 2 != hole
      && OrderedExcept(d, hole) && OrderedAcross(d, hole)
      && (index >= 2 ==> d[index / 2] <= th.due)
    }

    lemma LinkTarget(p: Slot, s: seq<Thread?>, k: nat, hole: nat)
      requires Links(sleepQ, s, hole) && LeadsTo(p, s, k) && (k >= 2 ==> k / 2 != hole) && k < |s|
      ensures Load(p) == s[k]
    {
      if k >= 2 {
        assert NodeOk(s, k / 2);
      }
    }

    lemma NodesDistinct(s: seq<Thread?>, h: nat)
      requires Links(sleepQ, s, 0) && 1 <= h < |s|
      ensures forall i | 0 <= i < |s| && i != h :: s[i] != s[h]
    {
      assert NodeOk(s, h);
      forall i | 0 <= i < |s| && i != h
        ensures s[i] != s[h]
      {
        assert i > 0 ==> NodeOk(s, i);
      }
    }

    /** th takes the place of node index; the node that was there is carried on. */
    method Exchange(th: Thread, p: Slot, index: nat, ghost hole: nat, ghost s: seq<Thread?>, ghost region: set<Thread>)
        returns (t: Thread)
      requires 1 <= index < hole < |s| && th !in s
      requires Links(sleepQ, s, hole) && LeadsTo(p, s, index) && index / 2 != hole
      requires th in region && Members(s) <= region
      modifies this`sleepQ, region`left, region`right, region`heapIndex
      ensures t == s[index] && t !in s[index := th]
      ensures Links(sleepQ, s[index := th], hole)
      ensures s[hole] != null ==> s[hole].left == old(s[hole].left) && s[hole].right == old(s[hole].right)
    {
      assert index / 2 < index;
      assert index >= 2 ==> s[index / 2] in Members(s);
      assert NodeOk(s, index);
      assert index >= 2 ==> NodeOk(s, index / 2);
      t := Load(p);
      th.left := t.left;
      th.right := t.right;
      th.heapIndex := index;
      assert forall i | 1 <= i < |s| && i != hole :: NodeOk(s, i);
      Store(p, th);
      ghost var s1 := s[index := th];
      forall i | 0 <= i < |s1|
        ensures s1[i] != t
      {
        assert 1 <= i && i != hole ==> old(NodeOk(s, i));
        assert old(NodeOk(s, index));
      }
      forall i | 1 <= i < |s1| && i != hole
        ensures NodeOk(s1, i)
      {
        if i != index {
          assert old(NodeOk(s, i));
          assert s1[i] == s[i];
          if i != index / 2 {
            assert index >= 2 ==> s[i] != s[index / 2];
            assert 2 * i != index && 2 * i + 1 != index;
          }
        }
      }
    }

    /** What every step of an insertion keeps, seen from its start: the nodes s0, the threads
        that will be in the tree, and the children of whatever is linked at node hole. */
    ghost predicate Inserting(s0: seq<Thread?>, full: set<Thread>, children: (Thread?, Thread?), region: set<Thread>,
        s: seq<Thread?>, d: seq<nat>, p: Slot, index: nat, hole: nat, th: Thread)
      reads this`sleepQ, s`left, s`right, s`heapIndex, s`due, th`due
    {
      && Walking(s, d, p, index, hole, th)
      && |s| == |s0| && s[hole..] == s0[hole..]
      && Filled(s, hole, th) == full
      && th in region && Members(s) <= region
      && (s[hole] != null ==> s[hole] != th && (s[hole].left, s[hole].right) == children)
    }

    /** One step of the walk: th stays at node index if it is due earlier than the node there,
        and the walk goes on to a child. */
    method Descend(th: Thread, p: Slot, index: nat, next: nat, ghost hole: nat,
        ghost s0: seq<Thread?>, ghost full: set<Thread>, ghost children: (Thread?, Thread?), ghost region: set<Thread>,
        ghost s: seq<Thread?>, ghost d: seq<nat>)
        returns (p': Slot, th': Thread, ghost s': seq<Thread?>, ghost d': seq<nat>)
      requires Inserting(s0, full, children, region, s, d, p, index, hole, th)
      requires next / 2 == index && next <= hole
      modifies this`sleepQ, region`left, region`right, region`heapIndex
      ensures Inserting(s0, full, children, region, s', d', p', next, hole, th')
    {
      th', s', d' := th, s, d;
      assert NodeOk(s, index);
      LinkTarget(p, s, index, hole);
      var t := Load(p);
      if th.due < t.due {
        SwapHole(s, index, hole, th);
        ExchangeOrder(d, index, hole, th.due);
        th' := Exchange(th, p, index, hole, s, region);
        s', d' := s[index := th], d[index := th.due];
        assert Members(s') <= region;
        assert s'[hole..] == s[hole..];
      }
      LinkTarget(p, s', index, hole);
      t := Load(p);
      p' := if next % 2 == 1 then RightLink(t) else LeftLink(t);
    }

    /** The outcome of an insertion at node hole: everything but the order and the links below
        node hole is in place, and the node inserted there is a leaf for now. */
    ghost predicate Inserted(s0: seq<Thread?>, full: set<Thread>, children: (Thread?, Thread?),
        s: seq<Thread?>, d: seq<nat>, p: Slot, hole: nat)
      reads this`sleepQ, s`left, s`right, s`heapIndex, s`due, s0`left, s0`right
      reads (match p case RootLink => {} case LeftLink(t) => {t} case RightLink(t) => {t})
    {
      && 1 <= hole < |s| == |s0| && Members(s) == full
      && s[hole + 1..] == s0[hole + 1..]
      && Links(sleepQ, s, hole) && Dues(s, d, 0)
      && LeadsTo(p, s, hole) && Load(p) == s[hole] != null
      && s[hole].heapIndex == hole && s[hole].left == s[hole].right == null
      && OrderedExcept(d, hole) && OrderedAcross(d, hole)
      && (hole >= 2 ==> d[hole / 2] <= d[hole])
      && (s0[hole] != null ==> s0[hole] !in s && (s0[hole].left, s0[hole].right) == children)
    }

    /** heap_insert: inserts thread at the node numbered thread.heapIndex, moving nodes on the
        path from the root down as the order demands. Whatever was linked there is unlinked. */
    method HeapInsert(thread: Thread, ghost s: seq<Thread?>, ghost d: seq<nat>, ghost region: set<Thread>)
        returns (p: Slot, ghost s': seq<Thread?>, ghost d': seq<nat>)
      requires 1 <= thread.heapIndex < |s| && thread !in s
      requires Links(sleepQ, s, thread.heapIndex) && Dues(s, d, thread.heapIndex)
      requires OrderedExcept(d, thread.heapIndex) && OrderedAcross(d, thread.heapIndex)
      requires thread in region && Members(s) <= region
      modifies this`sleepQ, region`left, region`right, region`heapIndex
      ensures var hole := old(thread.heapIndex);
        Inserted(s, Filled(s, hole, thread), old(Children(s[thread.heapIndex])), s', d', p, hole)
    {
      var target := thread.heapIndex;
      ghost var full := Filled(s, target, thread);
      ghost var children := Children(s[target]);
      var th;
      p, th, s', d' := WalkDown(thread, target, s, full, children, region, d);
      s', d' := Finish(th, p, target, s, full, children, region, s', d');
    }

    /** The walk from the root to the node numbered target. */
    method WalkDown(thread: Thread, target: nat, ghost s: seq<Thread?>, ghost full: set<Thread>,
        ghost children: (Thread?, Thread?), ghost region: set<Thread>, ghost d: seq<nat>)
        returns (p: Slot, th: Thread, ghost s': seq<Thread?>, ghost d': seq<nat>)
      requires target >= 1 && Inserting(s, full, children, region, s, d, RootLink, 1, target, thread)
      modifies this`sleepQ, region`left, region`right, region`heapIndex
      ensures Inserting(s, full, children, region, s', d', p, target, target, th)
    {
      hide Inserting;
      th := thread;
      var bits := BitLength(target);
      p := RootLink;
      var index := 1;
      var bit: int := bits as int - 2;
      s', d' := s, d;
      while bit >= 0
        invariant -1 <= bit
        invariant index == Shr(target, bit + 1)
        invariant Inserting(s, full, children, region, s', d', p, index, target, th)
      {
        NextIndex(target, bit);
        var next := 2 * index;
        if Shr(target, bit) % 2 == 1 {
          next := next + 1;
        }
        p, th, s', d' := Descend(th, p, index, next, target, s, full, children, region, s', d');
        index := next;
        bit := bit - 1;
      }
    }

    method Finish(th: Thread, p: Slot, hole: nat,
        ghost s0: seq<Thread?>, ghost full: set<Thread>, ghost children: (Thread?, Thread?), ghost region: set<Thread>,
        ghost s: seq<Thread?>, ghost d: seq<nat>) returns (ghost s': seq<Thread?>, ghost d': seq<nat>)
      requires Inserting(s0, full, children, region, s, d, p, hole, hole, th)
      modifies this`sleepQ, region`left, region`right, region`heapIndex
      ensures Inserted(s0, full, children, s', d', p, hole)
    {
      assert s0[hole] == s0[hole..][0] && s[hole] == s[hole..][0];
      assert s0[hole + 1..] == s0[hole..][1..] && s[hole + 1..] == s[hole..][1..];
      NodesOffHole(s, hole);
      PutLast(th, p, hole, s, region);
      s', d' := s[hole := th], d[hole := th.due];
    }

    lemma NodesOffHole(s: seq<Thread?>, hole: nat)
      requires Links(sleepQ, s, hole) && 1 <= hole < |s|
      ensures s[hole] != null ==> forall i | 0 <= i < |s| && i != hole :: s[i] != s[hole]
    {
    }

    /** The last action of an insertion: th becomes node number hole. */
    method PutLast(th: Thread, p: Slot, hole: nat, ghost s: seq<Thread?>, ghost region: set<Thread>)
      requires 1 <= hole < |s| && th !in s
      requires Links(sleepQ, s, hole) && LeadsTo(p, s, hole)
      requires th in region && Members(s) <= region
      modifies this`sleepQ, region`left, region`right, region`heapIndex
      ensures Links(sleepQ, s[hole := th], hole)
      ensures Load(p) == th && th.heapIndex == hole && th.left == th.right == null
      ensures s[hole] != null ==> s[hole].left == old(s[hole].left) && s[hole].right == old(s[hole].right)
    {
      assert hole / 2 < hole;
      assert hole >= 2 ==> s[hole / 2] in Members(s);
      assert hole >= 2 ==> NodeOk(s, hole / 2);
      th.heapIndex := hole;
      assert forall i | 1 <= i < |s| && i != hole :: NodeOk(s, i);
      Store(p, th);
      th.left, th.right := null, null;
      ghost var s1 := s[hole := th];
      forall i | 1 <= i < |s1| && i != hole
        ensures NodeOk(s1, i)
      {
        assert old(NodeOk(s, i));
        assert s1[i] == s[i];
        if i != hole / 2 {
          assert hole >= 2 ==> s[i] != s[hole / 2];
          assert 2 * i != hole && 2 * i + 1 != hole;
        }
      }
    }

    // -------------------------------------------------------------- deletion

    ghost predicate HeapValid()
      reads this`sleepQ, this`sleepQSize, this`nodes, this`dues
      reads nodes`left, nodes`right, nodes`heapIndex, nodes`due
    {
      && Links(sleepQ, nodes, 0) && Dues(nodes, dues, 0) && Ordered(dues)
      && sleepQSize + 1 == |nodes|
    }

    /** The link that leads to the last node of the heap. */
    method FindLast() returns (p: Slot)
      requires HeapValid() && sleepQSize > 0
      ensures LeadsTo(p, nodes, sleepQSize)
    {
      p := RootLink;
      var bits := BitLength(sleepQSize);
      var bit: int := bits as int - 2;
      ghost var index := 1;
      while bit >= 0
        invariant -1 <= bit
        invariant index == Shr(sleepQSize, bit + 1) && 1 <= index
        invariant LeadsTo(p, nodes, index)
      {
        ShrBound(sleepQSize, bit + 1);
        ShrStep(sleepQSize, bit);
        LinkTarget(p, nodes, index, 0);
        assert NodeOk(nodes, index);
        if Shr(sleepQSize, bit) % 2 == 1 {
          p := RightLink(Load(p));
          index := 2 * index + 1;
        } else {
          p := LeftLink(Load(p));
          index := 2 * index;
        }
        bit := bit - 1;
      }
    }

    method UnlinkLast(p: Slot, ghost s: seq<Thread?>, ghost region: set<Thread>) returns (t: Thread)
      requires |s| >= 2 && Links(sleepQ, s, 0) && LeadsTo(p, s, |s| - 1)
      requires Members(s) <= region
      modifies this`sleepQ, region`left, region`right
      ensures t == s[|s| - 1] && t !in s[..|s| - 1]
      ensures Links(sleepQ, s[..|s| - 1], 0)
    {
      ghost var last := |s| - 1;
      assert NodeOk(s, last) && last / 2 < last;
      assert last >= 2 ==> s[last / 2] in Members(s) && NodeOk(s, last / 2);
      LinkTarget(p, s, last, 0);
      t := Load(p);
      Store(p, null);
      ghost var s1 := s[..last];
      forall i | 0 <= i < |s1|
        ensures s1[i] != t
      {
        assert 1 <= i ==> old(NodeOk(s, i));
        assert old(NodeOk(s, last));
      }
      forall i | 1 <= i < |s1|
        ensures NodeOk(s1, i)
      {
        assert old(NodeOk(s, i));
        if i != last / 2 {
          assert last >= 2 ==> s[i] != s[last / 2];
          assert 2 * i != last && 2 * i + 1 != last;
        }
      }
    }

    /** The pointer writes that make t a child of its own child y. */
    method Relink(t: Thread, y: Thread, p: Slot) returns (p': Slot)
      requires t != y && (!p.RootLink? ==> p.parent != t && p.parent != y)
      requires y == t.left || y == t.right
      modifies this`sleepQ, (if p.LeftLink? then {p.parent} else {})`left, (if p.RightLink? then {p.parent} else {})`right
      modifies t`left, t`right, t`heapIndex, y`left, y`right, y`heapIndex
      ensures Load(p) == y && (!p.RootLink? ==> sleepQ == old(sleepQ))
      ensures t.left == old(y.left) && t.right == old(y.right)
      ensures t.heapIndex == old(y.heapIndex) && y.heapIndex == old(t.heapIndex)
      ensures if y == old(t.left)
        then y.left == t && y.right == old(t.right) && p' == LeftLink(y)
        else y.left == old(t.left) && y.right == t && p' == RightLink(y)
    {
      var tl, tr := y.left, y.right;
      Store(p, y);
      if y == t.left {
        y.left := t;
        y.right := t.right;
        p' := LeftLink(y);
      } else {
        y.left := t.left;
        y.right := t;
        p' := RightLink(y);
      }
      t.left, t.right := tl, tr;
      t.heapIndex, y.heapIndex := y.heapIndex, t.heapIndex;
    }

    /** Node k and its child c change places. */
    method Sink(t: Thread, y: Thread, p: Slot, ghost k: nat, ghost c: nat, ghost s: seq<Thread?>, ghost region: set<Thread>)
        returns (p': Slot)
      requires 1 <= k && c / 2 == k && c < |s| && s[k] == t && s[c] == y
      requires Links(sleepQ, s, 0) && LeadsTo(p, s, k)
      requires Members(s) <= region
      modifies this`sleepQ, region`left, region`right, region`heapIndex
      ensures Links(sleepQ, s[k := y][c := t], 0)
      ensures LeadsTo(p', s[k := y][c := t], c)
    {
      assert t in Members(s) && y in Members(s);
      assert NodeOk(s, k) && NodeOk(s, c);
      assert k >= 2 ==> s[k / 2] in Members(s) && NodeOk(s, k / 2);
      assert NodeOk(s, 2 * k);
      assert y == t.left <==> c == 2 * k;
      p' := Relink(t, y, p);
      ghost var s1 := s[k := y][c := t];
      forall i | 1 <= i < |s1|
        ensures NodeOk(s1, i)
      {
        assert old(NodeOk(s, i));
        if i == k {
          assert s1[i] == y && At(s1, 2 * i) == (if c == 2 * k then t else At(s, 2 * i));
          assert At(s1, 2 * i + 1) == (if c == 2 * k then At(s, 2 * i + 1) else t);
        } else if i == c {
          assert s1[i] == t && At(s1, 2 * i) == At(s, 2 * i) && At(s1, 2 * i + 1) == At(s, 2 * i + 1);
        } else {
          assert s1[i] == s[i] && s[i] != t && s[i] != y;
          if i == k / 2 {
            assert At(s1, 2 * i) == (if k == 2 * i then y else At(s, 2 * i));
            assert At(s1, 2 * i + 1) == (if k == 2 * i then At(s, 2 * i + 1) else y);
          } else {
            assert k >= 2 ==> s[i] != s[k / 2];
            assert At(s1, 2 * i) == At(s, 2 * i) && At(s1, 2 * i + 1) == At(s, 2 * i + 1);
          }
        }
      }
    }

    /** The child of node k that is due first; the right one when both are due together. */
    method EarlierChild(t: Thread, ghost k: nat, ghost s: seq<Thread?>, ghost d: seq<nat>) returns (y: Thread?, ghost c: nat)
      requires Links(sleepQ, s, 0) && Dues(s, d, 0)
      requires 1 <= k < |s| && s[k] == t
      ensures y == null <==> 2 * k >= |s|
      ensures y != null ==> c / 2 == k && c < |s| && s[c] == y && (y == t.left || y == t.right)
      ensures y != null ==> y.due == d[c] && forall i | 2 <= i < |s| && i / 2 == k :: d[c] <= d[i]
    {
      assert NodeOk(s, k);
      c := 2 * k;
      assert 2 * k < |s| ==> NodeOk(s, 2 * k);
      assert 2 * k + 1 < |s| ==> NodeOk(s, 2 * k + 1);
      if t.left == null {
        y := null;
      } else if t.right == null {
        y := t.left;
      } else if t.left.due < t.right.due {
        y := t.left;
      } else {
        y := t.right;
        c := 2 * k + 1;
      }
    }

    /** Restores the order below node k, which t occupies and which link p leads to. */
    method SiftDown(t: Thread, p0: Slot, ghost k0: nat, ghost s0: seq<Thread?>, ghost d0: seq<nat>, ghost region: set<Thread>)
        returns (ghost s: seq<Thread?>, ghost d: seq<nat>)
      requires Links(sleepQ, s0, 0) && Dues(s0, d0, 0)
      requires 1 <= k0 < |s0| && s0[k0] == t && LeadsTo(p0, s0, k0)
      requires OrderedBut(d0, k0) && OrderedAcross(d0, k0)
      requires Members(s0) <= region
      modifies this`sleepQ, region`left, region`right, region`heapIndex
      ensures Links(sleepQ, s, 0) && Dues(s, d, 0) && Ordered(d)
      ensures |s| == |s0| && Members(s) == Members(s0)
    {
      s, d := s0, d0;
      var p := p0;
      ghost var k := k0;
      var done := false;
      while !done
        invariant Sifting(s0, s, d, p, k, t)
        invariant done ==> Ordered(d)
        decreases if done then 0 else |s0| - k
      {
        done, p, s, d, k := SiftStep(t, p, k, s0, s, d, region);
      }
    }

    /** t has sunk from the tree listed in s0 to node k of the tree listed in s. */
    ghost predicate Sifting(s0: seq<Thread?>, s: seq<Thread?>, d: seq<nat>, p: Slot, k: nat, t: Thread)
      reads this`sleepQ, s`left, s`right, s`heapIndex, s`due
    {
      && Links(sleepQ, s, 0) && Dues(s, d, 0)
      && 1 <= k < |s| && s[k] == t && LeadsTo(p, s, k)
      && OrderedBut(d, k) && OrderedAcross(d, k)
      && |s| == |s0| && Members(s) == Members(s0)
    }

    method SiftStep(t: Thread, p: Slot, ghost k: nat, ghost s0: seq<Thread?>, ghost s: seq<Thread?>, ghost d: seq<nat>,
        ghost region: set<Thread>) returns (done: bool, p': Slot, ghost s': seq<Thread?>, ghost d': seq<nat>, ghost k': nat)
      requires Sifting(s0, s, d, p, k, t) && Members(s) <= region
      modifies this`sleepQ, region`left, region`right, region`heapIndex
      ensures Sifting(s0, s', d', p', k', t)
      ensures if done then Ordered(d') else k < k'
    {
      done, p', s', d', k' := true, p, s, d, k;
      ghost var c;
      var y;
      y, c := EarlierChild(t, k, s, d);
      if y != null && t.due > y.due {
        SinkOrder(d, k, c);
        SwapMembers(s, k, c);
        p' := Sink(t, y, p, k, c, s, region);
        s', d' := s[k := y][c := t], d[k := y.due][c := t.due];
        k' := c;
        done := false;
      }
    }

    /** t, the former last node, takes over from thread, which is node h; the nodes above may be
        rearranged, the order below node h may be left broken. */
    method InsertInPlaceOf(thread: Thread, t: Thread, ghost h: nat, ghost s: seq<Thread?>, ghost d: seq<nat>,
        ghost region: set<Thread>) returns (p: Slot, t': Thread, ghost s': seq<Thread?>, ghost d': seq<nat>)
      requires Links(sleepQ, s, 0) && Dues(s, d, 0) && Ordered(d)
      requires 1 <= h < |s| && s[h] == thread && t !in s
      requires t in region && Members(s) <= region
      modifies this`sleepQ, region`left, region`right, region`heapIndex
      ensures Links(sleepQ, s', 0) && Dues(s', d', 0)
      ensures |s'| == |s| && s'[h] == t' && LeadsTo(p, s', h)
      ensures OrderedBut(d', h) && OrderedAcross(d', h)
      ensures Members(s') == Members(s) - {thread} + {t}
    {
      assert NodeOk(s, h);
      OrderedWithHole(d, h);
      NodesDistinct(s, h);
      FilledMembers(s, h, t);
      t.heapIndex := thread.heapIndex;
      assert forall i | 1 <= i < |s| :: NodeOk(s, i);
      p, s', d' := HeapInsert(t, s, d, region);
      t' := Load(p);
      assert At(s', 2 * h) == At(s, 2 * h) && At(s', 2 * h + 1) == At(s, 2 * h + 1) by {
        assert forall i | h < i < |s| :: s'[i] == s'[h + 1..][i - h - 1] == s[i];
      }
      assert t' in Members(s');
      forall i | 1 <= i < |s'|
        ensures s'[i] != null && (i != h ==> s'[i] != t')
      {
        assert i != h ==> NodeOk(s', i);
      }
      t'.left, t'.right := thread.left, thread.right;
      assert NodeOk(s', h);
      assert forall i | 1 <= i < |s'| :: NodeOk(s', i);
    }

    /** Unlinks the last node of the heap. */
    method TakeLast(ghost region: set<Thread>) returns (t: Thread, ghost s: seq<Thread?>, ghost d: seq<nat>)
      requires HeapValid() && sleepQSize > 0 && Members(nodes) <= region
      modifies this`sleepQ, this`sleepQSize, region`left, region`right
      ensures sleepQSize == old(sleepQSize) - 1
      ensures Links(sleepQ, s, 0) && Dues(s, d, 0) && Ordered(d)
      ensures s == nodes[..|nodes| - 1] && t == nodes[|nodes| - 1] && t in region && t !in s
      ensures Members(s) + {t} == Members(nodes)
    {
      var p := FindLast();
      ghost var last := sleepQSize;
      assert NodeOk(nodes, last) && nodes[last] in Members(nodes);
      t := UnlinkLast(p, nodes, region);
      sleepQSize := sleepQSize - 1;
      s, d := nodes[..last], dues[..last];
      PrefixMembers(nodes, last);
    }

    /** Takes thread out of the tree; its own child links are left as they were. */
    method Detach(thread: Thread, ghost h: nat, ghost region: set<Thread>) returns (ghost s: seq<Thread?>, ghost d: seq<nat>)
      requires HeapValid() && 1 <= h < |nodes| && nodes[h] == thread
      requires region == Members(nodes)
      modifies this`sleepQ, this`sleepQSize, region`left, region`right, region`heapIndex
      ensures Links(sleepQ, s, 0) && Dues(s, d, 0) && Ordered(d)
      ensures |s| == |nodes| - 1 == sleepQSize + 1
      ensures Members(s) == Members(nodes) - {thread}
    {
      assert NodeOk(nodes, h);
      assert sleepQSize > 0 && |nodes| == sleepQSize + 1;
      hide HeapValid, Links, Dues, Ordered, LeadsTo, OrderedBut, OrderedAcross;
      var t;
      t, s, d := TakeLast(region);
      assert thread in Members(nodes);
      if t != thread {
        assert h < |s| && s[h] == thread;
        var p;
        p, t, s, d := InsertInPlaceOf(thread, t, h, s, d, region);
        s, d := SiftDown(t, p, h, s, d, region);
      }
    }

    method HeapDelete(thread: Thread)
      requires HeapValid() && thread in nodes
      modifies this`sleepQ, this`sleepQSize, this`nodes, this`dues
      modifies Members(nodes)`left, Members(nodes)`right, Members(nodes)`heapIndex
      ensures HeapValid()
      ensures Members(nodes) == old(Members(nodes)) - {thread}
      ensures sleepQSize == old(sleepQSize) - 1
      ensures thread.left == thread.right == null
    {
      ghost var h :| 0 <= h < |nodes| && nodes[h] == thread;
      ghost var s, d := Detach(thread, h, Members(nodes));
      assert thread !in Members(s);
      thread.left, thread.right := null, null;
      assert forall i | 1 <= i < |s| :: NodeOk(s, i);
      nodes, dues := s, d;
    }

    // -------------------------------------------------------------- the sleep queue

    /** The sleep queue is a valid heap of exactly the threads flagged as being on it. */
    ghost predicate SleepQValid()
      reads this`sleepQ, this`sleepQSize, this`nodes, this`dues
      reads nodes`left, nodes`right, nodes`heapIndex, nodes`due, nodes`onSleepQ
    {
      HeapValid() && forall t | t in Members(nodes) :: t.onSleepQ
    }

    lemma EarliestAtRoot()
      requires HeapValid()
      ensures sleepQ == null <==> Members(nodes) == {}
      ensures sleepQ != null ==> sleepQ in Members(nodes) && forall t | t in Members(nodes) :: sleepQ.due <= t.due
    {
      if sleepQ != null {
        assert nodes[1] == sleepQ && sleepQ in Members(nodes);
        forall t | t in Members(nodes)
          ensures sleepQ.due <= t.due
        {
          var i :| 0 <= i < |nodes| && nodes[i] == t;
          RootIsFirst(dues, i);
        }
      } else {
        assert |nodes| == 1;
      }
    }

    method AddSleepQ(thread: Thread, timeout: nat)
      requires SleepQValid() && thread !in nodes
      modifies this`sleepQ, this`sleepQSize, this`nodes, this`dues
      modifies thread`due, thread`onSleepQ
      modifies Members(nodes)`left, Members(nodes)`right, Members(nodes)`heapIndex
      modifies thread`left, thread`right, thread`heapIndex
      ensures SleepQValid()
      ensures Members(nodes) == old(Members(nodes)) + {thread}
      ensures sleepQSize == old(sleepQSize) + 1
      ensures thread.due == lastClock + timeout && thread.onSleepQ
    {
      thread.due := lastClock + timeout;
      thread.onSleepQ := true;
      sleepQSize := sleepQSize + 1;
      thread.heapIndex := sleepQSize;
      assert forall i | 1 <= i < |nodes| :: NodeOk(nodes, i);
      Insert(thread);
    }

    /** heap_insert for a thread that takes the next free number. */
    method Insert(thread: Thread)
      requires Links(sleepQ, nodes, 0) && Dues(nodes, dues, 0) && Ordered(dues)
      requires thread !in nodes && |nodes| == sleepQSize == thread.heapIndex
      modifies this`sleepQ, this`nodes, this`dues
      modifies Members(nodes)`left, Members(nodes)`right, Members(nodes)`heapIndex
      modifies thread`left, thread`right, thread`heapIndex
      ensures HeapValid()
      ensures Members(nodes) == old(Members(nodes)) + {thread}
    {
      ghost var n := sleepQSize;
      ghost var s: seq<Thread?> := nodes + [null];
      ghost var d := dues + [0];
      AppendHole(n);
      AppendMembers(nodes, thread);
      ghost var p;
      p, nodes, dues := HeapInsert(thread, s, d, Members(nodes) + {thread});
      CloseHole(n);
    }

    lemma AppendHole(n: nat)
      requires Links(sleepQ, nodes, 0) && Ordered(dues) && |nodes| == |dues| == n
      ensures Links(sleepQ, nodes + [null], n)
      ensures OrderedExcept(dues + [0], n) && OrderedAcross(dues + [0], n)
    {
      var s: seq<Thread?> := nodes + [null];
      forall i | 1 <= i < |s| && i != n
        ensures NodeOk(s, i) && s[i] != null
      {
        assert NodeOk(nodes, i);
      }
    }

    lemma CloseHole(n: nat)
      requires |nodes| == n + 1 && n >= 1 && Links(sleepQ, nodes, n)
      requires nodes[n] != null && nodes[n].heapIndex == n && nodes[n].left == nodes[n].right == null
      requires |dues| == n + 1 && OrderedExcept(dues, n) && (n >= 2 ==> dues[n / 2] <= dues[n])
      ensures Links(sleepQ, nodes, 0) && Ordered(dues)
    {
      assert NodeOk(nodes, n);
      forall i | 1 <= i < |nodes|
        ensures NodeOk(nodes, i) && nodes[i] != null
      {
      }
    }

    method DelSleepQ(thread: Thread)
      requires SleepQValid() && thread in nodes
      modifies this`sleepQ, this`sleepQSize, this`nodes, this`dues
      modifies thread`onSleepQ
      modifies Members(nodes)`left, Members(nodes)`right, Members(nodes)`heapIndex
      ensures SleepQValid()
      ensures Members(nodes) == old(Members(nodes)) - {thread}
      ensures sleepQSize == old(sleepQSize) - 1
      ensures thread.left == thread.right == null && !thread.onSleepQ
    {
      HeapDelete(thread);
      thread.onSleepQ := false;
    }

    method TimeOut(thread: Thread)
      modifies this`runQ, thread`state, thread`timedOut
      ensures thread.state == Runnable && thread.timedOut == (old(thread.timedOut) || old(thread.state) == CondWait)
      ensures runQ == old(runQ) + [thread.id]
    {
      if thread.state == CondWait {
        thread.timedOut := true;
      }
      thread.state := Runnable;
      runQ := runQ + [thread.id];
    }

    /** Takes the sleeper at the root off the sleep queue and makes it runnable. */
    method WakeEarliest(ghost all: set<Thread>) returns (thread: Thread)
      requires SleepQValid() && sleepQ != null && Members(nodes) <= all
      modifies this`sleepQ, this`sleepQSize, this`nodes, this`dues, this`runQ
      modifies Members(nodes)`left, Members(nodes)`right, Members(nodes)`heapIndex
      modifies sleepQ`state, sleepQ`timedOut, sleepQ`onSleepQ
      ensures SleepQValid() && sleepQSize < old(sleepQSize)
      ensures thread == old(sleepQ) && thread in old(Members(nodes))
      ensures Members(nodes) == old(Members(nodes)) - {thread}
      ensures Sleepers(all) == old(Sleepers(all))[thread := Woken(old(Sleepers(all))[thread])]
      ensures runQ == old(runQ) + [thread.id]
    {
      EarliestAtRoot();
      thread := sleepQ;
      DelSleepQ(thread);
      TimeOut(thread);
    }

    /** The state in the middle of a clock pass that began with the sleepers before. */
    ghost predicate MidPass(q0: seq<Tid>, all: set<Thread>, before: map<Thread, Sleeper>, now: nat, woken: seq<Thread>)
      reads this, all, nodes`left, nodes`right, nodes`heapIndex, nodes`due, nodes`onSleepQ
    {
      && SleepQValid() && lastClock == now && runQ == q0 + Names(woken)
      && before.Keys == all && Sleepers(all) == AfterWake(before, woken)
      && Elements(woken) <= all && Members(nodes) == all - Elements(woken)
      && WokenSoFar(before, now, woken)
    }

    method WakeNext(ghost q0: seq<Tid>, ghost all: set<Thread>, ghost before: map<Thread, Sleeper>, ghost now: nat,
        ghost woken: seq<Thread>) returns (ghost woken': seq<Thread>)
      requires MidPass(q0, all, before, now, woken) && sleepQ != null && sleepQ.due <= now
      modifies this`sleepQ, this`sleepQSize, this`nodes, this`dues, this`runQ
      modifies all`left, all`right, all`heapIndex, all`state, all`timedOut, all`onSleepQ
      ensures MidPass(q0, all, before, now, woken')
      ensures sleepQSize < old(sleepQSize)
    {
      hide WokenSoFar, AfterWake;
      RootIsNext(q0, all, before, now, woken);
      var thread := WakeEarliest(all);
      WakeOneMore(before, now, woken, thread);
      woken' := woken + [thread];
      assert q0 + Names(woken') == q0 + Names(woken) + [thread.id];
    }

    method BeginPass(ghost q0: seq<Tid>, ghost all: set<Thread>, ghost before: map<Thread, Sleeper>, now: nat)
      requires SleepQValid() && all == Members(nodes) && before == Sleepers(all) && q0 == runQ
      modifies this`lastClock
      ensures MidPass(q0, all, before, now, [])
    {
      lastClock := now;
    }

    /** The clock pass of the idle thread: wakes exactly the sleepers that are due. */
    method CheckClock(now: nat) returns (ghost woken: seq<Thread>)
      requires SleepQValid()
      modifies this`sleepQ, this`sleepQSize, this`nodes, this`dues, this`runQ, this`lastClock
      modifies Members(nodes)`left, Members(nodes)`right, Members(nodes)`heapIndex
      modifies Members(nodes)`state, Members(nodes)`timedOut, Members(nodes)`onSleepQ
      ensures SleepQValid() && lastClock == now
      ensures runQ == old(runQ) + Names(woken)
      ensures ClockPass(old(Sleepers(Members(nodes))), now, woken)
      ensures Members(nodes) == old(Members(nodes)) - Elements(woken)
      ensures Sleepers(old(Members(nodes))) == AfterWake(old(Sleepers(Members(nodes))), woken)
    {
      ghost var q0 := runQ;
      ghost var all := Members(nodes);
      ghost var before := Sleepers(all);
      woken := [];
      BeginPass(q0, all, before, now);
      while sleepQ != null
        invariant MidPass(q0, all, before, now, woken)
        decreases sleepQSize
      {
        EarliestAtRoot();
        if sleepQ.due > now {
          break;
        }
        woken := WakeNext(q0, all, before, now, woken);
      }
      PassEnds(q0, all, before, now, woken);
    }

    lemma PassEnds(q0: seq<Tid>, all: set<Thread>, before: map<Thread, Sleeper>, now: nat, woken: seq<Thread>)
      requires MidPass(q0, all, before, now, woken) && (sleepQ == null || now < sleepQ.due)
      ensures ClockPass(before, now, woken)
    {
      if sleepQ != null {
        RootDue(all);
      } else {
        EarliestAtRoot();
      }
      forall t | t in before.Keys - Elements(woken)
        ensures now < AfterWake(before, woken)[t].due
      {
        assert t in Members(nodes);
      }
      PassDone(before, now, woken);
    }

    /** In the middle of a pass the root is the first of those not yet woken. */
    lemma RootIsNext(q0: seq<Tid>, all: set<Thread>, before: map<Thread, Sleeper>, now: nat, woken: seq<Thread>)
      requires MidPass(q0, all, before, now, woken) && sleepQ != null && sleepQ.due <= now
      ensures sleepQ in before && sleepQ !in woken && before[sleepQ].due <= now
      ensures forall u | u in before && u !in woken :: before[sleepQ].due <= before[u].due
      ensures Sleepers(all)[sleepQ] == before[sleepQ]
    {
      hide SleepQValid, WokenSoFar;
      RootDue(all);
      forall u | u in before && u !in woken
        ensures u in Members(nodes) && Sleepers(all)[u] == before[u]
      {
      }
    }

    lemma RootDue(all: set<Thread>)
      requires SleepQValid() && sleepQ != null && Members(nodes) <= all
      ensures sleepQ in Members(nodes) && Sleepers(all)[sleepQ].due == sleepQ.due
      ensures forall t | t in Members(nodes) :: sleepQ.due <= Sleepers(all)[t].due
    {
      EarliestAtRoot();
    }
  }
}
