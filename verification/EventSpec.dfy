/** What the three event systems have in common: descriptors to poll, the demand they add up to,
    and the wake-up relation that each of them has to implement. */
module EventSpec {

  /** A subset of POLLIN, POLLOUT and POLLPRI. */
  datatype Events = Events(rd: bool, wr: bool, pri: bool) {
    predicate Empty() {
      !rd && !wr && !pri
    }
  }

  /** One pollfd of a request; other stands for any requested bit outside the three. */
  datatype PollFd = PollFd(fd: int, events: Events, other: bool)

  /** A poll waiting on the I/O queue. */
  datatype PollQ = PollQ(thread: nat, pds: seq<PollFd>)

  /** What a descriptor is ready for, according to the kernel. */
  datatype Revents = Revents(rd: bool, wr: bool, pri: bool, err: bool, hup: bool) {
    predicate Empty() {
      !rd && !wr && !pri && !err && !hup
    }
  }

  const NOTHING := Revents(false, false, false, false, false)

  type Readiness = int -> Revents

  /** A poll taken off the queue, with the revents of its descriptors. */
  datatype Wake = Wake(pq: PollQ, revents: seq<Revents>)

  // ---------------------------------------------------------------- demand

  datatype Counts = Counts(rd: int, wr: int, ex: int) {
    function Plus(c: Counts): Counts {
      Counts(rd + c.rd, wr + c.wr, ex + c.ex)
    }

    function Minus(c: Counts): Counts {
      Counts(rd - c.rd, wr - c.wr, ex - c.ex)
    }

    /** The events somebody waits for. */
    function Bits(): Events {
      Events(rd != 0, wr != 0, ex != 0)
    }
  }

  const ZERO := Counts(0, 0, 0)

  function Unit(e: Events): Counts {
    Counts(if e.rd then 1 else 0, if e.wr then 1 else 0, if e.pri then 1 else 0)
  }

  /** How many entries of pds ask for each event on fd. */
  function Demand(pds: seq<PollFd>, fd: int): Counts {
    if pds == [] then ZERO
    else
      var last := pds[|pds| - 1];
      var rest := Demand(pds[..|pds| - 1], fd);
      if last.fd == fd then rest.Plus(Unit(last.events)) else rest
  }

  /** How many entries of all queued polls ask for each event on fd. */
  function DemandQ(q: seq<PollQ>, fd: int): Counts {
    if q == [] then ZERO else Demand(q[0].pds, fd).Plus(DemandQ(q[1..], fd))
  }

  lemma {:induction false} DemandQConcat(a: seq<PollQ>, b: seq<PollQ>, fd: int)
    ensures DemandQ(a + b, fd) == DemandQ(a, fd).Plus(DemandQ(b, fd))
  {
    if a == [] {
      assert a + b == b;
    } else {
      assert (a + b)[1..] == a[1..] + b;
      DemandQConcat(a[1..], b, fd);
    }
  }

  lemma {:induction false} DemandQSingle(q: seq<PollQ>, fd: int)
    requires |q| == 1
    ensures DemandQ(q, fd) == Demand(q[0].pds, fd)
  {
    hide Demand;
    var rest := q[1..];
    assert DemandQ(rest, fd) == ZERO;
    var d := Demand(q[0].pds, fd);
    assert d.Plus(ZERO) == d;
  }

  lemma {:induction false} DemandQHead(c: seq<PollQ>, fd: int)
    requires c != []
    ensures DemandQ(c, fd) == Demand(c[0].pds, fd).Plus(DemandQ(c[1..], fd))
  {
  }

  lemma PlusCommutes(x: Counts, y: Counts, z: Counts)
    ensures x.Plus(z.Plus(y)) == z.Plus(x.Plus(y))
  {
  }

  lemma {:induction false} DemandQSplit(a: seq<PollQ>, pq: PollQ, b: seq<PollQ>, fd: int)
    ensures DemandQ(a + ([pq] + b), fd) == Demand(pq.pds, fd).Plus(DemandQ(a + b, fd))
  {
    DemandQConcat(a, [pq] + b, fd);
    DemandQConcat(a, b, fd);
    assert ([pq] + b)[0] == pq && ([pq] + b)[1..] == b;
    DemandQHead([pq] + b, fd);
    PlusCommutes(DemandQ(a, fd), DemandQ(b, fd), Demand(pq.pds, fd));
  }

  lemma {:induction false} DemandQRemove(q: seq<PollQ>, i: nat, fd: int)
    requires i < |q|
    ensures DemandQ(q, fd) == Demand(q[i].pds, fd).Plus(DemandQ(q[..i] + q[i + 1..], fd))
  {
    assert q == q[..i] + ([q[i]] + q[i + 1..]);
    DemandQSplit(q[..i], q[i], q[i + 1..], fd);
  }

  lemma {:induction false} DemandNonNegative(pds: seq<PollFd>, fd: int)
    ensures var d := Demand(pds, fd); d.rd >= 0 && d.wr >= 0 && d.ex >= 0
  {
    if pds != [] {
      DemandNonNegative(pds[..|pds| - 1], fd);
    }
  }

  lemma {:induction false} DemandQNonNegative(q: seq<PollQ>, fd: int)
    ensures var d := DemandQ(q, fd); d.rd >= 0 && d.wr >= 0 && d.ex >= 0
  {
    if q != [] {
      DemandNonNegative(q[0].pds, fd);
      DemandQNonNegative(q[1..], fd);
    }
  }

  lemma {:induction false} DemandSeen(pds: seq<PollFd>, i: nat)
    requires i < |pds|
    ensures var d := Demand(pds, pds[i].fd);
      && (pds[i].events.rd ==> d.rd > 0) && (pds[i].events.wr ==> d.wr > 0) && (pds[i].events.pri ==> d.ex > 0)
  {
    var n := |pds| - 1;
    DemandNonNegative(pds[..n], pds[i].fd);
    if i < n {
      assert pds[..n][i] == pds[i];
      DemandSeen(pds[..n], i);
    }
  }

  /** What the first i + 1 entries ask for is part of what all of them ask for. */
  lemma {:induction false} DemandPrefix(pds: seq<PollFd>, i: nat, fd: int)
    requires i < |pds|
    ensures var d := Demand(pds, fd);
      var p := Demand(pds[..i + 1], fd);
      && p == (if pds[i].fd == fd then Demand(pds[..i], fd).Plus(Unit(pds[i].events)) else Demand(pds[..i], fd))
      && p.rd <= d.rd && p.wr <= d.wr && p.ex <= d.ex
  {
    assert pds[..i + 1][..i] == pds[..i];
    if i + 1 < |pds| {
      var n := |pds| - 1;
      assert pds[..n][..i + 1] == pds[..i + 1] && pds[..n][..i] == pds[..i];
      DemandPrefix(pds[..n], i, fd);
    } else {
      assert pds[..i + 1] == pds;
    }
  }

  lemma DemandStep(pds: seq<PollFd>, i: nat)
    requires i < |pds|
    ensures forall fd ::
      Demand(pds[..i + 1], fd) ==
      if pds[i].fd == fd then Demand(pds[..i], fd).Plus(Unit(pds[i].events)) else Demand(pds[..i], fd)
  {
    assert pds[..i + 1][..i] == pds[..i];
  }

  lemma DemandsNonNegative(pds: seq<PollFd>)
    ensures forall fd :: Demand(pds, fd).rd >= 0 && Demand(pds, fd).wr >= 0 && Demand(pds, fd).ex >= 0
  {
    forall fd
      ensures Demand(pds, fd).rd >= 0 && Demand(pds, fd).wr >= 0 && Demand(pds, fd).ex >= 0
    {
      DemandNonNegative(pds, fd);
    }
  }

  /** Whatever a queued poll waits for is in demand. */
  lemma {:induction false} DemandQSeen(q: seq<PollQ>, k: nat, i: nat)
    requires k < |q| && i < |q[k].pds|
    ensures var pd := q[k].pds[i];
      var d := DemandQ(q, pd.fd);
      && (pd.events.rd ==> d.rd > 0) && (pd.events.wr ==> d.wr > 0) && (pd.events.pri ==> d.ex > 0)
  {
    var fd := q[k].pds[i].fd;
    DemandNonNegative(q[0].pds, fd);
    DemandQNonNegative(q[1..], fd);
    if k == 0 {
      DemandSeen(q[0].pds, i);
    } else {
      DemandQSeen(q[1..], k - 1, i);
    }
  }

  // ---------------------------------------------------------------- the wake-up relation

  /** What a poll learns about one of its descriptors: what it asked for and is ready, and errors
      whether it asked or not. */
  function Answer(pd: PollFd, ready: Readiness): Revents {
    var r := ready(pd.fd);
    Revents(pd.events.rd && r.rd, pd.events.wr && r.wr, pd.events.pri && r.pri, r.err, r.hup)
  }

  /** The kernel reports readiness only, no errors. */
  ghost predicate Plain(ready: Readiness) {
    forall fd :: !ready(fd).err && !ready(fd).hup
  }

  /** What three sets of descriptors can tell of a readiness: nothing about errors. */
  ghost function InSets(ready: Readiness): (r: Readiness)
    ensures Plain(r)
  {
    fd => ready(fd).(err := false, hup := false)
  }

  function Answers(pds: seq<PollFd>, ready: Readiness): (r: seq<Revents>)
    ensures |r| == |pds| && forall i | 0 <= i < |pds| :: r[i] == Answer(pds[i], ready)
  {
    seq(|pds|, i requires 0 <= i < |pds| => Answer(pds[i], ready))
  }

  predicate Fires(pq: PollQ, ready: Readiness) {
    exists i | 0 <= i < |pq.pds| :: !Answer(pq.pds[i], ready).Empty()
  }

  /** The polls to wake, in queue order, each with what became ready. */
  function Woken(q: seq<PollQ>, ready: Readiness): seq<Wake> {
    if q == [] then []
    else if Fires(q[0], ready) then [Wake(q[0], Answers(q[0].pds, ready))] + Woken(q[1..], ready)
    else Woken(q[1..], ready)
  }

  /** The polls that stay queued, in queue order. */
  function Left(q: seq<PollQ>, ready: Readiness): seq<PollQ> {
    if q == [] then []
    else if Fires(q[0], ready) then Left(q[1..], ready)
    else [q[0]] + Left(q[1..], ready)
  }

  lemma {:induction false} WokenConcat(a: seq<PollQ>, b: seq<PollQ>, ready: Readiness)
    ensures Woken(a + b, ready) == Woken(a, ready) + Woken(b, ready)
    ensures Left(a + b, ready) == Left(a, ready) + Left(b, ready)
  {
    hide Fires, Answers;
    if a == [] {
      assert a + b == b;
    } else {
      var c := a + b;
      assert c[0] == a[0] && c[1..] == a[1..] + b;
      WokenConcat(a[1..], b, ready);
      var w := [Wake(a[0], Answers(a[0].pds, ready))];
      if Fires(a[0], ready) {
        assert Woken(c, ready) == w + (Woken(a[1..], ready) + Woken(b, ready));
      } else {
        assert Left(c, ready) == [a[0]] + (Left(a[1..], ready) + Left(b, ready));
      }
    }
  }

  lemma WokenStep(q: seq<PollQ>, i: nat, ready: Readiness)
    requires i < |q|
    ensures Woken(q[..i + 1], ready) ==
      Woken(q[..i], ready) + if Fires(q[i], ready) then [Wake(q[i], Answers(q[i].pds, ready))] else []
    ensures Left(q[..i + 1], ready) == Left(q[..i], ready) + if Fires(q[i], ready) then [] else [q[i]]
  {
    assert q[..i + 1] == q[..i] + [q[i]];
    assert [q[i]][1..] == [];
    WokenConcat(q[..i], [q[i]], ready);
    assert Woken([q[i]], ready) ==
      if Fires(q[i], ready) then [Wake(q[i], Answers(q[i].pds, ready))] + Woken([], ready) else Woken([], ready);
    assert Left([q[i]], ready) == if Fires(q[i], ready) then Left([], ready) else [q[i]] + Left([], ready);
  }

  lemma {:induction false} NothingToWake(q: seq<PollQ>, ready: Readiness)
    requires forall pq | pq in q :: !Fires(pq, ready)
    ensures Woken(q, ready) == [] && Left(q, ready) == q
  {
    if q != [] {
      assert q[0] in q;
      NothingToWake(q[1..], ready);
    }
  }

  /** Without errors the three sets tell everything; an error can only hide a wake-up, not cause one. */
  lemma {:induction false} SetsTellAll(q: seq<PollQ>, ready: Readiness)
    ensures forall pq | pq in q && Fires(pq, InSets(ready)) :: Fires(pq, ready)
    ensures Plain(ready) ==> Woken(q, InSets(ready)) == Woken(q, ready) && Left(q, InSets(ready)) == Left(q, ready)
  {
    if q != [] {
      var pds := q[0].pds;
      assert forall i | 0 <= i < |pds| ::
        Answer(pds[i], InSets(ready)) == Answer(pds[i], ready).(err := false, hup := false);
      assert Plain(ready) ==> Answers(pds, InSets(ready)) == Answers(pds, ready);
      SetsTellAll(q[1..], ready);
    }
  }

  /** Nobody is woken for nothing, nobody is left behind with something ready, and nobody is lost. */
  lemma {:induction false} WakeUpIsExact(q: seq<PollQ>, ready: Readiness)
    ensures forall w | w in Woken(q, ready) :: w.pq in q && Fires(w.pq, ready) && w.revents == Answers(w.pq.pds, ready)
    ensures forall pq | pq in Left(q, ready) :: pq in q && !Fires(pq, ready)
    ensures forall pq | pq in q :: pq in Left(q, ready) || Wake(pq, Answers(pq.pds, ready)) in Woken(q, ready)
    ensures |Woken(q, ready)| + |Left(q, ready)| == |q|
  {
    if q != [] {
      WakeUpIsExact(q[1..], ready);
      forall pq | pq in q
        ensures pq == q[0] || pq in q[1..]
      {
      }
    }
  }

  /** Where a woken poll stood in the queue. */
  lemma {:induction false} WokenFrom(q: seq<PollQ>, ready: Readiness, j: nat) returns (l: nat)
    requires j < |Woken(q, ready)|
    ensures l < |q| && Woken(q, ready)[j].pq == q[l]
  {
    hide Fires, Answers;
    if Fires(q[0], ready) && j == 0 {
      l := 0;
    } else {
      var m := WokenFrom(q[1..], ready, if Fires(q[0], ready) then j - 1 else j);
      l := m + 1;
    }
  }

  lemma {:induction false} WokenFromInOrder(q: seq<PollQ>, ready: Readiness, i: nat, j: nat) returns (k: nat, l: nat)
    requires i < j < |Woken(q, ready)|
    ensures k < l < |q| && Woken(q, ready)[i].pq == q[k] && Woken(q, ready)[j].pq == q[l]
  {
    hide Fires, Answers;
    if !Fires(q[0], ready) {
      k, l := WokenFromInOrder(q[1..], ready, i, j);
      k, l := k + 1, l + 1;
    } else if i > 0 {
      k, l := WokenFromInOrder(q[1..], ready, i - 1, j - 1);
      k, l := k + 1, l + 1;
    } else {
      var m := WokenFrom(q[1..], ready, j - 1);
      k, l := 0, m + 1;
    }
  }

  /** Two polls that are woken stood in the queue in the same order. */
  lemma WakeUpKeepsOrder(q: seq<PollQ>, ready: Readiness, i: nat, j: nat)
    requires i < j < |Woken(q, ready)|
    ensures exists k: nat, l: nat :: k < l < |q| && Woken(q, ready)[i].pq == q[k] && Woken(q, ready)[j].pq == q[l]
  {
    var k, l := WokenFromInOrder(q, ready, i, j);
  }

  // ---------------------------------------------------------------- what a dispatch tells, entry by entry

  /** What each entry of a woken poll was told: asked for and ready, or an error. */
  ghost predicate PollTells(w: Wake, ready: Readiness) {
    && |w.revents| == |w.pq.pds|
    && forall i | 0 <= i < |w.revents| ::
         var asked, r, told := w.pq.pds[i].events, ready(w.pq.pds[i].fd), w.revents[i];
         && (told.rd <==> asked.rd && r.rd) && (told.wr <==> asked.wr && r.wr) && (told.pri <==> asked.pri && r.pri)
         && (told.err <==> r.err) && (told.hup <==> r.hup)
  }

  /** Some entry of the poll asks for what its descriptor is ready for, or its descriptor is in error. */
  ghost predicate PollFinds(pq: PollQ, ready: Readiness) {
    exists i :: 0 <= i < |pq.pds| &&
      var asked, r := pq.pds[i].events, ready(pq.pds[i].fd);
      (asked.rd && r.rd) || (asked.wr && r.wr) || (asked.pri && r.pri) || r.err || r.hup
  }

  /** The three sets of select say nothing about errors. */
  ghost predicate SelectTells(w: Wake, ready: Readiness) {
    && |w.revents| == |w.pq.pds|
    && forall i | 0 <= i < |w.revents| ::
         var asked, r, told := w.pq.pds[i].events, ready(w.pq.pds[i].fd), w.revents[i];
         && (told.rd <==> asked.rd && r.rd) && (told.wr <==> asked.wr && r.wr) && (told.pri <==> asked.pri && r.pri)
         && !told.err && !told.hup
  }

  ghost predicate SelectFinds(pq: PollQ, ready: Readiness) {
    exists i :: 0 <= i < |pq.pds| &&
      var asked, r := pq.pds[i].events, ready(pq.pds[i].fd);
      (asked.rd && r.rd) || (asked.wr && r.wr) || (asked.pri && r.pri)
  }

  /** The queue falls into the polls that were woken, each once, and those that stay. */
  ghost predicate Parted(q: seq<PollQ>, woken: seq<Wake>, left: seq<PollQ>) {
    && |woken| + |left| == |q|
    && (forall w | w in woken :: w.pq in q) && (forall pq | pq in left :: pq in q)
    && forall pq | pq in q :: pq in left || exists w :: w in woken && w.pq == pq
  }

  lemma Parts(q: seq<PollQ>, ready: Readiness)
    ensures Parted(q, Woken(q, ready), Left(q, ready))
  {
    WakeUpIsExact(q, ready);
    forall pq | pq in q
      ensures pq in Left(q, ready) || exists w :: w in Woken(q, ready) && w.pq == pq
    {
      if pq !in Left(q, ready) {
        assert Wake(pq, Answers(pq.pds, ready)) in Woken(q, ready);
      }
    }
  }

  lemma FindsByPoll(pq: PollQ, ready: Readiness)
    ensures PollFinds(pq, ready) <==> Fires(pq, ready)
  {
    if PollFinds(pq, ready) {
      var i :| 0 <= i < |pq.pds| &&
        var asked, r := pq.pds[i].events, ready(pq.pds[i].fd);
        (asked.rd && r.rd) || (asked.wr && r.wr) || (asked.pri && r.pri) || r.err || r.hup;
      assert !Answer(pq.pds[i], ready).Empty();
    }
  }

  /** A dispatch of the specification tells the woken polls what poll tells, and leaves those that find
      nothing. */
  lemma PollIsTold(q: seq<PollQ>, ready: Readiness)
    ensures Parted(q, Woken(q, ready), Left(q, ready))
    ensures forall w | w in Woken(q, ready) :: PollTells(w, ready) && PollFinds(w.pq, ready)
    ensures forall pq | pq in Left(q, ready) :: !PollFinds(pq, ready)
  {
    Parts(q, ready);
    WakeUpIsExact(q, ready);
    forall w | w in Woken(q, ready)
      ensures PollTells(w, ready) && PollFinds(w.pq, ready)
    {
      FindsByPoll(w.pq, ready);
    }
    forall pq | pq in Left(q, ready)
      ensures !PollFinds(pq, ready)
    {
      FindsByPoll(pq, ready);
    }
  }

  /** The same through the three sets of select. */
  lemma SelectIsTold(q: seq<PollQ>, ready: Readiness)
    ensures var seen := InSets(ready);
      && Parted(q, Woken(q, seen), Left(q, seen))
      && (forall w | w in Woken(q, seen) :: SelectTells(w, ready) && SelectFinds(w.pq, ready))
      && (forall pq | pq in Left(q, seen) :: !SelectFinds(pq, ready))
  {
    var seen := InSets(ready);
    PollIsTold(q, seen);
    forall w | w in Woken(q, seen)
      ensures SelectTells(w, ready) && SelectFinds(w.pq, ready)
    {
      assert PollTells(w, seen) && PollFinds(w.pq, seen);
    }
    forall pq | pq in Left(q, seen)
      ensures !SelectFinds(pq, ready)
    {
      assert !PollFinds(pq, seen);
    }
  }

  // ---------------------------------------------------------------- requests

  /** The check every event system makes: a usable descriptor and at least one known event. */
  predicate ValidPd(pd: PollFd, limit: int) {
    0 <= pd.fd < limit && !pd.events.Empty() && !pd.other
  }

  predicate ValidPds(pds: seq<PollFd>, limit: int) {
    forall i | 0 <= i < |pds| :: ValidPd(pds[i], limit)
  }

  predicate ValidQ(q: seq<PollQ>, limit: int) {
    forall pq | pq in q :: ValidPds(pq.pds, limit)
  }

  /** The counters agree with the queue. */
  ghost predicate Mirrors(cnt: seq<Counts>, q: seq<PollQ>) {
    forall fd | 0 <= fd < |cnt| :: cnt[fd] == DemandQ(q, fd)
  }
}
