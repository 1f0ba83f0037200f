/** The epoll event system: reference counts per descriptor, an interest set held by the kernel
    that has to follow them, and kernel updates deferred for descriptors that fired. */
module EpollSystem {
  import opened EventSpec

  /** The outcome of epoll_ctl(ADD). The kernel refuses descriptors that cannot be polled. */
  datatype AddResult = Added | Exists | Refused

  lemma AddKeyCard(m: map<int, Events>, fd: int, ev: Events)
    ensures |m[fd := ev]| == if fd in m then |m| else |m| + 1
  {
    assert m[fd := ev].Keys == m.Keys + {fd};
    assert |m[fd := ev].Keys| == |m[fd := ev]| && |m.Keys| == |m|;
  }

  lemma DropKeyCard(m: map<int, Events>, fd: int)
    requires fd in m
    ensures |m - {fd}| == |m| - 1
  {
    assert (m - {fd}).Keys == m.Keys - {fd};
    assert |(m - {fd}).Keys| == |m - {fd}| && |m.Keys| == |m|;
  }

  /** A request pollset_add accepts: usable descriptors, known events, nothing the kernel refuses. */
  predicate Acceptable(pds: seq<PollFd>, refused: set<int>) {
    forall i | 0 <= i < |pds| :: pds[i].fd >= 0 && !pds[i].events.Empty() && !pds[i].other && pds[i].fd !in refused
  }

  /** The kernel waits for exactly these events on fd. */
  ghost predicate Follows(interest: map<int, Events>, fd: int, events: Events) {
    if events.Empty() then fd !in interest else fd in interest && interest[fd] == events
  }

  ghost predicate NonNegative(c: seq<Counts>) {
    forall fd | 0 <= fd < |c| :: c[fd].rd >= 0 && c[fd].wr >= 0 && c[fd].ex >= 0
  }

  /** The count of fd in a table, where entries beyond its end count as zero. */
  function CountAt(c: seq<Counts>, fd: nat): Counts {
    if fd < |c| then c[fd] else ZERO
  }

  /** Table b is table a, perhaps grown, with the entries of pds counted on top. */
  ghost predicate Recounted(a: seq<Counts>, b: seq<Counts>, pds: seq<PollFd>) {
    forall fd | 0 <= fd < |b| :: RecountedAt(a, b, pds, fd)
  }

  ghost predicate RecountedAt(a: seq<Counts>, b: seq<Counts>, pds: seq<PollFd>, fd: nat)
    requires fd < |b|
  {
    b[fd] == CountAt(a, fd).Plus(Demand(pds, fd))
  }

  /** The table after counting the entries of pds one by one. */
  function Tally(c: seq<Counts>, pds: seq<PollFd>): (r: seq<Counts>)
    requires ValidPds(pds, |c|)
    ensures |r| == |c|
  {
    if pds == [] then c
    else
      var n := |pds| - 1;
      var t := Tally(c, pds[..n]);
      t[pds[n].fd := t[pds[n].fd].Plus(Unit(pds[n].events))]
  }

  lemma {:induction false} TallyAt(c: seq<Counts>, pds: seq<PollFd>, fd: nat)
    requires ValidPds(pds, |c|) && fd < |c|
    ensures Tally(c, pds)[fd] == c[fd].Plus(Demand(pds, fd))
  {
    if pds != [] {
      TallyAt(c, pds[..|pds| - 1], fd);
    }
  }

  lemma TallyCounts(c: seq<Counts>, pds: seq<PollFd>)
    requires ValidPds(pds, |c|)
    ensures forall fd | 0 <= fd < |c| :: Tally(c, pds)[fd] == c[fd].Plus(Demand(pds, fd))
  {
    forall fd | 0 <= fd < |c|
      ensures Tally(c, pds)[fd] == c[fd].Plus(Demand(pds, fd))
    {
      TallyAt(c, pds, fd);
    }
  }

  /** Table b is table a with room for more descriptors. */
  ghost predicate Grown(a: seq<Counts>, b: seq<Counts>) {
    a <= b && forall k | |a| <= k < |b| :: b[k] == ZERO
  }

  lemma GrownAt(a: seq<Counts>, b: seq<Counts>, fd: nat)
    requires Grown(a, b) && fd < |b|
    ensures CountAt(a, fd) == b[fd]
  {
    if fd < |a| {
      assert b[..|a|][fd] == b[fd];
    }
  }

  lemma RecountedTallyAt(a: seq<Counts>, b: seq<Counts>, pds: seq<PollFd>, fd: nat)
    requires ValidPds(pds, |b|) && Grown(a, b) && fd < |b|
    ensures RecountedAt(a, Tally(b, pds), pds, fd)
  {
    GrownAt(a, b, fd);
    TallyAt(b, pds, fd);
  }

  lemma RecountedTally(a: seq<Counts>, b: seq<Counts>, pds: seq<PollFd>)
    requires ValidPds(pds, |b|) && Grown(a, b)
    ensures Recounted(a, Tally(b, pds), pds)
  {
    forall fd | 0 <= fd < |b|
      ensures RecountedAt(a, Tally(b, pds), pds, fd)
    {
      RecountedTallyAt(a, b, pds, fd);
    }
  }

  /** A descriptor nobody waits for after counting was not waited for before. */
  lemma NobodyYet(c: seq<Counts>, pds: seq<PollFd>, fd: nat)
    requires ValidPds(pds, |c|) && fd < |c| && NonNegative(c)
    ensures Tally(c, pds)[fd].Bits().Empty() ==> c[fd].Bits().Empty()
  {
    TallyAt(c, pds, fd);
    DemandNonNegative(pds, fd);
  }

  lemma CountsNonNegative(c: seq<Counts>, q: seq<PollQ>)
    requires Mirrors(c, q)
    ensures NonNegative(c)
  {
    forall fd | 0 <= fd < |c|
      ensures c[fd].rd >= 0 && c[fd].wr >= 0 && c[fd].ex >= 0
    {
      DemandQNonNegative(q, fd);
    }
  }

  /** A table that mirrors the queue is determined by it. */
  lemma SameCounts(a: seq<Counts>, b: seq<Counts>, q: seq<PollQ>)
    requires Mirrors(a, q) && Mirrors(b, q) && |a| == |b|
    ensures a == b
  {
    forall fd | 0 <= fd < |a|
      ensures a[fd] == b[fd]
    {
      assert a[fd] == DemandQ(q, fd) && b[fd] == DemandQ(q, fd);
    }
  }

  function DemandTable(q: seq<PollQ>, n: nat): (r: seq<Counts>)
    ensures |r| == n && forall fd | 0 <= fd < n :: r[fd] == DemandQ(q, fd)
  {
    seq(n, fd => DemandQ(q, fd))
  }

  lemma {:induction false} NoDemandHere(pds: seq<PollFd>, limit: int, fd: int)
    requires ValidPds(pds, limit) && limit <= fd
    ensures Demand(pds, fd) == ZERO
  {
    if pds != [] {
      NoDemandHere(pds[..|pds| - 1], limit, fd);
    }
  }

  lemma {:induction false} NoDemand(q: seq<PollQ>, limit: int, fd: int)
    requires ValidQ(q, limit) && limit <= fd
    ensures DemandQ(q, fd) == ZERO
  {
    if q != [] {
      assert q[0] in q;
      NoDemandHere(q[0].pds, limit, fd);
      NoDemand(q[1..], limit, fd);
    }
  }

  /** The table mirrors the demand even beyond its end. */
  lemma CountMirrors(c: seq<Counts>, q: seq<PollQ>, fd: nat)
    requires Mirrors(c, q) && ValidQ(q, |c|)
    ensures CountAt(c, fd) == DemandQ(q, fd)
  {
    if fd >= |c| {
      NoDemand(q, |c|, fd);
    }
  }

  lemma DemandQAppend(q: seq<PollQ>, pq: PollQ, fd: int)
    ensures DemandQ(q + [pq], fd) == DemandQ(q, fd).Plus(Demand(pq.pds, fd))
  {
    DemandQConcat(q, [pq], fd);
    DemandQSingle([pq], fd);
  }

  /** Taking the first poll out of the unexamined rest. */
  lemma InTheMiddle(left: seq<PollQ>, q: seq<PollQ>, i: nat)
    requires i < |q|
    ensures var all, k := left + q[i..], |left|;
      k < |all| && all[k] == q[i] && all[..k] + all[k + 1..] == left + q[i + 1..]
    ensures left + q[i..] == left + [q[i]] + q[i + 1..]
    ensures forall pq | pq in left + q[i + 1..] :: pq in left + q[i..]
  {
    assert q[i..] == [q[i]] + q[i + 1..];
  }

  lemma CountsAfterAdd(c0: seq<Counts>, c: seq<Counts>, q: seq<PollQ>, pq: PollQ)
    requires Mirrors(c0, q) && ValidQ(q, |c0|) && Recounted(c0, c, pq.pds)
    ensures Mirrors(c, q + [pq])
  {
    forall fd | 0 <= fd < |c|
      ensures c[fd] == DemandQ(q + [pq], fd)
    {
      assert RecountedAt(c0, c, pq.pds, fd);
      CountMirrors(c0, q, fd);
      DemandQAppend(q, pq, fd);
    }
  }

  lemma NoEntries(c: Counts, fd: int)
    ensures c.Plus(Demand([], fd)) == c
  {
    assert Demand([], fd) == ZERO;
  }

  lemma CountsAfterNone(c0: seq<Counts>, c: seq<Counts>, q: seq<PollQ>)
    requires Mirrors(c0, q) && ValidQ(q, |c0|) && Recounted(c0, c, [])
    ensures Mirrors(c, q)
  {
    forall fd | 0 <= fd < |c|
      ensures c[fd] == DemandQ(q, fd)
    {
      assert RecountedAt(c0, c, [], fd);
      CountMirrors(c0, q, fd);
      NoEntries(CountAt(c0, fd), fd);
    }
  }

  // ---------------------------------------------------------------- what epoll_wait says

  /** What the kernel says about a descriptor it watches: requested events, and errors always. */
  function Masked(e: Events, r: Revents): Revents {
    Revents(e.rd && r.rd, e.wr && r.wr, e.pri && r.pri, r.err, r.hup)
  }

  /** On an error dispatch sets every I/O bit somebody waits for. */
  function OnError(r: Revents, e: Events): Revents {
    if r.err || r.hup then Revents(r.rd || e.rd, r.wr || e.wr, r.pri || e.pri, r.err, r.hup) else r
  }

  /** The events of one pollfd, read off the stored revents of its descriptor. */
  function ReadOff(pd: PollFd, r: Revents): Revents {
    if r.Empty() then NOTHING
    else Revents(pd.events.rd && r.rd, pd.events.wr && r.wr, pd.events.pri && r.pri, r.err, r.hup)
  }

  /** What dispatch stores for a descriptor answers every poll that contributed to its events. */
  lemma ReadsBack(pd: PollFd, e: Events, ready: Readiness)
    requires (pd.events.rd ==> e.rd) && (pd.events.wr ==> e.wr) && (pd.events.pri ==> e.pri)
    ensures var m := Masked(e, ready(pd.fd));
      ReadOff(pd, if m.Empty() then NOTHING else OnError(m, e)) == Answer(pd, Widened(ready))
  {
  }

  /** The readiness that epoll presents: a descriptor in error counts as ready for everything. */
  function Widened(ready: Readiness): Readiness {
    fd => var r := ready(fd); if r.err || r.hup then Revents(true, true, true, r.err, r.hup) else r
  }

  /** A report of epoll_wait: every watched descriptor with something to say, each once. */
  ghost predicate Report(fired: seq<int>, interest: map<int, Events>, ready: Readiness) {
    && (forall i, j | 0 <= i < j < |fired| :: fired[i] != fired[j])
    && forall fd :: fd in fired <==> fd in interest && !Masked(interest[fd], ready(fd)).Empty()
  }

  lemma ReportFits(fired: seq<int>, interest: map<int, Events>, ready: Readiness)
    requires Report(fired, interest, ready)
    ensures |fired| <= |interest|
  {
    NoMore(fired, interest.Keys);
    assert |interest.Keys| == |interest|;
  }

  lemma {:induction false} NoMore(fired: seq<int>, keys: set<int>)
    requires forall i, j | 0 <= i < j < |fired| :: fired[i] != fired[j]
    requires forall fd | fd in fired :: fd in keys
    ensures |fired| <= |keys|
  {
    if fired != [] {
      assert forall fd | fd in fired[1..] :: fd in fired;
      NoMore(fired[1..], keys - {fired[0]});
    }
  }

  /** Errors widen what the woken polls are told, not which polls are woken: epoll wakes the polls
      that the plain relation wakes and leaves the others. Without errors it tells them the same. */
  lemma {:induction false} WideningWakesTheSame(q: seq<PollQ>, ready: Readiness)
    ensures Left(q, Widened(ready)) == Left(q, ready)
    ensures |Woken(q, Widened(ready))| == |Woken(q, ready)|
    ensures forall i | 0 <= i < |Woken(q, ready)| :: Woken(q, Widened(ready))[i].pq == Woken(q, ready)[i].pq
    ensures Plain(ready) ==> Woken(q, Widened(ready)) == Woken(q, ready)
  {
    if q != [] {
      var pds := q[0].pds;
      assert forall i | 0 <= i < |pds| :: Answer(pds[i], ready).Empty() <==> Answer(pds[i], Widened(ready)).Empty();
      assert Fires(q[0], ready) <==> Fires(q[0], Widened(ready));
      assert Plain(ready) ==> Answers(pds, Widened(ready)) == Answers(pds, ready);
      WideningWakesTheSame(q[1..], ready);
    }
  }

  /** What each entry of a woken poll was told: an error makes a descriptor ready for whatever was asked. */
  ghost predicate EpollTells(w: Wake, ready: Readiness) {
    && |w.revents| == |w.pq.pds|
    && forall i | 0 <= i < |w.revents| ::
         var asked, r, told := w.pq.pds[i].events, ready(w.pq.pds[i].fd), w.revents[i];
         && (told.rd <==> asked.rd && (r.rd || r.err || r.hup))
         && (told.wr <==> asked.wr && (r.wr || r.err || r.hup))
         && (told.pri <==> asked.pri && (r.pri || r.err || r.hup))
         && (told.err <==> r.err) && (told.hup <==> r.hup)
  }

  /** A dispatch of the specification with widened readiness tells the woken polls what epoll tells. */
  lemma EpollIsTold(q: seq<PollQ>, ready: Readiness)
    ensures var seen := Widened(ready);
      && Parted(q, Woken(q, seen), Left(q, seen))
      && (forall w | w in Woken(q, seen) :: EpollTells(w, ready) && PollFinds(w.pq, ready))
      && (forall pq | pq in Left(q, seen) :: !PollFinds(pq, ready))
  {
    var seen := Widened(ready);
    PollIsTold(q, seen);
    forall w | w in Woken(q, seen)
      ensures EpollTells(w, ready) && PollFinds(w.pq, ready)
    {
      assert PollTells(w, seen) && PollFinds(w.pq, seen);
    }
    forall pq | pq in Left(q, seen)
      ensures !PollFinds(pq, ready)
    {
      assert !PollFinds(pq, seen);
    }
  }

  class Epoll {
    // the library's data
    var cnt: seq<Counts>
    var rev: seq<Revents>
    var evtlistSize: nat
    var evtlistCnt: int
    var ioQ: seq<PollQ>
    // the kernel's data
    var interest: map<int, Events>
    const refused: set<int>

    constructor (hint: nat, refused: set<int>)
      requires hint > 0
      ensures Valid() && ioQ == []
    {
      cnt, rev := seq(hint, _ => ZERO), seq(hint, _ => NOTHING);
      evtlistSize, evtlistCnt, ioQ := hint, 0, [];
      interest := map[];
      this.refused := refused;
    }

    // -------------------------------------------------------------- the kernel

    method CtlAdd(fd: int, ev: Events) returns (r: AddResult)
      modifies `interest
      ensures r == if fd in old(interest) then Exists else if fd in refused then Refused else Added
      ensures interest == if r == Added then old(interest)[fd := ev] else old(interest)
    {
      if fd in interest {
        r := Exists;
      } else if fd in refused {
        r := Refused;
      } else {
        interest := interest[fd := ev];
        r := Added;
      }
    }

    method CtlMod(fd: int, ev: Events) returns (ok: bool)
      modifies `interest
      ensures ok == (fd in old(interest))
      ensures interest == if ok then old(interest)[fd := ev] else old(interest)
    {
      ok := fd in interest;
      if ok {
        interest := interest[fd := ev];
      }
    }

    method CtlDel(fd: int) returns (ok: bool)
      modifies `interest
      ensures ok == (fd in old(interest))
      ensures interest == if ok then old(interest) - {fd} else old(interest)
    {
      ok := fd in interest;
      if ok {
        interest := interest - {fd};
      }
    }

    // -------------------------------------------------------------- the invariant

    /** The kernel follows the counts for every descriptor that has not fired, except possibly for
        lost, which it does not know. */
    ghost predicate Kernel(lost: int)
      reads this
    {
      && |rev| == |cnt| > 0
      && (forall fd | fd in interest :: 0 <= fd < |cnt| && fd !in refused)
      && evtlistCnt == |interest|
      && lost !in interest
      && forall fd | 0 <= fd < |cnt| && fd != lost ::
          if rev[fd].Empty() then Follows(interest, fd, cnt[fd].Bits()) else fd in interest
    }

    ghost predicate Quiet()
      reads this
    {
      forall fd | 0 <= fd < |rev| :: rev[fd].Empty()
    }

    ghost predicate Valid()
      reads this
    {
      && Kernel(-1) && Quiet() && ValidQ(ioQ, |cnt|) && Mirrors(cnt, ioQ)
      && evtlistCnt <= evtlistSize && evtlistSize > 0
    }

    // -------------------------------------------------------------- pollset_del

    /** Brings the kernel in line with the counts of fd, after they changed from old events. */
    method UpdateKernel(fd: int, oldEvents: Events, ghost lost: int)
      requires |rev| == |cnt| && 0 <= fd < |cnt|
      requires forall k | k in interest :: 0 <= k < |cnt| && k !in refused
      requires evtlistCnt == |interest| && lost !in interest
      requires rev[fd].Empty() && fd != lost ==>
        if oldEvents.Empty() then fd !in interest && cnt[fd].Bits().Empty() else fd in interest && interest[fd] == oldEvents
      requires forall k | 0 <= k < |cnt| && k != lost && k != fd ::
        if rev[k].Empty() then Follows(interest, k, cnt[k].Bits()) else k in interest
      requires !rev[fd].Empty() && fd != lost ==> fd in interest
      modifies `interest, `evtlistCnt
      ensures |cnt| > 0 ==> Kernel(lost)
      ensures evtlistCnt <= old(evtlistCnt)
    {
      var events := cnt[fd].Bits();
      if events != oldEvents && rev[fd].Empty() {
        if !events.Empty() {
          if fd in interest {
            AddKeyCard(interest, fd, events);
          }
          var ok := CtlMod(fd, events);
        } else {
          if fd in interest {
            DropKeyCard(interest, fd);
          }
          var ok := CtlDel(fd);
          if ok {
            evtlistCnt := evtlistCnt - 1;
          }
        }
      }
    }

    method PollsetDel(pds: seq<PollFd>, ghost base: seq<Counts>, ghost lost: int)
      requires Kernel(lost) && ValidPds(pds, |cnt|) && |base| == |cnt|
      requires forall fd | 0 <= fd < |cnt| :: cnt[fd] == base[fd].Plus(Demand(pds, fd))
      requires NonNegative(base)
      modifies `cnt, `interest, `evtlistCnt
      ensures Kernel(lost) && cnt == base && evtlistCnt <= old(evtlistCnt)
    {
      hide Follows;
      var i := 0;
      while i < |pds|
        invariant 0 <= i <= |pds| && |cnt| == |base| && Kernel(lost) && evtlistCnt <= old(evtlistCnt)
        invariant forall fd | 0 <= fd < |cnt| :: cnt[fd] == base[fd].Plus(Demand(pds, fd)).Minus(Demand(pds[..i], fd))
      {
        DemandPrefix(pds, i, pds[i].fd);
        DemandStep(pds, i);
        RemoveOne(pds[i], lost);
        i := i + 1;
      }
      assert pds[..i] == pds;
      assert forall fd | 0 <= fd < |cnt| :: cnt[fd] == base[fd];
    }

    /** Removes what Tally added. */
    method RemoveTallied(pds: seq<PollFd>, ghost base: seq<Counts>, ghost lost: int)
      requires Kernel(lost) && ValidPds(pds, |base|) && cnt == Tally(base, pds) && NonNegative(base)
      modifies `cnt, `interest, `evtlistCnt
      ensures Kernel(lost) && cnt == base && evtlistCnt <= old(evtlistCnt)
    {
      TallyCounts(base, pds);
      PollsetDel(pds, base, lost);
    }

    method RemoveOne(pd: PollFd, ghost lost: int)
      requires Kernel(lost) && ValidPd(pd, |cnt|)
      requires var u := Unit(pd.events); u.rd <= cnt[pd.fd].rd && u.wr <= cnt[pd.fd].wr && u.ex <= cnt[pd.fd].ex
      modifies `cnt, `interest, `evtlistCnt
      ensures Kernel(lost) && cnt == old(cnt)[pd.fd := old(cnt)[pd.fd].Minus(Unit(pd.events))]
      ensures evtlistCnt <= old(evtlistCnt)
    {
      var fd := pd.fd;
      var oldEvents := cnt[fd].Bits();
      var c := cnt[fd];
      if pd.events.rd {
        c := c.(rd := c.rd - 1);
      }
      if pd.events.wr {
        c := c.(wr := c.wr - 1);
      }
      if pd.events.pri {
        c := c.(ex := c.ex - 1);
      }
      assert c == cnt[fd].Minus(Unit(pd.events));
      cnt := cnt[fd := c];
      UpdateKernel(fd, oldEvents, lost);
    }

    // -------------------------------------------------------------- pollset_add

    /** The table grows by doubling until it has an entry for fd. */
    method Expand(fd: nat)
      requires Kernel(-1) && Quiet() && |cnt| <= fd
      modifies `cnt, `rev
      ensures Kernel(-1) && Quiet()
      ensures fd < |cnt| && Grown(old(cnt), cnt)
    {
      var n := |cnt|;
      while fd >= n
        invariant n >= |cnt| > 0
        decreases fd - n
      {
        n := 2 * n;
      }
      ghost var c0 := cnt;
      assert forall k | 0 <= k < |cnt| :: Follows(interest, k, cnt[k].Bits());
      cnt := cnt + seq(n - |cnt|, _ => ZERO);
      rev := rev + seq(n - |rev|, _ => NOTHING);
      forall k | 0 <= k < |cnt|
        ensures rev[k].Empty() && Follows(interest, k, cnt[k].Bits())
      {
        assert k < |c0| ==> cnt[k] == c0[k];
      }
    }

    method EvtlistExpand()
      requires 0 < evtlistSize < evtlistCnt
      modifies `evtlistSize
      ensures evtlistCnt <= evtlistSize
    {
      var n := evtlistSize;
      while evtlistCnt > n
        invariant n > 0
        decreases evtlistCnt - n
      {
        n := 2 * n;
      }
      evtlistSize := n;
    }

    /** Counts one descriptor; the kernel is told if the events of interest change. */
    method AddOne(pd: PollFd) returns (failed: bool)
      requires Kernel(-1) && Quiet() && ValidPd(pd, |cnt|) && NonNegative(cnt)
      requires evtlistCnt <= evtlistSize && evtlistSize > 0
      modifies `cnt, `interest, `evtlistCnt, `evtlistSize
      ensures cnt == old(cnt)[pd.fd := old(cnt)[pd.fd].Plus(Unit(pd.events))] && NonNegative(cnt)
      ensures failed == (pd.fd in refused)
      ensures Kernel(if failed then pd.fd else -1)
      ensures evtlistCnt <= evtlistSize && evtlistSize > 0
    {
      var fd := pd.fd;
      assert Follows(interest, fd, cnt[fd].Bits());
      var oldEvents := cnt[fd].Bits();
      var c := cnt[fd];
      if pd.events.rd {
        c := c.(rd := c.rd + 1);
      }
      if pd.events.wr {
        c := c.(wr := c.wr + 1);
      }
      if pd.events.pri {
        c := c.(ex := c.ex + 1);
      }
      assert c == cnt[fd].Plus(Unit(pd.events)) && !c.Bits().Empty();
      cnt := cnt[fd := c];
      assert forall k | 0 <= k < |cnt| && k != fd :: Follows(interest, k, cnt[k].Bits());
      failed := TellKernel(fd, oldEvents);
    }

    method TellKernel(fd: int, oldEvents: Events) returns (failed: bool)
      requires |rev| == |cnt| && 0 <= fd < |cnt| && Quiet() && !cnt[fd].Bits().Empty()
      requires forall k | k in interest :: 0 <= k < |cnt| && k !in refused
      requires evtlistCnt == |interest| <= evtlistSize && evtlistSize > 0
      requires if oldEvents.Empty() then fd !in interest else fd in interest && interest[fd] == oldEvents
      requires forall k | 0 <= k < |cnt| && k != fd :: Follows(interest, k, cnt[k].Bits())
      modifies `interest, `evtlistCnt, `evtlistSize
      ensures failed == (fd in refused)
      ensures Kernel(if failed then fd else -1)
      ensures evtlistCnt <= evtlistSize && evtlistSize > 0
    {
      failed := false;
      var events := cnt[fd].Bits();
      if events != oldEvents {
        AddKeyCard(interest, fd, events);
        if !oldEvents.Empty() {
          var ok := CtlMod(fd, events);
          failed := !ok;
          assert forall k | 0 <= k < |cnt| :: Follows(interest, k, cnt[k].Bits());
        } else {
          var r := CtlAdd(fd, events);
          if r == Refused {
            return true;
          }
          assert forall k | 0 <= k < |cnt| :: Follows(interest, k, cnt[k].Bits());
          evtlistCnt := evtlistCnt + 1;
          if evtlistCnt > evtlistSize {
            EvtlistExpand();
          }
        }
      }
    }

    method CheckAll(pds: seq<PollFd>) returns (ok: bool)
      requires Kernel(-1) && Quiet()
      modifies `cnt, `rev
      ensures Kernel(-1) && Quiet()
      ensures ok ==> ValidPds(pds, |cnt|)
      ensures !ok ==> exists i | 0 <= i < |pds| :: pds[i].fd < 0 || pds[i].events.Empty() || pds[i].other
      ensures Grown(old(cnt), cnt)
      ensures ValidPds(pds, |old(cnt)|) ==> cnt == old(cnt)
    {
      for i := 0 to |pds|
        invariant Kernel(-1) && Quiet()
        invariant forall j | 0 <= j < i :: ValidPd(pds[j], |cnt|)
        invariant Grown(old(cnt), cnt)
        invariant ValidPds(pds, |old(cnt)|) ==> cnt == old(cnt)
      {
        assert ValidPds(pds, |old(cnt)|) ==> ValidPd(pds[i], |old(cnt)|);
        if pds[i].fd < 0 || pds[i].events.Empty() || pds[i].other {
          return false;
        }
        if pds[i].fd >= |cnt| {
          Expand(pds[i].fd);
        }
      }
      return true;
    }

    ghost predicate Roomy()
      reads `evtlistCnt, `evtlistSize
    {
      evtlistCnt <= evtlistSize && evtlistSize > 0
    }

    /** Either every descriptor is counted and the kernel knows, or nothing has changed: a
        descriptor that the kernel refuses undoes those before it. */
    method PollsetAdd(pds: seq<PollFd>) returns (ok: bool)
      requires Kernel(-1) && Quiet() && NonNegative(cnt) && Roomy()
      modifies `cnt, `rev, `interest, `evtlistCnt, `evtlistSize
      ensures Kernel(-1) && Quiet() && Roomy()
      ensures |old(cnt)| <= |cnt| && (ValidPds(pds, |old(cnt)|) ==> |cnt| == |old(cnt)|)
      ensures ok <==> Acceptable(pds, refused)
      ensures ok ==> ValidPds(pds, |cnt|)
      ensures Recounted(old(cnt), cnt, if ok then pds else [])
    {
      ghost var c0 := cnt;
      ok := CheckAll(pds);
      ghost var base := cnt;
      if ok {
        ok := AddAll(pds);
      }
      RecountedTally(c0, base, if ok then pds else []);
    }

    method AddAll(pds: seq<PollFd>) returns (ok: bool)
      requires Kernel(-1) && Quiet() && NonNegative(cnt) && Roomy() && ValidPds(pds, |cnt|)
      modifies `cnt, `interest, `evtlistCnt, `evtlistSize
      ensures Kernel(-1) && Roomy()
      ensures ok <==> forall i | 0 <= i < |pds| :: pds[i].fd !in refused
      ensures cnt == if ok then Tally(old(cnt), pds) else old(cnt)
    {
      ghost var base := cnt;
      assert Tally(base, pds[..0]) == base;
      hide Kernel, Quiet, NonNegative, Tally;
      var i := 0;
      while i < |pds|
        invariant 0 <= i <= |pds| && Kernel(-1) && NonNegative(cnt) && Roomy() && cnt == Tally(base, pds[..i])
        invariant forall j | 0 <= j < i :: pds[j].fd !in refused
      {
        var failed := AddNext(pds, i, base);
        if failed {
          return false;
        }
        assert pds[i].fd !in refused;
        i := i + 1;
      }
      assert pds[..i] == pds;
      return true;
    }

    /** Adds entry i, or undoes the first i if the kernel refuses it. */
    method AddNext(pds: seq<PollFd>, i: nat, ghost base: seq<Counts>) returns (failed: bool)
      requires i < |pds| && ValidPds(pds, |base|) && NonNegative(base)
      requires Kernel(-1) && Quiet() && NonNegative(cnt) && Roomy() && cnt == Tally(base, pds[..i])
      modifies `cnt, `interest, `evtlistCnt, `evtlistSize
      ensures Kernel(-1) && Roomy()
      ensures failed == (pds[i].fd in refused)
      ensures if failed then cnt == base else NonNegative(cnt) && cnt == Tally(base, pds[..i + 1])
    {
      var fd := pds[i].fd;
      assert Follows(interest, fd, cnt[fd].Bits());
      NobodyYet(base, pds[..i], fd);
      assert pds[..i + 1][..i] == pds[..i];
      failed := AddOne(pds[i]);
      if failed {
        Unroll(pds[..i + 1], fd, base);
      }
    }

    /** pollset_add failed at its last entry: the counts go back to base. */
    method Unroll(pds: seq<PollFd>, ghost lost: int, ghost base: seq<Counts>)
      requires ValidPds(pds, |base|) && 0 <= lost < |base|
      requires Kernel(lost) && Quiet() && NonNegative(base)
      requires cnt == Tally(base, pds) && base[lost].Bits().Empty()
      modifies `cnt, `interest, `evtlistCnt
      ensures Kernel(-1) && cnt == base && evtlistCnt <= old(evtlistCnt)
    {
      assert |cnt| == |base| by {
        TallyCounts(base, pds);
      }
      RemoveTallied(pds, base, lost);
      NothingLost(lost);
    }

    /** A descriptor that the kernel does not know and nobody waits for is no exception. */
    lemma NothingLost(lost: int)
      requires Kernel(lost) && Quiet() && 0 <= lost < |cnt| && cnt[lost].Bits().Empty()
      ensures Kernel(-1)
    {
      assert Follows(interest, lost, cnt[lost].Bits());
    }

    // -------------------------------------------------------------- requests

    /** A poll request joins the queue if all of its descriptors are accepted. */
    method Register(pq: PollQ) returns (ok: bool)
      requires Valid()
      modifies this
      ensures Valid()
      ensures ok <==> Acceptable(pq.pds, refused)
      ensures ioQ == if ok then old(ioQ) + [pq] else old(ioQ)
    {
      CountsNonNegative(cnt, ioQ);
      ghost var c0, q0 := cnt, ioQ;
      ok := PollsetAdd(pq.pds);
      if ok {
        ioQ := ioQ + [pq];
        CountsAfterAdd(c0, cnt, q0, pq);
      } else {
        CountsAfterNone(c0, cnt, q0);
      }
    }

    /** A poll that timed out or was interrupted leaves the system. */
    method Unregister(i: nat)
      requires Valid() && i < |ioQ|
      modifies `cnt, `interest, `evtlistCnt, `ioQ
      ensures Valid()
      ensures ioQ == old(ioQ)[..i] + old(ioQ)[i + 1..]
    {
      Unlink(ioQ, i);
      ioQ := ioQ[..i] + ioQ[i + 1..];
    }

    /** The descriptors of poll k of the queue are counted down. */
    method Unlink(q: seq<PollQ>, k: nat)
      requires Kernel(-1) && ValidQ(q, |cnt|) && Mirrors(cnt, q) && k < |q|
      modifies `cnt, `interest, `evtlistCnt
      ensures Kernel(-1) && |cnt| == |old(cnt)| && Mirrors(cnt, q[..k] + q[k + 1..]) && evtlistCnt <= old(evtlistCnt)
    {
      ghost var rest := q[..k] + q[k + 1..];
      ghost var base := DemandTable(rest, |cnt|);
      forall fd | 0 <= fd < |cnt|
        ensures cnt[fd] == base[fd].Plus(Demand(q[k].pds, fd))
        ensures base[fd].rd >= 0 && base[fd].wr >= 0 && base[fd].ex >= 0
      {
        DemandQRemove(q, k, fd);
        DemandQNonNegative(rest, fd);
      }
      assert q[k] in q;
      PollsetDel(q[k].pds, base, -1);
    }

    // -------------------------------------------------------------- fork

    lemma QueueAcceptable(k: nat)
      requires Kernel(-1) && Quiet() && ValidQ(ioQ, |cnt|) && Mirrors(cnt, ioQ) && k < |ioQ|
      ensures Acceptable(ioQ[k].pds, refused) && ValidPds(ioQ[k].pds, |cnt|)
    {
      var pds := ioQ[k].pds;
      assert ioQ[k] in ioQ;
      forall i | 0 <= i < |pds|
        ensures pds[i].fd !in refused
      {
        assert ValidPd(pds[i], |cnt|);
        DemandQSeen(ioQ, k, i);
        assert Follows(interest, pds[i].fd, cnt[pds[i].fd].Bits());
      }
    }

    /** Between calls the interest of the kernel is a function of the counts. */
    lemma SameInterest(m: map<int, Events>)
      requires Kernel(-1) && Quiet()
      requires forall fd | fd in m :: 0 <= fd < |cnt|
      requires forall fd | 0 <= fd < |cnt| :: Follows(m, fd, cnt[fd].Bits())
      ensures interest == m
    {
      forall fd
        ensures fd in m <==> fd in interest
        ensures fd in m && fd in interest ==> m[fd] == interest[fd]
      {
        if 0 <= fd < |cnt| {
          assert Follows(m, fd, cnt[fd].Bits()) && Follows(interest, fd, cnt[fd].Bits());
        }
      }
    }

    /** The child of a fork has its own, empty kernel set and counts every queued poll again. It ends
        up with exactly the counts and the interest that the parent had. */
    method Rebuild()
      requires Valid()
      modifies `cnt, `rev, `interest, `evtlistCnt, `evtlistSize
      ensures Valid() && cnt == old(cnt) && interest == old(interest)
    {
      ghost var c0, m0 := cnt, interest;
      forall k | 0 <= k < |ioQ|
        ensures Acceptable(ioQ[k].pds, refused)
      {
        QueueAcceptable(k);
      }
      assert forall fd | 0 <= fd < |c0| :: Follows(m0, fd, c0[fd].Bits());
      Clear();
      ReAddAll();
      SameCounts(c0, cnt, ioQ);
      SameInterest(m0);
    }

    /** Nobody is registered yet. */
    method Clear()
      requires |rev| == |cnt| > 0 && evtlistSize > 0
      modifies `cnt, `rev, `interest, `evtlistCnt
      ensures Kernel(-1) && Quiet() && Roomy() && |cnt| == |old(cnt)| && Mirrors(cnt, [])
    {
      interest := map[];
      cnt := seq(|cnt|, _ => ZERO);
      rev := seq(|rev|, _ => NOTHING);
      evtlistCnt := 0;
    }

    /** Puts all descriptors of the queue into the new set. */
    method ReAddAll()
      requires Kernel(-1) && Quiet() && Roomy() && Mirrors(cnt, []) && ValidQ(ioQ, |cnt|)
      requires forall k | 0 <= k < |ioQ| :: Acceptable(ioQ[k].pds, refused)
      modifies `cnt, `rev, `interest, `evtlistCnt, `evtlistSize
      ensures Kernel(-1) && Quiet() && Roomy() && |cnt| == |old(cnt)| && Mirrors(cnt, ioQ)
    {
      for i := 0 to |ioQ|
        invariant Kernel(-1) && Quiet() && Roomy() && |cnt| == |old(cnt)| && Mirrors(cnt, ioQ[..i])
      {
        assert ValidQ(ioQ[..i], |cnt|) && ioQ[i] in ioQ;
        ReAdd(i);
      }
      assert ioQ[..|ioQ|] == ioQ;
    }

    method ReAdd(i: nat)
      requires Kernel(-1) && Quiet() && Roomy() && i < |ioQ| && Mirrors(cnt, ioQ[..i]) && ValidQ(ioQ[..i], |cnt|)
      requires Acceptable(ioQ[i].pds, refused) && ValidPds(ioQ[i].pds, |cnt|)
      modifies `cnt, `rev, `interest, `evtlistCnt, `evtlistSize
      ensures Kernel(-1) && Quiet() && Roomy() && |cnt| == |old(cnt)| && Mirrors(cnt, ioQ[..i + 1])
    {
      ghost var c0 := cnt;
      CountsNonNegative(cnt, ioQ[..i]);
      var ok := PollsetAdd(ioQ[i].pds);
      assert ioQ[..i + 1] == ioQ[..i] + [ioQ[i]];
      CountsAfterAdd(c0, cnt, ioQ[..i], ioQ[i]);
    }

    // -------------------------------------------------------------- dispatch

    /** The stored revents tell every entry of the polls in q what the widened readiness says. */
    ghost predicate Shown(q: seq<PollQ>, ready: Readiness)
      reads `rev
    {
      forall k, i | 0 <= k < |q| && 0 <= i < |q[k].pds| :: ShownAt(q[k].pds[i], ready)
    }

    ghost predicate ShownAt(pd: PollFd, ready: Readiness)
      reads `rev
    {
      0 <= pd.fd < |rev| && ReadOff(pd, rev[pd.fd]) == Answer(pd, Widened(ready))
    }
    /** One call of the dispatch function; fired is the order in which the kernel reports. */
    method Dispatch(ready: Readiness, forked: bool, fired: seq<int>) returns (woken: seq<Wake>)
      requires Valid() && Report(fired, interest, ready)
      modifies `cnt, `rev, `interest, `evtlistCnt, `evtlistSize, `ioQ
      ensures Valid()
      ensures woken == Woken(old(ioQ), Widened(ready)) && ioQ == Left(old(ioQ), Widened(ready))
      ensures Parted(old(ioQ), woken, ioQ)
      ensures forall w | w in woken :: EpollTells(w, ready) && PollFinds(w.pq, ready)
      ensures forall pq | pq in ioQ :: !PollFinds(pq, ready)
    {
      EpollIsTold(ioQ, ready);
      hide EpollTells, PollFinds, Parted;
      if forked {
        Rebuild();
      }
      ReportFits(fired, interest, ready);
      assert |fired| <= evtlistSize;
      Store(fired, ready);
      if |fired| > 0 {
        woken := Notify(ready);
        Settle(fired);
      } else {
        woken := [];
        NothingShown(ready);
      }
    }

    /** The stored revents of fd are what the kernel said about it. */
    ghost predicate Stored(fd: int, ready: Readiness)
      requires 0 <= fd < |rev| == |cnt|
      reads `rev, `cnt
    {
      var e := cnt[fd].Bits();
      rev[fd] == if e.Empty() then NOTHING else OnError(Masked(e, ready(fd)), e)
    }

    /** Copies the report of the kernel into the table. */
    method Store(fired: seq<int>, ready: Readiness)
      requires Valid() && Report(fired, interest, ready)
      modifies `rev
      ensures Kernel(-1) && Shown(ioQ, ready)
      ensures forall fd | 0 <= fd < |rev| && fd !in fired :: rev[fd].Empty()
    {
      ghost var n := |rev|;
      assert forall fd | fd in fired :: fd in interest;
      for i := 0 to |fired|
        invariant Kernel(-1) && |rev| == n
        invariant forall fd | 0 <= fd < n :: if fd in fired[..i] then Stored(fd, ready) else rev[fd].Empty()
      {
        assert fired[i] in fired && fired[..i + 1] == fired[..i] + [fired[i]];
        StoreOne(fired[i], ready);
      }
      assert fired[..|fired|] == fired;
      StoredShown(fired, ready);
    }

    method StoreOne(fd: int, ready: Readiness)
      requires Kernel(-1) && fd in interest && 0 <= fd < |cnt| && !Masked(interest[fd], ready(fd)).Empty()
      requires rev[fd].Empty()
      modifies `rev
      ensures Kernel(-1) && Stored(fd, ready) && rev == old(rev)[fd := rev[fd]]
    {
      assert Follows(interest, fd, cnt[fd].Bits());
      var r := Masked(interest[fd], ready(fd));
      rev := rev[fd := OnError(r, cnt[fd].Bits())];
    }

    lemma StoredShown(fired: seq<int>, ready: Readiness)
      requires |rev| == |cnt| && ValidQ(ioQ, |cnt|) && Mirrors(cnt, ioQ) && Report(fired, interest, ready)
      requires forall fd | 0 <= fd < |cnt| :: Follows(interest, fd, cnt[fd].Bits())
      requires forall fd | 0 <= fd < |rev| :: if fd in fired then Stored(fd, ready) else rev[fd].Empty()
      ensures Shown(ioQ, ready)
    {
      forall k, i | 0 <= k < |ioQ| && 0 <= i < |ioQ[k].pds|
        ensures ShownAt(ioQ[k].pds[i], ready)
      {
        var pd := ioQ[k].pds[i];
        assert ioQ[k] in ioQ;
        assert ValidPd(pd, |cnt|);
        DemandQSeen(ioQ, k, i);
        assert Follows(interest, pd.fd, cnt[pd.fd].Bits());
        ReadsBack(pd, cnt[pd.fd].Bits(), ready);
      }
    }

    /** Nothing was reported, so nobody is to be woken. */
    lemma NothingShown(ready: Readiness)
      requires Shown(ioQ, ready) && forall fd | 0 <= fd < |rev| :: rev[fd].Empty()
      ensures Woken(ioQ, Widened(ready)) == [] && Left(ioQ, Widened(ready)) == ioQ
    {
      forall pq | pq in ioQ
        ensures !Fires(pq, Widened(ready))
      {
        var k :| 0 <= k < |ioQ| && ioQ[k] == pq;
        assert forall i | 0 <= i < |pq.pds| :: ShownAt(ioQ[k].pds[i], ready);
      }
      NothingToWake(ioQ, Widened(ready));
    }

    /** Examines one queued poll against the stored revents. */
    method Scan(pds: seq<PollFd>, ghost ready: Readiness) returns (revents: seq<Revents>, notify: bool)
      requires forall i | 0 <= i < |pds| :: ShownAt(pds[i], ready)
      ensures revents == Answers(pds, Widened(ready))
      ensures notify <==> Fires(PollQ(0, pds), Widened(ready))
    {
      revents, notify := [], false;
      for i := 0 to |pds|
        invariant |revents| == i && forall j | 0 <= j < i :: revents[j] == Answer(pds[j], Widened(ready))
        invariant notify <==> exists j | 0 <= j < i :: !Answer(pds[j], Widened(ready)).Empty()
      {
        var pd := pds[i];
        assert ShownAt(pd, ready);
        if rev[pd.fd].Empty() {
          revents := revents + [NOTHING];
        } else {
          var r := ReadOff(pd, rev[pd.fd]);
          revents := revents + [r];
          if !r.Empty() {
            notify := true;
          }
        }
      }
    }

    /** Dispatch has gone through the first i polls of the queue q. */
    ghost predicate Midway(q: seq<PollQ>, i: nat, left: seq<PollQ>, woken: seq<Wake>, ready: Readiness)
      reads this
    {
      && i <= |q| && Kernel(-1) && Roomy() && ValidQ(left + q[i..], |cnt|) && Mirrors(cnt, left + q[i..])
      && woken == Woken(q[..i], Widened(ready)) && left == Left(q[..i], Widened(ready))
    }

    method Notify(ghost ready: Readiness) returns (woken: seq<Wake>)
      requires Kernel(-1) && Roomy() && ValidQ(ioQ, |cnt|) && Mirrors(cnt, ioQ) && Shown(ioQ, ready)
      modifies `cnt, `interest, `evtlistCnt, `ioQ
      ensures Kernel(-1) && Roomy() && ValidQ(ioQ, |cnt|) && Mirrors(cnt, ioQ)
      ensures woken == Woken(old(ioQ), Widened(ready)) && ioQ == Left(old(ioQ), Widened(ready))
    {
      var q := ioQ;
      var left: seq<PollQ> := [];
      woken := [];
      assert left + q[0..] == q;
      for i := 0 to |q|
        invariant Midway(q, i, left, woken, ready) && |cnt| == |rev|
      {
        woken, left := NotifyStep(q, i, left, woken, ready);
      }
      ioQ := left;
      assert q[..|q|] == q && left + q[|q|..] == left;
    }

    method NotifyStep(q: seq<PollQ>, i: nat, left: seq<PollQ>, woken: seq<Wake>, ghost ready: Readiness)
        returns (woken': seq<Wake>, left': seq<PollQ>)
      requires i < |q| && Midway(q, i, left, woken, ready) && Shown(q, ready)
      modifies `cnt, `interest, `evtlistCnt
      ensures Midway(q, i + 1, left', woken', ready)
    {
      WokenStep(q, i, Widened(ready));
      InTheMiddle(left, q, i);
      assert forall j | 0 <= j < |q[i].pds| :: ShownAt(q[i].pds[j], ready);
      var revents, notify := Scan(q[i].pds, ready);
      if notify {
        Unlink(left + q[i..], |left|);
        woken', left' := woken + [Wake(q[i], revents)], left;
      } else {
        woken', left' := woken, left + [q[i]];
      }
    }

    /** Forgets the stored revents and makes up for the kernel updates that were put off. */
    method Settle(fired: seq<int>)
      requires Kernel(-1) && Roomy()
      requires forall fd | fd in fired :: 0 <= fd < |rev|
      requires forall fd | 0 <= fd < |rev| && fd !in fired :: rev[fd].Empty()
      modifies `rev, `interest, `evtlistCnt
      ensures Kernel(-1) && Quiet() && Roomy()
    {
      assert fired[0..] == fired;
      for i := 0 to |fired|
        invariant Kernel(-1) && Roomy()
        invariant forall fd | 0 <= fd < |rev| && fd !in fired[i..] :: rev[fd].Empty()
      {
        assert fired[i] in fired && fired[i..] == [fired[i]] + fired[i + 1..];
        SettleOne(fired[i]);
      }
    }

    method SettleOne(fd: int)
      requires Kernel(-1) && 0 <= fd < |rev|
      modifies `rev, `interest, `evtlistCnt
      ensures Kernel(-1) && rev == old(rev)[fd := NOTHING] && evtlistCnt <= old(evtlistCnt)
    {
      rev := rev[fd := NOTHING];
      var events := cnt[fd].Bits();
      if !events.Empty() {
        if fd in interest {
          AddKeyCard(interest, fd, events);
        }
        var ok := CtlMod(fd, events);
      } else {
        if fd in interest {
          DropKeyCard(interest, fd);
        }
        var ok := CtlDel(fd);
        if ok {
          evtlistCnt := evtlistCnt - 1;
        }
      }
    }
  }
}
