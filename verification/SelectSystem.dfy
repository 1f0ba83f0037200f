/** The select event system: per-descriptor reference counts and three descriptor sets. */
module SelectSystem {
  import opened EventSpec

  const FD_SETSIZE := 1024

  /** The three sets that select() leaves behind hold, of what it was asked, what is ready. */
  ghost predicate Reports(r: set<int>, w: set<int>, e: set<int>, q: seq<PollQ>, ready: Readiness) {
    forall pq, pd | pq in q && pd in pq.pds ::
      && (pd.events.rd ==> (pd.fd in r <==> ready(pd.fd).rd))
      && (pd.events.wr ==> (pd.fd in w <==> ready(pd.fd).wr))
      && (pd.events.pri ==> (pd.fd in e <==> ready(pd.fd).pri))
      && !ready(pd.fd).err && !ready(pd.fd).hup
  }

  lemma NothingPaid(d: Counts, x: Counts)
    ensures d.Minus(ZERO).Plus(x) == d.Plus(x)
  {
  }

  lemma AllPaid(d: Counts, x: Counts)
    ensures d.Minus(d).Plus(x) == x
  {
  }

  class Select {
    const cnt: array<Counts>
    var rdSet: set<int>
    var wrSet: set<int>
    var exSet: set<int>
    var maxFd: int
    var ioQ: seq<PollQ>

    /** Each set holds exactly the descriptors with a positive count. */
    ghost predicate SetsMirror()
      reads this, cnt
    {
      && (forall fd :: fd in rdSet <==> 0 <= fd < cnt.Length && cnt[fd].rd > 0)
      && (forall fd :: fd in wrSet <==> 0 <= fd < cnt.Length && cnt[fd].wr > 0)
      && (forall fd :: fd in exSet <==> 0 <= fd < cnt.Length && cnt[fd].ex > 0)
    }

    ghost predicate Bounds(q: seq<PollQ>)
      reads this
    {
      forall pq, pd | pq in q && pd in pq.pds :: pd.fd <= maxFd
    }

    ghost predicate Counted(q: seq<PollQ>)
      reads this, cnt
    {
      cnt.Length == FD_SETSIZE && ValidQ(q, FD_SETSIZE) && Mirrors(cnt[..], q) && SetsMirror()
    }

    ghost predicate Valid()
      reads this, cnt
    {
      Counted(ioQ) && Bounds(ioQ)
    }

    constructor ()
      ensures Valid() && ioQ == [] && fresh(cnt)
    {
      cnt := new Counts[FD_SETSIZE](_ => ZERO);
      rdSet, wrSet, exSet, maxFd, ioQ := {}, {}, {}, -1, [];
    }

    /** Checks all descriptors before it counts any. */
    method PollsetAdd(pds: seq<PollFd>) returns (ok: bool)
      requires cnt.Length == FD_SETSIZE && SetsMirror()
      requires forall fd | 0 <= fd < cnt.Length :: cnt[fd].rd >= 0 && cnt[fd].wr >= 0 && cnt[fd].ex >= 0
      modifies `rdSet, `wrSet, `exSet, `maxFd, cnt
      ensures ok <==> ValidPds(pds, FD_SETSIZE)
      ensures SetsMirror() && maxFd >= old(maxFd)
      ensures !ok ==> maxFd == old(maxFd) && cnt[..] == old(cnt[..])
      ensures ok ==> forall i | 0 <= i < |pds| :: pds[i].fd <= maxFd
      ensures ok ==> forall fd | 0 <= fd < cnt.Length :: cnt[fd] == old(cnt[..])[fd].Plus(Demand(pds, fd))
    {
      ok := Check(pds);
      if !ok {
        return;
      }
      CountAll(pds);
    }

    method CountAll(pds: seq<PollFd>)
      requires cnt.Length == FD_SETSIZE && SetsMirror() && ValidPds(pds, FD_SETSIZE)
      requires forall fd | 0 <= fd < cnt.Length :: cnt[fd].rd >= 0 && cnt[fd].wr >= 0 && cnt[fd].ex >= 0
      modifies `rdSet, `wrSet, `exSet, `maxFd, cnt
      ensures SetsMirror() && maxFd >= old(maxFd)
      ensures forall i | 0 <= i < |pds| :: pds[i].fd <= maxFd
      ensures forall fd | 0 <= fd < cnt.Length :: cnt[fd] == old(cnt[..])[fd].Plus(Demand(pds, fd))
    {
      ghost var c0 := cnt[..];
      var i := 0;
      while i < |pds|
        invariant 0 <= i <= |pds| && SetsMirror() && maxFd >= old(maxFd)
        invariant forall j | 0 <= j < i :: pds[j].fd <= maxFd
        invariant forall fd | 0 <= fd < cnt.Length :: cnt[fd] == c0[fd].Plus(Demand(pds[..i], fd))
      {
        DemandsNonNegative(pds[..i]);
        DemandStep(pds, i);
        CountUp(pds[i]);
        i := i + 1;
      }
      assert pds[..i] == pds;
    }

    method Check(pds: seq<PollFd>) returns (ok: bool)
      ensures ok <==> ValidPds(pds, FD_SETSIZE)
    {
      for i := 0 to |pds|
        invariant forall j | 0 <= j < i :: ValidPd(pds[j], FD_SETSIZE)
      {
        if pds[i].fd < 0 || pds[i].fd >= FD_SETSIZE || pds[i].events.Empty() || pds[i].other {
          return false;
        }
      }
      return true;
    }

    method CountUp(pd: PollFd)
      requires cnt.Length == FD_SETSIZE && ValidPd(pd, FD_SETSIZE) && SetsMirror()
      requires cnt[pd.fd].rd >= 0 && cnt[pd.fd].wr >= 0 && cnt[pd.fd].ex >= 0
      modifies `rdSet, `wrSet, `exSet, `maxFd, cnt
      ensures SetsMirror() && cnt[..] == old(cnt[..])[pd.fd := old(cnt[pd.fd]).Plus(Unit(pd.events))]
      ensures maxFd == if old(maxFd) < pd.fd then pd.fd else old(maxFd)
    {
      var c := cnt[pd.fd];
      if pd.events.rd {
        rdSet := rdSet + {pd.fd};
        c := c.(rd := c.rd + 1);
      }
      if pd.events.wr {
        wrSet := wrSet + {pd.fd};
        c := c.(wr := c.wr + 1);
      }
      if pd.events.pri {
        exSet := exSet + {pd.fd};
        c := c.(ex := c.ex + 1);
      }
      cnt[pd.fd] := c;
      if maxFd < pd.fd {
        maxFd := pd.fd;
      }
    }

    method CountDown(pd: PollFd)
      requires cnt.Length == FD_SETSIZE && ValidPd(pd, FD_SETSIZE) && SetsMirror()
      requires var u := Unit(pd.events); u.rd <= cnt[pd.fd].rd && u.wr <= cnt[pd.fd].wr && u.ex <= cnt[pd.fd].ex
      modifies `rdSet, `wrSet, `exSet, cnt
      ensures SetsMirror() && cnt[..] == old(cnt[..])[pd.fd := old(cnt[pd.fd]).Minus(Unit(pd.events))]
    {
      var c := cnt[pd.fd];
      if pd.events.rd {
        c := c.(rd := c.rd - 1);
        if c.rd == 0 {
          rdSet := rdSet - {pd.fd};
        }
      }
      if pd.events.wr {
        c := c.(wr := c.wr - 1);
        if c.wr == 0 {
          wrSet := wrSet - {pd.fd};
        }
      }
      if pd.events.pri {
        c := c.(ex := c.ex - 1);
        if c.ex == 0 {
          exSet := exSet - {pd.fd};
        }
      }
      cnt[pd.fd] := c;
    }

    /** The counts a set of descriptors added are taken away again; others, not below rest, stay. */
    method PollsetDel(pds: seq<PollFd>, ghost rest: seq<PollQ>)
      requires cnt.Length == FD_SETSIZE && ValidPds(pds, FD_SETSIZE) && SetsMirror()
      requires forall fd | 0 <= fd < cnt.Length :: cnt[fd] == Demand(pds, fd).Plus(DemandQ(rest, fd))
      modifies `rdSet, `wrSet, `exSet, cnt
      ensures SetsMirror() && Mirrors(cnt[..], rest)
    {
      OwingAll(pds, rest);
      var i := 0;
      while i < |pds|
        invariant 0 <= i <= |pds| && SetsMirror() && Owing(pds, i, rest)
      {
        RemoveNext(pds, i, rest);
        i := i + 1;
      }
      OwingNone(pds, rest);
    }

    lemma OwingAll(pds: seq<PollFd>, rest: seq<PollQ>)
      requires forall fd | 0 <= fd < cnt.Length :: cnt[fd] == Demand(pds, fd).Plus(DemandQ(rest, fd))
      ensures Owing(pds, 0, rest)
    {
      forall fd | 0 <= fd < cnt.Length
        ensures cnt[fd] == Demand(pds, fd).Minus(Demand(pds[..0], fd)).Plus(DemandQ(rest, fd))
      {
        assert Demand(pds[..0], fd) == ZERO;
        NothingPaid(Demand(pds, fd), DemandQ(rest, fd));
      }
    }

    lemma OwingNone(pds: seq<PollFd>, rest: seq<PollQ>)
      requires Owing(pds, |pds|, rest)
      ensures Mirrors(cnt[..], rest)
    {
      assert pds[..|pds|] == pds;
      forall fd | 0 <= fd < cnt.Length
        ensures cnt[..][fd] == DemandQ(rest, fd)
      {
        AllPaid(Demand(pds, fd), DemandQ(rest, fd));
      }
    }

    /** The first i entries of pds have been counted down; those of rest are all still counted. */
    ghost predicate Owing(pds: seq<PollFd>, i: nat, rest: seq<PollQ>)
      requires i <= |pds|
      reads cnt
    {
      forall fd | 0 <= fd < cnt.Length ::
        cnt[fd] == Demand(pds, fd).Minus(Demand(pds[..i], fd)).Plus(DemandQ(rest, fd))
    }

    method RemoveNext(pds: seq<PollFd>, i: nat, ghost rest: seq<PollQ>)
      requires cnt.Length == FD_SETSIZE && i < |pds| && ValidPds(pds, FD_SETSIZE) && SetsMirror()
      requires Owing(pds, i, rest)
      modifies `rdSet, `wrSet, `exSet, cnt
      ensures SetsMirror() && Owing(pds, i + 1, rest)
    {
      ghost var c0 := cnt[..];
      DemandPrefix(pds, i, pds[i].fd);
      DemandQNonNegative(rest, pds[i].fd);
      CountDown(pds[i]);
      DemandStep(pds, i);
      forall fd | 0 <= fd < cnt.Length
        ensures cnt[fd] == Demand(pds, fd).Minus(Demand(pds[..i + 1], fd)).Plus(DemandQ(rest, fd))
      {
        assert cnt[fd] == cnt[..][fd];
      }
    }

    // -------------------------------------------------------------- requests

    /** A poll enters the system: its descriptors are counted and it is put on the I/O queue. */
    method Register(pq: PollQ) returns (ok: bool)
      requires Valid()
      modifies `rdSet, `wrSet, `exSet, `maxFd, `ioQ, cnt
      ensures Valid()
      ensures ok <==> ValidPds(pq.pds, FD_SETSIZE)
      ensures ioQ == if ok then old(ioQ) + [pq] else old(ioQ)
    {
      forall fd | 0 <= fd < cnt.Length
        ensures cnt[fd].rd >= 0 && cnt[fd].wr >= 0 && cnt[fd].ex >= 0
      {
        DemandQNonNegative(ioQ, fd);
        assert cnt[..][fd] == cnt[fd];
      }
      ok := PollsetAdd(pq.pds);
      if ok {
        forall fd | 0 <= fd < cnt.Length
          ensures cnt[fd] == DemandQ(ioQ + [pq], fd)
        {
          DemandQConcat(ioQ, [pq], fd);
          DemandQSingle([pq], fd);
          assert old(cnt[..])[fd] == old(cnt[fd]);
        }
        ioQ := ioQ + [pq];
      }
    }

    /** A poll that timed out or was interrupted leaves the system. */
    method Unregister(i: nat)
      requires Valid() && i < |ioQ|
      modifies `rdSet, `wrSet, `exSet, `ioQ, cnt
      ensures Valid()
      ensures ioQ == old(ioQ)[..i] + old(ioQ)[i + 1..]
    {
      var pq := ioQ[i];
      ghost var rest := ioQ[..i] + ioQ[i + 1..];
      forall fd | 0 <= fd < cnt.Length
        ensures cnt[fd] == Demand(pq.pds, fd).Plus(DemandQ(rest, fd))
      {
        DemandQRemove(ioQ, i, fd);
        assert cnt[..][fd] == cnt[fd];
      }
      PollsetDel(pq.pds, rest);
      ioQ := ioQ[..i] + ioQ[i + 1..];
    }

    // -------------------------------------------------------------- dispatch

    /** Examines one queued poll against the sets select() left behind. */
    method Scan(pds: seq<PollFd>, r: set<int>, w: set<int>, e: set<int>, ghost ready: Readiness)
        returns (revents: seq<Revents>, notify: bool, max: int)
      requires forall pd | pd in pds ::
        && (pd.events.rd ==> (pd.fd in r <==> ready(pd.fd).rd))
        && (pd.events.wr ==> (pd.fd in w <==> ready(pd.fd).wr))
        && (pd.events.pri ==> (pd.fd in e <==> ready(pd.fd).pri))
        && !ready(pd.fd).err && !ready(pd.fd).hup
      ensures revents == Answers(pds, ready)
      ensures notify <==> Fires(PollQ(0, pds), ready)
      ensures forall pd | pd in pds :: pd.fd <= max
    {
      revents, notify, max := [], false, -1;
      for i := 0 to |pds|
        invariant |revents| == i && forall j | 0 <= j < i :: revents[j] == Answer(pds[j], ready)
        invariant notify <==> exists j | 0 <= j < i :: !Answer(pds[j], ready).Empty()
        invariant forall j | 0 <= j < i :: pds[j].fd <= max
      {
        var pd := pds[i];
        assert pd in pds;
        var rev := Revents(pd.events.rd && pd.fd in r, pd.events.wr && pd.fd in w, pd.events.pri && pd.fd in e, false, false);
        assert rev == Answer(pd, ready);
        revents := revents + [rev];
        if !rev.Empty() {
          notify := true;
        }
        if pd.fd > max {
          max := pd.fd;
        }
      }
    }

    lemma SelectReports(ready: Readiness)
      requires Valid() && Plain(ready)
      ensures Reports(
        (set fd | fd in rdSet && fd <= maxFd && ready(fd).rd),
        (set fd | fd in wrSet && fd <= maxFd && ready(fd).wr),
        (set fd | fd in exSet && fd <= maxFd && ready(fd).pri), ioQ, ready)
    {
      forall pq, pd | pq in ioQ && pd in pq.pds
        ensures (pd.events.rd ==> pd.fd in rdSet) && (pd.events.wr ==> pd.fd in wrSet) && (pd.events.pri ==> pd.fd in exSet)
        ensures pd.fd <= maxFd
      {
        var k :| 0 <= k < |ioQ| && ioQ[k] == pq;
        var i :| 0 <= i < |pq.pds| && pq.pds[i] == pd;
        DemandQSeen(ioQ, k, i);
        assert ValidPd(pd, FD_SETSIZE);
        assert cnt[..][pd.fd] == cnt[pd.fd];
      }
    }

    /** One call of the dispatch function: select() is asked about the descriptors up to maxFd. Only its
        three sets come back; that a descriptor is in error shows in them as the kernel likes. */
    method Dispatch(ready: Readiness) returns (woken: seq<Wake>)
      requires Valid()
      modifies `rdSet, `wrSet, `exSet, `maxFd, `ioQ, cnt
      ensures Valid()
      ensures woken == Woken(old(ioQ), InSets(ready)) && ioQ == Left(old(ioQ), InSets(ready))
      ensures Parted(old(ioQ), woken, ioQ)
      ensures forall w | w in woken :: SelectTells(w, ready) && SelectFinds(w.pq, ready)
      ensures forall pq | pq in ioQ :: !SelectFinds(pq, ready)
    {
      SelectIsTold(ioQ, ready);
      ghost var seen := InSets(ready);
      var r := set fd | fd in rdSet && fd <= maxFd && ready(fd).rd;
      var w := set fd | fd in wrSet && fd <= maxFd && ready(fd).wr;
      var e := set fd | fd in exSet && fd <= maxFd && ready(fd).pri;
      assert r == set fd | fd in rdSet && fd <= maxFd && seen(fd).rd;
      assert w == set fd | fd in wrSet && fd <= maxFd && seen(fd).wr;
      assert e == set fd | fd in exSet && fd <= maxFd && seen(fd).pri;
      SelectReports(seen);
      var nfd := |r| + |w| + |e|;
      if nfd > 0 {
        woken := Notify(r, w, e, seen);
      } else {
        woken := [];
        assert r == {} && w == {} && e == {};
        NobodyFires(r, w, e, seen);
        NothingToWake(ioQ, seen);
      }
    }

    lemma NobodyFires(r: set<int>, w: set<int>, e: set<int>, ready: Readiness)
      requires Reports(r, w, e, ioQ, ready) && r == w == e == {}
      ensures forall pq | pq in ioQ :: !Fires(pq, ready)
    {
      forall pq | pq in ioQ
        ensures !Fires(pq, ready)
      {
        forall i | 0 <= i < |pq.pds|
          ensures Answer(pq.pds[i], ready).Empty()
        {
          assert pq.pds[i] in pq.pds;
        }
      }
    }

    method Notify(r: set<int>, w: set<int>, e: set<int>, ghost ready: Readiness) returns (woken: seq<Wake>)
      requires Valid() && Reports(r, w, e, ioQ, ready)
      modifies `rdSet, `wrSet, `exSet, `maxFd, `ioQ, cnt
      ensures Valid()
      ensures woken == Woken(old(ioQ), ready) && ioQ == Left(old(ioQ), ready)
    {
      var q := ioQ;
      var left: seq<PollQ> := [];
      woken, maxFd := [], -1;
      assert left + q[0..] == q;
      for i := 0 to |q|
        invariant Midway(q, i, left, woken, ready)
      {
        woken, left := NotifyStep(q, i, left, woken, r, w, e, ready);
      }
      ioQ := left;
      assert q[..|q|] == q && left + q[|q|..] == left;
    }

    /** Dispatch has gone through the first i polls of the queue q. */
    ghost predicate Midway(q: seq<PollQ>, i: nat, left: seq<PollQ>, woken: seq<Wake>, ready: Readiness)
      reads this, cnt
    {
      && i <= |q| && Counted(left + q[i..]) && Bounds(left)
      && woken == Woken(q[..i], ready) && left == Left(q[..i], ready)
    }

    method NotifyStep(q: seq<PollQ>, i: nat, left: seq<PollQ>, woken: seq<Wake>, r: set<int>, w: set<int>, e: set<int>,
        ghost ready: Readiness) returns (woken': seq<Wake>, left': seq<PollQ>)
      requires i < |q| && Midway(q, i, left, woken, ready) && Reports(r, w, e, q, ready)
      modifies `rdSet, `wrSet, `exSet, `maxFd, cnt
      ensures Midway(q, i + 1, left', woken', ready)
    {
      assert q[i] in q && q[i..] == [q[i]] + q[i + 1..];
      WokenStep(q, i, ready);
      var wakes, stay := NotifyOne(q[i], left, q[i + 1..], r, w, e, ready);
      woken', left' := woken + wakes, left + stay;
    }

    method NotifyOne(pq: PollQ, ghost left: seq<PollQ>, ghost rest: seq<PollQ>, r: set<int>, w: set<int>, e: set<int>,
        ghost ready: Readiness) returns (wakes: seq<Wake>, stay: seq<PollQ>)
      requires Counted(left + ([pq] + rest)) && Bounds(left)
      requires Reports(r, w, e, [pq], ready)
      modifies `rdSet, `wrSet, `exSet, `maxFd, cnt
      ensures Counted(left + stay + rest) && Bounds(left + stay)
      ensures wakes == if Fires(pq, ready) then [Wake(pq, Answers(pq.pds, ready))] else []
      ensures stay == if Fires(pq, ready) then [] else [pq]
    {
      var revents, notify, max := Scan(pq.pds, r, w, e, ready);
      if notify {
        Unlink(pq, left, rest);
        wakes, stay := [Wake(pq, revents)], [];
        assert left + stay + rest == left + rest && left + stay == left;
      } else {
        wakes, stay := [], [pq];
        assert left + stay + rest == left + ([pq] + rest);
        if maxFd < max {
          maxFd := max;
        }
      }
    }

    /** A notified poll leaves the queue and its descriptors are counted down. */
    method Unlink(pq: PollQ, ghost left: seq<PollQ>, ghost rest: seq<PollQ>)
      requires Counted(left + ([pq] + rest))
      modifies `rdSet, `wrSet, `exSet, cnt
      ensures Counted(left + rest)
    {
      ghost var all := left + ([pq] + rest);
      ghost var k := |left|;
      assert all[k] == pq && all[..k] + all[k + 1..] == left + rest;
      forall fd | 0 <= fd < cnt.Length
        ensures cnt[fd] == Demand(pq.pds, fd).Plus(DemandQ(left + rest, fd))
      {
        DemandQRemove(all, k, fd);
        assert cnt[..][fd] == cnt[fd];
      }
      assert pq in all;
      PollsetDel(pq.pds, left + rest);
    }
  }
}
