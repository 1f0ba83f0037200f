/** The poll event system: nothing but a count of queued descriptors; the array handed to poll()
    is gathered from the I/O queue at every dispatch. */
module PollSystem {
  import opened EventSpec

  const MIN_POLLFDS_SIZE := 64

  /** All descriptors of all queued polls, in order. */
  function Gathered(q: seq<PollQ>): seq<PollFd> {
    if q == [] then [] else Gathered(q[..|q| - 1]) + q[|q| - 1].pds
  }

  lemma GatheredStep(q: seq<PollQ>, i: nat)
    requires i < |q|
    ensures Gathered(q[..i + 1]) == Gathered(q[..i]) + q[i].pds
  {
    assert q[..i + 1][..i] == q[..i];
  }

  lemma {:induction false} GatheredAt(q: seq<PollQ>, i: nat, j: nat)
    requires i < |q| && j < |q[i].pds|
    ensures |Gathered(q[..i])| + j < |Gathered(q)| && Gathered(q)[|Gathered(q[..i])| + j] == q[i].pds[j]
  {
    var n := |q| - 1;
    if i < n {
      assert q[..n][..i] == q[..i];
      GatheredAt(q[..n], i, j);
    }
  }

  lemma {:induction false} GatheredGrows(q: seq<PollQ>, i: nat)
    requires i <= |q|
    ensures |Gathered(q[..i])| <= |Gathered(q)|
  {
    if i < |q| {
      var n := |q| - 1;
      assert q[..n][..i] == q[..i];
      GatheredGrows(q[..n], i);
    } else {
      assert q[..i] == q;
    }
  }

  lemma {:induction false} GatheredConcat(a: seq<PollQ>, b: seq<PollQ>)
    ensures |Gathered(a + b)| == |Gathered(a)| + |Gathered(b)|
  {
    if b == [] {
      assert a + b == a;
    } else {
      var n := |b| - 1;
      assert (a + b)[..|a + b| - 1] == a + b[..n] && (a + b)[|a + b| - 1] == b[n];
      GatheredConcat(a, b[..n]);
    }
  }

  /** Removing one poll removes exactly its descriptors. */
  lemma GatheredRemove(q: seq<PollQ>, i: nat)
    requires i < |q|
    ensures |Gathered(q)| == |Gathered(q[..i] + q[i + 1..])| + |q[i].pds|
  {
    GatheredConcat(q[..i], q[i + 1..]);
    GatheredConcat(q[..i + 1], q[i + 1..]);
    assert q[..i + 1] + q[i + 1..] == q;
    assert q[..i + 1][..i] == q[..i];
  }

  class Poll {
    var osfdCnt: int
    var pollfds: array<PollFd>
    var ioQ: seq<PollQ>

    ghost predicate Valid()
      reads this
    {
      osfdCnt == |Gathered(ioQ)|
    }

    constructor ()
      ensures Valid() && ioQ == [] && fresh(pollfds)
    {
      osfdCnt, ioQ := 0, [];
      pollfds := new PollFd[MIN_POLLFDS_SIZE](_ => PollFd(0, Events(false, false, false), false));
    }

    method PollsetAdd(pds: seq<PollFd>) returns (ok: bool)
      modifies `osfdCnt
      ensures ok <==> forall i | 0 <= i < |pds| :: pds[i].fd >= 0 && (!pds[i].events.Empty() || pds[i].other)
      ensures osfdCnt == old(osfdCnt) + if ok then |pds| else 0
    {
      for i := 0 to |pds|
        invariant osfdCnt == old(osfdCnt)
        invariant forall j | 0 <= j < i :: pds[j].fd >= 0 && (!pds[j].events.Empty() || pds[j].other)
      {
        if pds[i].fd < 0 || (pds[i].events.Empty() && !pds[i].other) {
          return false;
        }
      }
      osfdCnt := osfdCnt + |pds|;
      return true;
    }

    method Register(pq: PollQ) returns (ok: bool)
      requires Valid()
      modifies `osfdCnt, `ioQ
      ensures Valid()
      ensures ok <==> forall i | 0 <= i < |pq.pds| :: pq.pds[i].fd >= 0 && (!pq.pds[i].events.Empty() || pq.pds[i].other)
      ensures ioQ == if ok then old(ioQ) + [pq] else old(ioQ)
    {
      ok := PollsetAdd(pq.pds);
      if ok {
        assert (ioQ + [pq])[..|ioQ|] == ioQ;
        ioQ := ioQ + [pq];
      }
    }

    method Unregister(i: nat)
      requires Valid() && i < |ioQ|
      modifies `osfdCnt, `ioQ
      ensures Valid()
      ensures ioQ == old(ioQ)[..i] + old(ioQ)[i + 1..]
    {
      GatheredRemove(ioQ, i);
      osfdCnt := osfdCnt - |ioQ[i].pds|;
      ioQ := ioQ[..i] + ioQ[i + 1..];
    }

    /** Copies the queued descriptors into the array, which is replaced if it is too small. */
    method Gather()
      requires Valid()
      modifies `pollfds, pollfds
      ensures osfdCnt <= pollfds.Length && pollfds[..osfdCnt] == Gathered(ioQ)
      ensures pollfds == old(pollfds) || fresh(pollfds)
    {
      if osfdCnt > pollfds.Length {
        pollfds := new PollFd[osfdCnt + 10](_ => PollFd(0, Events(false, false, false), false));
      }
      var n := 0;
      for i := 0 to |ioQ|
        invariant n == |Gathered(ioQ[..i])| <= osfdCnt <= pollfds.Length
        invariant pollfds[..n] == Gathered(ioQ[..i])
        invariant pollfds == old(pollfds) || fresh(pollfds)
      {
        GatheredStep(ioQ, i);
        GatheredGrows(ioQ, i + 1);
        n := CopyIn(ioQ[i].pds, n);
      }
      assert ioQ[..|ioQ|] == ioQ;
    }

    method CopyIn(pds: seq<PollFd>, n: nat) returns (m: nat)
      requires n + |pds| <= pollfds.Length
      modifies pollfds
      ensures m == n + |pds| && pollfds[..m] == old(pollfds[..n]) + pds
    {
      for j := 0 to |pds|
        invariant pollfds[..n + j] == old(pollfds[..n]) + pds[..j]
      {
        pollfds[n + j] := pds[j];
      }
      assert pds[..|pds|] == pds;
      m := n + |pds|;
    }

    method Dispatch(ready: Readiness) returns (woken: seq<Wake>)
      requires Valid()
      modifies `pollfds, `osfdCnt, `ioQ, pollfds
      ensures Valid()
      ensures woken == Woken(old(ioQ), ready) && ioQ == Left(old(ioQ), ready)
      ensures Parted(old(ioQ), woken, ioQ)
      ensures forall w | w in woken :: PollTells(w, ready) && PollFinds(w.pq, ready)
      ensures forall pq | pq in ioQ :: !PollFinds(pq, ready)
    {
      PollIsTold(ioQ, ready);
      Gather();
      // the answer of poll()
      var revents := Answers(pollfds[..osfdCnt], ready);
      var nfd := CountNonEmpty(revents);
      var q := ioQ;
      AnswersAt(q, revents, ready);
      if nfd > 0 {
        woken := Notify(revents, ready);
      } else {
        woken := [];
        NobodyFires(q, revents, ready);
      }
    }

    method CountNonEmpty(revents: seq<Revents>) returns (n: nat)
      ensures n == 0 <==> forall k | 0 <= k < |revents| :: revents[k].Empty()
    {
      n := 0;
      for i := 0 to |revents|
        invariant n == 0 <==> forall k | 0 <= k < i :: revents[k].Empty()
      {
        if !revents[i].Empty() {
          n := n + 1;
        }
      }
    }

    /** Dispatch has gone through the first i polls of the queue q. */
    ghost predicate Midway(q: seq<PollQ>, i: nat, left: seq<PollQ>, woken: seq<Wake>, ready: Readiness)
      reads `osfdCnt
    {
      && i <= |q| && osfdCnt == |Gathered(left + q[i..])|
      && woken == Woken(q[..i], ready) && left == Left(q[..i], ready)
    }

    method Notify(revents: seq<Revents>, ghost ready: Readiness) returns (woken: seq<Wake>)
      requires Valid() && Reported(ioQ, revents, ready)
      modifies `osfdCnt, `ioQ
      ensures Valid()
      ensures woken == Woken(old(ioQ), ready) && ioQ == Left(old(ioQ), ready)
    {
      var q := ioQ;
      var left: seq<PollQ> := [];
      woken := [];
      var off := 0;
      assert left + q[0..] == q;
      for i := 0 to |q|
        invariant off == |Gathered(q[..i])| && Midway(q, i, left, woken, ready)
      {
        woken, left := NotifyStep(q, i, left, woken, revents, off, ready);
        GatheredStep(q, i);
        off := off + |q[i].pds|;
      }
      assert q[..|q|] == q && left + q[|q|..] == left;
      ioQ := left;
    }

    method NotifyStep(q: seq<PollQ>, i: nat, left: seq<PollQ>, woken: seq<Wake>, revents: seq<Revents>, off: nat,
        ghost ready: Readiness) returns (woken': seq<Wake>, left': seq<PollQ>)
      requires i < |q| && Midway(q, i, left, woken, ready) && Reported(q, revents, ready) && off == |Gathered(q[..i])|
      modifies `osfdCnt
      ensures Midway(q, i + 1, left', woken', ready)
    {
      var pq := q[i];
      MineAt(q, i, revents, ready);
      WokenStep(q, i, ready);
      GatheredMiddle(left, q, i);
      var mine := revents[off..off + |pq.pds|];
      var n := CountNonEmpty(mine);
      if n > 0 {
        osfdCnt := osfdCnt - |pq.pds|;
        woken', left' := woken + [Wake(pq, mine)], left;
      } else {
        woken', left' := woken, left + [pq];
      }
    }
  }

  /** The answer of poll() to the gathered array, poll by poll and entry by entry. */
  ghost predicate Reported(q: seq<PollQ>, revents: seq<Revents>, ready: Readiness) {
    && |revents| == |Gathered(q)|
    && forall i, j | 0 <= i < |q| && 0 <= j < |q[i].pds| :: ReportedAt(q, revents, ready, i, j)
  }

  ghost predicate ReportedAt(q: seq<PollQ>, revents: seq<Revents>, ready: Readiness, i: nat, j: nat)
    requires i < |q| && j < |q[i].pds|
  {
    var k := |Gathered(q[..i])| + j;
    k < |revents| && revents[k] == Answer(q[i].pds[j], ready)
  }

  lemma AnswersAt(q: seq<PollQ>, revents: seq<Revents>, ready: Readiness)
    requires revents == Answers(Gathered(q), ready)
    ensures Reported(q, revents, ready)
  {
    forall i, j | 0 <= i < |q| && 0 <= j < |q[i].pds|
      ensures ReportedAt(q, revents, ready, i, j)
    {
      GatheredAt(q, i, j);
    }
  }

  lemma NobodyFires(q: seq<PollQ>, revents: seq<Revents>, ready: Readiness)
    requires Reported(q, revents, ready) && forall k | 0 <= k < |revents| :: revents[k].Empty()
    ensures Woken(q, ready) == [] && Left(q, ready) == q
  {
    forall pq | pq in q
      ensures !Fires(pq, ready)
    {
      var i :| 0 <= i < |q| && q[i] == pq;
      forall j | 0 <= j < |pq.pds|
        ensures Answer(pq.pds[j], ready).Empty()
      {
        assert ReportedAt(q, revents, ready, i, j);
      }
    }
    NothingToWake(q, ready);
  }

  /** The stretch of the answer that belongs to poll i tells whether it fires. */
  lemma MineAt(q: seq<PollQ>, i: nat, revents: seq<Revents>, ready: Readiness)
    requires i < |q| && Reported(q, revents, ready)
    ensures var off := |Gathered(q[..i])|;
      && off + |q[i].pds| <= |revents|
      && revents[off..off + |q[i].pds|] == Answers(q[i].pds, ready)
    ensures Fires(q[i], ready) <==> exists k | 0 <= k < |q[i].pds| :: !Answers(q[i].pds, ready)[k].Empty()
  {
    var off, pds := |Gathered(q[..i])|, q[i].pds;
    GatheredStep(q, i);
    GatheredGrows(q, i + 1);
    forall j | 0 <= j < |pds|
      ensures revents[off..off + |pds|][j] == Answers(pds, ready)[j]
    {
      assert ReportedAt(q, revents, ready, i, j);
    }
  }

  lemma GatheredMiddle(left: seq<PollQ>, q: seq<PollQ>, i: nat)
    requires i < |q|
    ensures |Gathered(left + q[i..])| == |Gathered(left + q[i + 1..])| + |q[i].pds|
    ensures left + q[i..] == left + [q[i]] + q[i + 1..]
  {
    var all := left + q[i..];
    var k := |left|;
    assert all[..k] + all[k + 1..] == left + q[i + 1..];
    GatheredRemove(all, k);
  }
}
