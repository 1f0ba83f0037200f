/** What the three calls of the command queue do from their beginning to their end: alone, and with the
    other thread in between. */
module CommandCalls {
  import opened CommandQueue
  import opened Lists

  /** One thread takes n steps. */
  function Alone(a: Action, n: nat): seq<Action> {
    seq(n, _ => a)
  }

  lemma FirstOf(pt: Point, a: Action, n: nat)
    requires pt.At?
    ensures After(pt, Alone(a, n + 1)) == After(Advance(pt, a), Alone(a, n))
  {
    assert Alone(a, n + 1)[1..] == Alone(a, n);
  }

  lemma Stops(pt: Point, a: Action)
    ensures After(pt, Alone(a, 0)) == pt
  {
  }

  lemma Reaches(pt: Point, a: Action, next: Point, n: nat, end: Point)
    requires pt.At? && Advance(pt, a) == next && After(next, Alone(a, n)) == end
    ensures After(pt, Alone(a, n + 1)) == end
  {
    FirstOf(pt, a, n);
  }

  lemma {:induction false} ThenMore(pt: Point, a: Action, n: nat, m: nat)
    ensures After(pt, Alone(a, n + m)) == After(After(pt, Alone(a, n)), Alone(a, m))
    decreases n
  {
    if n == 0 {
      assert Alone(a, 0) == [] && Alone(a, 0 + m) == Alone(a, m);
    } else if pt.At? {
      FirstOf(pt, a, n - 1);
      FirstOf(pt, a, n + m - 1);
      ThenMore(Advance(pt, a), a, n - 1, m);
    }
  }

  /** A new command is free or not as it was made, and holds what the producer last wrote to it. */
  lemma ProducerWrites(s: Sys, l: Log, n: nat, isFree: bool, v: int)
    requires Inv(s, l)
    ensures Legal(s, l, New(n, isFree)) ==>
      var o := Step(s, New(n, isFree));
      && o.Ok? && n in o.s.heap && o.s == s.(heap := s.heap[n := o.s.heap[n]])
      && o.s.heap[n].isFree == isFree && o.s.heap[n].next == NULL
    ensures Legal(s, l, Fill(n, v)) ==>
      var o := Step(s, Fill(n, v));
      o.Ok? && n in s.heap && o.s == s.(heap := s.heap[n := s.heap[n].(val := v)])
  {
    assert Legal(s, l, Fill(n, v)) ==> n in s.heap;
    hide Inv;
  }

  // ---------------------------------------------------------------- GetCycle

  function ElementsOf(q: seq<nat>): set<nat> {
    set n | n in q
  }

  /** GetCycle deletes the k nodes in front of the recycling list, which are free, and then finds only the
      last node, or gives back the next one, which is not free. */
  ghost predicate GivesBack(s: Sys, l: Log, s': Sys, l': Log, k: nat) {
    && k < |l.cq|
    && var gone := ElementsOf(l.cq[..k]);
    && (forall n | n in l.cq :: n in s.heap) && (forall n | n in gone :: s.heap[n].isFree)
    && s' == s.(heap := s'.heap, cycleHead := s'.cycleHead, p := PIdle)
    && l' == l.(cq := l'.cq, owned := l'.owned)
    && if k == |l.cq| - 1 then
         l'.cq == l.cq[k..] && l'.owned == l.owned && s'.heap == s.heap - gone
       else
         var c := l.cq[k];
         && !s.heap[c].isFree
         && l'.cq == l.cq[k + 1..] && l'.owned == l.owned + {c}
         && s'.heap == (s.heap - gone)[c := s.heap[c].(next := NULL)]
  }

  /** The first node of the recycling list, when it is not the only one. */
  lemma FrontNode(s: Sys, l: Log)
    requires Inv(s, l) && s.p.PTest? && |l.cq| > 1
    ensures s.cycleHead == l.cq[0] && l.cq[0] in s.heap && Next(s.heap, l.cq[0]) == l.cq[1] != NULL && l.cq[0] != l.cq[1]
  {
    assert l.cq[0] in l.cq && l.cq[1] in l.cq;
  }

  lemma OnlyNode(s: Sys, l: Log)
    requires Inv(s, l) && s.p.PTest? && |l.cq| == 1
    ensures s.cycleHead == l.cq[0] && l.cq[0] in s.heap && Next(s.heap, l.cq[0]) == NULL
  {
    assert l.cq[0] in l.cq;
  }

  /** The state after one round of the loop that does not return at its test. */
  function RoundEnd(s: Sys, l: Log): Point
    requires |l.cq| > 1 && l.cq[0] in s.heap
  {
    var t := l.cq[0];
    if s.heap[t].isFree then At(s.(heap := s.heap - {t}, cycleHead := l.cq[1]), l.(cq := l.cq[1..]))
    else
      At(s.(heap := s.heap[t := s.heap[t].(next := NULL)], cycleHead := l.cq[1], p := PIdle),
         l.(cq := l.cq[1..], owned := l.owned + {t}))
  }

  /** The producer has taken the first node out of the recycling list. */
  function Detached(s: Sys, l: Log): Point
    requires |l.cq| > 1
  {
    At(s.(cycleHead := l.cq[1], p := PClear(l.cq[0])), l.(cq := l.cq[1..]))
  }

  lemma TestGoesOn(s: Sys, l: Log)
    requires s.p.PTest? && |l.cq| > 1 && s.cycleHead == l.cq[0] && l.cq[0] in s.heap && s.heap[l.cq[0]].next != NULL
    ensures Advance(At(s, l), PStep) == At(s.(p := PAdvance(l.cq[0])), l)
  {
  }

  lemma TestMoves(s: Sys, l: Log)
    requires s.p.PTest? && |l.cq| > 1 && s.cycleHead == l.cq[0] && l.cq[0] in s.heap && s.heap[l.cq[0]].next == l.cq[1]
    ensures Advance(At(s.(p := PAdvance(l.cq[0])), l), PStep) == At(s.(p := PMove(l.cq[0], l.cq[1])), l)
  {
  }

  lemma TestDetaches(s: Sys, l: Log)
    requires |l.cq| > 1
    ensures Advance(At(s.(p := PMove(l.cq[0], l.cq[1])), l), PStep) == Detached(s, l)
  {
  }

  lemma Detaches(s: Sys, l: Log, n: nat, end: Point)
    requires Inv(s, l) && s.p.PTest? && |l.cq| > 1 && After(Detached(s, l), Alone(PStep, n)) == end
    ensures After(At(s, l), Alone(PStep, n + 3)) == end
  {
    FrontNode(s, l);
    var t := l.cq[0];
    var p1 := At(s.(p := PAdvance(t)), l);
    var p2 := At(s.(p := PMove(t, l.cq[1])), l);
    TestGoesOn(s, l);
    TestMoves(s, l);
    TestDetaches(s, l);
    hide Inv, After, Alone, Advance, Detached;
    Reaches(p2, PStep, Detached(s, l), n, end);
    Reaches(p1, PStep, p2, n + 1, end);
    Reaches(At(s, l), PStep, p1, n + 2, end);
  }

  lemma Checks(s: Sys, l: Log)
    requires |l.cq| > 1 && l.cq[0] in s.heap && s.p.PTest?
    ensures After(Detached(s, l), Alone(PStep, 2)) == RoundEnd(s, l)
  {
    hide After, Alone;
    var t, pt, end := l.cq[0], Detached(s, l), RoundEnd(s, l);
    var p1 := At(pt.s.(heap := s.heap[t := s.heap[t].(next := NULL)], p := PCheck(t)), pt.l);
    assert p1.s.heap - {t} == s.heap - {t};
    Stops(end, PStep);
    Reaches(p1, PStep, end, 0, end);
    Reaches(pt, PStep, p1, 1, end);
  }

  lemma RoundGoes(s: Sys, l: Log)
    requires Inv(s, l) && s.p.PTest? && |l.cq| > 1
    ensures l.cq[0] in s.heap && After(At(s, l), Alone(PStep, 5)) == RoundEnd(s, l)
  {
    FrontNode(s, l);
    Checks(s, l);
    Detaches(s, l, 2, RoundEnd(s, l));
  }

  lemma {:induction false} StepsKeep(s: Sys, l: Log, n: nat)
    requires Inv(s, l)
    ensures var pt := After(At(s, l), Alone(PStep, n)); pt.At? && Inv(pt.s, pt.l)
    decreases n
  {
    if n > 0 {
      StepKeeps(s, l, PStep);
      FirstOf(At(s, l), PStep, n - 1);
      var pt := Advance(At(s, l), PStep);
      StepsKeep(pt.s, pt.l, n - 1);
    }
  }

  /** A round that deleted a node, and then the rest of the call. */
  lemma OneMoreDeleted(s: Sys, l: Log, s': Sys, l': Log, k: nat)
    requires |l.cq| > 1 && (forall n | n in l.cq :: n in s.heap) && NoDup(l.cq) && s.heap[l.cq[0]].isFree
    requires var pt := RoundEnd(s, l); GivesBack(pt.s, pt.l, s', l', k)
    ensures GivesBack(s, l, s', l', k + 1)
  {
    var t, rest := l.cq[0], l.cq[1..];
    assert l.cq[..k + 1] == [t] + rest[..k];
    var gone, all := ElementsOf(rest[..k]), ElementsOf(l.cq[..k + 1]);
    assert all == {t} + gone;
    assert s.heap - {t} - gone == s.heap - all;
    assert l.cq[k + 1] == rest[k] && l.cq[k + 1..] == rest[k..];
  }

  lemma NoneDeleted(s: Sys, l: Log)
    requires l.cq != [] && (forall n | n in l.cq :: n in s.heap)
    ensures |l.cq| == 1 ==> GivesBack(s, l, s.(p := PIdle), l, 0)
    ensures |l.cq| > 1 && !s.heap[l.cq[0]].isFree ==>
      var pt := RoundEnd(s, l); GivesBack(s, l, pt.s, pt.l, 0)
  {
    assert ElementsOf(l.cq[..0]) == {};
    assert s.heap - {} == s.heap && l.cq[0..] == l.cq;
  }

  lemma CycleNodes(s: Sys, l: Log)
    requires Inv(s, l)
    ensures l.cq != [] && NoDup(l.cq) && forall n | n in l.cq :: n in s.heap
  {
  }

  /** GetCycle, left alone, ends: with nothing exactly if every node but the last is free, and otherwise
      with the first node that is not. */
  lemma {:induction false} GetCycleAlone(s: Sys, l: Log) returns (n: nat, k: nat)
    requires Inv(s, l) && s.p.PTest?
    ensures var pt := After(At(s, l), Alone(PStep, n)); pt.At? && Inv(pt.s, pt.l) && GivesBack(s, l, pt.s, pt.l, k)
    decreases |l.cq|
  {
    CycleNodes(s, l);
    NoneDeleted(s, l);
    hide NoDup, Inv, GivesBack, After, Alone;
    if |l.cq| == 1 {
      n, k := 1, 0;
      LastTest(s, l);
      StepsKeep(s, l, 1);
    } else {
      RoundGoes(s, l);
      StepsKeep(s, l, 5);
      var pt := RoundEnd(s, l);
      assert pt.At? && |pt.l.cq| < |l.cq| && (s.heap[l.cq[0]].isFree ==> pt.s.p.PTest?);
      hide RoundEnd;
      if s.heap[l.cq[0]].isFree {
        var m, j := GetCycleAlone(pt.s, pt.l);
        GoesOn(s, l, m, j);
        n, k := 5 + m, j + 1;
      } else {
        n, k := 5, 0;
      }
    }
  }

  lemma GoesOn(s: Sys, l: Log, m: nat, j: nat)
    requires |l.cq| > 1 && (forall n | n in l.cq :: n in s.heap) && NoDup(l.cq) && s.heap[l.cq[0]].isFree
    requires After(At(s, l), Alone(PStep, 5)) == RoundEnd(s, l)
    requires var pt := RoundEnd(s, l);
      var end := After(pt, Alone(PStep, m)); end.At? && GivesBack(pt.s, pt.l, end.s, end.l, j)
    ensures After(At(s, l), Alone(PStep, 5 + m)) == After(RoundEnd(s, l), Alone(PStep, m))
    ensures var end := After(At(s, l), Alone(PStep, 5 + m)); end.At? && GivesBack(s, l, end.s, end.l, j + 1)
  {
    ThenMore(At(s, l), PStep, 5, m);
    var end := After(RoundEnd(s, l), Alone(PStep, m));
    OneMoreDeleted(s, l, end.s, end.l, j);
    hide *;
  }

  lemma LastTest(s: Sys, l: Log)
    requires Inv(s, l) && s.p.PTest? && |l.cq| == 1
    ensures After(At(s, l), Alone(PStep, 1)) == At(s.(p := PIdle), l)
  {
    OnlyNode(s, l);
    hide Inv;
    var end := At(s.(p := PIdle), l);
    Stops(end, PStep);
    Reaches(At(s, l), PStep, end, 0, end);
  }

  predicate InGetCycle(p: ProducerPc) {
    p.PTest? || p.PAdvance? || p.PMove? || p.PClear? || p.PCheck?
  }

  /** The producer starts no other call. */
  predicate NoCall(acts: seq<Action>) {
    forall a | a in acts :: !a.CallInsert? && !a.CallGetCycle?
  }

  /** The next step of the producer ends the call: there is but one node, or the one in hand is given back. */
  ghost predicate Returning(pt: Point) {
    && pt.At?
    && ((pt.s.p.PTest? && |pt.l.cq| == 1)
        || (pt.s.p.PCheck? && pt.s.p.t in pt.s.heap && !pt.s.heap[pt.s.p.t].isFree
            && pt.s.p.t in Record(pt.s, pt.l, PStep).owned))
  }

  lemma CycleStep(s: Sys, l: Log, a: Action)
    requires Inv(s, l) && Legal(s, l, a) && InGetCycle(s.p) && !a.CallInsert? && !a.CallGetCycle? && Step(s, a).Ok?
    ensures InGetCycle(Step(s, a).s.p) || (Step(s, a).s.p.PIdle? && a == PStep && Returning(At(s, l)))
  {
    if s.p.PTest? && |l.cq| > 1 {
      FrontNode(s, l);
    }
    hide Inv;
  }

  lemma ReturnsLater(pt: Point, acts: seq<Action>)
    requires pt.At? && acts != []
    requires exists i :: 0 <= i < |acts[1..]| && acts[1..][i] == PStep && Returning(After(Advance(pt, acts[0]), acts[1..][..i]))
    ensures exists i :: 0 <= i < |acts| && acts[i] == PStep && Returning(After(pt, acts[..i]))
  {
    hide Returning, Advance;
    var i :| 0 <= i < |acts[1..]| && acts[1..][i] == PStep && Returning(After(Advance(pt, acts[0]), acts[1..][..i]));
    assert acts[..i + 1][1..] == acts[1..][..i];
    assert acts[i + 1] == PStep && Returning(After(pt, acts[..i + 1]));
  }

  /** With the consumer in between: a call to GetCycle that has ended saw a single node at its last test, or
      gave back the command that it had in hand. */
  lemma {:induction false} GetCycleEnds(s: Sys, l: Log, acts: seq<Action>)
    requires Inv(s, l) && InGetCycle(s.p) && LegalRun(At(s, l), acts) && NoCall(acts)
    requires After(At(s, l), acts).At? && After(At(s, l), acts).s.p.PIdle?
    ensures exists i :: 0 <= i < |acts| && acts[i] == PStep && Returning(After(At(s, l), acts[..i]))
    decreases |acts|
  {
    var a := acts[0];
    assert acts == [a] + acts[1..];
    StepKeeps(s, l, a);
    CycleStep(s, l, a);
    hide Inv, Returning, Legal, Step, Record;
    var pt := Advance(At(s, l), a);
    if InGetCycle(pt.s.p) {
      GetCycleEnds(pt.s, pt.l, acts[1..]);
      hide LegalRun, NoCall;
      ReturnsLater(At(s, l), acts);
    } else {
      assert acts[..0] == [];
      assert acts[0] == PStep && Returning(After(At(s, l), acts[..0]));
    }
  }

  // ---------------------------------------------------------------- Insert

  /** The command d is in the hands of Insert, not yet linked. */
  predicate Inserting(s: Sys, d: nat) {
    match s.p
    case PInsert(x) => x == d
    case PLink(x) => x == d
    case PFirst(x) => x == d
    case PReadHead => s.tail == d
    case PLinkHead(_) => s.tail == d
    case _ => false
  }

  lemma InsertStep(s: Sys, l: Log, a: Action, d: nat)
    requires Inv(s, l) && Legal(s, l, a) && Inserting(s, d) && !a.CallInsert? && !a.CallGetCycle? && Step(s, a).Ok?
    ensures var s', l' := Step(s, a).s, Record(s, l, a);
      && Val(s'.heap, d) == Val(s.heap, d)
      && if Inserting(s', d) then l'.sent == l.sent
         else (s'.p.PIdle? || s'.p.PSetTail?) && l'.sent == l.sent + [Val(s.heap, d)] && l'.dq == l.dq + [d]
  {
    assert d in Held(s) && d in s.heap && d !in l.owned;
    assert s.c.CRetire? ==> s.head == l.dq[0] && l.dq[0] in l.dq && s.head != d;
    hide Inv;
  }

  lemma LinkedStep(s: Sys, l: Log, a: Action)
    requires Inv(s, l) && Legal(s, l, a) && (s.p.PIdle? || s.p.PSetTail?) && !a.CallInsert? && !a.CallGetCycle? && Step(s, a).Ok?
    ensures (Step(s, a).s.p.PIdle? || Step(s, a).s.p.PSetTail?) && Record(s, l, a).sent == l.sent
  {
    hide Inv;
  }

  lemma {:induction false} LinkedStays(s: Sys, l: Log, acts: seq<Action>)
    requires Inv(s, l) && (s.p.PIdle? || s.p.PSetTail?) && LegalRun(At(s, l), acts) && NoCall(acts)
    ensures var pt := After(At(s, l), acts); pt.At? && pt.l.sent == l.sent
    decreases |acts|
  {
    if acts != [] {
      var a := acts[0];
      assert acts == [a] + acts[1..];
      StepKeeps(s, l, a);
      LinkedStep(s, l, a);
      hide Inv, Legal, Step, Record;
      var pt := Advance(At(s, l), a);
      LinkedStays(pt.s, pt.l, acts[1..]);
    }
  }

  /** Whatever happens in between, a call to Insert that has ended has sent its command, once, and nothing
      else; until it links the command, it has sent nothing. */
  lemma {:induction false} InsertSends(s: Sys, l: Log, acts: seq<Action>, d: nat)
    requires Inv(s, l) && Inserting(s, d) && LegalRun(At(s, l), acts) && NoCall(acts)
    ensures var pt := After(At(s, l), acts);
      pt.At? && pt.l.sent == if Inserting(pt.s, d) then l.sent else l.sent + [Val(s.heap, d)]
    decreases |acts|
  {
    if acts != [] {
      var a := acts[0];
      assert acts == [a] + acts[1..];
      StepKeeps(s, l, a);
      InsertStep(s, l, a, d);
      var pt := Advance(At(s, l), a);
      if Inserting(pt.s, d) {
        hide Inv, Legal, Step, Record, Inserting;
        InsertSends(pt.s, pt.l, acts[1..], d);
      } else {
        LinkedStays(pt.s, pt.l, acts[1..]);
        EndsLinked(pt.s, pt.l, acts[1..], d);
      }
    }
  }

  lemma {:induction false} EndsLinked(s: Sys, l: Log, acts: seq<Action>, d: nat)
    requires Inv(s, l) && (s.p.PIdle? || s.p.PSetTail?) && LegalRun(At(s, l), acts) && NoCall(acts)
    ensures var pt := After(At(s, l), acts); pt.At? && !Inserting(pt.s, d)
    decreases |acts|
  {
    if acts != [] {
      var a := acts[0];
      assert acts == [a] + acts[1..];
      StepKeeps(s, l, a);
      LinkedStep(s, l, a);
      hide Inv, Legal, Step, Record, Inserting;
      var pt := Advance(At(s, l), a);
      EndsLinked(pt.s, pt.l, acts[1..], d);
    }
  }

  /** Insert, left alone, ends after at most four steps with the command behind all others. */
  lemma InsertAlone(s: Sys, l: Log) returns (n: nat)
    requires Inv(s, l) && s.p.PInsert?
    ensures n <= 4 && l.dq != [] && l.dq[|l.dq| - 1] in s.heap
    ensures After(At(s, l), Alone(PStep, n)) ==
      At(s.(heap := SetNext(s.heap, l.dq[|l.dq| - 1], s.p.d), tail := s.p.d, p := PIdle),
         l.(dq := l.dq + [s.p.d], sent := l.sent + [Val(s.heap, s.p.d)]))
  {
    HeadIsLive(s, l);
    var d, pt := s.p.d, At(s, l);
    if s.tail != NULL {
      hide Inv;
      n := 3;
      FirstOf(pt, PStep, 2);
      var p1 := At(s.(p := PLink(d)), l);
      assert Advance(pt, PStep) == p1;
      FirstOf(p1, PStep, 1);
      FirstOf(Advance(p1, PStep), PStep, 0);
    } else {
      assert l.sent == [] && |l.dq| == 1 && s.head == l.dq[0];
      hide Inv;
      n := 4;
      FirstOf(pt, PStep, 3);
      var p1 := At(s.(p := PFirst(d)), l);
      assert Advance(pt, PStep) == p1;
      FirstOf(p1, PStep, 2);
      var p2 := At(s.(tail := d, p := PReadHead), l);
      assert Advance(p1, PStep) == p2;
      FirstOf(p2, PStep, 1);
      FirstOf(Advance(p2, PStep), PStep, 0);
    }
  }

  // ---------------------------------------------------------------- GetData

  /** GetData has returned the command behind the head: the old head is deleted if it is free, and is the
      last of the recycling list otherwise. */
  ghost predicate Received(s: Sys, l: Log, s': Sys, l': Log) {
    && |l.dq| > 1 && l.dq[0] in s.heap
    && s'.c == CUse(l.dq[1]) && s'.head == l.dq[1] && s'.p == s.p && s'.tail == s.tail && s'.cycleHead == s.cycleHead
    && l' == l.(dq := l.dq[1..], cq := if s.heap[l.dq[0]].isFree then l.cq else l.cq + [l.dq[0]])
    && s'.heap.Keys == (if s.heap[l.dq[0]].isFree then s.heap.Keys - {l.dq[0]} else s.heap.Keys)
    && forall n | n in s'.heap :: s'.heap[n].val == s.heap[n].val && s'.heap[n].isFree == s.heap[n].isFree
  }

  lemma ReceivesNext(s: Sys, l: Log)
    requires Inv(s, l) && s.c.CTest? && |l.dq| > 1
    ensures s.head == l.dq[0] && s.head in s.heap && s.head !in l.cq && Next(s.heap, s.head) == l.dq[1] != NULL
    ensures l.cq != [] && l.cq[|l.cq| - 1] in s.heap && s.cycleHead == l.cq[0] && l.cq[0] in s.heap
    ensures if s.cycleTail == NULL then |l.cq| == 1 else s.cycleTail == l.cq[|l.cq| - 1]
  {
    HeadIsLive(s, l);
    SecondNode(s, l);
    assert l.cq[0] in l.cq && l.dq[0] in l.dq;
  }

  /** GetData, left alone, returns nothing exactly if everything sent has been received, and the next
      command otherwise. */
  lemma GetDataAlone(s: Sys, l: Log) returns (n: nat)
    requires Inv(s, l) && s.c.CTest?
    ensures var pt := After(At(s, l), Alone(CStep, n));
      && pt.At? && (|l.dq| == 1 <==> l.got == l.sent)
      && if |l.dq| == 1 then pt == At(s.(c := CIdle), l) else Received(s, l, pt.s, pt.l)
  {
    var pt := At(s, l);
    assert |Vals(s.heap, l.dq[1..])| == |l.dq| - 1;
    if |l.dq| == 1 {
      HeadIsLive(s, l);
      n := 1;
      FirstOf(pt, CStep, 0);
    } else {
      ReceivesNext(s, l);
      n := RetiresHead(s, l);
    }
  }

  lemma RetiresHead(s: Sys, l: Log) returns (n: nat)
    requires Inv(s, l) && s.c.CTest? && |l.dq| > 1
    ensures var pt := After(At(s, l), Alone(CStep, n)); pt.At? && Received(s, l, pt.s, pt.l)
  {
    ReceivesNext(s, l);
    hide Inv;
    var h, t := s.head, l.dq[1];
    var p1 := At(s.(c := CTake), l);
    var p2 := At(s.(c := CClear(t)), l);
    var p3 := At(s.(heap := SetNext(s.heap, h, NULL), c := CRetire(t)), l);
    assert Advance(At(s, l), CStep) == p1 && Advance(p1, CStep) == p2 && Advance(p2, CStep) == p3;
    var end;
    if s.heap[h].isFree {
      n, end := DeletesHead(p3, s, l);
    } else if s.cycleTail != NULL {
      n, end := AppendsHead(p3, s, l);
    } else {
      n, end := AppendsFirst(p3, s, l);
    }
    hide *;
    Reaches(p2, CStep, p3, n, end);
    Reaches(p1, CStep, p2, n + 1, end);
    Reaches(At(s, l), CStep, p1, n + 2, end);
    n := n + 3;
  }

  /** The consumer at pt has just cut off the head of the data list. */
  ghost predicate CutOff(pt: Point, s: Sys, l: Log) {
    && |l.dq| > 1 && s.head == l.dq[0] && s.head in s.heap && s.c.CTest?
    && pt == At(s.(heap := SetNext(s.heap, s.head, NULL), c := CRetire(l.dq[1])), l)
  }

  /** The consumer moves to the node behind the head and uses it. */
  lemma MovesOn(pt: Point, t: nat) returns (end: Point)
    requires pt.At? && pt.s.c == CMove(t)
    ensures end == At(pt.s.(head := t, c := CUse(t)), pt.l) && After(pt, Alone(CStep, 1)) == end
  {
    end := At(pt.s.(head := t, c := CUse(t)), pt.l);
    Stops(end, CStep);
    Reaches(pt, CStep, end, 0, end);
  }

  lemma DeletesHead(pt: Point, s: Sys, l: Log) returns (n: nat, end: Point)
    requires CutOff(pt, s, l) && s.heap[s.head].isFree
    ensures After(pt, Alone(CStep, n)) == end && end.At? && Received(s, l, end.s, end.l)
  {
    var t := l.dq[1];
    var p1 := At(pt.s.(heap := pt.s.heap - {s.head}, c := CMove(t)), l.(dq := l.dq[1..]));
    end := MovesOn(p1, t);
    assert Received(s, l, end.s, end.l);
    hide After, Alone, Received;
    Reaches(pt, CStep, p1, 1, end);
    n := 2;
  }

  lemma AppendsHead(pt: Point, s: Sys, l: Log) returns (n: nat, end: Point)
    requires CutOff(pt, s, l) && !s.heap[s.head].isFree && s.cycleTail in s.heap && s.cycleTail != NULL
    ensures After(pt, Alone(CStep, n)) == end && end.At? && Received(s, l, end.s, end.l)
  {
    var t := l.dq[1];
    var p1 := At(pt.s.(c := CAppend(t)), l);
    var l2 := l.(dq := l.dq[1..], cq := l.cq + [s.head]);
    var p2 := At(pt.s.(heap := SetNext(pt.s.heap, s.cycleTail, s.head), c := CSetTail(t)), l2);
    var p3 := At(p2.s.(cycleTail := s.head, c := CMove(t)), l2);
    end := MovesOn(p3, t);
    assert Received(s, l, end.s, end.l);
    assert Advance(pt, CStep) == p1 && Advance(p1, CStep) == p2 && Advance(p2, CStep) == p3;
    hide Advance, After, Alone, Received;
    Reaches(p2, CStep, p3, 1, end);
    Reaches(p1, CStep, p2, 2, end);
    Reaches(pt, CStep, p1, 3, end);
    n := 4;
  }

  lemma AppendsFirst(pt: Point, s: Sys, l: Log) returns (n: nat, end: Point)
    requires CutOff(pt, s, l) && !s.heap[s.head].isFree && s.cycleTail == NULL && s.cycleHead in s.heap
    ensures After(pt, Alone(CStep, n)) == end && end.At? && Received(s, l, end.s, end.l)
  {
    var t := l.dq[1];
    var p3 := ReadsCycle(pt, l, t);
    var l4 := l.(dq := l.dq[1..], cq := l.cq + [s.head]);
    var p4 := At(p3.s.(heap := SetNext(p3.s.heap, s.cycleHead, s.head), c := CMove(t)), l4);
    end := MovesOn(p4, t);
    assert Received(s, l, end.s, end.l);
    assert Advance(p3, CStep) == p4;
    hide Advance, Received;
    Reaches(p3, CStep, p4, 1, end);
    ThenMore(pt, CStep, 3, 2);
    n := 5;
  }

  lemma ReadsCycle(pt: Point, l: Log, t: nat) returns (end: Point)
    requires pt.At? && pt.s.c == CRetire(t) && pt.s.cycleTail == NULL && pt.l == l
    requires pt.s.head in pt.s.heap && !pt.s.heap[pt.s.head].isFree
    ensures end == At(pt.s.(cycleTail := pt.s.head, c := CLinkCycle(t, pt.s.cycleHead)), l)
    ensures After(pt, Alone(CStep, 3)) == end
  {
    var p1 := At(pt.s.(c := CFirst(t)), l);
    var p2 := At(pt.s.(cycleTail := pt.s.head, c := CReadCycle(t)), l);
    end := At(p2.s.(c := CLinkCycle(t, pt.s.cycleHead)), l);
    assert Advance(pt, CStep) == p1 && Advance(p1, CStep) == p2 && Advance(p2, CStep) == end;
    hide Advance, After, Alone;
    Stops(end, CStep);
    Reaches(p2, CStep, end, 0, end);
    Reaches(p1, CStep, p2, 1, end);
    Reaches(pt, CStep, p1, 2, end);
  }
}
