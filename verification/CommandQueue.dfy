/** The lock-free command queue between two worker threads: one producer that inserts commands and
    takes recycled ones back, and one consumer that drains the queue. Every step reads or writes at
    most one location that the other thread can see; memory is sequentially consistent. */
module CommandQueue {
  import opened Lists

  const NULL := 0

  datatype Node = Node(next: nat, isFree: bool, val: int)

  type Heap = map<nat, Node>

  /** Where the producer is. A node in a state is a local variable of the call. */
  datatype ProducerPc =
    | PIdle
    // Insert(d)
    | PInsert(d: nat) | PLink(d: nat) | PSetTail(d: nat) | PFirst(d: nat) | PReadHead | PLinkHead(h: nat)
    // GetCycle()
    | PTest | PAdvance(t: nat) | PMove(t: nat, x: nat) | PClear(t: nat) | PCheck(t: nat)

  /** Where the consumer is: a loop of GetData() calls, each followed by the use of what it returned. */
  datatype ConsumerPc =
    | CIdle
    | CTest | CTake | CClear(t: nat) | CRetire(t: nat)
    | CAppend(t: nat) | CSetTail(t: nat) | CFirst(t: nat) | CReadCycle(t: nat) | CLinkCycle(t: nat, h: nat)
    | CMove(t: nat) | CUse(t: nat)

  datatype Sys = Sys(heap: Heap, head: nat, tail: nat, cycleHead: nat, cycleTail: nat, p: ProducerPc, c: ConsumerPc)

  datatype Action =
    | New(n: nat, isFree: bool)   // the producer allocates a command at an address the allocator picks
    | Fill(n: nat, v: int)        // and writes its contents
    | CallInsert(n: nat)
    | CallGetCycle
    | PStep
    | CallProcess                 // the consumer is told to drain the queue
    | CStep

  /** Fault: a null or freed node was accessed. */
  datatype Outcome = Ok(s: Sys) | Fault

  function SetNext(h: Heap, n: nat, x: nat): Heap
    requires n in h
  {
    h[n := h[n].(next := x)]
  }

  // ---------------------------------------------------------------- the code

  function ProducerStep(s: Sys): Outcome {
    match s.p
    case PIdle => Ok(s)
    case PInsert(d) => Ok(s.(p := if s.tail != NULL then PLink(d) else PFirst(d)))
    case PLink(d) => if s.tail in s.heap then Ok(s.(heap := SetNext(s.heap, s.tail, d), p := PSetTail(d))) else Fault
    case PSetTail(d) => Ok(s.(tail := d, p := PIdle))
    case PFirst(d) => Ok(s.(tail := d, p := PReadHead))
    case PReadHead => Ok(s.(p := PLinkHead(s.head)))
    case PLinkHead(h) => if h in s.heap then Ok(s.(heap := SetNext(s.heap, h, s.tail), p := PIdle)) else Fault
    case PTest =>
      if s.cycleHead !in s.heap then Fault
      else Ok(s.(p := if s.heap[s.cycleHead].next != NULL then PAdvance(s.cycleHead) else PIdle))
    case PAdvance(t) =>
      if s.cycleHead in s.heap then Ok(s.(p := PMove(t, s.heap[s.cycleHead].next))) else Fault
    case PMove(t, x) => Ok(s.(cycleHead := x, p := PClear(t)))
    case PClear(t) => if t in s.heap then Ok(s.(heap := SetNext(s.heap, t, NULL), p := PCheck(t))) else Fault
    case PCheck(t) =>
      if t !in s.heap then Fault
      else if s.heap[t].isFree then Ok(s.(heap := s.heap - {t}, p := PTest))
      else Ok(s.(p := PIdle))
  }

  function ConsumerStep(s: Sys): Outcome {
    match s.c
    case CIdle => Ok(s)
    case CTest =>
      if s.head !in s.heap then Fault
      else Ok(s.(c := if s.heap[s.head].next != NULL then CTake else CIdle))
    case CTake => if s.head in s.heap then Ok(s.(c := CClear(s.heap[s.head].next))) else Fault
    case CClear(t) => if s.head in s.heap then Ok(s.(heap := SetNext(s.heap, s.head, NULL), c := CRetire(t))) else Fault
    case CRetire(t) =>
      if s.head !in s.heap then Fault
      else if s.heap[s.head].isFree then Ok(s.(heap := s.heap - {s.head}, c := CMove(t)))
      else Ok(s.(c := if s.cycleTail != NULL then CAppend(t) else CFirst(t)))
    case CAppend(t) =>
      if s.cycleTail in s.heap then Ok(s.(heap := SetNext(s.heap, s.cycleTail, s.head), c := CSetTail(t))) else Fault
    case CSetTail(t) => Ok(s.(cycleTail := s.head, c := CMove(t)))
    case CFirst(t) => Ok(s.(cycleTail := s.head, c := CReadCycle(t)))
    case CReadCycle(t) => Ok(s.(c := CLinkCycle(t, s.cycleHead)))
    case CLinkCycle(t, h) =>
      if h in s.heap then Ok(s.(heap := SetNext(s.heap, h, s.cycleTail), c := CMove(t))) else Fault
    case CMove(t) => Ok(s.(head := t, c := CUse(t)))
    case CUse(t) => if t in s.heap then Ok(s.(c := CTest)) else Fault
  }

  function Step(s: Sys, a: Action): Outcome {
    match a
    case New(n, isFree) => Ok(s.(heap := s.heap[n := Node(NULL, isFree, 0)]))
    case Fill(n, v) => if n in s.heap then Ok(s.(heap := s.heap[n := s.heap[n].(val := v)])) else Fault
    case CallInsert(n) => Ok(s.(p := PInsert(n)))
    case CallGetCycle => Ok(s.(p := PTest))
    case PStep => ProducerStep(s)
    case CallProcess => Ok(s.(c := CTest))
    case CStep => ConsumerStep(s)
  }

  /** The queue starts with one dummy node in each list; both are thrown away on the way. */
  function Boot(h: nat, ch: nat): Sys {
    Sys(map[h := Node(NULL, true, 0), ch := Node(NULL, true, 0)], h, NULL, ch, NULL, PIdle, CIdle)
  }

  // ---------------------------------------------------------------- what a run has done

  /** History of a run, which no step reads: the nodes of the two lists in order, the commands that
      the producer holds, the contents sent and the contents received. */
  datatype Log = Log(dq: seq<nat>, cq: seq<nat>, owned: set<nat>, sent: seq<int>, got: seq<int>)

  function Val(h: Heap, n: nat): int {
    if n in h then h[n].val else 0
  }

  function Next(h: Heap, n: nat): nat {
    if n in h then h[n].next else NULL
  }

  function Record(s: Sys, l: Log, a: Action): Log {
    match a
    case New(n, _) => l.(owned := l.owned + {n})
    case CallInsert(n) => l.(owned := l.owned - {n})
    case PStep => (match s.p
      case PLink(d) => l.(dq := l.dq + [d], sent := l.sent + [Val(s.heap, d)])
      case PLinkHead(_) => l.(dq := l.dq + [s.tail], sent := l.sent + [Val(s.heap, s.tail)])
      case PMove(_, _) => l.(cq := if l.cq == [] then [] else l.cq[1..])
      case PCheck(t) => if t in s.heap && !s.heap[t].isFree then l.(owned := l.owned + {t}) else l
      case _ => l)
    case CStep => (match s.c
      case CRetire(_) =>
        if s.head in s.heap && s.heap[s.head].isFree && l.dq != [] then l.(dq := l.dq[1..]) else l
      case CAppend(_) => l.(dq := if l.dq == [] then [] else l.dq[1..], cq := l.cq + [s.head])
      case CLinkCycle(_, _) => l.(dq := if l.dq == [] then [] else l.dq[1..], cq := l.cq + [s.cycleTail])
      case CUse(t) => l.(got := l.got + [Val(s.heap, t)])
      case _ => l)
    case _ => l
  }

  /** What the two threads are allowed to do: one producer that calls one operation at a time and
      only touches commands it allocated or was given back; one consumer; an allocator that does not
      hand out addresses in use, but may reuse freed ones. */
  predicate Legal(s: Sys, l: Log, a: Action) {
    match a
    case New(n, _) => n != NULL && n !in s.heap
    case Fill(n, _) => n in l.owned
    case CallInsert(n) => s.p.PIdle? && n in l.owned
    case CallGetCycle => s.p.PIdle?
    case PStep => true
    case CallProcess => s.c.CIdle?
    case CStep => true
  }

  // ---------------------------------------------------------------- the invariant

  /** The nodes of q are linked in order, except that a first node that is being retired is cut off. */
  ghost predicate Chained(h: Heap, q: seq<nat>, cut: bool) {
    && |q| > (if cut then 1 else 0)
    && (forall i | (if cut then 1 else 0) <= i < |q| - 1 :: Next(h, q[i]) == q[i + 1])
    && Next(h, q[|q| - 1]) == NULL
    && (cut ==> Next(h, q[0]) == NULL)
  }

  /** The command a running producer call has in its hands. */
  function Held(s: Sys): set<nat> {
    match s.p
    case PInsert(d) => {d}
    case PLink(d) => {d}
    case PFirst(d) => {d}
    case PReadHead => {s.tail}
    case PLinkHead(_) => {s.tail}
    case PClear(t) => {t}
    case PCheck(t) => {t}
    case _ => {}
  }

  /** A place for every live node: data list, recycling list, the producer's hands. */
  ghost predicate Apart(h: Heap, dq: seq<nat>, cq: seq<nat>, owned: set<nat>, held: set<nat>) {
    && NULL !in h && NoDup(dq) && NoDup(cq)
    && (forall n | n in dq :: n in h && n !in cq && n !in owned && n !in held)
    && (forall n | n in cq :: n in h && n !in owned && n !in held)
    && (forall n | n in owned :: n in h && n !in held)
    && forall n | n in held :: n in h
  }

  /** The commands in the producer's hands lead nowhere. */
  ghost predicate Loose(s: Sys, owned: set<nat>) {
    && (forall n | n in owned :: Next(s.heap, n) == NULL)
    && (!s.p.PClear? ==> forall n | n in Held(s) :: Next(s.heap, n) == NULL)
  }

  /** The consumer has cut its old head off the data list. */
  predicate Cut(c: ConsumerPc) {
    c.CRetire? || c.CAppend? || c.CFirst? || c.CReadCycle? || c.CLinkCycle?
  }

  /** The first node of the data list has been received but not used. */
  predicate Fresh(c: ConsumerPc) {
    c.CSetTail? || c.CMove? || c.CUse?
  }

  ghost predicate ProducerOk(s: Sys, l: Log)
    requires l.dq != [] && l.cq != []
  {
    && s.cycleHead == l.cq[0]
    && (s.tail == NULL || s.p.PReadHead? || s.p.PLinkHead? ==> l.sent == [])
    && (s.p.PFirst? ==> s.tail == NULL)
    && (s.p.PLink? ==> s.tail != NULL)
    && (s.p.PLinkHead? ==> s.p.h == l.dq[0])
    && (match s.p
        case PSetTail(d) => l.dq[|l.dq| - 1] == d
        case PReadHead => true
        case PLinkHead(_) => true
        case _ => s.tail != NULL ==> s.tail == l.dq[|l.dq| - 1])
    && (s.p.PAdvance? ==> |l.cq| > 1 && s.p.t == l.cq[0])
    && (s.p.PMove? ==> |l.cq| > 1 && s.p.t == l.cq[0] && s.p.x == l.cq[1])
  }

  ghost predicate ConsumerOk(s: Sys, l: Log)
    requires l.dq != [] && l.cq != []
  {
    && (if s.c.CSetTail? || s.c.CMove? then l.dq[0] == s.c.t else s.head == l.dq[0])
    && (s.c.CUse? ==> l.dq[0] == s.c.t)
    && (s.c.CTake? ==> |l.dq| > 1)
    && (s.c.CClear? || Cut(s.c) ==> |l.dq| > 1 && s.c.t == l.dq[1])
    && (l.sent == [] ==> (s.c.CIdle? || s.c.CTest?) && |l.dq| == 1)
    && (s.c.CAppend? ==> s.cycleTail != NULL)
    && (s.c.CFirst? ==> s.cycleTail == NULL)
    && (s.cycleTail == NULL ==> |l.cq| == 1)
    && (s.c.CLinkCycle? ==> s.c.h == l.cq[0])
    && (match s.c
        case CSetTail(_) => l.cq[|l.cq| - 1] == s.head && s.head != NULL
        case CReadCycle(_) => s.cycleTail == s.head && |l.cq| == 1
        case CLinkCycle(_, _) => s.cycleTail == s.head && |l.cq| == 1
        case _ => s.cycleTail != NULL ==> s.cycleTail == l.cq[|l.cq| - 1])
  }

  function Vals(h: Heap, q: seq<nat>): seq<int> {
    seq(|q|, i requires 0 <= i < |q| => Val(h, q[i]))
  }

  /** The nodes still to be used. */
  function Pending(dq: seq<nat>, c: ConsumerPc): seq<nat> {
    if Fresh(c) || dq == [] then dq else dq[1..]
  }

  /** What was received is what was sent first, the rest is in the data list, in order, and the
      command used last has kept its contents. */
  ghost predicate Delivered(s: Sys, l: Log) {
    && l.sent == l.got + Vals(s.heap, Pending(l.dq, s.c))
    && (!Fresh(s.c) && l.got != [] && l.dq != [] ==> Val(s.heap, l.dq[0]) == l.got[|l.got| - 1])
  }

  ghost predicate Inv(s: Sys, l: Log) {
    && Chained(s.heap, l.dq, Cut(s.c)) && Chained(s.heap, l.cq, false)
    && Apart(s.heap, l.dq, l.cq, l.owned, Held(s)) && Loose(s, l.owned)
    && ProducerOk(s, l) && ConsumerOk(s, l) && Delivered(s, l)
  }

  // ---------------------------------------------------------------- every step keeps the invariant

  lemma ChainedFrame(h: Heap, h': Heap, q: seq<nat>, cut: bool)
    requires Chained(h, q, cut) && forall n | n in q :: Next(h', n) == Next(h, n)
    ensures Chained(h', q, cut)
  {
  }

  lemma ChainedAppend(h: Heap, h': Heap, q: seq<nat>, x: nat, cut: bool)
    requires Chained(h, q, cut) && NoDup(q) && x !in q && x != NULL
    requires Next(h', q[|q| - 1]) == x && Next(h', x) == NULL
    requires forall n | n in q && n != q[|q| - 1] :: Next(h', n) == Next(h, n)
    ensures Chained(h', q + [x], cut)
  {
  }

  lemma ValsFrame(h: Heap, h': Heap, q: seq<nat>)
    requires forall n | n in q :: Val(h', n) == Val(h, n)
    ensures Vals(h', q) == Vals(h, q)
  {
  }

  lemma ValsConcat(h: Heap, a: seq<nat>, b: seq<nat>)
    ensures Vals(h, a + b) == Vals(h, a) + Vals(h, b)
  {
  }

  /** A write that changes nothing but the next field of a node that is in neither list. */
  lemma AsideKeeps(s: Sys, l: Log, h': Heap)
    requires Chained(s.heap, l.dq, Cut(s.c)) && Chained(s.heap, l.cq, false) && Delivered(s, l)
    requires forall n | n in l.dq || n in l.cq :: Next(h', n) == Next(s.heap, n) && Val(h', n) == Val(s.heap, n)
    ensures Chained(h', l.dq, Cut(s.c)) && Chained(h', l.cq, false)
    ensures Delivered(s.(heap := h'), l)
  {
    ChainedFrame(s.heap, h', l.dq, Cut(s.c));
    ChainedFrame(s.heap, h', l.cq, false);
    ValsFrame(s.heap, h', Pending(l.dq, s.c));
  }

  lemma NewIsApart(h: Heap, h': Heap, dq: seq<nat>, cq: seq<nat>, owned: set<nat>, held: set<nat>, n: nat)
    requires Apart(h, dq, cq, owned, held) && n !in h && n != NULL && h'.Keys == h.Keys + {n}
    ensures Apart(h', dq, cq, owned + {n}, held)
    ensures n !in dq && n !in cq && n !in owned && n !in held
  {
  }

  lemma NewKeeps(s: Sys, l: Log, n: nat, isFree: bool)
    requires Inv(s, l) && n != NULL && n !in s.heap
    ensures Inv(s.(heap := s.heap[n := Node(NULL, isFree, 0)]), l.(owned := l.owned + {n}))
  {
    hide Chained, Vals, Pending, Apart;
    NewIsApart(s.heap, s.heap[n := Node(NULL, isFree, 0)], l.dq, l.cq, l.owned, Held(s), n);
    AsideKeeps(s, l, s.heap[n := Node(NULL, isFree, 0)]);
  }

  lemma FillKeeps(s: Sys, l: Log, n: nat, v: int)
    requires Inv(s, l) && n in l.owned
    ensures n in s.heap && Inv(s.(heap := s.heap[n := s.heap[n].(val := v)]), l)
  {
    hide Chained, Vals, Pending;
    AsideKeeps(s, l, s.heap[n := s.heap[n].(val := v)]);
  }

  lemma CallInsertKeeps(s: Sys, l: Log, n: nat)
    requires Inv(s, l) && Legal(s, l, CallInsert(n))
    ensures Inv(Step(s, CallInsert(n)).s, Record(s, l, CallInsert(n)))
  {
    hide Chained, Vals, Apart, Pending;
    HandOver(s.heap, l.dq, l.cq, l.owned, n);
  }

  lemma CallGetCycleKeeps(s: Sys, l: Log)
    requires Inv(s, l) && Legal(s, l, CallGetCycle)
    ensures Inv(Step(s, CallGetCycle).s, Record(s, l, CallGetCycle))
  {
    hide Chained, Vals, Apart, Pending;
  }

  lemma CallProcessKeeps(s: Sys, l: Log)
    requires Inv(s, l) && Legal(s, l, CallProcess)
    ensures Inv(Step(s, CallProcess).s, Record(s, l, CallProcess))
  {
    hide Chained, Vals, Apart;
  }

  lemma HandOver(h: Heap, dq: seq<nat>, cq: seq<nat>, owned: set<nat>, n: nat)
    requires Apart(h, dq, cq, owned, {}) && n in owned
    ensures Apart(h, dq, cq, owned - {n}, {n})
  {
  }

  /** A command leaves the producer's hands for the end of the data list. */
  lemma ApartAppend(h: Heap, h': Heap, dq: seq<nat>, cq: seq<nat>, owned: set<nat>, held: set<nat>, d: nat)
    requires Apart(h, dq, cq, owned, held) && d in held && h'.Keys == h.Keys
    ensures Apart(h', dq + [d], cq, owned, held - {d})
  {
  }

  /** The new node goes to the end of the data list. */
  lemma LinkKeeps(s: Sys, l: Log)
    requires Inv(s, l) && s.p.PLink?
    ensures ProducerStep(s).Ok? && Inv(ProducerStep(s).s, Record(s, l, PStep))
  {
    AppendData(s, l, s.tail, s.p.d);
    var o := ProducerStep(s);
    ApartAppend(s.heap, o.s.heap, l.dq, l.cq, l.owned, Held(s), s.p.d);
    hide Chained, Vals, Apart;
  }

  lemma FirstLinkKeeps(s: Sys, l: Log)
    requires Inv(s, l) && s.p.PLinkHead?
    ensures ProducerStep(s).Ok? && Inv(ProducerStep(s).s, Record(s, l, PStep))
  {
    AppendData(s, l, s.p.h, s.tail);
    var o := ProducerStep(s);
    ApartAppend(s.heap, o.s.heap, l.dq, l.cq, l.owned, Held(s), s.tail);
    hide Chained, Vals, Apart;
  }

  lemma InHands(s: Sys, l: Log, d: nat)
    requires Inv(s, l) && d in Held(s) && !s.p.PClear?
    ensures d in s.heap && d != NULL && d !in l.dq && d !in l.cq && Next(s.heap, d) == NULL
    ensures l.dq != [] && NoDup(l.dq) && l.dq[|l.dq| - 1] in s.heap && l.dq[|l.dq| - 1] !in l.cq
  {
    assert l.dq[|l.dq| - 1] in l.dq;
  }

  lemma AppendData(s: Sys, l: Log, last: nat, d: nat)
    requires Inv(s, l) && last == l.dq[|l.dq| - 1] && d in Held(s) && !s.p.PClear?
    ensures last in s.heap
    ensures var h' := SetNext(s.heap, last, d);
      && Chained(h', l.dq + [d], Cut(s.c)) && Chained(h', l.cq, false)
      && l.sent + [Val(s.heap, d)] == l.got + Vals(h', Pending(l.dq + [d], s.c))
      && Val(h', l.dq[0]) == Val(s.heap, l.dq[0])
  {
    hide Apart, Loose, ProducerOk, ConsumerOk, Chained;
    InHands(s, l, d);
    var h' := SetNext(s.heap, last, d);
    ChainedAppend(s.heap, h', l.dq, d, Cut(s.c));
    ChainedFrame(s.heap, h', l.cq, false);
    var q := Pending(l.dq, s.c);
    assert Pending(l.dq + [d], s.c) == q + [d];
    ValsConcat(h', q, [d]);
    ValsFrame(s.heap, h', q);
    assert Vals(h', [d]) == [Val(s.heap, d)];
  }

  lemma HeadIsLive(s: Sys, l: Log)
    requires Inv(s, l)
    ensures NULL !in s.heap && l.dq != [] && l.dq[|l.dq| - 1] in s.heap
    ensures l.dq != [] && l.cq != [] && l.dq[0] in s.heap && l.cq[|l.cq| - 1] in s.heap
  {
    assert l.dq[|l.dq| - 1] in l.dq;
    assert l.dq[0] in l.dq && l.cq[|l.cq| - 1] in l.cq;
  }

  lemma InsertKeeps(s: Sys, l: Log)
    requires Inv(s, l) && (s.p.PIdle? || s.p.PInsert? || s.p.PSetTail? || s.p.PFirst? || s.p.PReadHead?)
    ensures ProducerStep(s).Ok? && Inv(ProducerStep(s).s, Record(s, l, PStep))
  {
    hide Chained, Vals, Pending, Apart;
    HeadIsLive(s, l);
  }

  lemma TestKeeps(s: Sys, l: Log)
    requires Inv(s, l) && (s.p.PTest? || s.p.PAdvance?)
    ensures ProducerStep(s).Ok? && Inv(ProducerStep(s).s, Record(s, l, PStep))
  {
    hide Vals, Pending;
  }

  lemma TakeKeeps(s: Sys, l: Log)
    requires Inv(s, l) && s.p.PMove?
    ensures ProducerStep(s).Ok? && Inv(ProducerStep(s).s, Record(s, l, PStep))
  {
    TakeFirst(s.heap, l.cq, l.dq, l.owned);
  }

  /** The head of the recycling list goes into the producer's hands. */
  lemma TakeFirst(h: Heap, cq: seq<nat>, dq: seq<nat>, owned: set<nat>)
    requires Apart(h, dq, cq, owned, {}) && Chained(h, cq, false) && |cq| > 1
    ensures Apart(h, dq, cq[1..], owned, {cq[0]}) && Chained(h, cq[1..], false)
  {
    assert forall n | n in cq[1..] :: n in cq && n != cq[0];
  }

  lemma ClearKeeps(s: Sys, l: Log)
    requires Inv(s, l) && s.p.PClear?
    ensures ProducerStep(s).Ok? && Inv(ProducerStep(s).s, Record(s, l, PStep))
  {
    hide Chained, Vals, Pending;
    AsideKeeps(s, l, ProducerStep(s).s.heap);
  }

  lemma ReturnKeeps(s: Sys, l: Log)
    requires Inv(s, l) && s.p.PCheck? && !s.heap[s.p.t].isFree
    ensures ProducerStep(s).Ok? && Inv(ProducerStep(s).s, Record(s, l, PStep))
  {
  }

  lemma DropKeeps(s: Sys, l: Log)
    requires Inv(s, l) && s.p.PCheck? && s.heap[s.p.t].isFree
    ensures ProducerStep(s).Ok? && Inv(ProducerStep(s).s, Record(s, l, PStep))
  {
    hide Chained, Vals, Pending;
    AsideKeeps(s, l, s.heap - {s.p.t});
  }

  lemma SecondNode(s: Sys, l: Log)
    requires Inv(s, l) && !Cut(s.c)
    ensures l.dq != [] && (|l.dq| == 1 ==> Next(s.heap, l.dq[0]) == NULL)
    ensures |l.dq| > 1 ==> Next(s.heap, l.dq[0]) == l.dq[1] != NULL
  {
    if |l.dq| > 1 {
      assert l.dq[1] in l.dq;
    }
  }

  lemma ReadKeeps(s: Sys, l: Log)
    requires Inv(s, l) && (s.c.CIdle? || s.c.CTest? || s.c.CTake?)
    ensures ConsumerStep(s).Ok? && Inv(ConsumerStep(s).s, Record(s, l, CStep))
  {
    hide Chained, Apart, Vals;
    HeadIsLive(s, l);
    SecondNode(s, l);
  }

  lemma SetTailKeeps(s: Sys, l: Log)
    requires Inv(s, l) && (s.c.CSetTail? || s.c.CFirst? || s.c.CReadCycle?)
    ensures ConsumerStep(s).Ok? && Inv(ConsumerStep(s).s, Record(s, l, CStep))
  {
    hide Chained, Vals, Apart;
    HeadIsLive(s, l);
  }

  lemma ApartFrame(h: Heap, h': Heap, dq: seq<nat>, cq: seq<nat>, owned: set<nat>, held: set<nat>)
    requires Apart(h, dq, cq, owned, held) && h'.Keys == h.Keys
    ensures Apart(h', dq, cq, owned, held)
  {
  }

  lemma Cutting(s: Sys, l: Log)
    requires Inv(s, l) && s.c.CClear?
    ensures s.head == l.dq[0] && NoDup(l.dq)
    ensures forall n | n in l.cq || n in l.owned || n in Held(s) :: n != s.head
  {
    assert l.dq[0] in l.dq;
  }

  lemma CutKeeps(s: Sys, l: Log)
    requires Inv(s, l) && s.c.CClear?
    ensures ConsumerStep(s).Ok? && Inv(ConsumerStep(s).s, Record(s, l, CStep))
  {
    hide Vals, Apart;
    HeadIsLive(s, l);
    Cutting(s, l);
    var h' := ConsumerStep(s).s.heap;
    assert Chained(h', l.dq, true);
    ChainedFrame(s.heap, h', l.cq, false);
    ValsFrame(s.heap, h', Pending(l.dq, s.c));
    ApartFrame(s.heap, h', l.dq, l.cq, l.owned, Held(s));
    hide Chained;
  }

  lemma KeepKeeps(s: Sys, l: Log)
    requires Inv(s, l) && s.c.CRetire? && !s.heap[s.head].isFree
    ensures ConsumerStep(s).Ok? && Inv(ConsumerStep(s).s, Record(s, l, CStep))
  {
  }

  /** The node being retired is the head of the data list and nowhere else. */
  lemma Retiring(s: Sys, l: Log)
    requires Inv(s, l) && Cut(s.c)
    ensures l.dq != [] && l.cq != [] && s.head == l.dq[0] && s.head in s.heap && s.head != NULL && Next(s.heap, s.head) == NULL
    ensures forall n | n in l.dq[1..] :: n != s.head && n !in l.cq
    ensures forall n | n in l.cq || n in l.owned || n in Held(s) :: n != s.head
    ensures forall n | n in l.owned || n in Held(s) :: n !in l.cq
    ensures NoDup(l.cq) && l.cq[|l.cq| - 1] in s.heap && l.cq[|l.cq| - 1] in l.cq
  {
    HeadIsLive(s, l);
    assert l.dq[0] in l.dq;
    NoDupTail(l.dq);
    assert forall n | n in l.dq[1..] :: n in l.dq;
  }

  lemma DeleteKeeps(s: Sys, l: Log)
    requires Inv(s, l) && s.c.CRetire? && s.heap[s.head].isFree
    ensures ConsumerStep(s).Ok? && Inv(ConsumerStep(s).s, Record(s, l, CStep))
  {
    HeadIsLive(s, l);
    DeletedLists(s, l);
    DeletedPlaces(s, l);
    hide Chained, Vals, Apart, Loose, ProducerOk, ConsumerOk, Delivered;
  }

  /** The two lists when the head of the data list is deleted. */
  lemma DeletedLists(s: Sys, l: Log)
    requires Inv(s, l) && Cut(s.c)
    ensures var h' := s.heap - {s.head};
      && l.dq != [] && Chained(h', l.dq[1..], false) && Chained(h', l.cq, false)
      && Apart(h', l.dq[1..], l.cq, l.owned, Held(s))
  {
    Retiring(s, l);
    hide Chained, Vals, Apart, Loose, ProducerOk, ConsumerOk, Delivered;
    var h' := s.heap - {s.head};
    Shorter(s, l, h');
    ChainedFrame(s.heap, h', l.cq, false);
    ApartShorter(s.heap, h', l.dq, l.cq, [], l.owned, Held(s));
    assert l.cq + [] == l.cq;
  }

  /** The rest of the invariant when the head of the data list is deleted. */
  lemma DeletedPlaces(s: Sys, l: Log)
    requires Inv(s, l) && s.c.CRetire? && s.heap[s.head].isFree
    ensures ConsumerStep(s).Ok?
    ensures var s', l' := ConsumerStep(s).s, Record(s, l, CStep);
      && l'.dq != [] && Loose(s', l'.owned) && ProducerOk(s', l') && ConsumerOk(s', l') && Delivered(s', l')
  {
    hide Chained, Vals, Apart;
    Retiring(s, l);
    Shorter(s, l, s.heap - {s.head});
  }

  /** The head of the data list goes away or to the end of the recycling list. */
  lemma ApartShorter(h: Heap, h': Heap, dq: seq<nat>, cq: seq<nat>, add: seq<nat>, owned: set<nat>, held: set<nat>)
    requires Apart(h, dq, cq, owned, held) && dq != []
    requires (add == [] && h'.Keys == h.Keys - {dq[0]}) || (add == [dq[0]] && h'.Keys == h.Keys)
    ensures Apart(h', dq[1..], cq + add, owned, held)
  {
    assert dq == [dq[0]] + dq[1..];
    assert forall n | n in dq[1..] :: n in dq && n != dq[0];
    var all := cq + add;
    forall i, j | 0 <= i < j < |all|
      ensures all[i] != all[j]
    {
      if j < |cq| {
        assert all[i] == cq[i] && all[j] == cq[j];
      } else {
        assert all[i] == cq[i] && cq[i] in cq;
      }
    }
  }

  /** The data list without its retired head. */
  lemma Shorter(s: Sys, l: Log, h': Heap)
    requires Inv(s, l) && Cut(s.c)
    requires forall n | n in l.dq[1..] :: Next(h', n) == Next(s.heap, n) && Val(h', n) == Val(s.heap, n)
    ensures Chained(h', l.dq[1..], false) && l.sent == l.got + Vals(h', l.dq[1..])
    ensures l.dq == [l.dq[0]] + l.dq[1..]
  {
    assert Chained(s.heap, l.dq[1..], false);
    ChainedFrame(s.heap, h', l.dq[1..], false);
    ValsFrame(s.heap, h', l.dq[1..]);
  }

  lemma AppendKeeps(s: Sys, l: Log)
    requires Inv(s, l) && s.c.CAppend?
    ensures ConsumerStep(s).Ok? && Inv(ConsumerStep(s).s, Record(s, l, CStep))
  {
    hide Chained, Vals, Apart;
    Retiring(s, l);
    var h' := ConsumerStep(s).s.heap;
    Shorter(s, l, h');
    ChainedAppend(s.heap, h', l.cq, s.head, false);
    ApartShorter(s.heap, h', l.dq, l.cq, [s.head], l.owned, Held(s));
  }

  lemma FirstAppendKeeps(s: Sys, l: Log)
    requires Inv(s, l) && s.c.CLinkCycle?
    ensures ConsumerStep(s).Ok? && Inv(ConsumerStep(s).s, Record(s, l, CStep))
  {
    hide Chained, Vals, Apart;
    Retiring(s, l);
    var h' := ConsumerStep(s).s.heap;
    Shorter(s, l, h');
    ChainedAppend(s.heap, h', l.cq, s.head, false);
    ApartShorter(s.heap, h', l.dq, l.cq, [s.head], l.owned, Held(s));
  }

  lemma MoveKeeps(s: Sys, l: Log)
    requires Inv(s, l) && s.c.CMove?
    ensures ConsumerStep(s).Ok? && Inv(ConsumerStep(s).s, Record(s, l, CStep))
  {
  }

  lemma UseKeeps(s: Sys, l: Log)
    requires Inv(s, l) && s.c.CUse?
    ensures ConsumerStep(s).Ok? && Inv(ConsumerStep(s).s, Record(s, l, CStep))
  {
    hide Chained, Apart;
    HeadIsLive(s, l);
    var t := s.c.t;
    assert l.dq == [t] + l.dq[1..];
    ValsConcat(s.heap, [t], l.dq[1..]);
    assert l.got + Vals(s.heap, l.dq) == l.got + [Val(s.heap, t)] + Vals(s.heap, l.dq[1..]);
  }

  lemma ProducerKeeps(s: Sys, l: Log)
    requires Inv(s, l)
    ensures ProducerStep(s).Ok? && Inv(ProducerStep(s).s, Record(s, l, PStep))
  {
    match s.p
    case PIdle => InsertKeeps(s, l);
    case PInsert(_) => InsertKeeps(s, l);
    case PLink(_) => LinkKeeps(s, l);
    case PSetTail(_) => InsertKeeps(s, l);
    case PFirst(_) => InsertKeeps(s, l);
    case PReadHead => InsertKeeps(s, l);
    case PLinkHead(_) => FirstLinkKeeps(s, l);
    case PTest => TestKeeps(s, l);
    case PAdvance(_) => TestKeeps(s, l);
    case PMove(_, _) => TakeKeeps(s, l);
    case PClear(_) => ClearKeeps(s, l);
    case PCheck(t) =>
      assert t in Held(s);
      if s.heap[t].isFree {
        DropKeeps(s, l);
      } else {
        ReturnKeeps(s, l);
      }
  }

  lemma ConsumerKeeps(s: Sys, l: Log)
    requires Inv(s, l)
    ensures ConsumerStep(s).Ok? && Inv(ConsumerStep(s).s, Record(s, l, CStep))
  {
    match s.c
    case CIdle => ReadKeeps(s, l);
    case CTest => ReadKeeps(s, l);
    case CTake => ReadKeeps(s, l);
    case CClear(_) => CutKeeps(s, l);
    case CRetire(_) =>
      assert l.dq[0] in l.dq;
      if s.heap[s.head].isFree {
        DeleteKeeps(s, l);
      } else {
        KeepKeeps(s, l);
      }
    case CAppend(_) => AppendKeeps(s, l);
    case CSetTail(_) => SetTailKeeps(s, l);
    case CFirst(_) => SetTailKeeps(s, l);
    case CReadCycle(_) => SetTailKeeps(s, l);
    case CLinkCycle(_, _) => FirstAppendKeeps(s, l);
    case CMove(_) => MoveKeeps(s, l);
    case CUse(_) => UseKeeps(s, l);
  }

  /** No step of either thread touches a null or freed node, and every step keeps the invariant. */
  lemma StepKeeps(s: Sys, l: Log, a: Action)
    requires Inv(s, l) && Legal(s, l, a)
    ensures Step(s, a).Ok? && Inv(Step(s, a).s, Record(s, l, a))
  {
    match a
    case New(n, isFree) => NewKeeps(s, l, n, isFree);
    case Fill(n, v) => FillKeeps(s, l, n, v);
    case CallInsert(n) => CallInsertKeeps(s, l, n);
    case CallGetCycle => CallGetCycleKeeps(s, l);
    case PStep => ProducerKeeps(s, l);
    case CallProcess => CallProcessKeeps(s, l);
    case CStep => ConsumerKeeps(s, l);
  }

  // ---------------------------------------------------------------- runs

  datatype Point = At(s: Sys, l: Log) | Crash

  /** The point that a run reaches from pt. */
  function After(pt: Point, acts: seq<Action>): Point
    decreases |acts|
  {
    if acts == [] || pt.Crash? then pt
    else After(Advance(pt, acts[0]), acts[1..])
  }

  function Advance(pt: Point, a: Action): Point
    requires pt.At?
  {
    var o := Step(pt.s, a);
    if o.Ok? then At(o.s, Record(pt.s, pt.l, a)) else Crash
  }

  predicate LegalRun(pt: Point, acts: seq<Action>)
    decreases |acts|
  {
    acts == [] || pt.Crash? || (Legal(pt.s, pt.l, acts[0]) && LegalRun(Advance(pt, acts[0]), acts[1..]))
  }

  function Start(h: nat, ch: nat): Point {
    At(Boot(h, ch), Log([h], [ch], {}, [], []))
  }

  lemma {:induction false} RunKeeps(pt: Point, acts: seq<Action>)
    requires pt.At? && Inv(pt.s, pt.l) && LegalRun(pt, acts)
    ensures After(pt, acts).At? && Inv(After(pt, acts).s, After(pt, acts).l)
    decreases |acts|
  {
    if acts != [] {
      StepKeeps(pt.s, pt.l, acts[0]);
      RunKeeps(Advance(pt, acts[0]), acts[1..]);
    }
  }

  /** Whatever the interleaving, no step ever accesses a null or freed node, the contents received
      are a prefix of the contents sent, and what is missing is in the data list, in order. */
  lemma {:induction false} EveryRunDelivers(h: nat, ch: nat, acts: seq<Action>)
    requires h != NULL && ch != NULL && h != ch && LegalRun(Start(h, ch), acts)
    ensures var pt := After(Start(h, ch), acts);
      && pt.At? && Inv(pt.s, pt.l)
      && pt.l.got <= pt.l.sent
      && pt.l.sent[|pt.l.got|..] == Vals(pt.s.heap, Pending(pt.l.dq, pt.s.c))
  {
    RunKeeps(Start(h, ch), acts);
  }

  /** GetCycle returns a command that is in neither list: not one the consumer has yet to receive,
      and not the one it received last, which stays at the head of the data list. */
  lemma RecycledIsFree(s: Sys, l: Log)
    requires Inv(s, l) && s.p.PCheck? && !s.heap[s.p.t].isFree
    ensures var l' := Record(s, l, PStep);
      && s.p.t in l'.owned && s.p.t !in l'.dq && s.p.t !in l'.cq
      && Next(s.heap, s.p.t) == NULL
    ensures !s.c.CSetTail? && !s.c.CMove? ==> s.p.t != s.head
  {
    assert s.p.t in Held(s);
    assert l.dq[0] in l.dq;
  }

  /** The command the consumer is working on keeps its contents, whatever the producer does. */
  lemma LastReceivedIsStable(s: Sys, l: Log, a: Action)
    requires Inv(s, l) && Legal(s, l, a) && !a.CStep? && (s.c.CTest? || s.c.CIdle?) && l.got != []
    ensures var s' := Step(s, a).s;
      s'.head == s.head && Val(s'.heap, s'.head) == l.got[|l.got| - 1] == Val(s.heap, s.head)
  {
    StepKeeps(s, l, a);
    ProducerLeavesHistory(s, l, a);
  }

  lemma ProducerLeavesHistory(s: Sys, l: Log, a: Action)
    requires Inv(s, l) && !a.CStep?
    ensures Record(s, l, a).got == l.got
    ensures Step(s, a).Ok? ==> Step(s, a).s.head == s.head && (!a.CallProcess? ==> Step(s, a).s.c == s.c)
  {
    hide Inv;
  }

  // ---------------------------------------------------------------- draining

  /** When the consumer finds nothing, it has received everything that was sent. */
  lemma NothingMeansAll(s: Sys, l: Log)
    requires Inv(s, l) && s.c.CTest? && Next(s.heap, s.head) == NULL
    ensures l.got == l.sent
  {
    SecondNode(s, l);
  }

  function Rank(c: ConsumerPc): nat {
    match c
    case CUse(_) => 0
    case CMove(_) => 1
    case CSetTail(_) => 2
    case CLinkCycle(_, _) => 2
    case CAppend(_) => 3
    case CReadCycle(_) => 3
    case CFirst(_) => 4
    case CRetire(_) => 5
    case CClear(_) => 6
    case CTake => 7
    case CTest => 8
    case CIdle => 9
  }

  /** A step of the consumer uses up a pending command, or gets it closer to that, or ends the loop. */
  ghost predicate Progress(s: Sys, l: Log, s': Sys, l': Log) {
    && l'.sent == l.sent
    && (s'.c.CIdle? ==> l.got == l'.got == l.sent)
    && (!s'.c.CIdle? ==> 10 * |Pending(l'.dq, s'.c)| + Rank(s'.c) < 10 * |Pending(l.dq, s.c)| + Rank(s.c))
  }

  lemma TestProgress(s: Sys, l: Log)
    requires Inv(s, l) && s.c.CTest? && ConsumerStep(s).Ok?
    ensures Progress(s, l, ConsumerStep(s).s, Record(s, l, CStep))
  {
    if Next(s.heap, s.head) == NULL {
      NothingMeansAll(s, l);
    }
  }

  lemma ConsumerProgress(s: Sys, l: Log)
    requires Inv(s, l) && !s.c.CIdle? && !s.c.CTest? && ConsumerStep(s).Ok?
    ensures Progress(s, l, ConsumerStep(s).s, Record(s, l, CStep))
  {
    hide Vals, Loose;
  }

  /** The consumer, left alone, comes to an end with everything received. */
  lemma {:induction false} Drain(s: Sys, l: Log) returns (n: nat)
    requires Inv(s, l) && !s.c.CIdle?
    ensures var pt := After(At(s, l), seq(n, _ => CStep));
      pt.At? && pt.s.c.CIdle? && pt.l.sent == l.sent == pt.l.got
    decreases 10 * |Pending(l.dq, s.c)| + Rank(s.c)
  {
    hide Inv, ConsumerStep;
    ConsumerKeeps(s, l);
    if s.c.CTest? {
      TestProgress(s, l);
    } else {
      ConsumerProgress(s, l);
    }
    var pt := Advance(At(s, l), CStep);
    if pt.s.c.CIdle? {
      n := 1;
      assert After(At(s, l), seq(1, _ => CStep)) == pt;
    } else {
      var m := Drain(pt.s, pt.l);
      n := m + 1;
      assert seq(n, _ => CStep)[1..] == seq(m, _ => CStep);
    }
  }

  lemma LogGrows(s: Sys, l: Log, a: Action)
    requires Inv(s, l) && Legal(s, l, a)
    ensures var r := Record(s, l, a);
      l.sent <= r.sent && l.got <= r.got && (s.c.CIdle? ==> r.got == l.got)
  {
    hide Inv;
  }

  /** The consumer gives up only when it has received everything. */
  lemma GivesUpLast(s: Sys, l: Log, a: Action)
    requires Inv(s, l) && Legal(s, l, a) && !s.c.CIdle? && Step(s, a).Ok? && Step(s, a).s.c.CIdle?
    ensures l.got == l.sent
  {
    assert s.c.CTest? && Next(s.heap, s.head) == NULL by {
      hide Inv;
    }
    NothingMeansAll(s, l);
  }

  predicate NoWakeUp(acts: seq<Action>) {
    forall a | a in acts :: !a.CallProcess?
  }

  /** One wake-up is enough, whatever the producer does meanwhile: when the consumer, once running, is
      idle again, it has received everything that had been sent before, and what it received stays
      received. */
  lemma {:induction false} WakeUpDelivers(s: Sys, l: Log, acts: seq<Action>)
    requires Inv(s, l) && LegalRun(At(s, l), acts) && NoWakeUp(acts)
    ensures var pt := After(At(s, l), acts);
      && pt.At? && l.got <= pt.l.got
      && (!s.c.CIdle? && pt.s.c.CIdle? ==> l.sent <= pt.l.got)
    decreases |acts|
  {
    hide Inv, Legal, Step, Record;
    if acts != [] {
      var a := acts[0];
      StepKeeps(s, l, a);
      LogGrows(s, l, a);
      var pt := Advance(At(s, l), a);
      assert acts == [a] + acts[1..];
      WakeUpDelivers(pt.s, pt.l, acts[1..]);
      if !s.c.CIdle? && pt.s.c.CIdle? {
        GivesUpLast(s, l, a);
      }
    }
  }

  /** However many wake-ups were lost, the next one delivers every command sent before it: losing
      one only delays. */
  lemma OneWakeUpDeliversAll(s: Sys, l: Log) returns (n: nat)
    requires Inv(s, l) && s.c.CIdle?
    ensures var pt := After(At(s, l), [CallProcess] + seq(n, _ => CStep));
      pt.At? && pt.s.c.CIdle? && pt.l.got == pt.l.sent == l.sent
  {
    StepKeeps(s, l, CallProcess);
    var pt := Advance(At(s, l), CallProcess);
    n := Drain(pt.s, pt.l);
    assert ([CallProcess] + seq(n, _ => CStep))[1..] == seq(n, _ => CStep);
  }
}
