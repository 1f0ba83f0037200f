/** The stream that a connection sends: bytes go out directly or wait in the output buffer, and the
    kernel takes as many of them as it likes. */
module SendPath {
  import opened Bytes
  import opened IoBuffer

  /** What the kernel does with a send: it takes some bytes, has no room now, or fails. */
  datatype Answer = Took(n: nat) | Again | Failed

  /** The answers to the two sends a message may cause. */
  datatype Kernel = Kernel(flush: Answer, direct: Answer)

  const FLUSH_SIZE := 0x80_0000

  /** The most that one system call moves. */
  const MOST_MOVED := 0x7FFF_F000

  datatype Conn = Conn(connected: bool, wire: Bytes, cache: Bytes, isWrite: bool)

  /** Everything that is out or waiting, in order. */
  function Stream(c: Conn): Bytes {
    c.wire + c.cache
  }

  predicate CanTake(a: Answer, most: nat) {
    a.Took? ==> a.n <= most
  }

  predicate KernelOk(c: Conn, data: Bytes, k: Kernel) {
    CanTake(k.flush, Least(FLUSH_SIZE, |c.cache|)) && CanTake(k.direct, Least(MOST_MOVED, |data|))
  }

  function Taken(a: Answer): nat {
    if a.Took? then a.n else 0
  }

  /** Waiting bytes go out. */
  function Flush(c: Conn, a: Answer): Conn
    requires CanTake(a, |c.cache|)
  {
    c.(wire := c.wire + c.cache[..Taken(a)], cache := c.cache[Taken(a)..])
  }

  /** The rest of a message joins the buffer, unless a 32-bit sum says it is too much. */
  function Save(c: Conn, rest: Bytes, limit: nat): (Conn, bool) {
    if limit < (|c.cache| + |rest|) % U32 then (c, false)
    else (c.(cache := c.cache + rest, isWrite := true), true)
  }

  /** Sending past the buffer. */
  function Direct(c: Conn, data: Bytes, limit: nat, a: Answer): (Conn, bool)
    requires CanTake(a, |data|)
  {
    if a.Failed? then (c, false)
    else
      var d := c.(wire := c.wire + data[..Taken(a)]);
      if Taken(a) == |data| then (d.(isWrite := false), true) else Save(d, data[Taken(a)..], limit)
  }

  /** What the sender takes for the number of waiting bytes: a 32-bit part of it. */
  function Waiting(c: Conn): nat {
    |c.cache| % U32
  }

  function Send(c: Conn, data: Bytes, limit: nat, k: Kernel): (Conn, bool)
    requires KernelOk(c, data, k)
  {
    if !c.connected then (c, true)
    else if Waiting(c) == 0 then Direct(c, data, limit, k.direct)
    else if k.flush.Failed? then (c, false)
    else
      var d := Flush(c, k.flush);
      if Waiting(d) != 0 then Save(d, data, limit) else Direct(d, data, limit, k.direct)
  }

  /** The descriptor has become writable. */
  function Drain(c: Conn, a: Answer): (Conn, bool)
    requires CanTake(a, Least(FLUSH_SIZE, |c.cache|))
  {
    if a.Failed? then (c, false)
    else
      var d := Flush(c, a);
      (if d.cache == [] then d.(isWrite := false) else d, true)
  }

  // ---------------------------------------------------------------- what holds of one call

  lemma FlushKeepsStream(c: Conn, a: Answer)
    requires CanTake(a, |c.cache|)
    ensures Stream(Flush(c, a)) == Stream(c)
  {
    assert c.cache[..Taken(a)] + c.cache[Taken(a)..] == c.cache;
    assert c.wire + (c.cache[..Taken(a)] + c.cache[Taken(a)..]) == c.wire + c.cache[..Taken(a)] + c.cache[Taken(a)..];
  }

  /** An accepted message is appended to the stream; a refused one leaves there what went out directly. */
  lemma DirectStream(c: Conn, data: Bytes, limit: nat, a: Answer)
    requires CanTake(a, |data|) && c.cache == []
    ensures var (d, ok) := Direct(c, data, limit, a); Stream(d) == Stream(c) + data[..if ok then |data| else Taken(a)]
  {
    var (d, ok) := Direct(c, data, limit, a);
    var n := Taken(a);
    assert c.wire + data[..n] + [] == c.wire + [] + data[..n];
    assert data[..|data|] == data;
    assert c.wire + data[..n] + data[n..] == c.wire + data;
    assert c.wire + [] == c.wire;
    assert c.cache + data[n..] == data[n..];
  }

  lemma SaveStream(c: Conn, data: Bytes, limit: nat)
    ensures var (d, ok) := Save(c, data, limit); Stream(d) == Stream(c) + if ok then data else []
  {
    assert c.wire + (c.cache + data) == c.wire + c.cache + data;
    assert Stream(c) + [] == Stream(c);
  }

  /** The message goes out directly, past what waits then. */
  predicate GoesDirect(c: Conn, k: Kernel)
    requires CanTake(k.flush, |c.cache|)
  {
    c.connected && (Waiting(c) == 0 || (!k.flush.Failed? && Waiting(Flush(c, k.flush)) == 0))
  }

  /** The connection when the message is about to go out. */
  function Flushed(c: Conn, k: Kernel): Conn
    requires CanTake(k.flush, |c.cache|)
  {
    if Waiting(c) == 0 then c else Flush(c, k.flush)
  }

  /** The message goes out directly while bytes wait. */
  predicate Overtakes(c: Conn, k: Kernel)
    requires CanTake(k.flush, |c.cache|)
  {
    GoesDirect(c, k) && Flushed(c, k).cache != []
  }

  /** The bytes of a refused message that are out nevertheless. */
  function Leaked(c: Conn, data: Bytes, limit: nat, k: Kernel): nat
    requires KernelOk(c, data, k)
  {
    if !Send(c, data, limit, k).1 && GoesDirect(c, k) then Taken(k.direct) else 0
  }

  /** The stream grows by as many bytes as an accepted message has, or as leaked of a refused one. */
  lemma SendCounts(c: Conn, data: Bytes, limit: nat, k: Kernel)
    requires KernelOk(c, data, k) && c.connected
    ensures var (d, ok) := Send(c, data, limit, k);
      |Stream(d)| == |Stream(c)| + if ok then |data| else Leaked(c, data, limit, k)
  {
  }

  /** Unless it overtakes waiting bytes, the stream grows by an accepted message, or by what leaked of a
      refused one. */
  lemma SendStream(c: Conn, data: Bytes, limit: nat, k: Kernel)
    requires KernelOk(c, data, k) && c.connected && !Overtakes(c, k)
    ensures var (d, ok) := Send(c, data, limit, k);
      Stream(d) == Stream(c) + if ok then data else data[..Leaked(c, data, limit, k)]
  {
    assert data[..|data|] == data && Stream(c) + [] == Stream(c);
    if Waiting(c) == 0 {
      DirectStream(c, data, limit, k.direct);
    } else if !k.flush.Failed? {
      var d := Flush(c, k.flush);
      FlushKeepsStream(c, k.flush);
      if Waiting(d) != 0 {
        SaveStream(d, data, limit);
      } else {
        DirectStream(d, data, limit, k.direct);
      }
    }
  }

  lemma Exchanged(w: Bytes, a: Bytes, b: Bytes)
    ensures w + a + b == w + b + a <==> a + b == b + a
  {
    assert w + a + b == w + (a + b) && w + b + a == w + (b + a);
    assert (w + (a + b))[|w|..] == a + b && (w + (b + a))[|w|..] == b + a;
  }

  /** A message that overtakes and goes out whole is reported as sent, lies in front of what waited, and
      write interest is dropped with bytes waiting. */
  lemma OvertakingStream(c: Conn, data: Bytes, limit: nat, k: Kernel)
    requires KernelOk(c, data, k) && Overtakes(c, k) && k.direct == Took(|data|)
    ensures var (d, ok) := Send(c, data, limit, k);
      var rest := Flushed(c, k).cache;
      && ok && !Asking(d)
      && (Stream(d) == Stream(c) + data <==> data + rest == rest + data)
  {
    var d := Flushed(c, k);
    FlushKeepsStream(c, k.flush);
    assert data[..|data|] == data;
    assert Send(c, data, limit, k) == (d.(wire := d.wire + data, isWrite := false), true);
    Exchanged(d.wire, data, d.cache);
  }

  /** What waits can be seen in 32 bits, whatever one flush sends. */
  predicate InSight(c: Conn) {
    |c.cache| < U32 || Waiting(c) > FLUSH_SIZE
  }

  /** A message cannot overtake, whatever the kernel does, exactly if fewer than 2^32 bytes wait or one
      flush cannot bring their number to a multiple of that. */
  lemma NeverOvertakesWhen(c: Conn, data: Bytes)
    requires c.connected
    ensures (forall k | KernelOk(c, data, k) :: !Overtakes(c, k)) <==> InSight(c)
  {
    if InSight(c) {
      forall k | KernelOk(c, data, k)
        ensures !Overtakes(c, k)
      {
      }
    } else {
      var k := Kernel(Took(Waiting(c)), Again);
      assert KernelOk(c, data, k) && Overtakes(c, k);
    }
  }

  /** What a flush sends. */
  function SentFirst(c: Conn, k: Kernel): nat {
    if |c.cache| % U32 != 0 && k.flush.Took? then k.flush.n else 0
  }

  /** What waits, seen in 32 bits, when the message is about to go out. */
  function StillWaiting(c: Conn, k: Kernel): nat
    requires CanTake(k.flush, |c.cache|)
  {
    (|c.cache| - SentFirst(c, k)) % U32
  }

  /** The part of the message that goes out directly. */
  function SentDirectly(c: Conn, k: Kernel): nat
    requires CanTake(k.flush, |c.cache|)
  {
    if StillWaiting(c, k) == 0 && k.direct.Took? then k.direct.n else 0
  }

  /** A message is accepted exactly if the connection is not connected, or no system call on its way fails
      and it goes out whole or the 32-bit sum of what waits and its rest is within the limit. */
  lemma SendAccepts(c: Conn, data: Bytes, limit: nat, k: Kernel)
    requires KernelOk(c, data, k)
    ensures Send(c, data, limit, k).1 <==>
      || !c.connected
      || (&& !(|c.cache| % U32 != 0 && k.flush.Failed?)
          && !(StillWaiting(c, k) == 0 && k.direct.Failed?)
          && ((StillWaiting(c, k) == 0 && SentDirectly(c, k) == |data|)
              || (|c.cache| - SentFirst(c, k) + |data| - SentDirectly(c, k)) % U32 <= limit))
  {
  }

  /** On the wire are the bytes that a flush sends, and then what goes out directly; the connection stays
      connected. A message that is accepted leaves write interest on exactly if bytes wait. */
  lemma SendMoves(c: Conn, data: Bytes, limit: nat, k: Kernel)
    requires KernelOk(c, data, k) && c.connected
    ensures var (d, ok) := Send(c, data, limit, k);
      && d.connected
      && (if |c.cache| % U32 != 0 && k.flush.Failed? then d == c
          else d.wire == c.wire + c.cache[..SentFirst(c, k)] + data[..SentDirectly(c, k)])
      && (ok && !Overtakes(c, k) ==> (d.isWrite <==> d.cache != []))
      && (!ok ==> d.isWrite == c.isWrite)
  {
    assert c.wire + [] == c.wire && c.cache[..0] == [] && data[..0] == [];
    assert c.wire + c.cache[..SentFirst(c, k)] + [] == c.wire + c.cache[..SentFirst(c, k)];
  }

  /** A writable event moves what the kernel takes from the buffer to the wire, and turns write interest off
      exactly if nothing waits any more. */
  lemma DrainMoves(c: Conn, a: Answer)
    requires CanTake(a, Least(FLUSH_SIZE, |c.cache|))
    ensures var (d, ok) := Drain(c, a);
      var n := if a.Took? then a.n else 0;
      && ok == !a.Failed?
      && d == (if !ok then c
               else Conn(c.connected, c.wire + c.cache[..n], c.cache[n..], c.isWrite && |c.cache| != n))
  {
  }

  // ---------------------------------------------------------------- when order and bound are kept

  /** The stream is what was accepted, whatever the kernel does. */
  ghost predicate KeepsOrder(c: Conn, data: Bytes, limit: nat) {
    forall k | KernelOk(c, data, k) :: KeepsOrderWith(c, data, limit, k)
  }

  ghost predicate KeepsOrderWith(c: Conn, data: Bytes, limit: nat, k: Kernel)
    requires KernelOk(c, data, k)
  {
    var (d, ok) := Send(c, data, limit, k);
    Stream(d) == Stream(c) + if ok then data else []
  }

  /** A send that cannot overtake keeps the stream in order under every behaviour of the kernel exactly if
      the message is at most one byte longer than the limit, or the waiting bytes are too many to go out
      first. A longer message can be cut: some of it goes out, the rest is refused. */
  lemma OrderIsKeptWhen(c: Conn, data: Bytes, limit: nat)
    requires c.connected && |data| < U32 && InSight(c)
    ensures KeepsOrder(c, data, limit) <==> |data| <= limit + 1 || |c.cache| > FLUSH_SIZE
  {
    NeverOvertakesWhen(c, data);
    if |data| <= limit + 1 || |c.cache| > FLUSH_SIZE {
      forall k | KernelOk(c, data, k)
        ensures KeepsOrderWith(c, data, limit, k)
      {
        SendStream(c, data, limit, k);
        NothingLeaks(c, data, limit, k);
      }
    } else {
      var k := Kernel(Took(|c.cache|), Took(1));
      SendStream(c, data, limit, k);
      OneByteLeaks(c, data, limit);
      assert KernelOk(c, data, k) && !KeepsOrderWith(c, data, limit, k);
    }
  }

  lemma NothingLeaks(c: Conn, data: Bytes, limit: nat, k: Kernel)
    requires KernelOk(c, data, k) && c.connected && |data| < U32 && !Overtakes(c, k)
    requires |data| <= limit + 1 || |c.cache| > FLUSH_SIZE
    ensures !Send(c, data, limit, k).1 ==> data[..Leaked(c, data, limit, k)] == []
  {
  }

  lemma OneByteLeaks(c: Conn, data: Bytes, limit: nat)
    requires c.connected && limit + 1 < |data| < U32 && |c.cache| <= FLUSH_SIZE
    ensures var k := Kernel(Took(|c.cache|), Took(1));
      && KernelOk(c, data, k) && !Send(c, data, limit, k).1 && Leaked(c, data, limit, k) == 1
  {
  }

  /** The buffer stays within the limit under every behaviour of the kernel exactly if the 32-bit sum
      of the waiting bytes and the message does not wrap around. */
  lemma BoundIsKeptWhen(c: Conn, data: Bytes, limit: nat)
    requires c.connected && |data| < U32 && |c.cache| <= limit < U32
    ensures (forall k | KernelOk(c, data, k) :: |Send(c, data, limit, k).0.cache| <= limit) <==> |c.cache| + |data| < U32
  {
    if |c.cache| + |data| < U32 {
      forall k | KernelOk(c, data, k)
        ensures |Send(c, data, limit, k).0.cache| <= limit
      {
        SendBounded(c, data, limit, k);
      }
    } else {
      SendUnbounded(c, data, limit);
    }
  }

  lemma SendBounded(c: Conn, data: Bytes, limit: nat, k: Kernel)
    requires c.connected && |c.cache| + |data| < U32 && |c.cache| <= limit && KernelOk(c, data, k)
    ensures |Send(c, data, limit, k).0.cache| <= limit
  {
  }

  lemma SendUnbounded(c: Conn, data: Bytes, limit: nat)
    requires c.connected && |data| < U32 <= |c.cache| + |data| && |c.cache| <= limit < U32
    ensures var k := Kernel(Again, Again); KernelOk(c, data, k) && |Send(c, data, limit, k).0.cache| > limit
  {
    assert c.cache[0..] == c.cache;
  }

  /** Waiting bytes imply that the connection asks to be told when it can write. */
  predicate Asking(c: Conn) {
    c.cache != [] ==> c.isWrite
  }

  lemma SendAsks(c: Conn, data: Bytes, limit: nat, k: Kernel)
    requires KernelOk(c, data, k) && Asking(c) && !Overtakes(c, k)
    ensures Asking(Send(c, data, limit, k).0)
  {
  }

  // ---------------------------------------------------------------- runs

  datatype Step =
    | Message(data: Bytes, kernel: Kernel)
    | Writable(answer: Answer)

  /** A connection, the concatenation of the messages it accepted, and how many bytes of refused ones are
      out nevertheless. */
  datatype Run = Run(c: Conn, accepted: Bytes, leaked: nat)

  /** Messages have a 32-bit length, and the kernel answers as kernels can. */
  predicate Possible(c: Conn, s: Step) {
    match s
    case Message(data, k) => KernelOk(c, data, k) && |data| < U32
    case Writable(a) => CanTake(a, Least(FLUSH_SIZE, |c.cache|))
  }

  function Next(r: Run, limit: nat, s: Step): Run
    requires Possible(r.c, s)
  {
    match s
    case Message(data, k) =>
      var (d, ok) := Send(r.c, data, limit, k);
      Run(d, if ok && r.c.connected then r.accepted + data else r.accepted, r.leaked + Leaked(r.c, data, limit, k))
    case Writable(a) => r.(c := Drain(r.c, a).0)
  }

  predicate PossibleRun(r: Run, limit: nat, steps: seq<Step>)
    decreases |steps|
  {
    steps == [] || (Possible(r.c, steps[0]) && PossibleRun(Next(r, limit, steps[0]), limit, steps[1..]))
  }

  function After(r: Run, limit: nat, steps: seq<Step>): Run
    requires PossibleRun(r, limit, steps)
    decreases |steps|
  {
    if steps == [] then r else After(Next(r, limit, steps[0]), limit, steps[1..])
  }

  /** No over-long message is refused while the kernel could take all that waits. */
  predicate Uncut(c: Conn, limit: nat, s: Step)
    requires Possible(c, s)
  {
    s.Message? ==> Send(c, s.data, limit, s.kernel).1 || |s.data| <= limit + 1 || |c.cache| > FLUSH_SIZE
  }

  predicate UncutRun(r: Run, limit: nat, steps: seq<Step>)
    requires PossibleRun(r, limit, steps)
    decreases |steps|
  {
    steps == [] || (Uncut(r.c, limit, steps[0]) && UncutRun(Next(r, limit, steps[0]), limit, steps[1..]))
  }

  /** The sum of the waiting bytes and the message does not wrap around. */
  predicate InRange(c: Conn, s: Step) {
    s.Message? ==> |c.cache| + |s.data| < U32
  }

  predicate InRangeRun(r: Run, limit: nat, steps: seq<Step>)
    requires PossibleRun(r, limit, steps)
    decreases |steps|
  {
    steps == [] || (InRange(r.c, steps[0]) && InRangeRun(Next(r, limit, steps[0]), limit, steps[1..]))
  }

  /** No message overtakes waiting bytes. */
  predicate Orderly(c: Conn, s: Step)
    requires Possible(c, s)
  {
    s.Message? ==> !Overtakes(c, s.kernel)
  }

  predicate OrderlyRun(r: Run, limit: nat, steps: seq<Step>)
    requires PossibleRun(r, limit, steps)
    decreases |steps|
  {
    steps == [] || (Orderly(r.c, steps[0]) && OrderlyRun(Next(r, limit, steps[0]), limit, steps[1..]))
  }

  /** The stream has as many bytes as were accepted or have leaked. */
  predicate Counted(r: Run) {
    |Stream(r.c)| == |r.accepted| + r.leaked
  }

  /** The stream is the accepted messages exactly as long as nothing has leaked, and waiting bytes are
      asked about. */
  predicate Healthy(r: Run) {
    Counted(r) && (r.leaked == 0 ==> Stream(r.c) == r.accepted) && Asking(r.c)
  }

  lemma StepCounts(r: Run, limit: nat, s: Step)
    requires Counted(r) && Possible(r.c, s)
    ensures Counted(Next(r, limit, s))
  {
    match s
    case Message(data, k) =>
      if r.c.connected {
        SendCounts(r.c, data, limit, k);
      }
    case Writable(a) =>
      FlushKeepsStream(r.c, a);
  }

  lemma StepIsHealthy(r: Run, limit: nat, s: Step)
    requires Healthy(r) && Possible(r.c, s) && Orderly(r.c, s)
    ensures Healthy(Next(r, limit, s))
  {
    match s
    case Message(data, k) =>
      if r.c.connected {
        SendStream(r.c, data, limit, k);
        SendAsks(r.c, data, limit, k);
        var (d, ok) := Send(r.c, data, limit, k);
        Grows(Stream(r.c), r.accepted, r.leaked, data, ok, Leaked(r.c, data, limit, k));
      }
    case Writable(a) =>
      FlushKeepsStream(r.c, a);
  }

  lemma StepLeaksNothing(r: Run, limit: nat, s: Step)
    requires Possible(r.c, s) && Orderly(r.c, s) && Uncut(r.c, limit, s)
    ensures Next(r, limit, s).leaked == r.leaked
  {
    if s.Message? && r.c.connected && (|s.data| <= limit + 1 || |r.c.cache| > FLUSH_SIZE) {
      NothingLeaks(r.c, s.data, limit, s.kernel);
    }
  }

  /** A stream of accepted messages and leaked bytes grows by one message or by some of its bytes. */
  lemma Grows(stream: Bytes, accepted: Bytes, leaked: nat, data: Bytes, ok: bool, n: nat)
    requires |stream| == |accepted| + leaked && (leaked == 0 ==> stream == accepted)
    requires n <= |data| && (ok ==> n == 0)
    ensures var s := stream + if ok then data else data[..n];
      var a := if ok then accepted + data else accepted;
      |s| == |a| + leaked + n && (leaked + n == 0 ==> s == a)
  {
    assert accepted + data[..0] == accepted;
  }

  lemma StepIsBounded(r: Run, limit: nat, s: Step)
    requires Possible(r.c, s) && InRange(r.c, s) && |r.c.cache| <= limit < U32
    ensures |Next(r, limit, s).c.cache| <= limit
  {
    match s
    case Message(data, k) =>
      if r.c.connected {
        BoundIsKeptWhen(r.c, data, limit);
      }
    case Writable(a) =>
  }

  lemma StepStaysInSight(r: Run, limit: nat, s: Step)
    requires Possible(r.c, s) && InRange(r.c, s) && |r.c.cache| < U32
    ensures Orderly(r.c, s) && |Next(r, limit, s).c.cache| < U32
  {
  }

  /** Over every run of messages and writable events, under every behaviour of the kernel, no byte is lost
      or doubled. In a run in which no message overtakes waiting bytes, those on the wire followed by
      those waiting are the accepted messages in order exactly if no part of a refused message leaked,
      waiting bytes are asked about, and nothing leaks if no over-long message is refused. A run in which
      no sum of waiting bytes and message wraps around is of that kind, and the buffer keeps its limit. */
  lemma {:induction false} EveryRunIsOrdered(r: Run, limit: nat, steps: seq<Step>)
    requires Counted(r) && PossibleRun(r, limit, steps)
    ensures var r' := After(r, limit, steps);
      && Counted(r')
      && (OrderlyRun(r, limit, steps) && Healthy(r) ==> Healthy(r') && (Stream(r'.c) == r'.accepted <==> r'.leaked == 0))
      && (OrderlyRun(r, limit, steps) && UncutRun(r, limit, steps) ==> r'.leaked == r.leaked)
      && (InRangeRun(r, limit, steps) && |r.c.cache| < U32 ==> OrderlyRun(r, limit, steps))
      && (InRangeRun(r, limit, steps) && |r.c.cache| <= limit < U32 ==> |r'.c.cache| <= limit)
    decreases |steps|
  {
    if steps != [] {
      StepCounts(r, limit, steps[0]);
      if Orderly(r.c, steps[0]) {
        if Healthy(r) {
          StepIsHealthy(r, limit, steps[0]);
        }
        if Uncut(r.c, limit, steps[0]) {
          StepLeaksNothing(r, limit, steps[0]);
        }
      }
      if InRange(r.c, steps[0]) && |r.c.cache| < U32 {
        StepStaysInSight(r, limit, steps[0]);
        if |r.c.cache| <= limit < U32 {
          StepIsBounded(r, limit, steps[0]);
        }
      }
      EveryRunIsOrdered(Next(r, limit, steps[0]), limit, steps[1..]);
    }
  }

  /** Three messages that bring 2^32 bytes to wait, and the last of them past the others. */
  function OvertakingRun(first: Bytes, second: Bytes, third: Bytes): seq<Step> {
    [Message(first, Kernel(Again, Again)), Message(second, Kernel(Again, Again)), Message(third, Kernel(Again, Took(|third|)))]
  }

  /** Under every limit but 0 there is a run from a new connection in which nothing leaks, all messages are
      accepted, and the last of them is in front of the others, about which nobody asks any more. */
  lemma OrderCanBeLost(limit: nat, first: Bytes, second: Bytes, third: Bytes)
    requires limit > 0 && |first| == 1 && |second| == U32 - 1 && |third| == 1
    ensures var r := Run(Conn(true, [], [], false), [], 0);
      var steps := OvertakingRun(first, second, third);
      && Healthy(r) && PossibleRun(r, limit, steps)
      && var r' := After(r, limit, steps);
        && r'.leaked == 0 && r'.accepted == first + second + third
        && Stream(r'.c) == third + first + second
        && !Asking(r'.c)
  {
    var steps := OvertakingRun(first, second, third);
    var r0 := Run(Conn(true, [], [], false), [], 0);
    var r1 := Run(Conn(true, [], first, true), first, 0);
    var r2 := Run(Conn(true, [], first + second, true), first + second, 0);
    var r3 := Run(Conn(true, third, first + second, false), first + second + third, 0);
    assert Possible(r0.c, steps[0]) && Next(r0, limit, steps[0]) == r1;
    assert Possible(r1.c, steps[1]) && Next(r1, limit, steps[1]) == r2;
    assert Possible(r2.c, steps[2]) && Next(r2, limit, steps[2]) == r3;
    assert PossibleRun(r3, limit, []) && After(r3, limit, []) == r3;
    assert steps[2..][1..] == [];
    assert PossibleRun(r2, limit, steps[2..]) && After(r2, limit, steps[2..]) == r3;
    assert steps[1..][1..] == steps[2..];
    assert PossibleRun(r1, limit, steps[1..]) && After(r1, limit, steps[1..]) == r3;
    assert third + (first + second) == third + first + second;
  }

  /** A message that is reported as sent is missing from the stream exactly if the connection was not
      connected. */
  lemma SuccessIsSilentWhen(c: Conn, data: Bytes, limit: nat, k: Kernel)
    requires KernelOk(c, data, k) && data != [] && Send(c, data, limit, k).1
    ensures Stream(Send(c, data, limit, k).0) == Stream(c) <==> !c.connected
  {
    if c.connected {
      SendCounts(c, data, limit, k);
    }
  }

  // ---------------------------------------------------------------- the connection

  class Connection {
    const output: IOBuffer
    const sendBufferSize: nat
    var connected: bool
    var isWrite: bool
    var wire: Bytes

    ghost predicate Valid()
      reads this, output
    {
      output.Valid() && sendBufferSize < U32
    }

    ghost function Abs(): Conn
      requires Valid()
      reads this, output, output.buffer
    {
      Conn(connected, wire, output.Contents(), isWrite)
    }

    constructor (sendBufferSize: nat)
      requires sendBufferSize < U32
      ensures Valid() && Abs() == Conn(true, [], [], false)
      ensures fresh(output) && fresh(output.buffer) && this.sendBufferSize == sendBufferSize
      ensures sendBufferSize <= 0x4000_0000 ==> Bounded()
    {
      output := new IOBuffer();
      this.sendBufferSize := sendBufferSize;
      connected, isWrite, wire := true, false, [];
    }

    /** Writes waiting bytes to the socket. */
    method FlushOutput(a: Answer) returns (ok: bool)
      requires Valid() && CanTake(a, Least(FLUSH_SIZE, |output.Contents()|))
      modifies `wire, output
      ensures Valid() && ok == !a.Failed? && Abs() == Flush(old(Abs()), a) && (old(Bounded()) ==> Bounded())
      ensures output.buffer == old(output.buffer)
    {
      var sent := if a.Took? then a.n else -1;
      ghost var before := output.Contents();
      var wrote;
      ok, wrote := output.WriteToTCPFd(FLUSH_SIZE, sent, a.Again?);
      assert wrote == before[..Taken(a)] && output.Contents() == before[Taken(a)..];
      wire := wire + wrote;
    }

    /** The array of a connection whose limit is at most 1 GiB stays below 3 GiB. */
    ghost predicate Bounded()
      reads this, output
    {
      && Valid() && sendBufferSize <= 0x4000_0000 && output.minChunkSize == 4096
      && output.Available() <= sendBufferSize
      && 3 * output.buffer.Length <= 8 * sendBufferSize + 3 * 4096
    }

    /** The number of waiting bytes, in 32 bits. */
    function CacheSendLen(): (n: nat)
      requires Valid()
      reads this, output, output.buffer
      ensures n == Waiting(Abs())
    {
      output.Available() % U32
    }

    /** Sends a message. With an array of 3 GiB or more the copy may run past its end, where the model
        stops; over a run of messages whose sums do not wrap around the array stays smaller than that. */
    method SendMsg(data: Bytes, k: Kernel) returns (ok: bool, overrun: bool)
      requires Valid() && |data| < U32 && KernelOk(Abs(), data, k)
      modifies this, output, output.buffer
      ensures Valid() && (!overrun ==> (Abs(), ok) == Send(old(Abs()), data, sendBufferSize, k))
      ensures overrun ==> old(output.buffer.Length) >= 0xC000_0000
      ensures old(Bounded()) && |old(output.Contents())| + |data| < U32 ==> Bounded()
      ensures output.buffer == old(output.buffer) || fresh(output.buffer)
    {
      hide Bounded, Direct, Save, Waiting, CacheSendLen;
      overrun := false;
      if !connected {
        return true, false;
      }
      if 0 < CacheSendLen() {
        ok := FlushOutput(k.flush);
        if !ok {
          assert Flush(old(Abs()), k.flush) == old(Abs());
          return;
        }
        if 0 < CacheSendLen() {
          ok, overrun := SaveToOutput(data);
          return;
        }
      }
      ok, overrun := SendDirect(data, k.direct);
    }

    /** Sends past the buffer, and keeps what the kernel did not take. */
    method SendDirect(data: Bytes, a: Answer) returns (ok: bool, overrun: bool)
      requires Valid() && |data| < U32 && CanTake(a, |data|) && Waiting(Abs()) == 0
      modifies this, output, output.buffer
      ensures Valid() && (!overrun ==> (Abs(), ok) == Direct(old(Abs()), data, sendBufferSize, a))
      ensures overrun ==> old(output.buffer.Length) >= 0xC000_0000
      ensures old(Bounded()) ==> Bounded()
      ensures output.buffer == old(output.buffer) || fresh(output.buffer)
    {
      overrun := false;
      if a.Failed? {
        return false, false;
      }
      var rs := if a.Took? then a.n else 0;
      wire := wire + data[..rs];
      if rs == |data| {
        isWrite := false;
        return true, false;
      }
      ok, overrun := SaveToOutput(data[rs..]);
    }

    method SaveToOutput(rest: Bytes) returns (ok: bool, overrun: bool)
      requires Valid() && |rest| < U32
      modifies this, output, output.buffer
      ensures Valid() && (!overrun ==> (Abs(), ok) == Save(old(Abs()), rest, sendBufferSize))
      ensures overrun ==> old(output.buffer.Length) >= 0xC000_0000
      ensures old(Bounded()) && |old(output.Contents())| + |rest| < U32 ==> Bounded()
      ensures output.buffer == old(output.buffer) || fresh(output.buffer)
    {
      overrun := false;
      if sendBufferSize < (output.Available() + |rest|) % U32 {
        return false, false;
      }
      Fits(|rest|);
      ghost var small := Bounded() && output.Available() + |rest| < U32;
      if small {
        StaysSmall(|rest|);
      }
      ok, overrun := output.ReadFromBuffer(rest);
      isWrite := true;
    }

    /** A buffer below 3 GiB finds room for any message. */
    lemma Fits(n: nat)
      requires Valid() && n < U32
      ensures output.buffer.Length < 0xC000_0000 ==> output.WillFit(n)
    {
      var p := output.Compacted();
      if output.buffer.Length < 0xC000_0000 && p + n > output.buffer.Length {
        SmallBuffersGrow(output.buffer.Length, p, n);
        GrowthBelow12GiB(output.buffer.Length, p, n, output.minChunkSize);
      }
    }

    /** A buffer grows only when what is asked for does not fit beside less than twice what waits. */
    lemma StaysSmall(n: nat)
      requires Bounded() && output.Available() + n <= sendBufferSize
      ensures 3 * output.Capacity(n) <= 8 * sendBufferSize + 3 * 4096
      ensures output.buffer.Length < 0xC000_0000
    {
      assert output.Compacted() <= 2 * output.Available();
    }

    /** The writable branch of the event handler. */
    method OnWritable(a: Answer) returns (ok: bool)
      requires Valid() && CanTake(a, Least(FLUSH_SIZE, |output.Contents()|))
      modifies this, output
      ensures Valid() && (Abs(), ok) == Drain(old(Abs()), a) && (old(Bounded()) ==> Bounded())
    {
      ok := FlushOutput(a);
      if !ok {
        assert Flush(old(Abs()), a) == old(Abs());
        return;
      }
      if output.Available() == 0 {
        isWrite := false;
      }
    }
  }
}
