/** Reading and writing several buffers at once on a descriptor that moves as many bytes as it likes:
    the vectors are advanced past what was moved, or copied with the part that is left. */
module VectoredIo {

  import opened Bytes

  /** A piece of memory. */
  datatype Iovec = Iovec(base: nat, len: nat)

  /** The addresses of the pieces, in order. */
  function Cells(v: seq<Iovec>): seq<nat> {
    if v == [] then [] else Range(v[0].base, v[0].len) + Cells(v[1..])
  }

  function Range(base: nat, len: nat): (r: seq<nat>)
    ensures |r| == len && forall i | 0 <= i < len :: r[i] == base + i
  {
    seq(len, i => base + i)
  }

  predicate InMemory(cells: seq<nat>, size: nat) {
    forall c | c in cells :: c < size
  }

  /** The bytes at some addresses. */
  function Gather(mem: seq<Byte>, cells: seq<nat>): (r: Bytes)
    requires InMemory(cells, |mem|)
    ensures |r| == |cells| && forall i | 0 <= i < |cells| :: cells[i] in cells && r[i] == mem[cells[i]]
  {
    seq(|cells|, i requires 0 <= i < |cells| => assert cells[i] in cells; mem[cells[i]])
  }

  /** Memory after storing bytes at some addresses. */
  function Scatter(mem: seq<Byte>, cells: seq<nat>, data: Bytes): (r: seq<Byte>)
    requires |data| <= |cells| && InMemory(cells, |mem|)
    ensures |r| == |mem|
  {
    if data == [] then mem
    else
      var n := |data| - 1;
      assert cells[n] in cells;
      Scatter(mem, cells, data[..n])[cells[n] := data[n]]
  }

  /** Filling the cells f and then the cells l is filling f + l. */
  lemma {:induction false} ScatterMore(m: seq<Byte>, f: seq<nat>, l: seq<nat>, a: Bytes, b: Bytes)
    requires |a| == |f| && |b| <= |l| && InMemory(f + l, |m|) && InMemory(l, |m|)
    ensures Scatter(Scatter(m, f + l, a), l, b) == Scatter(m, f + l, a + b)
    decreases |b|
  {
    if b == [] {
      assert a + b == a;
    } else {
      var n := |b| - 1;
      ScatterMore(m, f, l, a, b[..n]);
      assert (a + b)[..|a| + n] == a + b[..n];
      assert (f + l)[|a| + n] == l[n];
    }
  }

  lemma GatherParts(mem: seq<Byte>, cells: seq<nat>, n: nat)
    requires n <= |cells| && InMemory(cells, |mem|)
    ensures InMemory(cells[n..], |mem|) && Gather(mem, cells)[n..] == Gather(mem, cells[n..])
  {
    forall c | c in cells[n..]
      ensures c in cells
    {
    }
  }

  /** What was stored at distinct addresses is found there. */
  lemma {:induction false} ScatterGather(m: seq<Byte>, cells: seq<nat>, data: Bytes)
    requires |data| <= |cells| && InMemory(cells, |m|)
    requires forall i, j | 0 <= i < j < |cells| :: cells[i] != cells[j]
    ensures Gather(Scatter(m, cells, data), cells)[..|data|] == data
    decreases |data|
  {
    if data != [] {
      var n := |data| - 1;
      ScatterGather(m, cells, data[..n]);
      var before := Scatter(m, cells, data[..n]);
      forall i | 0 <= i < |data|
        ensures Scatter(m, cells, data)[cells[i]] == data[i]
      {
        if i < n {
          assert Gather(before, cells)[..n][i] == data[..n][i];
        }
      }
    }
  }

  predicate Addressable(v: seq<Iovec>, size: nat) {
    forall i | 0 <= i < |v| :: v[i].base + v[i].len <= size
  }

  lemma {:induction false} CellsConcat(a: seq<Iovec>, b: seq<Iovec>)
    ensures Cells(a + b) == Cells(a) + Cells(b)
  {
    if a == [] {
      assert a + b == b;
    } else {
      assert (a + b)[0] == a[0] && (a + b)[1..] == a[1..] + b;
      CellsConcat(a[1..], b);
      Associative(Range(a[0].base, a[0].len), Cells(a[1..]), Cells(b));
    }
  }

  lemma {:induction false} CellsAddressable(v: seq<Iovec>, size: nat)
    requires Addressable(v, size)
    ensures InMemory(Cells(v), size)
  {
    if v != [] {
      CellsAddressable(v[1..], size);
    }
  }

  function Total(v: seq<Iovec>): nat {
    if v == [] then 0 else v[0].len + Total(v[1..])
  }

  lemma {:induction false} TotalIsCells(v: seq<Iovec>)
    ensures Total(v) == |Cells(v)|
  {
    if v != [] {
      TotalIsCells(v[1..]);
    }
  }

  /** A vector with its first n bytes cut off. */
  function Cut(x: Iovec, n: nat): Iovec
    requires n <= x.len
  {
    Iovec(x.base + n, x.len - n)
  }

  lemma CutCells(x: Iovec, rest: seq<Iovec>, n: nat)
    requires n <= x.len
    ensures Cells([Cut(x, n)] + rest) == Cells([x] + rest)[n..]
  {
    assert ([x] + rest)[1..] == rest && ([Cut(x, n)] + rest)[1..] == rest;
  }

  lemma DropCells(v: seq<Iovec>, n: nat)
    requires v != [] && v[0].len <= n <= |Cells(v)|
    ensures n - v[0].len <= |Cells(v[1..])| && Cells(v[1..])[n - v[0].len..] == Cells(v)[n..]
  {
  }

  /** The vectors pos..end hold cells, and all vectors lie in memory. */
  ghost predicate Holds(iov: array<Iovec>, pos: nat, end: nat, cells: seq<nat>, size: nat)
    reads iov
  {
    pos <= end <= iov.Length && Addressable(iov[..], size) && Cells(iov[pos..end]) == cells
  }

  /** Steps over moved bytes, in place: the vectors from pos' on are what is left. */
  method Advance(iov: array<Iovec>, pos: nat, size: nat, moved: nat, ghost cells: seq<nat>, ghost memory: nat)
      returns (pos': nat, size': nat)
    requires size > 0 && Holds(iov, pos, pos + size, cells, memory) && moved <= |cells|
    modifies iov
    ensures pos' + size' == pos + size && Holds(iov, pos', pos + size, cells[moved..], memory)
  {
    ghost var end := pos + size;
    assert end <= iov.Length && cells[0..] == cells;
    hide Holds;
    var n: nat := moved;
    pos', size' := pos, size;
    while n >= iov[pos'].len
      invariant pos' + size' == end && size' > 0 && n <= moved
      invariant Holds(iov, pos', end, cells[moved - n..], memory)
      decreases size'
    {
      var len := iov[pos'].len;
      StepOver(iov, pos', end, cells[moved - n..], memory, n);
      DropTwice(cells, moved - n, len);
      n := n - len;
      pos', size' := pos' + 1, size' - 1;
      if n == 0 {
        break;
      }
    }
    if size' == 0 {
      return;
    }
    CutFirst(iov, pos', end, n, cells[moved - n..], memory);
    DropTwice(cells, moved - n, n);
  }

  lemma DropTwice(cells: seq<nat>, a: nat, b: nat)
    requires a + b <= |cells|
    ensures cells[a..][b..] == cells[a + b..]
  {
  }

  /** The front of a vector is used up. */
  method CutFirst(iov: array<Iovec>, pos: nat, ghost end: nat, n: nat, ghost cells: seq<nat>, ghost memory: nat)
    requires pos < end && Holds(iov, pos, end, cells, memory) && n <= iov[pos].len && n <= |cells|
    modifies iov
    ensures Holds(iov, pos, end, cells[n..], memory)
  {
    ghost var v := iov[pos..end];
    assert v == [v[0]] + v[1..];
    CutCells(v[0], v[1..], n);
    iov[pos] := Cut(iov[pos], n);
    assert iov[pos..end] == [Cut(v[0], n)] + v[1..];
  }

  /** One vector is used up. */
  method StepOver(iov: array<Iovec>, pos: nat, ghost end: nat, ghost cells: seq<nat>, ghost memory: nat, ghost n: nat)
    requires pos < end && Holds(iov, pos, end, cells, memory) && iov[pos].len <= n <= |cells|
    modifies iov
    ensures Holds(iov, pos + 1, end, cells[old(iov[pos].len)..], memory)
    ensures n > old(iov[pos].len) ==> pos + 1 < end
  {
    ghost var v := iov[pos..end];
    DropCells(v, iov[pos].len);
    assert Cells(v[1..])[0..] == Cells(v[1..]);
    iov[pos] := Iovec(iov[pos].base + iov[pos].len, 0);
    assert iov[pos + 1..end] == v[1..];
    assert pos + 1 == end ==> iov[pos + 1..end] == [];
  }

  // ---------------------------------------------------------------- the kernel

  datatype Answer = Moved(n: nat) | Interrupted | NotReady | Error

  /** What the kernel says to a transfer, and whether the wait that may follow ends well. */
  datatype Reply = Reply(answer: Answer, pollOk: bool)

  /** Waiting: the kernel has not said anything yet that would end the call. */
  datatype Rc = Success | Failure | Waiting

  /** The kernel reports an error, or the wait for it to be ready fails. */
  predicate Fatal(r: Reply) {
    r.answer.Error? || (!r.answer.Interrupted? && !r.pollOk)
  }

  /** How much the kernel was willing to move. */
  function Offered(replies: seq<Reply>): nat {
    if replies == [] then 0
    else
      var a := replies[|replies| - 1].answer;
      Offered(replies[..|replies| - 1]) + if a.Moved? then a.n else 0
  }

  /** These replies were used up between two points of the script. */
  ghost predicate Used(before: seq<Reply>, after: seq<Reply>, replies: seq<Reply>) {
    before == replies + after
  }

  /** A call ends as the kernel has it: with the first fatal reply, or without any that is not the last; it
      fails only for one, and waits only for want of another reply. */
  ghost predicate EndsAs(rc: Rc, replies: seq<Reply>, after: seq<Reply>) {
    && (forall i | 0 <= i < |replies| - 1 :: !Fatal(replies[i]))
    && (forall r | r in replies :: rc == Success ==> !r.answer.Error?)
    && (rc == Failure ==> replies != [] && Fatal(replies[|replies| - 1]))
    && (rc == Waiting ==> after == [] && forall r | r in replies :: !Fatal(r))
  }

  /** The replies so far, none of them fatal, have moved what there was to move. */
  ghost predicate SoFar(before: seq<Reply>, script: seq<Reply>, replies: seq<Reply>, moved: nat, most: nat) {
    && Used(before, script, replies) && (forall r | r in replies :: !Fatal(r))
    && moved == Least(Offered(replies), most)
  }

  /** One more reply. */
  lemma OneMore(before: seq<Reply>, script: seq<Reply>, replies: seq<Reply>, moved: nat, most: nat, n: nat)
    requires SoFar(before, script, replies, moved, most) && script != [] && moved <= most
    requires n == if script[0].answer.Moved? then Least(script[0].answer.n, most - moved) else 0
    ensures var more := replies + [script[0]];
      && Used(before, script[1..], more) && moved + n == Least(Offered(more), most)
      && (if Fatal(script[0]) then EndsAs(Failure, more, script[1..]) else SoFar(before, script[1..], more, moved + n, most))
      && (!script[0].answer.Error? ==> EndsAs(Success, more, script[1..]))
  {
    var more := replies + [script[0]];
    assert more[..|more| - 1] == replies;
    assert before == more + script[1..];
    assert forall i | 0 <= i < |more| - 1 :: more[i] == replies[i] && replies[i] in replies;
    assert forall r | r in more :: r == script[0] || r in replies;
  }

  /** No reply is left, or none is needed. */
  lemma NoMore(before: seq<Reply>, script: seq<Reply>, replies: seq<Reply>, moved: nat, most: nat)
    requires SoFar(before, script, replies, moved, most)
    ensures Used(before, script, replies) && moved == Least(Offered(replies), most)
    ensures EndsAs(Success, replies, script) && (script == [] ==> EndsAs(Waiting, replies, script))
  {
    assert forall i | 0 <= i < |replies| :: replies[i] in replies;
  }

  lemma NoneYet(script: seq<Reply>, most: nat)
    ensures SoFar(script, script, [], 0, most) && EndedWell(script, script, [], 0, most)
  {
  }

  /** A call that ends now ends well. */
  ghost predicate EndedWell(before: seq<Reply>, script: seq<Reply>, replies: seq<Reply>, moved: nat, most: nat) {
    Used(before, script, replies) && moved == Least(Offered(replies), most) && EndsAs(Success, replies, script)
  }

  lemma {:induction false} OfferedConcat(a: seq<Reply>, b: seq<Reply>)
    ensures Offered(a + b) == Offered(a) + Offered(b)
  {
    if b == [] {
      assert a + b == a;
    } else {
      var n := |b| - 1;
      assert (a + b)[..|a + b| - 1] == a + b[..n];
      OfferedConcat(a, b[..n]);
    }
  }

  /** A call that hands over to another one ends as that one does. */
  lemma HandedOver(before: seq<Reply>, s1: seq<Reply>, s2: seq<Reply>, replies: seq<Reply>, more: seq<Reply>,
      moved: nat, n: nat, most: nat, rc: Rc)
    requires SoFar(before, s1, replies, moved, most) && moved <= most
    requires Used(s1, s2, more) && EndsAs(rc, more, s2) && n == Least(Offered(more), most - moved)
    ensures var all := replies + more;
      Used(before, s2, all) && EndsAs(rc, all, s2) && moved + n == Least(Offered(all), most)
  {
    OfferedConcat(replies, more);
    var all := replies + more;
    assert before == all + s2;
    forall i | 0 <= i < |all| - 1
      ensures !Fatal(all[i])
    {
      assert if i < |replies| then all[i] == replies[i] && replies[i] in replies else all[i] == more[i - |replies|];
    }
    assert more != [] ==> all[|all| - 1] == more[|more| - 1];
  }

  const LOCAL_MAXIOV := 16

  class NetFd {
    var script: seq<Reply>
    var wire: Bytes
    var input: Bytes
    var memory: seq<Byte>

    /** The next thing the kernel says. */
    method Ask() returns (r: Reply)
      requires script != []
      modifies `script
      ensures r == old(script)[0] && script == old(script)[1..]
    {
      r := script[0];
      script := script[1..];
    }

    method KernelWrite(a: Answer, data: Bytes) returns (n: int)
      modifies `wire
      ensures n == (if a.Moved? then Least(a.n, |data|) else -1)
      ensures wire == if n >= 0 then old(wire) + data[..n] else old(wire)
    {
      n := if a.Moved? then Least(a.n, |data|) else -1;
      if n >= 0 {
        wire := wire + data[..n];
      }
    }

    method KernelRead(a: Answer, capacity: nat) returns (n: int, data: Bytes)
      modifies `input
      ensures n == if a.Moved? then Least(a.n, Least(capacity, |old(input)|)) else -1
      ensures data == (if n >= 0 then old(input)[..n] else []) && input == if n >= 0 then old(input)[n..] else old(input)
    {
      n := if a.Moved? then Least(a.n, Least(capacity, |input|)) else -1;
      data := [];
      if n >= 0 {
        data := input[..n];
        input := input[n..];
      }
    }

    // -------------------------------------------------------------- writing

    /** out has been written, and the vectors from pos on hold the rest of all. */
    ghost predicate Written(mem: seq<Byte>, all: Bytes, out: Bytes, left: seq<nat>, iov: array<Iovec>, pos: nat, end: nat,
        w: Bytes)
      reads this, iov
    {
      && Holds(iov, pos, end, left, |mem|) && InMemory(left, |mem|)
      && wire == w + out && out + Gather(mem, left) == all
    }

    /** Writes the vectors; whatever happens, what was written followed by what the vectors from pos on
        hold is what the vectors held. */
    method WritevResid(mem: seq<Byte>, iov: array<Iovec>, iovSize: nat)
        returns (rc: Rc, pos: nat, size: nat, ghost out: Bytes, ghost left: seq<nat>, ghost replies: seq<Reply>)
      requires iovSize <= iov.Length && Addressable(iov[..], |mem|)
      modifies `script, `wire, iov
      ensures InMemory(old(Cells(iov[..iovSize])), |mem|)
      ensures Written(mem, Gather(mem, old(Cells(iov[..iovSize]))), out, left, iov, pos, iovSize, old(wire))
      ensures pos + size == iovSize && (rc == Success ==> size == 0 && left == [])
      ensures Used(old(script), script, replies) && EndsAs(rc, replies, script)
      ensures |out| == Least(Offered(replies), |old(Cells(iov[..iovSize]))|)
    {
      left, out, replies := Cells(iov[..iovSize]), [], [];
      ghost var before, most := script, |left|;
      CellsAddressable(iov[..iovSize], |mem|);
      ghost var all, w := Gather(mem, left), wire;
      pos, size := 0, iovSize;
      assert iov[0..iovSize] == iov[..iovSize] && w + [] == w && [] + all == all;
      NoneYet(script, most);
      assert Written(mem, all, out, left, iov, pos, iovSize, w);
      hide Written, SoFar, Used, EndsAs, Offered;
      while size > 0
        invariant pos + size == iovSize && Written(mem, all, out, left, iov, pos, iovSize, w)
        invariant |out| + |left| == most && SoFar(before, script, replies, |out|, most)
        invariant EndedWell(before, script, replies, |out|, most)
        decreases |script|
      {
        NoMore(before, script, replies, |out|, most);
        if script == [] {
          rc := Waiting;
          return;
        }
        ghost var s0, done, so := script, |out|, replies;
        var r := Ask();
        var n;
        n, pos, size, out, left := TryWrite(r.answer, mem, iov, pos, size, all, out, left, w);
        replies := replies + [r];
        OneMore(before, s0, so, done, most, |out| - done);
        if n < 0 {
          if r.answer.Interrupted? {
            continue;
          }
          if !r.answer.NotReady? {
            rc := Failure;
            return;
          }
        } else if size == 0 {
          break;
        }
        if !r.pollOk {
          rc := Failure;
          return;
        }
      }
      rc := Success;
      AllWritten(mem, all, out, left, iov, iovSize, w);
    }

    lemma AllWritten(mem: seq<Byte>, all: Bytes, out: Bytes, left: seq<nat>, iov: array<Iovec>, end: nat, w: Bytes)
      requires Written(mem, all, out, left, iov, end, end, w)
      ensures left == []
    {
      assert iov[end..end] == [];
    }

    /** One write, and the step over what it wrote. */
    method TryWrite(a: Answer, mem: seq<Byte>, iov: array<Iovec>, pos: nat, size: nat, ghost all: Bytes, ghost out: Bytes,
        ghost left: seq<nat>, ghost w: Bytes)
        returns (n: int, pos': nat, size': nat, ghost out': Bytes, ghost left': seq<nat>)
      requires size > 0 && Written(mem, all, out, left, iov, pos, pos + size, w)
      modifies `wire, iov
      ensures pos' + size' == pos + size && Written(mem, all, out', left', iov, pos', pos' + size', w)
      ensures n >= 0 <==> a.Moved?
      ensures n < 0 ==> pos' == pos
      ensures |out'| == |out| + (if a.Moved? then Least(a.n, |left|) else 0) && |out'| + |left'| == |out| + |left|
    {
      var data := Pieces(mem, iov, pos, size);
      n := KernelWrite(a, data);
      if n < 0 {
        return n, pos, size, out, left;
      }
      pos', size' := Advance(iov, pos, size, n, left, |mem|);
      out', left' := out + data[..n], left[n..];
      GatherParts(mem, left, n);
      WrittenMore(w, out, data, n);
    }

    /** Writes one buffer. */
    method StWrite(mem: seq<Byte>, base: nat, nbyte: nat)
        returns (rc: Rc, n: int, ghost out: Bytes, ghost replies: seq<Reply>)
      requires base + nbyte <= |mem|
      modifies `script, `wire
      ensures wire == old(wire) + out && out <= mem[base..base + nbyte]
      ensures rc == Success ==> n == nbyte && out == mem[base..base + nbyte]
      ensures rc != Success ==> n == -1
      ensures Used(old(script), script, replies) && EndsAs(rc, replies, script)
      ensures |out| == Least(Offered(replies), nbyte)
    {
      var iov := new Iovec[1](_ => Iovec(base, nbyte));
      OneVector(mem, iov[..], base, nbyte);
      var pos, size;
      ghost var left;
      rc, pos, size, out, left, replies := WritevResid(mem, iov, 1);
      n := if rc == Success then nbyte else -1;
    }

    // -------------------------------------------------------------- writing from copies

    /** The vector that holds byte n, and where in it. */
    static method FindNext(iov: array<Iovec>, n: nat) returns (index: nat, off: nat)
      requires n < Total(iov[..])
      ensures index < iov.Length && off < iov[index].len && Total(iov[..index]) + off == n
    {
      index, off := 0, n;
      assert iov[0..] == iov[..];
      while off >= iov[index].len
        invariant index < iov.Length && Total(iov[..index]) + off == n && off < Total(iov[index..])
        decreases iov.Length - index
      {
        off := off - iov[index].len;
        TotalStep(iov[..], index);
        index := index + 1;
      }
    }

    /** Copies what is left from byte off of vector index on. */
    static method Refill(tmp: array<Iovec>, iov: array<Iovec>, index: nat, off: nat, ghost memory: nat)
        returns (cnt: nat)
      requires tmp != iov && index < iov.Length && off <= iov[index].len && iov.Length - index <= tmp.Length
      requires Addressable(iov[..], memory) && Addressable(tmp[..], memory)
      modifies tmp
      ensures cnt == iov.Length - index && tmp[..cnt] == [Cut(iov[index], off)] + iov[index + 1..]
      ensures Addressable(tmp[..], memory)
    {
      tmp[0] := Cut(iov[index], off);
      cnt := 1;
      while cnt < iov.Length - index
        invariant 1 <= cnt <= iov.Length - index && tmp[0] == Cut(iov[index], off)
        invariant forall k | 1 <= k < cnt :: tmp[k] == iov[index + k]
        invariant Addressable(tmp[..], memory)
      {
        assert iov[..][index + cnt] == iov[index + cnt];
        tmp[cnt] := iov[index + cnt];
        cnt := cnt + 1;
      }
    }

    /** out, a prefix of everything, has been written. */
    ghost predicate Progress(mem: seq<Byte>, v: seq<Iovec>, out: Bytes, w: Bytes)
      reads this
    {
      InMemory(Cells(v), |mem|) && out <= Gather(mem, Cells(v)) && wire == w + out
    }

    /** Writes all vectors, without changing them. */
    method Writev(mem: seq<Byte>, iov: array<Iovec>)
        returns (rc: Rc, rv: int, ghost out: Bytes, ghost replies: seq<Reply>)
      requires Addressable(iov[..], |mem|)
      modifies `script, `wire
      ensures iov[..] == old(iov[..]) && Progress(mem, iov[..], out, old(wire))
      ensures rc == Success ==> out == Gather(mem, Cells(iov[..])) && rv == |out|
      ensures rc == Failure ==> rv == -1
      ensures Used(old(script), script, replies) && EndsAs(rc, replies, script)
      ensures |out| == Least(Offered(replies), |Cells(iov[..])|)
    {
      ghost var w, v, before := wire, iov[..], script;
      CellsAddressable(v, |mem|);
      TotalIsCells(v);
      var nbyte := SumLengths(iov);
      var nleft: nat, tmp, cnt: nat := nbyte, iov, iov.Length;
      var local := new Iovec[LOCAL_MAXIOV](_ => Iovec(0, 0));
      ghost var low := 0;
      out, replies := [], [];
      WholeIsLeft(iov, |mem|);
      assert w + [] == w;
      NoneYet(script, nbyte);
      hide SoFar, Used, EndsAs, Offered;
      while nleft > 0
        invariant iov[..] == v && (tmp == iov || fresh(tmp)) && |out| + nleft == nbyte
        invariant Going(mem, iov, tmp, local, cnt, low, out, w)
        invariant SoFar(before, script, replies, |out|, nbyte) && EndedWell(before, script, replies, |out|, nbyte)
        decreases |script|
      {
        ghost var s0, done, so := script, |out|, replies;
        if cnt == 1 {
          ghost var more;
          rc, out, more := WriteLast(mem, v, tmp, nleft, out, w);
          rv := if rc == Success then nbyte else -1;
          replies := replies + more;
          HandedOver(before, s0, script, so, more, done, |out| - done, nbyte, rc);
          return;
        }
        NoMore(before, script, replies, |out|, nbyte);
        if script == [] {
          rc, rv := Waiting, -1;
          return;
        }
        var r := Ask();
        var n;
        n, out, tmp, cnt, low := Round(r.answer, mem, iov, tmp, local, cnt, low, nbyte, nleft, out, w);
        replies := replies + [r];
        OneMore(before, s0, so, done, nbyte, |out| - done);
        if n < 0 {
          if r.answer.Interrupted? {
            continue;
          }
          if !r.answer.NotReady? {
            rc, rv := Failure, -1;
            return;
          }
        } else {
          nleft := nleft - n;
          if nleft == 0 {
            break;
          }
        }
        if !r.pollOk {
          rc, rv := Failure, -1;
          return;
        }
      }
      rc, rv := Success, nbyte;
    }

    /** The state of Writev between two writes. */
    ghost predicate Going(mem: seq<Byte>, iov: array<Iovec>, tmp: array<Iovec>, local: array<Iovec>, cnt: nat, low: nat,
        out: Bytes, w: Bytes)
      reads this, iov, tmp, local
    {
      && Progress(mem, iov[..], out, w) && Rest(iov, tmp, cnt, low, |out|, |mem|)
      && local != iov && local.Length == LOCAL_MAXIOV && Addressable(local[..], |mem|)
    }

    /** One write, and unless it was the last the copy of what is left. */
    method Round(a: Answer, mem: seq<Byte>, iov: array<Iovec>, tmp: array<Iovec>, local: array<Iovec>, cnt: nat,
        ghost low: nat, nbyte: nat, nleft: nat, ghost out: Bytes, ghost w: Bytes)
        returns (n: int, ghost out': Bytes, tmp': array<Iovec>, cnt': nat, ghost low': nat)
      requires Going(mem, iov, tmp, local, cnt, low, out, w) && nbyte == Total(iov[..]) == |Cells(iov[..])| == |out| + nleft
      modifies `wire, if tmp == iov then {} else {tmp}, local
      ensures iov[..] == old(iov[..]) && (tmp' == tmp || tmp' == local || fresh(tmp'))
      ensures n == (if a.Moved? then Least(a.n, nleft) else -1) && |out'| == |out| + if n >= 0 then n else 0
      ensures Progress(mem, iov[..], out', w) && |out'| <= nbyte
      ensures |out'| < nbyte ==> Going(mem, iov, tmp', local, cnt', low', out', w)
      ensures n < 0 ==> Going(mem, iov, tmp', local, cnt', low', out', w)
    {
      n, out' := TryWritev(a, mem, iov[..], tmp, cnt, out, w);
      tmp', cnt', low' := tmp, cnt, low;
      if n >= 0 {
        if n < nleft {
          tmp', cnt', low' := NextVectors(iov, tmp, local, low, nbyte - (nleft - n), |out|, |mem|);
        }
      }
    }

    /** One write of the current vectors. */
    method TryWritev(a: Answer, mem: seq<Byte>, ghost v: seq<Iovec>, tmp: array<Iovec>, cnt: nat, ghost out: Bytes,
        ghost w: Bytes) returns (n: int, ghost out': Bytes)
      requires Progress(mem, v, out, w) && Holds(tmp, 0, cnt, Cells(v)[|out|..], |mem|)
      modifies `wire
      ensures Progress(mem, v, out', w) && |out'| == |out| + if n >= 0 then n else 0
      ensures |out| <= |Cells(v)| && n == if a.Moved? then Least(a.n, |Cells(v)| - |out|) else -1
    {
      var data := Pieces(mem, tmp, 0, cnt);
      n := KernelWrite(a, data);
      out' := out;
      if n >= 0 {
        out' := out + data[..n];
        GatherParts(mem, Cells(v), |out|);
        PrefixGrows(Gather(mem, Cells(v)), out, n);
        Associative(w, out, data[..n]);
      }
    }

    /** With a single vector left the job is handed over. */
    method WriteLast(mem: seq<Byte>, ghost v: seq<Iovec>, tmp: array<Iovec>, nleft: nat, ghost out: Bytes, ghost w: Bytes)
        returns (rc: Rc, ghost out': Bytes, ghost replies: seq<Reply>)
      requires Progress(mem, v, out, w) && Holds(tmp, 0, 1, Cells(v)[|out|..], |mem|) && |out| + nleft == |Cells(v)|
      modifies `script, `wire
      ensures Progress(mem, v, out', w) && (rc == Success ==> out' == Gather(mem, Cells(v)))
      ensures Used(old(script), script, replies) && EndsAs(rc, replies, script)
      ensures |out'| == |out| + Least(Offered(replies), nleft)
    {
      OneVector(mem, tmp[0..1], tmp[0].base, tmp[0].len);
      var n;
      ghost var more;
      rc, n, more, replies := StWrite(mem, tmp[0].base, nleft);
      if rc == Success && n != nleft {
        rc := Failure;
      }
      out' := out + more;
      GatherParts(mem, Cells(v), |out|);
      assert more == Gather(mem, Cells(v))[|out|..][..|more|];
      PrefixGrows(Gather(mem, Cells(v)), out, |more|);
      Associative(w, out, more);
    }

    static method SumLengths(iov: array<Iovec>) returns (n: nat)
      ensures n == Total(iov[..])
    {
      n := 0;
      for i := 0 to iov.Length
        invariant n == Total(iov[..i])
      {
        TotalStep(iov[..], i);
        assert iov[..][..i] == iov[..i] && iov[..][..i + 1] == iov[..i + 1];
        n := n + iov[i].len;
      }
      assert iov[..iov.Length] == iov[..];
    }

    /** Finds the first vector not written in full and copies from there. The copy of an earlier round
        is used again: it cannot overflow. */
    static method NextVectors(iov: array<Iovec>, tmp: array<Iovec>, local: array<Iovec>, ghost low: nat, n: nat,
        ghost before: nat, ghost memory: nat) returns (tmp': array<Iovec>, cnt: nat, ghost low': nat)
      requires Roomy(iov, tmp, low, before) && before <= n < Total(iov[..]) && Addressable(iov[..], memory)
      requires local != iov && local.Length == LOCAL_MAXIOV
      requires Addressable(tmp[..], memory) && Addressable(local[..], memory)
      modifies if tmp == iov then {} else {tmp}, local
      ensures iov[..] == old(iov[..]) && Rest(iov, tmp', cnt, low', n, memory)
      ensures tmp' != iov && (tmp' == tmp || tmp' == local || fresh(tmp')) && Addressable(local[..], memory)
    {
      var index, off := FindNext(iov, n);
      tmp', low' := tmp, low;
      if tmp == iov {
        low' := index;
        tmp' := local;
        if iov.Length - index > LOCAL_MAXIOV {
          tmp' := new Iovec[iov.Length - index](_ => Iovec(0, 0));
        }
      }
      NoEarlier(iov[..], low', index, off);
      RestCells(iov[..], index, off);
      assert Addressable(tmp'[..], memory);
      cnt := Refill(tmp', iov, index, off, memory);
    }

    // -------------------------------------------------------------- reading

    /** got has been read into the cells before left, which the vectors from pos on hold. */
    ghost predicate Filled(m: seq<Byte>, stream: Bytes, cells: seq<nat>, got: Bytes, left: seq<nat>, iov: array<Iovec>,
        pos: nat, end: nat)
      reads this, iov
    {
      && Holds(iov, pos, end, left, |m|) && Stored(m, stream, cells, got, left, memory, input)
    }

    /** Reads into the vectors until they are full or the stream ends. */
    method ReadvResid(iov: array<Iovec>, iovSize: nat)
        returns (rc: Rc, pos: nat, size: nat, ghost got: Bytes, ghost left: seq<nat>, ghost eof: bool,
                 ghost replies: seq<Reply>)
      requires iovSize <= iov.Length && Addressable(iov[..], |memory|)
      modifies `script, `input, `memory, iov
      ensures Filled(old(memory), old(input), old(Cells(iov[..iovSize])), got, left, iov, pos, iovSize)
      ensures pos + size == iovSize && (rc == Success ==> eof || (size == 0 && left == []))
      ensures Used(old(script), script, replies) && EndsAs(rc, replies, script)
      ensures |got| == Least(Offered(replies), Least(|old(Cells(iov[..iovSize]))|, |old(input)|))
      ensures eof ==> replies != [] && var a := replies[|replies| - 1].answer; a.Moved? && (a.n == 0 || left == [] || input == [])
    {
      ghost var cells, m, stream, before := Cells(iov[..iovSize]), memory, input, script;
      ghost var most := Least(|cells|, |stream|);
      CellsAddressable(iov[..iovSize], |memory|);
      pos, size, got, left, eof, replies := 0, iovSize, [], cells, false, [];
      assert iov[0..iovSize] == iov[..iovSize];
      StoredNone(m, stream, cells);
      assert Filled(m, stream, cells, got, left, iov, pos, iovSize);
      NoneYet(script, most);
      hide Filled, SoFar, Used, EndsAs, Offered;
      while size > 0
        invariant pos + size == iovSize && Filled(m, stream, cells, got, left, iov, pos, iovSize) && !eof
        invariant |got| + |left| == |cells| && |got| + |input| == |stream| && SoFar(before, script, replies, |got|, most)
        invariant EndedWell(before, script, replies, |got|, most)
        decreases |script|
      {
        NoMore(before, script, replies, |got|, most);
        if script == [] {
          rc := Waiting;
          return;
        }
        ghost var s0, done, so := script, |got|, replies;
        var r := Ask();
        var n;
        n, pos, size, got, left := TryRead(r.answer, iov, pos, size, m, stream, cells, got, left);
        replies := replies + [r];
        OneMore(before, s0, so, done, most, |got| - done);
        if r.answer.Interrupted? {
          continue;
        }
        if n < 0 && !r.answer.NotReady? {
          rc := Failure;
          return;
        }
        eof := n == 0;
        if n == 0 || size == 0 {
          break;
        }
        if !r.pollOk {
          rc := Failure;
          return;
        }
      }
      rc := Success;
      if size == 0 {
        FilledUp(m, stream, cells, got, left, iov, iovSize);
      }
    }

    lemma FilledUp(m: seq<Byte>, stream: Bytes, cells: seq<nat>, got: Bytes, left: seq<nat>, iov: array<Iovec>, end: nat)
      requires Filled(m, stream, cells, got, left, iov, end, end)
      ensures left == []
    {
      assert iov[end..end] == [];
    }

    /** One read, and the step over what it filled. */
    method TryRead(a: Answer, iov: array<Iovec>, pos: nat, size: nat, ghost m: seq<Byte>, ghost stream: Bytes,
        ghost cells: seq<nat>, ghost got: Bytes, ghost left: seq<nat>)
        returns (n: int, pos': nat, size': nat, ghost got': Bytes, ghost left': seq<nat>)
      requires size > 0 && Filled(m, stream, cells, got, left, iov, pos, pos + size)
      modifies `input, `memory, iov
      ensures pos' + size' == pos + size && Filled(m, stream, cells, got', left', iov, pos', pos' + size')
      ensures n <= 0 ==> pos' == pos
      ensures n == if a.Moved? then Least(a.n, Least(|left|, |old(input)|)) else -1
      ensures var moved := if n > 0 then n else 0;
        && |got'| == |got| + moved && |left'| == |left| - moved && |input| == |old(input)| - moved
    {
      var room := Cells(iov[pos..pos + size]);
      var data;
      ghost var before := input;
      n, data := KernelRead(a, |room|);
      if n <= 0 {
        assert n == 0 ==> before[0..] == before;
        return n, pos, size, got, left;
      }
      hide Stored, InMemory;
      StoredMore(m, stream, cells, got, left, memory, before, n);
      memory := Scatter(memory, room, data);
      pos', size' := Advance(iov, pos, size, n, room, |memory|);
      got', left' := got + data, left[n..];
    }

    /** The bytes that a write of some vectors offers. */
    static method Pieces(mem: seq<Byte>, iov: array<Iovec>, pos: nat, size: nat) returns (data: Bytes)
      requires pos + size <= iov.Length && Addressable(iov[..], |mem|)
      ensures InMemory(Cells(iov[pos..pos + size]), |mem|)
      ensures data == Gather(mem, Cells(iov[pos..pos + size]))
    {
      var v := iov[pos..pos + size];
      CellsAddressable(v, |mem|);
      data := Gather(mem, Cells(v));
    }
  }

  /** A copy is big enough for any rest that starts no earlier than byte n. */
  ghost predicate Roomy(iov: array<Iovec>, tmp: array<Iovec>, low: nat, n: nat)
    reads iov
  {
    tmp != iov ==> low <= iov.Length <= tmp.Length + low && Total(iov[..low]) <= n
  }

  /** The first cnt vectors of tmp are what iov has from byte n on. */
  ghost predicate Rest(iov: array<Iovec>, tmp: array<Iovec>, cnt: nat, low: nat, n: nat, memory: nat)
    reads iov, tmp
  {
    && n <= |Cells(iov[..])| && Holds(tmp, 0, cnt, Cells(iov[..])[n..], memory)
    && Addressable(iov[..], memory) && Roomy(iov, tmp, low, n)
  }

  lemma WholeIsLeft(iov: array<Iovec>, memory: nat)
    requires Addressable(iov[..], memory)
    ensures Rest(iov, iov, iov.Length, 0, 0, memory)
  {
    assert iov[0..iov.Length] == iov[..] && Cells(iov[..])[0..] == Cells(iov[..]);
  }

  lemma PrefixGrows(all: Bytes, out: Bytes, n: nat)
    requires out <= all && n <= |all| - |out|
    ensures out + all[|out|..][..n] <= all && |out + all[|out|..][..n]| == |out| + n
  {
    assert all[..|out|] + all[|out|..][..n] == all[..|out| + n];
  }

  lemma {:induction false} TotalGrows(v: seq<Iovec>, i: nat, j: nat)
    requires i <= j <= |v|
    ensures Total(v[..i]) <= Total(v[..j])
  {
    assert v[..j] == v[..i] + v[i..j];
    TotalConcat(v[..i], v[i..j]);
  }

  /** The vector that holds byte n is not before one that starts at or before byte n. */
  lemma NoEarlier(v: seq<Iovec>, low: nat, index: nat, off: nat)
    requires low <= |v| && index < |v| && off < v[index].len && Total(v[..low]) <= Total(v[..index]) + off
    ensures low <= index
  {
    if index < low {
      TotalStep(v, index);
      TotalGrows(v, index + 1, low);
    }
  }

  /** The cells from byte off of vector index on. */
  lemma RestCells(v: seq<Iovec>, index: nat, off: nat)
    requires index < |v| && off <= v[index].len
    ensures var n := Total(v[..index]) + off;
      n <= |Cells(v)| && Cells([Cut(v[index], off)] + v[index + 1..]) == Cells(v)[n..]
  {
    assert v == v[..index] + v[index..];
    CellsConcat(v[..index], v[index..]);
    TotalIsCells(v[..index]);
    assert v[index..] == [v[index]] + v[index + 1..];
    CutCells(v[index], v[index + 1..], off);
    DropConcat(Cells(v[..index]), Cells(v[index..]), off);
  }

  lemma DropConcat(a: seq<nat>, b: seq<nat>, n: nat)
    requires n <= |b|
    ensures (a + b)[|a| + n..] == b[n..]
  {
  }

  lemma OneVector(mem: seq<Byte>, v: seq<Iovec>, base: nat, len: nat)
    requires v == [Iovec(base, len)] && base + len <= |mem|
    ensures Cells(v) == Range(base, len) && InMemory(Cells(v), |mem|) && Gather(mem, Cells(v)) == mem[base..base + len]
    ensures v[..1] == v
  {
    assert v[1..] == [] && Cells(v[1..]) == [];
    assert Range(base, len) + [] == Range(base, len);
  }

  lemma {:induction false} TotalConcat(a: seq<Iovec>, b: seq<Iovec>)
    ensures Total(a + b) == Total(a) + Total(b)
  {
    if a == [] {
      assert a + b == b;
    } else {
      assert (a + b)[0] == a[0] && (a + b)[1..] == a[1..] + b;
      TotalConcat(a[1..], b);
    }
  }

  lemma TotalStep(v: seq<Iovec>, i: nat)
    requires i < |v|
    ensures Total(v[..i + 1]) == Total(v[..i]) + v[i].len && Total(v[i..]) == v[i].len + Total(v[i + 1..])
    ensures i + 1 == |v| ==> Total(v[i + 1..]) == 0
  {
    assert v[..i + 1] == v[..i] + [v[i]] && [v[i]][1..] == [];
    TotalConcat(v[..i], [v[i]]);
    assert Total([v[i]]) == v[i].len + Total([]);
    assert v[i..][1..] == v[i + 1..];
  }

  lemma WrittenMore(w: Bytes, out: Bytes, data: Bytes, n: nat)
    requires n <= |data|
    ensures w + out + data[..n] == w + (out + data[..n])
    ensures out + data[..n] + data[n..] == out + data
  {
    assert data[..n] + data[n..] == data;
    Associative(out, data[..n], data[n..]);
    Associative(w, out, data[..n]);
  }

  /** got has been taken from the stream and stored in the cells before left. */
  ghost predicate Stored(m: seq<Byte>, stream: Bytes, cells: seq<nat>, got: Bytes, left: seq<nat>, memory: seq<Byte>,
      input: Bytes) {
    && InMemory(cells, |m|) && InMemory(left, |m|) && |got| + |left| == |cells| && cells[|got|..] == left
    && got + input == stream && memory == Scatter(m, cells, got)
  }

  lemma StoredNone(m: seq<Byte>, stream: Bytes, cells: seq<nat>)
    requires InMemory(cells, |m|)
    ensures Stored(m, stream, cells, [], cells, m, stream)
  {
    assert cells[0..] == cells && [] + stream == stream;
  }

  lemma StoredMore(m: seq<Byte>, stream: Bytes, cells: seq<nat>, got: Bytes, left: seq<nat>, memory: seq<Byte>,
      input: Bytes, n: nat)
    requires Stored(m, stream, cells, got, left, memory, input) && n <= |left| && n <= |input|
    ensures |memory| == |m|
    ensures Stored(m, stream, cells, got + input[..n], left[n..], Scatter(memory, left, input[..n]), input[n..])
  {
    var f := cells[..|got|];
    assert cells == f + left;
    ScatterMore(m, f, left, got, input[..n]);
    assert input[..n] + input[n..] == input;
    Associative(got, input[..n], input[n..]);
    assert cells[|got| + n..] == left[n..];
    forall c | c in left[n..]
      ensures c in left
    {
    }
  }
}
