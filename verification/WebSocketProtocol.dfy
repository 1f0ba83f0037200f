/** The protocol object: parser state that survives between calls, unmasking in place, and sending. */
module WebSocketProtocol {
  import opened Bytes
  import opened Lists
  import opened WebSocket

  /** What an event puts on the wire if the transport takes it. */
  function WireOfEvent(e: Event): Bytes {
    match e
    case Pong(data) => PrintFrame(Header(true, 0, PONG, None, |data|), data)
    case Close(code) => PrintFrame(Header(true, 0, CLOSE, None, 2), [Low(code / 256), Low(code)])
    case _ => []
  }

  function WireOf(events: seq<Event>): Bytes {
    if events == [] then [] else WireOfEvent(events[0]) + WireOf(events[1..])
  }

  lemma WireOfOne(e: Event)
    ensures WireOf([e]) == WireOfEvent(e)
  {
    assert [e][1..] == [];
    assert WireOf([e][1..]) == [];
  }

  lemma WireOfTwo(e: Event, f: Event)
    ensures WireOf([e, f]) == WireOf([e]) + WireOf([f])
  {
    assert [e, f][1..] == [f] && [e][1..] == [];
    assert WireOf([]) == [];
  }

  lemma {:induction false} WireOfConcat(a: seq<Event>, b: seq<Event>)
    ensures WireOf(a + b) == WireOf(a) + WireOf(b)
  {
    if a == [] {
      assert a + b == b;
    } else {
      assert (a + b)[0] == a[0] && (a + b)[1..] == a[1..] + b;
      WireOfConcat(a[1..], b);
      Associative(WireOfEvent(a[0]), WireOf(a[1..]), WireOf(b));
    }
  }

  lemma Grow(e: seq<Event>, w: Bytes, done: seq<Event>, more: seq<Event>)
    ensures e + done + more == e + (done + more)
    ensures w + WireOf(done) + WireOf(more) == w + WireOf(done + more)
  {
    WireOfConcat(done, more);
    Associative(e, done, more);
    Associative(w, WireOf(done), WireOf(more));
  }

  lemma NothingMore(e: seq<Event>, w: Bytes)
    ensures e + [] == e && w + WireOf([]) == w
  {
  }

  lemma PrependTwice(a: seq<Event>, b: seq<Event>, r: Result)
    ensures Prepend(a, Prepend(b, r)) == Prepend(a + b, r)
  {
    assert a + (b + r.events) == a + b + r.events;
  }

  /** A 32-bit number as a signed one. */
  function Signed(n: nat): int
    requires n < U32
  {
    if n < 0x8000_0000 then n else n - U32
  }

  /** A message is handled in the same way whatever fragments it was collected from, and clears them. */
  lemma HandleForgets(p: State, frag: Bytes, opcode: nat, data: Bytes, accept: Handler, past: seq<Event>)
    ensures var o := Handle(p, opcode, data, accept, past);
      Handle(p.(frag := frag), opcode, data, accept, past) == o && (!o.closed ==> o.p == p.(frag := []))
  {
  }

  class WSProtocol {
    // the frame whose payload is awaited
    var fin: bool
    var rsv: nat
    var opcode: nat
    var masked: bool
    var maskingKey: seq<Byte>
    var payloadLength: nat
    // the message that is being continued
    var opcodeContinue: nat
    var fragmentation: Bytes
    // closing
    var isSendClose: bool
    var statusCode: nat
    // the application and the transport
    const accept: Handler
    const failing: nat -> bool
    const leaks: nat -> nat
    var calls: nat
    var wire: Bytes
    var events: seq<Event>

    ghost predicate Valid()
      reads this
    {
      masked ==> |maskingKey| == 4
    }

    function Frame(): Header
      reads this
    {
      Header(fin, rsv, opcode, if masked then Some(maskingKey) else None, payloadLength)
    }

    /** The parser state between calls. */
    ghost function Abs(): State
      reads this
    {
      State(if payloadLength == 0 then None else Some(Frame()), opcodeContinue, fragmentation, isSendClose)
    }

    constructor (accept: Handler, failing: nat -> bool, leaks: nat -> nat)
      ensures Valid() && Abs() == OPEN && events == [] && wire == []
      ensures this.accept == accept && this.failing == failing && this.leaks == leaks
    {
      fin, rsv, opcode, masked, maskingKey, payloadLength := false, 0, 0, false, [], 0;
      opcodeContinue, fragmentation, isSendClose, statusCode := 0, [], false, GOING_AWAY;
      this.accept, this.failing, this.leaks, calls, wire, events := accept, failing, leaks, 0, [], [];
    }

    // -------------------------------------------------------------- receiving

    /** Reads a header, unless it is incomplete; then nothing counts as read. */
    method ReadHeader(data: array<Byte>, off: nat) returns (ok: bool, n: nat)
      requires Valid() && payloadLength == 0 && off <= data.Length
      modifies `fin, `rsv, `opcode, `masked, `maskingKey, `payloadLength, `opcodeContinue
      ensures Valid() && ok == ParseHeader(data[off..]).Some?
      ensures !ok ==> payloadLength == 0 && opcodeContinue == old(opcodeContinue)
      ensures ok ==> var (h, m) := ParseHeader(data[off..]).value;
        n == m && (Frame(), opcodeContinue) == Begin(h, old(opcodeContinue))
    {
      ok, n := ReadFields(data, off);
      if !ok {
        return;
      }
      if !fin && 1 <= opcode <= 7 && opcodeContinue == 0 {
        opcodeContinue := opcode;
      } else if fin && opcode == 0 && 1 <= opcodeContinue <= 7 {
        opcode := opcodeContinue;
        opcodeContinue := 0;
      }
    }

    method ReadFields(data: array<Byte>, off: nat) returns (ok: bool, n: nat)
      requires Valid() && payloadLength == 0 && off <= data.Length
      modifies `fin, `rsv, `opcode, `masked, `maskingKey, `payloadLength
      ensures Valid() && ParseHeader(data[off..]) == if ok then Some((Frame(), n)) else None
      ensures !ok ==> payloadLength == 0
    {
      var size := data.Length - off;
      if size < 2 {
        return false, 0;
      }
      fin := data[off] & 0x80 != 0;
      rsv := Nat((data[off] >> 4) & 0x7);
      opcode := Nat(data[off] & 0xf);
      ok, n := ReadLength(data, off);
      if !ok {
        return;
      }
      masked := data[off + 1] & 0x80 != 0;
      maskingKey := [0, 0, 0, 0];
      ghost var b := data[off..];
      assert b[0] == data[off] && b[1] == data[off + 1];
      if masked {
        if size - n < 4 {
          payloadLength := 0;
          return false, 0;
        }
        maskingKey := data[off + n..off + n + 4];
        assert b[n..n + 4] == maskingKey;
        n := n + 4;
        ParsesTo(b, Frame(), n - 4);
      } else {
        ParsesTo(b, Frame(), n);
      }
    }

    /** Reads the length in one of its three forms; n is where it ends. */
    method ReadLength(data: array<Byte>, off: nat) returns (ok: bool, n: nat)
      requires off + 2 <= data.Length && payloadLength == 0
      modifies `payloadLength
      ensures var short := Nat(data[off + 1] & 0x7f);
        && n == (if short == 0x7e then 4 else if short == 0x7f then 10 else 2)
        && ok == (off + n <= data.Length)
        && payloadLength == if !ok then 0 else if n == 2 then short else Number(data[off..][2..n])
    {
      payloadLength := Nat(data[off + 1] & 0x7f);
      n := 2;
      if payloadLength == 0x7e {
        n := 4;
      } else if payloadLength == 0x7f {
        n := 10;
      }
      if off + n > data.Length {
        payloadLength := 0;
        return false, n;
      }
      if n > 2 {
        assert data[off..][2..n] == data[off + 2..off + n];
        payloadLength := Number(data[off + 2..off + n]);
      }
      return true, n;
    }

    /** Takes the mask off the payload, in place. */
    method Unmask(data: array<Byte>, off: nat)
      requires Valid() && masked && off + payloadLength <= data.Length
      modifies data
      ensures data[off..off + payloadLength] == Mask(old(data[off..off + payloadLength]), maskingKey)
      ensures data[..off] == old(data[..off]) && data[off + payloadLength..] == old(data[off + payloadLength..])
    {
      ghost var d := data[..];
      XorPayload(data, off);
      forall i | 0 <= i < payloadLength
        ensures data[off..off + payloadLength][i] == d[off..off + payloadLength][i] ^ maskingKey[i % 4]
      {
        assert data[off + i] == d[off + i] ^ maskingKey[(off + i - off) % 4];
      }
    }

    method XorPayload(data: array<Byte>, off: nat)
      requires Valid() && masked && off + payloadLength <= data.Length
      modifies data
      ensures forall j | 0 <= j < data.Length ::
        data[j] == if off <= j < off + payloadLength then old(data[j]) ^ maskingKey[(j - off) % 4] else old(data[j])
    {
      for i := 0 to payloadLength
        invariant forall j | 0 <= j < data.Length ::
          data[j] == if off <= j < off + i then old(data[j]) ^ maskingKey[(j - off) % 4] else old(data[j])
      {
        data[off + i] := data[off + i] ^ maskingKey[i % 4];
      }
    }

    /** Called with everything that was not used before and whatever has arrived since; the result says
        how much of it was used, or is -1 when the connection is to be closed. Half of the range or more
        reads as negative too. */
    method HandlerProtocol(data: array<Byte>) returns (result: int)
      requires Valid() && data.Length < U32
      modifies this, data
      ensures var r := Process(old(Abs()), old(data[..]), accept, old(events));
        var used := data.Length - |r.rest|;
        && events == old(events) + r.events && isSendClose == r.p.closeSent
        && (Up() ==> wire == old(wire) + WireOf(r.events))
        && result == (if r.closed then -1 else Signed(used))
        && (result < 0 <==> r.closed || used >= 0x8000_0000)
        && (!r.closed ==> Valid() && Abs() == r.p && data[used..] == r.rest)
    {
      ghost var whole, e, w := Process(Abs(), data[..], accept, events), events, wire;
      ghost var done: seq<Event> := [];
      var off := 0;
      Starting(data);
      while true
        invariant 0 <= off <= data.Length && Valid() && events == e + done && (Up() ==> wire == w + WireOf(done))
        invariant Going(whole, data, off, done)
        decreases data.Length - off
      {
        var go, closed;
        off, go, closed, done := NextFrame(data, off, whole, done, e, w);
        if closed {
          return -1;
        }
        if !go {
          return Signed(off);
        }
      }
    }

    /** After the events done, the result whole is still to be had from the rest of the data. */
    ghost predicate Going(whole: Result, data: array<Byte>, off: nat, done: seq<Event>)
      requires Valid() && off <= data.Length
      reads this, data
    {
      whole == Prepend(done, Process(Abs(), data[off..], accept, events))
    }

    lemma Starting(data: array<Byte>)
      requires Valid()
      ensures Going(Process(Abs(), data[..], accept, events), data, 0, [])
      ensures events + [] == events && wire + WireOf([]) == wire
    {
      assert data[0..] == data[..];
      PrependNothing(Process(Abs(), data[..], accept, events));
    }

    method NextFrame(data: array<Byte>, off: nat, ghost whole: Result, ghost done: seq<Event>, ghost e: seq<Event>,
        ghost w: Bytes) returns (next: nat, go: bool, closed: bool, ghost done': seq<Event>)
      requires Valid() && off <= data.Length && events == e + done && (Up() ==> wire == w + WireOf(done))
      requires Going(whole, data, off, done)
      modifies this, data
      ensures Valid() && off <= next <= data.Length && events == e + done' && (Up() ==> wire == w + WireOf(done'))
      ensures if closed then whole.closed && whole.events == done' && isSendClose == whole.p.closeSent
        else if go then Going(whole, data, next, done') && off < next
        else whole == Result(Abs(), data[next..], done', false)
    {
      ghost var more;
      next, go, closed, more := OneFrame(data, off);
      done' := done + more;
      Grow(e, w, done, more);
      if go {
        PrependTwice(done, more, Process(Abs(), data[next..], accept, events));
      }
    }

    /** Reads and handles one frame, or finds it incomplete. */
    method OneFrame(data: array<Byte>, off: nat) returns (next: nat, go: bool, closed: bool, ghost more: seq<Event>)
      requires Valid() && off <= data.Length
      modifies this, data
      ensures Valid() && off <= next <= data.Length && events == old(events) + more
      ensures Up() ==> wire == old(wire) + WireOf(more)
      ensures var r := Process(old(Abs()), old(data[off..]), accept, old(events));
        Stepped(r, data, next, go, closed, more)
      ensures go ==> off < next
    {
      if payloadLength == 0 {
        next, go, closed, more := NewFrame(data, off);
      } else {
        SamePayload(Settled(), Abs(), Frame(), data[off..], accept, events);
        next, go, closed, more := OnePayload(data, off);
      }
    }

    method NewFrame(data: array<Byte>, off: nat) returns (next: nat, go: bool, closed: bool, ghost more: seq<Event>)
      requires Valid() && off <= data.Length && payloadLength == 0
      modifies this, data
      ensures Valid() && off <= next <= data.Length && events == old(events) + more
      ensures Up() ==> wire == old(wire) + WireOf(more)
      ensures var r := Process(old(Abs()), old(data[off..]), accept, old(events));
        Stepped(r, data, next, go, closed, more)
      ensures go ==> off < next
    {
      hide Payload, WireOf, Finish;
      ghost var b := data[off..];
      var ok, n := ReadHeader(data, off);
      if !ok {
        NothingMore(events, wire);
        return off, false, false, [];
      }
      assert b[n..] == data[off + n..];
      next, go, closed, more := OnePayload(data, off + n);
    }

    /** How the result r of the parser comes about from one frame. */
    ghost predicate Stepped(r: Result, data: array<Byte>, next: nat, go: bool, closed: bool, more: seq<Event>)
      requires Valid() && next <= data.Length
      reads this, data
    {
      if closed then r.closed && r.events == more && isSendClose == r.p.closeSent
      else if go then r == Prepend(more, Process(Abs(), data[next..], accept, events))
      else r == Result(Abs(), data[next..], more, false)
    }

    method OnePayload(data: array<Byte>, off: nat) returns (next: nat, go: bool, closed: bool, ghost more: seq<Event>)
      requires Valid() && off <= data.Length
      modifies this, data
      ensures Valid() && off <= next <= data.Length && events == old(events) + more
      ensures Up() ==> wire == old(wire) + WireOf(more)
      ensures var r := Payload(old(Settled()), old(Frame()), old(data[off..]), accept, old(events));
        Stepped(r, data, next, go, closed, more)
      ensures go ==> next == off + old(payloadLength)
    {
      hide Finish, WireOf, Process, MaskWith;
      ghost var b := data[off..];
      if data.Length - off < payloadLength {
        NothingMore(events, wire);
        return off, false, false, [];
      }
      next := off + payloadLength;
      assert b[..payloadLength] == data[off..next] && b[payloadLength..] == data[next..];
      more := Finish(Settled(), Frame(), MaskWith(data[off..next], Frame().key), accept, events).events;
      closed := Deliver(data, off);
      go := !closed;
    }

    /** Acts on a frame whose payload is complete. */
    method Deliver(data: array<Byte>, off: nat) returns (closed: bool)
      requires Valid() && off + payloadLength <= data.Length
      modifies this, data
      ensures Valid() && data[off + old(payloadLength)..] == old(data[off + payloadLength..])
      ensures var o := Finish(old(Settled()), old(Frame()),
          MaskWith(old(data[off..off + payloadLength]), old(Frame()).key), accept, old(events));
        && closed == o.closed && events == old(events) + o.events && isSendClose == o.p.closeSent
        && (!closed ==> payloadLength == 0 && Abs() == o.p)
        && (Up() ==> wire == old(wire) + WireOf(o.events))
    {
      hide Handle, Collected;
      ghost var payload := data[off..off + payloadLength];
      if masked {
        Unmask(data, off);
      }
      var body := data[off..off + payloadLength];
      assert body == MaskWith(payload, Frame().key);
      if fin {
        var message := Collect(body);
        HandleForgets(old(Settled()), fragmentation, opcode, message, accept, events);
        closed := Dispatch(message);
        if closed {
          return;
        }
        fragmentation := [];
      } else {
        fragmentation := fragmentation + body[..|body| % U32];
        closed := false;
        assert wire + WireOf([]) == wire && events + [] == events;
      }
      payloadLength := 0;
    }

    /** The transport never fails. */
    ghost predicate Up() {
      forall n :: !failing(n)
    }

    /** The parser state without the frame that is being completed. */
    ghost function Settled(): State
      reads this
    {
      State(None, opcodeContinue, fragmentation, isSendClose)
    }

    /** Puts the fragments in front of the last payload. */
    method Collect(body: Bytes) returns (message: Bytes)
      modifies `fragmentation
      ensures message == Collected(old(fragmentation), body)
    {
      message := body[..|body| % U32];
      if |fragmentation| % U32 != 0 {
        fragmentation := fragmentation + message;
        message := fragmentation[..|fragmentation| % U32];
      }
    }

    /** Hands a whole message to the application or answers it. */
    method Dispatch(message: Bytes) returns (closed: bool)
      modifies `events, `statusCode, `isSendClose, `wire, `calls
      ensures var o := Handle(old(Settled()), opcode, message, accept, old(events));
        && closed == o.closed && events == old(events) + o.events && isSendClose == o.p.closeSent
        && (Up() ==> wire == old(wire) + WireOf(o.events))
    {
      if opcode == TEXT {
        closed := Tell(Text(message));
      } else if opcode == BINARY {
        closed := Tell(Binary(message));
      } else if opcode == CLOSE {
        closed := |message| == 2;
        if closed {
          SendClose(NORMAL_CLOSE);
        }
      } else if opcode == PING {
        SendPong(message);
        closed := false;
      } else if opcode == PONG {
        closed := false;
      } else {
        SendClose(PROTOCOL_ERROR);
        closed := true;
      }
    }

    /** Calls the handler of the application, and closes if it does not want to go on. */
    method Tell(e: Event) returns (closed: bool)
      requires e.Text? || e.Binary?
      modifies `events, `statusCode, `isSendClose, `wire, `calls
      ensures closed == !accept(old(events) + [e])
      ensures var more := [e] + if closed && !old(isSendClose) then [Close(GOING_AWAY)] else [];
        events == old(events) + more && (Up() ==> wire == old(wire) + WireOf(more))
      ensures isSendClose == (old(isSendClose) || closed)
    {
      events := events + [e];
      closed := !accept(events);
      WireOfOne(e);
      if closed {
        WireOfTwo(e, Close(GOING_AWAY));
        SendClose(GOING_AWAY);
      }
    }

    // -------------------------------------------------------------- sending

    /** The transport takes the bytes, or fails after some of them are out. */
    method SendWSData(d: Bytes) returns (ok: bool)
      modifies `wire, `calls
      ensures ok == !failing(old(calls)) && calls == old(calls) + 1
      ensures wire == old(wire) + if ok then d else d[..Least(leaks(old(calls)), |d|)]
    {
      ok := !failing(calls);
      wire := wire + if ok then d else d[..Least(leaks(calls), |d|)];
      calls := calls + 1;
    }

    /** How many bytes of a frame are out when one of its two sends fails. */
    function Out(h: Header, call: nat): nat
    {
      if failing(call) then Least(leaks(call), |PrintHeader(h)|)
      else |PrintHeader(h)| + Least(leaks(call + 1), h.len)
    }

    /** A close is sent once. */
    method SendClose(code: nat)
      requires code < 0x1_0000
      modifies `statusCode, `isSendClose, `events, `wire, `calls
      ensures isSendClose
      ensures var e := if old(isSendClose) then [] else [Close(code)];
        events == old(events) + e && (Up() ==> wire == old(wire) + WireOf(e))
    {
      statusCode := code;
      if isSendClose {
        return;
      }
      isSendClose := true;
      events := events + [Close(code)];
      var v := [Low(statusCode / 256), Low(statusCode)];
      var ok := SendWS(Header(true, 0, CLOSE, None, 2), v);
      WireOfOne(Close(code));
    }

    method SendPong(message: Bytes)
      modifies `events, `wire, `calls
      ensures events == old(events) + [Pong(message)]
      ensures Up() ==> wire == old(wire) + WireOf([Pong(message)])
    {
      events := events + [Pong(message)];
      var ok := SendWS(Header(true, 0, PONG, None, |message|), message);
      WireOfOne(Pong(message));
    }

    method SendWhole(d: Bytes, binary: bool) returns (ok: bool)
      requires |d| < 0x1_0000_0000
      modifies `wire, `calls
      ensures ok == (!failing(old(calls)) && !failing(old(calls) + 1))
      ensures ok ==> wire == old(wire) + PrintMessage(Whole(binary, Piece(d, None)))
      ensures old(wire) <= wire <= old(wire) + PrintMessage(Whole(binary, Piece(d, None)))
    {
      ok := SendWS(HeaderOf(true, Opcode(binary), Piece(d, None)), d);
    }

    /** The three calls that send one message in pieces. */
    method SendFragmentHead(d: Bytes, binary: bool) returns (ok: bool)
      modifies `wire, `calls
      ensures ok == (!failing(old(calls)) && !failing(old(calls) + 1)) && (ok ==> calls == old(calls) + 2)
      ensures ok ==> wire == old(wire) + PrintFrame(HeaderOf(false, Opcode(binary), Piece(d, None)), d)
    {
      ok := SendWS(HeaderOf(false, Opcode(binary), Piece(d, None)), d);
    }

    method SendFragment(d: Bytes) returns (ok: bool)
      modifies `wire, `calls
      ensures ok == (!failing(old(calls)) && !failing(old(calls) + 1)) && (ok ==> calls == old(calls) + 2)
      ensures ok ==> wire == old(wire) + PrintFrame(HeaderOf(false, 0, Piece(d, None)), d)
    {
      ok := SendWS(HeaderOf(false, 0, Piece(d, None)), d);
    }

    method SendFragmentTail(d: Bytes) returns (ok: bool)
      modifies `wire, `calls
      ensures ok == (!failing(old(calls)) && !failing(old(calls) + 1)) && (ok ==> calls == old(calls) + 2)
      ensures ok ==> wire == old(wire) + PrintFrame(HeaderOf(true, 0, Piece(d, None)), d)
    {
      ok := SendWS(HeaderOf(true, 0, Piece(d, None)), d);
    }

    /** None of the calls of the transport from one number up to another fails. */
    ghost predicate NoneFails(from: nat, to: nat) {
      forall i | from <= i < to :: !failing(i)
    }

    lemma TwoMore(from: nat, to: nat, end: nat)
      requires from <= to && to + 2 <= end
      ensures NoneFails(from, from)
      ensures NoneFails(from, to + 2) <==> NoneFails(from, to) && !failing(to) && !failing(to + 1)
      ensures NoneFails(from, end) ==> NoneFails(from, to + 2)
    {
    }

    /** An application sends a message in pieces: a head, any number of fragments and a tail, until one
        of the calls fails. */
    method SendInPieces(head: Bytes, middle: seq<Bytes>, tail: Bytes, binary: bool) returns (ok: bool)
      requires |head| < 0x1_0000_0000 && |tail| < 0x1_0000_0000
      requires forall i | 0 <= i < |middle| :: |middle[i]| < 0x1_0000_0000
      modifies `wire, `calls
      ensures ok <==> NoneFails(old(calls), old(calls) + 2 * (|middle| + 2))
      ensures ok ==> wire == old(wire) + PrintMessage(Parts(binary, Piece(head, None), Plain(middle), Piece(tail, None)))
    {
      hide NoneFails, PrintFrame;
      ghost var c := calls;
      ghost var end := c + 2 * (|middle| + 2);
      TwoMore(c, c, end);
      var first := HeaderOf(false, Opcode(binary), Piece(head, None));
      ghost var printed := PrintFrame(first, head);
      ok := SendFragmentHead(head, binary);
      var i := 0;
      assert printed + PrintMiddle(Plain(middle[..0])) == printed;
      while ok && i < |middle|
        invariant 0 <= i <= |middle|
        invariant ok ==> wire == old(wire) + (printed + PrintMiddle(Plain(middle[..i])))
        invariant ok ==> calls == c + 2 * (i + 1) && NoneFails(c, calls)
        invariant !ok ==> !NoneFails(c, c + 2 * (|middle| + 2))
      {
        TwoMore(c, calls, end);
        ok := SendFragment(middle[i]);
        if ok {
          MiddleGrows(middle, i);
          Associative(old(wire), printed + PrintMiddle(Plain(middle[..i])), PrintPlain(middle[i]));
          Associative(printed, PrintMiddle(Plain(middle[..i])), PrintPlain(middle[i]));
        }
        i := i + 1;
      }
      if ok {
        assert middle[..i] == middle;
        TwoMore(c, calls, end);
        ok := SendFragmentTail(tail);
        Associative(old(wire), printed + PrintMiddle(Plain(middle)), PrintFrame(HeaderOf(true, 0, Piece(tail, None)), tail));
      }
    }

    /** Builds the header in a buffer, masks a copy of the payload if asked to, and sends both. */
    method SendWS(h: Header, d: Bytes) returns (ok: bool)
      requires h.len == |d| && h.rsv < 8 && h.opcode < 16 && (h.key.Some? ==> |h.key.value| == 4)
      modifies `wire, `calls
      ensures ok == (!failing(old(calls)) && !failing(old(calls) + 1))
      ensures ok ==> calls == old(calls) + 2
      ensures |PrintFrame(h, d)| >= Out(h, old(calls))
      ensures wire == old(wire) + if ok then PrintFrame(h, d) else PrintFrame(h, d)[..Out(h, old(calls))]
      ensures ok ==>
        var start := |old(wire)| + |PrintHeader(h)|;
        && |wire| == start + |d|
        && forall i | 0 <= i < |d| :: wire[start + i] == if h.key.Some? then d[i] ^ h.key.value[i % 4] else d[i]
    {
      var buffer, sendPos := BuildHeader(h);
      ghost var body := MaskWith(d, h.key);
      PartOfFrame(PrintHeader(h), body);
      hide PrintHeader, MaskWith;
      ok := SendWSData(buffer[..sendPos]);
      if !ok {
        return;
      }
      if h.key.Some? {
        var masked := MaskedCopy(d, h.key.value);
        ok := SendWSData(masked);
      } else {
        ok := SendWSData(d);
      }
      Associative(old(wire), PrintHeader(h), if ok then body else body[..Least(leaks(old(calls) + 1), |d|)]);
      PayloadFollows(old(wire), PrintHeader(h), body);
    }

    static lemma PayloadFollows(before: Bytes, header: Bytes, body: Bytes)
      ensures var all := before + (header + body);
        |all| == |before| + |header| + |body| && forall i | 0 <= i < |body| :: all[|before| + |header| + i] == body[i]
    {
    }

    /** The first bytes of a frame are those of its header, then those of its payload. */
    static lemma PartOfFrame(header: Bytes, body: Bytes)
      ensures forall n | 0 <= n <= |header| :: (header + body)[..n] == header[..n]
      ensures forall n | 0 <= n <= |body| :: (header + body)[..|header| + n] == header + body[..n]
    {
    }

    static method MaskedCopy(d: Bytes, key: seq<Byte>) returns (r: Bytes)
      requires |key| == 4
      ensures r == Mask(d, key)
    {
      var b := new Byte[|d|](i requires 0 <= i < |d| => d[i]);
      for i := 0 to |d|
        invariant forall j | 0 <= j < |d| :: b[j] == if j < i then d[j] ^ key[j % 4] else d[j]
      {
        b[i] := b[i] ^ key[i % 4];
      }
      r := b[..];
    }

    static method BuildHeader(h: Header) returns (buffer: array<Byte>, sendPos: nat)
      requires h.rsv < 8 && h.opcode < 16 && (h.key.Some? ==> |h.key.value| == 4)
      ensures fresh(buffer) && sendPos <= buffer.Length && buffer[..sendPos] == PrintHeader(h)
    {
      buffer := new Byte[16](_ => 0);
      BuildFlags(buffer, h);
      sendPos := BuildSize(buffer, h.key.Some?, h.len);
      if h.key.Some? {
        CopyKey(buffer, sendPos, h.key.value);
        sendPos := sendPos + 4;
      }
    }

    static method CopyKey(buffer: array<Byte>, pos: nat, key: seq<Byte>)
      requires pos + |key| <= buffer.Length
      modifies buffer
      ensures buffer[..pos + |key|] == old(buffer[..pos]) + key
    {
      for i := 0 to |key|
        invariant buffer[..pos] == old(buffer[..pos]) && buffer[pos..pos + i] == key[..i]
      {
        buffer[pos + i] := key[i];
      }
    }

    /** The first byte and the mask bit. */
    static method BuildFlags(buffer: array<Byte>, h: Header)
      requires buffer.Length == 16 && buffer[0] == 0 && buffer[1] == 0
      modifies buffer
      ensures buffer[0] == FirstField(h) && buffer[1] == Bit(h.key.Some?, 0x80)
    {
      if h.fin {
        buffer[0] := buffer[0] | 0x80;
      }
      buffer[0] := buffer[0] | (Low(h.rsv) << 4);
      buffer[0] := buffer[0] | Low(h.opcode);
      if h.key.Some? {
        buffer[1] := buffer[1] | 0x80;
      }
    }

    /** The length in the shortest form. */
    static method BuildSize(buffer: array<Byte>, masked: bool, len: nat) returns (sendPos: nat)
      requires buffer.Length == 16 && buffer[1] == Bit(masked, 0x80)
      modifies buffer
      ensures sendPos == 1 + |SizeField(masked, len)| <= 10
      ensures buffer[..sendPos] == [old(buffer[0])] + SizeField(masked, len)
    {
      sendPos := 2;
      if len <= 0x7d {
        buffer[1] := buffer[1] | Low(len);
      } else if len <= 0xffff {
        buffer[1] := buffer[1] | 0x7e;
        buffer[sendPos + 1] := Low(len);
        buffer[sendPos] := Low(len / 256);
        sendPos := sendPos + 2;
        DigitsTwo(len);
      } else {
        buffer[1] := buffer[1] | 0x7f;
        BuildLong(buffer, sendPos, len);
        sendPos := sendPos + 8;
      }
    }

    static method BuildLong(buffer: array<Byte>, pos: nat, len: nat)
      requires pos + 8 <= buffer.Length
      modifies buffer
      ensures buffer[..pos + 8] == old(buffer[..pos]) + Digits(len, 8)
    {
      buffer[pos + 0] := DigitAt(len, 7);
      buffer[pos + 1] := DigitAt(len, 6);
      buffer[pos + 2] := DigitAt(len, 5);
      buffer[pos + 3] := DigitAt(len, 4);
      buffer[pos + 4] := DigitAt(len, 3);
      buffer[pos + 5] := DigitAt(len, 2);
      buffer[pos + 6] := DigitAt(len, 1);
      buffer[pos + 7] := DigitAt(len, 0);
      DigitsEight(len);
    }
  }

  /** Unmasked pieces. */
  function Plain(middle: seq<Bytes>): seq<Piece> {
    seq(|middle|, i requires 0 <= i < |middle| => Piece(middle[i], None))
  }

  function PrintPlain(d: Bytes): Bytes {
    PrintFrame(HeaderOf(false, 0, Piece(d, None)), d)
  }

  lemma MiddleGrows(middle: seq<Bytes>, i: nat)
    requires i < |middle| && forall j | 0 <= j < |middle| :: |middle[j]| < 0x1_0000_0000
    ensures PrintMiddle(Plain(middle[..i + 1])) == PrintMiddle(Plain(middle[..i])) + PrintPlain(middle[i])
  {
    assert Plain(middle[..i + 1]) == Plain(middle[..i]) + [Piece(middle[i], None)];
    MiddleAppend(Plain(middle[..i]), Piece(middle[i], None));
  }

  lemma {:induction false} MiddleAppend(middle: seq<Piece>, x: Piece)
    requires PieceOk(x) && forall j | 0 <= j < |middle| :: PieceOk(middle[j])
    ensures PrintMiddle(middle + [x]) == PrintMiddle(middle) + PrintFrame(HeaderOf(false, 0, x), x.data)
  {
    if middle == [] {
      assert ([] + [x])[1..] == [];
    } else {
      assert (middle + [x])[1..] == middle[1..] + [x];
      MiddleAppend(middle[1..], x);
      Associative(PrintFrame(HeaderOf(false, 0, middle[0]), middle[0].data), PrintMiddle(middle[1..]),
                  PrintFrame(HeaderOf(false, 0, x), x.data));
    }
  }

  /** Byte k of a number, counted from the least significant. */
  function DigitAt(n: nat, k: nat): Byte {
    if k == 0 then Low(n) else DigitAt(n / 256, k - 1)
  }

  lemma {:induction false} DigitsAre(n: nat, k: nat, i: nat)
    requires i < k
    ensures Digits(n, k)[k - 1 - i] == DigitAt(n, i)
  {
    if i > 0 {
      DigitsAre(n / 256, k - 1, i - 1);
    }
  }

  lemma DigitsTwo(n: nat)
    ensures Digits(n, 2) == [Low(n / 256), Low(n)]
  {
    DigitsAre(n, 2, 0);
    DigitsAre(n, 2, 1);
    assert DigitAt(n, 1) == DigitAt(n / 256, 0);
  }

  lemma DigitsEight(n: nat)
    ensures Digits(n, 8) == [DigitAt(n, 7), DigitAt(n, 6), DigitAt(n, 5), DigitAt(n, 4),
                             DigitAt(n, 3), DigitAt(n, 2), DigitAt(n, 1), DigitAt(n, 0)]
  {
    forall i: nat | i < 8
      ensures Digits(n, 8)[8 - 1 - i] == DigitAt(n, i)
    {
      DigitsAre(n, 8, i);
    }
    var d := Digits(n, 8);
    assert d[7] == DigitAt(n, 0) && d[6] == DigitAt(n, 1) && d[5] == DigitAt(n, 2) && d[4] == DigitAt(n, 3);
    assert d[3] == DigitAt(n, 4) && d[2] == DigitAt(n, 5) && d[1] == DigitAt(n, 6) && d[0] == DigitAt(n, 7);
  }
}
