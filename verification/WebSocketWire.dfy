/** The bytes of a WebSocket frame, field by field as section 5.2 of RFC 6455 lays them out, and what a
    frame does to a parser between frames. */
module WebSocketWire {
  import opened Bytes
  import opened Lists
  import opened WebSocket
  import opened WebSocketProtocol

  // ---------------------------------------------------------------- headers

  /** The first n bytes of b are the header h. */
  ghost predicate Layout(b: Bytes, h: Header, n: nat) {
    && 2 <= n <= |b|
    && (b[0] & 0x80 != 0 <==> h.fin) && ((b[0] >> 4) & 0x7) as int == h.rsv && (b[0] & 0xf) as int == h.opcode
    && (b[1] & 0x80 != 0 <==> h.key.Some?)
    && var short, key := (b[1] & 0x7f) as int, if h.key.Some? then 4 else 0;
      && n == key + (if short == 126 then 4 else if short == 127 then 10 else 2)
      && h.len == (if short == 126 then BigEndian(b, 2, 2) else if short == 127 then BigEndian(b, 2, 8) else short)
      && (h.key.Some? ==> h.key.value == b[n - 4..n])
  }

  /** The number in the k bytes from position i on, the most significant first. */
  function BigEndian(b: Bytes, i: nat, k: nat): nat
    requires i + k <= |b|
    decreases k
  {
    if k == 0 then 0 else (b[i] as int) * Weight(k - 1) + BigEndian(b, i + 1, k - 1)
  }

  function Weight(k: nat): nat {
    if k == 0 then 1 else 0x100 * Weight(k - 1)
  }

  /** Appending a byte multiplies a number by 256. */
  lemma {:induction false} BigEndianShift(b: Bytes, i: nat, k: nat)
    requires i + k < |b|
    ensures BigEndian(b, i, k + 1) == 0x100 * BigEndian(b, i, k) + b[i + k] as int
    decreases k
  {
    if k == 0 {
      assert BigEndian(b, i + 1, 0) == 0 && Weight(0) == 1;
    } else {
      BigEndianShift(b, i + 1, k - 1);
      Unfolded(b, i, k);
      Unfolded(b, i, k - 1);
      Shifted(b[i] as int, Weight(k - 1), BigEndian(b, i + 1, k - 1), b[i + k] as int);
      hide BigEndian;
    }
  }

  lemma Unfolded(b: Bytes, i: nat, k: nat)
    requires i + k < |b|
    ensures BigEndian(b, i, k + 1) == (b[i] as int) * Weight(k) + BigEndian(b, i + 1, k)
  {
  }

  lemma Shifted(x: int, w: int, y: int, z: int)
    ensures x * (0x100 * w) + (0x100 * y + z) == 0x100 * (x * w + y) + z
  {
  }

  lemma {:induction false} NumberIsBigEndian(b: Bytes, i: nat, k: nat)
    requires i + k <= |b|
    ensures Number(b[i..i + k]) == BigEndian(b, i, k)
  {
    if k > 0 {
      NumberIsBigEndian(b, i, k - 1);
      BigEndianShift(b, i, k - 1);
      var s := b[i..i + k];
      assert s[..|s| - 1] == b[i..i + (k - 1)] && s[|s| - 1] == b[i + k - 1];
    }
  }

  /** The parser reads each field from its place. */
  lemma ParsedLayout(b: Bytes)
    requires ParseHeader(b).Some?
    ensures var (h, n) := ParseHeader(b).value; Layout(b, h, n)
  {
    if |b| >= 4 {
      NumberIsBigEndian(b, 2, 2);
    }
    if |b| >= 10 {
      NumberIsBigEndian(b, 2, 8);
    }
  }

  /** The printer puts each field in its place. */
  lemma PrintedLayout(h: Header)
    requires Printable(h)
    ensures Layout(PrintHeader(h), h, |PrintHeader(h)|)
  {
    HeaderRoundTrip(h, []);
    assert PrintHeader(h) + [] == PrintHeader(h);
    ParsedLayout(PrintHeader(h));
  }

  /** How long the header is that b begins with, once two bytes are there. */
  function HeaderLength(b: Bytes): nat
    requires |b| >= 2
  {
    var short := (b[1] & 0x7f) as int;
    (if short == 126 then 4 else if short == 127 then 10 else 2) + (if b[1] & 0x80 != 0 then 4 else 0)
  }

  /** A header is found exactly if all of it is there. */
  lemma ParsedWhen(b: Bytes)
    ensures ParseHeader(b).Some? <==> |b| >= 2 && |b| >= HeaderLength(b)
  {
  }

  // ---------------------------------------------------------------- payloads

  /** The payload d behind the mask of its header, if it has one. */
  ghost predicate Unmasked(h: Header, wire: Bytes, d: Bytes) {
    && |d| == |wire|
    && if h.key.Some? then
         |h.key.value| == 4 && forall i | 0 <= i < |d| :: d[i] == wire[i] ^ h.key.value[i % 4]
       else d == wire
  }

  /** The parser starts with a header whose payload is all there. */
  ghost predicate StartsWith(p: State, b: Bytes, h: Header, n: nat) {
    p.pending == None && ParseHeader(b) == Some((h, n)) && n + h.len <= |b| && h.len < U32 && |p.frag| + h.len < U32
  }

  lemma ReadsPayload(p: State, b: Bytes, h: Header, n: nat, accept: Handler, past: seq<Event>)
    requires p.pending == None && ParseHeader(b) == Some((h, n)) && n + h.len <= |b|
    ensures h.key.Some? ==> |h.key.value| == 4
    ensures Process(p, b, accept, past) == Payload(p.(cont := Begin(h, p.cont).1), Begin(h, p.cont).0, b[n..], accept, past)
  {
    hide Payload, Begin;
  }

  lemma Starts(p: State, b: Bytes, h: Header, n: nat, accept: Handler, past: seq<Event>) returns (d: Bytes)
    requires StartsWith(p, b, h, n)
    ensures Unmasked(h, b[n..n + h.len], d)
    ensures var (h1, cont) := Begin(h, p.cont);
      var o := Finish(p.(cont := cont), h1, d, accept, past);
      var rest := b[n + h.len..];
      Process(p, b, accept, past) ==
        if o.closed then Result(o.p, rest, o.events, true) else Prepend(o.events, Process(o.p, rest, accept, past + o.events))
  {
    ReadsPayload(p, b, h, n, accept, past);
    d := MaskWith(b[n..n + h.len], h.key);
    assert b[n..][..h.len] == b[n..n + h.len] && b[n..][h.len..] == b[n + h.len..];
    if h.key.None? {
      assert d == b[n..n + h.len];
    }
    hide ParseHeader, Finish, MaskWith, Process;
  }

  /** A frame that is not the last of its message: its unmasked payload joins the fragments. */
  lemma FragmentJoins(p: State, b: Bytes, h: Header, n: nat, accept: Handler, past: seq<Event>) returns (d: Bytes)
    requires StartsWith(p, b, h, n) && !h.fin
    ensures Unmasked(h, b[n..n + h.len], d)
    ensures Process(p, b, accept, past) ==
      Process(State(None, if 1 <= h.opcode <= 7 && p.cont == 0 then h.opcode else p.cont, p.frag + d, p.closeSent),
              b[n + h.len..], accept, past)
  {
    d := Starts(p, b, h, n, accept, past);
    assert past + [] == past;
    PrependNothing(Process(State(None, Begin(h, p.cont).1, p.frag + d, p.closeSent), b[n + h.len..], accept, past));
  }

  /** What the last frame of a message counts as: a continuation takes the opcode of its message. */
  function Acts(h: Header, cont: nat): nat {
    if h.opcode == 0 && 1 <= cont <= 7 then cont else h.opcode
  }

  /** The parser has told e, and goes on behind the frame unless the application does not want to. */
  ghost predicate Tells(p: State, rest: Bytes, e: Event, accept: Handler, past: seq<Event>, r: Result)
    requires p.pending == None
  {
    if accept(past + [e]) then r == Prepend([e], Process(p, rest, accept, past + [e]))
    else r.closed && r.rest == rest && r.events == [e] + if p.closeSent then [] else [Close(1001)]
  }

  ghost predicate ClosesWith(p: State, rest: Bytes, code: nat, r: Result) {
    r.closed && r.rest == rest && r.p.closeSent && r.events == if p.closeSent then [] else [Close(code)]
  }

  /** What the parser makes of the last frame of a message: its fragments and the unmasked payload are text
      or binary data for the application, a ping to be answered, a close, or something it does not know. */
  ghost predicate LastFrame(p: State, h: Header, d: Bytes, rest: Bytes, accept: Handler, past: seq<Event>, r: Result) {
    var op, data := Acts(h, p.cont), p.frag + d;
    var q := State(None, if h.opcode == 0 && 1 <= p.cont <= 7 then 0 else p.cont, [], p.closeSent);
    HandledBy(q, op, data, rest, accept, past, r)
  }

  /** Whole messages by their opcodes. */
  ghost predicate HandledBy(q: State, op: nat, data: Bytes, rest: Bytes, accept: Handler, past: seq<Event>, r: Result)
    requires q.pending == None
  {
    if op == 1 then Tells(q, rest, Text(data), accept, past, r)
    else if op == 2 then Tells(q, rest, Binary(data), accept, past, r)
    else if op == 8 && |data| == 2 then ClosesWith(q, rest, 1000, r)
    else if op == 8 || op == 10 then r == Process(q, rest, accept, past)
    else if op == 9 then r == Prepend([Pong(data)], Process(q, rest, accept, past + [Pong(data)]))
    else ClosesWith(q, rest, 1002, r)
  }

  lemma HandledAs(q: State, op: nat, data: Bytes, rest: Bytes, accept: Handler, past: seq<Event>)
    requires q.pending == None
    ensures var o := Handle(q, op, data, accept, past);
      Sane(o.p) &&
      HandledBy(q.(frag := []), op, data, rest, accept, past,
        if o.closed then Result(o.p, rest, o.events, true) else Prepend(o.events, Process(o.p, rest, accept, past + o.events)))
  {
    hide Process;
    assert past + [] == past;
    PrependNothing(Process(q.(frag := []), rest, accept, past));
  }

  lemma LastFrameActs(p: State, b: Bytes, h: Header, n: nat, accept: Handler, past: seq<Event>) returns (d: Bytes)
    requires StartsWith(p, b, h, n) && h.fin
    ensures Unmasked(h, b[n..n + h.len], d)
    ensures LastFrame(p, h, d, b[n + h.len..], accept, past, Process(p, b, accept, past))
  {
    d := Starts(p, b, h, n, accept, past);
    var rest, data := b[n + h.len..], p.frag + d;
    var q := State(None, if h.opcode == 0 && 1 <= p.cont <= 7 then 0 else p.cont, [], p.closeSent);
    assert Collected(p.frag, d) == data;
    HandledAs(State(None, q.cont, p.frag, p.closeSent), Acts(h, p.cont), data, rest, accept, past);
    hide Process, Collected, Unmasked, Handle, ParseHeader, HandledBy;
  }

  /** A frame that is not all there stays where it is, except that a complete header is kept. */
  lemma IncompleteWaits(p: State, b: Bytes, accept: Handler, past: seq<Event>)
    requires p.pending == None
    ensures ParseHeader(b).None? ==> Process(p, b, accept, past) == Result(p, b, [], false)
    ensures ParseHeader(b).Some? ==>
      var (h, n) := ParseHeader(b).value;
      |b| < n + h.len ==>
        var r := Process(p, b, accept, past);
        && r.rest == b[n..] && r.events == [] && !r.closed && r.p.frag == p.frag && r.p.closeSent == p.closeSent
        && r.p.pending.Some? && r.p.pending.value.len == h.len && r.p.pending.value.key == h.key
  {
  }

  // ---------------------------------------------------------------- answers

  /** A ping is answered with a pong that carries the same payload. */
  lemma PongBytes(data: Bytes)
    requires |data| < U32
    ensures var b := WireOfEvent(Pong(data));
      |b| >= |data| && ParseHeader(b) == Some((Header(true, 0, 10, None, |data|), |b| - |data|)) && b[|b| - |data|..] == data
  {
    HeaderRoundTrip(Header(true, 0, 10, None, |data|), data);
    assert MaskWith(data, None) == data;
    hide ParseHeader, PrintHeader, MaskWith;
  }

  lemma HighAndLow(code: nat)
    requires code < 0x1_0000
    ensures Nat(Low(code / 0x100)) * 0x100 + Nat(Low(code)) == code
  {
    hide Low, Nat;
    LowIs(code / 0x100);
    LowIs(code);
    var high, low := Nat(Low(code / 0x100)), Nat(Low(code));
    assert high == code / 0x100 && low == code % 0x100;
  }

  /** A close carries its code, the high byte first. */
  lemma CloseBytes(code: nat)
    requires code < 0x1_0000
    ensures var b := WireOfEvent(Close(code));
      |b| == 4 && ParseHeader(b) == Some((Header(true, 0, 8, None, 2), 2)) && Nat(b[2]) * 0x100 + Nat(b[3]) == code
  {
    var h, c := Header(true, 0, 8, None, 2), [Low(code / 0x100), Low(code)];
    HeaderRoundTrip(h, c);
    HighAndLow(code);
    assert |PrintHeader(h)| == 2;
    hide ParseHeader, PrintHeader, Low, Nat, MaskWith;
    Plainly(c);
    assert WireOfEvent(Close(code)) == PrintHeader(h) + c;
  }

  lemma Plainly(c: Bytes)
    ensures MaskWith(c, None) == c
  {
  }
}
