/** The WebSocket framing of section 5.2 of RFC 6455: a parser that can stop anywhere in the stream and
    resume, and the printer it has to understand. */
module WebSocket {

  import opened Bytes
  import opened Lists

  const TEXT := 0x1
  const BINARY := 0x2
  const CLOSE := 0x8
  const PING := 0x9
  const PONG := 0xa

  const NORMAL_CLOSE := 1000
  const GOING_AWAY := 1001
  const PROTOCOL_ERROR := 1002

  // ---------------------------------------------------------------- headers

  /** What a frame header says. The parser stores the reserved bits but never looks at them. */
  datatype Header = Header(fin: bool, rsv: nat, opcode: nat, key: Option<seq<Byte>>, len: nat)

  function Nat(b: Byte): nat {
    b as int
  }

  /** A big-endian number. */
  function Number(b: Bytes): nat {
    if b == [] then 0 else 256 * Number(b[..|b| - 1]) + Nat(b[|b| - 1])
  }

  function Low(n: nat): Byte {
    (n % 256) as bv8
  }

  /** The k bytes of a big-endian number. */
  function Digits(n: nat, k: nat): (b: Bytes)
    ensures |b| == k
  {
    if k == 0 then [] else Digits(n / 256, k - 1) + [Low(n)]
  }

  /** The header at the start of b and its length, if b holds all of it. */
  function ParseHeader(b: Bytes): Option<(Header, nat)> {
    if |b| < 2 then None
    else
      var short := Nat(b[1] & 0x7f);
      var pos := if short == 0x7e then 4 else if short == 0x7f then 10 else 2;
      if |b| < pos then None
      else
        var len := if pos == 2 then short else Number(b[2..pos]);
        var masked := b[1] & 0x80 != 0;
        if masked && |b| - pos < 4 then None
        else
          var h := Header(b[0] & 0x80 != 0, Nat((b[0] >> 4) & 0x7), Nat(b[0] & 0xf),
                          if masked then Some(b[pos..pos + 4]) else None, len);
          Some((h, if masked then pos + 4 else pos))
  }

  function Bit(c: bool, b: Byte): Byte {
    if c then b else 0
  }

  /** The length, in the form that it calls for. */
  function SizeField(masked: bool, len: nat): (b: Bytes)
    ensures |b| == if len <= 0x7d then 1 else if len <= 0xffff then 3 else 9
  {
    var m := Bit(masked, 0x80);
    if len <= 0x7d then [m | Low(len)]
    else if len <= 0xffff then [m | 0x7e] + Digits(len, 2)
    else [m | 0x7f] + Digits(len, 8)
  }

  function FirstField(h: Header): Byte {
    Bit(h.fin, 0x80) | (Low(h.rsv) << 4) | Low(h.opcode)
  }

  function PrintHeader(h: Header): Bytes {
    [FirstField(h)] + SizeField(h.key.Some?, h.len)
    + if h.key.Some? then h.key.value else []
  }

  // ---------------------------------------------------------------- header round trip

  lemma NextByte(b: Byte)
    requires b != 0xff
    ensures Nat(b + 1) == Nat(b) + 1
  {
  }

  lemma NumberOfByte(b: Byte)
    ensures Nat(b) as bv8 == b
  {
  }

  lemma {:induction false} ByteFor(n: nat) returns (b: Byte)
    requires n < 256
    ensures Nat(b) == n
  {
    if n == 0 {
      b := 0;
    } else {
      var c := ByteFor(n - 1);
      assert c != 0xff;
      NextByte(c);
      b := c + 1;
    }
  }

  lemma Back(n: nat)
    requires n < 256
    ensures Nat(n as bv8) == n
  {
    var b := ByteFor(n);
    NumberOfByte(b);
  }

  lemma LowIs(n: nat)
    ensures Nat(Low(n)) == n % 256
  {
    Back(n % 256);
  }

  function Power(k: nat): (r: nat)
    ensures r > 0
  {
    if k == 0 then 1 else 256 * Power(k - 1)
  }

  lemma {:induction false} DigitsRoundTrip(n: nat, k: nat)
    requires n < Power(k)
    ensures Number(Digits(n, k)) == n
  {
    hide Low, Nat;
    if k > 0 {
      var d := Digits(n / 256, k - 1);
      var b := Digits(n, k);
      assert b[..|b| - 1] == d && b[|b| - 1] == Low(n);
      LowIs(n);
      DigitsRoundTrip(n / 256, k - 1);
      assert Number(b) == 256 * Number(d) + Nat(Low(n));
    }
  }

  lemma Powers()
    ensures Power(2) == 0x1_0000 && Power(8) == 0x1_0000_0000_0000_0000
  {
    assert Power(4) == 256 * 256 * Power(2);
    assert Power(6) == 256 * 256 * Power(4);
    assert Power(8) == 256 * 256 * Power(6);
  }

  lemma FirstByte(fin: bool, rsv: Byte, op: Byte)
    requires rsv < 8 && op < 16
    ensures var f := Bit(fin, 0x80) | (rsv << 4) | op;
      (f & 0x80 != 0) == fin && (f >> 4) & 0x7 == rsv && f & 0xf == op
  {
  }

  lemma SecondByte(masked: bool, l: Byte)
    requires l < 0x80
    ensures var f := Bit(masked, 0x80) | l; (f & 0x80 != 0) == masked && f & 0x7f == l
  {
  }

  lemma LowSmall(n: nat, b: nat)
    requires n < b <= 0x80
    ensures Nat(Low(n)) == n && Low(n) as int < b && Low(n) < 0x80
  {
    Back(n);
  }

  ghost predicate Printable(h: Header) {
    h.rsv < 8 && h.opcode < 16 && h.len < 0x1_0000_0000 && (h.key.Some? ==> |h.key.value| == 4)
  }

  /** The parser finds the length that was printed. */
  lemma SizeRoundTrip(masked: bool, len: nat, first: Byte, rest: Bytes)
    requires len < 0x1_0000_0000
    ensures var b := [first] + SizeField(masked, len) + rest;
      var short := Nat(b[1] & 0x7f);
      var pos := if short == 0x7e then 4 else if short == 0x7f then 10 else 2;
      && (b[1] & 0x80 != 0) == masked && pos == 1 + |SizeField(masked, len)|
      && len == if pos == 2 then short else Number(b[2..pos])
  {
    var f := SizeField(masked, len);
    var b := [first] + f + rest;
    Powers();
    var m := Bit(masked, 0x80);
    if len <= 0x7d {
      LowSmall(len, 0x7e);
      SecondByte(masked, Low(len));
    } else if len <= 0xffff {
      SecondByte(masked, 0x7e);
      DigitsRoundTrip(len, 2);
      Behind(first, m | 0x7e, Digits(len, 2), rest);
    } else {
      SecondByte(masked, 0x7f);
      DigitsRoundTrip(len, 8);
      Behind(first, m | 0x7f, Digits(len, 8), rest);
    }
  }

  lemma Behind(first: Byte, second: Byte, d: Bytes, rest: Bytes)
    ensures var b := [first] + ([second] + d) + rest;
      b[1] == second && b[2..2 + |d|] == d
  {
    var b := [first] + ([second] + d) + rest;
    forall i | 0 <= i < |d|
      ensures b[2..2 + |d|][i] == d[i]
    {
      assert b[2 + i] == ([first] + ([second] + d))[2 + i] == ([second] + d)[1 + i];
    }
  }

  /** The parser reads back the header that was printed, whatever follows it. */
  lemma HeaderRoundTrip(h: Header, rest: Bytes)
    requires Printable(h)
    ensures ParseHeader(PrintHeader(h) + rest) == Some((h, |PrintHeader(h)|))
  {
    var f := SizeField(h.key.Some?, h.len);
    var k := if h.key.Some? then h.key.value else [];
    FirstRoundTrip(h);
    SizeRoundTrip(h.key.Some?, h.len, FirstField(h), k + rest);
    Assembled(h, FirstField(h), f, k, rest);
  }

  /** A header put together from a first byte, a size field and a key. */
  lemma Assembled(h: Header, first: Byte, f: Bytes, k: Bytes, rest: Bytes)
    requires (first & 0x80 != 0) == h.fin && Nat((first >> 4) & 0x7) == h.rsv && Nat(first & 0xf) == h.opcode
    requires k == (if h.key.Some? then h.key.value else []) && (h.key.Some? ==> |k| == 4) && |f| >= 1
    requires var b := [first] + f + (k + rest);
      var short := Nat(b[1] & 0x7f);
      var pos := if short == 0x7e then 4 else if short == 0x7f then 10 else 2;
      && (b[1] & 0x80 != 0) == h.key.Some? && pos == 1 + |f|
      && h.len == if pos == 2 then short else Number(b[2..pos])
    ensures ParseHeader([first] + f + k + rest) == Some((h, |[first] + f + k|))
  {
    var b := [first] + f + (k + rest);
    assert [first] + f + k + rest == b;
    assert h.key.Some? ==> b[1 + |f|..1 + |f| + 4] == k;
    ParsesTo(b, h, 1 + |f|);
  }

  lemma ParsesTo(b: Bytes, h: Header, pos: nat)
    requires 2 <= pos <= |b| && (h.key.Some? ==> |b| - pos >= 4 && h.key.value == b[pos..pos + 4])
    requires (b[0] & 0x80 != 0) == h.fin && Nat((b[0] >> 4) & 0x7) == h.rsv && Nat(b[0] & 0xf) == h.opcode
    requires var short := Nat(b[1] & 0x7f);
      && pos == (if short == 0x7e then 4 else if short == 0x7f then 10 else 2)
      && h.len == if pos == 2 then short else Number(b[2..pos])
    requires (b[1] & 0x80 != 0) == h.key.Some?
    ensures ParseHeader(b) == Some((h, if h.key.Some? then pos + 4 else pos))
  {
  }

  lemma FirstRoundTrip(h: Header)
    requires Printable(h)
    ensures var f := FirstField(h); (f & 0x80 != 0) == h.fin && Nat((f >> 4) & 0x7) == h.rsv && Nat(f & 0xf) == h.opcode
  {
    LowSmall(h.rsv, 8);
    LowSmall(h.opcode, 16);
    FirstByte(h.fin, Low(h.rsv), Low(h.opcode));
  }

  /** No header that announces the same length, masked or not, is shorter than the printed one. */
  lemma ShortestForm(h: Header, b: Bytes)
    requires Printable(h) && ParseHeader(b).Some?
    requires ParseHeader(b).value.0.len == h.len && ParseHeader(b).value.0.key.Some? == h.key.Some?
    ensures |PrintHeader(h)| <= ParseHeader(b).value.1
  {
    Powers();
    if h.len > 0xffff {
      NumberBound(b[2..4]);
    }
  }

  lemma {:induction false} NumberBound(b: Bytes)
    ensures Number(b) < Power(|b|)
  {
    if b != [] {
      NumberBound(b[..|b| - 1]);
    }
  }

  // ---------------------------------------------------------------- frames

  /** What the parser gives out: messages to the application, pongs and closes to the peer. */
  datatype Event = Text(data: Bytes) | Binary(data: Bytes) | Pong(data: Bytes) | Close(code: nat)

  /** Whether the application wants to go on after the messages so far. */
  type Handler = seq<Event> -> bool

  /** The state between calls: a header whose payload is incomplete, the opcode of the message that is
      being continued, its fragments, and whether a close was sent. */
  datatype State = State(pending: Option<Header>, cont: nat, frag: Bytes, closeSent: bool)

  const OPEN := State(None, 0, [], false)

  predicate Sane(p: State) {
    p.pending.Some? ==> p.pending.value.len > 0 && (p.pending.value.key.Some? ==> |p.pending.value.key.value| == 4)
  }

  function Mask(data: Bytes, key: seq<Byte>): (r: Bytes)
    requires |key| == 4
    ensures |r| == |data| && forall i | 0 <= i < |data| :: r[i] == data[i] ^ key[i % 4]
  {
    seq(|data|, i requires 0 <= i < |data| => data[i] ^ key[i % 4])
  }

  function MaskWith(data: Bytes, key: Option<seq<Byte>>): (r: Bytes)
    requires key.Some? ==> |key.value| == 4
    ensures |r| == |data|
    ensures forall i | 0 <= i < |data| :: r[i] == if key.Some? then data[i] ^ key.value[i % 4] else data[i]
  {
    if key.Some? then Mask(data, key.value) else data
  }

  lemma MaskTwice(data: Bytes, key: Option<seq<Byte>>)
    requires key.Some? ==> |key.value| == 4
    ensures MaskWith(MaskWith(data, key), key) == data
  {
    if key.Some? {
      var k := key.value;
      forall i | 0 <= i < |data|
        ensures Mask(Mask(data, k), k)[i] == data[i]
      {
        XorTwice(data[i], k[i % 4]);
      }
    }
  }

  lemma XorTwice(a: Byte, k: Byte)
    ensures (a ^ k) ^ k == a
  {
  }

  /** The effect of a header on the opcode that is being continued: the first fragment sets it, and the
      last takes it over. */
  function Begin(h: Header, cont: nat): (r: (Header, nat))
    ensures r.0.len == h.len && r.0.key == h.key
  {
    if !h.fin && 1 <= h.opcode <= 7 && cont == 0 then (h, h.opcode)
    else if h.fin && h.opcode == 0 && 1 <= cont <= 7 then (h.(opcode := cont), 0)
    else (h, cont)
  }

  datatype Outcome = Outcome(p: State, events: seq<Event>, closed: bool)

  function Closing(p: State, before: seq<Event>, code: nat): Outcome {
    Outcome(p.(closeSent := true), before + if p.closeSent then [] else [Close(code)], true)
  }

  /** What a 32-bit length leaves of a byte sequence. */
  function Cut(b: Bytes): (r: Bytes)
    ensures |b| < U32 ==> r == b
  {
    b[..|b| % U32]
  }

  /** What the last payload completes: nothing is put in front of it if the fragments seem to be none. */
  function Collected(frag: Bytes, payload: Bytes): (r: Bytes)
    ensures |r| < U32
    ensures |payload| < U32 && |frag + payload| < U32 ==> r == frag + payload
  {
    if |frag| % U32 == 0 then Cut(payload) else Cut(frag + Cut(payload))
  }

  /** The effect of a whole message; past holds the events before it. */
  function Handle(p: State, opcode: nat, data: Bytes, accept: Handler, past: seq<Event>): Outcome {
    var clear := Outcome(p.(frag := []), [], false);
    if opcode == TEXT then
      if accept(past + [Text(data)]) then clear.(events := [Text(data)])
      else Closing(p.(frag := data), [Text(data)], GOING_AWAY)
    else if opcode == BINARY then
      if accept(past + [Binary(data)]) then clear.(events := [Binary(data)])
      else Closing(p.(frag := data), [Binary(data)], GOING_AWAY)
    else if opcode == CLOSE then
      if |data| == 2 then Closing(p.(frag := data), [], NORMAL_CLOSE) else clear
    else if opcode == PING then clear.(events := [Pong(data)])
    else if opcode == PONG then clear
    else Closing(p.(frag := data), [], PROTOCOL_ERROR)
  }

  /** The effect of a complete frame. */
  function Finish(p: State, h: Header, payload: Bytes, accept: Handler, past: seq<Event>): Outcome {
    var q := p.(pending := None);
    if !h.fin then Outcome(q.(frag := q.frag + Cut(payload)), [], false)
    else Handle(q, h.opcode, Collected(q.frag, payload), accept, past)
  }

  /** What parsing b from state p gives: the state, the bytes left over, the events, and whether the
      connection is to be closed. */
  datatype Result = Result(p: State, rest: Bytes, events: seq<Event>, closed: bool)

  function Prepend(events: seq<Event>, r: Result): Result {
    r.(events := events + r.events)
  }

  function Process(p: State, b: Bytes, accept: Handler, past: seq<Event>): (r: Result)
    requires Sane(p)
    ensures Sane(r.p) && |r.rest| <= |b|
    decreases |b|, 1
  {
    match p.pending
    case None =>
      (match ParseHeader(b)
       case None => Result(p, b, [], false)
       case Some((h0, n)) =>
         var (h, cont) := Begin(h0, p.cont);
         Payload(p.(cont := cont), h, b[n..], accept, past))
    case Some(h) => Payload(p, h, b, accept, past)
  }

  function Payload(p: State, h: Header, b: Bytes, accept: Handler, past: seq<Event>): (r: Result)
    requires h.key.Some? ==> |h.key.value| == 4
    ensures Sane(r.p) && |r.rest| <= |b|
    decreases |b|, if h.len > 0 then 0 else 2
  {
    if |b| < h.len then Result(p.(pending := Some(h)), b, [], false)
    else
      var o := Finish(p, h, MaskWith(b[..h.len], h.key), accept, past);
      if o.closed then Result(o.p, b[h.len..], o.events, true)
      else Prepend(o.events, Process(o.p, b[h.len..], accept, past + o.events))
  }

  // ---------------------------------------------------------------- chunking

  /** A header that is complete stays the same when more bytes arrive. */
  lemma HeaderIsStable(a: Bytes, b: Bytes)
    requires ParseHeader(a).Some?
    ensures ParseHeader(a + b) == ParseHeader(a) && ParseHeader(a).value.1 <= |a|
  {
    var short := Nat(a[1] & 0x7f);
    var pos := if short == 0x7e then 4 else if short == 0x7f then 10 else 2;
    assert (a + b)[2..pos] == a[2..pos];
    if |a| - pos >= 4 {
      assert (a + b)[pos..pos + 4] == a[pos..pos + 4];
    }
  }

  /** Going on from the result r with the bytes b. */
  function Resume(r: Result, b: Bytes, accept: Handler, past: seq<Event>): Result
    requires Sane(r.p)
  {
    if r.closed then r.(rest := r.rest + b)
    else Prepend(r.events, Process(r.p, r.rest + b, accept, past + r.events))
  }

  lemma ResumePrepend(e: seq<Event>, r: Result, b: Bytes, accept: Handler, past: seq<Event>)
    requires Sane(r.p)
    ensures Resume(Prepend(e, r), b, accept, past) == Prepend(e, Resume(r, b, accept, past + e))
  {
    assert past + (e + r.events) == (past + e) + r.events;
    if !r.closed {
      var w := Process(r.p, r.rest + b, accept, (past + e) + r.events);
      assert (e + r.events) + w.events == e + (r.events + w.events);
    }
  }

  /** Parsing a stream in two pieces, with what was left of the first put in front of the second, is
      parsing it in one. */
  lemma {:induction false} ProcessInTwo(p: State, a: Bytes, b: Bytes, accept: Handler, past: seq<Event>)
    requires Sane(p)
    ensures Process(p, a + b, accept, past) == Resume(Process(p, a, accept, past), b, accept, past)
    decreases |a|, 1
  {
    match p.pending {
      case Some(h) => PayloadInTwo(p, h, a, b, accept, past);
      case None =>
        match ParseHeader(a) {
          case None =>
            StartsOver(p, a, b, accept, past);
          case Some((h0, n)) =>
            HeaderIsStable(a, b);
            assert (a + b)[n..] == a[n..] + b;
            var (h, cont) := Begin(h0, p.cont);
            PayloadInTwo(p.(cont := cont), h, a[n..], b, accept, past);
        }
    }
  }

  lemma StartsOver(p: State, a: Bytes, b: Bytes, accept: Handler, past: seq<Event>)
    requires Sane(p)
    ensures Resume(Result(p, a, [], false), b, accept, past) == Process(p, a + b, accept, past)
  {
    assert past + [] == past;
    var w := Process(p, a + b, accept, past);
    assert [] + w.events == w.events;
  }

  lemma {:induction false} PayloadInTwo(p: State, h: Header, a: Bytes, b: Bytes, accept: Handler, past: seq<Event>)
    requires h.key.Some? ==> |h.key.value| == 4
    requires p.pending == None || p.pending == Some(h)
    ensures Payload(p, h, a + b, accept, past) == Resume(Payload(p, h, a, accept, past), b, accept, past)
    decreases |a|, if h.len > 0 then 0 else 2
  {
    if |a| < h.len {
      var q := p.(pending := Some(h));
      StartsOver(q, a, b, accept, past);
      SamePayload(p, q, h, a + b, accept, past);
    } else {
      assert (a + b)[..h.len] == a[..h.len] && (a + b)[h.len..] == a[h.len..] + b;
      var o := Finish(p, h, MaskWith(a[..h.len], h.key), accept, past);
      if !o.closed {
        ProcessInTwo(o.p, a[h.len..], b, accept, past + o.events);
        ResumePrepend(o.events, Process(o.p, a[h.len..], accept, past + o.events), b, accept, past);
      }
    }
  }

  /** The payload is finished in the same way whether or not its header had to wait. */
  lemma SamePayload(p: State, q: State, h: Header, b: Bytes, accept: Handler, past: seq<Event>)
    requires h.key.Some? ==> |h.key.value| == 4
    requires q == p.(pending := Some(h))
    ensures Payload(p, h, b, accept, past) == Payload(q, h, b, accept, past)
  {
  }

  /** A caller that keeps what was left over and puts the next chunk behind it. */
  function Feed(r: Result, chunks: seq<Bytes>, accept: Handler): Result
    requires Sane(r.p)
    decreases |chunks|
  {
    if chunks == [] || r.closed then r
    else
      var n := Process(r.p, r.rest + chunks[0], accept, r.events);
      Feed(Prepend(r.events, n), chunks[1..], accept)
  }

  function Concat(chunks: seq<Bytes>): Bytes {
    if chunks == [] then [] else chunks[0] + Concat(chunks[1..])
  }

  lemma ConcatUnfolds(a: Bytes, chunks: seq<Bytes>)
    requires chunks != []
    ensures a + chunks[0] + Concat(chunks[1..]) == a + Concat(chunks)
  {
  }

  /** The result of parsing a stream, apart from bytes that follow a close. */
  predicate Agree(r: Result, q: Result) {
    r.p == q.p && r.events == q.events && r.closed == q.closed && (!r.closed ==> r.rest == q.rest)
  }

  /** Parsing is independent of chunking: whatever way a stream is cut into calls, the application gets
      the same messages, the peer the same pongs and close, and the same bytes are left over. */
  lemma ChunkingDoesNotMatter(p: State, chunks: seq<Bytes>, accept: Handler)
    requires Sane(p)
    ensures Agree(Feed(Result(p, [], [], false), chunks, accept), Process(p, Concat(chunks), accept, []))
  {
    FeedProcesses(p, [], chunks, accept);
    assert [] + Concat(chunks) == Concat(chunks);
    assert Process(p, [], accept, []) == Result(p, [], [], false);
  }

  lemma FeedOne(p: State, a: Bytes, chunks: seq<Bytes>, accept: Handler)
    requires Sane(p) && chunks != [] && !Process(p, a, accept, []).closed
    ensures Feed(Process(p, a, accept, []), chunks, accept) == Feed(Process(p, a + chunks[0], accept, []), chunks[1..], accept)
  {
    var r := Process(p, a, accept, []);
    ProcessInTwo(p, a, chunks[0], accept, []);
    assert [] + r.events == r.events;
  }

  lemma {:induction false} FeedProcesses(p: State, a: Bytes, chunks: seq<Bytes>, accept: Handler)
    requires Sane(p)
    ensures Agree(Feed(Process(p, a, accept, []), chunks, accept), Process(p, a + Concat(chunks), accept, []))
    decreases |chunks|
  {
    var r := Process(p, a, accept, []);
    if chunks == [] {
      assert a + Concat(chunks) == a;
    } else if r.closed {
      ProcessInTwo(p, a, Concat(chunks), accept, []);
    } else {
      FeedOne(p, a, chunks, accept);
      FeedProcesses(p, a + chunks[0], chunks[1..], accept);
      ConcatUnfolds(a, chunks);
    }
  }

  // ---------------------------------------------------------------- messages

  /** A piece of a message, sent as one frame, masked or not. */
  datatype Piece = Piece(data: Bytes, key: Option<seq<Byte>>)

  /** A message sent whole, or as a head, fragments and a tail. */
  datatype Message =
    | Whole(binary: bool, piece: Piece)
    | Parts(binary: bool, head: Piece, middle: seq<Piece>, tail: Piece)

  function Opcode(binary: bool): nat {
    if binary then BINARY else TEXT
  }

  function HeaderOf(fin: bool, opcode: nat, piece: Piece): Header {
    Header(fin, 0, opcode, piece.key, |piece.data|)
  }

  function PrintFrame(h: Header, data: Bytes): Bytes
    requires h.key.Some? ==> |h.key.value| == 4
  {
    PrintHeader(h) + MaskWith(data, h.key)
  }

  predicate PieceOk(x: Piece) {
    |x.data| < 0x1_0000_0000 && (x.key.Some? ==> |x.key.value| == 4)
  }

  predicate MessageOk(m: Message) {
    match m
    case Whole(_, x) => PieceOk(x)
    case Parts(_, head, middle, tail) => PieceOk(head) && PieceOk(tail) && forall i | 0 <= i < |middle| :: PieceOk(middle[i])
  }

  function PrintMiddle(middle: seq<Piece>): Bytes
    requires forall i | 0 <= i < |middle| :: PieceOk(middle[i])
  {
    if middle == [] then []
    else
      assert PieceOk(middle[0]);
      PrintFrame(HeaderOf(false, 0, middle[0]), middle[0].data) + PrintMiddle(middle[1..])
  }

  function PrintMessage(m: Message): Bytes
    requires MessageOk(m)
  {
    match m
    case Whole(binary, x) => PrintFrame(HeaderOf(true, Opcode(binary), x), x.data)
    case Parts(binary, head, middle, tail) =>
      PrintFrame(HeaderOf(false, Opcode(binary), head), head.data) + PrintMiddle(middle)
      + PrintFrame(HeaderOf(true, 0, tail), tail.data)
  }

  function PrintAll(ms: seq<Message>): Bytes
    requires forall i | 0 <= i < |ms| :: MessageOk(ms[i])
  {
    if ms == [] then [] else PrintMessage(ms[0]) + PrintAll(ms[1..])
  }

  function Joined(middle: seq<Piece>): Bytes {
    if middle == [] then [] else middle[0].data + Joined(middle[1..])
  }

  function Content(m: Message): Bytes {
    match m
    case Whole(_, x) => x.data
    case Parts(_, head, middle, tail) => head.data + Joined(middle) + tail.data
  }

  function Told(m: Message, data: Bytes): Event {
    if m.binary then Binary(data) else Text(data)
  }

  /** What the receiver of m is to be told. */
  function Received(m: Message): Event {
    Told(m, Content(m))
  }

  function AllReceived(ms: seq<Message>): seq<Event> {
    if ms == [] then [] else [Received(ms[0])] + AllReceived(ms[1..])
  }

  /** What the receiver of m is told. */
  function Delivered(m: Message): Event {
    Told(m, if m.Whole? then m.piece.data else Collected(m.head.data + Joined(m.middle), m.tail.data))
  }

  function AllDelivered(ms: seq<Message>): seq<Event> {
    if ms == [] then [] else [Delivered(ms[0])] + AllDelivered(ms[1..])
  }

  /** A message arrives as it was sent exactly if its length fits in 32 bits. */
  lemma DeliveredWhen(m: Message)
    requires MessageOk(m)
    ensures Delivered(m) == Received(m) <==> |Content(m)| < U32
  {
    if m.Parts? {
      assert Content(m) == (m.head.data + Joined(m.middle)) + m.tail.data;
    }
  }

  lemma {:induction false} AllDeliveredWhen(ms: seq<Message>)
    requires forall i | 0 <= i < |ms| :: MessageOk(ms[i])
    ensures AllDelivered(ms) == AllReceived(ms) <==> forall i | 0 <= i < |ms| :: |Content(ms[i])| < U32
    decreases |ms|
  {
    if ms != [] {
      var d, r := AllDelivered(ms[1..]), AllReceived(ms[1..]);
      DeliveredWhen(ms[0]);
      AllDeliveredWhen(ms[1..]);
      assert ([Delivered(ms[0])] + d)[1..] == d && ([Received(ms[0])] + r)[1..] == r;
      assert forall i | 0 < i < |ms| :: ms[i] == ms[1..][i - 1];
    }
  }

  /** The application goes on after each of the events. */
  predicate Welcome(accept: Handler, past: seq<Event>, events: seq<Event>)
    decreases |events|
  {
    events == [] || (accept(past + [events[0]]) && Welcome(accept, past + [events[0]], events[1..]))
  }

  /** Parsing a printed frame finishes it with its own data and goes on behind it. */
  lemma FrameRoundTrip(p: State, h: Header, data: Bytes, rest: Bytes, accept: Handler, past: seq<Event>)
    requires Printable(h) && h.len == |data| && p.pending == None
    ensures var (h1, cont) := Begin(h, p.cont);
      var o := Finish(p.(cont := cont), h1, data, accept, past);
      Process(p, PrintFrame(h, data) + rest, accept, past) ==
        if o.closed then Result(o.p, rest, o.events, true) else Prepend(o.events, Process(o.p, rest, accept, past + o.events))
  {
    var body := MaskWith(data, h.key);
    var b := PrintFrame(h, data) + rest;
    assert b == PrintHeader(h) + (body + rest);
    HeaderRoundTrip(h, body + rest);
    var n := |PrintHeader(h)|;
    assert b[n..] == body + rest;
    assert (body + rest)[..h.len] == body && (body + rest)[h.len..] == rest;
    MaskTwice(data, h.key);
  }

  lemma {:induction false} MiddleRoundTrip(p: State, middle: seq<Piece>, rest: Bytes, accept: Handler, past: seq<Event>)
    requires p.pending == None && p.cont != 0 && forall i | 0 <= i < |middle| :: PieceOk(middle[i])
    ensures Process(p, PrintMiddle(middle) + rest, accept, past) ==
      Process(p.(frag := p.frag + Joined(middle)), rest, accept, past)
    decreases |middle|
  {
    if middle == [] {
      assert PrintMiddle(middle) + rest == rest && p.frag + [] == p.frag;
    } else {
      MiddleUnfolds(middle, rest);
      JoinedUnfolds(p, middle);
      FragmentRoundTrip(p, middle[0], PrintMiddle(middle[1..]) + rest, accept, past);
      MiddleRoundTrip(p.(frag := p.frag + middle[0].data), middle[1..], rest, accept, past);
    }
  }

  lemma MiddleUnfolds(middle: seq<Piece>, rest: Bytes)
    requires middle != [] && forall i | 0 <= i < |middle| :: PieceOk(middle[i])
    ensures PieceOk(middle[0])
    ensures PrintMiddle(middle) + rest ==
      PrintFrame(HeaderOf(false, 0, middle[0]), middle[0].data) + (PrintMiddle(middle[1..]) + rest)
  {
    assert PieceOk(middle[0]);
  }

  lemma JoinedUnfolds(p: State, middle: seq<Piece>)
    requires middle != []
    ensures p.frag + middle[0].data + Joined(middle[1..]) == p.frag + Joined(middle)
  {
  }

  lemma FragmentRoundTrip(p: State, x: Piece, more: Bytes, accept: Handler, past: seq<Event>)
    requires p.pending == None && p.cont != 0 && PieceOk(x)
    ensures Process(p, PrintFrame(HeaderOf(false, 0, x), x.data) + more, accept, past) ==
      Process(p.(frag := p.frag + x.data), more, accept, past)
  {
    FrameRoundTrip(p, HeaderOf(false, 0, x), x.data, more, accept, past);
    assert past + [] == past;
    PrependNothing(Process(p.(frag := p.frag + x.data), more, accept, past));
  }

  lemma PrependNothing(r: Result)
    ensures Prepend([], r) == r
  {
    assert [] + r.events == r.events;
  }

  /** A parser between messages that reads a printed message delivers it and is between messages again. */
  lemma MessageRoundTrip(p: State, m: Message, rest: Bytes, accept: Handler, past: seq<Event>)
    requires p.pending == None && p.cont == 0 && p.frag == [] && MessageOk(m) && accept(past + [Delivered(m)])
    ensures Process(p, PrintMessage(m) + rest, accept, past) ==
      Prepend([Delivered(m)], Process(p, rest, accept, past + [Delivered(m)]))
  {
    match m
    case Whole(binary, x) =>
      FrameRoundTrip(p, HeaderOf(true, Opcode(binary), x), x.data, rest, accept, past);
      assert [] + x.data == x.data;
    case Parts(binary, head, middle, tail) => PartsRoundTrip(p, m, rest, accept, past);
  }

  lemma PartsRoundTrip(p: State, m: Message, rest: Bytes, accept: Handler, past: seq<Event>)
    requires p.pending == None && p.cont == 0 && p.frag == [] && MessageOk(m) && m.Parts? && accept(past + [Delivered(m)])
    ensures Process(p, PrintMessage(m) + rest, accept, past) ==
      Prepend([Delivered(m)], Process(p, rest, accept, past + [Delivered(m)]))
  {
    var op := Opcode(m.binary);
    var last := PrintFrame(HeaderOf(true, 0, m.tail), m.tail.data) + rest;
    PartsUnfold(m, rest);
    HeadRoundTrip(p, op, m.head, PrintMiddle(m.middle) + last, accept, past);
    MiddleRoundTrip(p.(cont := op, frag := m.head.data), m.middle, last, accept, past);
    TailRoundTrip(p, m, rest, accept, past);
  }

  lemma PartsUnfold(m: Message, rest: Bytes)
    requires MessageOk(m) && m.Parts?
    ensures PrintMessage(m) + rest == PrintFrame(HeaderOf(false, Opcode(m.binary), m.head), m.head.data)
      + (PrintMiddle(m.middle) + (PrintFrame(HeaderOf(true, 0, m.tail), m.tail.data) + rest))
  {
  }

  lemma HeadRoundTrip(p: State, op: nat, head: Piece, more: Bytes, accept: Handler, past: seq<Event>)
    requires p.pending == None && p.cont == 0 && p.frag == [] && PieceOk(head) && 1 <= op <= 7
    ensures Process(p, PrintFrame(HeaderOf(false, op, head), head.data) + more, accept, past) ==
      Process(p.(cont := op, frag := head.data), more, accept, past)
  {
    FrameRoundTrip(p, HeaderOf(false, op, head), head.data, more, accept, past);
    assert [] + head.data == head.data && past + [] == past;
    PrependNothing(Process(p.(cont := op, frag := head.data), more, accept, past));
  }

  lemma TailRoundTrip(p: State, m: Message, rest: Bytes, accept: Handler, past: seq<Event>)
    requires p.pending == None && p.cont == 0 && p.frag == [] && MessageOk(m) && m.Parts? && accept(past + [Delivered(m)])
    ensures Process(p.(cont := Opcode(m.binary), frag := m.head.data + Joined(m.middle)),
                    PrintFrame(HeaderOf(true, 0, m.tail), m.tail.data) + rest, accept, past) ==
      Prepend([Delivered(m)], Process(p, rest, accept, past + [Delivered(m)]))
  {
    var q := p.(cont := Opcode(m.binary), frag := m.head.data + Joined(m.middle));
    FrameRoundTrip(q, HeaderOf(true, 0, m.tail), m.tail.data, rest, accept, past);
  }

  /** Whatever messages are sent, whole or in fragments, masked or not, the parser delivers as many
      messages with their types, and nothing is left over. They are the messages that were sent exactly if
      the length of each fits in 32 bits. */
  lemma {:induction false} MessagesRoundTrip(p: State, ms: seq<Message>, accept: Handler, past: seq<Event>)
    requires p.pending == None && p.cont == 0 && p.frag == [] && forall i | 0 <= i < |ms| :: MessageOk(ms[i])
    requires Welcome(accept, past, AllDelivered(ms))
    ensures Process(p, PrintAll(ms), accept, past) == Result(p, [], AllDelivered(ms), false)
    ensures AllDelivered(ms) == AllReceived(ms) <==> forall i | 0 <= i < |ms| :: |Content(ms[i])| < U32
    decreases |ms|
  {
    AllDeliveredWhen(ms);
    if ms != [] {
      MessageRoundTrip(p, ms[0], PrintAll(ms[1..]), accept, past);
      MessagesRoundTrip(p, ms[1..], accept, past + [Delivered(ms[0])]);
    }
  }

  // ---------------------------------------------------------------- control frames

  /** A ping between messages is answered with its own payload, and nothing else changes. */
  lemma PingIsAnswered(p: State, x: Piece, rest: Bytes, accept: Handler, past: seq<Event>)
    requires p.pending == None && p.frag == [] && PieceOk(x)
    ensures Process(p, PrintFrame(HeaderOf(true, PING, x), x.data) + rest, accept, past) ==
      Prepend([Pong(x.data)], Process(p, rest, accept, past + [Pong(x.data)]))
  {
    FrameRoundTrip(p, HeaderOf(true, PING, x), x.data, rest, accept, past);
    assert [] + x.data == x.data;
  }

  /** A close between messages ends the connection exactly if its payload is two bytes long. A close
      without a status code, or with a reason behind it, has no effect at all. */
  lemma CloseIsSeenWhen(p: State, x: Piece, rest: Bytes, accept: Handler, past: seq<Event>)
    requires p.pending == None && p.frag == [] && PieceOk(x)
    ensures var r := Process(p, PrintFrame(HeaderOf(true, CLOSE, x), x.data) + rest, accept, past);
      if |x.data| == 2 then r.closed && r.events == (if p.closeSent then [] else [Close(NORMAL_CLOSE)])
      else r == Process(p, rest, accept, past)
  {
    FrameRoundTrip(p, HeaderOf(true, CLOSE, x), x.data, rest, accept, past);
    assert [] + x.data == x.data && past + [] == past;
    PrependNothing(Process(p, rest, accept, past));
  }
}
