/** The growing byte buffer: a queue of bytes in an array that is compacted or replaced when it runs
    out of room, and what that costs. */
module IoBuffer {

  import opened Bytes

  function Max(a: nat, b: nat): nat {
    if a > b then a else b
  }

  /** Growth by less than a third is stretched to a third. */
  predicate Stretched(size: nat, published: nat, expected: nat)
  {
    published + expected - size < size / 3
  }

  /** The room to be added, before it is cut down to 32 bits. */
  function Wanted(size: nat, published: nat, expected: nat): int {
    if Stretched(size, published, expected) then size + size / 3 - published else expected
  }

  /** The capacity after growth. */
  function Grown(size: nat, published: nat, expected: nat, minChunk: nat): int {
    published + Max(Wanted(size, published, expected) % U32, minChunk)
  }

  /** Cutting the wanted room down to 32 bits loses something. */
  predicate Truncates(size: nat, published: nat, expected: nat) {
    published + expected > size && Wanted(size, published, expected) >= U32
  }

  /** What stretching adds to a request. */
  function Stretch(size: nat, published: nat, expected: nat): nat
    requires Stretched(size, published, expected)
  {
    size / 3 - (published + expected - size)
  }

  /** Adding two numbers in 32 bits leaves no less than the first exactly if there is no carry. */
  lemma Carry(a: nat, b: nat)
    requires a < U32
    ensures a <= (a + b) % U32 <==> a + b % U32 < U32
  {
    var q := b / U32;
    assert b == q * U32 + b % U32;
    if a + b % U32 < U32 {
      assert a + b == q * U32 + (a + b % U32);
    } else {
      assert a + b == (q + 1) * U32 + (a + b % U32 - U32);
    }
  }

  /** Growth leaves the requested room exactly if the request is not stretched, or stretching it carries
      nothing out of the low 32 bits, or the smallest chunk is enough anyway. */
  lemma GrowthLeavesRoom(size: nat, published: nat, expected: nat, minChunk: nat)
    requires published <= size < published + expected && expected < U32
    ensures published + expected <= Grown(size, published, expected, minChunk) <==>
      || !Stretched(size, published, expected)
      || expected + Stretch(size, published, expected) % U32 < U32
      || expected <= minChunk
  {
    if Stretched(size, published, expected) {
      Carry(expected, Stretch(size, published, expected));
    }
  }

  /** Up to 12 GiB this is to say that the room wanted fits in 32 bits, or the smallest chunk is enough. */
  lemma GrowthBelow12GiB(size: nat, published: nat, expected: nat, minChunk: nat)
    requires published <= size < published + expected && expected < U32 && size / 3 <= U32
    ensures published + expected <= Grown(size, published, expected, minChunk) <==>
      !Truncates(size, published, expected) || expected <= minChunk
  {
    GrowthLeavesRoom(size, published, expected, minChunk);
  }

  /** No buffer below 3 GiB is cut short. */
  lemma SmallBuffersGrow(size: nat, published: nat, expected: nat)
    requires published <= size < 0xC000_0000 && expected < U32
    ensures !Truncates(size, published, expected)
  {
  }

  /** At 3 GiB, a request for one byte more than the buffer holds leaves almost no room at all. */
  lemma TruncationExample()
    ensures Grown(0xC000_0000, 0, 0xC000_0001, 4096) == 4096
  {
  }

  /** Every growth adds at least a third, less the remainder of the division. */
  lemma GrowthIsGeometric(size: nat, published: nat, expected: nat, minChunk: nat)
    requires published <= size < published + expected && expected < U32 && !Truncates(size, published, expected)
    ensures size <= 3 * (Grown(size, published, expected, minChunk) - size) + 2
    ensures published + expected <= Grown(size, published, expected, minChunk)
  {
  }

  class IOBuffer {
    var buffer: array<Byte>
    var published: nat
    var consumed: nat
    const minChunkSize: nat
    // what the operations have cost, over the life of the buffer
    ghost var moved: nat
    ghost var copied: nat
    ghost var growths: nat
    ghost var totalConsumed: nat

    ghost predicate Valid()
      reads this
    {
      consumed <= published <= buffer.Length && minChunkSize < 0x100_0000
    }

    /** The queued bytes. */
    ghost function Contents(): Bytes
      reads this, buffer
      requires Valid()
    {
      buffer[consumed..published]
    }

    /** Bytes moved to the front are paid for by bytes consumed, and bytes copied on growth by the size. */
    ghost predicate Costs()
      reads this
    {
      moved + consumed <= totalConsumed && copied <= 3 * buffer.Length + 2 * growths
    }

    function Available(): nat
      requires Valid()
      reads this
    {
      published - consumed
    }

    constructor ()
      ensures Valid() && Contents() == [] && Costs() && fresh(buffer) && buffer.Length == 0 && minChunkSize == 4096
    {
      buffer := new Byte[0](_ => 0);
      published, consumed, minChunkSize := 0, 0, 4096;
      moved, copied, growths, totalConsumed := 0, 0, 0, 0;
    }

    /** Moves the data to the front if source and destination do not overlap. */
    method MoveData()
      requires Valid()
      modifies `published, `consumed, `moved, buffer
      ensures Valid() && Contents() == old(Contents())
      ensures published <= old(published) && (old(Costs()) ==> Costs())
      ensures consumed == (if old(published - consumed <= consumed) then 0 else old(consumed))
      ensures published - consumed == old(published - consumed)
    {
      var n := published - consumed;
      if n <= consumed {
        Copy(buffer, 0, consumed, n);
        moved := moved + n;
        published := n;
        consumed := 0;
      }
    }

    /** memcpy within an array, which must not overlap. */
    static method Copy(a: array<Byte>, to: nat, from: nat, n: nat)
      requires to + n <= from && from + n <= a.Length
      modifies a
      ensures a[to..to + n] == old(a[from..from + n])
      ensures a[..to] == old(a[..to]) && a[to + n..] == old(a[to + n..])
    {
      for i := 0 to n
        invariant a[to..to + i] == old(a[from..from + i])
        invariant a[..to] == old(a[..to]) && a[to + i..] == old(a[to + i..])
      {
        assert a[from + i] == a[to + i..][from - to] == old(a[to + i..])[from - to] == old(a[from + i]);
        a[to + i] := a[from + i];
        assert a[to + i + 1..] == a[to + i..][1..];
        assert old(a[to + i + 1..]) == old(a[to + i..])[1..];
      }
    }

    /** Where the data end once MoveData had its chance. */
    function Compacted(): nat
      requires Valid()
      reads this
    {
      if published - consumed <= consumed then published - consumed else published
    }

    /** The capacity if the request makes the buffer grow. */
    function Capacity(expected: nat): int
      requires Valid()
      reads this
    {
      if Compacted() + expected <= buffer.Length then 0
      else Grown(buffer.Length, Compacted(), expected, minChunkSize)
    }

    /** The room behind the data after a call to EnsureSize. */
    function RoomAfter(expected: nat): int
      requires Valid()
      reads this
    {
      if published + expected <= buffer.Length then buffer.Length - published
      else if Compacted() + expected <= buffer.Length then buffer.Length - Compacted()
      else Grown(buffer.Length, Compacted(), expected, minChunkSize) - Compacted()
    }

    /** EnsureSize will leave the requested room. */
    predicate WillFit(expected: nat)
      requires Valid()
      reads this
    {
      expected <= RoomAfter(expected)
    }

    /** Finds room for expected more bytes: by moving the data, or by allocating a bigger array. */
    method EnsureSize(expected: nat)
      requires Valid() && expected < U32
      modifies this, buffer
      ensures Valid() && Contents() == old(Contents())
      ensures buffer == old(buffer) || fresh(buffer)
      ensures buffer.Length - published == old(RoomAfter(expected))
      ensures buffer.Length <= Max(old(buffer.Length), old(Capacity(expected)))
      ensures old(Costs()) && !Truncates(old(buffer.Length), old(Compacted()), expected) ==> Costs()
    {
      if published + expected <= buffer.Length {
        return;
      }
      MoveData();
      if published + expected <= buffer.Length {
        return;
      }
      Grow(expected);
    }

    method Grow(expected: nat)
      requires Valid() && expected < U32 && published + expected > buffer.Length
      modifies this
      ensures Valid() && Contents() == old(Contents()) && fresh(buffer)
      ensures buffer.Length == Grown(old(buffer.Length), published, expected, minChunkSize)
      ensures published == old(published) && consumed == old(consumed)
      ensures old(Costs()) && !Truncates(old(buffer.Length), old(published), expected) ==> Costs()
    {
      var size := buffer.Length;
      var more := NewRoom(expected);
      var temp := new Byte[published + more](_ => 0);
      forall i | 0 <= i < published {
        temp[i] := buffer[i];
      }
      copied := copied + published;
      growths := growths + 1;
      if !Truncates(size, published, expected) {
        GrowthIsGeometric(size, published, expected, minChunkSize);
      }
      ghost var contents := buffer[consumed..published];
      assert temp[consumed..published] == contents;
      buffer := temp;
      assert buffer[consumed..published] == contents;
    }

    /** How much room to add: in 32 bits, at least a third of the size and a chunk. */
    method NewRoom(expected: nat) returns (more: nat)
      requires Valid() && expected < U32 && published + expected > buffer.Length
      ensures published + more == Grown(buffer.Length, published, expected, minChunkSize)
    {
      var size := buffer.Length;
      more := expected;
      if published + expected - size < size / 3 {
        more := (size + size / 3 - published) % U32;
      }
      if more < minChunkSize {
        more := minChunkSize;
      }
    }

    /** Appends bytes. Where growth left too little room the copy runs past the end of the array; the
        model stops there. */
    method ReadFromBuffer(data: Bytes) returns (ok: bool, overrun: bool)
      requires Valid() && |data| < U32
      modifies this, buffer
      ensures ok && Valid() && overrun == !old(WillFit(|data|))
      ensures !overrun ==> Contents() == old(Contents()) + data
      ensures buffer == old(buffer) || fresh(buffer)
      ensures buffer.Length <= Max(old(buffer.Length), old(Capacity(|data|)))
      ensures old(Costs()) && !Truncates(old(buffer.Length), old(Compacted()), |data|) ==> Costs()
    {
      ok := true;
      EnsureSize(|data|);
      overrun := published + |data| > buffer.Length;
      if !overrun {
        Append(data);
      }
    }

    method Append(data: Bytes)
      requires Valid() && published + |data| <= buffer.Length
      modifies `published, buffer
      ensures Valid() && Contents() == old(Contents()) + data && published == old(published) + |data|
    {
      forall i | 0 <= i < |data| {
        buffer[published + i] := data[i];
      }
      published := published + |data|;
    }

    /** Appends what a socket has to give: received, at most expected bytes, or an error. */
    method ReadFromTCPFd(expected: nat, received: Bytes, error: bool) returns (ok: bool, amount: int, overrun: bool)
      requires Valid() && expected < U32 && |received| <= expected
      modifies this, buffer
      ensures Valid() && ok == (!error && received != []) && amount == (if error then -1 else |received|)
      ensures overrun <==> ok && |received| > old(RoomAfter(expected))
      ensures !overrun ==> Contents() == old(Contents()) + if ok then received else []
      ensures buffer == old(buffer) || fresh(buffer)
      ensures old(Costs()) && !Truncates(old(buffer.Length), old(Compacted()), expected) ==> Costs()
    {
      if published + expected > buffer.Length {
        EnsureSize(expected);
      }
      amount := if error then -1 else |received|;
      ok := amount > 0;
      overrun := ok && published + amount > buffer.Length;
      if ok && !overrun {
        Append(received);
      }
    }

    /** An empty buffer starts over at the front. */
    method Recycle()
      requires Valid()
      modifies `published, `consumed
      ensures Valid() && Contents() == old(Contents()) && (old(Costs()) ==> Costs())
      ensures Contents() == [] ==> published == 0 == consumed
    {
      if consumed != published {
        return;
      }
      consumed := 0;
      published := 0;
    }

    /** Drops bytes from the front. */
    method Ignore(size: nat)
      requires Valid() && size <= Available()
      modifies `published, `consumed, `totalConsumed
      ensures Valid() && Contents() == old(Contents())[size..] && (old(Costs()) ==> Costs())
    {
      consumed := consumed + size;
      totalConsumed := totalConsumed + size;
      Recycle();
    }

    method IgnoreAll()
      requires Valid()
      modifies `published, `consumed, `totalConsumed
      ensures Valid() && Contents() == [] && (old(Costs()) ==> Costs())
    {
      totalConsumed := totalConsumed + (published - consumed);
      consumed := published;
      Recycle();
    }

    /** Sends from the front what the kernel takes: sent bytes, or -1, where again says that it only
        has to be tried later. */
    method WriteToTCPFd(size: nat, sent: int, again: bool) returns (ok: bool, wrote: Bytes)
      requires Valid() && -1 <= sent <= size && sent <= Available()
      modifies `published, `consumed, `totalConsumed
      ensures Valid() && ok == (sent >= 0 || again)
      ensures old(Contents()) == wrote + Contents() && |wrote| == (if sent >= 0 then sent else 0)
      ensures old(Costs()) ==> Costs()
    {
      ok, wrote := true, [];
      if sent < 0 {
        ok := again;
      } else {
        wrote := buffer[consumed..consumed + sent];
        consumed := consumed + sent;
        totalConsumed := totalConsumed + sent;
      }
      if ok {
        Recycle();
      }
    }
  }
}
