/** The LRU cache itself: a hash table of singly linked chains whose entries point back at whatever
    points at them, and a list of unused entries. Entries are freed, so they are modelled as
    addresses in an explicit heap: an access to a freed entry would not be well-formed. */
module LruCache {
  import opened Lists
  import opened LruSpec

  /** What points at an entry: nothing, a slot of the table, or the next field of another entry. */
  datatype Loc = Nowhere | Slot(i: nat) | NextOf(e: nat)

  datatype Entry = Entry(key: int, weight: nat, next: nat, pthis: Loc, refCount: nat, deletePending: bool)

  type Heap = map<nat, Entry>

  function First(c: seq<nat>): nat {
    if c == [] then 0 else c[0]
  }

  /** The entries of c form a chain that hangs on at. */
  ghost predicate Linked(h: Heap, c: seq<nat>, at: Loc) {
    c == [] ||
    (c[0] != 0 && c[0] in h && h[c[0]].pthis == at && h[c[0]].next == First(c[1..]) && Linked(h, c[1..], NextOf(c[0])))
  }

  lemma {:induction false} LinkedFrame(h: Heap, h': Heap, c: seq<nat>, at: Loc)
    requires Linked(h, c, at)
    requires forall e | e in c && e in h :: e in h' && h'[e].pthis == h[e].pthis && h'[e].next == h[e].next
    ensures Linked(h', c, at)
  {
    if c != [] {
      LinkedFrame(h, h', c[1..], NextOf(c[0]));
    }
  }

  /** The heap after *pthis = next; next->pthis = pthis; and freeing e. */
  function Unlinked(h: Heap, e: nat): Heap
    requires e in h
  {
    var x := h[e];
    var h1 := if x.pthis.NextOf? && x.pthis.e in h then h[x.pthis.e := h[x.pthis.e].(next := x.next)] else h;
    var h2 := if x.next != 0 && x.next in h1 then h1[x.next := h1[x.next].(pthis := x.pthis)] else h1;
    h2 - {e}
  }

  /** Unlinking an entry makes the chain what it was without the entry. */
  lemma {:induction false} UnlinkChain(h: Heap, c: seq<nat>, at: Loc, e: nat)
    requires Linked(h, c, at) && NoDup(c) && e in c && e in h
    requires at.NextOf? ==> at.e !in c
    ensures Linked(Unlinked(h, e), Without(c, e), at)
    ensures h[e].pthis == at ==> h[e].next == First(Without(c, e)) && c[0] == e
    ensures h[e].pthis != at ==> First(Without(c, e)) == First(c) && h[e].pthis.NextOf? && h[e].pthis.e in c
    ensures h[e].next != 0 ==> h[e].next in c
  {
    var h' := Unlinked(h, e);
    var rest := c[1..];
    if c[0] == e {
      WithoutAbsent(rest, e);
      if rest != [] {
        LinkedFrame(h, h', rest[1..], NextOf(rest[0]));
      }
    } else {
      UnlinkChain(h, rest, NextOf(c[0]), e);
      var w := Without(c, e);
      assert w[1..] == Without(rest, e);
    }
  }

  /** A chain that e is not part of keeps its links. */
  lemma UnlinkElsewhere(h: Heap, c: seq<nat>, at: Loc, e: nat)
    requires Linked(h, c, at) && e in h && e !in c
    requires h[e].pthis.NextOf? ==> h[e].pthis.e !in c
    requires h[e].next != 0 ==> h[e].next !in c
    ensures Linked(Unlinked(h, e), c, at)
  {
    LinkedFrame(h, Unlinked(h, e), c, at);
  }

  /** Every slot of the table starts the chain of the entries whose keys hash to it. */
  ghost predicate ChainsOk(h: Heap, t: seq<nat>, chains: seq<seq<nat>>, slot: int -> nat) {
    && |chains| == |t|
    && (forall key :: 0 <= slot(key) < |t|)
    && forall b {:trigger ChainOk(h, t[b], chains[b], b, slot)} | 0 <= b < |t| :: ChainOk(h, t[b], chains[b], b, slot)
  }

  ghost predicate ChainOk(h: Heap, first: nat, c: seq<nat>, b: nat, slot: int -> nat)
  {
    && Linked(h, c, Slot(b)) && first == First(c) && NoDup(c)
    && forall e | e in c :: e in h && slot(h[e].key) == b
  }

  /** An entry is in the table if it is in the chain of its key, and then something points at it. */
  ghost predicate Placed(h: Heap, tabled: seq<nat>, chains: seq<seq<nat>>, slot: int -> nat) {
    forall e {:trigger PlacedAt(h, tabled, chains, slot, e)} | e in h :: PlacedAt(h, tabled, chains, slot, e)
  }

  ghost predicate PlacedAt(h: Heap, tabled: seq<nat>, chains: seq<seq<nat>>, slot: int -> nat, e: nat)
    requires e in h
  {
    var b := slot(h[e].key);
    (e in tabled <==> b < |chains| && e in chains[b]) && (e in tabled <==> h[e].pthis != Nowhere)
  }

  /** The records of the abstract state are those of the heap. */
  ghost predicate Recorded(h: Heap, recs: map<nat, Rec>) {
    h.Keys == recs.Keys && forall e | e in h :: SameRecord(h[e], recs[e])
  }

  predicate SameRecord(x: Entry, r: Rec) {
    x.key == r.key && x.weight == r.weight && x.refCount == r.refs && x.deletePending == r.pending
  }

  function Removed(chains: seq<seq<nat>>, e: nat): (r: seq<seq<nat>>)
    ensures |r| == |chains| && forall b | 0 <= b < |chains| :: r[b] == Without(chains[b], e)
  {
    seq(|chains|, b requires 0 <= b < |chains| => Without(chains[b], e))
  }

  /** The neighbours of e exist and are distinct. */
  predicate Unlinkable(h: Heap, e: nat)
    requires e in h
  {
    && h[e].next != e && (h[e].next != 0 ==> h[e].next in h)
    && (h[e].pthis.NextOf? ==> h[e].pthis.e in h && h[e].pthis.e != h[e].next && h[e].pthis.e != e)
  }

  /** The table after *pthis = next. */
  function SlotAfter(t: seq<nat>, x: Entry): seq<nat>
    requires x.pthis.Slot? ==> x.pthis.i < |t|
  {
    if x.pthis.Slot? then t[x.pthis.i := x.next] else t
  }

  /** Unlinking e and, if it was first in its chain, moving the slot on. */
  lemma UnlinkTable(h: Heap, t: seq<nat>, chains: seq<seq<nat>>, slot: int -> nat, e: nat)
    requires ChainsOk(h, t, chains, slot) && e in h && e in chains[slot(h[e].key)]
    ensures h[e].pthis.Slot? ==> h[e].pthis.i < |t|
    ensures h[e].pthis != Nowhere && Unlinkable(h, e)
    ensures ChainsOk(Unlinked(h, e), SlotAfter(t, h[e]), Removed(chains, e), slot)
  {
    var b0 := slot(h[e].key);
    assert ChainOk(h, t[b0], chains[b0], b0, slot);
    UnlinkChain(h, chains[b0], Slot(b0), e);
    NeighboursDiffer(h, chains[b0], Slot(b0), e);
    var t' := SlotAfter(t, h[e]);
    forall b | 0 <= b < |t|
      ensures ChainOk(Unlinked(h, e), t'[b], Removed(chains, e)[b], b, slot)
    {
      assert ChainOk(h, t[b], chains[b], b, slot);
      WithoutNoDup(chains[b], e);
      if b == b0 {
        UnlinkHere(h, chains[b], b, e);
      } else {
        UnlinkThere(h, chains[b0], chains[b], b, slot, e);
      }
    }
  }

  lemma UnlinkHere(h: Heap, c: seq<nat>, b: nat, e: nat)
    requires Linked(h, c, Slot(b)) && NoDup(c) && e in c && e in h
    ensures Linked(Unlinked(h, e), Without(c, e), Slot(b))
    ensures First(Without(c, e)) == if h[e].pthis == Slot(b) then h[e].next else First(c)
    ensures h[e].pthis.Slot? ==> h[e].pthis == Slot(b)
    ensures forall f | f in Without(c, e) && f in h :: f in Unlinked(h, e) && Unlinked(h, e)[f].key == h[f].key
  {
    hide Linked, NoDup, Without;
    UnlinkChain(h, c, Slot(b), e);
  }

  /** The neighbours of e are in its own chain. */
  lemma UnlinkThere(h: Heap, mine: seq<nat>, c: seq<nat>, b: nat, slot: int -> nat, e: nat)
    requires Linked(h, c, Slot(b)) && NoDup(c) && e in h && e in mine && slot(h[e].key) != b
    requires forall f | f in c :: f in h && slot(h[f].key) == b
    requires forall f | f in mine :: f in h && slot(h[f].key) == slot(h[e].key)
    requires Linked(h, mine, Slot(slot(h[e].key))) && NoDup(mine)
    ensures Without(c, e) == c && Linked(Unlinked(h, e), c, Slot(b))
    ensures forall f | f in c :: f in Unlinked(h, e) && Unlinked(h, e)[f].key == h[f].key
  {
    UnlinkChain(h, mine, Slot(slot(h[e].key)), e);
    WithoutAbsent(c, e);
    UnlinkElsewhere(h, c, Slot(b), e);
  }

  lemma {:induction false} NeighboursDiffer(h: Heap, c: seq<nat>, at: Loc, e: nat)
    requires Linked(h, c, at) && NoDup(c) && e in c && e in h && (at.NextOf? ==> at.e !in c && at.e != 0)
    ensures h[e].next != e && (h[e].pthis.NextOf? ==> h[e].pthis.e != e && h[e].pthis.e != h[e].next)
    ensures h[e].pthis == at || (h[e].pthis.NextOf? && h[e].pthis.e in c)
  {
    if c[0] == e {
      assert c[1..] != [] ==> c[1..][0] in c[1..];
      LinkedNext(h, c, at);
    } else {
      NeighboursDiffer(h, c[1..], NextOf(c[0]), e);
      LinkedNext(h, c, at);
    }
  }

  lemma LinkedNext(h: Heap, c: seq<nat>, at: Loc)
    requires Linked(h, c, at) && c != []
    ensures h[c[0]].next == 0 || h[c[0]].next in c[1..]
  {
  }

  /** The heap after pushing e to the front of the chain of slot b. */
  function Pushed(h: Heap, first: nat, e: nat, b: nat): Heap
    requires e in h
  {
    var h1 := h[e := h[e].(next := first, pthis := Slot(b), refCount := h[e].refCount + 1)];
    if first != 0 && first in h1 then h1[first := h1[first].(pthis := NextOf(e))] else h1
  }

  /** A new entry at the head of its chain. */
  lemma LinkChains(h: Heap, t: seq<nat>, a: Abs, chains: seq<seq<nat>>, slot: int -> nat, e: nat)
    requires ChainsOk(h, t, chains, slot) && Placed(h, a.tabled, chains, slot) && Recorded(h, a.recs)
    requires e in h && 0 !in h && e !in a.tabled
    ensures var b := slot(h[e].key);
      && b < |t| && t[b] != e && (t[b] != 0 ==> t[b] in h)
      && ChainsOk(Pushed(h, t[b], e, b), t[b := e], chains[b := [e] + chains[b]], slot)
      && Placed(Pushed(h, t[b], e, b), a.tabled + [e], chains[b := [e] + chains[b]], slot)
      && Recorded(Pushed(h, t[b], e, b), Link(a, e).recs)
  {
    var b0 := slot(h[e].key);
    var h', t', chains' := Pushed(h, t[b0], e, b0), t[b0 := e], chains[b0 := [e] + chains[b0]];
    assert PlacedAt(h, a.tabled, chains, slot, e);
    assert ChainOk(h, t[b0], chains[b0], b0, slot);
    forall b | 0 <= b < |t|
      ensures ChainOk(h', t'[b], chains'[b], b, slot)
    {
      assert ChainOk(h, t[b], chains[b], b, slot);
      if b == b0 {
        PushChain(h, chains[b], b, e);
      } else {
        LinkedFrame(h, h', chains[b], Slot(b));
      }
    }
    LinkPlaces(h, t, a, chains, slot, e);
  }

  lemma LinkPlaces(h: Heap, t: seq<nat>, a: Abs, chains: seq<seq<nat>>, slot: int -> nat, e: nat)
    requires Placed(h, a.tabled, chains, slot) && e in h && 0 !in h && slot(h[e].key) < |t| == |chains|
    requires ChainOk(h, t[slot(h[e].key)], chains[slot(h[e].key)], slot(h[e].key), slot)
    ensures var b := slot(h[e].key);
      Placed(Pushed(h, t[b], e, b), a.tabled + [e], chains[b := [e] + chains[b]], slot)
  {
    var b0 := slot(h[e].key);
    var h', chains' := Pushed(h, t[b0], e, b0), chains[b0 := [e] + chains[b0]];
    forall f | f in h'
      ensures PlacedAt(h', a.tabled + [e], chains', slot, f)
    {
      assert PlacedAt(h, a.tabled, chains, slot, f);
      if f == t[b0] {
        assert f in chains[b0];
      }
    }
  }

  lemma PushChain(h: Heap, c: seq<nat>, b: nat, e: nat)
    requires Linked(h, c, Slot(b)) && NoDup(c) && e in h && e !in c && e != 0
    ensures Linked(Pushed(h, First(c), e, b), [e] + c, Slot(b)) && NoDup([e] + c)
  {
    var h' := Pushed(h, First(c), e, b);
    assert ([e] + c)[1..] == c;
    if c != [] {
      LinkedFrame(h, h', c[1..], NextOf(c[0]));
    }
  }

  lemma MakeRoomUnfold(a: Abs, w: nat, maxWeight: nat)
    ensures !Over(a, w, maxWeight) || a.lru == [] ==> MakeRoom(a, w, maxWeight) == a
    ensures Over(a, w, maxWeight) && a.lru != [] && a.lru[0] in a.recs && |Delete(a, a.lru[0]).lru| < |a.lru| ==>
      MakeRoom(a, w, maxWeight) == MakeRoom(Delete(a, a.lru[0]), w, maxWeight)
  {
  }

  lemma {:induction false} DeleteAllOneMore(a: Abs, s: seq<nat>, e: nat)
    ensures DeleteAll(a, s + [e]) == if e in DeleteAll(a, s).recs then Delete(DeleteAll(a, s), e) else DeleteAll(a, s)
    decreases |s|
  {
    if s == [] {
      assert ([] + [e])[1..] == [];
      var b := if e in a.recs then Delete(a, e) else a;
      assert DeleteAll(a, [e]) == DeleteAll(b, []);
    } else {
      assert (s + [e])[1..] == s[1..] + [e];
      DeleteAllOneMore(if s[0] in a.recs then Delete(a, s[0]) else a, s[1..], e);
    }
  }

  lemma {:induction false} LinkedMiddle(h: Heap, kept: seq<nat>, rest: seq<nat>, at: Loc)
    requires Linked(h, kept + rest, at) && rest != []
    ensures rest[0] != 0 && rest[0] in h && h[rest[0]].next == First(rest[1..])
    decreases |kept|
  {
    if kept == [] {
      assert kept + rest == rest;
    } else {
      assert (kept + rest)[1..] == kept[1..] + rest;
      LinkedMiddle(h, kept[1..], rest, NextOf(kept[0]));
    }
  }

  lemma WithoutMiddle(kept: seq<nat>, rest: seq<nat>)
    requires NoDup(kept + rest) && rest != []
    ensures Without(kept + rest, rest[0]) == kept + rest[1..]
  {
    NoDupParts(kept, rest);
    WithoutConcat(kept, rest, rest[0]);
    WithoutAbsent(kept, rest[0]);
    WithoutAbsent(rest[1..], rest[0]);
  }

  /** Entry rest[0] of bucket i: what follows it, and what the table is without it. */
  lemma ChainMiddle(h: Heap, t: seq<nat>, chains: seq<seq<nat>>, slot: int -> nat, i: nat, kept: seq<nat>, rest: seq<nat>)
    requires ChainsOk(h, t, chains, slot) && i < |t| && chains[i] == kept + rest && rest != []
    ensures rest[0] in h && h[rest[0]].next == First(rest[1..])
    ensures Removed(chains, rest[0])[i] == kept + rest[1..]
    ensures forall b | 0 <= b < |t| && b != i :: Removed(chains, rest[0])[b] == chains[b]
  {
    assert ChainOk(h, t[i], chains[i], i, slot);
    assert rest[0] in chains[i];
    LinkedMiddle(h, kept, rest, Slot(i));
    WithoutMiddle(kept, rest);
    forall b | 0 <= b < |t| && b != i
      ensures Without(chains[b], rest[0]) == chains[b]
    {
      assert ChainOk(h, t[b], chains[b], b, slot);
      WithoutAbsent(chains[b], rest[0]);
    }
  }

  /** The end of a chain is reached when there is no next entry. */
  lemma ChainEnds(h: Heap, t: seq<nat>, chains: seq<seq<nat>>, slot: int -> nat, i: nat, kept: seq<nat>, rest: seq<nat>)
    requires ChainsOk(h, t, chains, slot) && i < |t| && chains[i] == kept + rest
    ensures First(rest) == 0 ==> |rest| == 0
  {
    if rest != [] {
      assert ChainOk(h, t[i], chains[i], i, slot);
      LinkedMiddle(h, kept, rest, Slot(i));
    }
  }

  /** Every entry sits in the bucket of its key. */
  ghost predicate Hashed(h: Heap, c: seq<nat>, b: nat, slot: int -> nat) {
    NoDup(c) && forall e | e in c :: e in h && slot(h[e].key) == b
  }

  /** The list done consists of the entries of the first i buckets. */
  ghost predicate Covered(h: Heap, all: seq<seq<nat>>, slot: int -> nat, i: nat, done: seq<nat>) {
    && (forall b {:trigger Hashed(h, all[b], b, slot)} | 0 <= b < |all| :: Hashed(h, all[b], b, slot))
    && NoDup(done)
    && forall e :: e in done <==> e in h && slot(h[e].key) < i && slot(h[e].key) < |all| && e in all[slot(h[e].key)]
  }

  lemma ChainsHashed(h: Heap, t: seq<nat>, chains: seq<seq<nat>>, slot: int -> nat)
    requires ChainsOk(h, t, chains, slot)
    ensures Covered(h, chains, slot, 0, [])
  {
    forall b | 0 <= b < |chains|
      ensures Hashed(h, chains[b], b, slot)
    {
      assert ChainOk(h, t[b], chains[b], b, slot);
    }
  }

  lemma CoverNext(h: Heap, all: seq<seq<nat>>, slot: int -> nat, i: nat, done: seq<nat>)
    requires Covered(h, all, slot, i, done) && i < |all|
    ensures Covered(h, all, slot, i + 1, done + all[i])
  {
    assert Hashed(h, all[i], i, slot);
    NoDupConcat(done, all[i]);
  }

  lemma AllCovered(h: Heap, tabled: seq<nat>, all: seq<seq<nat>>, slot: int -> nat, done: seq<nat>)
    requires Covered(h, all, slot, |all|, done) && Placed(h, tabled, all, slot) && forall e | e in tabled :: e in h
    ensures forall e :: e in done <==> e in tabled
  {
    forall e
      ensures e in done <==> e in tabled
    {
      assert e in h ==> PlacedAt(h, tabled, all, slot, e);
    }
  }

  /** A condemned entry just released, still on the list of unused ones. */
  function Condemned(a: Abs, e: nat): Abs
    requires e in a.recs
  {
    a.(recs := a.recs[e := a.recs[e].(refs := 0)], lru := a.lru + [e], clock := a.clock + 1)
  }

  lemma {:induction false} WithoutAppended(s: seq<nat>, e: nat)
    ensures Without(s + [e], e) == Without(s, e)
  {
    if s == [] {
      assert ([] + [e])[1..] == [];
    } else {
      assert (s + [e])[1..] == s[1..] + [e];
      WithoutAppended(s[1..], e);
    }
  }

  lemma CondemnedDrop(a: Abs, e: nat)
    requires e in a.recs && e in a.tabled && a.recs[e].refs == 1 && a.recs[e].pending
    ensures Delete(Condemned(a, e), e) == Release(a, e)
  {
    WithoutAppended(a.lru, e);
  }

  class Cache {
    const maxSize: nat
    const maxWeight: nat
    const slot: int -> nat   // the slot of a key: its hash modulo the size of the table
    const table: array<nat>
    var heap: Heap
    var lru: seq<nat>
    var curSize: int
    var curWeight: nat
    var hits: nat
    var lookups: nat
    var inserts: nat
    var deletes: nat
    ghost var abs: Abs
    ghost var chains: seq<seq<nat>>

    /** The concrete data represent abs. That abs keeps the invariant of the specification is a
        matter of its operations alone. */
    ghost predicate Valid()
      reads this, table
    {
      ValidBut() && lru == abs.lru
    }

    /** Valid, except that the list of unused entries may be ahead of the abstract state. */
    ghost predicate ValidBut()
      reads this, table
    {
      && ChainsOk(heap, table[..], chains, slot) && Placed(heap, abs.tabled, chains, slot)
      && Recorded(heap, abs.recs) && Totals()
    }

    ghost predicate Totals()
      reads this
    {
      curSize == abs.size && curWeight == abs.weight && curSize == inserts - deletes && maxWeight < W
    }

    constructor (maxSize: nat, maxWeight: nat, hashSize: nat, hash: int -> nat)
      requires hashSize > 0 && maxWeight < W
      ensures Valid() && abs == EMPTY && fresh(table)
      ensures this.maxSize == maxSize && this.maxWeight == maxWeight
    {
      this.maxSize, this.maxWeight, this.slot := maxSize, maxWeight, key => hash(key) % hashSize;
      table := new nat[hashSize](_ => 0);
      heap, lru, curSize, curWeight := map[], [], 0, 0;
      hits, lookups, inserts, deletes := 0, 0, 0, 0;
      abs := EMPTY;
      chains := seq(hashSize, _ => []);
      new;
      assert forall b | 0 <= b < hashSize :: table[..][b] == 0 && chains[b] == [];
    }

    method EntryCreate(e: nat, key: int, weight: nat)
      requires Valid() && AbsInv(abs) && e != 0 && e !in heap
      modifies `heap, `abs
      ensures Valid() && abs == Create(old(abs), e, key, weight)
    {
      CreateTable(heap, table[..], chains, slot, abs, e, key, weight);
      heap := heap[e := Entry(key, weight, 0, Nowhere, 0, false)];
      abs := Create(abs, e, key, weight);
    }
    /** Deletes an entry that is not in use, or marks one that is. */
    method EntryDelete(e: nat)
      requires Valid() && e in heap
      modifies `heap, `lru, `curSize, `curWeight, `deletes, `abs, `chains, table
      ensures Valid() && abs == Delete(old(abs), e)
      ensures chains == if old(heap)[e].refCount > 0 then old(chains) else Removed(old(chains), e)
    {
      if heap[e].refCount > 0 {
        Update(e, heap[e].(deletePending := true), Delete(abs, e));
        return;
      }
      Free(e);
    }

    /** Changes the use of an entry, which leaves the table as it is. */
    method Update(e: nat, x: Entry, ghost a: Abs)
      requires ValidBut() && e in heap
      requires x.key == heap[e].key && x.next == heap[e].next && x.pthis == heap[e].pthis
      requires a.tabled == abs.tabled && e in a.recs && SameRecord(x, a.recs[e]) && a.recs == abs.recs[e := a.recs[e]]
      requires a.lru == lru && a.size == abs.size && a.weight == abs.weight
      modifies `heap, `abs
      ensures Valid() && abs == a && heap == old(heap)[e := x]
    {
      UpdateTable(heap, table[..], chains, slot, abs.tabled, e, x);
      heap := heap[e := x];
      abs := a;
    }

    /** Unlinks, cleans up and frees an entry that is not in use. */
    method Free(e: nat)
      requires Valid() && e in heap && heap[e].refCount == 0
      modifies `heap, `lru, `curSize, `curWeight, `deletes, `abs, `chains, table
      ensures Valid() && abs == Drop(old(abs), e) && chains == Removed(old(chains), e)
    {
      assert PlacedAt(heap, abs.tabled, chains, slot, e);
      if heap[e].pthis != Nowhere {
        FreeLinked(e);
      } else {
        LooseTable(heap, table[..], abs, chains, slot, e);
        chains := Removed(chains, e);
        abs := Drop(abs, e);
        heap := heap - {e};
      }
    }

    method FreeLinked(e: nat)
      requires Valid() && e in heap && heap[e].refCount == 0 && e in abs.tabled
      modifies `heap, `lru, `curSize, `curWeight, `deletes, `abs, `chains, table
      ensures Valid() && abs == Drop(old(abs), e) && chains == Removed(old(chains), e)
    {
      FreeTable(heap, table[..], abs, chains, slot, e);
      TakeOut(e);
      chains := Removed(chains, e);
      abs := Drop(abs, e);
    }

    method TakeOut(e: nat)
      requires e in heap && Unlinkable(heap, e) && (heap[e].pthis.Slot? ==> heap[e].pthis.i < table.Length)
      modifies `heap, `lru, `curSize, `curWeight, `deletes, table
      ensures heap == Unlinked(old(heap), e) && lru == Without(old(lru), e)
      ensures table[..] == SlotAfter(old(table[..]), old(heap)[e])
      ensures curSize == old(curSize) - 1 && curWeight == (old(curWeight) - old(heap)[e].weight) % W
      ensures deletes == old(deletes) + 1
    {
      Unlink(e);
      curSize := curSize - 1;
      curWeight := (curWeight - heap[e].weight) % W;
      deletes := deletes + 1;
      lru := Without(lru, e);
      heap := heap - {e};
    }

    // ---------------------------------------------------------------- lookup and release

    /** Walks the chain of a key. */
    method Search(key: int) returns (e: nat)
      requires Valid() && TableOk(abs) && Unique(abs)
      ensures e == Find(abs, key, abs.tabled)
    {
      var b := slot(key);
      assert ChainOk(heap, table[..][b], chains[b], b, slot);
      ghost var c, i, at := chains[b], 0, Slot(b);
      e := table[b];
      assert c[0..] == c;
      while e != 0 && !(!heap[e].deletePending && heap[e].key == key)
        invariant i <= |c| && e == First(c[i..]) && Linked(heap, c[i..], at)
        invariant forall j | 0 <= j < i :: !(c[j] in heap && !heap[c[j]].deletePending && heap[c[j]].key == key)
        decreases |c| - i
      {
        assert c[i..][1..] == c[i + 1..] && e == c[i];
        e := heap[e].next;
        at := NextOf(c[i]);
        i := i + 1;
      }
      ghost var f := Find(abs, key, abs.tabled);
      if f != 0 {
        assert PlacedAt(heap, abs.tabled, chains, slot, f);
      }
      if e != 0 {
        assert e in c && PlacedAt(heap, abs.tabled, chains, slot, e);
        FindIsComplete(abs, key, abs.tabled);
        assert Matches(abs, key, e) && Matches(abs, key, f);
      }
    }

    method EntryLookup(key: int) returns (e: nat)
      requires Valid() && TableOk(abs) && Unique(abs)
      modifies `heap, `lru, `hits, `lookups, `abs
      ensures Valid() && (abs, e) == Lookup(old(abs), key)
      ensures lookups == old(lookups) + 1 && hits == old(hits) + if e != 0 then 1 else 0
      ensures e != 0 ==> e in old(heap) && heap == old(heap)[e := old(heap)[e].(refCount := old(heap)[e].refCount + 1)]
    {
      lookups := lookups + 1;
      e := Search(key);
      if e != 0 {
        hits := hits + 1;
        Use(e);
      }
    }

    /** One more caller holds the entry. */
    method Use(e: nat)
      requires Valid() && e in heap && e in abs.recs
      modifies `heap, `lru, `abs
      ensures Valid() && abs == Acquire(old(abs), e)
      ensures heap == old(heap)[e := old(heap)[e].(refCount := old(heap)[e].refCount + 1)]
    {
      ghost var a := Acquire(abs, e);
      if heap[e].refCount == 0 {
        lru := Without(lru, e);
      }
      Update(e, heap[e].(refCount := heap[e].refCount + 1), a);
    }

    method EntryRelease(e: nat)
      requires Valid() && e in heap && (heap[e].refCount > 0 ==> e in abs.tabled)
      modifies `heap, `lru, `curSize, `curWeight, `deletes, `abs, `chains, table
      ensures Valid() && abs == Release(old(abs), e)
    {
      if heap[e].refCount == 0 {
        return;
      }
      var x := heap[e].(refCount := heap[e].refCount - 1);
      if x.refCount == 0 {
        LastRelease(e, x);
      } else {
        Update(e, x, abs.(recs := abs.recs[e := abs.recs[e].(refs := x.refCount)]));
      }
    }

    /** Puts an entry on the list of unused ones, from which a condemned entry is deleted at once. */
    method LastRelease(e: nat, x: Entry)
      requires Valid() && e in heap && heap[e].refCount == 1 && x == heap[e].(refCount := 0) && e in abs.tabled
      modifies `heap, `lru, `curSize, `curWeight, `deletes, `abs, `chains, table
      ensures Valid() && abs == Release(old(abs), e)
    {
      lru := lru + [e];
      if x.deletePending {
        CondemnedDrop(abs, e);
        Update(e, x, Condemned(abs, e));
        EntryDelete(e);
      } else {
        Update(e, x, Release(abs, e));
      }
    }

    // ---------------------------------------------------------------- insertion

    method GetLru() returns (e: nat)
      ensures e == if lru == [] then 0 else lru[0]
    {
      e := if lru == [] then 0 else lru[0];
    }

    /** Deletes the least recently released entry. */
    method EvictOldest(ghost mine: nat) returns (ok: bool)
      requires Valid() && AbsInv(abs) && mine in abs.recs && mine !in abs.tabled
      modifies `heap, `lru, `curSize, `curWeight, `deletes, `abs, `chains, table
      ensures Valid() && AbsInv(abs) && ok == (old(abs).lru != [])
      ensures if ok then old(abs).lru[0] in old(abs).recs && abs == Delete(old(abs), old(abs).lru[0]) else abs == old(abs)
      ensures ok ==> |abs.lru| < |old(abs).lru|
      ensures mine in abs.recs && abs.recs[mine] == old(abs).recs[mine] && mine !in abs.tabled
    {
      if lru != [] {
        EvictOne(abs);
      }
      var e := GetLru();
      if e == 0 {
        return false;
      }
      EvictedSpares(abs, Delete(abs, e), 1, mine);
      EntryDelete(e);
      return true;
    }

    /** Evicts entries while the weight is exceeded; reports whether the new entry fits. */
    method EvictForWeight(e: nat) returns (fits: bool)
      requires Valid() && AbsInv(abs) && e in heap && e !in abs.tabled
      modifies `heap, `lru, `curSize, `curWeight, `deletes, `abs, `chains, table
      ensures Valid() && AbsInv(abs) && abs == MakeRoom(old(abs), old(abs).recs[e].weight, maxWeight)
      ensures e in abs.recs && abs.recs[e] == old(abs).recs[e] && e !in abs.tabled
      ensures fits == !Over(abs, abs.recs[e].weight, maxWeight)
    {
      var w := heap[e].weight;
      ghost var room := MakeRoom(abs, w, maxWeight);
      ghost var r := abs.recs[e];
      while Exceeds(curWeight, w, maxWeight)
        invariant Valid() && AbsInv(abs) && e in abs.recs && abs.recs[e] == r && e !in abs.tabled
        invariant MakeRoom(abs, w, maxWeight) == room
        decreases |abs.lru|
      {
        var ok := EvictOver(e, w, room);
        if !ok {
          return false;
        }
      }
      MakeRoomUnfold(abs, w, maxWeight);
      return true;
    }

    method EvictOver(ghost e: nat, w: nat, ghost room: Abs) returns (ok: bool)
      requires Valid() && AbsInv(abs) && e in abs.recs && e !in abs.tabled
      requires Over(abs, w, maxWeight) && MakeRoom(abs, w, maxWeight) == room
      modifies `heap, `lru, `curSize, `curWeight, `deletes, `abs, `chains, table
      ensures Valid() && AbsInv(abs)
      ensures if ok then MakeRoom(abs, w, maxWeight) == room && |abs.lru| < |old(abs).lru| else abs == room == old(abs)
      ensures e in abs.recs && abs.recs[e] == old(abs).recs[e] && e !in abs.tabled
    {
      MakeRoomUnfold(abs, w, maxWeight);
      ok := EvictOldest(e);
    }

    /** Puts an entry at the head of the chain of its key. */
    method LinkIn(e: nat)
      requires Valid() && e in heap && e !in abs.tabled && 0 !in abs.recs
      modifies `heap, `curSize, `curWeight, `inserts, `abs, `chains, table
      ensures Valid() && abs == Link(old(abs), e)
    {
      LinkChains(heap, table[..], abs, chains, slot, e);
      ghost var b := slot(heap[e].key);
      PutIn(e);
      abs := Link(abs, e);
      chains := chains[b := [e] + chains[b]];
    }

    method PutIn(e: nat)
      requires e in heap && slot(heap[e].key) < table.Length
      requires var first := table[slot(heap[e].key)]; first != e && (first != 0 ==> first in heap)
      modifies `heap, `curSize, `curWeight, `inserts, table
      ensures var b := slot(old(heap)[e].key);
        heap == Pushed(old(heap), old(table[..])[b], e, b) && table[..] == old(table[..])[b := e]
      ensures curSize == old(curSize) + 1 && inserts == old(inserts) + 1
      ensures curWeight == (old(curWeight) + old(heap)[e].weight) % W
    {
      PushFront(e, slot(heap[e].key));
      inserts := inserts + 1;
      curSize := curSize + 1;
      curWeight := (curWeight + heap[e].weight) % W;
    }

    method PushFront(e: nat, b: nat)
      requires e in heap && b < table.Length && table[b] != e && (table[b] != 0 ==> table[b] in heap)
      modifies `heap, table
      ensures heap == Pushed(old(heap), old(table[b]), e, b) && table[..] == old(table[..])[b := e]
    {
      heap := heap[e := heap[e].(next := table[b])];
      table[b] := e;
      heap := heap[e := heap[e].(pthis := Slot(b))];
      var n := heap[e].next;
      if n != 0 {
        heap := heap[n := heap[n].(pthis := NextOf(e))];
      }
      heap := heap[e := heap[e].(refCount := heap[e].refCount + 1)];
    }

    /** Makes room, replaces the entry under the same key, and links the new entry in. */
    method EntryInsert(e: nat) returns (ok: bool)
      requires Valid() && AbsInv(abs) && e in heap && e !in abs.tabled
      modifies `heap, `lru, `curSize, `curWeight, `inserts, `deletes, `abs, `chains, table
      ensures Valid() && (abs, ok) == Insert(old(abs), e, maxSize, maxWeight)
    {
      ok := EvictForWeight(e);
      if ok {
        ok := AdmitEntry(e);
      }
    }

    method AdmitEntry(e: nat) returns (ok: bool)
      requires Valid() && AbsInv(abs) && e in heap && e !in abs.tabled && !Over(abs, abs.recs[e].weight, maxWeight)
      modifies `heap, `lru, `curSize, `curWeight, `inserts, `deletes, `abs, `chains, table
      ensures Valid() && (abs, ok) == Admit(old(abs), e, old(abs).recs[e].weight, maxSize, maxWeight)
    {
      ok := true;
      if curSize >= maxSize {
        ok := EvictOldest(e);
      }
      if ok {
        ReplaceEntry(e);
      }
    }

    method ReplaceEntry(e: nat)
      requires Valid() && AbsInv(abs) && e in heap && e !in abs.tabled
      modifies `heap, `lru, `curSize, `curWeight, `inserts, `deletes, `abs, `chains, table
      ensures Valid() && abs == Replace(old(abs), e)
    {
      var prior := Search(heap[e].key);
      if prior != 0 {
        EntryDelete(prior);
      }
      LinkIn(e);
    }

    // ---------------------------------------------------------------- emptying

    /** Deletes every entry of the table, bucket by bucket; order is the order it took. */
    method Empty() returns (ghost order: seq<nat>)
      requires Valid() && AbsInv(abs)
      modifies `heap, `lru, `curSize, `curWeight, `deletes, `abs, `chains, table
      ensures Valid() && abs == DeleteAll(old(abs), order)
      ensures NoDup(order) && forall e :: e in order <==> e in old(abs).tabled
    {
      ghost var a, h, all := abs, heap, chains;
      ChainsHashed(h, table[..], all, slot);
      order := [];
      for i := 0 to table.Length
        invariant Valid() && |all| == table.Length && Emptying(a, all, i, order) && Covered(h, all, slot, i, order)
      {
        order := EmptyBucket(i, a, all, order);
        CoverNext(h, all, slot, i, order[..|order| - |all[i]|]);
      }
      AllCovered(h, a.tabled, all, slot, order);
    }

    /** The entries of the first i buckets, done, have been deleted; the other chains are untouched. */
    ghost predicate Emptying(a: Abs, all: seq<seq<nat>>, i: nat, done: seq<nat>)
      reads this
    {
      && abs == DeleteAll(a, done) && |chains| == |all| && (forall b | i <= b < |all| :: chains[b] == all[b])
    }

    method EmptyBucket(i: nat, ghost a: Abs, ghost all: seq<seq<nat>>, ghost done: seq<nat>)
        returns (ghost order: seq<nat>)
      requires Valid() && i < table.Length == |all| && Emptying(a, all, i, done)
      modifies `heap, `lru, `curSize, `curWeight, `deletes, `abs, `chains, table
      ensures Valid() && order == done + all[i] && Emptying(a, all, i + 1, order)
    {
      ghost var kept, k: nat, c := [], 0, all[i];
      assert ChainOk(heap, table[..][i], chains[i], i, slot);
      var entry := table[i];
      assert c[0..] == c && done + c[..0] == done;
      while entry != 0
        invariant Valid() && k <= |c| && entry == First(c[k..]) && Emptying(a, all, i + 1, done + c[..k])
        invariant chains[i] == kept + c[k..]
        decreases |c| - k
      {
        entry, kept := EmptyStep(i, entry, kept, k, c, a, all, done);
        k := k + 1;
      }
      ChainEnds(heap, table[..], chains, slot, i, kept, c[k..]);
      assert c[..k] == c;
      order := done + c;
    }

    /** Deletes one entry; its successor is read before it is freed. */
    method EmptyStep(i: nat, entry: nat, ghost kept: seq<nat>, ghost k: nat, ghost c: seq<nat>, ghost a: Abs,
        ghost all: seq<seq<nat>>, ghost done: seq<nat>) returns (next: nat, ghost kept': seq<nat>)
      requires Valid() && k < |c| && entry == c[k] && i < table.Length == |all| && Emptying(a, all, i + 1, done + c[..k])
      requires chains[i] == kept + c[k..]
      modifies `heap, `lru, `curSize, `curWeight, `deletes, `abs, `chains, table
      ensures Valid() && next == First(c[k + 1..]) && Emptying(a, all, i + 1, done + c[..k + 1])
      ensures chains[i] == kept' + c[k + 1..]
    {
      ChainMiddle(heap, table[..], chains, slot, i, kept, c[k..]);
      ghost var before, x := chains, heap[entry];
      assert c[k..][1..] == c[k + 1..];
      next := heap[entry].next;
      DeleteAllOneMore(a, done + c[..k], entry);
      assert done + c[..k + 1] == (done + c[..k]) + [entry];
      EntryDelete(entry);
      kept' := if x.refCount > 0 then kept + [entry] else kept;
      assert kept + c[k..] == (kept + [entry]) + c[k + 1..];
    }

    /** Every call is the operation of the specification, and so keeps its invariant. The order in
        which emptying proceeds is the table's. */
    method Do(op: Op) returns (ghost did: Op)
      requires Valid() && AbsInv(abs) && Legal(abs, op)
      modifies this, table
      ensures Valid() && AbsInv(abs) && Legal(old(abs), did)
      ensures abs == Apply(old(abs), did, maxSize, maxWeight)
      ensures if op.DoEmpty? then did.DoEmpty? else did == op
    {
      did := op;
      match op {
        case DoCreate(e, key, weight) => EntryCreate(e, key, weight);
        case DoInsert(e) => var ok := EntryInsert(e);
        case DoLookup(key) => var e := EntryLookup(key);
        case DoRelease(e) => EntryRelease(e);
        case DoDelete(e) => EntryDelete(e);
        case DoEmpty(_) =>
          ghost var order := Empty();
          did := DoEmpty(order);
      }
      ApplyKeeps(old(abs), did, maxSize, maxWeight);
    }

    /** *pthis = next; next->pthis = pthis */
    method Unlink(e: nat)
      requires e in heap && Unlinkable(heap, e) && (heap[e].pthis.Slot? ==> heap[e].pthis.i < table.Length)
      modifies `heap, table
      ensures heap.Keys == old(heap).Keys && heap[e] == old(heap)[e] && heap - {e} == Unlinked(old(heap), e)
      ensures table[..] == SlotAfter(old(table[..]), heap[e])
    {
      match heap[e].pthis {
        case Slot(i) => table[i] := heap[e].next;
        case NextOf(p) => heap := heap[p := heap[p].(next := heap[e].next)];
        case Nowhere =>
      }
      var n := heap[e].next;
      if n != 0 {
        heap := heap[n := heap[n].(pthis := heap[e].pthis)];
      }
    }
  }

  /** A new entry is in no chain. */
  lemma CreateTable(h: Heap, t: seq<nat>, chains: seq<seq<nat>>, slot: int -> nat, a: Abs, e: nat, key: int, weight: nat)
    requires ChainsOk(h, t, chains, slot) && Placed(h, a.tabled, chains, slot) && Recorded(h, a.recs)
    requires e !in h && e !in a.tabled
    ensures var h' := h[e := Entry(key, weight, 0, Nowhere, 0, false)];
      && ChainsOk(h', t, chains, slot) && Placed(h', a.tabled, chains, slot)
      && Recorded(h', Create(a, e, key, weight).recs)
  {
    var h' := h[e := Entry(key, weight, 0, Nowhere, 0, false)];
    forall b | 0 <= b < |t|
      ensures ChainOk(h', t[b], chains[b], b, slot) && e !in chains[b]
    {
      assert ChainOk(h, t[b], chains[b], b, slot);
      LinkedFrame(h, h', chains[b], Slot(b));
    }
    forall f | f in h'
      ensures PlacedAt(h', a.tabled, chains, slot, f)
    {
      if f != e {
        assert PlacedAt(h, a.tabled, chains, slot, f);
      }
    }
  }

  lemma RecordedAfterFree(h: Heap, h': Heap, a: Abs, e: nat)
    requires Recorded(h, a.recs) && e in h && (h' == h - {e} || h' == Unlinked(h, e))
    ensures Recorded(h', Drop(a, e).recs)
  {
  }

  /** Unlinking changes what points at the successor, and nothing else but next fields. */
  lemma UnlinkPointer(h: Heap, e: nat, f: nat)
    requires e in h && f in h && f != e
    ensures var x := Unlinked(h, e);
      f in x && x[f].key == h[f].key && x[f].pthis == if f == h[e].next && f != 0 then h[e].pthis else h[f].pthis
  {
  }

  /** Unlinking one entry leaves the others where they are. */
  lemma UnlinkPlaces(h: Heap, t: seq<nat>, a: Abs, chains: seq<seq<nat>>, slot: int -> nat, e: nat)
    requires ChainsOk(h, t, chains, slot) && Placed(h, a.tabled, chains, slot) && Recorded(h, a.recs)
    requires e in h && e in a.tabled
    ensures Placed(Unlinked(h, e), Drop(a, e).tabled, Removed(chains, e), slot)
    ensures Recorded(Unlinked(h, e), Drop(a, e).recs)
  {
    RecordedAfterFree(h, Unlinked(h, e), a, e);
    assert PlacedAt(h, a.tabled, chains, slot, e);
    var h', b := Unlinked(h, e), slot(h[e].key);
    assert ChainOk(h, t[b], chains[b], b, slot);
    UnlinkChain(h, chains[b], Slot(b), e);
    UnlinkTable(h, t, chains, slot, e);
    forall f | f in h'
      ensures PlacedAt(h', Without(a.tabled, e), Removed(chains, e), slot, f)
    {
      assert PlacedAt(h, a.tabled, chains, slot, f);
      UnlinkPointer(h, e, f);
    }
  }

  lemma FreeTable(h: Heap, t: seq<nat>, a: Abs, chains: seq<seq<nat>>, slot: int -> nat, e: nat)
    requires ChainsOk(h, t, chains, slot) && Placed(h, a.tabled, chains, slot) && Recorded(h, a.recs)
    requires e in h && e in a.tabled
    ensures (h[e].pthis.Slot? ==> h[e].pthis.i < |t|) && Unlinkable(h, e) && e in a.recs && a.recs[e].weight == h[e].weight
    ensures ChainsOk(Unlinked(h, e), SlotAfter(t, h[e]), Removed(chains, e), slot)
    ensures Placed(Unlinked(h, e), Drop(a, e).tabled, Removed(chains, e), slot)
    ensures Recorded(Unlinked(h, e), Drop(a, e).recs)
  {
    assert PlacedAt(h, a.tabled, chains, slot, e);
    UnlinkTable(h, t, chains, slot, e);
    UnlinkPlaces(h, t, a, chains, slot, e);
  }

  /** An entry outside the table is in no chain. */
  lemma LooseTable(h: Heap, t: seq<nat>, a: Abs, chains: seq<seq<nat>>, slot: int -> nat, e: nat)
    requires ChainsOk(h, t, chains, slot) && Placed(h, a.tabled, chains, slot) && Recorded(h, a.recs)
    requires e in h && e !in a.tabled
    ensures Removed(chains, e) == chains && Recorded(h - {e}, Drop(a, e).recs)
    ensures ChainsOk(h - {e}, t, chains, slot) && Placed(h - {e}, a.tabled, chains, slot)
  {
    RecordedAfterFree(h, h - {e}, a, e);
    assert PlacedAt(h, a.tabled, chains, slot, e);
    var h' := h - {e};
    forall b | 0 <= b < |t|
      ensures e !in chains[b] && Without(chains[b], e) == chains[b] && ChainOk(h', t[b], chains[b], b, slot)
    {
      assert ChainOk(h, t[b], chains[b], b, slot);
      WithoutAbsent(chains[b], e);
      LinkedFrame(h, h', chains[b], Slot(b));
    }
    forall f | f in h'
      ensures PlacedAt(h', a.tabled, chains, slot, f)
    {
      assert PlacedAt(h, a.tabled, chains, slot, f);
    }
  }

  /** An entry whose links do not change stays where it is. */
  lemma UpdateTable(h: Heap, t: seq<nat>, chains: seq<seq<nat>>, slot: int -> nat, tabled: seq<nat>, e: nat, x: Entry)
    requires ChainsOk(h, t, chains, slot) && Placed(h, tabled, chains, slot) && e in h
    requires x.key == h[e].key && x.next == h[e].next && x.pthis == h[e].pthis
    ensures ChainsOk(h[e := x], t, chains, slot) && Placed(h[e := x], tabled, chains, slot)
  {
    var h' := h[e := x];
    forall b | 0 <= b < |t|
      ensures ChainOk(h', t[b], chains[b], b, slot)
    {
      assert ChainOk(h, t[b], chains[b], b, slot);
      LinkedFrame(h, h', chains[b], Slot(b));
    }
    forall f | f in h'
      ensures PlacedAt(h', tabled, chains, slot, f)
    {
      assert PlacedAt(h, tabled, chains, slot, f);
    }
  }
}
