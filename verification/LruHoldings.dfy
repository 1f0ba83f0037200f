/** What the reference counts of the cache mean: how often callers hold an entry, counted from their calls and
    the results alone. */
module LruHoldings {
  import opened Lists
  import opened LruSpec

  /** What a call returns, as far as it gives a caller an entry to hold. */
  datatype Res = Nothing | Inserted(ok: bool) | Found(e: nat)

  function ResultOf(a: Abs, op: Op, maxSize: nat, maxWeight: nat): Res {
    match op
    case DoInsert(e) => if e in a.recs then Inserted(Insert(a, e, maxSize, maxWeight).1) else Nothing
    case DoLookup(key) => Found(Lookup(a, key).1)
    case _ => Nothing
  }

  /** How often each entry is held, by its address. */
  type Holdings = map<nat, nat>

  function HeldIn(h: Holdings, e: nat): nat {
    if e in h then h[e] else 0
  }

  /** A new entry is not held; inserting it or looking it up is a holding, and a release ends one. */
  function Count(h: Holdings, op: Op, res: Res): Holdings {
    match op
    case DoCreate(e, _, _) => h[e := 0]
    case DoInsert(e) => if res == Inserted(true) then h[e := HeldIn(h, e) + 1] else h
    case DoLookup(_) => if res.Found? && res.e != 0 then h[res.e := HeldIn(h, res.e) + 1] else h
    case DoRelease(e) => if HeldIn(h, e) > 0 then h[e := HeldIn(h, e) - 1] else h
    case DoDelete(_) => h
    case DoEmpty(_) => h
  }

  /** The reference counts are the holdings. */
  ghost predicate Tallied(a: Abs, h: Holdings) {
    forall e: nat :: Refs(a, e) == HeldIn(h, e)
  }

  function Refs(a: Abs, e: nat): nat {
    if e in a.recs then a.recs[e].refs else 0
  }

  /** Deleting an entry leaves every reference count as it is: what goes is not in use. */
  lemma DeleteRefs(a: Abs, e: nat)
    requires e in a.recs
    ensures forall f: nat :: Refs(Delete(a, e), f) == Refs(a, f)
  {
  }

  lemma {:induction false} DeleteAllRefs(a: Abs, s: seq<nat>)
    ensures forall f: nat :: Refs(DeleteAll(a, s), f) == Refs(a, f)
    decreases |s|
  {
    hide Refs, Delete;
    if s != [] {
      if s[0] in a.recs {
        DeleteRefs(a, s[0]);
        DeleteAllRefs(Delete(a, s[0]), s[1..]);
      } else {
        DeleteAllRefs(a, s[1..]);
      }
    }
  }

  lemma {:induction false} MakeRoomRefs(a: Abs, weight: nat, maxWeight: nat)
    ensures forall f: nat :: Refs(MakeRoom(a, weight, maxWeight), f) == Refs(a, f)
    decreases |a.lru|
  {
    if Over(a, weight, maxWeight) && a.lru != [] && a.lru[0] in a.recs {
      var b := Delete(a, a.lru[0]);
      DeleteRefs(a, a.lru[0]);
      hide Refs, Delete;
      if |b.lru| < |a.lru| {
        MakeRoomRefs(b, weight, maxWeight);
      }
    }
  }

  lemma ReplaceRefs(a: Abs, e: nat)
    requires AbsInv(a) && e in a.recs && e !in a.tabled
    ensures forall f: nat :: Refs(Replace(a, e), f) == if f == e then Refs(a, e) + 1 else Refs(a, f)
  {
    var prior := Find(a, a.recs[e].key, a.tabled);
    if prior != 0 {
      DeleteRefs(a, prior);
    }
  }

  /** A successful insertion adds one to the count of the entry, a failed one leaves all counts alone. */
  lemma InsertRefs(a: Abs, e: nat, maxSize: nat, maxWeight: nat)
    requires AbsInv(a) && e in a.recs && e !in a.tabled
    ensures var (b, ok) := Insert(a, e, maxSize, maxWeight);
      forall f: nat :: Refs(b, f) == if ok && f == e then Refs(a, e) + 1 else Refs(a, f)
  {
    hide AbsInv, Refs, Replace, Delete;
    var w := a.recs[e].weight;
    var k := MakeRoomIsMinimal(a, w, maxWeight);
    EvictTakesPrefix(a, k);
    var b := MakeRoom(a, w, maxWeight);
    MakeRoomRefs(a, w, maxWeight);
    StaysOut(a, b, k, e);
    if b.lru != [] {
      EvictOne(b);
      HeadIsEntry(b);
      DeleteRefs(b, b.lru[0]);
      StaysOut(b, Delete(b, b.lru[0]), 1, e);
      ReplaceRefs(Delete(b, b.lru[0]), e);
    }
    ReplaceRefs(b, e);
  }

  lemma HeadIsEntry(a: Abs)
    requires AbsInv(a) && a.lru != []
    ensures a.lru[0] in a.recs
  {
    assert a.lru[0] in a.lru;
  }

  lemma StaysOut(a: Abs, b: Abs, n: nat, e: nat)
    requires AbsInv(a) && Evicted(a, b, n) && e in a.recs && e !in a.tabled
    ensures e in b.recs && e !in b.tabled
  {
    EvictedSpares(a, b, n, e);
  }

  lemma LookupRefs(a: Abs, key: int)
    ensures var (b, e) := Lookup(a, key);
      forall f: nat :: Refs(b, f) == if e != 0 && f == e then Refs(a, e) + 1 else Refs(a, f)
  {
  }

  lemma ReleaseRefs(a: Abs, e: nat)
    requires e in a.recs
    ensures forall f: nat :: Refs(Release(a, e), f) == if f == e && Refs(a, e) > 0 then Refs(a, e) - 1 else Refs(a, f)
  {
  }

  /** Every call keeps the counts equal to the holdings. */
  lemma ApplyTallies(a: Abs, h: Holdings, op: Op, maxSize: nat, maxWeight: nat)
    requires AbsInv(a) && Legal(a, op) && Tallied(a, h)
    ensures Tallied(Apply(a, op, maxSize, maxWeight), Count(h, op, ResultOf(a, op, maxSize, maxWeight)))
  {
    match op
    case DoCreate(_, _, _) =>
    case DoInsert(e) => InsertRefs(a, e, maxSize, maxWeight); hide AbsInv, Insert, Refs;
    case DoLookup(key) => LookupRefs(a, key); hide AbsInv, Lookup, Refs;
    case DoRelease(e) => ReleaseRefs(a, e); hide AbsInv, Release, Refs;
    case DoDelete(e) => DeleteRefs(a, e); hide AbsInv, Delete, Refs;
    case DoEmpty(order) => DeleteAllRefs(a, order); hide AbsInv, DeleteAll, Refs;
  }

  /** The holdings after a run. */
  function HoldingsAfter(a: Abs, h: Holdings, ops: seq<Op>, maxSize: nat, maxWeight: nat): Holdings
    decreases |ops|
  {
    if ops == [] then h
    else
      HoldingsAfter(Apply(a, ops[0], maxSize, maxWeight), Count(h, ops[0], ResultOf(a, ops[0], maxSize, maxWeight)),
                    ops[1..], maxSize, maxWeight)
  }

  lemma {:induction false} RunTallies(a: Abs, h: Holdings, ops: seq<Op>, maxSize: nat, maxWeight: nat)
    requires AbsInv(a) && Tallied(a, h) && LegalRun(a, ops, maxSize, maxWeight)
    ensures var b := After(a, ops, maxSize, maxWeight);
      AbsInv(b) && Tallied(b, HoldingsAfter(a, h, ops, maxSize, maxWeight))
    decreases |ops|
  {
    hide AbsInv, Tallied, Apply, Legal, Count, ResultOf;
    if ops != [] {
      ApplyKeeps(a, ops[0], maxSize, maxWeight);
      ApplyTallies(a, h, ops[0], maxSize, maxWeight);
      RunTallies(Apply(a, ops[0], maxSize, maxWeight), Count(h, ops[0], ResultOf(a, ops[0], maxSize, maxWeight)),
                 ops[1..], maxSize, maxWeight);
    }
  }

  /** After every run the reference count of a live entry is the number of its holdings, and an entry that is
      gone is not held. */
  lemma EveryRunIsTallied(ops: seq<Op>, maxSize: nat, maxWeight: nat)
    requires LegalRun(EMPTY, ops, maxSize, maxWeight)
    ensures var a, h := After(EMPTY, ops, maxSize, maxWeight), HoldingsAfter(EMPTY, map[], ops, maxSize, maxWeight);
      && AbsInv(a)
      && (forall e | e in a.recs :: a.recs[e].refs == HeldIn(h, e))
      && forall e: nat | HeldIn(h, e) > 0 :: e in a.recs
  {
    EmptyKeeps(0, 0);
    assert Tallied(EMPTY, map[]);
    hide AbsInv;
    RunTallies(EMPTY, map[], ops, maxSize, maxWeight);
    var a, h := After(EMPTY, ops, maxSize, maxWeight), HoldingsAfter(EMPTY, map[], ops, maxSize, maxWeight);
    assert forall e: nat :: Refs(a, e) == HeldIn(h, e);
  }

  /** After every run, no call cleans up an entry that somebody holds, except the release that ends the last
      holding of a condemned one. */
  lemma HeldIsSafe(ops: seq<Op>, op: Op, maxSize: nat, maxWeight: nat, e: nat)
    requires LegalRun(EMPTY, ops, maxSize, maxWeight)
    requires var a, h := After(EMPTY, ops, maxSize, maxWeight), HoldingsAfter(EMPTY, map[], ops, maxSize, maxWeight);
      Legal(a, op) && HeldIn(h, e) > 0
    ensures var a, h := After(EMPTY, ops, maxSize, maxWeight), HoldingsAfter(EMPTY, map[], ops, maxSize, maxWeight);
      var b := Apply(a, op, maxSize, maxWeight);
      && e in a.recs
      && if op == DoRelease(e) && HeldIn(h, e) == 1 && a.recs[e].pending then e !in b.recs && a.recs[e].serial in b.cleaned
         else e in b.recs && b.recs[e].serial == a.recs[e].serial && a.recs[e].serial !in b.cleaned
  {
    EveryRunIsTallied(ops, maxSize, maxWeight);
    var a := After(EMPTY, ops, maxSize, maxWeight);
    if op == DoRelease(e) && a.recs[e].refs == 1 && a.recs[e].pending {
      hide AbsInv, LegalRun, HoldingsAfter, After;
    } else {
      InUseIsSafe(a, op, maxSize, maxWeight, e);
      hide AbsInv, LegalRun, HoldingsAfter, After, Apply;
    }
  }

  /** A new entry has its key and weight, is not held, not condemned and not in the table. */
  lemma CreateEffect(a: Abs, h: Holdings, e: nat, key: int, weight: nat, maxSize: nat, maxWeight: nat)
    requires AbsInv(a) && Tallied(a, h) && Legal(a, DoCreate(e, key, weight))
    ensures var b := Apply(a, DoCreate(e, key, weight), maxSize, maxWeight);
      && e in b.recs && b == a.(recs := a.recs[e := b.recs[e]], born := a.born + 1)
      && b.recs[e].key == key && b.recs[e].weight == weight && b.recs[e].refs == 0 && !b.recs[e].pending
      && e !in b.tabled && b.recs[e].serial == a.born
  {
    assert e !in a.tabled;
    hide AbsInv;
  }

  /** A call to delete condemns an entry that is held, and cleans up one that is not. */
  lemma DeleteEffect(a: Abs, h: Holdings, e: nat, maxSize: nat, maxWeight: nat)
    requires AbsInv(a) && Tallied(a, h) && e in a.recs
    ensures var b := Apply(a, DoDelete(e), maxSize, maxWeight);
      if HeldIn(h, e) > 0 then b == a.(recs := a.recs[e := a.recs[e].(pending := true)])
      else
        && b.recs == a.recs - {e} && b.cleaned == a.cleaned + [a.recs[e].serial]
        && (forall f :: f in b.tabled <==> f in a.tabled && f != e) && (forall f :: f in b.lru <==> f in a.lru && f != e)
  {
    assert Refs(a, e) == HeldIn(h, e);
    assert e !in a.tabled ==> e !in a.lru;
    hide AbsInv;
  }
}
