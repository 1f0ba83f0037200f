/** What the LRU cache promises, as a bounded map: operations on a value that knows nothing about
    hash chains or links. */
module LruSpec {
  import opened Lists

  /** size_t arithmetic wraps around. */
  const W := 0x1_0000_0000_0000_0000

  /** An entry. The serial number and the stamp of its latest release are for the record only. */
  datatype Rec = Rec(key: int, weight: nat, refs: nat, pending: bool, serial: nat, stamp: nat)

  /** recs: every allocated entry, by address; tabled: those in the hash table, in order of insertion;
      lru: the unused ones, in order of release; born: how many were created; cleaned: the serial
      numbers of the cleanup calls. */
  datatype Abs = Abs(recs: map<nat, Rec>, tabled: seq<nat>, lru: seq<nat>, size: int, weight: nat,
                     clock: nat, born: nat, cleaned: seq<nat>)

  const EMPTY := Abs(map[], [], [], 0, 0, 0, 0, [])

  // ---------------------------------------------------------------- weights

  function WeightOf(recs: map<nat, Rec>, e: nat): nat {
    if e in recs then recs[e].weight else 0
  }

  function Sum(recs: map<nat, Rec>, s: seq<nat>): nat {
    if s == [] then 0 else WeightOf(recs, s[0]) + Sum(recs, s[1..])
  }

  lemma {:induction false} SumFrame(a: map<nat, Rec>, b: map<nat, Rec>, s: seq<nat>)
    requires forall e | e in s :: WeightOf(a, e) == WeightOf(b, e)
    ensures Sum(a, s) == Sum(b, s)
  {
    if s != [] {
      SumFrame(a, b, s[1..]);
    }
  }

  lemma {:induction false} SumConcat(recs: map<nat, Rec>, s: seq<nat>, t: seq<nat>)
    ensures Sum(recs, s + t) == Sum(recs, s) + Sum(recs, t)
  {
    if s == [] {
      assert s + t == t;
    } else {
      assert (s + t)[1..] == s[1..] + t;
      SumConcat(recs, s[1..], t);
    }
  }

  lemma {:induction false} SumWithout(recs: map<nat, Rec>, s: seq<nat>, e: nat)
    requires NoDup(s) && e in s
    ensures Sum(recs, Without(s, e)) == Sum(recs, s) - WeightOf(recs, e)
  {
    if s[0] == e {
      assert e !in s[1..];
      WithoutAbsent(s[1..], e);
    } else {
      SumWithout(recs, s[1..], e);
    }
  }

  // ---------------------------------------------------------------- operations

  function Create(a: Abs, e: nat, key: int, weight: nat): Abs {
    a.(recs := a.recs[e := Rec(key, weight, 0, false, a.born, 0)], born := a.born + 1)
  }

  /** An unreferenced entry is unlinked, cleaned up and freed. */
  function Drop(a: Abs, e: nat): Abs
    requires e in a.recs
  {
    var r := a.recs[e];
    var b := a.(recs := a.recs - {e}, cleaned := a.cleaned + [r.serial]);
    if e in a.tabled then
      b.(tabled := Without(a.tabled, e), lru := Without(a.lru, e), size := a.size - 1, weight := (a.weight - r.weight) % W)
    else b
  }

  function Delete(a: Abs, e: nat): Abs
    requires e in a.recs
  {
    if a.recs[e].refs > 0 then a.(recs := a.recs[e := a.recs[e].(pending := true)]) else Drop(a, e)
  }

  function Acquire(a: Abs, e: nat): Abs
    requires e in a.recs
  {
    var r := a.recs[e];
    a.(recs := a.recs[e := r.(refs := r.refs + 1)], lru := if r.refs == 0 then Without(a.lru, e) else a.lru)
  }

  function Release(a: Abs, e: nat): Abs
    requires e in a.recs
  {
    var r := a.recs[e];
    if r.refs == 0 then a
    else if r.refs > 1 then a.(recs := a.recs[e := r.(refs := r.refs - 1)])
    else if r.pending then Drop(a.(recs := a.recs[e := r.(refs := 0)], clock := a.clock + 1), e)
    else a.(recs := a.recs[e := r.(refs := 0, stamp := a.clock)], lru := a.lru + [e], clock := a.clock + 1)
  }

  /** The entry that a lookup may return: in the table, not condemned, under this key. */
  predicate Matches(a: Abs, key: int, e: nat) {
    e in a.tabled && e in a.recs && !a.recs[e].pending && a.recs[e].key == key
  }

  function Find(a: Abs, key: int, s: seq<nat>): (e: nat)
    ensures e != 0 ==> e in s && e in a.recs && !a.recs[e].pending && a.recs[e].key == key
  {
    if s == [] then 0
    else if s[0] != 0 && s[0] in a.recs && !a.recs[s[0]].pending && a.recs[s[0]].key == key then s[0]
    else Find(a, key, s[1..])
  }

  function Lookup(a: Abs, key: int): (Abs, nat) {
    var e := Find(a, key, a.tabled);
    (if e == 0 then a else Acquire(a, e), e)
  }

  /** The test for excess weight, in size_t arithmetic. */
  predicate Exceeds(current: nat, weight: nat, maxWeight: nat) {
    (current + weight) % W > maxWeight
  }

  predicate Over(a: Abs, weight: nat, maxWeight: nat) {
    Exceeds(a.weight, weight, maxWeight)
  }

  /** Evicts unused entries, least recently released first, until the weight fits or none is left. */
  function MakeRoom(a: Abs, weight: nat, maxWeight: nat): Abs
    decreases |a.lru|
  {
    if !Over(a, weight, maxWeight) || a.lru == [] || a.lru[0] !in a.recs then a
    else
      var b := Delete(a, a.lru[0]);
      if |b.lru| < |a.lru| then MakeRoom(b, weight, maxWeight) else a
  }

  function Link(a: Abs, e: nat): Abs
    requires e in a.recs
  {
    var r := a.recs[e];
    a.(recs := a.recs[e := r.(refs := r.refs + 1)], tabled := a.tabled + [e], size := a.size + 1,
       weight := (a.weight + r.weight) % W)
  }

  /** Replaces the entry under the same key, if there is one. */
  function Replace(a: Abs, e: nat): Abs
    requires e in a.recs
  {
    var prior := Find(a, a.recs[e].key, a.tabled);
    var b := if prior == 0 then a else Delete(a, prior);
    if e in b.recs then Link(b, e) else b
  }

  /** The second half of insertion: the size is checked once, and the entry linked in. */
  function Admit(b: Abs, e: nat, weight: nat, maxSize: nat, maxWeight: nat): (Abs, bool) {
    if Over(b, weight, maxWeight) then (b, false)
    else if b.size < maxSize then (if e in b.recs then Replace(b, e) else b, true)
    else if b.lru == [] || b.lru[0] !in b.recs then (b, false)
    else
      var c := Delete(b, b.lru[0]);
      (if e in c.recs then Replace(c, e) else c, true)
  }

  function Insert(a: Abs, e: nat, maxSize: nat, maxWeight: nat): (Abs, bool)
    requires e in a.recs
  {
    Admit(MakeRoom(a, a.recs[e].weight, maxWeight), e, a.recs[e].weight, maxSize, maxWeight)
  }

  /** Condemns or frees every entry of the table. */
  function DeleteAll(a: Abs, s: seq<nat>): Abs
    decreases |s|
  {
    if s == [] then a
    else DeleteAll(if s[0] in a.recs then Delete(a, s[0]) else a, s[1..])
  }

  // ---------------------------------------------------------------- the invariant

  ghost predicate TableOk(a: Abs) {
    && 0 !in a.recs && NoDup(a.tabled)
    && (forall e | e in a.tabled :: e in a.recs)
    && (forall e | e in a.recs && a.recs[e].refs == 0 :: !a.recs[e].pending)
    && (forall e | e in a.recs && e !in a.tabled :: a.recs[e].refs == 0)
  }

  /** The LRU list is exactly the unused entries of the table, in order of release. */
  ghost predicate LruOk(a: Abs) {
    && (forall e :: e in a.lru <==> e in a.tabled && e in a.recs && a.recs[e].refs == 0)
    && (forall e | e in a.lru && e in a.recs :: a.recs[e].stamp < a.clock)
    && InReleaseOrder(a.recs, a.lru)
  }

  function Stamp(recs: map<nat, Rec>, e: nat): nat {
    if e in recs then recs[e].stamp else 0
  }

  /** Every entry was released before those behind it. */
  predicate InReleaseOrder(recs: map<nat, Rec>, s: seq<nat>) {
    s == [] || ((forall f | f in s[1..] :: Stamp(recs, s[0]) < Stamp(recs, f)) && InReleaseOrder(recs, s[1..]))
  }

  lemma {:induction false} ReleaseOrderAt(recs: map<nat, Rec>, s: seq<nat>, i: nat, j: nat)
    requires InReleaseOrder(recs, s) && i < j < |s|
    ensures Stamp(recs, s[i]) < Stamp(recs, s[j])
  {
    if i == 0 {
      assert s[j] == s[1..][j - 1];
    } else {
      ReleaseOrderAt(recs, s[1..], i - 1, j - 1);
    }
  }

  lemma {:induction false} ReleaseOrderFrame(a: map<nat, Rec>, b: map<nat, Rec>, s: seq<nat>)
    requires InReleaseOrder(a, s) && forall e | e in s :: Stamp(a, e) == Stamp(b, e)
    ensures InReleaseOrder(b, s)
  {
    if s != [] {
      ReleaseOrderFrame(a, b, s[1..]);
    }
  }

  lemma {:induction false} ReleaseOrderWithout(recs: map<nat, Rec>, s: seq<nat>, e: nat)
    requires InReleaseOrder(recs, s)
    ensures InReleaseOrder(recs, Without(s, e))
  {
    if s != [] {
      ReleaseOrderWithout(recs, s[1..], e);
      var w := [s[0]] + Without(s[1..], e);
      assert w[1..] == Without(s[1..], e);
    }
  }

  lemma {:induction false} ReleaseOrderAppend(recs: map<nat, Rec>, s: seq<nat>, e: nat)
    requires InReleaseOrder(recs, s) && forall f | f in s :: Stamp(recs, f) < Stamp(recs, e)
    ensures InReleaseOrder(recs, s + [e])
  {
    if s == [] {
      assert ([] + [e])[1..] == [];
    } else {
      assert (s + [e])[1..] == s[1..] + [e];
      ReleaseOrderAppend(recs, s[1..], e);
    }
  }

  /** At most one entry per key can be found. */
  ghost predicate Unique(a: Abs) {
    forall e, f | e in a.tabled && f in a.tabled && e in a.recs && f in a.recs && !a.recs[e].pending && !a.recs[f].pending
      && a.recs[e].key == a.recs[f].key :: e == f
  }

  /** Every entry ever created is either alive or was cleaned up exactly once. */
  ghost predicate Accounted(a: Abs) {
    && NoDup(a.cleaned)
    && (forall e | e in a.recs :: a.recs[e].serial < a.born && a.recs[e].serial !in a.cleaned)
    && (forall e, f | e in a.recs && f in a.recs && e != f :: a.recs[e].serial != a.recs[f].serial)
    && (forall t | t in a.cleaned :: t < a.born)
    && (forall t: nat | t < a.born :: Settled(a.recs, a.cleaned, t))
  }

  /** Entry t is alive or was cleaned up. */
  ghost predicate Settled(recs: map<nat, Rec>, cleaned: seq<nat>, t: nat) {
    t in cleaned || exists e :: e in recs && recs[e].serial == t
  }

  ghost predicate AbsInv(a: Abs) {
    TableOk(a) && LruOk(a) && Unique(a) && Accounted(a) && a.size == |a.tabled| && a.weight == Sum(a.recs, a.tabled) % W
  }

  /** The limits are respected, and the recorded weight is the true one. */
  ghost predicate Within(a: Abs, maxSize: nat, maxWeight: nat) {
    a.size <= maxSize && a.weight == Sum(a.recs, a.tabled) <= maxWeight < W
  }

  // ---------------------------------------------------------------- every operation keeps it

  lemma CreateKeeps(a: Abs, e: nat, key: int, weight: nat)
    requires AbsInv(a) && e != 0 && e !in a.recs
    ensures AbsInv(Create(a, e, key, weight))
  {
    var b := Create(a, e, key, weight);
    CreateAccounts(a, e, key, weight);
    SumFrame(a.recs, b.recs, a.tabled);
    ReleaseOrderFrame(a.recs, b.recs, a.lru);
  }

  lemma CreateAccounts(a: Abs, e: nat, key: int, weight: nat)
    requires Accounted(a) && e !in a.recs
    ensures Accounted(Create(a, e, key, weight))
  {
    var b := Create(a, e, key, weight);
    assert b.recs[e].serial == a.born;
    forall t: nat | t < b.born
      ensures Settled(b.recs, b.cleaned, t)
    {
      if t < a.born {
        assert Settled(a.recs, a.cleaned, t);
        if t !in b.cleaned {
          var f :| f in a.recs && a.recs[f].serial == t;
          assert f in b.recs && b.recs[f].serial == t;
        }
      }
    }
  }

  /** Dropping the record of an unreferenced entry. */
  lemma DropAccounts(a: Abs, e: nat)
    requires Accounted(a) && e in a.recs
    ensures Accounted(Drop(a, e))
  {
    var b := Drop(a, e);
    forall t: nat | t < b.born
      ensures Settled(b.recs, b.cleaned, t)
    {
      assert Settled(a.recs, a.cleaned, t);
      if t !in b.cleaned {
        assert a.recs[e].serial in b.cleaned;
        var f :| f in a.recs && a.recs[f].serial == t;
        assert f in b.recs;
      }
    }
  }

  lemma DropTable(a: Abs, e: nat)
    requires TableOk(a) && Unique(a) && e in a.recs
    ensures TableOk(Drop(a, e)) && Unique(Drop(a, e))
  {
    WithoutNoDup(a.tabled, e);
  }

  lemma DropLru(a: Abs, e: nat)
    requires TableOk(a) && LruOk(a) && e in a.recs
    ensures LruOk(Drop(a, e))
  {
    var b := Drop(a, e);
    ReleaseOrderWithout(a.recs, a.lru, e);
    ReleaseOrderFrame(a.recs, b.recs, Without(a.lru, e));
    if e !in a.tabled {
      WithoutAbsent(a.lru, e);
    }
  }

  lemma SubMod(x: int, y: int)
    ensures (x % W - y) % W == (x - y) % W
  {
  }

  lemma AddMod(x: int, y: int)
    ensures (x % W + y) % W == (x + y) % W
  {
  }

  lemma DropSizes(a: Abs, e: nat)
    requires NoDup(a.tabled) && e in a.recs && a.size == |a.tabled| && a.weight == Sum(a.recs, a.tabled) % W
    ensures var b := Drop(a, e); b.size == |b.tabled| && b.weight == Sum(b.recs, b.tabled) % W
    ensures Sum(Drop(a, e).recs, Drop(a, e).tabled) ==
      Sum(a.recs, a.tabled) - if e in a.tabled then a.recs[e].weight else 0
  {
    var b := Drop(a, e);
    SumFrame(a.recs, b.recs, b.tabled);
    if e in a.tabled {
      WithoutNoDup(a.tabled, e);
      SumWithout(a.recs, a.tabled, e);
      SubMod(Sum(a.recs, a.tabled), a.recs[e].weight);
    }
  }

  lemma DropKeeps(a: Abs, e: nat)
    requires AbsInv(a) && e in a.recs
    ensures AbsInv(Drop(a, e))
  {
    DropAccounts(a, e);
    DropTable(a, e);
    DropLru(a, e);
    DropSizes(a, e);
  }

  /** Changing the use of one entry and nothing else. */
  predicate SameButUse(r: Rec, q: Rec) {
    r.key == q.key && r.weight == q.weight && r.serial == q.serial
  }

  lemma UseAccounts(a: Abs, b: Abs, e: nat, r: Rec)
    requires Accounted(a) && e in a.recs && SameButUse(a.recs[e], r)
    requires b.recs == a.recs[e := r] && b.born == a.born && b.cleaned == a.cleaned
    ensures Accounted(b)
  {
    forall t: nat | t < b.born
      ensures Settled(b.recs, b.cleaned, t)
    {
      assert Settled(a.recs, a.cleaned, t);
      if t !in b.cleaned {
        var f :| f in a.recs && a.recs[f].serial == t;
        assert f in b.recs && b.recs[f].serial == t;
      }
    }
  }

  lemma UseSizes(a: Abs, e: nat, r: Rec)
    requires e in a.recs && SameButUse(a.recs[e], r)
    ensures Sum(a.recs[e := r], a.tabled) == Sum(a.recs, a.tabled)
  {
    SumFrame(a.recs, a.recs[e := r], a.tabled);
  }

  lemma UseTable(a: Abs, b: Abs, e: nat, r: Rec)
    requires TableOk(a) && Unique(a) && e in a.recs && SameButUse(a.recs[e], r)
    requires b.recs == a.recs[e := r] && b.tabled == a.tabled
    requires (r.refs == 0 ==> !r.pending) && (e !in a.tabled ==> r.refs == 0) && (a.recs[e].pending ==> r.pending)
    ensures TableOk(b) && Unique(b)
  {
  }

  /** Use that does not begin or end. */
  lemma UseLru(a: Abs, b: Abs, e: nat, r: Rec)
    requires LruOk(a) && e in a.recs && (r.refs == 0 <==> a.recs[e].refs == 0) && r.stamp == a.recs[e].stamp
    requires b.recs == a.recs[e := r] && b.tabled == a.tabled && b.lru == a.lru && b.clock == a.clock
    ensures LruOk(b)
  {
    ReleaseOrderFrame(a.recs, b.recs, a.lru);
  }

  lemma DeleteKeeps(a: Abs, e: nat)
    requires AbsInv(a) && e in a.recs
    ensures AbsInv(Delete(a, e))
  {
    if a.recs[e].refs > 0 {
      var r := a.recs[e].(pending := true);
      UseKeeps(a, Delete(a, e), e, r);
    } else {
      DropKeeps(a, e);
    }
  }

  lemma UseKeeps(a: Abs, b: Abs, e: nat, r: Rec)
    requires AbsInv(a) && e in a.recs && r.refs > 0 && a.recs[e].refs > 0
    requires b == a.(recs := a.recs[e := r])
    requires SameButUse(a.recs[e], r) && (a.recs[e].pending ==> r.pending) && r.stamp == a.recs[e].stamp
    ensures AbsInv(b)
  {
    UseAccounts(a, b, e, r);
    UseSizes(a, e, r);
    UseTable(a, b, e, r);
    UseLru(a, b, e, r);
  }

  lemma AcquireKeeps(a: Abs, e: nat)
    requires AbsInv(a) && e in a.tabled
    ensures AbsInv(Acquire(a, e))
  {
    var r := a.recs[e].(refs := a.recs[e].refs + 1);
    if a.recs[e].refs > 0 {
      UseKeeps(a, Acquire(a, e), e, r);
    } else {
      UseAccounts(a, Acquire(a, e), e, r);
      UseSizes(a, e, r);
      UseTable(a, Acquire(a, e), e, r);
      UseBegins(a, e);
    }
  }

  lemma UseBegins(a: Abs, e: nat)
    requires LruOk(a) && e in a.recs && a.recs[e].refs == 0
    ensures LruOk(Acquire(a, e))
  {
    var b := Acquire(a, e);
    ReleaseOrderWithout(a.recs, a.lru, e);
    ReleaseOrderFrame(a.recs, b.recs, b.lru);
  }

  lemma ReleaseKeeps(a: Abs, e: nat)
    requires AbsInv(a) && e in a.recs
    ensures AbsInv(Release(a, e))
  {
    var r := a.recs[e];
    if r.refs == 1 {
      if r.pending {
        CondemnedKeeps(a, e);
      } else {
        UnusedKeeps(a, e);
      }
    } else if r.refs > 1 {
      UseKeeps(a, Release(a, e), e, r.(refs := r.refs - 1));
    }
  }

  lemma UnusedKeeps(a: Abs, e: nat)
    requires AbsInv(a) && e in a.recs && a.recs[e].refs == 1 && !a.recs[e].pending
    ensures AbsInv(Release(a, e))
  {
    var r := a.recs[e].(refs := 0, stamp := a.clock);
    UseAccounts(a, Release(a, e), e, r);
    UseSizes(a, e, r);
    UseTable(a, Release(a, e), e, r);
    UseEnds(a, e);
  }

  lemma UseEnds(a: Abs, e: nat)
    requires LruOk(a) && e in a.recs && e in a.tabled && a.recs[e].refs == 1 && !a.recs[e].pending
    ensures LruOk(Release(a, e))
  {
    var b := Release(a, e);
    ReleaseOrderFrame(a.recs, b.recs, a.lru);
    ReleaseOrderAppend(b.recs, a.lru, e);
  }

  /** The last release of a condemned entry frees it. */
  lemma CondemnedKeeps(a: Abs, e: nat)
    requires AbsInv(a) && e in a.recs && a.recs[e].refs == 1 && a.recs[e].pending
    ensures AbsInv(Release(a, e))
  {
    var r := a.recs[e].(refs := 0);
    var m := a.(recs := a.recs[e := r], clock := a.clock + 1);
    assert Accounted(Release(a, e)) by {
      UseAccounts(a, m, e, r);
      DropAccounts(m, e);
    }
    CondemnedSizes(a, e);
    CondemnedTable(a, e);
    CondemnedLru(a, e);
  }

  lemma CondemnedSizes(a: Abs, e: nat)
    requires NoDup(a.tabled) && e in a.recs && a.recs[e].refs == 1 && a.recs[e].pending
    requires a.size == |a.tabled| && a.weight == Sum(a.recs, a.tabled) % W
    ensures var b := Release(a, e); b.size == |b.tabled| && b.weight == Sum(b.recs, b.tabled) % W
  {
    var r := a.recs[e].(refs := 0);
    UseSizes(a, e, r);
    DropSizes(a.(recs := a.recs[e := r], clock := a.clock + 1), e);
  }

  lemma CondemnedTable(a: Abs, e: nat)
    requires TableOk(a) && Unique(a) && e in a.recs && a.recs[e].refs == 1 && a.recs[e].pending
    ensures TableOk(Release(a, e)) && Unique(Release(a, e))
  {
    WithoutNoDup(a.tabled, e);
  }

  lemma CondemnedLru(a: Abs, e: nat)
    requires LruOk(a) && e in a.recs && a.recs[e].refs == 1 && a.recs[e].pending
    ensures LruOk(Release(a, e))
  {
    WithoutAbsent(a.lru, e);
    var b := Release(a, e);
    ReleaseOrderFrame(a.recs, b.recs, a.lru);
  }

  lemma {:induction false} FindIsComplete(a: Abs, key: int, s: seq<nat>)
    requires forall e | e in s :: e in a.recs && e != 0
    ensures Find(a, key, s) == 0 ==> forall e | e in s :: a.recs[e].pending || a.recs[e].key != key
  {
    if s != [] {
      assert s[0] in s;
      FindIsComplete(a, key, s[1..]);
    }
  }

  /** A lookup returns the one entry that can be found under the key, if there is one; that entry is used
      once more, and is not on the list of unused ones. */
  lemma LookupFinds(a: Abs, key: int)
    requires AbsInv(a)
    ensures var (b, e) := Lookup(a, key);
      if e == 0 then b == a && forall f :: !Matches(a, key, f)
      else
        && Matches(a, key, e) && (forall f | Matches(a, key, f) :: f == e)
        && b == a.(recs := a.recs[e := a.recs[e].(refs := a.recs[e].refs + 1)], lru := b.lru)
        && forall f :: f in b.lru <==> f in a.lru && f != e
  {
    FindIsComplete(a, key, a.tabled);
  }

  lemma LookupKeeps(a: Abs, key: int)
    requires AbsInv(a)
    ensures AbsInv(Lookup(a, key).0)
  {
    var e := Find(a, key, a.tabled);
    if e != 0 {
      AcquireKeeps(a, e);
    }
  }

  lemma LinkKeeps(a: Abs, e: nat)
    requires AbsInv(a) && e in a.recs && e !in a.tabled
    requires forall f | f in a.tabled :: a.recs[f].pending || a.recs[f].key != a.recs[e].key
    ensures AbsInv(Link(a, e))
    ensures Sum(Link(a, e).recs, Link(a, e).tabled) == Sum(a.recs, a.tabled) + a.recs[e].weight
  {
    var r := a.recs[e].(refs := a.recs[e].refs + 1);
    UseAccounts(a, Link(a, e), e, r);
    LinkSizes(a, e);
    LinkTable(a, e);
    LinkLru(a, e);
  }

  lemma LinkSizes(a: Abs, e: nat)
    requires e in a.recs && a.weight == Sum(a.recs, a.tabled) % W
    ensures var b := Link(a, e);
      && Sum(b.recs, b.tabled) == Sum(a.recs, a.tabled) + a.recs[e].weight
      && b.weight == Sum(b.recs, b.tabled) % W
  {
    var b := Link(a, e);
    SumFrame(a.recs, b.recs, a.tabled);
    SumConcat(b.recs, a.tabled, [e]);
    assert [e][1..] == [];
    assert Sum(b.recs, [e]) == WeightOf(b.recs, e) + Sum(b.recs, []);
    AddMod(Sum(a.recs, a.tabled), a.recs[e].weight);
  }

  lemma LinkTable(a: Abs, e: nat)
    requires TableOk(a) && Unique(a) && e in a.recs && e !in a.tabled
    requires forall f | f in a.tabled :: a.recs[f].pending || a.recs[f].key != a.recs[e].key
    ensures TableOk(Link(a, e)) && Unique(Link(a, e))
  {
  }

  lemma LinkLru(a: Abs, e: nat)
    requires LruOk(a) && e in a.recs && e !in a.tabled
    ensures LruOk(Link(a, e))
  {
    var b := Link(a, e);
    ReleaseOrderFrame(a.recs, b.recs, a.lru);
  }

  // ---------------------------------------------------------------- insertion

  /** What the entries in use weigh, and how many they are. */
  function InUseWeight(a: Abs): int {
    Sum(a.recs, a.tabled) - Sum(a.recs, a.lru)
  }

  function InUseCount(a: Abs): int {
    |a.tabled| - |a.lru|
  }

  /** State b is a without the first n entries of its LRU list. */
  ghost predicate Evicted(a: Abs, b: Abs, n: nat) {
    && n <= |a.lru| && b.lru == a.lru[n..] && b.size == a.size - n
    && InUseWeight(b) == InUseWeight(a) && InUseCount(b) == InUseCount(a)
    && Sum(b.recs, b.tabled) <= Sum(a.recs, a.tabled)
    && forall f: nat :: EvictedAt(a, b, n, f)
  }

  ghost predicate EvictedAt(a: Abs, b: Abs, n: nat, f: nat)
    requires n <= |a.lru|
  {
    && (f in b.recs <==> f in a.recs && f !in a.lru[..n])
    && (f in b.recs && f in a.recs ==> b.recs[f] == a.recs[f])
    && (f in b.tabled <==> f in a.tabled && f !in a.lru[..n])
  }

  lemma EvictedMore(a: Abs, b: Abs, c: Abs, n: nat)
    requires a.lru != [] && Evicted(a, b, 1) && Evicted(b, c, n)
    ensures Evicted(a, c, n + 1)
  {
    assert a.lru[..n + 1] == a.lru[..1] + b.lru[..n];
    var m := n + 1;
    forall f: nat
      ensures EvictedAt(a, c, m, f)
    {
      assert EvictedAt(a, b, 1, f) && EvictedAt(b, c, n, f);
    }
  }

  /** Evicting the least recently released entry. */
  lemma EvictOne(a: Abs)
    requires AbsInv(a) && a.lru != []
    ensures a.lru[0] in a.recs && AbsInv(Delete(a, a.lru[0])) && Evicted(a, Delete(a, a.lru[0]), 1)
  {
    var e := a.lru[0];
    assert e in a.lru;
    DeleteKeeps(a, e);
    EvictOneIsPrefix(a);
  }

  lemma EvictOneIsPrefix(a: Abs)
    requires TableOk(a) && LruOk(a) && a.lru != [] && a.lru[0] in a.recs && a.recs[a.lru[0]].refs == 0
    requires a.size == |a.tabled| && a.weight == Sum(a.recs, a.tabled) % W
    ensures Evicted(a, Delete(a, a.lru[0]), 1)
  {
    var e := a.lru[0];
    assert e in a.lru;
    assert e !in a.lru[1..];
    EvictOneElements(a, e);
    EvictOneSums(a, e);
  }

  lemma EvictOneElements(a: Abs, e: nat)
    requires a.lru != [] && e == a.lru[0] && e !in a.lru[1..] && e in a.recs && e in a.tabled && a.recs[e].refs == 0
    ensures var b := Delete(a, e); b.lru == a.lru[1..] && forall f: nat :: EvictedAt(a, b, 1, f)
  {
    WithoutAbsent(a.lru[1..], e);
    var b := Delete(a, e);
    assert forall f: nat :: EvictedAt(a, b, 1, f);
  }

  lemma EvictOneSums(a: Abs, e: nat)
    requires a.lru != [] && e == a.lru[0] && e !in a.lru[1..] && e in a.recs && e in a.tabled && a.recs[e].refs == 0
    requires NoDup(a.tabled) && a.size == |a.tabled| && a.weight == Sum(a.recs, a.tabled) % W
    ensures var b := Delete(a, e);
      && b.size == a.size - 1 && Sum(b.recs, b.tabled) <= Sum(a.recs, a.tabled)
      && InUseWeight(b) == InUseWeight(a) && InUseCount(b) == InUseCount(a)
  {
    WithoutAbsent(a.lru[1..], e);
    WithoutNoDup(a.tabled, e);
    DropSizes(a, e);
    SumFrame(a.recs, a.recs - {e}, a.lru[1..]);
  }

  /** The state after evicting the first k entries of the LRU list. */
  function EvictN(a: Abs, k: nat): Abs
    decreases k
  {
    if k == 0 || a.lru == [] || a.lru[0] !in a.recs then a else EvictN(Delete(a, a.lru[0]), k - 1)
  }

  /** Eviction takes entries from the front of the LRU list and nothing else. */
  lemma {:induction false} EvictTakesPrefix(a: Abs, k: nat)
    requires AbsInv(a) && k <= |a.lru|
    ensures AbsInv(EvictN(a, k)) && Evicted(a, EvictN(a, k), k)
    decreases k
  {
    hide AbsInv, Evicted;
    if k == 0 {
      EvictedNone(a);
    } else {
      EvictOne(a);
      EvictNUnfold(a, k);
      var b := Delete(a, a.lru[0]);
      EvictTakesPrefix(b, k - 1);
      EvictedMore(a, b, EvictN(b, k - 1), k - 1);
    }
  }

  lemma EvictedNone(a: Abs)
    ensures EvictN(a, 0) == a && Evicted(a, a, 0)
  {
    assert forall f: nat :: EvictedAt(a, a, 0, f);
  }

  lemma EvictNUnfold(a: Abs, k: nat)
    requires k > 0 && a.lru != [] && a.lru[0] in a.recs
    ensures EvictN(a, k) == EvictN(Delete(a, a.lru[0]), k - 1)
  {
  }

  /** The first k evictions were all necessary. */
  ghost predicate Needed(a: Abs, k: nat, weight: nat, maxWeight: nat) {
    forall j: nat | j < k :: Over(EvictN(a, j), weight, maxWeight)
  }

  lemma NeededMore(a: Abs, k: nat, weight: nat, maxWeight: nat)
    requires a.lru != [] && a.lru[0] in a.recs && Over(a, weight, maxWeight)
    requires Needed(Delete(a, a.lru[0]), k, weight, maxWeight)
    ensures Needed(a, k + 1, weight, maxWeight)
  {
    forall j: nat | j < k + 1
      ensures Over(EvictN(a, j), weight, maxWeight)
    {
      if j > 0 {
        EvictNUnfold(a, j);
      }
    }
  }

  /** Making room evicts as few entries as possible, in order of release. */
  lemma {:induction false} MakeRoomIsMinimal(a: Abs, weight: nat, maxWeight: nat) returns (k: nat)
    requires AbsInv(a)
    ensures k <= |a.lru| && MakeRoom(a, weight, maxWeight) == EvictN(a, k)
    ensures Needed(a, k, weight, maxWeight)
    ensures k < |a.lru| ==> !Over(EvictN(a, k), weight, maxWeight)
    decreases |a.lru|
  {
    if !Over(a, weight, maxWeight) || a.lru == [] {
      k := 0;
    } else {
      EvictOne(a);
      var b := Delete(a, a.lru[0]);
      var m := MakeRoomIsMinimal(b, weight, maxWeight);
      k := m + 1;
      NeededMore(a, m, weight, maxWeight);
      EvictNUnfold(a, k);
    }
  }

  lemma ReplaceKeeps(a: Abs, e: nat)
    requires AbsInv(a) && e in a.recs && e !in a.tabled
    ensures AbsInv(Replace(a, e)) && Inserted(a, e, Replace(a, e), true) && Replace(a, e).size <= a.size + 1
  {
    var key := a.recs[e].key;
    var prior := Find(a, key, a.tabled);
    FindIsComplete(a, key, a.tabled);
    if prior == 0 {
      LinkKeeps(a, e);
    } else {
      DeleteKeeps(a, prior);
      NothingUnder(a, key, prior);
      LinkKeeps(Delete(a, prior), e);
    }
  }

  /** Once the entry found under a key is deleted or condemned, none is found. */
  lemma NothingUnder(a: Abs, key: int, e: nat)
    requires TableOk(a) && Unique(a) && Matches(a, key, e)
    ensures var b := Delete(a, e); forall f | f in b.tabled && f in b.recs :: b.recs[f].pending || b.recs[f].key != key
  {
  }

  /** What an attempt to insert entry e has done to the state a, up to its result. */
  ghost predicate Inserted(a: Abs, e: nat, b: Abs, ok: bool)
    requires e in a.recs
  {
    && e in b.recs
    && (if ok then Matches(b, a.recs[e].key, e) && b.recs[e].refs == 1 && b.recs[e].weight == a.recs[e].weight
        else e !in b.tabled && b.recs[e] == a.recs[e])
    && (forall f | f in a.recs && a.recs[f].refs > 0 :: f in b.recs)
  }

  /** Insertion keeps the invariant, makes the entry the one found under its key, and never frees an
      entry in use. When it fails the entry is still the caller's. */
  lemma InsertKeeps(a: Abs, e: nat, maxSize: nat, maxWeight: nat)
    requires AbsInv(a) && e in a.recs && e !in a.tabled
    ensures var (b, ok) := Insert(a, e, maxSize, maxWeight);
      AbsInv(b) && Inserted(a, e, b, ok) && (a.size <= maxSize ==> b.size <= maxSize)
  {
    var k := MakeRoomIsMinimal(a, a.recs[e].weight, maxWeight);
    EvictTakesPrefix(a, k);
    var b := EvictN(a, k);
    EvictedSpares(a, b, k, e);
    if Over(b, a.recs[e].weight, maxWeight) {
    } else if b.size < maxSize {
      ReplaceKeeps(b, e);
    } else if b.lru != [] {
      EvictOne(b);
      var c := Delete(b, b.lru[0]);
      EvictedSpares(b, c, 1, e);
      ReplaceKeeps(c, e);
    }
  }

  lemma EvictedSpares(a: Abs, b: Abs, n: nat, e: nat)
    requires LruOk(a) && Evicted(a, b, n) && e in a.recs && e !in a.tabled
    ensures e in b.recs && b.recs[e] == a.recs[e] && e !in b.tabled
    ensures forall f | f in a.recs && a.recs[f].refs > 0 :: f in b.recs && b.recs[f] == a.recs[f]
  {
    assert EvictedAt(a, b, n, e);
    forall f | f in a.recs && a.recs[f].refs > 0
      ensures f in b.recs && b.recs[f] == a.recs[f]
    {
      assert EvictedAt(a, b, n, f);
    }
  }

  // ---------------------------------------------------------------- the limits

  /** Without wrap-around the recorded weight stays the true one while room is made. */
  lemma EvictedWithin(a: Abs, b: Abs, k: nat, maxSize: nat, maxWeight: nat)
    requires Within(a, maxSize, maxWeight) && Evicted(a, b, k) && b.weight == Sum(b.recs, b.tabled) % W
    ensures Within(b, maxSize, maxWeight) && b.weight <= a.weight
  {
  }

  /** What deleting e takes off the weight of the table: nothing while e is in use. */
  function Freed(a: Abs, e: nat): nat {
    if e in a.recs && e in a.tabled && a.recs[e].refs == 0 then a.recs[e].weight else 0
  }

  lemma ReplaceSum(a: Abs, e: nat)
    requires AbsInv(a) && e in a.recs && e !in a.tabled
    ensures var b := Replace(a, e);
      Sum(b.recs, b.tabled) == Sum(a.recs, a.tabled) - Freed(a, Find(a, a.recs[e].key, a.tabled)) + a.recs[e].weight
  {
    var key := a.recs[e].key;
    var prior := Find(a, key, a.tabled);
    if prior == 0 {
      LinkSizes(a, e);
    } else {
      var b := Delete(a, prior);
      DeleteSum(a, prior);
      DeleteKeeps(a, prior);
      LinkSizes(b, e);
    }
  }

  lemma DeleteSum(a: Abs, e: nat)
    requires AbsInv(a) && e in a.recs
    ensures var b := Delete(a, e); Sum(b.recs, b.tabled) == Sum(a.recs, a.tabled) - Freed(a, e)
  {
    if a.recs[e].refs > 0 {
      UseSizes(a, e, a.recs[e].(pending := true));
    } else {
      DropSizes(a, e);
    }
  }

  /** The state b from which insertion of e goes on after making room in a. */
  ghost predicate RoomMade(a: Abs, e: nat, b: Abs, maxSize: nat, maxWeight: nat)
    requires e in a.recs
  {
    && b == MakeRoom(a, a.recs[e].weight, maxWeight)
    && e in b.recs && b.recs[e] == a.recs[e] && e !in b.tabled
    && Within(b, maxSize, maxWeight) && b.weight <= a.weight
    && InUseWeight(b) == InUseWeight(a) && InUseCount(b) == InUseCount(a)
    && (Over(b, a.recs[e].weight, maxWeight) ==> b.lru == [])
    && (b.lru != [] ==> b.lru[0] in b.recs)
  }

  lemma MakesRoom(a: Abs, e: nat, maxSize: nat, maxWeight: nat) returns (b: Abs)
    requires AbsInv(a) && Within(a, maxSize, maxWeight) && e in a.recs && e !in a.tabled
    ensures AbsInv(b) && RoomMade(a, e, b, maxSize, maxWeight)
  {
    var k := MakeRoomIsMinimal(a, a.recs[e].weight, maxWeight);
    EvictTakesPrefix(a, k);
    b := EvictN(a, k);
    EvictedSpares(a, b, k, e);
    EvictedWithin(a, b, k, maxSize, maxWeight);
    if b.lru != [] {
      assert b.lru[0] in b.lru;
    }
  }

  /** How insertion decides, once room has been made. */
  lemma InsertDecides(a: Abs, e: nat, b: Abs, maxSize: nat, maxWeight: nat)
    requires e in a.recs && RoomMade(a, e, b, maxSize, maxWeight)
    ensures var (c, ok) := Insert(a, e, maxSize, maxWeight);
      && ok == !(Over(b, a.recs[e].weight, maxWeight) || (b.size >= maxSize && b.lru == []))
      && c == (
        if !ok then b
        else if b.size < maxSize then Replace(b, e)
        else
          var d := Delete(b, b.lru[0]);
          if e in d.recs then Replace(d, e) else d)
  {
  }

  /** If the weights do not wrap around, insertion respects both limits. */
  lemma InsertRespectsLimits(a: Abs, e: nat, maxSize: nat, maxWeight: nat)
    requires AbsInv(a) && Within(a, maxSize, maxWeight) && e in a.recs && e !in a.tabled
    requires a.weight + a.recs[e].weight < W
    ensures Within(Insert(a, e, maxSize, maxWeight).0, maxSize, maxWeight)
  {
    hide AbsInv, Within;
    var b := MakesRoom(a, e, maxSize, maxWeight);
    InsertDecides(a, e, b, maxSize, maxWeight);
    if Insert(a, e, maxSize, maxWeight).1 {
      if b.size < maxSize {
        ReplaceWithin(b, e, maxSize, maxWeight);
      } else {
        EvictThenReplaceWithin(b, e, maxSize, maxWeight);
      }
    }
  }

  lemma EvictThenReplaceWithin(b: Abs, e: nat, maxSize: nat, maxWeight: nat)
    requires AbsInv(b) && Within(b, maxSize, maxWeight) && e in b.recs && e !in b.tabled && b.lru != []
    requires b.weight + b.recs[e].weight <= maxWeight
    ensures b.lru[0] in b.recs
    ensures var c := Delete(b, b.lru[0]); e in c.recs && Within(Replace(c, e), maxSize, maxWeight)
  {
    EvictOne(b);
    var c := Delete(b, b.lru[0]);
    EvictedSpares(b, c, 1, e);
    EvictedWithin(b, c, 1, maxSize, maxWeight);
    ReplaceWithin(c, e, maxSize, maxWeight);
  }

  lemma ReplaceWithin(a: Abs, e: nat, maxSize: nat, maxWeight: nat)
    requires AbsInv(a) && Within(a, maxSize, maxWeight) && e in a.recs && e !in a.tabled
    requires a.size < maxSize && a.weight + a.recs[e].weight <= maxWeight
    ensures Within(Replace(a, e), maxSize, maxWeight)
  {
    var b := Replace(a, e);
    assert b.size <= maxSize && b.weight == Sum(b.recs, b.tabled) % W by {
      ReplaceKeeps(a, e);
    }
    assert Sum(b.recs, b.tabled) <= maxWeight by {
      ReplaceSum(a, e);
    }
    SumFits(b, maxSize, maxWeight);
  }

  lemma SumFits(b: Abs, maxSize: nat, maxWeight: nat)
    requires b.weight == Sum(b.recs, b.tabled) % W && Sum(b.recs, b.tabled) <= maxWeight < W && b.size <= maxSize
    ensures Within(b, maxSize, maxWeight)
  {
  }

  /** Insertion fails exactly if the entries in use leave no room, in weight or in number. */
  lemma InsertFailsWhen(a: Abs, e: nat, maxSize: nat, maxWeight: nat)
    requires AbsInv(a) && Within(a, maxSize, maxWeight) && e in a.recs && e !in a.tabled
    requires a.weight + a.recs[e].weight < W
    ensures !Insert(a, e, maxSize, maxWeight).1 <==>
      InUseWeight(a) + a.recs[e].weight > maxWeight || InUseCount(a) >= maxSize
  {
    var b := MakesRoom(a, e, maxSize, maxWeight);
    InsertDecides(a, e, b, maxSize, maxWeight);
    LruWeighsLess(b);
    Verdict(b, a.recs[e].weight, maxSize, maxWeight);
  }

  lemma Verdict(b: Abs, w: nat, maxSize: nat, maxWeight: nat)
    requires Within(b, maxSize, maxWeight) && b.weight + w < W && b.size == |b.tabled| && InUseCount(b) >= 0
    requires Over(b, w, maxWeight) ==> b.lru == []
    ensures Over(b, w, maxWeight) || (b.size >= maxSize && b.lru == []) <==>
      InUseWeight(b) + w > maxWeight || InUseCount(b) >= maxSize
  {
    if b.lru == [] {
      assert Sum(b.recs, b.lru) == 0;
    }
  }

  /** The unused entries are some of those in the table. */
  lemma LruWeighsLess(a: Abs)
    requires AbsInv(a)
    ensures 0 <= InUseWeight(a) && 0 <= InUseCount(a)
  {
    LruIsPart(a.recs, a.lru, a.tabled);
  }

  lemma {:induction false} LruIsPart(recs: map<nat, Rec>, s: seq<nat>, t: seq<nat>)
    requires InReleaseOrder(recs, s) && NoDup(t) && forall e | e in s :: e in t
    ensures Sum(recs, s) <= Sum(recs, t) && |s| <= |t|
  {
    if s != [] {
      assert s[0] in s && s[0] !in s[1..];
      SumWithout(recs, t, s[0]);
      WithoutNoDup(t, s[0]);
      forall e | e in s[1..]
        ensures e in Without(t, s[0])
      {
        assert e in s;
      }
      LruIsPart(recs, s[1..], Without(t, s[0]));
    }
  }

  /** An entry heavier than the whole cache is turned away exactly if its weight does not make the
      sum wrap around, or if there is no room for one more entry. Otherwise the cache takes it and
      is over its limit. */
  lemma TooHeavyIsRefused(a: Abs, e: nat, maxSize: nat, maxWeight: nat)
    requires AbsInv(a) && Within(a, maxSize, maxWeight) && e in a.recs && e !in a.tabled
    requires maxWeight < a.recs[e].weight < W
    ensures var (b, ok) := Insert(a, e, maxSize, maxWeight);
      && (!ok <==> a.weight + a.recs[e].weight < W || InUseCount(a) >= maxSize)
      && (ok ==> !Within(b, maxSize, maxWeight))
  {
    var w := a.recs[e].weight;
    LruWeighsLess(a);
    if a.weight + w < W {
      InsertFailsWhen(a, e, maxSize, maxWeight);
    } else {
      Wraps(a, e, maxSize, maxWeight);
      InsertKeeps(a, e, maxSize, maxWeight);
      var (b, ok) := Insert(a, e, maxSize, maxWeight);
      if ok {
        TabledWeighs(b, e);
      }
    }
  }

  lemma Wraps(a: Abs, e: nat, maxSize: nat, maxWeight: nat)
    requires LruOk(a) && Within(a, maxSize, maxWeight) && e in a.recs && a.size == |a.tabled| && InUseCount(a) >= 0
    requires a.recs[e].weight < W <= a.weight + a.recs[e].weight
    ensures !Insert(a, e, maxSize, maxWeight).1 <==> InUseCount(a) >= maxSize
    ensures InUseCount(a) >= maxSize ==> Insert(a, e, maxSize, maxWeight).0 == a
  {
    var w := a.recs[e].weight;
    assert (a.weight + w) % W == a.weight + w - W <= maxWeight;
    assert MakeRoom(a, w, maxWeight) == a;
    if a.lru != [] {
      assert a.lru[0] in a.lru;
    }
  }

  /** The entry that a full cache evicts for its number, or 0. */
  function Evictee(a: Abs, maxSize: nat): nat {
    if a.size < maxSize || a.lru == [] then 0 else a.lru[0]
  }

  /** The weight that makes way for e when its weight passes the test at once: that of the entry evicted
      from a full cache and that of the unused entry under the same key. */
  function Displaced(a: Abs, e: nat, maxSize: nat): nat
    requires e in a.recs
  {
    var head := Evictee(a, maxSize);
    var prior := Find(a, a.recs[e].key, a.tabled);
    Freed(a, head) + if prior == head then 0 else Freed(a, prior)
  }

  /** The 64-bit sum of the weights does not wrap around, or the cache is full of entries in use, or what
      makes way for the entry is heavy enough. */
  ghost predicate FitsIn(a: Abs, e: nat, maxSize: nat, maxWeight: nat)
    requires e in a.recs
  {
    || a.weight + a.recs[e].weight < W
    || InUseCount(a) >= maxSize
    || a.weight + a.recs[e].weight - Displaced(a, e, maxSize) <= maxWeight
  }

  /** Insertion respects both limits exactly if the entry fits in. */
  lemma InsertRespectsLimitsWhen(a: Abs, e: nat, maxSize: nat, maxWeight: nat)
    requires AbsInv(a) && Within(a, maxSize, maxWeight) && e in a.recs && e !in a.tabled && a.recs[e].weight < W
    ensures Within(Insert(a, e, maxSize, maxWeight).0, maxSize, maxWeight) <==> FitsIn(a, e, maxSize, maxWeight)
  {
    if a.weight + a.recs[e].weight < W {
      InsertRespectsLimits(a, e, maxSize, maxWeight);
    } else {
      LruWeighsLess(a);
      Wraps(a, e, maxSize, maxWeight);
      if InUseCount(a) < maxSize {
        WrappedWithin(a, e, maxSize, maxWeight);
      }
    }
  }

  lemma WrappedWithin(a: Abs, e: nat, maxSize: nat, maxWeight: nat)
    requires AbsInv(a) && Within(a, maxSize, maxWeight) && e in a.recs && e !in a.tabled
    requires a.recs[e].weight < W <= a.weight + a.recs[e].weight && InUseCount(a) < maxSize
    ensures Within(Insert(a, e, maxSize, maxWeight).0, maxSize, maxWeight) <==>
      a.weight + a.recs[e].weight - Displaced(a, e, maxSize) <= maxWeight
  {
    WrappedSum(a, e, maxSize, maxWeight);
    InsertKeeps(a, e, maxSize, maxWeight);
    var b := Insert(a, e, maxSize, maxWeight).0;
    if Sum(b.recs, b.tabled) <= maxWeight {
      SumFits(b, maxSize, maxWeight);
    }
  }

  /** The true weight after an insertion whose weight test wrapped around. */
  lemma WrappedSum(a: Abs, e: nat, maxSize: nat, maxWeight: nat)
    requires AbsInv(a) && Within(a, maxSize, maxWeight) && e in a.recs && e !in a.tabled
    requires a.recs[e].weight < W <= a.weight + a.recs[e].weight && InUseCount(a) < maxSize
    ensures var b := Insert(a, e, maxSize, maxWeight).0;
      Sum(b.recs, b.tabled) == a.weight - Displaced(a, e, maxSize) + a.recs[e].weight
  {
    LruWeighsLess(a);
    WrapsInto(a, e, maxSize, maxWeight);
    if a.size < maxSize {
      ReplaceSum(a, e);
    } else {
      EvictOne(a);
      var b := Delete(a, a.lru[0]);
      EvictedSpares(a, b, 1, e);
      DeleteSum(a, a.lru[0]);
      ReplaceSum(b, e);
      FindAfterEviction(a, a.recs[e].key);
    }
  }

  lemma WrapsInto(a: Abs, e: nat, maxSize: nat, maxWeight: nat)
    requires LruOk(a) && Within(a, maxSize, maxWeight) && e in a.recs && a.size == |a.tabled| && 0 <= InUseCount(a) < maxSize
    requires a.recs[e].weight < W <= a.weight + a.recs[e].weight
    ensures a.size >= maxSize ==> a.lru != [] && a.lru[0] in a.recs
    ensures Insert(a, e, maxSize, maxWeight).0 ==
      if a.size < maxSize then Replace(a, e)
      else var b := Delete(a, a.lru[0]); if e in b.recs then Replace(b, e) else b
  {
    var w := a.recs[e].weight;
    assert (a.weight + w) % W == a.weight + w - W <= maxWeight;
    assert MakeRoom(a, w, maxWeight) == a;
    if a.lru != [] {
      assert a.lru[0] in a.lru;
    }
  }

  /** Once the first entry of the LRU list is evicted, what is found under a key is the same as before,
      unless it is that entry. */
  lemma FindAfterEviction(a: Abs, key: int)
    requires AbsInv(a) && a.lru != [] && a.lru[0] in a.recs
    ensures var b := Delete(a, a.lru[0]);
      var prior := Find(a, key, a.tabled);
      Find(b, key, b.tabled) == if prior == a.lru[0] then 0 else prior
    ensures var b := Delete(a, a.lru[0]);
      forall f | f != a.lru[0] :: Freed(b, f) == Freed(a, f)
  {
    var h := a.lru[0];
    assert h in a.lru;
    var b := Delete(a, h);
    FindIsComplete(a, key, a.tabled);
    FindIsComplete(b, key, b.tabled);
  }

  /** With a weight limit below half of the range nothing that makes way is heavy enough. */
  lemma InsertBelowHalfRange(a: Abs, e: nat, maxSize: nat, maxWeight: nat)
    requires AbsInv(a) && Within(a, maxSize, maxWeight) && e in a.recs && e !in a.tabled && a.recs[e].weight < W
    requires 2 * maxWeight < W
    ensures Within(Insert(a, e, maxSize, maxWeight).0, maxSize, maxWeight) <==>
      a.weight + a.recs[e].weight < W || InUseCount(a) >= maxSize
  {
    InsertRespectsLimitsWhen(a, e, maxSize, maxWeight);
    if a.weight + a.recs[e].weight >= W {
      TooHeavyIsRefused(a, e, maxSize, maxWeight);
    }
  }

  lemma TabledWeighs(a: Abs, e: nat)
    requires AbsInv(a) && e in a.tabled
    ensures Sum(a.recs, a.tabled) >= a.recs[e].weight
  {
    SumWithout(a.recs, a.tabled, e);
  }

  /** An empty cache of weight limit 10 takes one entry of weight 5, and then, because the sum wraps
      around, one that weighs nearly as much as memory. */
  lemma WrapAroundExample()
    ensures var a := EMPTY.(recs := map[1 := Rec(7, 5, 1, false, 0, 0), 2 := Rec(8, W - 1, 0, false, 1, 0)],
        tabled := [1], size := 1, weight := 5, born := 2);
      AbsInv(a) && Within(a, 3, 10) && Insert(a, 2, 3, 10).1 && !Within(Insert(a, 2, 3, 10).0, 3, 10)
  {
    var a := EMPTY.(recs := map[1 := Rec(7, 5, 1, false, 0, 0), 2 := Rec(8, W - 1, 0, false, 1, 0)],
      tabled := [1], size := 1, weight := 5, born := 2);
    assert a.tabled[1..] == [];
    assert Sum(a.recs, a.tabled) == 5 + Sum(a.recs, []);
    assert 1 in a.recs && 2 in a.recs && a.recs[1].serial == 0 && a.recs[2].serial == 1;
    assert forall t: nat :: t < 2 ==> Settled(a.recs, a.cleaned, t);
    assert AbsInv(a);
    LruWeighsLess(a);
    TooHeavyIsRefused(a, 2, 3, 10);
  }

  // ---------------------------------------------------------------- emptying

  /** Entry f after the entries of s have been deleted. */
  ghost predicate EmptiedAt(a: Abs, b: Abs, s: seq<nat>, f: nat) {
    if f !in a.recs then f !in b.recs
    else if f !in s then f in b.recs && b.recs[f] == a.recs[f]
    else if a.recs[f].refs == 0 then f !in b.recs
    else f in b.recs && b.recs[f] == a.recs[f].(pending := true)
  }

  lemma {:induction false} DeleteAllDeletes(a: Abs, s: seq<nat>)
    requires AbsInv(a) && NoDup(s)
    ensures AbsInv(DeleteAll(a, s)) && forall f: nat :: EmptiedAt(a, DeleteAll(a, s), s, f)
    decreases |s|
  {
    hide AbsInv;
    if s == [] {
      assert forall f: nat :: EmptiedAt(a, a, s, f);
    } else {
      var b := if s[0] in a.recs then Delete(a, s[0]) else a;
      NoDupTail(s);
      if s[0] in a.recs {
        DeleteKeeps(a, s[0]);
      }
      DeleteAllDeletes(b, s[1..]);
      var c := DeleteAll(b, s[1..]);
      forall f: nat
        ensures EmptiedAt(a, c, s, f)
      {
        assert EmptiedAt(b, c, s[1..], f);
      }
    }
  }

  /** Emptying the cache, in whatever order, leaves in the table exactly the entries in use, all of
      them condemned. */
  lemma EmptyLeavesCondemned(a: Abs, s: seq<nat>)
    requires AbsInv(a) && NoDup(s) && forall e :: e in s <==> e in a.tabled
    ensures var b := DeleteAll(a, s);
      && AbsInv(b) && (forall e :: e !in b.lru)
      && (forall e :: e in b.tabled <==> e in a.tabled && a.recs[e].refs > 0)
      && (forall e | e in b.tabled :: b.recs[e].pending)
  {
    DeleteAllDeletes(a, s);
    DeleteAllTabled(a, s);
    var b := DeleteAll(a, s);
    forall e
      ensures e in b.tabled <==> e in a.tabled && a.recs[e].refs > 0
      ensures e in b.tabled ==> b.recs[e].pending && b.recs[e].refs > 0
      ensures e !in b.lru
    {
      assert EmptiedAt(a, b, s, e);
    }
  }

  lemma {:induction false} DeleteAllTabled(a: Abs, s: seq<nat>)
    requires AbsInv(a)
    ensures var b := DeleteAll(a, s); forall e :: e in b.tabled <==> e in a.tabled && e in b.recs
    decreases |s|
  {
    if s != [] {
      if s[0] in a.recs {
        DeleteKeeps(a, s[0]);
        DeleteAllTabled(Delete(a, s[0]), s[1..]);
        DeleteAllShrinks(Delete(a, s[0]), s[1..]);
      } else {
        DeleteAllTabled(a, s[1..]);
      }
    }
  }

  lemma {:induction false} DeleteAllShrinks(a: Abs, s: seq<nat>)
    ensures forall e | e in DeleteAll(a, s).recs :: e in a.recs
    decreases |s|
  {
    if s != [] {
      DeleteAllShrinks(if s[0] in a.recs then Delete(a, s[0]) else a, s[1..]);
    }
  }

  // ---------------------------------------------------------------- runs

  datatype Op =
    | DoCreate(e: nat, key: int, weight: nat)
    | DoInsert(e: nat)
    | DoLookup(key: int)
    | DoRelease(e: nat)
    | DoDelete(e: nat)
    | DoEmpty(order: seq<nat>)

  /** A caller only passes entries that are allocated, and inserts an entry once. Addresses that were
      freed may be handed out again. Weights are 64-bit numbers. */
  ghost predicate Legal(a: Abs, op: Op) {
    match op
    case DoCreate(e, _, weight) => e != 0 && e !in a.recs && weight < W
    case DoInsert(e) => e in a.recs && e !in a.tabled
    case DoLookup(_) => true
    case DoRelease(e) => e in a.recs
    case DoDelete(e) => e in a.recs
    case DoEmpty(order) => NoDup(order) && forall e :: e in order <==> e in a.tabled
  }

  function Apply(a: Abs, op: Op, maxSize: nat, maxWeight: nat): Abs {
    match op
    case DoCreate(e, key, weight) => Create(a, e, key, weight)
    case DoInsert(e) => if e in a.recs then Insert(a, e, maxSize, maxWeight).0 else a
    case DoLookup(key) => Lookup(a, key).0
    case DoRelease(e) => if e in a.recs then Release(a, e) else a
    case DoDelete(e) => if e in a.recs then Delete(a, e) else a
    case DoEmpty(order) => DeleteAll(a, order)
  }

  /** The weight of every allocated entry leaves a margin to the end of the range. */
  ghost predicate Light(a: Abs, margin: nat) {
    forall e | e in a.recs :: a.recs[e].weight + margin < W
  }

  /** Entries of b are entries of a, with the same key, weight and serial number. */
  ghost predicate Subset(a: Abs, b: Abs) {
    forall f | f in b.recs :: f in a.recs && SameButUse(a.recs[f], b.recs[f])
  }

  lemma {:induction false} MakeRoomSubset(a: Abs, weight: nat, maxWeight: nat)
    ensures Subset(a, MakeRoom(a, weight, maxWeight))
    decreases |a.lru|
  {
    if Over(a, weight, maxWeight) && a.lru != [] && a.lru[0] in a.recs {
      var b := Delete(a, a.lru[0]);
      if |b.lru| < |a.lru| {
        MakeRoomSubset(b, weight, maxWeight);
      }
    }
  }

  lemma ReplaceSubset(a: Abs, e: nat)
    requires e in a.recs
    ensures Subset(a, Replace(a, e))
  {
    var prior := Find(a, a.recs[e].key, a.tabled);
    var b := if prior == 0 then a else Delete(a, prior);
    assert Subset(a, b);
  }

  lemma InsertSubset(a: Abs, e: nat, maxSize: nat, maxWeight: nat)
    requires e in a.recs
    ensures Subset(a, Insert(a, e, maxSize, maxWeight).0)
  {
    var b := MakeRoom(a, a.recs[e].weight, maxWeight);
    MakeRoomSubset(a, a.recs[e].weight, maxWeight);
    if e in b.recs {
      ReplaceSubset(b, e);
    }
    if b.lru != [] && b.lru[0] in b.recs {
      var c := Delete(b, b.lru[0]);
      assert Subset(b, c);
      if e in c.recs {
        ReplaceSubset(c, e);
      }
    }
  }

  lemma {:induction false} DeleteAllSubset(a: Abs, s: seq<nat>)
    ensures Subset(a, DeleteAll(a, s))
    decreases |s|
  {
    if s != [] {
      DeleteAllSubset(if s[0] in a.recs then Delete(a, s[0]) else a, s[1..]);
    }
  }

  lemma ApplySubset(a: Abs, op: Op, maxSize: nat, maxWeight: nat)
    requires !op.DoCreate?
    ensures Subset(a, Apply(a, op, maxSize, maxWeight))
  {
    match op
    case DoInsert(e) => if e in a.recs { InsertSubset(a, e, maxSize, maxWeight); }
    case DoEmpty(order) => DeleteAllSubset(a, order);
    case DoLookup(_) =>
    case DoRelease(_) =>
    case DoDelete(_) =>
  }

  lemma DropWithin(a: Abs, e: nat, maxSize: nat, maxWeight: nat)
    requires NoDup(a.tabled) && a.size == |a.tabled| && e in a.recs && Within(a, maxSize, maxWeight)
    ensures Within(Drop(a, e), maxSize, maxWeight)
  {
    DropSizes(a, e);
    SumFits(Drop(a, e), maxSize, maxWeight);
  }

  lemma UseWithin(a: Abs, b: Abs, e: nat, r: Rec, maxSize: nat, maxWeight: nat)
    requires Within(a, maxSize, maxWeight) && e in a.recs && SameButUse(a.recs[e], r)
    requires b.recs == a.recs[e := r] && b.tabled == a.tabled && b.size == a.size && b.weight == a.weight
    ensures Within(b, maxSize, maxWeight)
  {
    UseSizes(a, e, r);
  }

  lemma DeleteWithin(a: Abs, e: nat, maxSize: nat, maxWeight: nat)
    requires NoDup(a.tabled) && a.size == |a.tabled| && e in a.recs && Within(a, maxSize, maxWeight)
    ensures Within(Delete(a, e), maxSize, maxWeight)
  {
    if a.recs[e].refs > 0 {
      UseWithin(a, Delete(a, e), e, a.recs[e].(pending := true), maxSize, maxWeight);
    } else {
      DropWithin(a, e, maxSize, maxWeight);
    }
  }

  lemma ReleaseWithin(a: Abs, e: nat, maxSize: nat, maxWeight: nat)
    requires NoDup(a.tabled) && a.size == |a.tabled| && e in a.recs && Within(a, maxSize, maxWeight)
    ensures Within(Release(a, e), maxSize, maxWeight)
  {
    var r := a.recs[e];
    if r.refs == 1 && r.pending {
      var m := a.(recs := a.recs[e := r.(refs := 0)], clock := a.clock + 1);
      UseWithin(a, m, e, r.(refs := 0), maxSize, maxWeight);
      DropWithin(m, e, maxSize, maxWeight);
    } else if r.refs == 1 {
      UseWithin(a, Release(a, e), e, r.(refs := 0, stamp := a.clock), maxSize, maxWeight);
    } else if r.refs > 1 {
      UseWithin(a, Release(a, e), e, r.(refs := r.refs - 1), maxSize, maxWeight);
    }
  }

  lemma LookupWithin(a: Abs, key: int, maxSize: nat, maxWeight: nat)
    requires Within(a, maxSize, maxWeight)
    ensures Within(Lookup(a, key).0, maxSize, maxWeight)
  {
    var e := Find(a, key, a.tabled);
    if e != 0 {
      UseSizes(a, e, a.recs[e].(refs := a.recs[e].refs + 1));
    }
  }

  lemma {:induction false} DeleteAllWithin(a: Abs, s: seq<nat>, maxSize: nat, maxWeight: nat)
    requires AbsInv(a) && Within(a, maxSize, maxWeight)
    ensures Within(DeleteAll(a, s), maxSize, maxWeight)
    decreases |s|
  {
    if s != [] {
      if s[0] in a.recs {
        DeleteWithin(a, s[0], maxSize, maxWeight);
        DeleteKeeps(a, s[0]);
        DeleteAllWithin(Delete(a, s[0]), s[1..], maxSize, maxWeight);
      } else {
        DeleteAllWithin(a, s[1..], maxSize, maxWeight);
      }
    }
  }

  /** Every operation keeps the invariant. */
  lemma ApplyKeeps(a: Abs, op: Op, maxSize: nat, maxWeight: nat)
    requires AbsInv(a) && Legal(a, op)
    ensures AbsInv(Apply(a, op, maxSize, maxWeight))
  {
    match op
    case DoCreate(e, key, weight) => CreateKeeps(a, e, key, weight);
    case DoInsert(e) => InsertKeeps(a, e, maxSize, maxWeight);
    case DoLookup(key) => LookupKeeps(a, key);
    case DoRelease(e) => ReleaseKeeps(a, e);
    case DoDelete(e) => DeleteKeeps(a, e);
    case DoEmpty(order) => DeleteAllDeletes(a, order);
  }

  /** Every operation keeps the limits, except the insertion of an entry that does not fit in. */
  lemma ApplyWithin(a: Abs, op: Op, maxSize: nat, maxWeight: nat)
    requires AbsInv(a) && Legal(a, op) && Within(a, maxSize, maxWeight) && Light(a, 0)
    ensures Within(Apply(a, op, maxSize, maxWeight), maxSize, maxWeight) <==>
      (op.DoInsert? ==> FitsIn(a, op.e, maxSize, maxWeight))
  {
    match op
    case DoCreate(e, key, weight) => SumFrame(a.recs, Create(a, e, key, weight).recs, a.tabled);
    case DoInsert(e) => InsertRespectsLimitsWhen(a, e, maxSize, maxWeight);
    case DoLookup(key) => LookupWithin(a, key, maxSize, maxWeight);
    case DoRelease(e) => ReleaseWithin(a, e, maxSize, maxWeight);
    case DoDelete(e) => DeleteWithin(a, e, maxSize, maxWeight);
    case DoEmpty(order) => DeleteAllWithin(a, order, maxSize, maxWeight);
  }

  lemma ApplyLight(a: Abs, op: Op, maxSize: nat, maxWeight: nat, margin: nat)
    requires Light(a, margin) && (op.DoCreate? ==> op.weight + margin < W)
    ensures Light(Apply(a, op, maxSize, maxWeight), margin)
  {
    if !op.DoCreate? {
      ApplySubset(a, op, maxSize, maxWeight);
    }
  }

  function After(a: Abs, ops: seq<Op>, maxSize: nat, maxWeight: nat): Abs
    decreases |ops|
  {
    if ops == [] then a else After(Apply(a, ops[0], maxSize, maxWeight), ops[1..], maxSize, maxWeight)
  }

  ghost predicate LegalRun(a: Abs, ops: seq<Op>, maxSize: nat, maxWeight: nat)
    decreases |ops|
  {
    ops == [] ||
    (Legal(a, ops[0]) && LegalRun(Apply(a, ops[0], maxSize, maxWeight), ops[1..], maxSize, maxWeight))
  }

  /** The limits hold at every point of the run. */
  ghost predicate WithinRun(a: Abs, ops: seq<Op>, maxSize: nat, maxWeight: nat)
    decreases |ops|
  {
    && Within(a, maxSize, maxWeight)
    && (ops == [] || WithinRun(Apply(a, ops[0], maxSize, maxWeight), ops[1..], maxSize, maxWeight))
  }

  /** Every entry that is inserted fits in at that point. */
  ghost predicate FittingRun(a: Abs, ops: seq<Op>, maxSize: nat, maxWeight: nat)
    requires LegalRun(a, ops, maxSize, maxWeight)
    decreases |ops|
  {
    ops == [] ||
    (&& (ops[0].DoInsert? ==> FitsIn(a, ops[0].e, maxSize, maxWeight))
     && FittingRun(Apply(a, ops[0], maxSize, maxWeight), ops[1..], maxSize, maxWeight))
  }

  /** No entry is created whose weight and the limit together leave the range. */
  predicate LightRun(ops: seq<Op>, maxWeight: nat) {
    forall op | op in ops && op.DoCreate? :: op.weight + maxWeight < W
  }

  lemma {:induction false} RunKeeps(a: Abs, ops: seq<Op>, maxSize: nat, maxWeight: nat)
    requires AbsInv(a) && LegalRun(a, ops, maxSize, maxWeight)
    ensures AbsInv(After(a, ops, maxSize, maxWeight))
    decreases |ops|
  {
    if ops != [] {
      ApplyKeeps(a, ops[0], maxSize, maxWeight);
      RunKeeps(Apply(a, ops[0], maxSize, maxWeight), ops[1..], maxSize, maxWeight);
    }
  }

  lemma {:induction false} RunWithin(a: Abs, ops: seq<Op>, maxSize: nat, maxWeight: nat)
    requires AbsInv(a) && Within(a, maxSize, maxWeight) && Light(a, 0) && LegalRun(a, ops, maxSize, maxWeight)
    ensures WithinRun(a, ops, maxSize, maxWeight) <==> FittingRun(a, ops, maxSize, maxWeight)
    decreases |ops|
  {
    hide AbsInv, Within, Light, FitsIn;
    if ops != [] {
      var b := Apply(a, ops[0], maxSize, maxWeight);
      ApplyKeeps(a, ops[0], maxSize, maxWeight);
      ApplyWithin(a, ops[0], maxSize, maxWeight);
      ApplyLight(a, ops[0], maxSize, maxWeight, 0);
      if Within(b, maxSize, maxWeight) {
        RunWithin(b, ops[1..], maxSize, maxWeight);
      }
    }
  }

  lemma {:induction false} LightRunFits(a: Abs, ops: seq<Op>, maxSize: nat, maxWeight: nat)
    requires AbsInv(a) && Within(a, maxSize, maxWeight) && Light(a, maxWeight) && LegalRun(a, ops, maxSize, maxWeight)
    requires LightRun(ops, maxWeight)
    ensures FittingRun(a, ops, maxSize, maxWeight)
    decreases |ops|
  {
    if ops != [] {
      var b := Apply(a, ops[0], maxSize, maxWeight);
      ApplyKeeps(a, ops[0], maxSize, maxWeight);
      ApplyWithin(a, ops[0], maxSize, maxWeight);
      ApplyLight(a, ops[0], maxSize, maxWeight, maxWeight);
      LightRunFits(b, ops[1..], maxSize, maxWeight);
    }
  }

  lemma EmptyKeeps(maxSize: nat, maxWeight: nat)
    requires maxWeight < W
    ensures AbsInv(EMPTY) && Within(EMPTY, maxSize, maxWeight) && Light(EMPTY, 0) && Light(EMPTY, maxWeight)
  {
  }

  lemma CleanedOnce(a: Abs)
    requires AbsInv(a)
    ensures NoDup(a.cleaned)
    ensures forall t: nat | t < a.born :: t in a.cleaned <==> !exists e :: e in a.recs && a.recs[e].serial == t
  {
    forall t: nat | t < a.born
      ensures t in a.cleaned <==> !exists e :: e in a.recs && a.recs[e].serial == t
    {
      assert Settled(a.recs, a.cleaned, t);
    }
  }

  /** After any sequence of calls the invariant holds, and an entry has been cleaned up, once, exactly if it
      is no longer allocated. The limits hold all along exactly if every inserted entry fits in, as it
      does if no entry is too heavy. */
  lemma EveryRunRespectsLimits(ops: seq<Op>, maxSize: nat, maxWeight: nat)
    requires maxWeight < W && LegalRun(EMPTY, ops, maxSize, maxWeight)
    ensures var a := After(EMPTY, ops, maxSize, maxWeight);
      && AbsInv(a) && NoDup(a.cleaned)
      && forall t: nat | t < a.born :: t in a.cleaned <==> !exists e :: e in a.recs && a.recs[e].serial == t
    ensures WithinRun(EMPTY, ops, maxSize, maxWeight) <==> FittingRun(EMPTY, ops, maxSize, maxWeight)
    ensures LightRun(ops, maxWeight) ==> FittingRun(EMPTY, ops, maxSize, maxWeight)
  {
    EmptyKeeps(maxSize, maxWeight);
    hide *;
    RunKeeps(EMPTY, ops, maxSize, maxWeight);
    CleanedOnce(After(EMPTY, ops, maxSize, maxWeight));
    RunWithin(EMPTY, ops, maxSize, maxWeight);
    if LightRun(ops, maxWeight) {
      LightRunFits(EMPTY, ops, maxSize, maxWeight);
    }
  }

  /** No call cleans up an entry in use, except the one that ends its last use. */
  lemma InUseIsSafe(a: Abs, op: Op, maxSize: nat, maxWeight: nat, e: nat)
    requires AbsInv(a) && Legal(a, op) && e in a.recs && a.recs[e].refs > 0
    requires op == DoRelease(e) ==> a.recs[e].refs > 1 || !a.recs[e].pending
    ensures var b := Apply(a, op, maxSize, maxWeight);
      e in b.recs && b.recs[e].serial == a.recs[e].serial && a.recs[e].serial !in b.cleaned
  {
    var b := Apply(a, op, maxSize, maxWeight);
    ApplyKeeps(a, op, maxSize, maxWeight);
    if !op.DoCreate? {
      ApplySubset(a, op, maxSize, maxWeight);
    }
    match op
    case DoInsert(f) => InsertKeeps(a, f, maxSize, maxWeight);
    case DoEmpty(order) =>
      DeleteAllDeletes(a, order);
      assert EmptiedAt(a, b, order, e);
    case _ =>
  }
}
