/** Lists of addresses and numbers without repetition, as the queue and cache models share them. */
module Lists {

  datatype Option<T> = None | Some(value: T)

  ghost predicate NoDup(s: seq<nat>) {
    forall i, j | 0 <= i < j < |s| :: s[i] != s[j]
  }

  lemma NoDupTail(s: seq<nat>)
    requires NoDup(s) && s != []
    ensures NoDup(s[1..]) && s[0] !in s[1..]
  {
    assert s == [s[0]] + s[1..];
  }

  function Without(s: seq<nat>, e: nat): (r: seq<nat>)
    ensures forall x :: x in r <==> x in s && x != e
  {
    if s == [] then []
    else if s[0] == e then Without(s[1..], e)
    else [s[0]] + Without(s[1..], e)
  }

  lemma {:induction false} WithoutAbsent(s: seq<nat>, e: nat)
    requires e !in s
    ensures Without(s, e) == s
  {
    if s != [] {
      WithoutAbsent(s[1..], e);
    }
  }

  lemma {:induction false} WithoutNoDup(s: seq<nat>, e: nat)
    requires NoDup(s)
    ensures NoDup(Without(s, e)) && |Without(s, e)| == if e in s then |s| - 1 else |s|
  {
    if s != [] {
      NoDupTail(s);
      WithoutNoDup(s[1..], e);
    }
  }

  lemma {:induction false} WithoutConcat(s: seq<nat>, t: seq<nat>, e: nat)
    ensures Without(s + t, e) == Without(s, e) + Without(t, e)
  {
    if s == [] {
      assert s + t == t;
    } else {
      assert (s + t)[0] == s[0] && (s + t)[1..] == s[1..] + t;
      WithoutConcat(s[1..], t, e);
    }
  }

  lemma NoDupParts(s: seq<nat>, t: seq<nat>)
    requires NoDup(s + t)
    ensures NoDup(t) && forall e | e in t :: e !in s
  {
    var c := s + t;
    assert forall i | 0 <= i < |s| :: c[i] == s[i];
    assert forall j | 0 <= j < |t| :: c[|s| + j] == t[j];
    forall i, j | 0 <= i < |s| && 0 <= j < |t|
      ensures s[i] != t[j]
    {
      assert c[i] != c[|s| + j];
    }
    forall i, j | 0 <= i < j < |t|
      ensures t[i] != t[j]
    {
      assert c[|s| + i] != c[|s| + j];
    }
  }

  lemma NoDupConcat(s: seq<nat>, t: seq<nat>)
    requires NoDup(s) && NoDup(t) && forall e | e in t :: e !in s
    ensures NoDup(s + t)
  {
    var c := s + t;
    forall i, j | 0 <= i < j < |c|
      ensures c[i] != c[j]
    {
      assert c[i] == if i < |s| then s[i] else t[i - |s|];
      assert c[j] == if j < |s| then s[j] else t[j - |s|];
      assert j >= |s| ==> t[j - |s|] in t;
    }
  }
}
