// First occurrences in a sequence: what a seen-set filter keeps.
module Firsts {

  // The first occurrence of every element of ts that is not in skip.
  function Fresh<T(==)>(ts: seq<T>, skip: set<T>): seq<T>
  {
    if |ts| == 0 then []
    else
      var p, t := ts[..|ts| - 1], ts[|ts| - 1];
      if t in skip || t in p then Fresh(p, skip) else Fresh(p, skip) + [t]
  }

  function FirstIndex<T(==)>(ts: seq<T>, t: T): (i: nat)
    requires t in ts
    ensures i < |ts| && ts[i] == t && t !in ts[..i]
  {
    if t in ts[..|ts| - 1] then
      var i := FirstIndex(ts[..|ts| - 1], t);
      assert ts[..|ts| - 1][..i] == ts[..i];
      i
    else |ts| - 1
  }

  // firsts lists each element of ts outside skip exactly once, in the order in
  // which ts mentions them first.
  ghost predicate ListsFirsts<T(!new)>(firsts: seq<T>, ts: seq<T>, skip: set<T>)
  {
    && (forall t :: t in firsts <==> t in ts && t !in skip)
    && (forall k, l :: 0 <= k < l < |firsts| ==> FirstIndex(ts, firsts[k]) < FirstIndex(ts, firsts[l]))
  }

  lemma {:induction false} FreshMembers<T(!new)>(ts: seq<T>, skip: set<T>)
    ensures forall t :: t in Fresh(ts, skip) <==> t in ts && t !in skip
  {
    if |ts| > 0 {
      FreshMembers(ts[..|ts| - 1], skip);
      assert ts == ts[..|ts| - 1] + [ts[|ts| - 1]];
    }
  }

  lemma FirstIndexStable<T(!new)>(ts: seq<T>, t: T)
    requires |ts| > 0 && t in ts[..|ts| - 1]
    ensures t in ts && FirstIndex(ts, t) == FirstIndex(ts[..|ts| - 1], t) < |ts| - 1
  {}

  lemma {:induction false} FreshListsFirsts<T(!new)>(ts: seq<T>, skip: set<T>)
    ensures ListsFirsts(Fresh(ts, skip), ts, skip)
  {
    FreshMembers(ts, skip);
    if |ts| > 0 {
      var p, t := ts[..|ts| - 1], ts[|ts| - 1];
      FreshListsFirsts(p, skip);
      var f, firsts := Fresh(p, skip), Fresh(ts, skip);
      forall k, l | 0 <= k < l < |firsts|
        ensures FirstIndex(ts, firsts[k]) < FirstIndex(ts, firsts[l])
      {
        assert firsts[k] == f[k] && f[k] in f;
        FirstIndexStable(ts, f[k]);
        if l < |f| {
          assert f[l] in f;
          FirstIndexStable(ts, f[l]);
        }
      }
    }
  }

  lemma {:induction false} FreshSame<T(!new)>(ts: seq<T>, a: set<T>, b: set<T>)
    requires forall t :: t in ts ==> (t in a <==> t in b)
    ensures Fresh(ts, a) == Fresh(ts, b)
  {
    if |ts| > 0 {
      assert forall t :: t in ts[..|ts| - 1] ==> t in ts;
      FreshSame(ts[..|ts| - 1], a, b);
    }
  }

  lemma {:induction false} FreshNoLonger<T(!new)>(ts: seq<T>, skip: set<T>)
    ensures |Fresh(ts, skip)| <= |ts|
  {
    if |ts| > 0 {
      FreshNoLonger(ts[..|ts| - 1], skip);
    }
  }

  // Appending what is already there adds nothing.
  lemma {:induction false} FreshAbsorbs<T(!new)>(a: seq<T>, b: seq<T>)
    requires forall x :: x in b ==> x in a
    ensures Fresh(a + b, {}) == Fresh(a, {})
  {
    if |b| == 0 {
      assert a + b == a;
    } else {
      var p := b[..|b| - 1];
      assert forall x :: x in p ==> x in b;
      FreshAbsorbs(a, p);
      assert (a + b)[..|a + b| - 1] == a + p;
      assert b[|b| - 1] in a;
    }
  }
}
