// Build reads no object contents: a snapshot parsed without them builds to the same
// analysis (internal/snapshotgraph/build.go, internal/memusage/lazy_parity_test.go).
module Parity {
  import opened Words
  import opened Heap
  import opened Graphs
  import opened ObjectIndex
  import opened Resolution
  import opened Edges
  import opened Build

  // ---- Tables ----

  lemma SameEntries(e: seq<HeapObject>, l: seq<HeapObject>, i: nat)
    requires SameButContents(e, l) && i < |e|
    ensures IsFirst(l, i) == IsFirst(e, i) && IsRanged(l, i) == IsRanged(e, i) && IsDuplicate(l, i) == IsDuplicate(e, i)
    ensures RangeOf(l, i) == RangeOf(e, i) && Wraps(l[i]) == Wraps(e[i])
  {
    forall j | 0 <= j <= i
      ensures l[j].addr == e[j].addr && l[j].size == e[j].size
    {}
  }

  lemma SameRangeTable(e: seq<HeapObject>, l: seq<HeapObject>, ranges: seq<ObjectRange>)
    requires SameButContents(e, l) && IsRangeTable(e, |e|, ranges)
    ensures IsRangeTable(l, |l|, ranges)
  {
    forall i | 0 <= i < |e|
      ensures IsRanged(l, i) == IsRanged(e, i) && RangeOf(l, i) == RangeOf(e, i)
    {
      SameEntries(e, l, i);
    }
  }

  lemma RangeTableBack(e: seq<HeapObject>, l: seq<HeapObject>, ranges: seq<ObjectRange>)
    requires SameButContents(e, l) && IsRangeTable(l, |l|, ranges)
    ensures IsRangeTable(e, |e|, ranges)
  {
    forall i | 0 <= i < |e|
      ensures IsRanged(l, i) == IsRanged(e, i) && RangeOf(l, i) == RangeOf(e, i)
    {
      SameEntries(e, l, i);
    }
  }

  lemma SameAddressMap(e: seq<HeapObject>, l: seq<HeapObject>, byAddr: map<u64, ObjectID>)
    requires SameButContents(e, l)
    ensures IsAddressMap(l, |l|, byAddr) <==> IsAddressMap(e, |e|, byAddr)
  {
    forall i | 0 <= i < |e|
      ensures IsFirst(l, i) == IsFirst(e, i) && l[i].addr == e[i].addr
    {
      SameEntries(e, l, i);
    }
  }

  lemma SameIndex(e: seq<HeapObject>, l: seq<HeapObject>, g: Lookup)
    requires SameButContents(e, l)
    ensures IsIndexed(l, g) <==> IsIndexed(e, g)
  {
    SameAddressMap(e, l, g.byAddr);
    if IsRangeTable(e, |e|, g.ranges) {
      SameRangeTable(e, l, g.ranges);
    }
    if IsRangeTable(l, |l|, g.ranges) {
      RangeTableBack(e, l, g.ranges);
    }
  }

  lemma {:induction false} SameSizes(e: seq<HeapObject>, l: seq<HeapObject>, n: nat)
    requires SameButContents(e, l) && n <= |e|
    ensures TotalSize(l, n) == TotalSize(e, n)
  {
    if n > 0 {
      SameSizes(e, l, n - 1);
    }
  }

  lemma SameWellFormed(e: seq<HeapObject>, l: seq<HeapObject>)
    requires SameButContents(e, l)
    ensures IsWellFormed(l) <==> IsWellFormed(e)
  {
    forall i | 0 <= i < |e|
      ensures IsDuplicate(l, i) == IsDuplicate(e, i) && IsRanged(l, i) == IsRanged(e, i)
      ensures RangeOf(l, i) == RangeOf(e, i) && Wraps(l[i]) == Wraps(e[i])
    {
      SameEntries(e, l, i);
    }
  }

  // ---- Edges ----

  lemma {:induction false} SameSlots(g: Lookup, o: HeapObject, n: nat)
    requires n <= |o.pointerAddrs|
    ensures SlotsUpTo(g, Bare(o), n) == SlotsUpTo(g, o, n)
  {
    if n > 0 {
      SameSlots(g, o, n - 1);
    }
  }

  lemma {:induction false} SameReferences(g: Lookup, e: seq<HeapObject>, l: seq<HeapObject>, n: nat)
    requires SameButContents(e, l) && n <= |e|
    ensures ReferencesUpTo(g, l, n) == ReferencesUpTo(g, e, n)
  {
    if n > 0 {
      SameReferences(g, e, l, n - 1);
      SameSlots(g, e[n - 1], |e[n - 1].pointerAddrs|);
    }
  }

  lemma {:induction false} SameStats(g: Lookup, e: seq<HeapObject>, l: seq<HeapObject>, n: nat)
    requires SameButContents(e, l) && n <= |e|
    ensures StatsUpTo(g, l, n) == StatsUpTo(g, e, n)
  {
    if n > 0 {
      SameStats(g, e, l, n - 1);
    }
  }

  lemma {:induction false} SameStamp(g: Lookup, e: seq<HeapObject>, l: seq<HeapObject>, m: nat, n: nat, t: ObjectID)
    requires SameButContents(e, l) && n <= |e| <= m
    ensures LastStamp(g, l, m, n, t) == LastStamp(g, e, m, n, t)
  {
    if n > 0 {
      SameStamp(g, e, l, m, n - 1, t);
    }
  }

  lemma SameChildren(g: Lookup, e: seq<HeapObject>, l: seq<HeapObject>, m: nat, i: nat)
    requires SameButContents(e, l) && i < |e| <= m
    ensures ChildrenAt(g, l, m, i) == ChildrenAt(g, e, m, i)
  {
    forall t: nat
      ensures LastStamp(g, l, m, i, t) == LastStamp(g, e, m, i, t)
    {
      SameStamp(g, e, l, m, i, t);
    }
    assert Blocked(g, l, m, i) == Blocked(g, e, m, i);
  }

  lemma {:induction false} SameEdges(g: Lookup, e: seq<HeapObject>, l: seq<HeapObject>, m: nat, n: nat)
    requires SameButContents(e, l) && n <= |e| <= m
    ensures ChildrenUpTo(g, l, m, n) == ChildrenUpTo(g, e, m, n)
  {
    if n > 0 {
      SameEdges(g, e, l, m, n - 1);
      SameChildren(g, e, l, m, n - 1);
    }
  }

  // ---- The build ----

  lemma SameGraph(e: Snapshot, l: Snapshot, keep: bool, m: nat, g: Graph)
    requires SameButContents(e.objects, l.objects)
    ensures IsGraphOf(l, keep, m, g) <==> IsGraphOf(e, keep, m, g)
  {
    var t := LookupOf(g);
    SameIndex(e.objects, l.objects, t);
    SameReferences(t, e.objects, l.objects, |e.objects|);
    if |e.objects| <= m {
      forall i | 0 <= i < |e.objects|
        ensures ChildrenAt(t, l.objects, m, i) == ChildrenAt(t, e.objects, m, i)
      {
        SameChildren(t, e.objects, l.objects, m, i);
      }
    }
  }

  // Without contents a snapshot is accepted alike ...
  lemma BuildableAlike(snap: Snapshot, strict: bool, m: nat)
    ensures Buildable(Stripped(snap).objects, strict, m) <==> Buildable(snap.objects, strict, m)
  {
    assert SameButContents(snap.objects, Stripped(snap).objects);
    SameWellFormed(snap.objects, Stripped(snap).objects);
    SameSizes(snap.objects, Stripped(snap).objects, |snap.objects|);
  }

  // ... and builds to the same analysis, with the same statistics.
  lemma BuildIgnoresContents(snap: Snapshot, keep: bool, m: nat, b: Built)
    ensures IsBuiltFrom(Stripped(snap), keep, m, b) <==> IsBuiltFrom(snap, keep, m, b)
  {
    var e, l := snap.objects, Stripped(snap).objects;
    assert SameButContents(e, l);
    SameSizes(e, l, |e|);
    SameGraph(snap, Stripped(snap), keep, m, b.analysis.graph);
    if |e| <= m {
      var t := LookupOf(b.analysis.graph);
      SameStats(t, e, l, |e|);
      SameEdges(t, e, l, m, |e|);
    }
  }
}
