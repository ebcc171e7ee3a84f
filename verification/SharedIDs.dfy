// Heaps on which two goroutines share an ID: the failing inputs of the paths export
// and of the group table come from snapshots that build.
module SharedIDs {
  import opened Words
  import opened Wrappers
  import opened Graphs
  import opened Analyses
  import opened Heap
  import opened ObjectIndex
  import opened Resolution
  import opened Edges
  import opened GraphRoots
  import opened Build
  import Agreement
  import ExportPaths

  // A goroutine record with ID 1 that holds nothing but its scheduler context ptr.
  ghost predicate IsTwin(gr: HeapGoroutine, ptr: u64, isSystem: bool)
  {
    && gr.id == 1 && gr.isSystem == isSystem && !gr.isBackground && gr.frames == []
    && gr.sched.ctxt == ptr != 0 && gr.sched.deferAddr == 0 && gr.sched.panicAddr == 0
  }

  // A snapshot without global roots and with two such goroutines, one of the runtime.
  ghost predicate IsTwinSnapshot(snap: Snapshot, p: u64, q: u64)
  {
    && |snap.goroutines| == 2 && IsTwin(snap.goroutines[0], p, false) && IsTwin(snap.goroutines[1], q, true)
    && snap.globals == [] && snap.data == [] && snap.bss == [] && snap.finalizers == [] && snap.queued == []
  }

  function ContextRoot(ptr: u64, id: ObjectID): RootRef { RootRef(id, ptr, 0, "sched.ctxt", []) }

  lemma TwinRoots(l: Lookup, gr: HeapGoroutine, ptr: u64, isSystem: bool, t: ObjectID)
    requires IsTwin(gr, ptr, isSystem) && Resolve(l, ptr) == Some(t)
    ensures GoroutineOf(l, gr) == Goroutine(1, isSystem, false, [ContextRoot(ptr, t)])
    ensures GoroutineFound(l, gr).unresolved == 0
  {
    var nothing, held := Found([], 0), Found([ContextRoot(ptr, t)], 0);
    assert StackFound(l, gr.frames, 0) == nothing;
    assert SchedFound(l, gr.sched, 0, nothing) == nothing;
    assert SchedFound(l, gr.sched, 1, nothing) == held;
    assert SchedFound(l, gr.sched, 2, nothing) == held;
    assert SchedFound(l, gr.sched, 3, nothing) == held;
  }

  lemma TwinGoroutines(l: Lookup, snap: Snapshot, p: u64, s: ObjectID, q: u64, t: ObjectID)
    requires IsTwinSnapshot(snap, p, q) && Resolve(l, p) == Some(s) && Resolve(l, q) == Some(t)
    ensures GoroutinesUpTo(l, snap.goroutines, 2) == [Goroutine(1, false, false, [ContextRoot(p, s)]), Goroutine(1, true, false, [ContextRoot(q, t)])]
    ensures StackMisses(l, snap.goroutines, 2) == 0
  {
    TwinRoots(l, snap.goroutines[0], p, false, s);
    TwinRoots(l, snap.goroutines[1], q, true, t);
    assert GoroutinesUpTo(l, snap.goroutines, 1) == [GoroutineOf(l, snap.goroutines[0])];
    assert StackMisses(l, snap.goroutines, 1) == 0;
  }

  lemma NoGlobals(l: Lookup, snap: Snapshot, p: u64, q: u64)
    requires IsTwinSnapshot(snap, p, q)
    ensures GlobalsIn(l, SnapshotCandidates(snap)) == Found([], 0) && FinalizerFound(l, snap) == Found([], 0)
  {
    assert SnapshotCandidates(snap) == [];
  }

  // Objects of eight bytes each, without pointers, in address order.
  ghost predicate IsPlain(objs: seq<HeapObject>)
  {
    && (forall i :: 0 <= i < |objs| ==> objs[i].addr == 8 * (i + 1) && objs[i].size == 8 && objs[i].pointerAddrs == [])
    && |objs| <= 2
  }

  predicate CountsNothing(st: PointerStats) { st.raw == st.zero == st.resolved == st.unresolved == 0 }

  lemma PlainHasNoEdges(l: Lookup, objs: seq<HeapObject>, m: nat, i: nat)
    requires i < |objs| <= m && IsPlain(objs)
    ensures ChildrenAt(l, objs, m, i) == []
  {
    assert Targets(l, objs[i]) == [];
  }

  lemma {:induction false} NoSlots(objs: seq<HeapObject>, n: nat)
    requires n <= |objs| && IsPlain(objs)
    ensures SlotCount(objs, n) == 0
  {
    if n > 0 {
      NoSlots(objs, n - 1);
    }
  }

  lemma PlainStats(l: Lookup, objs: seq<HeapObject>)
    requires IsPlain(objs)
    ensures CountsNothing(StatsUpTo(l, objs, |objs|))
  {
    NoSlots(objs, |objs|);
    RawCountsSlots(l, objs, |objs|);
    PointersAccounted(l, objs, |objs|);
  }

  lemma {:induction false} PlainEdges(l: Lookup, objs: seq<HeapObject>, m: nat, n: nat)
    requires n <= |objs| <= m && IsPlain(objs)
    ensures EdgeTotal(ChildrenUpTo(l, objs, m, n), n) == 0
  {
    if n > 0 {
      PlainEdges(l, objs, m, n - 1);
      PlainHasNoEdges(l, objs, m, n - 1);
      EdgeTotalPrefix(ChildrenUpTo(l, objs, m, n - 1), ChildrenAt(l, objs, m, n - 1), n - 1);
    }
  }

  lemma {:induction false} PlainSize(objs: seq<HeapObject>, n: nat)
    requires n <= |objs| && IsPlain(objs)
    ensures TotalSize(objs, n) == 8 * n
  {
    if n > 0 {
      PlainSize(objs, n - 1);
    }
  }

  // The graph of the plain objects.
  ghost predicate IsPlainGraph(g: Graph, n: nat)
  {
    && |g.objects| == |g.ranges| == n <= 2 && g.references == []
    && (forall i :: 0 <= i < n ==> g.objects[i] == Object(8 * (i + 1), 8, []) && g.ranges[i] == ObjectRange(8 * (i + 1), 8 * (i + 1) + 8, i))
    && (forall i: nat :: i < n ==> Addr(i) in g.byAddr && g.byAddr[Addr(i)] == i)
    && (forall p :: p in g.byAddr ==> g.byAddr[p] < n && p == Addr(g.byAddr[p]))
  }

  function Addr(i: nat): int { 8 * (i + 1) }

  lemma PlainIsIndexed(g: Graph, objs: seq<HeapObject>)
    requires IsPlain(objs) && IsPlainGraph(g, |objs|)
    ensures IsIndexed(objs, LookupOf(g))
  {
    forall i: nat | i < |objs|
      ensures IsFirst(objs, i) && IsRanged(objs, i) && RangeOf(objs, i) == g.ranges[i] && Addr(i) == objs[i].addr
    {}
    assert IsAddressMap(objs, |objs|, g.byAddr);
    assert IsRangeTable(objs, |objs|, g.ranges);
  }

  // Every snapshot of this shape builds to the analysis.
  lemma TwinsBuild(snap: Snapshot, g: Graph, p: u64, s: ObjectID, q: u64, t: ObjectID, m: nat, b: Built)
    requires IsTwinSnapshot(snap, p, q) && IsPlain(snap.objects) && IsPlainGraph(g, |snap.objects|) && |snap.objects| <= m
    requires Resolve(LookupOf(g), p) == Some(s) && Resolve(LookupOf(g), q) == Some(t)
    requires b.analysis == Analysis(g, [Goroutine(1, false, false, [ContextRoot(p, s)]), Goroutine(1, true, false, [ContextRoot(q, t)])], [])
    requires CountsNothing(b.pointers) && b.edges == 0 && b.unresolved == Misses(0, 0, 0, 0) && b.objectBytes == 8 * |snap.objects|
    ensures IsBuiltFrom(snap, false, m, b)
  {
    var l, objs := LookupOf(g), snap.objects;
    PlainIsIndexed(g, objs);
    PlainStats(l, objs);
    PlainEdges(l, objs, m, |objs|);
    PlainSize(objs, |objs|);
    forall i | 0 <= i < |objs|
      ensures g.objects[i] == Object(objs[i].addr, objs[i].size, ChildrenAt(l, objs, m, i))
    {
      PlainHasNoEdges(l, objs, m, i);
    }
    TwinGoroutines(l, snap, p, s, q, t);
    NoGlobals(l, snap, p, q);
  }

  // The failing input of the paths export is what such a snapshot with two objects
  // builds to.
  lemma ShadowExampleIsBuilt(snap: Snapshot, m: nat, b: Built)
    requires IsTwinSnapshot(snap, 8, 16) && IsPlain(snap.objects) && |snap.objects| == 2 <= m
    requires b.analysis == ExportPaths.ShadowExample()
    requires CountsNothing(b.pointers) && b.edges == 0 && b.unresolved == Misses(0, 0, 0, 0) && b.objectBytes == 16
    ensures IsBuiltFrom(snap, false, m, b)
  {
    var g := b.analysis.graph;
    assert Addr(0) == 8 && Addr(1) == 16;
    TwinsBuild(snap, g, 8, 0, 16, 1, m, b);
  }

  // ... and that of the group table, with one object.
  lemma SharedExampleIsBuilt(snap: Snapshot, m: nat, b: Built)
    requires IsTwinSnapshot(snap, 8, 8) && IsPlain(snap.objects) && |snap.objects| == 1 <= m
    requires b.analysis == Agreement.SharedExample()
    requires CountsNothing(b.pointers) && b.edges == 0 && b.unresolved == Misses(0, 0, 0, 0) && b.objectBytes == 8
    ensures IsBuiltFrom(snap, false, m, b)
  {
    var g := b.analysis.graph;
    assert Addr(0) == 8;
    TwinsBuild(snap, g, 8, 0, 8, 0, m, b);
  }

  // There are such snapshots: the fields left open may hold anything.
  lemma TwinSnapshotExists(base: Snapshot, o: HeapObject, w: u64, text: seq<byte>, p: u64, q: u64, n: nat) returns (snap: Snapshot)
    requires p != 0 && q != 0 && n <= 2
    ensures IsTwinSnapshot(snap, p, q) && IsPlain(snap.objects) && |snap.objects| == n
  {
    var first := HeapGoroutine(w, w, 1, w, w, false, false, w, text, Sched(p, w, 0, 0), []);
    var second := first.(isSystem := true, sched := Sched(q, w, 0, 0));
    var objects := seq(n, (i: int) requires 0 <= i < n => o.(addr := 8 * (i + 1), size := 8, pointerAddrs := []));
    snap := base.(objects := objects, goroutines := [first, second], globals := [], data := [], bss := [], finalizers := [], queued := []);
  }
}
