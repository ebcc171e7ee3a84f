// Build: from a parsed snapshot to the analysis (internal/snapshotgraph/build.go).
// m is the number of object IDs and of stamps, 2^32 in the source.
module Build {
  import opened Words
  import opened Wrappers
  import opened Graphs
  import opened Analyses
  import Search
  import opened Firsts
  import opened Heap
  import opened Order
  import opened ObjectIndex
  import opened Picks
  import opened Resolution
  import opened Edges
  import opened GraphRoots

  datatype Misses = Misses(objects: nat, goroutines: nat, globals: nat, finalizers: nat)

  datatype Built = Built(analysis: Analysis, pointers: PointerStats, edges: nat, unresolved: Misses, objectBytes: nat)

  // ---- Objects ----

  function TotalSize(objs: seq<HeapObject>, n: nat): nat
    requires n <= |objs|
  {
    if n == 0 then 0 else TotalSize(objs, n - 1) + objs[n - 1].size
  }

  method SumSizes(objs: seq<HeapObject>) returns (bytes: u64, ok: bool)
    ensures ok <==> TotalSize(objs, |objs|) <= MAX_U64
    ensures ok ==> bytes == TotalSize(objs, |objs|)
  {
    bytes := 0;
    for i := 0 to |objs|
      invariant bytes == TotalSize(objs, i)
    {
      if objs[i].size > MAX_U64 - bytes {
        SizesGrow(objs, i + 1, |objs|);
        return bytes, false;
      }
      bytes := bytes + objs[i].size;
    }
    ok := true;
  }

  lemma {:induction false} SizesGrow(objs: seq<HeapObject>, k: nat, n: nat)
    requires k <= n <= |objs|
    ensures TotalSize(objs, k) <= TotalSize(objs, n)
  {
    if k < n {
      SizesGrow(objs, k, n - 1);
    }
  }

  // The dump can be built: not too many objects, in strict mode no duplicate,
  // wrapping or overlapping ranges, and a total that fits 64 bits.
  ghost predicate Buildable(objs: seq<HeapObject>, strict: bool, m: nat)
  {
    && |objs| <= m
    && (strict ==> IsWellFormed(objs))
    && TotalSize(objs, |objs|) <= MAX_U64
  }

  // Registration and the scan together reject exactly the ill-formed dumps.
  lemma StrictChecks(objs: seq<HeapObject>, ranges: seq<ObjectRange>, m: nat)
    requires forall i :: 0 <= i < |objs| ==> Refusal(objs, i, true, m).None?
    requires IsRangeTable(objs, |objs|, ranges)
    ensures IsWellFormed(objs) <==> Disjoint(ranges)
  {
    if Disjoint(ranges) {
      forall i, j | 0 <= i < |objs| && 0 <= j < |objs| && i != j && IsRanged(objs, i) && IsRanged(objs, j)
        ensures !Overlap(RangeOf(objs, i), RangeOf(objs, j))
      {
        var k :| 0 <= k < |ranges| && ranges[k] == RangeOf(objs, i);
        var l :| 0 <= l < |ranges| && ranges[l] == RangeOf(objs, j);
        OverlapSymmetric(ranges[k], ranges[l]);
        if k < l {
          assert !Overlap(ranges[k], ranges[l]);
        } else {
          assert !Overlap(ranges[l], ranges[k]);
        }
      }
      forall i | 0 <= i < |objs|
        ensures !IsDuplicate(objs, i) && (IsRanged(objs, i) ==> !Wraps(objs[i]))
      {
        assert Refusal(objs, i, true, m).None?;
      }
    }
    if IsWellFormed(objs) {
      forall k, l | 0 <= k < l < |ranges|
        ensures !Overlap(ranges[k], ranges[l])
      {
        var i, j := ranges[k].id, ranges[l].id;
        assert ranges[k] == RangeOf(objs, i) && ranges[l] == RangeOf(objs, j);
      }
    }
  }

  lemma OverlapSymmetric(a: ObjectRange, b: ObjectRange)
    ensures Overlap(a, b) <==> Overlap(b, a)
  {
    if Overlap(a, b) {
      var p: int :| Inside(a, p) && Inside(b, p);
      assert Inside(b, p) && Inside(a, p);
    }
    if Overlap(b, a) {
      var p: int :| Inside(b, p) && Inside(a, p);
      assert Inside(a, p) && Inside(b, p);
    }
  }

  lemma CountRefused(objs: seq<HeapObject>, strict: bool, m: nat)
    requires |objs| > m
    ensures exists i :: 0 <= i < |objs| && Refusal(objs, i, strict, m).Some?
  {
    assert Refusal(objs, m, strict, m).Some?;
  }

  ghost predicate MeetsAbove(objs: seq<HeapObject>, j: nat, i: nat)
  {
    && i < |objs| && j < |objs| && IsRanged(objs, i) && IsRanged(objs, j)
    && objs[j].addr < objs[i].addr && Overlap(RangeOf(objs, j), RangeOf(objs, i))
  }

  // The range of object i meets one that starts below it.
  ghost predicate MeetsLower(objs: seq<HeapObject>, i: nat)
  {
    exists j: nat :: MeetsAbove(objs, j, i)
  }

  ghost predicate IsFirstOverlap(objs: seq<HeapObject>, i: nat)
  {
    && i < |objs| && MeetsLower(objs, i)
    && forall k: nat :: k < |objs| && MeetsLower(objs, k) ==> objs[i].addr <= objs[k].addr
  }

  // Which failure it is: the refusal of the first refused object; failing that, the
  // lowest overlap; failing that, the total.
  ghost predicate IsFailure(objs: seq<HeapObject>, strict: bool, m: nat, e: BuildError)
  {
    match e
    case OverlappingRanges(addr) => strict && NoneRefused(objs, strict, m) && exists i: nat :: IsFirstOverlap(objs, i) && addr == objs[i].addr
    case TotalBytesOverflow => |objs| <= m && (strict ==> IsWellFormed(objs)) && TotalSize(objs, |objs|) > MAX_U64
    case _ => exists i: nat :: RefusedAt(objs, i, strict, m, e)
  }

  ghost predicate NoneRefused(objs: seq<HeapObject>, strict: bool, m: nat)
  {
    forall i :: 0 <= i < |objs| ==> Refusal(objs, i, strict, m).None?
  }

  lemma CollidesMeans(objs: seq<HeapObject>, ranges: seq<ObjectRange>, k: nat)
    requires IsRangeTable(objs, |objs|, ranges) && IsSorted(ranges) && k < |ranges|
    ensures Collides(ranges, k) <==> MeetsLower(objs, ranges[k].id)
  {
    var i := ranges[k].id;
    if Collides(ranges, k) {
      var l :| 0 <= l < k && Overlap(ranges[l], ranges[k]);
      assert MeetsAbove(objs, ranges[l].id, i);
    }
    if MeetsLower(objs, i) {
      var j: nat :| MeetsAbove(objs, j, i);
      var l :| 0 <= l < |ranges| && ranges[l] == RangeOf(objs, j);
      assert ranges[l].start < ranges[k].start;
      assert l < k;
    }
  }

  lemma FirstOverlap(objs: seq<HeapObject>, ranges: seq<ObjectRange>, k: nat)
    requires IsRangeTable(objs, |objs|, ranges) && IsSorted(ranges) && FirstCollision(ranges, k)
    ensures ranges[k].id < |objs| && IsFirstOverlap(objs, ranges[k].id) && objs[ranges[k].id].addr == ranges[k].start
  {
    CollidesMeans(objs, ranges, k);
    forall i: nat | i < |objs| && MeetsLower(objs, i)
      ensures ranges[k].start <= objs[i].addr
    {
      var j: nat :| MeetsAbove(objs, j, i);
      var l :| 0 <= l < |ranges| && ranges[l] == RangeOf(objs, i);
      CollidesMeans(objs, ranges, l);
      assert k <= l;
    }
  }

  // Registration, the sort and the overlap scan.
  method IndexObjects(objs: seq<HeapObject>, strict: bool, m: nat) returns (r: Result<Lookup, BuildError>)
    ensures r.Ok? <==> |objs| <= m && (strict ==> IsWellFormed(objs))
    ensures r.Err? ==> IsFailure(objs, strict, m, r.error) && !r.error.TotalBytesOverflow?
    ensures r.Ok? ==> IsIndexed(objs, r.value)
  {
    var reg := RegisterObjects(objs, strict, m);
    if reg.Err? {
      IllFormed(objs, strict, m);
      return Err(reg.error);
    }
    if |objs| > m {
      CountRefused(objs, strict, m);
    }
    var ranges := SortByKey(reg.value.ranges, Start);
    TableIsSorted(objs, reg.value.ranges, ranges);
    var warnings, bad := ScanOverlaps(ranges, strict);
    if strict {
      StrictChecks(objs, ranges, m);
    }
    if bad.Some? {
      ghost var k: nat :| FirstCollision(ranges, k) && bad.value == ranges[k].start;
      FirstOverlap(objs, ranges, k);
      assert IsFirstOverlap(objs, ranges[k].id);
      return Err(OverlappingRanges(bad.value));
    }
    return Ok(Lookup(|objs|, reg.value.byAddr, ranges));
  }

  lemma IllFormed(objs: seq<HeapObject>, strict: bool, m: nat)
    requires exists i :: 0 <= i < |objs| && Refusal(objs, i, strict, m).Some?
    ensures |objs| > m || (strict && !IsWellFormed(objs))
  {
    var i :| 0 <= i < |objs| && Refusal(objs, i, strict, m).Some?;
    if IsWellFormed(objs) {
      assert !IsDuplicate(objs, i);
    }
  }

  // ---- Goroutines ----

  function GoroutineOf(l: Lookup, gr: HeapGoroutine): Goroutine
  {
    Goroutine(gr.id, gr.isSystem, gr.isBackground, GoroutineFound(l, gr).roots)
  }

  function GoroutinesUpTo(l: Lookup, grs: seq<HeapGoroutine>, n: nat): seq<Goroutine>
    requires n <= |grs|
  {
    if n == 0 then [] else GoroutinesUpTo(l, grs, n - 1) + [GoroutineOf(l, grs[n - 1])]
  }

  function StackMisses(l: Lookup, grs: seq<HeapGoroutine>, n: nat): nat
    requires n <= |grs|
  {
    if n == 0 then 0 else StackMisses(l, grs, n - 1) + GoroutineFound(l, grs[n - 1]).unresolved
  }

  method ResolveGoroutines(l: Lookup, grs: seq<HeapGoroutine>) returns (gs: seq<Goroutine>, unresolved: nat)
    requires IsSorted(l.ranges)
    ensures gs == GoroutinesUpTo(l, grs, |grs|) && unresolved == StackMisses(l, grs, |grs|)
  {
    gs, unresolved := [], 0;
    for i := 0 to |grs|
      invariant gs == GoroutinesUpTo(l, grs, i) && unresolved == StackMisses(l, grs, i)
    {
      var f := GoroutineRoots(l, grs[i]);
      gs := gs + [Goroutine(grs[i].id, grs[i].isSystem, grs[i].isBackground, f.roots)];
      unresolved := unresolved + f.unresolved;
    }
  }

  // ---- The whole build ----

  ghost predicate IsGraphOf(snap: Snapshot, keep: bool, m: nat, g: Graph)
  {
    var objs, l := snap.objects, LookupOf(g);
    && IsIndexed(objs, l) && |objs| <= m
    && (forall i :: 0 <= i < |objs| ==> g.objects[i] == Object(objs[i].addr, objs[i].size, ChildrenAt(l, objs, m, i)))
    && g.references == if keep then ReferencesUpTo(l, objs, |objs|) else []
  }

  ghost predicate IsBuiltFrom(snap: Snapshot, keep: bool, m: nat, b: Built)
  {
    var g, l := b.analysis.graph, LookupOf(b.analysis.graph);
    && IsGraphOf(snap, keep, m, g)
    && b.analysis.goroutines == GoroutinesUpTo(l, snap.goroutines, |snap.goroutines|)
    && b.analysis.globals == GlobalsIn(l, SnapshotCandidates(snap)).roots + FinalizerFound(l, snap).roots
    && b.pointers == StatsUpTo(l, snap.objects, |snap.objects|)
    && b.edges == EdgeTotal(ChildrenUpTo(l, snap.objects, m, |snap.objects|), |snap.objects|)
    && b.unresolved == Misses(b.pointers.unresolved, StackMisses(l, snap.goroutines, |snap.goroutines|),
                                  GlobalsIn(l, SnapshotCandidates(snap)).unresolved, FinalizerFound(l, snap).unresolved)
    && b.objectBytes == TotalSize(snap.objects, |snap.objects|) <= MAX_U64
  }

  method BuildGraph(l: Lookup, snap: Snapshot, keep: bool, m: nat)
    returns (g: Graph, pointers: PointerStats, edges: nat)
    requires IsIndexed(snap.objects, l) && |snap.objects| <= m
    ensures LookupOf(g) == l && IsGraphOf(snap, keep, m, g)
    ensures pointers == StatsUpTo(l, snap.objects, |snap.objects|)
    ensures edges == EdgeTotal(ChildrenUpTo(l, snap.objects, m, |snap.objects|), |snap.objects|)
  {
    var objs := snap.objects;
    forall p: u64
      ensures Resolve(l, p).Some? ==> Resolve(l, p).value < l.count
    {
      ResolvedIsValid(objs, l, p);
    }
    var children, references, stats := ResolveEdges(l, objs, keep, m);
    ChildrenUpToAt(l, objs, m, |objs|);
    var objects := seq(|objs|, (i: int) requires 0 <= i < |objs| && |children| == |objs| =>
      Object(objs[i].addr, objs[i].size, children[i]));
    g := Graph(objects, l.byAddr, references, l.ranges);
    pointers := stats;
    edges := 0;
    for i := 0 to |objs|
      invariant edges == EdgeTotal(children, i)
    {
      edges := edges + |objects[i].children|;
    }
  }

  method Build(snap: Snapshot, strict: bool, keep: bool, m: nat) returns (r: Result<Built, BuildError>)
    ensures r.Ok? <==> Buildable(snap.objects, strict, m)
    ensures r.Ok? ==> IsBuiltFrom(snap, keep, m, r.value)
    ensures r.Err? ==> IsFailure(snap.objects, strict, m, r.error)
  {
    var l :- IndexObjects(snap.objects, strict, m);
    var g, pointers, edges := BuildGraph(l, snap, keep, m);
    var gs, stackMisses := ResolveGoroutines(l, snap.goroutines);
    var globals, globalMisses, finalizerMisses := GlobalRoots(l, snap);
    var bytes, ok := SumSizes(snap.objects);
    if !ok {
      return Err(TotalBytesOverflow);
    }
    return Ok(Built(Analysis(g, gs, globals), pointers, edges,
                    Misses(pointers.unresolved, stackMisses, globalMisses, finalizerMisses), bytes));
  }

  // ---- What a build promises ----

  // Every object's children are its distinct resolved targets in the order of
  // their first slot, exactly when the stamps suffice.
  lemma ChildrenAreDistinctTargets(snap: Snapshot, keep: bool, m: nat, b: Built)
    requires 0 < m && IsBuiltFrom(snap, keep, m, b)
    ensures (forall i :: 0 <= i < |snap.objects| ==>
               b.analysis.graph.objects[i].children == Fresh(Targets(LookupOf(b.analysis.graph), snap.objects[i]), {}))
       <==> StampsSuffice(LookupOf(b.analysis.graph), snap.objects, m)
  {
    var objs, l := snap.objects, LookupOf(b.analysis.graph);
    ResolutionIsValid(objs, l);
    StampsSufficeIffDistinct(l, objs, m);
  }

  lemma ResolutionIsValid(objs: seq<HeapObject>, l: Lookup)
    requires IsIndexed(objs, l)
    ensures AllValid(l)
  {
    forall p: u64
      ensures Resolve(l, p).Some? ==> Resolve(l, p).value < l.count
    {
      ResolvedIsValid(objs, l, p);
    }
  }

  // The accounting documented with the statistics.
  lemma StatsBalance(snap: Snapshot, keep: bool, m: nat, b: Built)
    requires IsBuiltFrom(snap, keep, m, b)
    ensures b.pointers.raw == SlotCount(snap.objects, |snap.objects|)
    ensures b.pointers.raw == b.pointers.zero + b.pointers.resolved + b.pointers.unresolved
    ensures b.edges <= b.pointers.resolved
  {
    var objs, l := snap.objects, LookupOf(b.analysis.graph);
    PointersAccounted(l, objs, |objs|);
    RawCountsSlots(l, objs, |objs|);
    EdgesWithinResolved(l, objs, m, |objs|);
  }

  // With provenance every edge keeps a slot, and every kept slot of a build
  // whose stamps suffice is an edge.
  lemma EdgesHaveSlots(snap: Snapshot, m: nat, b: Built, i: nat, c: ObjectID)
    requires 0 < m && IsBuiltFrom(snap, true, m, b) && i < |snap.objects|
    ensures |b.analysis.graph.references| == |snap.objects|
    ensures var l, o := LookupOf(b.analysis.graph), snap.objects[i];
      IsPicked(b.analysis.graph.references[i], |o.pointerAddrs|, ResolvingSlots(l, o), KeptSlots(l, o))
    ensures c in b.analysis.graph.objects[i].children ==>
      exists k :: 0 <= k < |b.analysis.graph.references[i]| && b.analysis.graph.references[i][k].target == c
    ensures StampsSuffice(LookupOf(b.analysis.graph), snap.objects, m) ==>
      forall k :: 0 <= k < |b.analysis.graph.references[i]| ==>
        b.analysis.graph.references[i][k].target in b.analysis.graph.objects[i].children
  {
    var objs, l, o := snap.objects, LookupOf(b.analysis.graph), snap.objects[i];
    ReferencesUpToAt(l, objs, |objs|);
    SlotsMatchTargets(l, o, |o.pointerAddrs|);
    SlotsMean(l, o, |o.pointerAddrs|);
    FreshMembers(Targets(l, o), Blocked(l, objs, m, i));
    if StampsSuffice(l, objs, m) {
      ChildrenAreDistinctTargets(snap, true, m, b);
      FreshMembers(Targets(l, o), {});
    }
  }

  lemma {:induction false} BytesIsTotal(objs: seq<HeapObject>, objects: seq<Object>, s: set<ObjectID>, n: nat)
    requires n <= |objs| == |objects| && forall i :: 0 <= i < n ==> i in s && objects[i].size == objs[i].size
    ensures BytesUpTo(objects, s, n) == TotalSize(objs, n)
  {
    if n > 0 {
      BytesIsTotal(objs, objects, s, n - 1);
    }
  }

  // After a build no set of objects has more bytes than 64 bits hold, so
  // measuring one never fails.
  lemma MeasuresNeverOverflow(snap: Snapshot, keep: bool, m: nat, b: Built, s: set<ObjectID>)
    requires IsBuiltFrom(snap, keep, m, b)
    requires forall id :: id in s ==> b.analysis.graph.ValidID(id)
    ensures Bytes(b.analysis.graph, s) <= b.objectBytes <= MAX_U64
  {
    var g, objs := b.analysis.graph, snap.objects;
    BytesIsTotal(objs, g.objects, Search.Below(|g.objects|), |objs|);
    BytesMonotone(g, s, Search.Below(|g.objects|));
  }

  // A segment pass over a parsed snapshot is redundant: the global roots are
  // those of the parser's own list.
  lemma ParsedGlobals(snap: Snapshot, keep: bool, m: nat, b: Built)
    requires IsBuiltFrom(snap, keep, m, b)
    requires AllListed(snap.data, "data", snap.globals) && AllListed(snap.bss, "bss", snap.globals)
    ensures b.analysis.globals ==
      GlobalsIn(LookupOf(b.analysis.graph), GlobalCandidates(snap.globals, |snap.globals|)).roots
      + FinalizerFound(LookupOf(b.analysis.graph), snap).roots
    ensures b.unresolved.globals ==
      GlobalsIn(LookupOf(b.analysis.graph), GlobalCandidates(snap.globals, |snap.globals|)).unresolved
  {
    SecondPassAddsNothing(LookupOf(b.analysis.graph), snap);
  }
}
