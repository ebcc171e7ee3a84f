// Resolving a pointer value to the object that contains it
// (FindObjectContaining, internal/snapshotgraph/graph.go).
module Resolution {
  import opened Words
  import opened Wrappers
  import opened Graphs
  import opened Heap
  import opened Order
  import opened ObjectIndex

  // The part of a graph that resolution reads.
  datatype Lookup = Lookup(count: nat, byAddr: map<u64, ObjectID>, ranges: seq<ObjectRange>)

  function LookupOf(g: Graph): Lookup
  {
    Lookup(|g.objects|, g.byAddr, g.ranges)
  }

  // The number of leading ranges, of the first n, that start at or below ptr.
  function LastBelow(ranges: seq<ObjectRange>, n: nat, ptr: u64): (k: nat)
    requires n <= |ranges|
    ensures k <= n
    ensures k > 0 ==> ranges[k - 1].start <= ptr
    ensures forall i :: k <= i < n ==> ptr < ranges[i].start
  {
    var k := LastUpTo(ranges, Start, n, ptr);
    assert k > 0 ==> Start(ranges[k - 1]) <= ptr;
    assert forall i :: k <= i < n ==> ptr < Start(ranges[i]);
    k
  }

  function Resolve(g: Lookup, ptr: u64): Option<ObjectID>
  {
    if ptr == 0 then None
    else if ptr in g.byAddr then Some(g.byAddr[ptr])
    else
      var k := LastBelow(g.ranges, |g.ranges|, ptr);
      if k > 0 && ptr < g.ranges[k - 1].end then Some(g.ranges[k - 1].id) else None
  }

  method FindObjectContaining(g: Lookup, ptr: u64) returns (r: Option<ObjectID>)
    requires IsSorted(g.ranges)
    ensures r == Resolve(g, ptr)
  {
    if ptr == 0 {
      return None;
    }
    if ptr in g.byAddr {
      return Some(g.byAddr[ptr]);
    }
    if |g.ranges| == 0 {
      return None;
    }
    var idx := SearchAbove(g.ranges, Start, ptr);
    if idx == 0 {
      return None;
    }
    var range := g.ranges[idx - 1];
    return if ptr < range.end then Some(range.id) else None;
  }

  // The lookup tables describe the dump's objects.
  ghost predicate IsIndexed(objs: seq<HeapObject>, g: Lookup)
  {
    && g.count == |objs|
    && IsAddressMap(objs, |objs|, g.byAddr)
    && IsRangeTable(objs, |objs|, g.ranges)
    && IsSorted(g.ranges)
  }

  ghost predicate HasAddress(objs: seq<HeapObject>, ptr: u64)
  {
    exists i :: 0 <= i < |objs| && objs[i].addr == ptr
  }

  // What resolution answers, whatever the dump: the first object at that very
  // address; failing that, of the ranged objects that start below ptr the one
  // that starts last, and only if ptr lies inside it.
  ghost predicate Resolves(objs: seq<HeapObject>, ptr: u64, id: ObjectID)
  {
    && ptr != 0 && id < |objs|
    && if HasAddress(objs, ptr) then objs[id].addr == ptr && IsFirst(objs, id)
       else
         && IsRanged(objs, id) && objs[id].addr < ptr < EndOf(objs[id])
         && forall j :: 0 <= j < |objs| && IsRanged(objs, j) && objs[j].addr < ptr ==> objs[j].addr <= objs[id].addr
  }

  lemma ResolveMeans(objs: seq<HeapObject>, g: Lookup, ptr: u64, id: ObjectID)
    requires IsIndexed(objs, g)
    ensures Resolve(g, ptr) == Some(id) <==> Resolves(objs, ptr, id)
  {
    if ptr == 0 {
    } else if HasAddress(objs, ptr) {
      var i :| 0 <= i < |objs| && objs[i].addr == ptr;
      assert ptr in g.byAddr;
    } else {
      assert ptr !in g.byAddr;
      InteriorMeans(objs, g.ranges, ptr, id);
    }
  }

  // The last range that starts below ptr starts no earlier than any other.
  lemma BelowLast(objs: seq<HeapObject>, ranges: seq<ObjectRange>, ptr: u64, k: nat, j: nat)
    requires IsRangeTable(objs, |objs|, ranges) && IsSorted(ranges) && k == LastBelow(ranges, |ranges|, ptr)
    requires j < |objs| && IsRanged(objs, j) && objs[j].addr < ptr
    ensures k > 0 && objs[j].addr <= ranges[k - 1].start
  {
    var l :| 0 <= l < |ranges| && ranges[l] == RangeOf(objs, j);
    assert l < k;
  }

  lemma {:induction false} InteriorMeans(objs: seq<HeapObject>, ranges: seq<ObjectRange>, ptr: u64, id: ObjectID)
    requires IsRangeTable(objs, |objs|, ranges) && IsSorted(ranges)
    requires ptr != 0 && !HasAddress(objs, ptr)
    ensures Resolves(objs, ptr, id) <==>
      (var k := LastBelow(ranges, |ranges|, ptr); k > 0 && ptr < ranges[k - 1].end && ranges[k - 1].id == id)
  {
    var k := LastBelow(ranges, |ranges|, ptr);
    forall j | 0 <= j < |objs| && IsRanged(objs, j) && objs[j].addr < ptr
      ensures k > 0 && objs[j].addr <= ranges[k - 1].start
    {
      BelowLast(objs, ranges, ptr, k, j);
    }
    if Resolves(objs, ptr, id) {
      assert ranges[k - 1].id < |objs| && IsRanged(objs, ranges[k - 1].id);
      assert objs[ranges[k - 1].id].addr == objs[id].addr;
      assert IsFirst(objs, id) && IsFirst(objs, ranges[k - 1].id);
    }
  }

  // A strict build leaves no duplicate address, no clamped range and no overlap.
  ghost predicate IsWellFormed(objs: seq<HeapObject>)
  {
    && (forall i :: 0 <= i < |objs| ==> !IsDuplicate(objs, i))
    && (forall i :: 0 <= i < |objs| && IsRanged(objs, i) ==> !Wraps(objs[i]))
    && (forall i, j {:trigger RangeOf(objs, i), RangeOf(objs, j)} ::
          0 <= i < |objs| && 0 <= j < |objs| && i != j && IsRanged(objs, i) && IsRanged(objs, j)
          ==> !Overlap(RangeOf(objs, i), RangeOf(objs, j)))
  }

  // ptr is the object's address or lies strictly inside it.
  predicate Contains(o: HeapObject, ptr: u64)
  {
    o.addr != 0 && (o.addr == ptr || o.addr < ptr < o.addr + o.size)
  }

  // ptr is the object's own address, or nobody's and inside the object.
  ghost predicate Owns(objs: seq<HeapObject>, id: nat, ptr: u64)
    requires id < |objs|
  {
    Contains(objs[id], ptr) && (HasAddress(objs, ptr) ==> objs[id].addr == ptr)
  }

  // After a strict build, resolution answers exactly the object that owns the
  // pointer, and at most one object does.
  lemma StrictResolve(objs: seq<HeapObject>, g: Lookup, ptr: u64, id: ObjectID)
    requires IsIndexed(objs, g) && IsWellFormed(objs)
    ensures Resolve(g, ptr) == Some(id) <==> id < |objs| && Owns(objs, id, ptr)
  {
    ResolveMeans(objs, g, ptr, id);
    if id < |objs| {
      assert !IsDuplicate(objs, id);
      assert IsRanged(objs, id) ==> !Wraps(objs[id]);
    }
    if id < |objs| && Owns(objs, id, ptr) && !HasAddress(objs, ptr) {
      assert !IsDuplicate(objs, id) && IsRanged(objs, id);
      forall j | 0 <= j < |objs| && IsRanged(objs, j) && objs[j].addr < ptr
        ensures objs[j].addr <= objs[id].addr
      {
        SharedAddress(RangeOf(objs, id), RangeOf(objs, j), objs[j].addr);
      }
    }
  }

  // Ranges that share an address overlap.
  lemma SharedAddress(a: ObjectRange, b: ObjectRange, p: int)
    ensures Inside(a, p) && Inside(b, p) ==> Overlap(a, b)
  {}

  lemma OwnerIsUnique(objs: seq<HeapObject>, ptr: u64, a: nat, b: nat)
    requires IsWellFormed(objs) && a < |objs| && b < |objs|
    requires Owns(objs, a, ptr) && Owns(objs, b, ptr)
    ensures a == b
  {
    assert !IsDuplicate(objs, a) && !IsDuplicate(objs, b);
    SharedAddress(RangeOf(objs, a), RangeOf(objs, b), ptr);
    if HasAddress(objs, ptr) {
      assert objs[a].addr == objs[b].addr;
      assert IsFirst(objs, a) && IsFirst(objs, b);
    } else {
      assert IsRanged(objs, a) && IsRanged(objs, b);
      assert Inside(RangeOf(objs, a), ptr) && Inside(RangeOf(objs, b), ptr);
    }
  }

  // Whatever resolves is an object of the graph.
  lemma ResolvedIsValid(objs: seq<HeapObject>, g: Lookup, ptr: u64)
    requires IsIndexed(objs, g)
    ensures Resolve(g, ptr).Some? ==> Resolve(g, ptr).value < g.count
  {}
}
