// Registering dump objects: the first half of Build
// (internal/snapshotgraph/build.go). m is the number of object IDs, 2^32 in the source.
module ObjectIndex {
  import opened Words
  import opened Wrappers
  import opened Graphs
  import opened Heap
  import opened Order

  datatype BuildError =
    | DuplicateAddress(addr: u64)
    | TooManyObjects
    | RangeOverflow(addr: u64)
    | OverlappingRanges(addr: u64)
    | TotalBytesOverflow

  datatype Registry = Registry(objects: seq<Object>, byAddr: map<u64, ObjectID>, ranges: seq<ObjectRange>)

  // The first object with this non-zero address.
  predicate IsFirst(objs: seq<HeapObject>, i: nat)
    requires i < |objs|
  {
    objs[i].addr != 0 && forall j :: 0 <= j < i ==> objs[j].addr != objs[i].addr
  }

  predicate IsDuplicate(objs: seq<HeapObject>, i: nat)
    requires i < |objs|
  {
    objs[i].addr != 0 && !IsFirst(objs, i)
  }

  predicate Wraps(o: HeapObject) { o.addr + o.size > MAX_U64 }

  // End of the registered range; clamped when it would leave the address space.
  function EndOf(o: HeapObject): u64
  {
    if Wraps(o) then MAX_U64 else o.addr + o.size
  }

  predicate IsRanged(objs: seq<HeapObject>, i: nat)
    requires i < |objs|
  {
    IsFirst(objs, i) && objs[i].size > 0
  }

  function RangeOf(objs: seq<HeapObject>, i: nat): ObjectRange
    requires i < |objs|
  {
    ObjectRange(objs[i].addr, EndOf(objs[i]), i)
  }

  // What Build reports at object i.
  function Refusal(objs: seq<HeapObject>, i: nat, strict: bool, m: nat): Option<BuildError>
    requires i < |objs|
  {
    if strict && IsDuplicate(objs, i) then Some(DuplicateAddress(objs[i].addr))
    else if i >= m then Some(TooManyObjects)
    else if strict && IsRanged(objs, i) && Wraps(objs[i]) then Some(RangeOverflow(objs[i].addr))
    else None
  }

  ghost predicate RefusedAt(objs: seq<HeapObject>, i: nat, strict: bool, m: nat, e: BuildError)
  {
    && i < |objs|
    && Refusal(objs, i, strict, m) == Some(e)
    && forall j :: 0 <= j < i ==> Refusal(objs, j, strict, m).None?
  }

  // byAddr sends every non-zero address to the first of the n objects that has it.
  ghost predicate IsAddressMap(objs: seq<HeapObject>, n: nat, byAddr: map<u64, ObjectID>)
    requires n <= |objs|
  {
    && (forall a :: a in byAddr ==> byAddr[a] < n && objs[byAddr[a]].addr == a && IsFirst(objs, byAddr[a]))
    && (forall i :: 0 <= i < n && objs[i].addr != 0 ==> objs[i].addr in byAddr)
  }

  // The ranges, unordered: exactly the first objects of non-zero size.
  ghost predicate IsRangeTable(objs: seq<HeapObject>, n: nat, ranges: seq<ObjectRange>)
    requires n <= |objs|
  {
    && (forall k :: 0 <= k < |ranges| ==>
          ranges[k].id < n && IsRanged(objs, ranges[k].id) && ranges[k] == RangeOf(objs, ranges[k].id))
    && (forall i :: 0 <= i < n && IsRanged(objs, i) ==> RangeOf(objs, i) in ranges)
    && (forall k, l :: 0 <= k < l < |ranges| ==> ranges[k].id != ranges[l].id)
  }

  ghost predicate SameObjects(objs: seq<HeapObject>, n: nat, objects: seq<Object>)
    requires n <= |objs|
  {
    && |objects| == n
    && forall i :: 0 <= i < n ==> objects[i] == Object(objs[i].addr, objs[i].size, [])
  }

  // The table entry, if any, of object i.
  function EntryOf(objs: seq<HeapObject>, i: nat): seq<ObjectRange>
    requires i < |objs|
  {
    if IsRanged(objs, i) then [RangeOf(objs, i)] else []
  }

  lemma KnownAddress(objs: seq<HeapObject>, i: nat, byAddr: map<u64, ObjectID>)
    requires i < |objs| && IsAddressMap(objs, i, byAddr)
    ensures objs[i].addr != 0 ==> (objs[i].addr in byAddr <==> !IsFirst(objs, i))
    ensures IsAddressMap(objs, i + 1, if IsFirst(objs, i) then byAddr[objs[i].addr := i] else byAddr)
  {}

  lemma AddEntry(objs: seq<HeapObject>, i: nat, ranges: seq<ObjectRange>)
    requires i < |objs| && IsRangeTable(objs, i, ranges)
    ensures IsRangeTable(objs, i + 1, ranges + EntryOf(objs, i))
  {
    var t := ranges + EntryOf(objs, i);
    forall k | 0 <= k < i + 1 && IsRanged(objs, k)
      ensures RangeOf(objs, k) in t
    {
      if k < i {
        assert RangeOf(objs, k) in ranges;
      } else {
        assert t[|ranges|] == RangeOf(objs, i);
      }
    }
  }

  // The range end as computed, with the wrap-around test.
  method RangeEnd(o: HeapObject) returns (end: u64, wrapped: bool)
    requires o.size > 0
    ensures wrapped == Wraps(o) && end == EndOf(o)
  {
    end := (o.addr + o.size) % TWO64;
    wrapped := end < o.addr;
    if wrapped {
      end := MAX_U64;
    }
  }

  method RegisterObjects(objs: seq<HeapObject>, strict: bool, m: nat) returns (r: Result<Registry, BuildError>)
    ensures r.Err? <==> exists i :: 0 <= i < |objs| && Refusal(objs, i, strict, m).Some?
    ensures r.Err? ==> exists i :: RefusedAt(objs, i, strict, m, r.error)
    ensures r.Ok? ==> SameObjects(objs, |objs|, r.value.objects)
    ensures r.Ok? ==> IsAddressMap(objs, |objs|, r.value.byAddr)
    ensures r.Ok? ==> IsRangeTable(objs, |objs|, r.value.ranges)
  {
    var objects: seq<Object>, byAddr: map<u64, ObjectID>, ranges: seq<ObjectRange> := [], map[], [];
    for i := 0 to |objs|
      invariant forall j :: 0 <= j < i ==> Refusal(objs, j, strict, m).None?
      invariant SameObjects(objs, i, objects)
      invariant IsAddressMap(objs, i, byAddr)
      invariant IsRangeTable(objs, i, ranges)
    {
      var src := objs[i];
      KnownAddress(objs, i, byAddr);
      AddEntry(objs, i, ranges);
      if src.addr != 0 && src.addr in byAddr && strict {
        assert RefusedAt(objs, i, strict, m, DuplicateAddress(src.addr));
        return Err(DuplicateAddress(src.addr));
      }
      if |objects| >= m {
        assert RefusedAt(objs, i, strict, m, TooManyObjects);
        return Err(TooManyObjects);
      }
      objects := objects + [Object(src.addr, src.size, [])];
      if src.addr == 0 || src.addr in byAddr {
        assert ranges + EntryOf(objs, i) == ranges;
        continue;
      }
      byAddr := byAddr[src.addr := i];
      if src.size == 0 {
        assert ranges + EntryOf(objs, i) == ranges;
        continue;
      }
      var end, wrapped := RangeEnd(src);
      if wrapped && strict {
        assert RefusedAt(objs, i, strict, m, RangeOverflow(src.addr));
        return Err(RangeOverflow(src.addr));
      }
      ranges := ranges + [ObjectRange(src.addr, end, i)];
    }
    return Ok(Registry(objects, byAddr, ranges));
  }

  // ---- Order and overlap ----

  function Start(r: ObjectRange): int { r.start }

  // Sorted by start, the starts strictly increase and no range ends before it starts.
  ghost predicate IsSorted(ranges: seq<ObjectRange>)
  {
    && (forall k :: 0 <= k < |ranges| ==> Proper(ranges[k]))
    && (forall k, l :: 0 <= k < l < |ranges| ==> ranges[k].start < ranges[l].start)
  }

  // Not empty, except for a clamped range at the very last address.
  predicate Proper(r: ObjectRange)
  {
    r.start < r.end || r.start == r.end == MAX_U64
  }

  ghost predicate Overlap(a: ObjectRange, b: ObjectRange)
  {
    exists p: int {:trigger Inside(a, p)} :: Inside(a, p) && Inside(b, p)
  }

  predicate Inside(r: ObjectRange, p: int) { r.start <= p < r.end }

  ghost predicate Disjoint(ranges: seq<ObjectRange>)
  {
    forall k, l :: 0 <= k < l < |ranges| ==> !Overlap(ranges[k], ranges[l])
  }

  // ranges[k] shares an address with a range before it.
  ghost predicate Collides(ranges: seq<ObjectRange>, k: nat)
    requires k < |ranges|
  {
    exists j :: 0 <= j < k && Overlap(ranges[j], ranges[k])
  }

  ghost function Collisions(ranges: seq<ObjectRange>, n: nat): nat
    requires n <= |ranges|
  {
    if n == 0 then 0
    else Collisions(ranges, n - 1) + (if Collides(ranges, n - 1) then 1 else 0)
  }

  // For ranges in start order, the comparison of the scan is exact.
  lemma OverlapIs(a: ObjectRange, b: ObjectRange)
    requires a.start < b.start && Proper(b)
    ensures Overlap(a, b) <==> b.start < a.end
  {
    if b.start < a.end {
      assert Inside(a, b.start) && Inside(b, b.start);
    }
  }

  // Sorting the range table by start.
  lemma TableIsSorted(objs: seq<HeapObject>, ranges: seq<ObjectRange>, sorted: seq<ObjectRange>)
    requires IsRangeTable(objs, |objs|, ranges)
    requires multiset(sorted) == multiset(ranges) && Ascending(sorted, Start)
    ensures IsSorted(sorted)
    ensures IsRangeTable(objs, |objs|, sorted)
  {
    SameElements(ranges, sorted);
    forall k | 0 <= k < |sorted|
      ensures sorted[k].id < |objs| && IsRanged(objs, sorted[k].id) && sorted[k] == RangeOf(objs, sorted[k].id)
      ensures Proper(sorted[k])
    {
      assert sorted[k] in ranges;
    }
    forall k, l | 0 <= k < l < |sorted|
      ensures sorted[k].start < sorted[l].start && sorted[k].id != sorted[l].id
    {
      var i, j := TwoPositions(ranges, sorted, k, l);
      assert ranges[if i < j then i else j].id != ranges[if i < j then j else i].id;
      assert Start(sorted[k]) <= Start(sorted[l]);
    }
    forall i | 0 <= i < |objs| && IsRanged(objs, i)
      ensures RangeOf(objs, i) in sorted
    {
      assert RangeOf(objs, i) in ranges;
    }
  }

  // The one-pass scan. It remembers only the range that ends last.
  method ScanOverlaps(ranges: seq<ObjectRange>, strict: bool) returns (warnings: nat, bad: Option<u64>)
    requires IsSorted(ranges)
    ensures bad.Some? <==> strict && !Disjoint(ranges)
    ensures bad.Some? ==> exists k: nat :: FirstCollision(ranges, k) && bad.value == ranges[k].start
    ensures bad.None? ==> warnings == Collisions(ranges, |ranges|)
  {
    warnings, bad := 0, None;
    if |ranges| == 0 {
      return 0, None;
    }
    ghost var b: nat := 0;
    var last := ranges[0];
    for i := 1 to |ranges|
      invariant b < i && last == ranges[b]
      invariant forall j :: 0 <= j < i ==> ranges[j].end <= last.end
      invariant warnings == Collisions(ranges, i)
      invariant strict ==> forall j :: 0 <= j < i ==> !Collides(ranges, j)
    {
      var cur := ranges[i];
      CollidesIs(ranges, i, b);
      if cur.start < last.end {
        if strict {
          assert FirstCollision(ranges, i);
          DisjointIs(ranges);
          return warnings, Some(cur.start);
        }
        warnings := warnings + 1;
      }
      if cur.end > last.end {
        last, b := cur, i;
      }
    }
    DisjointIs(ranges);
  }

  lemma DisjointIs(ranges: seq<ObjectRange>)
    ensures Disjoint(ranges) <==> forall k: nat :: k < |ranges| ==> !Collides(ranges, k)
  {
    if !Disjoint(ranges) {
      var k, l :| 0 <= k < l < |ranges| && Overlap(ranges[k], ranges[l]);
      assert Collides(ranges, l);
    }
  }

  ghost predicate FirstCollision(ranges: seq<ObjectRange>, k: nat)
  {
    k < |ranges| && Collides(ranges, k) && forall j :: 0 <= j < k ==> !Collides(ranges, j)
  }

  // ranges[b] ends last among those before i: comparing with it alone decides
  // whether ranges[i] meets any of them.
  lemma CollidesIs(ranges: seq<ObjectRange>, i: nat, b: nat)
    requires IsSorted(ranges) && b < i < |ranges|
    requires forall j :: 0 <= j < i ==> ranges[j].end <= ranges[b].end
    ensures Collides(ranges, i) <==> ranges[i].start < ranges[b].end
  {
    forall j | 0 <= j < i
      ensures Overlap(ranges[j], ranges[i]) <==> ranges[i].start < ranges[j].end
    {
      OverlapIs(ranges[j], ranges[i]);
    }
    if ranges[i].start < ranges[b].end {
      assert Overlap(ranges[b], ranges[i]);
    }
  }

  // No warning at all exactly when the ranges are pairwise disjoint.
  lemma {:induction false} NoCollisions(ranges: seq<ObjectRange>, n: nat)
    requires n <= |ranges|
    ensures Collisions(ranges, n) == 0 <==> Disjoint(ranges[..n])
  {
    if n > 0 {
      NoCollisions(ranges, n - 1);
      var p, q := ranges[..n - 1], ranges[..n];
      assert forall k :: 0 <= k < n - 1 ==> p[k] == q[k];
      if Disjoint(q) {
        forall k, l | 0 <= k < l < |p|
          ensures !Overlap(p[k], p[l])
        {
          assert !Overlap(q[k], q[l]);
        }
        forall j | 0 <= j < n - 1
          ensures !Overlap(ranges[j], ranges[n - 1])
        {
          assert !Overlap(q[j], q[n - 1]);
        }
      }
      if Disjoint(p) && !Collides(ranges, n - 1) {
        forall k, l | 0 <= k < l < |q|
          ensures !Overlap(q[k], q[l])
        {
          if l < n - 1 {
            assert !Overlap(p[k], p[l]);
          }
        }
      }
    }
  }
}
