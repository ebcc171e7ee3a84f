// Resolving pointer slots to edges: the epoch-stamped deduplication of Build
// (internal/snapshotgraph/build.go). m is the stamp modulus, 2^32 in the source.
module Edges {
  import opened Words
  import opened Wrappers
  import opened Graphs
  import opened Firsts
  import opened Heap
  import opened ObjectIndex
  import opened Picks
  import opened Resolution

  // ---- What the slots of one object resolve to ----

  function WithTarget(ts: seq<ObjectID>, t: Option<ObjectID>): seq<ObjectID>
  {
    if t.Some? then ts + [t.value] else ts
  }

  // Targets of the first n slots, in slot order, repetitions included.
  function TargetsUpTo(g: Lookup, ptrs: seq<u64>, n: nat): seq<ObjectID>
    requires n <= |ptrs|
  {
    if n == 0 then [] else WithTarget(TargetsUpTo(g, ptrs, n - 1), Resolve(g, ptrs[n - 1]))
  }

  function Targets(g: Lookup, o: HeapObject): seq<ObjectID>
  {
    TargetsUpTo(g, o.pointerAddrs, |o.pointerAddrs|)
  }

  datatype SlotKind = Zero | Unresolved | Resolved

  function KindOf(g: Lookup, ptr: u64): SlotKind
  {
    if ptr == 0 then Zero else if Resolve(g, ptr).None? then Unresolved else Resolved
  }

  datatype PointerStats = PointerStats(raw: nat, zero: nat, resolved: nat, unresolved: nat)

  const NO_POINTERS := PointerStats(0, 0, 0, 0)

  function Count(st: PointerStats, kind: SlotKind): PointerStats
  {
    match kind
    case Zero => st.(raw := st.raw + 1, zero := st.zero + 1)
    case Unresolved => st.(raw := st.raw + 1, unresolved := st.unresolved + 1)
    case Resolved => st.(raw := st.raw + 1, resolved := st.resolved + 1)
  }

  // The counters after the first n slots.
  function SlotStats(g: Lookup, ptrs: seq<u64>, n: nat): PointerStats
    requires n <= |ptrs|
  {
    if n == 0 then NO_POINTERS else Count(SlotStats(g, ptrs, n - 1), KindOf(g, ptrs[n - 1]))
  }

  function StatsOf(g: Lookup, o: HeapObject): PointerStats
  {
    SlotStats(g, o.pointerAddrs, |o.pointerAddrs|)
  }

  // Every slot is counted once, and Resolved counts the targets.
  lemma {:induction false} SlotsAccounted(g: Lookup, ptrs: seq<u64>, n: nat)
    requires n <= |ptrs|
    ensures (var st := SlotStats(g, ptrs, n);
             st.raw == n == st.zero + st.resolved + st.unresolved && st.resolved == |TargetsUpTo(g, ptrs, n)|)
  {
    if n > 0 {
      SlotsAccounted(g, ptrs, n - 1);
    }
  }

  function SlotAt(o: HeapObject, k: nat, target: ObjectID): Reference
    requires k < |o.pointerAddrs|
  {
    if k < |o.pointerOffsets| then
      Reference(target, o.pointerAddrs[k], o.pointerOffsets[k], o.pointerOffsets[k] < o.size)
    else
      Reference(target, o.pointerAddrs[k], 0, false)
  }

  function WithSlot(refs: seq<Reference>, o: HeapObject, k: nat, t: Option<ObjectID>): seq<Reference>
    requires k < |o.pointerAddrs|
  {
    if t.Some? then refs + [SlotAt(o, k, t.value)] else refs
  }

  // The kept slots of an object: one for each resolved pointer.
  function SlotsUpTo(g: Lookup, o: HeapObject, n: nat): seq<Reference>
    requires n <= |o.pointerAddrs|
  {
    if n == 0 then [] else WithSlot(SlotsUpTo(g, o, n - 1), o, n - 1, Resolve(g, o.pointerAddrs[n - 1]))
  }

  function Slots(g: Lookup, o: HeapObject): seq<Reference>
  {
    SlotsUpTo(g, o, |o.pointerAddrs|)
  }

  lemma {:induction false} SlotsMatchTargets(g: Lookup, o: HeapObject, n: nat)
    requires n <= |o.pointerAddrs|
    ensures |SlotsUpTo(g, o, n)| == |TargetsUpTo(g, o.pointerAddrs, n)|
    ensures forall k :: 0 <= k < |SlotsUpTo(g, o, n)| ==>
      SlotsUpTo(g, o, n)[k].target == TargetsUpTo(g, o.pointerAddrs, n)[k]
  {
    if n > 0 {
      SlotsMatchTargets(g, o, n - 1);
    }
  }

  // The slots whose pointer resolves, and what each is kept as: its target, the pointer
  // and its offset, which is known when it was recorded and lies in the object.
  ghost function ResolvingSlots(g: Lookup, o: HeapObject): nat -> bool
  {
    (i: nat) => i < |o.pointerAddrs| && Resolve(g, o.pointerAddrs[i]).Some?
  }

  ghost function KeptSlots(g: Lookup, o: HeapObject): nat -> Reference
  {
    (i: nat) =>
      if i < |o.pointerAddrs| && Resolve(g, o.pointerAddrs[i]).Some? then
        Reference(Resolve(g, o.pointerAddrs[i]).value, o.pointerAddrs[i],
                  if i < |o.pointerOffsets| then o.pointerOffsets[i] else 0,
                  i < |o.pointerOffsets| && o.pointerOffsets[i] < o.size)
      else Reference(0, 0, 0, false)
  }

  ghost predicate SlotExtends(g: Lookup, o: HeapObject, n: nat, picked: nat -> bool, value: nat -> Reference)
  {
    n < |o.pointerAddrs| ==> Extends(SlotsUpTo(g, o, n), SlotsUpTo(g, o, n + 1), n, picked, value)
  }

  lemma {:induction false} SlotsPicked(g: Lookup, o: HeapObject, n: nat, picked: nat -> bool, value: nat -> Reference)
    requires n <= |o.pointerAddrs| && forall i: nat :: SlotExtends(g, o, i, picked, value)
    ensures IsPicked(SlotsUpTo(g, o, n), n, picked, value)
  {
    if n > 0 {
      SlotsPicked(g, o, n - 1, picked, value);
      assert SlotExtends(g, o, n - 1, picked, value);
      PickedNext(SlotsUpTo(g, o, n - 1), SlotsUpTo(g, o, n), n - 1, picked, value);
    }
  }

  lemma SlotsMean(g: Lookup, o: HeapObject, n: nat)
    requires n <= |o.pointerAddrs|
    ensures IsPicked(SlotsUpTo(g, o, n), n, ResolvingSlots(g, o), KeptSlots(g, o))
  {
    forall i: nat
      ensures SlotExtends(g, o, i, ResolvingSlots(g, o), KeptSlots(g, o))
    {}
    SlotsPicked(g, o, n, ResolvingSlots(g, o), KeptSlots(g, o));
  }

  // ---- One object ----

  ghost function StampedWith(stamps: seq<nat>, epoch: nat): set<ObjectID>
  {
    set t | 0 <= t < |stamps| && stamps[t] == epoch
  }

  // The stamps after an object with these targets.
  ghost predicate IsStamped(before: seq<nat>, after: seq<nat>, ts: seq<ObjectID>, epoch: nat)
  {
    && |after| == |before|
    && forall t :: 0 <= t < |before| ==> after[t] == if t in ts then epoch else before[t]
  }

  method RecordTarget(t: ObjectID, epoch: nat, children0: seq<ObjectID>, seen: array<nat>,
                      ghost ts: seq<ObjectID>, ghost before: seq<nat>) returns (children: seq<ObjectID>)
    requires t < seen.Length && IsStamped(before, seen[..], ts, epoch)
    requires children0 == Fresh(ts, StampedWith(before, epoch))
    modifies seen
    ensures IsStamped(before, seen[..], ts + [t], epoch)
    ensures children == Fresh(ts + [t], StampedWith(before, epoch))
  {
    assert (ts + [t])[..|ts|] == ts;
    assert seen[..][t] == seen[t];
    children := children0;
    if seen[t] == epoch {
      return;
    }
    seen[t] := epoch;
    children := children + [t];
  }

  ghost predicate AllValid(g: Lookup)
  {
    forall p: u64 :: Resolve(g, p).Some? ==> Resolve(g, p).value < g.count
  }

  // Slot i of an object: the inner loop body.
  method ResolveSlot(g: Lookup, o: HeapObject, i: nat, epoch: nat, keep: bool, seen: array<nat>,
                     children0: seq<ObjectID>, refs0: seq<Reference>,
                     ghost before: seq<nat>, ghost ts: seq<ObjectID>)
    returns (children: seq<ObjectID>, refs: seq<Reference>, kind: SlotKind)
    requires i < |o.pointerAddrs| && IsSorted(g.ranges) && seen.Length == g.count && AllValid(g)
    requires IsStamped(before, seen[..], ts, epoch) && children0 == Fresh(ts, StampedWith(before, epoch))
    modifies seen
    ensures IsStamped(before, seen[..], WithTarget(ts, Resolve(g, o.pointerAddrs[i])), epoch)
    ensures children == Fresh(WithTarget(ts, Resolve(g, o.pointerAddrs[i])), StampedWith(before, epoch))
    ensures refs == if keep then WithSlot(refs0, o, i, Resolve(g, o.pointerAddrs[i])) else refs0
    ensures kind == KindOf(g, o.pointerAddrs[i])
  {
    children, refs := children0, refs0;
    var ptr := o.pointerAddrs[i];
    if ptr == 0 {
      return children, refs, Zero;
    }
    var target := FindObjectContaining(g, ptr);
    if target.None? {
      return children, refs, Unresolved;
    }
    if keep {
      refs := refs + [SlotAt(o, i, target.value)];
    }
    children := RecordTarget(target.value, epoch, children, seen, ts, before);
    return children, refs, Resolved;
  }

  // The first n slots of an object are resolved.
  ghost predicate SlotsDone(g: Lookup, o: HeapObject, n: nat, epoch: nat, keep: bool, before: seq<nat>, after: seq<nat>,
                            children: seq<ObjectID>, refs: seq<Reference>, stats: PointerStats)
    requires n <= |o.pointerAddrs|
  {
    var ts := TargetsUpTo(g, o.pointerAddrs, n);
    && IsStamped(before, after, ts, epoch) && children == Fresh(ts, StampedWith(before, epoch))
    && refs == (if keep then SlotsUpTo(g, o, n) else []) && stats == SlotStats(g, o.pointerAddrs, n)
  }

  method NextSlot(g: Lookup, o: HeapObject, i: nat, epoch: nat, keep: bool, seen: array<nat>,
                  children0: seq<ObjectID>, refs0: seq<Reference>, stats0: PointerStats, ghost before: seq<nat>)
    returns (children: seq<ObjectID>, refs: seq<Reference>, stats: PointerStats)
    requires i < |o.pointerAddrs| && IsSorted(g.ranges) && seen.Length == g.count && AllValid(g)
    requires SlotsDone(g, o, i, epoch, keep, before, seen[..], children0, refs0, stats0)
    modifies seen
    ensures SlotsDone(g, o, i + 1, epoch, keep, before, seen[..], children, refs, stats)
  {
    var kind;
    children, refs, kind := ResolveSlot(g, o, i, epoch, keep, seen, children0, refs0, before, TargetsUpTo(g, o.pointerAddrs, i));
    stats := Count(stats0, kind);
  }

  lemma NoSlotsDone(g: Lookup, o: HeapObject, epoch: nat, keep: bool, before: seq<nat>)
    ensures SlotsDone(g, o, 0, epoch, keep, before, before, [], [], NO_POINTERS)
  {}

  method ResolveObject(g: Lookup, o: HeapObject, epoch: nat, keep: bool, seen: array<nat>)
    returns (children: seq<ObjectID>, refs: seq<Reference>, stats: PointerStats)
    requires IsSorted(g.ranges) && seen.Length == g.count && AllValid(g)
    modifies seen
    ensures children == Fresh(Targets(g, o), StampedWith(old(seen[..]), epoch))
    ensures IsStamped(old(seen[..]), seen[..], Targets(g, o), epoch)
    ensures refs == if keep then Slots(g, o) else []
    ensures stats == StatsOf(g, o)
  {
    ghost var before := seen[..];
    children, refs, stats := [], [], NO_POINTERS;
    NoSlotsDone(g, o, epoch, keep, before);
    for i := 0 to |o.pointerAddrs|
      invariant SlotsDone(g, o, i, epoch, keep, before, seen[..], children, refs, stats)
    {
      children, refs, stats := NextSlot(g, o, i, epoch, keep, seen, children, refs, stats, before);
    }
  }

  // ---- All objects ----

  // i + 1 as a stamp; registration admits no index of m or more.
  function Epoch(i: nat, m: nat): nat
    requires i < m
  {
    if i + 1 == m then 0 else i + 1
  }

  // The stamp on object t after the first n objects were resolved.
  ghost function LastStamp(g: Lookup, objs: seq<HeapObject>, m: nat, n: nat, t: ObjectID): nat
    requires n <= |objs| <= m
  {
    if n == 0 then 0
    else if t in Targets(g, objs[n - 1]) then Epoch(n - 1, m)
    else LastStamp(g, objs, m, n - 1, t)
  }

  // Targets that already carry object i's epoch when its turn comes.
  ghost function Blocked(g: Lookup, objs: seq<HeapObject>, m: nat, i: nat): set<ObjectID>
    requires i < |objs| <= m
  {
    set t | 0 <= t < g.count && LastStamp(g, objs, m, i, t) == Epoch(i, m)
  }

  ghost function ChildrenAt(g: Lookup, objs: seq<HeapObject>, m: nat, i: nat): seq<ObjectID>
    requires i < |objs| <= m
  {
    Fresh(Targets(g, objs[i]), Blocked(g, objs, m, i))
  }

  function EdgeTotal(children: seq<seq<ObjectID>>, n: nat): nat
    requires n <= |children|
  {
    if n == 0 then 0 else EdgeTotal(children, n - 1) + |children[n - 1]|
  }

  function Plus(a: PointerStats, b: PointerStats): PointerStats
  {
    PointerStats(a.raw + b.raw, a.zero + b.zero, a.resolved + b.resolved, a.unresolved + b.unresolved)
  }

  // Counters over the first n objects.
  function StatsUpTo(g: Lookup, objs: seq<HeapObject>, n: nat): PointerStats
    requires n <= |objs|
  {
    if n == 0 then NO_POINTERS else Plus(StatsUpTo(g, objs, n - 1), StatsOf(g, objs[n - 1]))
  }

  // The edges of the first n objects.
  ghost function ChildrenUpTo(g: Lookup, objs: seq<HeapObject>, m: nat, n: nat): (cs: seq<seq<ObjectID>>)
    requires n <= |objs| <= m
    ensures |cs| == n
  {
    if n == 0 then [] else ChildrenUpTo(g, objs, m, n - 1) + [ChildrenAt(g, objs, m, n - 1)]
  }

  ghost function ReferencesUpTo(g: Lookup, objs: seq<HeapObject>, n: nat): seq<seq<Reference>>
    requires n <= |objs|
  {
    if n == 0 then [] else ReferencesUpTo(g, objs, n - 1) + [Slots(g, objs[n - 1])]
  }

  lemma {:induction false} ChildrenUpToAt(g: Lookup, objs: seq<HeapObject>, m: nat, n: nat)
    requires n <= |objs| <= m
    ensures forall i :: 0 <= i < n ==> ChildrenUpTo(g, objs, m, n)[i] == ChildrenAt(g, objs, m, i)
  {
    if n > 0 {
      ChildrenUpToAt(g, objs, m, n - 1);
    }
  }

  lemma {:induction false} ReferencesUpToAt(g: Lookup, objs: seq<HeapObject>, n: nat)
    requires n <= |objs|
    ensures |ReferencesUpTo(g, objs, n)| == n
    ensures forall i :: 0 <= i < n ==> ReferencesUpTo(g, objs, n)[i] == Slots(g, objs[i])
  {
    if n > 0 {
      ReferencesUpToAt(g, objs, n - 1);
    }
  }

  ghost predicate IsStampedUpTo(g: Lookup, objs: seq<HeapObject>, m: nat, n: nat, stamps: seq<nat>)
    requires n <= |objs| <= m
  {
    && |stamps| == g.count
    && forall t :: 0 <= t < |stamps| ==> stamps[t] == LastStamp(g, objs, m, n, t)
  }

  lemma StampsNext(g: Lookup, objs: seq<HeapObject>, m: nat, i: nat, stamps: seq<nat>)
    requires i < |objs| <= m && IsStampedUpTo(g, objs, m, i, stamps)
    ensures StampedWith(stamps, Epoch(i, m)) == Blocked(g, objs, m, i)
  {}

  lemma StampsAfter(g: Lookup, objs: seq<HeapObject>, m: nat, i: nat, stamps: seq<nat>, after: seq<nat>)
    requires i < |objs| <= m && IsStampedUpTo(g, objs, m, i, stamps)
    requires IsStamped(stamps, after, Targets(g, objs[i]), Epoch(i, m))
    ensures IsStampedUpTo(g, objs, m, i + 1, after)
  {}

  method ResolveNext(g: Lookup, objs: seq<HeapObject>, i: nat, keep: bool, m: nat, seen: array<nat>)
    returns (cs: seq<ObjectID>, refs: seq<Reference>, stats: PointerStats)
    requires i < |objs| <= m && IsSorted(g.ranges) && AllValid(g)
    requires IsStampedUpTo(g, objs, m, i, seen[..])
    modifies seen
    ensures IsStampedUpTo(g, objs, m, i + 1, seen[..])
    ensures cs == ChildrenAt(g, objs, m, i)
    ensures refs == if keep then Slots(g, objs[i]) else []
    ensures stats == StatsOf(g, objs[i])
  {
    ghost var before := seen[..];
    StampsNext(g, objs, m, i, before);
    cs, refs, stats := ResolveObject(g, objs[i], Epoch(i, m), keep, seen);
    StampsAfter(g, objs, m, i, before, seen[..]);
  }

  // The seen array is allocated once and shared by all objects.
  method ResolveEdges(g: Lookup, objs: seq<HeapObject>, keep: bool, m: nat)
    returns (children: seq<seq<ObjectID>>, references: seq<seq<Reference>>, stats: PointerStats)
    requires |objs| <= m && IsSorted(g.ranges) && AllValid(g)
    ensures children == ChildrenUpTo(g, objs, m, |objs|)
    ensures references == if keep then ReferencesUpTo(g, objs, |objs|) else []
    ensures stats == StatsUpTo(g, objs, |objs|)
  {
    var seen := new nat[g.count](_ => 0);
    children, references, stats := [], [], NO_POINTERS;
    for i := 0 to |objs|
      invariant children == ChildrenUpTo(g, objs, m, i)
      invariant references == if keep then ReferencesUpTo(g, objs, i) else []
      invariant IsStampedUpTo(g, objs, m, i, seen[..])
      invariant stats == StatsUpTo(g, objs, i)
    {
      var cs, refs, st := ResolveNext(g, objs, i, keep, m, seen);
      children := children + [cs];
      if keep {
        references := references + [refs];
      }
      stats := Plus(stats, st);
    }
  }

  // ---- What the stamps achieve ----

  // Every object's edges are its distinct targets in first-occurrence order.
  ghost predicate EdgesAreDistinctTargets(g: Lookup, objs: seq<HeapObject>, m: nat)
    requires |objs| <= m
  {
    forall i :: 0 <= i < |objs| ==> ChildrenAt(g, objs, m, i) == Fresh(Targets(g, objs[i]), {})
  }

  ghost predicate TargetedBefore(g: Lookup, objs: seq<HeapObject>, n: nat, t: ObjectID)
    requires n <= |objs|
  {
    exists j :: 0 <= j < n && t in Targets(g, objs[j])
  }

  ghost predicate AllTargetedBefore(g: Lookup, objs: seq<HeapObject>, n: nat, ts: seq<ObjectID>)
    requires n <= |objs|
  {
    forall t :: t in ts ==> TargetedBefore(g, objs, n, t)
  }

  // The condition a caller can check: fewer objects than stamps, or nothing new
  // in the last object.
  ghost predicate StampsSuffice(g: Lookup, objs: seq<HeapObject>, m: nat)
  {
    || |objs| < m
    || (|objs| == m > 0 && AllTargetedBefore(g, objs, m - 1, Targets(g, objs[m - 1])))
  }

  lemma {:induction false} StampBound(g: Lookup, objs: seq<HeapObject>, m: nat, n: nat, t: ObjectID)
    requires n < m && n <= |objs| <= m
    ensures LastStamp(g, objs, m, n, t) <= n
    ensures LastStamp(g, objs, m, n, t) == 0 <==> !TargetedBefore(g, objs, n, t)
  {
    if n > 0 {
      StampBound(g, objs, m, n - 1, t);
      assert Epoch(n - 1, m) == n;
      if t !in Targets(g, objs[n - 1]) && TargetedBefore(g, objs, n, t) {
        assert TargetedBefore(g, objs, n - 1, t);
      }
    }
  }

  lemma {:induction false} TargetsValid(g: Lookup, ptrs: seq<u64>, n: nat)
    requires n <= |ptrs| && AllValid(g)
    ensures forall t :: t in TargetsUpTo(g, ptrs, n) ==> t < g.count
  {
    if n > 0 {
      TargetsValid(g, ptrs, n - 1);
    }
  }

  // Deduplication by stamps is correct exactly when the stamps suffice: the
  // array refines a new set for every object, and the bound is tight.
  lemma StampsSufficeIffDistinct(g: Lookup, objs: seq<HeapObject>, m: nat)
    requires 0 < m && |objs| <= m && AllValid(g)
    ensures EdgesAreDistinctTargets(g, objs, m) <==> StampsSuffice(g, objs, m)
  {
    forall i | 0 <= i < |objs| && i + 1 < m
      ensures ChildrenAt(g, objs, m, i) == Fresh(Targets(g, objs[i]), {})
    {
      EarlyEpoch(g, objs, m, i);
    }
    if |objs| == m {
      LastEpoch(g, objs, m - 1, m);
    }
  }

  lemma EarlyEpoch(g: Lookup, objs: seq<HeapObject>, m: nat, i: nat)
    requires i < |objs| <= m && i + 1 < m
    ensures ChildrenAt(g, objs, m, i) == Fresh(Targets(g, objs[i]), {})
  {
    forall t | t in Targets(g, objs[i])
      ensures t !in Blocked(g, objs, m, i)
    {
      StampBound(g, objs, m, i, t);
      assert Epoch(i, m) == i + 1;
    }
    FreshSame(Targets(g, objs[i]), Blocked(g, objs, m, i), {});
  }

  // At exactly m objects the last epoch wraps to the unseen stamp.
  lemma LastEpoch(g: Lookup, objs: seq<HeapObject>, n: nat, m: nat)
    requires m == n + 1 == |objs| && AllValid(g)
    ensures forall t :: t in ChildrenAt(g, objs, m, n) <==> t in Targets(g, objs[n]) && TargetedBefore(g, objs, n, t)
    ensures ChildrenAt(g, objs, m, n) == Fresh(Targets(g, objs[n]), {}) <==> AllTargetedBefore(g, objs, n, Targets(g, objs[n]))
  {
    var ts, blocked := Targets(g, objs[n]), Blocked(g, objs, m, n);
    TargetsValid(g, objs[n].pointerAddrs, |objs[n].pointerAddrs|);
    assert Epoch(n, m) == 0;
    forall t | t in ts
      ensures t in blocked <==> !TargetedBefore(g, objs, n, t)
    {
      StampBound(g, objs, m, n, t);
    }
    FreshMembers(ts, blocked);
    FreshMembers(ts, {});
    if AllTargetedBefore(g, objs, n, ts) {
      FreshSame(ts, blocked, {});
    } else {
      var t :| t in ts && !TargetedBefore(g, objs, n, t);
      assert t in Fresh(ts, {}) && t !in Fresh(ts, blocked);
    }
  }

  function SlotCount(objs: seq<HeapObject>, n: nat): nat
    requires n <= |objs|
  {
    if n == 0 then 0 else SlotCount(objs, n - 1) + |objs[n - 1].pointerAddrs|
  }

  // Raw counts every pointer slot.
  lemma {:induction false} RawCountsSlots(g: Lookup, objs: seq<HeapObject>, n: nat)
    requires n <= |objs|
    ensures StatsUpTo(g, objs, n).raw == SlotCount(objs, n)
  {
    if n > 0 {
      RawCountsSlots(g, objs, n - 1);
      SlotsAccounted(g, objs[n - 1].pointerAddrs, |objs[n - 1].pointerAddrs|);
    }
  }

  // Raw = Zero + Resolved + Unresolved.
  lemma {:induction false} PointersAccounted(g: Lookup, objs: seq<HeapObject>, n: nat)
    requires n <= |objs|
    ensures (var st := StatsUpTo(g, objs, n); st.raw == st.zero + st.resolved + st.unresolved)
  {
    if n > 0 {
      PointersAccounted(g, objs, n - 1);
      SlotsAccounted(g, objs[n - 1].pointerAddrs, |objs[n - 1].pointerAddrs|);
    }
  }

  // Edges <= Resolved.
  lemma {:induction false} EdgesWithinResolved(g: Lookup, objs: seq<HeapObject>, m: nat, n: nat)
    requires n <= |objs| <= m
    ensures EdgeTotal(ChildrenUpTo(g, objs, m, n), n) <= StatsUpTo(g, objs, n).resolved
  {
    if n > 0 {
      EdgesWithinResolved(g, objs, m, n - 1);
      SlotsAccounted(g, objs[n - 1].pointerAddrs, |objs[n - 1].pointerAddrs|);
      FreshNoLonger(Targets(g, objs[n - 1]), Blocked(g, objs, m, n - 1));
      EdgeTotalPrefix(ChildrenUpTo(g, objs, m, n - 1), ChildrenAt(g, objs, m, n - 1), n - 1);
    }
  }

  lemma {:induction false} EdgeTotalPrefix(children: seq<seq<ObjectID>>, c: seq<ObjectID>, n: nat)
    requires n <= |children|
    ensures EdgeTotal(children + [c], n) == EdgeTotal(children, n)
  {
    if n > 0 {
      EdgeTotalPrefix(children, c, n - 1);
    }
  }

  // The last of m objects, and the only one with a pointer.
  function LonelyObject(i: nat, m: nat): HeapObject
  {
    if i == 0 then HeapObject(8, 8, [], [], [], [])
    else HeapObject(0, 8, [], [], if i + 1 == m then [8] else [], [])
  }

  lemma NoMembers(s: seq<ObjectID>)
    ensures (forall x :: x !in s) ==> s == []
  {
    if |s| > 0 {
      assert s[0] in s;
    }
  }

  // Whatever the modulus, m objects can lose an edge: the last object's only
  // target, never stamped, looks like one already recorded.
  lemma FullTableLosesAnEdge(objs: seq<HeapObject>, g: Lookup, n: nat, m: nat)
    requires n > 0 && m == n + 1 == |objs| && forall i :: 0 <= i < m ==> objs[i] == LonelyObject(i, m)
    requires IsIndexed(objs, g)
    ensures Targets(g, objs[n]) == [0]
    ensures ChildrenAt(g, objs, m, n) == []
  {
    assert objs[0].addr == 8;
    assert Resolve(g, 8) == Some(0) by {
      assert 8 in g.byAddr && objs[g.byAddr[8]].addr == 8;
    }
    assert AllValid(g);
    var o := objs[n];
    assert o.pointerAddrs == [8] && TargetsUpTo(g, o.pointerAddrs, 0) == [];
    forall j | 0 <= j < n
      ensures Targets(g, objs[j]) == []
    {
      assert objs[j].pointerAddrs == [];
    }
    assert !TargetedBefore(g, objs, n, 0);
    LastEpoch(g, objs, n, m);
    NoMembers(ChildrenAt(g, objs, m, n));
  }
}
