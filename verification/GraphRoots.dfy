// Goroutine, global and finalizer roots of a snapshot
// (internal/snapshotgraph/build.go).
module GraphRoots {
  import opened Words
  import opened Wrappers
  import opened Graphs
  import opened Firsts
  import opened Heap
  import opened ObjectIndex
  import opened Resolution

  // A possible root: the pointer ptr found in the given slot. Equal candidates
  // are one root.
  datatype Candidate = Candidate(kind: string, ptr: u64, slot: u64, detail: seq<byte>)

  // What a list of candidates contributes: its resolved roots and the number of
  // non-zero pointers that resolve to nothing.
  datatype Found = Found(roots: seq<RootRef>, unresolved: nat)

  function Resolved1(g: Lookup, c: Candidate, f: Found): Found
  {
    if c.ptr == 0 then f
    else match Resolve(g, c.ptr)
      case Some(t) => Found(f.roots + [RootRef(t, c.ptr, c.slot, c.kind, c.detail)], f.unresolved)
      case None => Found(f.roots, f.unresolved + 1)
  }

  // The candidates of cs in order.
  function FoundIn(g: Lookup, cs: seq<Candidate>): Found
  {
    if |cs| == 0 then Found([], 0) else Resolved1(g, cs[|cs| - 1], FoundIn(g, cs[..|cs| - 1]))
  }

  lemma FoundSnoc(g: Lookup, cs: seq<Candidate>, c: Candidate)
    ensures FoundIn(g, cs + [c]) == Resolved1(g, c, FoundIn(g, cs))
  {
    assert (cs + [c])[..|cs|] == cs;
  }

  // Every root comes from a candidate that resolves to it, and every candidate
  // that resolves is a root.
  lemma {:induction false} FoundMeans(g: Lookup, cs: seq<Candidate>)
    ensures forall r :: r in FoundIn(g, cs).roots <==>
      exists c :: c in cs && c.ptr != 0 && Resolve(g, c.ptr) == Some(r.objectID)
        && r == RootRef(r.objectID, c.ptr, c.slot, c.kind, c.detail)
  {
    if |cs| > 0 {
      var p, c := cs[..|cs| - 1], cs[|cs| - 1];
      FoundMeans(g, p);
      assert cs == p + [c];
    }
  }

  method ResolveCandidate(g: Lookup, c: Candidate, f: Found) returns (f': Found)
    requires IsSorted(g.ranges)
    ensures f' == Resolved1(g, c, f)
  {
    if c.ptr == 0 {
      return f;
    }
    var t := FindObjectContaining(g, c.ptr);
    if t.None? {
      return Found(f.roots, f.unresolved + 1);
    }
    return Found(f.roots + [RootRef(t.value, c.ptr, c.slot, c.kind, c.detail)], f.unresolved);
  }

  // ---- Goroutines ----

  function SlotOf(slots: seq<u64>, k: nat): u64
  {
    if k < |slots| then slots[k] else 0
  }

  function FrameCandidate(fr: Frame, i: nat): Candidate
    requires i < |fr.pointerAddrs|
  {
    Candidate("stack", fr.pointerAddrs[i], SlotOf(fr.pointerSlots, i), fr.funcName)
  }

  // What the first n slots of a frame add.
  function FrameFound(g: Lookup, fr: Frame, n: nat, f0: Found): Found
    requires n <= |fr.pointerAddrs|
  {
    if n == 0 then f0 else Resolved1(g, FrameCandidate(fr, n - 1), FrameFound(g, fr, n - 1, f0))
  }

  // What the first n frames hold.
  function StackFound(g: Lookup, frames: seq<Frame>, n: nat): Found
    requires n <= |frames|
  {
    if n == 0 then Found([], 0)
    else FrameFound(g, frames[n - 1], |frames[n - 1].pointerAddrs|, StackFound(g, frames, n - 1))
  }

  function SchedCandidates(s: Sched): seq<Candidate>
  {
    [Candidate("sched.ctxt", s.ctxt, 0, []), Candidate("defer", s.deferAddr, 0, []), Candidate("panic", s.panicAddr, 0, [])]
  }

  // What the first n scheduler words add.
  function SchedFound(g: Lookup, s: Sched, n: nat, f0: Found): Found
    requires n <= 3
  {
    if n == 0 then f0 else Resolved1(g, SchedCandidates(s)[n - 1], SchedFound(g, s, n - 1, f0))
  }

  // Stack roots first, then the scheduler-held ones; only stack slots that
  // resolve to nothing are counted.
  function GoroutineFound(g: Lookup, gr: HeapGoroutine): Found
  {
    var stack := StackFound(g, gr.frames, |gr.frames|);
    Found(SchedFound(g, gr.sched, 3, stack).roots, stack.unresolved)
  }

  method AddFrame(g: Lookup, fr: Frame, f0: Found) returns (f: Found)
    requires IsSorted(g.ranges)
    ensures f == FrameFound(g, fr, |fr.pointerAddrs|, f0)
  {
    f := f0;
    for i := 0 to |fr.pointerAddrs|
      invariant f == FrameFound(g, fr, i, f0)
    {
      f := ResolveCandidate(g, FrameCandidate(fr, i), f);
    }
  }

  method GoroutineRoots(g: Lookup, gr: HeapGoroutine) returns (f: Found)
    requires IsSorted(g.ranges)
    ensures f == GoroutineFound(g, gr)
  {
    f := Found([], 0);
    for i := 0 to |gr.frames|
      invariant f == StackFound(g, gr.frames, i)
    {
      f := AddFrame(g, gr.frames[i], f);
    }
    var sched := SchedCandidates(gr.sched);
    var held := f;
    for i := 0 to |sched|
      invariant held == SchedFound(g, gr.sched, i, f)
    {
      held := ResolveCandidate(g, sched[i], held);
    }
    f := Found(held.roots, f.unresolved);
  }

  lemma {:induction false} FoundConcat(g: Lookup, a: seq<Candidate>, b: seq<Candidate>)
    ensures FoundIn(g, a + b).roots == FoundIn(g, a).roots + FoundIn(g, b).roots
    ensures FoundIn(g, a + b).unresolved == FoundIn(g, a).unresolved + FoundIn(g, b).unresolved
  {
    if |b| == 0 {
      assert a + b == a;
    } else {
      var p, c := b[..|b| - 1], b[|b| - 1];
      FoundConcat(g, a, p);
      assert a + b == (a + p) + [c];
      FoundSnoc(g, a + p, c);
      ResolvedAfter(g, c, FoundIn(g, a), FoundIn(g, p), FoundIn(g, a + p));
    }
  }

  // A candidate adds the same to two halves as to the whole.
  lemma ResolvedAfter(g: Lookup, c: Candidate, a: Found, b: Found, whole: Found)
    requires whole.roots == a.roots + b.roots && whole.unresolved == a.unresolved + b.unresolved
    ensures Resolved1(g, c, whole).roots == a.roots + Resolved1(g, c, b).roots
    ensures Resolved1(g, c, whole).unresolved == a.unresolved + Resolved1(g, c, b).unresolved
  {}

  // ---- Globals ----

  predicate IsPointer(c: Candidate) { c.ptr != 0 }

  function NonZero(cs: seq<Candidate>): seq<Candidate>
  {
    if |cs| == 0 then []
    else
      var p, c := NonZero(cs[..|cs| - 1]), cs[|cs| - 1];
      if IsPointer(c) then p + [c] else p
  }

  // The distinct non-zero candidates, first occurrences first.
  function Keys(cs: seq<Candidate>): seq<Candidate>
  {
    Fresh(NonZero(cs), {})
  }

  // What the candidates contribute once repetitions are dropped.
  function GlobalsIn(g: Lookup, cs: seq<Candidate>): Found
  {
    FoundIn(g, Keys(cs))
  }

  lemma {:induction false} NonZeroConcat(a: seq<Candidate>, b: seq<Candidate>)
    ensures NonZero(a + b) == NonZero(a) + NonZero(b)
  {
    if |b| == 0 {
      assert a + b == a;
    } else {
      NonZeroConcat(a, b[..|b| - 1]);
      assert (a + b)[..|a + b| - 1] == a + b[..|b| - 1];
    }
  }

  lemma {:induction false} NonZeroMembers(cs: seq<Candidate>)
    ensures forall c :: c in NonZero(cs) <==> c in cs && IsPointer(c)
  {
    if |cs| > 0 {
      NonZeroMembers(cs[..|cs| - 1]);
      assert cs == cs[..|cs| - 1] + [cs[|cs| - 1]];
    }
  }

  // Candidates already seen add neither a root nor an unresolved count.
  lemma SeenAddsNothing(g: Lookup, a: seq<Candidate>, b: seq<Candidate>)
    requires forall c :: c in b && IsPointer(c) ==> c in a
    ensures GlobalsIn(g, a + b) == GlobalsIn(g, a)
  {
    NonZeroConcat(a, b);
    NonZeroMembers(a);
    NonZeroMembers(b);
    FreshAbsorbs(NonZero(a), NonZero(b));
  }

  lemma KeysSnoc(cs: seq<Candidate>, c: Candidate)
    ensures Keys(cs + [c]) == if IsPointer(c) && c !in Keys(cs) then Keys(cs) + [c] else Keys(cs)
  {
    assert (cs + [c])[..|cs|] == cs;
    FreshMembers(NonZero(cs), {});
    if IsPointer(c) {
      assert (NonZero(cs) + [c])[..|NonZero(cs)|] == NonZero(cs);
    }
  }

  // seen holds the keys met so far.
  method AddGlobalRoot(g: Lookup, c: Candidate, seen0: set<Candidate>, f0: Found, ghost cs: seq<Candidate>)
    returns (seen: set<Candidate>, f: Found)
    requires IsSorted(g.ranges)
    requires seen0 == (set k | k in Keys(cs)) && f0 == GlobalsIn(g, cs)
    ensures seen == (set k | k in Keys(cs + [c])) && f == GlobalsIn(g, cs + [c])
  {
    seen, f := seen0, f0;
    KeysSnoc(cs, c);
    if c.ptr == 0 {
      return;
    }
    if c in seen {
      return;
    }
    seen := seen + {c};
    FoundSnoc(g, Keys(cs), c);
    f := ResolveCandidate(g, c, f);
  }

  function GlobalCandidate(r: Root): Candidate
  {
    Candidate(if r.kind == "" then "otherroot" else r.kind, r.pointerAddr, r.addr, r.description)
  }

  function GlobalCandidates(rs: seq<Root>, n: nat): seq<Candidate>
    requires n <= |rs|
  {
    if n == 0 then [] else GlobalCandidates(rs, n - 1) + [GlobalCandidate(rs[n - 1])]
  }

  // Slot addresses derived from the field list, for segments without their own.
  function FieldSlots(seg: Segment, ptrSize: nat, n: nat, limit: nat): seq<u64>
    requires n <= |seg.fields|
    decreases |seg.fields| - n
  {
    if n == |seg.fields| || limit == 0 then []
    else
      var f := seg.fields[n];
      if f.kind == KIND_PTR then
        [if f.offset <= MAX_U64 - seg.addr then seg.addr + f.offset else 0] + FieldSlots(seg, ptrSize, n + 1, limit - 1)
      else if f.kind == KIND_IFACE || f.kind == KIND_EFACE then
        [if (ptrSize == 4 || ptrSize == 8) && f.offset + ptrSize <= MAX_U64 - seg.addr then seg.addr + f.offset + ptrSize else 0]
        + FieldSlots(seg, ptrSize, n + 1, limit - 1)
      else FieldSlots(seg, ptrSize, n + 1, limit)
  }

  function SegmentSlots(seg: Segment, ptrSize: nat): seq<u64>
  {
    if |seg.pointerSlots| == |seg.pointerAddrs| then seg.pointerSlots
    else FieldSlots(seg, ptrSize, 0, |seg.pointerAddrs|)
  }

  function KindOfSegment(seg: Segment, default: string): string
  {
    if seg.kind == "" then default else seg.kind
  }

  // Slot k of the segment as a candidate.
  function SlotCandidate(seg: Segment, default: string, ptrSize: nat, k: nat): Candidate
    requires k < |seg.pointerAddrs|
  {
    Candidate(KindOfSegment(seg, default), seg.pointerAddrs[k], SlotOf(SegmentSlots(seg, ptrSize), k), [])
  }

  function SegmentCandidates(seg: Segment, default: string, ptrSize: nat, n: nat): seq<Candidate>
    requires n <= |seg.pointerAddrs|
  {
    if n == 0 then []
    else
      SegmentCandidates(seg, default, ptrSize, n - 1) + [SlotCandidate(seg, default, ptrSize, n - 1)]
  }

  function SegmentsCandidates(segs: seq<Segment>, default: string, ptrSize: nat, n: nat): seq<Candidate>
    requires n <= |segs|
  {
    if n == 0 then []
    else
      SegmentsCandidates(segs, default, ptrSize, n - 1) +
      SegmentCandidates(segs[n - 1], default, ptrSize, |segs[n - 1].pointerAddrs|)
  }

  function SnapshotCandidates(snap: Snapshot): seq<Candidate>
  {
    GlobalCandidates(snap.globals, |snap.globals|) +
    SegmentsCandidates(snap.data, "data", snap.params.ptrSize, |snap.data|) +
    SegmentsCandidates(snap.bss, "bss", snap.params.ptrSize, |snap.bss|)
  }

  method AddGlobals(g: Lookup, rs: seq<Root>) returns (seen: set<Candidate>, f: Found)
    requires IsSorted(g.ranges)
    ensures seen == set k | k in Keys(GlobalCandidates(rs, |rs|))
    ensures f == GlobalsIn(g, GlobalCandidates(rs, |rs|))
  {
    seen, f := {}, Found([], 0);
    for i := 0 to |rs|
      invariant seen == set k | k in Keys(GlobalCandidates(rs, i))
      invariant f == GlobalsIn(g, GlobalCandidates(rs, i))
    {
      seen, f := AddGlobalRoot(g, GlobalCandidate(rs[i]), seen, f, GlobalCandidates(rs, i));
    }
  }

  lemma NextCandidate(seg: Segment, default: string, ptrSize: nat, i: nat, cs: seq<Candidate>)
    requires i < |seg.pointerAddrs|
    ensures cs + SegmentCandidates(seg, default, ptrSize, i + 1) ==
      (cs + SegmentCandidates(seg, default, ptrSize, i)) + [SlotCandidate(seg, default, ptrSize, i)]
  {}

  method AddSegment(g: Lookup, seg: Segment, default: string, ptrSize: nat,
                    seen0: set<Candidate>, f0: Found, ghost cs: seq<Candidate>)
    returns (seen: set<Candidate>, f: Found)
    requires IsSorted(g.ranges)
    requires seen0 == (set k | k in Keys(cs)) && f0 == GlobalsIn(g, cs)
    ensures seen == set k | k in Keys(cs + SegmentCandidates(seg, default, ptrSize, |seg.pointerAddrs|))
    ensures f == GlobalsIn(g, cs + SegmentCandidates(seg, default, ptrSize, |seg.pointerAddrs|))
  {
    seen, f := seen0, f0;
    var kind, slots := KindOfSegment(seg, default), SegmentSlots(seg, ptrSize);
    ghost var now := cs;
    assert cs + [] == cs;
    for i := 0 to |seg.pointerAddrs|
      invariant now == cs + SegmentCandidates(seg, default, ptrSize, i)
      invariant seen == (set k | k in Keys(now)) && f == GlobalsIn(g, now)
    {
      var c := Candidate(kind, seg.pointerAddrs[i], SlotOf(slots, i), []);
      NextCandidate(seg, default, ptrSize, i, cs);
      seen, f := AddGlobalRoot(g, c, seen, f, now);
      now := now + [c];
    }
  }

  lemma Regroup<T>(a: seq<T>, b: seq<T>, c: seq<T>)
    ensures (a + b) + c == a + (b + c)
  {}

  method AddSegments(g: Lookup, segs: seq<Segment>, default: string, ptrSize: nat,
                     seen0: set<Candidate>, f0: Found, ghost cs: seq<Candidate>)
    returns (seen: set<Candidate>, f: Found)
    requires IsSorted(g.ranges)
    requires seen0 == (set k | k in Keys(cs)) && f0 == GlobalsIn(g, cs)
    ensures seen == set k | k in Keys(cs + SegmentsCandidates(segs, default, ptrSize, |segs|))
    ensures f == GlobalsIn(g, cs + SegmentsCandidates(segs, default, ptrSize, |segs|))
  {
    seen, f := seen0, f0;
    ghost var now := cs;
    assert cs + [] == cs;
    for i := 0 to |segs|
      invariant now == cs + SegmentsCandidates(segs, default, ptrSize, i)
      invariant seen == (set k | k in Keys(now)) && f == GlobalsIn(g, now)
    {
      ghost var more := SegmentCandidates(segs[i], default, ptrSize, |segs[i].pointerAddrs|);
      Regroup(cs, SegmentsCandidates(segs, default, ptrSize, i), more);
      seen, f := AddSegment(g, segs[i], default, ptrSize, seen, f, now);
      now := now + more;
    }
  }

  // ---- Finalizers: not deduplicated ----

  function FinalizerCandidates(fins: seq<Finalizer>, kind: string, n: nat): seq<Candidate>
    requires n <= |fins|
  {
    if n == 0 then []
    else
      FinalizerCandidates(fins, kind, n - 1) +
      [Candidate(kind, fins[n - 1].objectAddr, 0, []), Candidate(kind, fins[n - 1].funcVal, 0, [])]
  }

  method AddFinalizers(g: Lookup, fins: seq<Finalizer>, kind: string) returns (f: Found)
    requires IsSorted(g.ranges)
    ensures f == FoundIn(g, FinalizerCandidates(fins, kind, |fins|))
  {
    f := Found([], 0);
    for i := 0 to |fins|
      invariant f == FoundIn(g, FinalizerCandidates(fins, kind, i))
    {
      var a, b := Candidate(kind, fins[i].objectAddr, 0, []), Candidate(kind, fins[i].funcVal, 0, []);
      ghost var cs := FinalizerCandidates(fins, kind, i);
      FoundSnoc(g, cs, a);
      FoundSnoc(g, cs + [a], b);
      assert cs + [a, b] == cs + [a] + [b];
      f := ResolveCandidate(g, a, f);
      f := ResolveCandidate(g, b, f);
    }
  }

  function FinalizerFound(g: Lookup, snap: Snapshot): Found
  {
    FoundIn(g, FinalizerCandidates(snap.finalizers, "finalizer", |snap.finalizers|) +
               FinalizerCandidates(snap.queued, "queued_finalizer", |snap.queued|))
  }

  method AddAllFinalizers(g: Lookup, snap: Snapshot) returns (f: Found)
    requires IsSorted(g.ranges)
    ensures f == FinalizerFound(g, snap)
  {
    var fin := AddFinalizers(g, snap.finalizers, "finalizer");
    var queued := AddFinalizers(g, snap.queued, "queued_finalizer");
    FoundConcat(g, FinalizerCandidates(snap.finalizers, "finalizer", |snap.finalizers|),
                FinalizerCandidates(snap.queued, "queued_finalizer", |snap.queued|));
    f := Found(fin.roots + queued.roots, fin.unresolved + queued.unresolved);
  }

  // All process-wide roots, with the unresolved counts of globals and finalizers.
  method GlobalRoots(g: Lookup, snap: Snapshot) returns (roots: seq<RootRef>, unresolved: nat, unresolvedFinalizers: nat)
    requires IsSorted(g.ranges)
    ensures roots == GlobalsIn(g, SnapshotCandidates(snap)).roots + FinalizerFound(g, snap).roots
    ensures unresolved == GlobalsIn(g, SnapshotCandidates(snap)).unresolved
    ensures unresolvedFinalizers == FinalizerFound(g, snap).unresolved
  {
    ghost var cs := GlobalCandidates(snap.globals, |snap.globals|);
    ghost var ds := SegmentsCandidates(snap.data, "data", snap.params.ptrSize, |snap.data|);
    var seen, f := AddGlobals(g, snap.globals);
    seen, f := AddSegments(g, snap.data, "data", snap.params.ptrSize, seen, f, cs);
    seen, f := AddSegments(g, snap.bss, "bss", snap.params.ptrSize, seen, f, cs + ds);
    var fin := AddAllFinalizers(g, snap);
    roots := f.roots + fin.roots;
    unresolved, unresolvedFinalizers := f.unresolved, fin.unresolved;
  }

  // ---- The second pass over data and bss ----

  // The parser listed every pointer of the segment among the global roots.
  ghost predicate IsListed(seg: Segment, default: string, globals: seq<Root>)
  {
    && |seg.pointerSlots| == |seg.pointerAddrs|
    && seg.kind == default != ""
    && forall k :: 0 <= k < |seg.pointerAddrs| ==> Root(seg.kind, [], seg.pointerSlots[k], seg.pointerAddrs[k]) in globals
  }

  ghost predicate AllListed(segs: seq<Segment>, default: string, globals: seq<Root>)
  {
    forall i :: 0 <= i < |segs| ==> IsListed(segs[i], default, globals)
  }

  lemma {:induction false} GlobalCandidateIn(rs: seq<Root>, n: nat, r: Root)
    requires n <= |rs| && r in rs[..n]
    ensures GlobalCandidate(r) in GlobalCandidates(rs, n)
  {
    if rs[n - 1] != r {
      assert rs[..n] == rs[..n - 1] + [rs[n - 1]];
      GlobalCandidateIn(rs, n - 1, r);
    }
  }

  lemma SlotListed(seg: Segment, default: string, ptrSize: nat, globals: seq<Root>, k: nat)
    requires k < |seg.pointerAddrs| && IsListed(seg, default, globals)
    ensures SlotCandidate(seg, default, ptrSize, k) in GlobalCandidates(globals, |globals|)
  {
    assert globals[..|globals|] == globals;
    GlobalCandidateIn(globals, |globals|, Root(seg.kind, [], seg.pointerSlots[k], seg.pointerAddrs[k]));
  }

  lemma {:induction false} AllSlotsIn(seg: Segment, default: string, ptrSize: nat, n: nat, all: seq<Candidate>)
    requires n <= |seg.pointerAddrs| && forall k: nat :: k < n ==> SlotCandidate(seg, default, ptrSize, k) in all
    ensures forall c :: c in SegmentCandidates(seg, default, ptrSize, n) ==> c in all
  {
    if n > 0 {
      AllSlotsIn(seg, default, ptrSize, n - 1, all);
      assert SlotCandidate(seg, default, ptrSize, n - 1) in all;
    }
  }

  lemma SegmentListed(seg: Segment, default: string, ptrSize: nat, globals: seq<Root>, n: nat)
    requires n <= |seg.pointerAddrs| && IsListed(seg, default, globals)
    ensures forall c :: c in SegmentCandidates(seg, default, ptrSize, n) ==> c in GlobalCandidates(globals, |globals|)
  {
    forall k: nat | k < n
      ensures SlotCandidate(seg, default, ptrSize, k) in GlobalCandidates(globals, |globals|)
    {
      SlotListed(seg, default, ptrSize, globals, k);
    }
    AllSlotsIn(seg, default, ptrSize, n, GlobalCandidates(globals, |globals|));
  }

  lemma {:induction false} SegmentsListed(segs: seq<Segment>, default: string, ptrSize: nat, globals: seq<Root>, n: nat)
    requires n <= |segs| && AllListed(segs, default, globals)
    ensures forall c :: c in SegmentsCandidates(segs, default, ptrSize, n) ==> c in GlobalCandidates(globals, |globals|)
  {
    if n > 0 {
      SegmentsListed(segs, default, ptrSize, globals, n - 1);
      SegmentListed(segs[n - 1], default, ptrSize, globals, |segs[n - 1].pointerAddrs|);
    }
  }

  // When the parser listed the segments' pointers, visiting the segments again
  // adds no root and no unresolved pointer.
  lemma SecondPassAddsNothing(g: Lookup, snap: Snapshot)
    requires AllListed(snap.data, "data", snap.globals) && AllListed(snap.bss, "bss", snap.globals)
    ensures GlobalsIn(g, SnapshotCandidates(snap)) == GlobalsIn(g, GlobalCandidates(snap.globals, |snap.globals|))
  {
    var cs := GlobalCandidates(snap.globals, |snap.globals|);
    var ds := SegmentsCandidates(snap.data, "data", snap.params.ptrSize, |snap.data|);
    var bs := SegmentsCandidates(snap.bss, "bss", snap.params.ptrSize, |snap.bss|);
    SegmentsListed(snap.data, "data", snap.params.ptrSize, snap.globals, |snap.data|);
    SegmentsListed(snap.bss, "bss", snap.params.ptrSize, snap.globals, |snap.bss|);
    assert cs + ds + bs == cs + (ds + bs);
    SeenAddsNothing(g, cs, ds + bs);
  }
}
