// Where the roots of a built analysis come from: frame slots, scheduler words,
// finalizers (internal/snapshotgraph/build.go).
module RootOrigins {
  import opened Words
  import opened Wrappers
  import opened Graphs
  import opened Analyses
  import opened Firsts
  import opened Heap
  import opened ObjectIndex
  import opened Resolution
  import opened GraphRoots
  import opened Build

  // ---- Goroutines ----

  // A pointer slot of a frame, or one of the scheduler words ctxt, defer and panic.
  datatype Origin = StackSlot(frame: nat, slot: nat) | SchedWord(word: nat)

  // Frames in order and their slots in order, then the scheduler words.
  predicate Before(a: Origin, b: Origin)
  {
    match a
    case StackSlot(f, k) => b.StackSlot? ==> f < b.frame || (f == b.frame && k < b.slot)
    case SchedWord(w) => b.SchedWord? && w < b.word
  }

  // The non-zero pointer p of goroutine gr resolves to the root's object.
  ghost predicate LeadsTo(l: Lookup, p: u64, r: RootRef)
  {
    p != 0 && r.ptr == p && Resolve(l, p) == Some(r.objectID)
  }

  // The root is what the slot, or the word, contributes.
  ghost predicate ComesFrom(l: Lookup, gr: HeapGoroutine, o: Origin, r: RootRef)
  {
    match o
    case StackSlot(f, k) =>
      && f < |gr.frames| && k < |gr.frames[f].pointerAddrs|
      && LeadsTo(l, gr.frames[f].pointerAddrs[k], r)
      && r.slotAddr == (if k < |gr.frames[f].pointerSlots| then gr.frames[f].pointerSlots[k] else 0)
      && r.kind == "stack" && r.detail == gr.frames[f].funcName
    case SchedWord(w) =>
      && r.slotAddr == 0 && r.detail == []
      && ((w == 0 && r.kind == "sched.ctxt" && LeadsTo(l, gr.sched.ctxt, r))
          || (w == 1 && r.kind == "defer" && LeadsTo(l, gr.sched.deferAddr, r))
          || (w == 2 && r.kind == "panic" && LeadsTo(l, gr.sched.panicAddr, r)))
  }

  ghost predicate Contributes(l: Lookup, gr: HeapGoroutine, o: Origin)
  {
    exists r :: ComesFrom(l, gr, o, r)
  }

  // roots[i] comes from origins[i]; the origins are in order, below o, and complete.
  ghost predicate AreOriginsBelow(l: Lookup, gr: HeapGoroutine, roots: seq<RootRef>, origins: seq<Origin>, below: Origin)
  {
    && |origins| == |roots|
    && (forall i :: 0 <= i < |roots| ==> ComesFrom(l, gr, origins[i], roots[i]) && Before(origins[i], below))
    && (forall i, j :: 0 <= i < j < |origins| ==> Before(origins[i], origins[j]))
    && (forall o :: Before(o, below) && Contributes(l, gr, o) ==> o in origins)
  }

  const END := SchedWord(3)

  // Every origin of the goroutine contributes one root, in order.
  ghost predicate AreOrigins(l: Lookup, gr: HeapGoroutine, roots: seq<RootRef>, origins: seq<Origin>)
  {
    AreOriginsBelow(l, gr, roots, origins, END)
  }

  lemma OriginIsUnique(l: Lookup, gr: HeapGoroutine, o: Origin, r: RootRef, s: RootRef)
    requires ComesFrom(l, gr, o, r) && ComesFrom(l, gr, o, s)
    ensures r == s
  {}

  // The candidate of one origin, resolved.
  lemma OriginAdded(l: Lookup, gr: HeapGoroutine, f: Found, origins: seq<Origin>, o: Origin, c: Candidate, next: Origin) returns (more: seq<Origin>)
    requires AreOriginsBelow(l, gr, f.roots, origins, o) && Before(o, next)
    requires forall r :: ComesFrom(l, gr, o, r) <==> LeadsTo(l, c.ptr, r) && r == RootRef(r.objectID, c.ptr, c.slot, c.kind, c.detail)
    requires forall p :: Before(p, next) && Contributes(l, gr, p) ==> p == o || Before(p, o)
    requires forall p :: Before(p, o) ==> Before(p, next)
    ensures AreOriginsBelow(l, gr, Resolved1(l, c, f).roots, more, next)
  {
    var g := Resolved1(l, c, f);
    if c.ptr != 0 && Resolve(l, c.ptr).Some? {
      var r := RootRef(Resolve(l, c.ptr).value, c.ptr, c.slot, c.kind, c.detail);
      more := origins + [o];
      assert ComesFrom(l, gr, o, r);
      forall p | Before(p, next) && Contributes(l, gr, p)
        ensures p in more
      {
        if p == o {
          assert more[|origins|] == o;
        } else {
          assert p in origins;
        }
      }
    } else {
      more := origins;
      assert !Contributes(l, gr, o);
    }
  }

  lemma SlotCandidate(l: Lookup, gr: HeapGoroutine, f: nat, k: nat, r: RootRef)
    requires f < |gr.frames| && k < |gr.frames[f].pointerAddrs|
    ensures var c := FrameCandidate(gr.frames[f], k);
      ComesFrom(l, gr, StackSlot(f, k), r) <==> LeadsTo(l, c.ptr, r) && r == RootRef(r.objectID, c.ptr, c.slot, c.kind, c.detail)
  {}

  lemma NextSlot(l: Lookup, gr: HeapGoroutine, f: nat, k: nat, found: Found, origins: seq<Origin>) returns (more: seq<Origin>)
    requires f < |gr.frames| && k < |gr.frames[f].pointerAddrs|
    requires AreOriginsBelow(l, gr, found.roots, origins, StackSlot(f, k))
    ensures AreOriginsBelow(l, gr, Resolved1(l, FrameCandidate(gr.frames[f], k), found).roots, more, StackSlot(f, k + 1))
  {
    forall r
      ensures var c := FrameCandidate(gr.frames[f], k);
        ComesFrom(l, gr, StackSlot(f, k), r) <==> LeadsTo(l, c.ptr, r) && r == RootRef(r.objectID, c.ptr, c.slot, c.kind, c.detail)
    {
      SlotCandidate(l, gr, f, k, r);
    }
    more := OriginAdded(l, gr, found, origins, StackSlot(f, k), FrameCandidate(gr.frames[f], k), StackSlot(f, k + 1));
  }

  // A frame has no slots behind its last.
  lemma FrameDone(l: Lookup, gr: HeapGoroutine, f: nat, roots: seq<RootRef>, origins: seq<Origin>)
    requires f < |gr.frames| && AreOriginsBelow(l, gr, roots, origins, StackSlot(f, |gr.frames[f].pointerAddrs|))
    ensures AreOriginsBelow(l, gr, roots, origins, StackSlot(f + 1, 0))
  {
    forall o | Before(o, StackSlot(f + 1, 0)) && Contributes(l, gr, o)
      ensures o in origins
    {
      var r :| ComesFrom(l, gr, o, r);
    }
  }

  lemma {:induction false} FrameOrigins(l: Lookup, gr: HeapGoroutine, f: nat, n: nat, found: Found, origins: seq<Origin>) returns (more: seq<Origin>)
    requires f < |gr.frames| && n <= |gr.frames[f].pointerAddrs|
    requires AreOriginsBelow(l, gr, found.roots, origins, StackSlot(f, 0))
    ensures AreOriginsBelow(l, gr, FrameFound(l, gr.frames[f], n, found).roots, more, StackSlot(f, n))
  {
    if n == 0 {
      more := origins;
    } else {
      var fewer := FrameOrigins(l, gr, f, n - 1, found, origins);
      more := NextSlot(l, gr, f, n - 1, FrameFound(l, gr.frames[f], n - 1, found), fewer);
    }
  }

  lemma {:induction false} StackOrigins(l: Lookup, gr: HeapGoroutine, n: nat) returns (origins: seq<Origin>)
    requires n <= |gr.frames|
    ensures AreOriginsBelow(l, gr, StackFound(l, gr.frames, n).roots, origins, StackSlot(n, 0))
  {
    if n == 0 {
      origins := [];
    } else {
      var fewer := StackOrigins(l, gr, n - 1);
      origins := FrameOrigins(l, gr, n - 1, |gr.frames[n - 1].pointerAddrs|, StackFound(l, gr.frames, n - 1), fewer);
      FrameDone(l, gr, n - 1, StackFound(l, gr.frames, n).roots, origins);
    }
  }

  lemma StackDone(l: Lookup, gr: HeapGoroutine, roots: seq<RootRef>, origins: seq<Origin>)
    requires AreOriginsBelow(l, gr, roots, origins, StackSlot(|gr.frames|, 0))
    ensures AreOriginsBelow(l, gr, roots, origins, SchedWord(0))
  {
    forall o | Before(o, SchedWord(0)) && Contributes(l, gr, o)
      ensures o in origins
    {
      var r :| ComesFrom(l, gr, o, r);
    }
  }

  lemma NextWord(l: Lookup, gr: HeapGoroutine, w: nat, found: Found, origins: seq<Origin>) returns (more: seq<Origin>)
    requires w < 3 && AreOriginsBelow(l, gr, found.roots, origins, SchedWord(w))
    ensures AreOriginsBelow(l, gr, Resolved1(l, SchedCandidates(gr.sched)[w], found).roots, more, SchedWord(w + 1))
  {
    more := OriginAdded(l, gr, found, origins, SchedWord(w), SchedCandidates(gr.sched)[w], SchedWord(w + 1));
  }

  lemma {:induction false} SchedOrigins(l: Lookup, gr: HeapGoroutine, stack: Found, origins: seq<Origin>, n: nat) returns (more: seq<Origin>)
    requires n <= 3 && AreOriginsBelow(l, gr, stack.roots, origins, SchedWord(0))
    ensures AreOriginsBelow(l, gr, SchedFound(l, gr.sched, n, stack).roots, more, SchedWord(n))
  {
    if n == 0 {
      more := origins;
    } else {
      var fewer := SchedOrigins(l, gr, stack, origins, n - 1);
      more := NextWord(l, gr, n - 1, SchedFound(l, gr.sched, n - 1, stack), fewer);
    }
  }

  lemma GoroutineOrigins(l: Lookup, gr: HeapGoroutine) returns (origins: seq<Origin>)
    ensures AreOrigins(l, gr, GoroutineFound(l, gr).roots, origins)
  {
    var stack := StackFound(l, gr.frames, |gr.frames|);
    origins := StackOrigins(l, gr, |gr.frames|);
    StackDone(l, gr, stack.roots, origins);
    origins := SchedOrigins(l, gr, stack, origins, 3);
  }

  // ---- Unresolved stack pointers ----

  ghost predicate Dangles(l: Lookup, p: u64) { p != 0 && Resolve(l, p).None? }

  // The slots among the first n of a frame that point nowhere.
  ghost function DanglingSlots(l: Lookup, fr: Frame, n: nat): set<nat>
    requires n <= |fr.pointerAddrs|
  {
    set k: nat | k < n && Dangles(l, fr.pointerAddrs[k])
  }

  ghost function DanglingIn(l: Lookup, frames: seq<Frame>, n: nat): nat
    requires n <= |frames|
  {
    if n == 0 then 0 else DanglingIn(l, frames, n - 1) + |DanglingSlots(l, frames[n - 1], |frames[n - 1].pointerAddrs|)|
  }

  ghost function DanglingOf(l: Lookup, grs: seq<HeapGoroutine>, n: nat): nat
    requires n <= |grs|
  {
    if n == 0 then 0 else DanglingOf(l, grs, n - 1) + DanglingIn(l, grs[n - 1].frames, |grs[n - 1].frames|)
  }

  lemma OneDangling(l: Lookup, c: Candidate, f: Found)
    ensures Resolved1(l, c, f).unresolved == f.unresolved + (if Dangles(l, c.ptr) then 1 else 0)
  {}

  lemma NextDangling(l: Lookup, fr: Frame, n: nat)
    requires n < |fr.pointerAddrs|
    ensures |DanglingSlots(l, fr, n + 1)| == |DanglingSlots(l, fr, n)| + (if Dangles(l, fr.pointerAddrs[n]) then 1 else 0)
  {
    if Dangles(l, fr.pointerAddrs[n]) {
      assert DanglingSlots(l, fr, n + 1) == DanglingSlots(l, fr, n) + {n};
    } else {
      assert DanglingSlots(l, fr, n + 1) == DanglingSlots(l, fr, n);
    }
  }

  lemma SlotDangling(l: Lookup, fr: Frame, n: nat, found: Found)
    requires n < |fr.pointerAddrs|
    ensures FrameFound(l, fr, n + 1, found).unresolved + |DanglingSlots(l, fr, n)|
         == FrameFound(l, fr, n, found).unresolved + |DanglingSlots(l, fr, n + 1)|
  {
    NextDangling(l, fr, n);
    OneDangling(l, FrameCandidate(fr, n), FrameFound(l, fr, n, found));
  }

  ghost function MissesAt(l: Lookup, fr: Frame, found: Found): nat -> int
  {
    (i: nat) => if i <= |fr.pointerAddrs| then FrameFound(l, fr, i, found).unresolved else 0
  }

  ghost function SlotsAt(l: Lookup, fr: Frame): nat -> int
  {
    (i: nat) => if i <= |fr.pointerAddrs| then |DanglingSlots(l, fr, i)| else 0
  }

  // Both functions rise by the same amount at i.
  ghost predicate RiseAlike(f: nat -> int, g: nat -> int, i: nat)
  {
    f(i + 1) - f(i) == g(i + 1) - g(i)
  }

  lemma {:induction false} RiseTogether(f: nat -> int, g: nat -> int, n: nat)
    requires forall i: nat :: i < n ==> RiseAlike(f, g, i)
    ensures f(n) - f(0) == g(n) - g(0)
  {
    if n > 0 {
      RiseTogether(f, g, n - 1);
      assert RiseAlike(f, g, n - 1);
    }
  }

  lemma MissesRise(l: Lookup, fr: Frame, n: nat, found: Found)
    requires n < |fr.pointerAddrs|
    ensures RiseAlike(MissesAt(l, fr, found), SlotsAt(l, fr), n)
  {
    SlotDangling(l, fr, n, found);
  }

  lemma MissesRiseTogether(l: Lookup, fr: Frame, n: nat, found: Found, misses: nat -> int, slots: nat -> int)
    requires n <= |fr.pointerAddrs| && misses == MissesAt(l, fr, found) && slots == SlotsAt(l, fr)
    ensures misses(n) - misses(0) == slots(n) - slots(0)
  {
    forall i: nat | i < n
      ensures RiseAlike(misses, slots, i)
    {
      MissesRise(l, fr, i, found);
    }
    RiseTogether(misses, slots, n);
  }

  lemma FrameDangling(l: Lookup, fr: Frame, n: nat, found: Found)
    requires n <= |fr.pointerAddrs|
    ensures FrameFound(l, fr, n, found).unresolved == found.unresolved + |DanglingSlots(l, fr, n)|
  {
    MissesRiseTogether(l, fr, n, found, MissesAt(l, fr, found), SlotsAt(l, fr));
    assert DanglingSlots(l, fr, 0) == {};
  }

  lemma {:induction false} StackDangling(l: Lookup, frames: seq<Frame>, n: nat)
    requires n <= |frames|
    ensures StackFound(l, frames, n).unresolved == DanglingIn(l, frames, n)
  {
    if n > 0 {
      StackDangling(l, frames, n - 1);
      FrameDangling(l, frames[n - 1], |frames[n - 1].pointerAddrs|, StackFound(l, frames, n - 1));
    }
  }

  lemma {:induction false} MissesAreDangling(l: Lookup, grs: seq<HeapGoroutine>, n: nat)
    requires n <= |grs|
    ensures StackMisses(l, grs, n) == DanglingOf(l, grs, n)
  {
    if n > 0 {
      MissesAreDangling(l, grs, n - 1);
      StackDangling(l, grs[n - 1].frames, |grs[n - 1].frames|);
    }
  }

  lemma {:induction false} GoroutinesAt(l: Lookup, grs: seq<HeapGoroutine>, n: nat)
    requires n <= |grs|
    ensures |GoroutinesUpTo(l, grs, n)| == n
    ensures forall i :: 0 <= i < n ==> GoroutinesUpTo(l, grs, n)[i] == GoroutineOf(l, grs[i])
  {
    if n > 0 {
      GoroutinesAt(l, grs, n - 1);
    }
  }

  // Of every build: goroutine i keeps its ID and flags, and its roots are one for each
  // frame slot and scheduler word that resolves, in order; the stack slots that point
  // nowhere are counted.
  lemma BuiltGoroutines(snap: Snapshot, keep: bool, m: nat, b: Built)
    requires IsBuiltFrom(snap, keep, m, b)
    ensures |b.analysis.goroutines| == |snap.goroutines|
    ensures b.unresolved.goroutines == DanglingOf(LookupOf(b.analysis.graph), snap.goroutines, |snap.goroutines|)
    ensures forall i :: 0 <= i < |snap.goroutines| ==>
      IsGoroutineOf(LookupOf(b.analysis.graph), snap.goroutines[i], b.analysis.goroutines[i])
  {
    var l, grs := LookupOf(b.analysis.graph), snap.goroutines;
    MissesAreDangling(l, grs, |grs|);
    GoroutinesAt(l, grs, |grs|);
    forall i | 0 <= i < |grs|
      ensures IsGoroutineOf(l, grs[i], b.analysis.goroutines[i])
    {
      var origins := GoroutineOrigins(l, grs[i]);
    }
  }

  ghost predicate IsGoroutineOf(l: Lookup, gr: HeapGoroutine, g: Goroutine)
  {
    && g.id == gr.id && g.isSystem == gr.isSystem && g.isBackground == gr.isBackground
    && exists origins :: AreOrigins(l, gr, g.roots, origins)
  }

  // Membership alone.
  lemma RootIff(l: Lookup, gr: HeapGoroutine, g: Goroutine, r: RootRef)
    requires IsGoroutineOf(l, gr, g)
    ensures r in g.roots <==> exists o :: ComesFrom(l, gr, o, r)
  {
    var origins :| AreOrigins(l, gr, g.roots, origins);
    if o :| ComesFrom(l, gr, o, r) {
      assert Before(o, END) && Contributes(l, gr, o);
      var i :| 0 <= i < |origins| && origins[i] == o;
      OriginIsUnique(l, gr, o, r, g.roots[i]);
    }
    if r in g.roots {
      var i :| 0 <= i < |g.roots| && g.roots[i] == r;
      assert ComesFrom(l, gr, origins[i], r);
    }
  }

  // ---- Process-wide roots ----

  ghost predicate IsRootAt(l: Lookup, p: u64, slot: u64, kind: string, detail: seq<byte>, r: RootRef)
  {
    LeadsTo(l, p, r) && r.slotAddr == slot && r.kind == kind && r.detail == detail
  }

  ghost predicate FromGlobal(l: Lookup, g: Root, r: RootRef)
  {
    IsRootAt(l, g.pointerAddr, g.addr, if g.kind == "" then "otherroot" else g.kind, g.description, r)
  }

  // Slot k of a segment; its address is the segment's own, if it has one for each pointer.
  ghost predicate FromSegment(l: Lookup, seg: Segment, default: string, ptrSize: nat, k: nat, r: RootRef)
  {
    && k < |seg.pointerAddrs|
    && IsRootAt(l, seg.pointerAddrs[k],
                if |seg.pointerSlots| == |seg.pointerAddrs| then seg.pointerSlots[k] else SlotOf(SegmentSlots(seg, ptrSize), k),
                if seg.kind == "" then default else seg.kind, [], r)
  }

  ghost predicate FromSomeSegment(l: Lookup, segs: seq<Segment>, default: string, ptrSize: nat, r: RootRef)
  {
    exists i, k: nat :: 0 <= i < |segs| && FromSegment(l, segs[i], default, ptrSize, k, r)
  }

  // The candidate's root is r.
  ghost predicate Yields(l: Lookup, c: Candidate, r: RootRef)
  {
    IsRootAt(l, c.ptr, c.slot, c.kind, c.detail, r)
  }

  ghost predicate SomeYields(l: Lookup, cs: seq<Candidate>, r: RootRef)
  {
    exists c :: c in cs && Yields(l, c, r)
  }

  lemma FoundYields(l: Lookup, cs: seq<Candidate>, r: RootRef)
    ensures r in FoundIn(l, cs).roots <==> SomeYields(l, cs, r)
  {
    FoundMeans(l, cs);
    if r in FoundIn(l, cs).roots {
      var c :| c in cs && c.ptr != 0 && Resolve(l, c.ptr) == Some(r.objectID) && r == RootRef(r.objectID, c.ptr, c.slot, c.kind, c.detail);
      assert Yields(l, c, r);
    }
    if c :| c in cs && Yields(l, c, r) {
      assert r == RootRef(r.objectID, c.ptr, c.slot, c.kind, c.detail);
    }
  }

  lemma GlobalsYield(l: Lookup, cs: seq<Candidate>, r: RootRef)
    ensures r in GlobalsIn(l, cs).roots <==> SomeYields(l, cs, r)
  {
    FoundYields(l, Keys(cs), r);
    NonZeroMembers(cs);
    FreshMembers(NonZero(cs), {});
  }

  lemma YieldsConcat(l: Lookup, a: seq<Candidate>, b: seq<Candidate>, r: RootRef)
    ensures SomeYields(l, a + b, r) <==> SomeYields(l, a, r) || SomeYields(l, b, r)
  {}

  lemma {:induction false} GlobalsYieldAt(l: Lookup, rs: seq<Root>, n: nat, r: RootRef)
    requires n <= |rs|
    ensures SomeYields(l, GlobalCandidates(rs, n), r) <==> exists i :: 0 <= i < n && FromGlobal(l, rs[i], r)
  {
    if n > 0 {
      GlobalsYieldAt(l, rs, n - 1, r);
      YieldsConcat(l, GlobalCandidates(rs, n - 1), [GlobalCandidate(rs[n - 1])], r);
      OneYields(l, GlobalCandidate(rs[n - 1]), r);
    }
  }

  lemma OneYields(l: Lookup, c: Candidate, r: RootRef)
    ensures SomeYields(l, [c], r) <==> Yields(l, c, r)
  {
    if Yields(l, c, r) {
      assert c in [c];
    }
  }

  lemma {:induction false} SegmentYields(l: Lookup, seg: Segment, default: string, ptrSize: nat, n: nat, r: RootRef)
    requires n <= |seg.pointerAddrs|
    ensures SomeYields(l, SegmentCandidates(seg, default, ptrSize, n), r) <==> exists k: nat :: k < n && FromSegment(l, seg, default, ptrSize, k, r)
  {
    if n > 0 {
      var c := Candidate(KindOfSegment(seg, default), seg.pointerAddrs[n - 1], SlotOf(SegmentSlots(seg, ptrSize), n - 1), []);
      SegmentYields(l, seg, default, ptrSize, n - 1, r);
      YieldsConcat(l, SegmentCandidates(seg, default, ptrSize, n - 1), [c], r);
      OneYields(l, c, r);
      assert FromSegment(l, seg, default, ptrSize, n - 1, r) <==> Yields(l, c, r);
    }
  }

  lemma {:induction false} SegmentsYield(l: Lookup, segs: seq<Segment>, default: string, ptrSize: nat, n: nat, r: RootRef)
    requires n <= |segs|
    ensures SomeYields(l, SegmentsCandidates(segs, default, ptrSize, n), r) <==>
      exists i, k: nat :: 0 <= i < n && FromSegment(l, segs[i], default, ptrSize, k, r)
  {
    if n > 0 {
      var more := SegmentCandidates(segs[n - 1], default, ptrSize, |segs[n - 1].pointerAddrs|);
      SegmentsYield(l, segs, default, ptrSize, n - 1, r);
      SegmentYields(l, segs[n - 1], default, ptrSize, |segs[n - 1].pointerAddrs|, r);
      YieldsConcat(l, SegmentsCandidates(segs, default, ptrSize, n - 1), more, r);
    }
  }

  lemma GlobalPart(l: Lookup, snap: Snapshot, r: RootRef)
    ensures r in GlobalsIn(l, SnapshotCandidates(snap)).roots <==> IsMemoryRoot(l, snap, r)
  {
    var w := snap.params.ptrSize;
    var gs := GlobalCandidates(snap.globals, |snap.globals|);
    var ds, bs := SegmentsCandidates(snap.data, "data", w, |snap.data|), SegmentsCandidates(snap.bss, "bss", w, |snap.bss|);
    GlobalsYield(l, gs + ds + bs, r);
    YieldsConcat(l, gs + ds, bs, r);
    YieldsConcat(l, gs, ds, r);
    GlobalsYieldAt(l, snap.globals, |snap.globals|, r);
    SegmentsYield(l, snap.data, "data", w, |snap.data|, r);
    SegmentsYield(l, snap.bss, "bss", w, |snap.bss|, r);
  }

  // ---- Finalizers, in order ----

  ghost function RootTo(l: Lookup, p: u64, kind: string): seq<RootRef>
  {
    if p != 0 && Resolve(l, p).Some? then [RootRef(Resolve(l, p).value, p, 0, kind, [])] else []
  }

  // Of each finalizer its object, then its function value; nothing is dropped.
  ghost function FinalizerRoots(l: Lookup, fins: seq<Finalizer>, kind: string, n: nat): seq<RootRef>
    requires n <= |fins|
  {
    if n == 0 then []
    else FinalizerRoots(l, fins, kind, n - 1) + RootTo(l, fins[n - 1].objectAddr, kind) + RootTo(l, fins[n - 1].funcVal, kind)
  }

  ghost function DanglingFinalizers(l: Lookup, fins: seq<Finalizer>, n: nat): nat
    requires n <= |fins|
  {
    if n == 0 then 0
    else DanglingFinalizers(l, fins, n - 1) + (if Dangles(l, fins[n - 1].objectAddr) then 1 else 0) + (if Dangles(l, fins[n - 1].funcVal) then 1 else 0)
  }

  lemma OneMore(l: Lookup, p: u64, kind: string, f: Found)
    ensures Resolved1(l, Candidate(kind, p, 0, []), f) == Found(f.roots + RootTo(l, p, kind), f.unresolved + (if Dangles(l, p) then 1 else 0))
  {}

  lemma TwoMore(l: Lookup, cs: seq<Candidate>, p: u64, q: u64, kind: string)
    ensures var f := FoundIn(l, cs);
      FoundIn(l, cs + [Candidate(kind, p, 0, []), Candidate(kind, q, 0, [])]) ==
        Found(f.roots + RootTo(l, p, kind) + RootTo(l, q, kind), f.unresolved + (if Dangles(l, p) then 1 else 0) + (if Dangles(l, q) then 1 else 0))
  {
    var a, b := Candidate(kind, p, 0, []), Candidate(kind, q, 0, []);
    FoundSnoc(l, cs, a);
    FoundSnoc(l, cs + [a], b);
    assert cs + [a, b] == cs + [a] + [b];
    OneMore(l, p, kind, FoundIn(l, cs));
    OneMore(l, q, kind, FoundIn(l, cs + [a]));
  }

  ghost predicate InOrder(l: Lookup, fins: seq<Finalizer>, kind: string, n: nat, f: Found)
    requires n <= |fins|
  {
    f.roots == FinalizerRoots(l, fins, kind, n) && f.unresolved == DanglingFinalizers(l, fins, n)
  }

  lemma {:induction false} FinalizersInOrder(l: Lookup, fins: seq<Finalizer>, kind: string, n: nat)
    requires n <= |fins|
    ensures InOrder(l, fins, kind, n, FoundIn(l, FinalizerCandidates(fins, kind, n)))
  {
    if n > 0 {
      FinalizersInOrder(l, fins, kind, n - 1);
      TwoMore(l, FinalizerCandidates(fins, kind, n - 1), fins[n - 1].objectAddr, fins[n - 1].funcVal, kind);
    }
  }

  // ---- All process-wide roots ----

  ghost predicate IsMemoryRoot(l: Lookup, snap: Snapshot, r: RootRef)
  {
    || (exists i :: 0 <= i < |snap.globals| && FromGlobal(l, snap.globals[i], r))
    || FromSomeSegment(l, snap.data, "data", snap.params.ptrSize, r)
    || FromSomeSegment(l, snap.bss, "bss", snap.params.ptrSize, r)
  }

  ghost predicate NoRepetition<T(!new)>(s: seq<T>)
  {
    forall i, j :: 0 <= i < j < |s| ==> s[i] != s[j]
  }

  lemma {:induction false} FreshOnce<T(!new)>(ts: seq<T>)
    ensures NoRepetition(Fresh(ts, {}))
  {
    if |ts| > 0 {
      FreshOnce(ts[..|ts| - 1]);
      FreshMembers(ts[..|ts| - 1], {});
    }
  }

  // Candidates without repetition give roots without repetition.
  lemma {:induction false} FoundOnce(l: Lookup, cs: seq<Candidate>)
    requires NoRepetition(cs)
    ensures NoRepetition(FoundIn(l, cs).roots)
  {
    if |cs| > 0 {
      var p, c := cs[..|cs| - 1], cs[|cs| - 1];
      FoundOnce(l, p);
      forall k | 0 <= k < |p|
        ensures p[k] != c
      {
        assert cs[k] == p[k];
      }
      var before, roots := FoundIn(l, p).roots, FoundIn(l, cs).roots;
      if |roots| > |before| {
        var r := roots[|before|];
        assert roots == before + [r] && Yields(l, c, r);
        FoundYields(l, p, r);
        YieldsOnce(l, p, c, r);
        assert r !in before;
      }
    }
  }

  lemma SameCandidate(l: Lookup, c: Candidate, d: Candidate, r: RootRef)
    requires Yields(l, c, r) && Yields(l, d, r)
    ensures c == d
  {}

  lemma YieldsOnce(l: Lookup, p: seq<Candidate>, c: Candidate, r: RootRef)
    requires c !in p && Yields(l, c, r)
    ensures !SomeYields(l, p, r)
  {
    forall d | Yields(l, d, r)
      ensures d == c
    {
      SameCandidate(l, d, c, r);
    }
  }

  // Of every build: first, once each, exactly what the global roots and the data and
  // bss slots contribute; then, in order, what the finalizers and the queued ones do.
  lemma BuiltGlobals(snap: Snapshot, keep: bool, m: nat, b: Built) returns (memory: seq<RootRef>)
    requires IsBuiltFrom(snap, keep, m, b)
    ensures var l := LookupOf(b.analysis.graph);
      && b.analysis.globals == memory + (FinalizerRoots(l, snap.finalizers, "finalizer", |snap.finalizers|)
                                         + FinalizerRoots(l, snap.queued, "queued_finalizer", |snap.queued|))
      && b.unresolved.finalizers == DanglingFinalizers(l, snap.finalizers, |snap.finalizers|) + DanglingFinalizers(l, snap.queued, |snap.queued|)
      && NoRepetition(memory) && forall r :: r in memory <==> IsMemoryRoot(l, snap, r)
  {
    var l := LookupOf(b.analysis.graph);
    var cs := SnapshotCandidates(snap);
    memory := GlobalsIn(l, cs).roots;
    FreshOnce(NonZero(cs));
    FoundOnce(l, Keys(cs));
    forall r
      ensures r in memory <==> IsMemoryRoot(l, snap, r)
    {
      GlobalPart(l, snap, r);
    }
    FinalizersInOrder(l, snap.finalizers, "finalizer", |snap.finalizers|);
    FinalizersInOrder(l, snap.queued, "queued_finalizer", |snap.queued|);
    FoundConcat(l, FinalizerCandidates(snap.finalizers, "finalizer", |snap.finalizers|),
                FinalizerCandidates(snap.queued, "queued_finalizer", |snap.queued|));
  }
}
