// What every parsed dump satisfies: counters, goroutine sections and segment
// roots (internal/heapdump/parser.go).
module DumpFacts {
  import opened Words
  import opened Wrappers
  import opened Heap
  import opened Wire
  import opened Records
  import opened Pointers
  import opened Dump
  import opened GraphRoots

  // ---- Counters ----

  function ObjectPointers(objs: seq<HeapObject>): nat
  {
    if |objs| == 0 then 0 else ObjectPointers(objs[..|objs| - 1]) + |objs[|objs| - 1].pointerAddrs|
  }

  function ObjectSizes(objs: seq<HeapObject>): nat
  {
    if |objs| == 0 then 0 else ObjectSizes(objs[..|objs| - 1]) + objs[|objs| - 1].size
  }

  function SegmentPointers(segs: seq<Segment>): nat
  {
    if |segs| == 0 then 0 else SegmentPointers(segs[..|segs| - 1]) + |segs[|segs| - 1].pointerAddrs|
  }

  function FramePointers(frames: seq<Frame>): nat
  {
    if |frames| == 0 then 0 else FramePointers(frames[..|frames| - 1]) + |frames[|frames| - 1].pointerAddrs|
  }

  function FrameCount(gs: seq<HeapGoroutine>): nat
  {
    if |gs| == 0 then 0 else FrameCount(gs[..|gs| - 1]) + |gs[|gs| - 1].frames|
  }

  function StackPointers(gs: seq<HeapGoroutine>): nat
  {
    if |gs| == 0 then 0 else StackPointers(gs[..|gs| - 1]) + FramePointers(gs[|gs| - 1].frames)
  }

  // Counters and list lengths agree.
  ghost predicate ListsCounted(st: State)
  {
    var c, s := st.stats.counts, st.snap;
    && |c| == TAGS
    && c[TAG_OBJECT] == |s.objects| && c[TAG_GOROUTINE] == |s.goroutines|
    && c[TAG_DATA] == |s.data| && c[TAG_BSS] == |s.bss|
    && c[TAG_FINALIZER] == |s.finalizers| && c[TAG_QUEUED_FINALIZER] == |s.queued|
    && c[TAG_OS_THREAD] == |s.extras.threads| && c[TAG_MEM_PROF] == |s.extras.profiles|
    && c[TAG_ALLOC_SAMPLE] == |s.extras.samples|
    && st.stats.roots == |s.globals|
  }

  // Pointer counters count the pointers kept in the lists.
  ghost predicate PointersCounted(st: State)
  {
    var p, s := st.stats.pointers, st.snap;
    && p.objects == ObjectPointers(s.objects)
    && p.data == SegmentPointers(s.data) && p.bss == SegmentPointers(s.bss)
    && st.stats.objectBytes == ObjectSizes(s.objects) % TWO64
  }

  // The current goroutine is the last one; frames are counted where they went.
  ghost predicate FramesCounted(st: State)
  {
    && (st.current.Some? ==> st.current.value + 1 == |st.snap.goroutines|)
    && |st.stats.counts| == TAGS && st.stats.counts[TAG_STACK_FRAME] == FrameCount(st.snap.goroutines)
    && st.stats.pointers.frames == StackPointers(st.snap.goroutines)
  }

  // Every pointer of a segment is listed among the global roots.
  ghost predicate SegmentsListed(st: State)
  {
    AllListed(st.snap.data, "data", st.snap.globals) && AllListed(st.snap.bss, "bss", st.snap.globals)
  }

  lemma InitialCounts()
    ensures ListsCounted(INITIAL) && PointersCounted(INITIAL) && FramesCounted(INITIAL) && SegmentsListed(INITIAL)
  {}

  lemma {:induction false} RootsOfLength(kind: string, x: Extracted, n: nat)
    requires n <= |x.targets|
    ensures |RootsOf(kind, x, n)| == n
  {
    if n > 0 {
      RootsOfLength(kind, x, n - 1);
    }
  }

  ghost predicate Facts(st: State)
  {
    ListsCounted(st) && PointersCounted(st) && FramesCounted(st) && SegmentsListed(st)
  }

  lemma ModSum(a: nat, b: nat)
    ensures (a % TWO64 + b) % TWO64 == (a + b) % TWO64
  {}

  lemma ParamsKeepFacts(st: State, vs: seq<Value>)
    requires Facts(st) && ApplyParams(st, vs).Ok?
    ensures Facts(ApplyParams(st, vs).value)
  {}

  // What the object step changes.
  lemma ObjectApplied(st: State, vs: seq<Value>, opts: Options)
    requires ApplyObject(st, vs, opts).Ok?
    ensures var st' := ApplyObject(st, vs, opts).value;
      var x := Decode(st, BytesOf(vs, 1), FieldsOf(vs, 2), 0, opts.keepOffsets);
      var o := ObjectOf(vs, x, opts.keepContents);
      && st'.snap == st.snap.(objects := st.snap.objects + [o]) && st'.current == st.current
      && st'.stats == ObjectStats(st.stats, x, o.size) && |o.pointerAddrs| == |x.targets|
  {}

  lemma ObjectKeepsFacts(st: State, vs: seq<Value>, opts: Options)
    requires Facts(st) && ApplyObject(st, vs, opts).Ok?
    ensures Facts(ApplyObject(st, vs, opts).value)
  {
    var x := Decode(st, BytesOf(vs, 1), FieldsOf(vs, 2), 0, opts.keepOffsets);
    var o := ObjectOf(vs, x, opts.keepContents);
    ObjectApplied(st, vs, opts);
    ObjectCounted(st, ApplyObject(st, vs, opts).value, x, o);
  }

  lemma ObjectCounted(st: State, st': State, x: Extracted, o: HeapObject)
    requires Facts(st) && st'.snap == st.snap.(objects := st.snap.objects + [o]) && st'.current == st.current
    requires st'.stats == ObjectStats(st.stats, x, o.size) && |o.pointerAddrs| == |x.targets|
    ensures Facts(st')
  {
    var objs := st.snap.objects;
    assert (objs + [o])[..|objs|] == objs;
    ModSum(ObjectSizes(objs), o.size);
  }

  lemma OtherRootKeepsFacts(st: State, vs: seq<Value>)
    requires Facts(st)
    ensures Facts(ApplyOtherRoot(st, vs))
  {}

  lemma {:induction false} RootsOfList(kind: string, x: Extracted, n: nat)
    requires n <= |x.targets| && |x.slots| == |x.targets|
    ensures forall k :: 0 <= k < n ==> Root(kind, [], x.slots[k], x.targets[k]) in RootsOf(kind, x, n)
  {
    if n > 0 {
      RootsOfList(kind, x, n - 1);
    }
  }

  lemma DecodedIsParallel(st: State, contents: seq<byte>, fields: seq<Field>, container: u64)
    ensures (var x := Decode(st, contents, fields, container, true); |x.slots| == |x.targets|)
  {
    if st.haveParams {
      ExtractIsFaithful(contents, fields, |fields|, View(st.snap.params.ptrSize, st.snap.params.bigEndian, container, true));
    }
  }

  lemma SegmentKeepsLists(st: State, isData: bool, vs: seq<Value>, opts: Options)
    requires Facts(st) && ApplySegment(st, isData, vs, opts).Ok?
    ensures SegmentsListed(ApplySegment(st, isData, vs, opts).value)
  {
    var kind := if isData then "data" else "bss";
    var x := Decode(st, BytesOf(vs, 1), FieldsOf(vs, 2), Word(vs, 0, 0), true);
    DecodedIsParallel(st, BytesOf(vs, 1), FieldsOf(vs, 2), Word(vs, 0, 0));
    RootsOfList(kind, x, |x.targets|);
    var roots := RootsOf(kind, x, |x.targets|);
    var globals := st.snap.globals + roots;
    StillListed(st.snap.data, "data", st.snap.globals, roots);
    StillListed(st.snap.bss, "bss", st.snap.globals, roots);
    assert IsListed(SegmentOf(kind, vs, x), kind, globals);
  }

  lemma StillListed(segs: seq<Segment>, default: string, globals: seq<Root>, more: seq<Root>)
    requires AllListed(segs, default, globals)
    ensures AllListed(segs, default, globals + more)
  {
    forall i | 0 <= i < |segs|
      ensures IsListed(segs[i], default, globals + more)
    {
      assert IsListed(segs[i], default, globals);
    }
  }

  lemma SegmentKeepsFacts(st: State, isData: bool, vs: seq<Value>, opts: Options)
    requires Facts(st) && ApplySegment(st, isData, vs, opts).Ok?
    ensures Facts(ApplySegment(st, isData, vs, opts).value)
  {
    var kind := if isData then "data" else "bss";
    var x := Decode(st, BytesOf(vs, 1), FieldsOf(vs, 2), Word(vs, 0, 0), true);
    RootsOfLength(kind, x, |x.targets|);
    var segs, seg := if isData then st.snap.data else st.snap.bss, SegmentOf(kind, vs, x);
    assert (segs + [seg])[..|segs|] == segs;
    SegmentKeepsLists(st, isData, vs, opts);
  }

  lemma GoroutineKeepsFacts(st: State, vs: seq<Value>)
    requires Facts(st)
    ensures Facts(ApplyGoroutine(st, vs))
  {
    var gs := st.snap.goroutines;
    assert (gs + [GoroutineOf(vs)])[..|gs|] == gs;
  }

  lemma LastFrame(gs: seq<HeapGoroutine>, fr: Frame)
    requires |gs| > 0
    ensures FrameCount(PushFrame(gs, |gs| - 1, fr)) == FrameCount(gs) + 1
    ensures StackPointers(PushFrame(gs, |gs| - 1, fr)) == StackPointers(gs) + |fr.pointerAddrs|
  {
    var n := |gs| - 1;
    var hs := PushFrame(gs, n, fr);
    assert hs[..n] == gs[..n];
    assert (gs[n].frames + [fr])[..|gs[n].frames|] == gs[n].frames;
  }

  lemma FrameKeepsFacts(st: State, vs: seq<Value>, opts: Options)
    requires Facts(st) && ApplyFrame(st, vs, opts).Ok?
    ensures Facts(ApplyFrame(st, vs, opts).value)
  {
    if st.current.Some? {
      var x := Decode(st, BytesOf(vs, 1), FieldsOf(vs, 4), Word(vs, 0, 0), true);
      LastFrame(st.snap.goroutines, FrameOf(vs, x));
    }
  }

  // Records with their own list, and those without.
  lemma OtherKeepsFacts(st: State, r: Record, opts: Options)
    requires Facts(st) && r.tag < TAGS && Apply(st, r, opts).Ok?
    requires r.tag in {TAG_FINALIZER, TAG_QUEUED_FINALIZER} || !(r.tag in {TAG_PARAMS, TAG_OBJECT, TAG_OTHER_ROOT, TAG_DATA, TAG_BSS, TAG_GOROUTINE, TAG_STACK_FRAME})
    ensures Facts(Apply(st, r, opts).value)
  {}

  // Every record keeps the facts.
  lemma StepKeepsFacts(st: State, r: Record, opts: Options)
    requires Facts(st) && r.tag < TAGS && Step(st, r, opts).Ok?
    ensures Facts(Step(st, r, opts).value)
  {
    var st0 := EndGoroutine(st, r.tag);
    assert Facts(st0);
    if r.tag == TAG_PARAMS {
      ParamsKeepFacts(st0, r.values);
    } else if r.tag == TAG_OBJECT {
      ObjectKeepsFacts(st0, r.values, opts);
    } else if r.tag == TAG_OTHER_ROOT {
      OtherRootKeepsFacts(st0, r.values);
    } else if r.tag == TAG_DATA {
      SegmentKeepsFacts(st0, true, r.values, opts);
    } else if r.tag == TAG_BSS {
      SegmentKeepsFacts(st0, false, r.values, opts);
    } else if r.tag == TAG_GOROUTINE {
      GoroutineKeepsFacts(st0, r.values);
    } else if r.tag == TAG_STACK_FRAME {
      FrameKeepsFacts(st0, r.values, opts);
    } else {
      OtherKeepsFacts(st0, r, opts);
    }
  }

  ghost predicate KnownTags(f: Format)
  {
    forall tag: u64 {:trigger f.layout(tag)} :: f.layout(tag).Some? ==> tag < TAGS
  }

  lemma DumpTags(lim: Limits)
    ensures KnownTags(DumpFormat(lim))
  {}

  // Records of known tags, and the last record, keep the facts.
  ghost predicate KeepsFacts(m: Machine)
  {
    && (forall st: State, r: Record {:trigger m.step(st, r)} :: Facts(st) && r.tag < TAGS && m.step(st, r).Ok? ==> Facts(m.step(st, r).value))
    && (forall st: State, r: Record {:trigger m.finish(st, r)} :: Facts(st) && m.finish(st, r).Ok? ==> Facts(m.finish(st, r).value))
  }

  lemma SameListsKeepFacts(st: State, st': State)
    requires Facts(st) && st'.snap == st.snap && (st'.current == st.current || st'.current == None)
    requires st'.stats == st.stats.(unknown := st'.stats.unknown)
    ensures Facts(st')
  {}

  lemma FinishChangesNoList(st: State, r: Record, opts: Options)
    requires Finish(st, r, opts).Ok?
    ensures var st' := Finish(st, r, opts).value;
      && st'.snap == st.snap && (st'.current == st.current || st'.current == None)
      && st'.stats == st.stats.(unknown := st'.stats.unknown)
  {}

  lemma FinishKeepsFacts(st: State, r: Record, opts: Options)
    requires Facts(st) && Finish(st, r, opts).Ok?
    ensures Facts(Finish(st, r, opts).value)
  {
    FinishChangesNoList(st, r, opts);
    SameListsKeepFacts(st, Finish(st, r, opts).value);
  }

  lemma ParserKeepsFacts(opts: Options)
    ensures KeepsFacts(MachineOf(opts))
  {
    var m := MachineOf(opts);
    forall st: State, r: Record | Facts(st) && r.tag < TAGS && m.step(st, r).Ok?
      ensures Facts(m.step(st, r).value)
    {
      StepKeepsFacts(st, r, opts);
    }
    forall st: State, r: Record | Facts(st) && m.finish(st, r).Ok?
      ensures Facts(m.finish(st, r).value)
    {
      FinishKeepsFacts(st, r, opts);
    }
  }

  lemma {:induction false} ParseKeepsFacts(f: Format, m: Machine, data: seq<byte>, pos: nat, st: State)
    requires KnownTags(f) && KeepsFacts(m) && Facts(st) && ParseFrom(f, m, data, pos, st).Ok?
    ensures Facts(ParseFrom(f, m, data, pos, st).value.value)
    decreases |data| - pos
  {
    var r := DecRecord(f, data, pos).value;
    if !IsLast(f, r.value) {
      ParseKeepsFacts(f, m, data, r.next, m.step(st, r.value).value);
    }
  }

  // Whatever the parser accepts, its counters are the lengths of its lists, its
  // pointer counters the pointers in them, and every segment pointer a root.
  lemma ParsedFacts(lim: Limits, opts: Options, data: seq<byte>)
    requires Parse(lim, opts, data).Ok?
    ensures Facts(Parse(lim, opts, data).value.value)
  {
    InitialCounts();
    DumpTags(Effective(lim));
    ParserKeepsFacts(opts);
    ParseKeepsFacts(DumpFormat(Effective(lim)), MachineOf(opts), data, DecLine(data, 0, 0).value.next, INITIAL);
  }

  // ---- Goroutine sections ----

  // The state after the first n records.
  function RunPrefix(m: Machine, rs: seq<Record>, n: nat, st: State): Result<State, ParseError>
    requires n <= |rs|
  {
    if n == 0 then Ok(st)
    else
      var prev :- RunPrefix(m, rs, n - 1, st);
      m.step(prev, rs[n - 1])
  }

  function GoroutineCount(rs: seq<Record>, n: nat): nat
    requires n <= |rs|
  {
    if n == 0 then 0 else GoroutineCount(rs, n - 1) + (if rs[n - 1].tag == TAG_GOROUTINE then 1 else 0)
  }

  // The goroutine whose section record n would continue.
  function OwnerAt(rs: seq<Record>, n: nat): Option<nat>
    requires n <= |rs|
  {
    if n == 0 then None
    else if rs[n - 1].tag == TAG_GOROUTINE then Some(GoroutineCount(rs, n - 1))
    else if KeepsGoroutine(rs[n - 1].tag) then OwnerAt(rs, n - 1)
    else None
  }

  // Record p starts goroutine j and only its frames, defers and panics follow up
  // to record n.
  ghost predicate SectionRuns(rs: seq<Record>, p: nat, n: nat, j: nat)
    requires n <= |rs|
  {
    && p < n && rs[p].tag == TAG_GOROUTINE && GoroutineCount(rs, p) == j
    && forall q :: p < q < n ==> rs[q].tag in {TAG_STACK_FRAME, TAG_DEFER, TAG_PANIC}
  }

  lemma {:induction false} OwnerMeans(rs: seq<Record>, n: nat, j: nat)
    requires n <= |rs|
    ensures OwnerAt(rs, n) == Some(j) <==> exists p: nat :: SectionRuns(rs, p, n, j)
  {
    if n > 0 {
      var t := rs[n - 1].tag;
      if t == TAG_GOROUTINE {
        if OwnerAt(rs, n) == Some(j) {
          assert SectionRuns(rs, n - 1, n, j);
        }
        if p: nat :| SectionRuns(rs, p, n, j) {
          assert p == n - 1;
        }
      } else {
        OwnerMeans(rs, n - 1, j);
        if KeepsGoroutine(t) && OwnerAt(rs, n - 1) == Some(j) {
          var p: nat :| SectionRuns(rs, p, n - 1, j);
          assert SectionRuns(rs, p, n, j);
        }
        if p: nat :| SectionRuns(rs, p, n, j) {
          assert rs[n - 1].tag in {TAG_STACK_FRAME, TAG_DEFER, TAG_PANIC};
          assert SectionRuns(rs, p, n - 1, j);
        }
      }
    }
  }

  // The frame records, among the first n, of goroutine j's section.
  function FrameRecords(rs: seq<Record>, n: nat, j: nat): seq<nat>
    requires n <= |rs|
  {
    if n == 0 then []
    else if rs[n - 1].tag == TAG_STACK_FRAME && OwnerAt(rs, n - 1) == Some(j) then FrameRecords(rs, n - 1, j) + [n - 1]
    else FrameRecords(rs, n - 1, j)
  }

  // Pointer size and byte order in force at record n: those of the latest
  // parameters record before it.
  function ParamsAt(rs: seq<Record>, n: nat): Option<(u64, bool)>
    requires n <= |rs|
  {
    if n == 0 then None
    else if rs[n - 1].tag == TAG_PARAMS then Some((Word(rs[n - 1].values, 1, 0), FlagOf(rs[n - 1].values, 0)))
    else ParamsAt(rs, n - 1)
  }

  // The frame record n describes, with the pointers its bytes hold under the
  // parameters in force.
  function FrameAt(rs: seq<Record>, n: nat): Frame
    requires n < |rs|
  {
    var vs := rs[n].values;
    match ParamsAt(rs, n)
    case None => FrameOf(vs, NOTHING)
    case Some(p) => FrameOf(vs, Extract(BytesOf(vs, 1), FieldsOf(vs, 4), View(p.0, p.1, Word(vs, 0, 0), true)))
  }

  // What records describe: the goroutine record n starts, the frame it adds.
  ghost function GoroutinesIn(rs: seq<Record>): nat -> HeapGoroutine
  {
    (n: nat) => GoroutineOf(if n < |rs| then rs[n].values else [])
  }

  ghost function FramesIn(rs: seq<Record>): nat -> Frame
  {
    (n: nat) => if n < |rs| then FrameAt(rs, n) else FrameOf([], NOTHING)
  }

  // The record that starts goroutine j.
  function StartOf(rs: seq<Record>, n: nat, j: nat): (p: nat)
    requires n <= |rs| && j < GoroutineCount(rs, n)
    ensures p < n && rs[p].tag == TAG_GOROUTINE && GoroutineCount(rs, p) == j
  {
    if rs[n - 1].tag == TAG_GOROUTINE && GoroutineCount(rs, n - 1) == j then n - 1 else StartOf(rs, n - 1, j)
  }

  // g is the goroutine base with the frames described by the records ids.
  ghost predicate HoldsSection(g: HeapGoroutine, base: HeapGoroutine, ids: seq<nat>, frame: nat -> Frame)
  {
    g.(frames := []) == base && |g.frames| == |ids| && forall k :: 0 <= k < |ids| ==> g.frames[k] == frame(ids[k])
  }

  ghost predicate AreSections(gs: seq<HeapGoroutine>, rs: seq<Record>, n: nat, goroutine: nat -> HeapGoroutine, frame: nat -> Frame)
    requires n <= |rs|
  {
    && |gs| == GoroutineCount(rs, n)
    && forall j :: 0 <= j < |gs| ==> HoldsSection(gs[j], goroutine(StartOf(rs, n, j)), FrameRecords(rs, n, j), frame)
  }

  // Goroutine j is as its start record describes it, with the frames of its
  // section.
  ghost predicate HoldsSections(gs: seq<HeapGoroutine>, rs: seq<Record>, n: nat)
    requires n <= |rs|
  {
    AreSections(gs, rs, n, GoroutinesIn(rs), FramesIn(rs))
  }

  ghost predicate ParamsKnown(st: State, rs: seq<Record>, n: nat)
    requires n <= |rs|
  {
    ParamsAt(rs, n) == if st.haveParams then Some((st.snap.params.ptrSize, st.snap.params.bigEndian)) else None
  }

  ghost predicate Attributed(st: State, rs: seq<Record>, n: nat)
    requires n <= |rs|
  {
    st.current == OwnerAt(rs, n) && ParamsKnown(st, rs, n) && HoldsSections(st.snap.goroutines, rs, n)
  }

  lemma {:induction false} OwnerBound(rs: seq<Record>, n: nat)
    requires n <= |rs|
    ensures OwnerAt(rs, n).Some? ==> OwnerAt(rs, n).value < GoroutineCount(rs, n)
  {
    if n > 0 {
      OwnerBound(rs, n - 1);
    }
  }

  lemma {:induction false} NoFramesYet(rs: seq<Record>, n: nat, j: nat)
    requires n <= |rs| && j >= GoroutineCount(rs, n)
    ensures FrameRecords(rs, n, j) == []
  {
    if n > 0 {
      NoFramesYet(rs, n - 1, j);
      OwnerBound(rs, n - 1);
    }
  }

  // What record n adds to goroutine j.
  lemma SectionNext(rs: seq<Record>, n: nat, j: nat)
    requires n < |rs| && j < GoroutineCount(rs, n)
    ensures StartOf(rs, n + 1, j) == StartOf(rs, n, j)
    ensures FrameRecords(rs, n + 1, j) == FrameRecords(rs, n, j) + (if rs[n].tag == TAG_STACK_FRAME && OwnerAt(rs, n) == Some(j) then [n] else [])
  {}

  lemma SectionGrows(g: HeapGoroutine, base: HeapGoroutine, ids: seq<nat>, frame: nat -> Frame, n: nat)
    requires HoldsSection(g, base, ids, frame)
    ensures HoldsSection(g.(frames := g.frames + [frame(n)]), base, ids + [n], frame)
  {}

  // A record that adds no goroutine and no frame leaves the sections alone.
  lemma SectionsKept(gs: seq<HeapGoroutine>, rs: seq<Record>, n: nat, goroutine: nat -> HeapGoroutine, frame: nat -> Frame)
    requires n < |rs| && AreSections(gs, rs, n, goroutine, frame) && rs[n].tag != TAG_GOROUTINE
    requires rs[n].tag == TAG_STACK_FRAME ==> OwnerAt(rs, n) == None
    ensures AreSections(gs, rs, n + 1, goroutine, frame)
  {
    forall j | 0 <= j < |gs|
      ensures HoldsSection(gs[j], goroutine(StartOf(rs, n + 1, j)), FrameRecords(rs, n + 1, j), frame)
    {
      SectionNext(rs, n, j);
      assert FrameRecords(rs, n, j) + [] == FrameRecords(rs, n, j);
    }
  }

  lemma {:induction false} FramePushed(gs: seq<HeapGoroutine>, rs: seq<Record>, n: nat, goroutine: nat -> HeapGoroutine, frame: nat -> Frame, owner: nat)
    requires n < |rs| && AreSections(gs, rs, n, goroutine, frame)
    requires rs[n].tag == TAG_STACK_FRAME && OwnerAt(rs, n) == Some(owner)
    ensures AreSections(PushFrame(gs, owner, frame(n)), rs, n + 1, goroutine, frame)
  {
    OwnerBound(rs, n);
    var hs := PushFrame(gs, owner, frame(n));
    forall j | 0 <= j < |hs|
      ensures HoldsSection(hs[j], goroutine(StartOf(rs, n + 1, j)), FrameRecords(rs, n + 1, j), frame)
    {
      SectionNext(rs, n, j);
      if j == owner {
        SectionGrows(gs[j], goroutine(StartOf(rs, n, j)), FrameRecords(rs, n, j), frame, n);
      } else {
        assert FrameRecords(rs, n, j) + [] == FrameRecords(rs, n, j);
      }
    }
  }

  lemma GoroutineAdded(gs: seq<HeapGoroutine>, rs: seq<Record>, n: nat, goroutine: nat -> HeapGoroutine, frame: nat -> Frame)
    requires n < |rs| && AreSections(gs, rs, n, goroutine, frame) && rs[n].tag == TAG_GOROUTINE && goroutine(n).frames == []
    ensures AreSections(gs + [goroutine(n)], rs, n + 1, goroutine, frame)
  {
    NoFramesYet(rs, n, |gs|);
    forall j | 0 <= j < |gs| + 1
      ensures HoldsSection((gs + [goroutine(n)])[j], goroutine(StartOf(rs, n + 1, j)), FrameRecords(rs, n + 1, j), frame)
    {
      if j < |gs| {
        SectionNext(rs, n, j);
        assert FrameRecords(rs, n, j) + [] == FrameRecords(rs, n, j);
      } else {
        assert FrameRecords(rs, n + 1, j) == [];
      }
    }
  }

  // What the frame step does to the goroutines.
  lemma FrameApplied(st: State, r: Record, opts: Options)
    requires r.tag == TAG_STACK_FRAME && Step(st, r, opts).Ok?
    ensures var st', x := Step(st, r, opts).value, Decode(st, BytesOf(r.values, 1), FieldsOf(r.values, 4), Word(r.values, 0, 0), true);
      && st'.current == st.current && st'.haveParams == st.haveParams && st'.snap.params == st.snap.params
      && st'.snap.goroutines == match st.current
        case None => st.snap.goroutines
        case Some(j) => PushFrame(st.snap.goroutines, j, FrameOf(r.values, x))
  {}

  lemma FrameDecoded(st: State, rs: seq<Record>, n: nat)
    requires n < |rs| && ParamsKnown(st, rs, n)
    ensures var vs := rs[n].values;
      FrameAt(rs, n) == FrameOf(vs, Decode(st, BytesOf(vs, 1), FieldsOf(vs, 4), Word(vs, 0, 0), true))
  {}

  lemma FrameStepAttributed(st: State, rs: seq<Record>, n: nat, opts: Options)
    requires n < |rs| && Attributed(st, rs, n) && rs[n].tag == TAG_STACK_FRAME && Step(st, rs[n], opts).Ok?
    ensures Attributed(Step(st, rs[n], opts).value, rs, n + 1)
  {
    FrameApplied(st, rs[n], opts);
    FrameDecoded(st, rs, n);
    if st.current.Some? {
      FramePushed(st.snap.goroutines, rs, n, GoroutinesIn(rs), FramesIn(rs), st.current.value);
    } else {
      SectionsKept(st.snap.goroutines, rs, n, GoroutinesIn(rs), FramesIn(rs));
    }
  }

  lemma GoroutineStepAttributed(st: State, rs: seq<Record>, n: nat, opts: Options)
    requires n < |rs| && Attributed(st, rs, n) && rs[n].tag == TAG_GOROUTINE
    ensures Attributed(ApplyGoroutine(st, rs[n].values), rs, n + 1)
  {
    GoroutineAdded(st.snap.goroutines, rs, n, GoroutinesIn(rs), FramesIn(rs));
  }

  // What every other step leaves alone.
  lemma OtherApplied(st: State, r: Record, opts: Options)
    requires Step(st, r, opts).Ok? && r.tag != TAG_STACK_FRAME && r.tag != TAG_GOROUTINE
    ensures var st' := Step(st, r, opts).value;
      && st'.snap.goroutines == st.snap.goroutines
      && st'.current == EndGoroutine(st, r.tag).current
      && (r.tag == TAG_PARAMS ==> st'.haveParams && st'.snap.params.ptrSize == Word(r.values, 1, 0) && st'.snap.params.bigEndian == FlagOf(r.values, 0))
      && (r.tag != TAG_PARAMS ==> st'.haveParams == st.haveParams && st'.snap.params == st.snap.params)
  {}

  lemma OtherStepAttributed(st: State, rs: seq<Record>, n: nat, opts: Options)
    requires n < |rs| && Attributed(st, rs, n) && Step(st, rs[n], opts).Ok?
    requires rs[n].tag != TAG_STACK_FRAME && rs[n].tag != TAG_GOROUTINE
    ensures Attributed(Step(st, rs[n], opts).value, rs, n + 1)
  {
    OtherApplied(st, rs[n], opts);
    SectionsKept(st.snap.goroutines, rs, n, GoroutinesIn(rs), FramesIn(rs));
  }

  lemma StepAttributed(st: State, rs: seq<Record>, n: nat, opts: Options)
    requires n < |rs| && Attributed(st, rs, n) && Step(st, rs[n], opts).Ok?
    ensures Attributed(Step(st, rs[n], opts).value, rs, n + 1)
  {
    if rs[n].tag == TAG_STACK_FRAME {
      FrameStepAttributed(st, rs, n, opts);
    } else if rs[n].tag == TAG_GOROUTINE {
      GoroutineStepAttributed(st, rs, n, opts);
    } else {
      OtherStepAttributed(st, rs, n, opts);
    }
  }

  // Steps keep the attribution, for the given records.
  ghost predicate KeepsAttribution(m: Machine, rs: seq<Record>)
  {
    forall st: State, n: nat {:trigger m.step(st, rs[n])} ::
      n < |rs| && Attributed(st, rs, n) && m.step(st, rs[n]).Ok? ==> Attributed(m.step(st, rs[n]).value, rs, n + 1)
  }

  lemma ParserKeepsAttribution(opts: Options, rs: seq<Record>)
    ensures KeepsAttribution(MachineOf(opts), rs)
  {
    var m := MachineOf(opts);
    forall st: State, n: nat | n < |rs| && Attributed(st, rs, n) && m.step(st, rs[n]).Ok?
      ensures Attributed(m.step(st, rs[n]).value, rs, n + 1)
    {
      StepAttributed(st, rs, n, opts);
    }
  }

  // Over every run: each goroutine holds exactly the frames of its own section,
  // in record order.
  lemma {:induction false} RunAttributes(m: Machine, rs: seq<Record>, n: nat)
    requires KeepsAttribution(m, rs) && n <= |rs| && RunPrefix(m, rs, n, INITIAL).Ok?
    ensures Attributed(RunPrefix(m, rs, n, INITIAL).value, rs, n)
  {
    if n > 0 {
      RunAttributes(m, rs, n - 1);
    }
  }

  // A prefix run that starts one record later.
  lemma {:induction false} PrefixShift(m: Machine, rs: seq<Record>, n: nat, st: State)
    requires n < |rs| && m.step(st, rs[0]).Ok?
    ensures RunPrefix(m, rs, n + 1, st) == RunPrefix(m, rs[1..], n, m.step(st, rs[0]).value)
  {
    if n == 0 {
      assert RunPrefix(m, rs, 0, st) == Ok(st);
    } else {
      PrefixShift(m, rs, n - 1, st);
    }
  }

  // The run over the records before the last, then the last.
  ghost predicate IsRunTo(m: Machine, rs: seq<Record>, st: State, final: State)
  {
    && |rs| > 0 && RunPrefix(m, rs, |rs| - 1, st).Ok?
    && m.finish(RunPrefix(m, rs, |rs| - 1, st).value, rs[|rs| - 1]) == Ok(final)
  }

  lemma RunToCons(m: Machine, rs: seq<Record>, st: State, final: State)
    requires |rs| > 1 && m.step(st, rs[0]).Ok? && IsRunTo(m, rs[1..], m.step(st, rs[0]).value, final)
    ensures IsRunTo(m, rs, st, final)
  {
    PrefixShift(m, rs, |rs| - 2, st);
  }

  lemma {:induction false} ParseIsPrefixRun(f: Format, m: Machine, data: seq<byte>, pos: nat, st: State)
    requires ParseFrom(f, m, data, pos, st).Ok?
    ensures DecRecords(f, data, pos).Ok?
    ensures IsRunTo(m, DecRecords(f, data, pos).value.value, st, ParseFrom(f, m, data, pos, st).value.value)
    decreases |data| - pos
  {
    var r := DecRecord(f, data, pos).value;
    if !IsLast(f, r.value) {
      var st1 := m.step(st, r.value).value;
      ParseIsPrefixRun(f, m, data, r.next, st1);
      var rs, more := DecRecords(f, data, pos).value.value, DecRecords(f, data, r.next).value.value;
      assert rs[0] == r.value && rs[1..] == more;
      RunToCons(m, rs, st, ParseFrom(f, m, data, r.next, st1).value.value);
    }
  }

  // The records of an accepted dump.
  ghost predicate IsRecordList(f: Format, data: seq<byte>, rs: seq<Record>)
  {
    && DecLine(data, 0, 0).Ok?
    && DecRecords(f, data, DecLine(data, 0, 0).value.next).Ok?
    && rs == DecRecords(f, data, DecLine(data, 0, 0).value.next).value.value
    && |rs| > 0
  }

  // What the attribution needs of a parser, whatever the records.
  ghost predicate Attributes(m: Machine)
  {
    && (forall rs: seq<Record> :: KeepsAttribution(m, rs))
    && (forall st: State, r: Record {:trigger m.finish(st, r)} :: m.finish(st, r).Ok? ==> m.finish(st, r).value.snap == st.snap)
  }

  lemma ParserAttributes(opts: Options)
    ensures Attributes(MachineOf(opts))
  {
    forall rs: seq<Record>
      ensures KeepsAttribution(MachineOf(opts), rs)
    {
      ParserKeepsAttribution(opts, rs);
    }
    FinishKeepsSnapshot(opts);
  }

  lemma FinishKeepsSnapshot(opts: Options)
    ensures forall st: State, r: Record :: Finish(st, r, opts).Ok? ==> Finish(st, r, opts).value.snap == st.snap
  {}

  lemma FramesOfRun(f: Format, m: Machine, data: seq<byte>) returns (rs: seq<Record>)
    requires Attributes(m) && ParseWith(f, m, data).Ok?
    ensures IsRecordList(f, data, rs)
    ensures HoldsSections(ParseWith(f, m, data).value.value.snap.goroutines, rs, |rs| - 1)
  {
    var pos := DecLine(data, 0, 0).value.next;
    ParseIsPrefixRun(f, m, data, pos, INITIAL);
    rs := DecRecords(f, data, pos).value.value;
    RunAttributes(m, rs, |rs| - 1);
  }

  // For every accepted dump: its goroutines are its goroutine records in order,
  // and each holds exactly the frames of its section, with the pointers found
  // under the parameters in force at the frame's record.
  lemma ParsedFrames(lim: Limits, opts: Options, data: seq<byte>) returns (rs: seq<Record>)
    requires Parse(lim, opts, data).Ok?
    ensures IsRecordList(DumpFormat(Effective(lim)), data, rs)
    ensures HoldsSections(Parse(lim, opts, data).value.value.snap.goroutines, rs, |rs| - 1)
  {
    ParserAttributes(opts);
    rs := FramesOfRun(DumpFormat(Effective(lim)), MachineOf(opts), data);
  }
}
