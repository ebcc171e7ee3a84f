// What every record of an accepted dump becomes, in terms of its bytes
// (internal/heapdump/parser.go).
module ParsedItems {
  import opened Words
  import opened Wrappers
  import opened Varint
  import opened Heap
  import opened Wire
  import opened Records
  import opened Pointers
  import opened Dump
  import opened DumpFacts
  import opened DumpLists
  import opened DumpItems

  // ---- Reading back changes no more than the place of a block ----

  ghost predicate SameField(v: Value, w: Value)
  {
    if v.Block? then w.Block? && w.bytes == v.bytes else w == v
  }

  ghost predicate SameFields(vs: seq<Value>, ws: seq<Value>)
  {
    |vs| == |ws| && forall i :: 0 <= i < |vs| ==> SameField(vs[i], ws[i])
  }

  ghost predicate SameRecords(rs: seq<Record>, ps: seq<Record>)
  {
    |rs| == |ps| && forall i :: 0 <= i < |rs| ==> ps[i].tag == rs[i].tag && SameFields(rs[i].values, ps[i].values)
  }

  lemma {:induction false} PlacedFields(vs: seq<Value>, k: seq<byte>, length: nat)
    ensures SameFields(vs, PlacedAll(vs, k, length))
  {
    if |vs| > 0 {
      PlacedFields(vs[1..], k, length);
    }
  }

  lemma {:induction false} PlacedList(rs: seq<Record>, k: seq<byte>, length: nat)
    ensures SameRecords(rs, PlacedRecords(rs, k, length))
  {
    if |rs| > 0 {
      PlacedList(rs[1..], k, length);
      PlacedFields(rs[0].values, PutValues(rs[0].more, PutRecords(rs[1..], k)), length);
    }
  }

  lemma {:induction false} SameCount(rs: seq<Record>, ps: seq<Record>, n: nat, tag: u64)
    requires SameRecords(rs, ps) && n <= |rs|
    ensures CountTag(ps, n, tag) == CountTag(rs, n, tag)
  {
    if n > 0 {
      SameCount(rs, ps, n - 1, tag);
    }
  }

  lemma {:induction false} GoroutinesCounted(rs: seq<Record>, n: nat)
    requires n <= |rs|
    ensures GoroutineCount(rs, n) == CountTag(rs, n, TAG_GOROUTINE)
  {
    if n > 0 {
      GoroutinesCounted(rs, n - 1);
    }
  }

  // ---- The snapshot of an encoded dump ----

  ghost predicate IsDumpOf(data: seq<byte>, rs: seq<Record>, k: seq<byte>)
  {
    data == Encode(rs, k)
  }

  // The dump of the records is accepted and gives the snapshot.
  ghost predicate Gives(lim: Limits, opts: Options, rs: seq<Record>, k: seq<byte>, snap: Snapshot)
  {
    && WellFormed(DumpFormat(Effective(lim)), rs)
    && forall data: seq<byte> {:trigger IsDumpOf(data, rs, k)} :: IsDumpOf(data, rs, k) ==>
         Parse(lim, opts, data).Ok? && Parse(lim, opts, data).value.value.snap == snap
  }

  // The lists of the snapshot hold what the records, as they are read, describe.
  ghost predicate Described(snap: Snapshot, ps: seq<Record>, opts: Options)
  {
    && |ps| > 0 && HoldsSections(snap.goroutines, ps, |ps| - 1)
    && ListsHold(INITIAL.(snap := snap), ps, |ps| - 1, opts)
  }

  lemma RunDescribes(m: Machine, ps: seq<Record>, opts: Options, final: State)
    requires Attributes(m) && KeepsLists(m, ps, opts) && IsRunTo(m, ps, INITIAL, final)
    ensures Described(final.snap, ps, opts)
  {
    RunAttributes(m, ps, |ps| - 1);
    RunHolds(m, ps, |ps| - 1, opts);
  }

  // Behind the header the bytes of a dump are those of its records.
  lemma HeaderRead(data: seq<byte>, rs: seq<Record>, k: seq<byte>) returns (pos: nat)
    requires data == Encode(rs, k)
    ensures DecLine(data, 0, 0) == Ok(Got(HEADER, pos)) && At(data, pos, PutRecords(rs, k))
  {
    var body := PutRecords(rs, k);
    HeaderRoundTrip(data, body);
    pos := |data| - |body|;
  }

  lemma HeaderDecodes(f: Format, m: Machine, data: seq<byte>, rs: seq<Record>, k: seq<byte>) returns (pos: nat)
    requires IsDumpOf(data, rs, k)
    ensures ParseWith(f, m, data) == ParseFrom(f, m, data, pos, INITIAL) && At(data, pos, PutRecords(rs, k))
  {
    pos := HeaderRead(data, rs, k);
    AfterHeader(f, m, data, pos);
  }

  // The bytes of a dump decode to its records, placed.
  lemma BytesDecode(f: Format, m: Machine, rs: seq<Record>, k: seq<byte>) returns (pos: nat)
    requires WellFormed(f, rs)
    ensures var data := Encode(rs, k);
      && ParseWith(f, m, data) == ParseFrom(f, m, data, pos, INITIAL)
      && DecRecords(f, data, pos).Ok? && DecRecords(f, data, pos).value.value == PlacedRecords(rs, k, |data|)
  {
    pos := HeaderDecodes(f, m, Encode(rs, k), rs, k);
    RecordsRoundTrip(f, Encode(rs, k), pos, rs, k);
  }

  lemma DecodedDescribes(f: Format, m: Machine, opts: Options, data: seq<byte>, pos: nat, ps: seq<Record>)
    requires Attributes(m) && KeepsLists(m, ps, opts) && ParseFrom(f, m, data, pos, INITIAL).Ok?
    requires DecRecords(f, data, pos).Ok? && DecRecords(f, data, pos).value.value == ps
    ensures Described(ParseFrom(f, m, data, pos, INITIAL).value.value.snap, ps, opts)
  {
    ParseIsPrefixRun(f, m, data, pos, INITIAL);
    RunDescribes(m, ps, opts, ParseFrom(f, m, data, pos, INITIAL).value.value);
  }

  lemma ParseDescribes(f: Format, m: Machine, opts: Options, rs: seq<Record>, k: seq<byte>) returns (ps: seq<Record>)
    requires Attributes(m) && (forall ps: seq<Record> :: KeepsLists(m, ps, opts))
    requires WellFormed(f, rs) && ParseWith(f, m, Encode(rs, k)).Ok?
    ensures SameRecords(rs, ps) && Described(ParseWith(f, m, Encode(rs, k)).value.value.snap, ps, opts)
  {
    var data := Encode(rs, k);
    var pos := BytesDecode(f, m, rs, k);
    ps := PlacedRecords(rs, k, |data|);
    PlacedList(rs, k, |data|);
    DecodedDescribes(f, m, opts, data, pos, ps);
  }

  lemma SnapshotDescribed(lim: Limits, opts: Options, rs: seq<Record>, k: seq<byte>, snap: Snapshot) returns (ps: seq<Record>)
    requires Gives(lim, opts, rs, k, snap)
    ensures SameRecords(rs, ps) && Described(snap, ps, opts)
  {
    var m := MachineOf(opts);
    ParserAttributes(opts);
    forall ps: seq<Record>
      ensures KeepsLists(m, ps, opts)
    {
      ParserKeepsLists(opts, ps);
    }
    assert IsDumpOf(Encode(rs, k), rs, k);
    ps := ParseDescribes(DumpFormat(Effective(lim)), m, opts, rs, k);
  }

  // ---- Pointers ----

  // The latest parameters record before record n, or none.
  ghost predicate InForce(rs: seq<Record>, n: nat, w: Option<Params>)
    requires n <= |rs|
  {
    match w
    case None => forall q :: 0 <= q < n ==> rs[q].tag != 6
    case Some(p) => p.ptrSize <= MAX_U64 && exists q: nat :: IsLatest(rs, q, n, p)
  }

  ghost predicate IsLatest(rs: seq<Record>, q: nat, n: nat, p: Params)
    requires n <= |rs| && p.ptrSize <= MAX_U64
  {
    q < n && rs[q] == ParamsRecord(p) && forall i :: q < i < n ==> rs[i].tag != 6
  }

  // The pointers that bytes hold, read with that width and byte order.
  function Found(w: Option<Params>, bytes: seq<byte>, fields: seq<Field>, container: u64, withSlots: bool): Extracted
  {
    match w
    case None => NOTHING
    case Some(p) => Extract(bytes, fields, View(p.ptrSize, p.bigEndian, container, withSlots))
  }

  lemma ParamsRead(rs: seq<Record>, ps: seq<Record>, q: nat, p: Params)
    requires SameRecords(rs, ps) && q < |rs| && p.ptrSize <= MAX_U64 && rs[q] == ParamsRecord(p)
    ensures ParamsOf(ps[q].values) == p
  {
    var vs, ws := rs[q].values, ps[q].values;
    assert SameField(vs[0], ws[0]) && SameField(vs[1], ws[1]) && SameField(vs[2], ws[2]) && SameField(vs[3], ws[3]) && SameField(vs[4], ws[4]);
  }

  lemma {:induction false} ParamsFound(rs: seq<Record>, ps: seq<Record>, n: nat, w: Option<Params>)
    requires SameRecords(rs, ps) && n <= |rs| && InForce(rs, n, w)
    ensures ParamsAt(ps, n) == if w.Some? then Some((w.value.ptrSize, w.value.bigEndian)) else None
  {
    if n > 0 {
      if rs[n - 1].tag == 6 {
        var q: nat :| IsLatest(rs, q, n, w.value);
        ParamsRead(rs, ps, q, w.value);
      } else {
        if w.Some? {
          var q: nat :| IsLatest(rs, q, n, w.value);
          assert IsLatest(rs, q, n - 1, w.value);
        }
        ParamsFound(rs, ps, n - 1, w);
      }
    }
  }

  // ---- Objects and segments ----

  lemma RangeRead(rs: seq<Record>, ps: seq<Record>, n: nat, tag: u64, addr: u64, bytes: seq<byte>, fields: seq<Field>)
    requires SameRecords(rs, ps) && n < |rs| && rs[n] == RangeRecord(tag, addr, bytes, fields)
    ensures var ws := ps[n].values; Word(ws, 0, 0) == addr && BytesOf(ws, 1) == bytes && FieldsOf(ws, 2) == fields
  {
    var vs, ws := rs[n].values, ps[n].values;
    assert SameField(vs[0], ws[0]) && SameField(vs[1], ws[1]) && SameField(vs[2], ws[2]);
  }

  lemma RangeFits(f: Format, r: Record, tag: u64, addr: u64, bytes: seq<byte>, fields: seq<Field>)
    requires f.layout == Layout && RecordFits(f, r) && r == RangeRecord(tag, addr, bytes, fields) && tag in {1, 12, 13}
    ensures |bytes| <= MAX_U64
  {
    assert Fits(r.values[1], f.layout(tag).value[1], f.lim);
  }

  lemma HoldsAt<T(!new)>(list: seq<T>, ps: seq<Record>, last: nat, tag: u64, elem: nat -> T, n: nat)
    requires n < last <= |ps| && ps[n].tag == tag && Holds(list, ps, last, tag, elem)
    ensures CountTag(ps, n, tag) < |list| && list[CountTag(ps, n, tag)] == elem(n)
  {
    var e := elem(n);
  }

  lemma ListIndexed<T(!new)>(list: seq<T>, rs: seq<Record>, ps: seq<Record>, tag: u64, elem: nat -> T, n: nat)
    requires SameRecords(rs, ps) && n < |rs| - 1 && rs[n].tag == tag && Holds(list, ps, |ps| - 1, tag, elem)
    ensures |list| == CountTag(rs, |rs| - 1, tag) && CountTag(rs, n, tag) < |list|
    ensures list[CountTag(rs, n, tag)] == elem(n)
  {
    SameCount(rs, ps, n, tag);
    SameCount(rs, ps, |rs| - 1, tag);
    assert ps[n].tag == tag;
    HoldsAt(list, ps, |ps| - 1, tag, elem, n);
  }

  lemma ObjectRead(rs: seq<Record>, ps: seq<Record>, opts: Options, n: nat, addr: u64, bytes: seq<byte>, fields: seq<Field>, w: Option<Params>)
    requires SameRecords(rs, ps) && n < |rs| && InForce(rs, n, w) && |bytes| <= MAX_U64
    requires rs[n] == RangeRecord(1, addr, bytes, fields)
    ensures var x := Found(w, bytes, fields, 0, opts.keepOffsets);
      ObjectsIn(ps, opts)(n) == HeapObject(addr, |bytes|, if opts.keepContents then bytes else [], fields, x.targets, x.slots)
  {
    RangeRead(rs, ps, n, 1, addr, bytes, fields);
    ParamsFound(rs, ps, n, w);
  }

  // The fitting record at n is not the last.
  lemma NotLast(f: Format, rs: seq<Record>, n: nat)
    requires WellFormed(f, rs) && n < |rs| && rs[n].tag != 0
    ensures n < |rs| - 1 && RecordFits(f, rs[n])
  {}

  // An object record: its address, as many bytes as were written, its fields, and the
  // pointers those bytes hold.
  lemma ObjectParsed(lim: Limits, opts: Options, rs: seq<Record>, k: seq<byte>, snap: Snapshot, n: nat,
                     addr: u64, bytes: seq<byte>, fields: seq<Field>, w: Option<Params>)
    requires Gives(lim, opts, rs, k, snap) && n < |rs| && InForce(rs, n, w)
    requires rs[n] == RangeRecord(1, addr, bytes, fields)
    ensures PutRecord(rs[n], k) == PutRange(1, addr, bytes, fields, k)
    ensures |bytes| <= MAX_U64 && |snap.objects| == CountTag(rs, |rs| - 1, 1) && CountTag(rs, n, 1) < |snap.objects|
    ensures var x := Found(w, bytes, fields, 0, opts.keepOffsets);
      snap.objects[CountTag(rs, n, 1)] == HeapObject(addr, |bytes|, if opts.keepContents then bytes else [], fields, x.targets, x.slots)
  {
    var ps := SnapshotDescribed(lim, opts, rs, k, snap);
    RangeBytes(1, addr, bytes, fields, k);
    NotLast(DumpFormat(Effective(lim)), rs, n);
    RangeFits(DumpFormat(Effective(lim)), rs[n], 1, addr, bytes, fields);
    ObjectRead(rs, ps, opts, n, addr, bytes, fields, w);
    ListIndexed(snap.objects, rs, ps, TAG_OBJECT, ObjectsIn(ps, opts), n);
  }

  lemma SegmentRead(rs: seq<Record>, ps: seq<Record>, kind: string, tag: u64, n: nat, addr: u64, bytes: seq<byte>, fields: seq<Field>, w: Option<Params>)
    requires SameRecords(rs, ps) && n < |rs| && InForce(rs, n, w) && |bytes| <= MAX_U64
    requires rs[n] == RangeRecord(tag, addr, bytes, fields)
    ensures var x := Found(w, bytes, fields, addr, true);
      SegmentsIn(ps, kind)(n) == Segment(kind, addr, |bytes|, fields, x.targets, x.slots)
  {
    RangeRead(rs, ps, n, tag, addr, bytes, fields);
    ParamsFound(rs, ps, n, w);
  }

  // A data or bss record: as an object, but its slots are addresses.
  lemma SegmentParsed(lim: Limits, opts: Options, rs: seq<Record>, k: seq<byte>, snap: Snapshot, n: nat, isData: bool,
                      addr: u64, bytes: seq<byte>, fields: seq<Field>, w: Option<Params>)
    requires Gives(lim, opts, rs, k, snap) && n < |rs| && InForce(rs, n, w)
    requires rs[n] == RangeRecord(if isData then 12 else 13, addr, bytes, fields)
    ensures PutRecord(rs[n], k) == PutRange(if isData then 12 else 13, addr, bytes, fields, k)
    ensures var tag, segs, x := if isData then 12 else 13, if isData then snap.data else snap.bss, Found(w, bytes, fields, addr, true);
      && |bytes| <= MAX_U64 && |segs| == CountTag(rs, |rs| - 1, tag) && CountTag(rs, n, tag) < |segs|
      && segs[CountTag(rs, n, tag)] == Segment(if isData then "data" else "bss", addr, |bytes|, fields, x.targets, x.slots)
  {
    var tag, kind, segs := if isData then TAG_DATA else TAG_BSS, if isData then "data" else "bss", if isData then snap.data else snap.bss;
    var ps := SnapshotDescribed(lim, opts, rs, k, snap);
    RangeBytes(tag, addr, bytes, fields, k);
    NotLast(DumpFormat(Effective(lim)), rs, n);
    RangeFits(DumpFormat(Effective(lim)), rs[n], tag, addr, bytes, fields);
    SegmentRead(rs, ps, kind, tag, n, addr, bytes, fields, w);
    ListIndexed(segs, rs, ps, tag, SegmentsIn(ps, kind), n);
  }

  // ---- Finalizers and parameters ----

  lemma FinalizerRead(rs: seq<Record>, ps: seq<Record>, n: nat, tag: u64, f: Finalizer)
    requires SameRecords(rs, ps) && n < |rs| && |f.rest| == 3 && rs[n] == FinalizerRecord(tag, f)
    ensures FinalizersIn(ps)(n) == f
  {
    assert SameField(rs[n].values[0], ps[n].values[0]);
    assert f.rest == [f.rest[0], f.rest[1], f.rest[2]];
  }

  // A finalizer record, or a queued one: its five words.
  lemma FinalizerParsed(lim: Limits, opts: Options, rs: seq<Record>, k: seq<byte>, snap: Snapshot, n: nat, queued: bool, f: Finalizer)
    requires Gives(lim, opts, rs, k, snap) && n < |rs| && |f.rest| == 3
    requires rs[n] == FinalizerRecord(if queued then 11 else 7, f)
    ensures PutRecord(rs[n], k) == PutFinalizer(if queued then 11 else 7, f, k)
    ensures var tag, fs := if queued then 11 else 7, if queued then snap.queued else snap.finalizers;
      |fs| == CountTag(rs, |rs| - 1, tag) && CountTag(rs, n, tag) < |fs| && fs[CountTag(rs, n, tag)] == f
  {
    var tag, fs := if queued then TAG_QUEUED_FINALIZER else TAG_FINALIZER, if queued then snap.queued else snap.finalizers;
    var ps := SnapshotDescribed(lim, opts, rs, k, snap);
    FinalizerBytes(tag, f, k);
    NotLast(DumpFormat(Effective(lim)), rs, n);
    FinalizerRead(rs, ps, n, tag, f);
    ListIndexed(fs, rs, ps, tag, FinalizersIn(ps), n);
  }

  lemma {:induction false} LatestParams(rs: seq<Record>, ps: seq<Record>, n: nat, w: Option<Params>)
    requires SameRecords(rs, ps) && n <= |rs| && InForce(rs, n, w)
    ensures ParamsIn(ps, n) == if w.Some? then w.value else NO_PARAMS
  {
    if n > 0 {
      if rs[n - 1].tag == 6 {
        var q: nat :| IsLatest(rs, q, n, w.value);
        ParamsRead(rs, ps, q, w.value);
      } else {
        if w.Some? {
          var q: nat :| IsLatest(rs, q, n, w.value);
          assert IsLatest(rs, q, n - 1, w.value);
        }
        LatestParams(rs, ps, n - 1, w);
      }
    }
  }

  lemma SnapshotParams(lim: Limits, opts: Options, rs: seq<Record>, k: seq<byte>, snap: Snapshot) returns (ps: seq<Record>)
    requires Gives(lim, opts, rs, k, snap)
    ensures |rs| > 0 && SameRecords(rs, ps) && snap.params == ParamsIn(ps, |rs| - 1)
  {
    ps := SnapshotDescribed(lim, opts, rs, k, snap);
  }

  // The snapshot's parameters are those of the last parameters record.
  lemma ParamsParsed(lim: Limits, opts: Options, rs: seq<Record>, k: seq<byte>, snap: Snapshot, w: Option<Params>)
    requires Gives(lim, opts, rs, k, snap) && InForce(rs, |rs| - 1, w)
    ensures snap.params == if w.Some? then w.value else NO_PARAMS
    ensures w.Some? ==> PutRecord(ParamsRecord(w.value), k) == PutParams(w.value, k)
  {
    var ps := SnapshotParams(lim, opts, rs, k, snap);
    LatestParams(rs, ps, |rs| - 1, w);
    if w.Some? {
      ParamsBytes(w.value, k);
    }
  }

  // ---- Goroutines and frames ----

  // Record p starts a goroutine to which record n, if it is a frame, belongs.
  ghost predicate InSection(rs: seq<Record>, p: nat, n: nat)
  {
    p < n <= |rs| && rs[p].tag == 4 && forall q :: p < q < n ==> rs[q].tag in {5, 14, 15}
  }

  lemma {:induction false} SectionLength(rs: seq<Record>, p: nat, n: nat)
    requires InSection(rs, p, n)
    ensures OwnerAt(rs, n) == Some(GoroutineCount(rs, p))
    ensures |FrameRecords(rs, n, GoroutineCount(rs, p))| == CountTag(rs, n, 5) - CountTag(rs, p, 5)
  {
    if n == p + 1 {
      NoFramesYet(rs, p, GoroutineCount(rs, p));
    } else {
      SectionLength(rs, p, n - 1);
    }
  }

  lemma {:induction false} FramesGrow(rs: seq<Record>, n: nat, last: nat, j: nat)
    requires n <= last <= |rs|
    ensures FrameRecords(rs, n, j) <= FrameRecords(rs, last, j)
  {
    if n < last {
      FramesGrow(rs, n, last - 1, j);
    }
  }

  lemma {:induction false} LaterGoroutine(rs: seq<Record>, p: nat, n: nat)
    requires p < n <= |rs| && rs[p].tag == 4
    ensures GoroutineCount(rs, n) > GoroutineCount(rs, p)
  {
    if p < n - 1 {
      LaterGoroutine(rs, p, n - 1);
    }
  }

  lemma {:induction false} SectionOver(rs: seq<Record>, p: nat, e: nat, last: nat)
    requires InSection(rs, p, e) && e <= last <= |rs| && (e < |rs| ==> rs[e].tag !in {5, 14, 15})
    ensures FrameRecords(rs, last, GoroutineCount(rs, p)) == FrameRecords(rs, e, GoroutineCount(rs, p))
    ensures last > e ==> OwnerAt(rs, last) != Some(GoroutineCount(rs, p))
  {
    if last > e {
      SectionOver(rs, p, e, last - 1);
      LaterGoroutine(rs, p, last - 1);
    }
  }

  lemma StartIs(rs: seq<Record>, p: nat, n: nat)
    requires p < n <= |rs| && rs[p].tag == 4
    ensures GoroutineCount(rs, p) < GoroutineCount(rs, n) && StartOf(rs, n, GoroutineCount(rs, p)) == p
  {
    LaterGoroutine(rs, p, n);
    var q := StartOf(rs, n, GoroutineCount(rs, p));
    forall i: nat, j: nat | i < j < n && rs[i].tag == 4
      ensures GoroutineCount(rs, i) < GoroutineCount(rs, j)
    {
      LaterGoroutine(rs, i, j);
    }
  }

  lemma GoroutineRead(rs: seq<Record>, ps: seq<Record>, n: nat, g: HeapGoroutine)
    requires SameRecords(rs, ps) && n < |rs| && g.frames == [] && rs[n] == GoroutineRecord(g)
    ensures GoroutinesIn(ps)(n) == g
  {
    var vs, ws := rs[n].values, ps[n].values;
    assert SameField(vs[0], ws[0]) && SameField(vs[1], ws[1]) && SameField(vs[2], ws[2]);
    assert SameField(vs[3], ws[3]) && SameField(vs[4], ws[4]) && SameField(vs[5], ws[5]);
  }

  lemma FrameRead(rs: seq<Record>, ps: seq<Record>, n: nat, fr: Frame, bytes: seq<byte>, w: Option<Params>)
    requires SameRecords(rs, ps) && n < |rs| && InForce(rs, n, w) && |bytes| <= MAX_U64
    requires rs[n] == FrameRecord(fr, bytes)
    ensures var x := Found(w, bytes, fr.fields, fr.sp, true);
      FramesIn(ps)(n) == fr.(size := |bytes|, pointerAddrs := x.targets, pointerSlots := x.slots)
  {
    var vs, ws := rs[n].values, ps[n].values;
    assert SameField(vs[0], ws[0]) && SameField(vs[1], ws[1]) && SameField(vs[2], ws[2]);
    assert SameField(vs[3], ws[3]) && SameField(vs[4], ws[4]);
    ParamsFound(rs, ps, n, w);
  }

  lemma FrameFits(f: Format, fr: Frame, bytes: seq<byte>)
    requires f.layout == Layout && RecordFits(f, FrameRecord(fr, bytes))
    ensures |bytes| <= MAX_U64 && |fr.pcs| == 3
  {
    var r := FrameRecord(fr, bytes);
    assert Fits(r.values[1], f.layout(r.tag).value[1], f.lim) && Fits(r.values[2], f.layout(r.tag).value[2], f.lim);
  }

  lemma SameSections(rs: seq<Record>, ps: seq<Record>, p: nat, n: nat)
    requires SameRecords(rs, ps) && InSection(rs, p, n)
    ensures InSection(ps, p, n) && GoroutineCount(ps, p) == CountTag(rs, p, 4)
    ensures CountTag(ps, n, 5) == CountTag(rs, n, 5) && CountTag(ps, p, 5) == CountTag(rs, p, 5)
  {
    SameCount(rs, ps, p, 4);
    SameCount(rs, ps, n, 5);
    SameCount(rs, ps, p, 5);
    GoroutinesCounted(ps, p);
    forall q | p < q < n
      ensures ps[q].tag in {5, 14, 15}
    {
      assert rs[q].tag in {5, 14, 15};
    }
  }

  lemma SectionHeld(gs: seq<HeapGoroutine>, ps: seq<Record>, last: nat, p: nat, goroutine: nat -> HeapGoroutine, frame: nat -> Frame)
    requires last <= |ps| && AreSections(gs, ps, last, goroutine, frame) && p < last && ps[p].tag == 4
    ensures var j := GoroutineCount(ps, p);
      && |gs| == GoroutineCount(ps, last) && j < |gs|
      && HoldsSection(gs[j], goroutine(p), FrameRecords(ps, last, j), frame)
  {
    StartIs(ps, p, last);
  }

  lemma GoroutineAt(gs: seq<HeapGoroutine>, ps: seq<Record>, last: nat, n: nat, e: nat, goroutine: nat -> HeapGoroutine, frame: nat -> Frame)
    requires last <= |ps| && AreSections(gs, ps, last, goroutine, frame)
    requires InSection(ps, n, e) && n < last && e <= last && (e < |ps| ==> ps[e].tag !in {5, 14, 15})
    ensures var j := GoroutineCount(ps, n);
      && |gs| == GoroutineCount(ps, last) && j < |gs|
      && gs[j].(frames := []) == goroutine(n) && |gs[j].frames| == CountTag(ps, e, 5) - CountTag(ps, n, 5)
  {
    SectionHeld(gs, ps, last, n, goroutine, frame);
    SectionLength(ps, n, e);
    SectionOver(ps, n, e, last);
  }

  lemma FrameIndexed(gs: seq<HeapGoroutine>, ps: seq<Record>, last: nat, p: nat, n: nat, goroutine: nat -> HeapGoroutine, frame: nat -> Frame)
    requires last <= |ps| && AreSections(gs, ps, last, goroutine, frame)
    requires InSection(ps, p, n) && n < last && ps[n].tag == 5
    ensures var j, i := GoroutineCount(ps, p), CountTag(ps, n, 5) - CountTag(ps, p, 5);
      j < |gs| && 0 <= i < |gs[j].frames| && gs[j].frames[i] == frame(n)
  {
    var j := GoroutineCount(ps, p);
    SectionHeld(gs, ps, last, p, goroutine, frame);
    SectionLength(ps, p, n);
    FramesGrow(ps, n + 1, last, j);
    assert FrameRecords(ps, n + 1, j) == FrameRecords(ps, n, j) + [n];
  }

  lemma GoroutineHeld(gs: seq<HeapGoroutine>, rs: seq<Record>, ps: seq<Record>, n: nat, e: nat, goroutine: nat -> HeapGoroutine, frame: nat -> Frame)
    requires SameRecords(rs, ps) && e < |rs| && AreSections(gs, ps, |ps| - 1, goroutine, frame)
    requires InSection(rs, n, e) && rs[e].tag !in {5, 14, 15}
    ensures |gs| == CountTag(rs, |rs| - 1, 4) && CountTag(rs, n, 4) < |gs|
    ensures gs[CountTag(rs, n, 4)].(frames := []) == goroutine(n)
    ensures |gs[CountTag(rs, n, 4)].frames| == CountTag(rs, e, 5) - CountTag(rs, n, 5)
  {
    SameSections(rs, ps, n, e);
    assert ps[e].tag == rs[e].tag;
    GoroutineAt(gs, ps, |ps| - 1, n, e, goroutine, frame);
    SameCount(rs, ps, |rs| - 1, 4);
    GoroutinesCounted(ps, |rs| - 1);
  }

  // A goroutine record: all its fields, and as many frames as frame records follow it
  // with nothing but frames, defers and panics between.
  lemma GoroutineParsed(lim: Limits, opts: Options, rs: seq<Record>, k: seq<byte>, snap: Snapshot, n: nat, e: nat, g: HeapGoroutine)
    requires Gives(lim, opts, rs, k, snap) && g.frames == [] && e < |rs|
    requires InSection(rs, n, e) && rs[e].tag !in {5, 14, 15} && rs[n] == GoroutineRecord(g)
    ensures PutRecord(rs[n], k) == PutGoroutine(g, k)
    ensures |snap.goroutines| == CountTag(rs, |rs| - 1, 4) && CountTag(rs, n, 4) < |snap.goroutines|
    ensures snap.goroutines[CountTag(rs, n, 4)].(frames := []) == g
    ensures |snap.goroutines[CountTag(rs, n, 4)].frames| == CountTag(rs, e, 5) - CountTag(rs, n, 5)
  {
    var ps := SnapshotDescribed(lim, opts, rs, k, snap);
    GoroutineBytes(g, k);
    GoroutineRead(rs, ps, n, g);
    GoroutineHeld(snap.goroutines, rs, ps, n, e, GoroutinesIn(ps), FramesIn(ps));
  }

  lemma FrameHeld(gs: seq<HeapGoroutine>, rs: seq<Record>, ps: seq<Record>, p: nat, n: nat, goroutine: nat -> HeapGoroutine, frame: nat -> Frame)
    requires SameRecords(rs, ps) && n < |rs| - 1 && AreSections(gs, ps, |ps| - 1, goroutine, frame)
    requires InSection(rs, p, n) && rs[n].tag == 5
    ensures var j, i := CountTag(rs, p, 4), CountTag(rs, n, 5) - CountTag(rs, p, 5);
      j < |gs| && 0 <= i < |gs[j].frames| && gs[j].frames[i] == frame(n)
  {
    SameSections(rs, ps, p, n);
    assert ps[n].tag == 5;
    FrameIndexed(gs, ps, |ps| - 1, p, n, goroutine, frame);
  }

  // A frame record in the section of the goroutine that record p starts: the frame is
  // that goroutine's, in record order, with the pointers its bytes hold.
  lemma FrameParsed(lim: Limits, opts: Options, rs: seq<Record>, k: seq<byte>, snap: Snapshot, p: nat, n: nat,
                    fr: Frame, bytes: seq<byte>, w: Option<Params>)
    requires Gives(lim, opts, rs, k, snap) && n < |rs| && InForce(rs, n, w)
    requires InSection(rs, p, n) && rs[n] == FrameRecord(fr, bytes)
    ensures |bytes| <= MAX_U64 && |fr.pcs| == 3 && PutRecord(rs[n], k) == PutFrame(fr, bytes, k)
    ensures var j, i, x := CountTag(rs, p, 4), CountTag(rs, n, 5) - CountTag(rs, p, 5), Found(w, bytes, fr.fields, fr.sp, true);
      && j < |snap.goroutines| && 0 <= i < |snap.goroutines[j].frames|
      && snap.goroutines[j].frames[i] == fr.(size := |bytes|, pointerAddrs := x.targets, pointerSlots := x.slots)
  {
    var ps := SnapshotDescribed(lim, opts, rs, k, snap);
    NotLast(DumpFormat(Effective(lim)), rs, n);
    FrameFits(DumpFormat(Effective(lim)), fr, bytes);
    FrameBytes(fr, bytes, k);
    FrameRead(rs, ps, n, fr, bytes, w);
    FrameHeld(snap.goroutines, rs, ps, p, n, GoroutinesIn(ps), FramesIn(ps));
  }

  // ---- Global roots ----

  // A data or bss record holds the pointer and slot of the root.
  ghost predicate HoldsPointer(rs: seq<Record>, n: nat, r: Root, addr: u64, bytes: seq<byte>, fields: seq<Field>, w: Option<Params>)
    requires n < |rs|
  {
    var x := Found(w, bytes, fields, addr, true);
    && InForce(rs, n, w) && r.description == []
    && ((rs[n] == RangeRecord(12, addr, bytes, fields) && r.kind == "data") || (rs[n] == RangeRecord(13, addr, bytes, fields) && r.kind == "bss"))
    && Pairs(x, r)
  }

  ghost predicate Pairs(x: Extracted, r: Root)
  {
    |x.slots| == |x.targets| && exists i :: 0 <= i < |x.targets| && x.targets[i] == r.pointerAddr && x.slots[i] == r.addr
  }

  ghost predicate AddsRoot(rs: seq<Record>, n: nat, r: Root)
    requires n < |rs|
  {
    || (rs[n] == OtherRootRecord(r.description, r.pointerAddr) && r.kind == "otherroot" && r.addr == 0)
    || exists addr: u64, bytes: seq<byte>, fields: seq<Field>, w: Option<Params> :: HoldsPointer(rs, n, r, addr, bytes, fields, w)
  }

  lemma {:induction false} RootsOfMeans(kind: string, x: Extracted, n: nat, r: Root)
    requires n <= |x.targets| == |x.slots|
    ensures r in RootsOf(kind, x, n) <==>
      r.kind == kind && r.description == [] && exists i :: 0 <= i < n && x.targets[i] == r.pointerAddr && x.slots[i] == r.addr
  {
    if n > 0 {
      RootsOfMeans(kind, x, n - 1, r);
    }
  }

  // Some parameters, or none, are in force at every record.
  lemma {:induction false} SomeInForce(rs: seq<Record>, n: nat, lim: Limits) returns (w: Option<Params>)
    requires n <= |rs| && forall i :: 0 <= i < n ==> IsLaidOut(rs[i], lim)
    ensures InForce(rs, n, w)
  {
    if n == 0 {
      w := None;
    } else if rs[n - 1].tag == 6 {
      var p := ParamsForm(rs[n - 1], lim);
      w := Some(p);
      assert IsLatest(rs, n - 1, n, p);
    } else {
      w := SomeInForce(rs, n - 1, lim);
      if w.Some? {
        var q: nat :| IsLatest(rs, q, n - 1, w.value);
        assert IsLatest(rs, q, n, w.value);
      }
    }
  }

  lemma RangeRoots(rs: seq<Record>, ps: seq<Record>, n: nat, addr: u64, bytes: seq<byte>, fields: seq<Field>, w: Option<Params>, r: Root)
    requires SameRecords(rs, ps) && n < |rs| && InForce(rs, n, w) && rs[n].tag in {12, 13}
    requires rs[n] == RangeRecord(rs[n].tag, addr, bytes, fields)
    ensures r in RootsAt(ps, n) <==>
      r.kind == (if rs[n].tag == 12 then "data" else "bss") && r.description == [] && Pairs(Found(w, bytes, fields, addr, true), r)
  {
    var x := Found(w, bytes, fields, addr, true);
    RangeRead(rs, ps, n, rs[n].tag, addr, bytes, fields);
    ParamsFound(rs, ps, n, w);
    if w.Some? {
      ExtractIsFaithful(bytes, fields, |fields|, View(w.value.ptrSize, w.value.bigEndian, addr, true));
    }
    RootsOfMeans(if rs[n].tag == 12 then "data" else "bss", x, |x.targets|, r);
  }

  lemma OtherRootRead(rs: seq<Record>, ps: seq<Record>, n: nat, description: seq<byte>, ptr: u64, r: Root)
    requires SameRecords(rs, ps) && n < |rs| && rs[n] == OtherRootRecord(description, ptr)
    ensures r in RootsAt(ps, n) <==> r == Root("otherroot", description, 0, ptr)
  {
    assert SameField(rs[n].values[0], ps[n].values[0]) && SameField(rs[n].values[1], ps[n].values[1]);
  }

  lemma RangeAdds(rs: seq<Record>, ps: seq<Record>, n: nat, lim: Limits, r: Root)
    requires SameRecords(rs, ps) && n < |rs| && (forall i :: 0 <= i <= n ==> IsLaidOut(rs[i], lim)) && rs[n].tag in {12, 13}
    ensures r in RootsAt(ps, n) <==> AddsRoot(rs, n, r)
  {
    if r in RootsAt(ps, n) {
      var addr, bytes, fields := RangeForm(rs[n], lim);
      var w := SomeInForce(rs, n, lim);
      RangeRoots(rs, ps, n, addr, bytes, fields, w, r);
      assert HoldsPointer(rs, n, r, addr, bytes, fields, w);
    }
    if AddsRoot(rs, n, r) {
      var addr: u64, bytes: seq<byte>, fields: seq<Field>, w: Option<Params> :| HoldsPointer(rs, n, r, addr, bytes, fields, w);
      RangeRoots(rs, ps, n, addr, bytes, fields, w, r);
    }
  }

  lemma RecordAdds(rs: seq<Record>, ps: seq<Record>, n: nat, lim: Limits, r: Root)
    requires SameRecords(rs, ps) && n < |rs| && forall i :: 0 <= i <= n ==> IsLaidOut(rs[i], lim)
    ensures r in RootsAt(ps, n) <==> AddsRoot(rs, n, r)
  {
    if rs[n].tag == 2 {
      var description, ptr := OtherRootForm(rs[n], lim);
      OtherRootRead(rs, ps, n, description, ptr, r);
    } else if rs[n].tag in {12, 13} {
      RangeAdds(rs, ps, n, lim, r);
    } else {
      assert ps[n].tag == rs[n].tag;
    }
  }

  // One of the first n records adds it.
  ghost predicate SomeAdds(rs: seq<Record>, n: nat, r: Root)
    requires n <= |rs|
  {
    exists i: nat :: i < n && AddsRoot(rs, i, r)
  }

  ghost predicate Contains(list: nat -> seq<Root>, n: nat, r: Root)
  {
    r in list(n)
  }

  ghost predicate ListsAdded(list: nat -> seq<Root>, rs: seq<Record>, last: nat, r: Root)
    requires last <= |rs|
  {
    forall n: nat :: n < last ==> (Contains(list, n, r) <==> AddsRoot(rs, n, r))
  }

  ghost predicate SomeContains(list: nat -> seq<Root>, last: nat, r: Root)
  {
    exists n: nat :: n < last && Contains(list, n, r)
  }

  lemma FlatContains(flat: seq<Root>, list: nat -> seq<Root>, last: nat, r: Root)
    requires flat == Flatten(list, last)
    ensures r in flat <==> SomeContains(list, last, r)
  {
    FlattenMembers(list, last, r);
    if n: nat :| n < last && r in list(n) {
      assert Contains(list, n, r);
    }
  }

  lemma AddedIsContained(list: nat -> seq<Root>, rs: seq<Record>, last: nat, r: Root)
    requires last <= |rs| && ListsAdded(list, rs, last, r)
    ensures SomeContains(list, last, r) <==> SomeAdds(rs, last, r)
  {
    if n: nat :| n < last && AddsRoot(rs, n, r) {
      assert Contains(list, n, r);
    }
  }

  lemma RecordsAdd(rs: seq<Record>, ps: seq<Record>, last: nat, lim: Limits, r: Root)
    requires SameRecords(rs, ps) && last <= |rs| && forall i :: 0 <= i < |rs| ==> IsLaidOut(rs[i], lim)
    ensures ListsAdded(RootsIn(ps), rs, last, r)
  {
    forall n: nat | n < last
      ensures Contains(RootsIn(ps), n, r) <==> AddsRoot(rs, n, r)
    {
      RecordAdds(rs, ps, n, lim, r);
    }
  }

  lemma PlainIsLaidOut(rs: seq<Record>, lim: Limits)
    requires WellFormed(DumpFormat(lim), rs) && forall i :: 0 <= i < |rs| ==> IsPlain(rs[i])
    ensures forall i :: 0 <= i < |rs| ==> IsLaidOut(rs[i], lim)
  {}

  lemma DescribedGlobals(snap: Snapshot, ps: seq<Record>, opts: Options, r: Root)
    requires Described(snap, ps, opts)
    ensures r in snap.globals <==> SomeContains(RootsIn(ps), |ps| - 1, r)
  {
    FlatContains(snap.globals, RootsIn(ps), |ps| - 1, r);
  }

  lemma SnapshotGlobals(lim: Limits, opts: Options, rs: seq<Record>, k: seq<byte>, snap: Snapshot, r: Root) returns (ps: seq<Record>)
    requires Gives(lim, opts, rs, k, snap)
    ensures |rs| > 0 && SameRecords(rs, ps) && (r in snap.globals <==> SomeContains(RootsIn(ps), |rs| - 1, r))
  {
    ps := SnapshotDescribed(lim, opts, rs, k, snap);
    DescribedGlobals(snap, ps, opts, r);
  }

  lemma ContainedIsAdded(rs: seq<Record>, ps: seq<Record>, last: nat, lim: Limits, r: Root)
    requires SameRecords(rs, ps) && last <= |rs| && forall i :: 0 <= i < |rs| ==> IsLaidOut(rs[i], lim)
    ensures SomeContains(RootsIn(ps), last, r) <==> SomeAdds(rs, last, r)
  {
    RecordsAdd(rs, ps, last, lim, r);
    AddedIsContained(RootsIn(ps), rs, last, r);
  }

  // The global roots: what other-root records describe and the pointers data and bss
  // records hold, and nothing else.
  lemma GlobalsParsed(lim: Limits, opts: Options, rs: seq<Record>, k: seq<byte>, snap: Snapshot, r: Root)
    requires Gives(lim, opts, rs, k, snap) && forall i :: 0 <= i < |rs| ==> IsPlain(rs[i])
    ensures r in snap.globals <==> SomeAdds(rs, |rs| - 1, r)
  {
    var ps := SnapshotGlobals(lim, opts, rs, k, snap, r);
    PlainIsLaidOut(rs, Effective(lim));
    ContainedIsAdded(rs, ps, |rs| - 1, Effective(lim), r);
  }
}
