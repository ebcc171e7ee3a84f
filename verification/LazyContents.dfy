// ParseLazyContents against Parse with kept contents
// (internal/heapdump/parser.go, contentresolver.go).
module LazyContents {
  import opened Words
  import opened Wrappers
  import opened Heap
  import opened Varint
  import opened Wire
  import opened Records
  import opened Pointers
  import opened Dump
  import opened DumpParser
  import opened Contents

  // ---- Recorded offsets are where the bytes are ----

  ghost predicate IsLocated(v: Value, data: seq<byte>)
  {
    v.Block? ==> |v.bytes| <= MAX_I64 && 0 <= v.at && v.at + |v.bytes| <= |data| && data[v.at..v.at + |v.bytes|] == v.bytes
  }

  lemma PartIsLocated(p: Part, lim: Limits, data: seq<byte>, pos: nat)
    requires DecPart(p, lim, data, pos).Ok?
    ensures IsLocated(DecPart(p, lim, data, pos).value.value, data)
  {}

  lemma {:induction false} PartsAreLocated(ps: seq<Part>, lim: Limits, data: seq<byte>, pos: nat, i: nat)
    requires DecParts(ps, lim, data, pos).Ok? && i < |ps|
    ensures IsLocated(DecParts(ps, lim, data, pos).value.value[i], data)
    decreases |ps|
  {
    PartIsLocated(ps[0], lim, data, pos);
    if i > 0 {
      PartsAreLocated(ps[1..], lim, data, DecPart(ps[0], lim, data, pos).value.next, i - 1);
    }
  }

  lemma RecordIsLocated(f: Format, data: seq<byte>, pos: nat, i: nat)
    requires DecRecord(f, data, pos).Ok? && i < |DecRecord(f, data, pos).value.value.values|
    ensures IsLocated(DecRecord(f, data, pos).value.value.values[i], data)
  {
    var tag := Uvarint(data, pos).value;
    PartsAreLocated(f.layout(tag.value).value, f.lim, data, tag.next, i);
  }

  // ---- The two parses side by side ----

  function Eager(opts: Options): Options { opts.(keepContents := true, track := false) }

  function Lazy(opts: Options): Options { opts.(keepContents := false, track := true) }

  // refs lists the objects with bytes in order.
  ghost predicate Lists(refs: seq<ContentRef>, objs: seq<HeapObject>, data: seq<byte>)
    decreases |objs|
  {
    if |objs| == 0 then |refs| == 0
    else
      var o, before := objs[|objs| - 1], objs[..|objs| - 1];
      if |o.contents| == 0 then Lists(refs, before, data)
      else |refs| > 0 && IsRefOf(refs[|refs| - 1], o, data) && Lists(refs[..|refs| - 1], before, data)
  }

  // e keeps contents, l the places where they lie; nothing else differs.
  ghost predicate Twins(e: State, l: State, data: seq<byte>)
  {
    && SameButContents(e.snap.objects, l.snap.objects)
    && l.snap == e.snap.(objects := l.snap.objects)
    && l.haveParams == e.haveParams && l.current == e.current && l.stats == e.stats && l.warnings == e.warnings
    && Lists(l.refs, e.snap.objects, data)
    && InAddressSpace(e.snap.objects)
  }

  ghost predicate TwinResults(e: Result<State, ParseError>, l: Result<State, ParseError>, data: seq<byte>)
  {
    match e
    case Ok(es) => l.Ok? && Twins(es, l.value, data)
    case Err(x) => l == Err(x)
  }

  lemma ListsNext(refs: seq<ContentRef>, objs: seq<HeapObject>, o: HeapObject, data: seq<byte>)
    requires Lists(refs, objs, data)
    ensures |o.contents| == 0 ==> Lists(refs, objs + [o], data)
    ensures forall r :: IsRefOf(r, o, data) ==> Lists(refs + [r], objs + [o], data)
  {
    assert (objs + [o])[..|objs|] == objs;
    forall r | IsRefOf(r, o, data)
      ensures Lists(refs + [r], objs + [o], data)
    {
      assert (refs + [r])[..|refs|] == refs;
    }
  }

  // The object a record yields is listed with the place it is recorded at.
  lemma ObjectListed(refs: seq<ContentRef>, objs: seq<HeapObject>, vs: seq<Value>, x: Extracted, data: seq<byte>)
    requires Lists(refs, objs, data) && forall i :: 0 <= i < |vs| ==> IsLocated(vs[i], data)
    ensures Lists(refs + RefOf(vs, true), objs + [ObjectOf(vs, x, true)], data)
  {
    var o, contents := ObjectOf(vs, x, true), BytesOf(vs, 1);
    ListsNext(refs, objs, o, data);
    if |contents| > 0 {
      assert Length64(contents) == |contents|;
      assert IsRefOf(ContentRef(Word(vs, 0, 0), AtOf(vs, 1), Length64(contents)), o, data);
    } else {
      assert refs + [] == refs;
    }
  }

  lemma AddedObject(e: seq<HeapObject>, l: seq<HeapObject>, vs: seq<Value>, x: Extracted)
    requires SameButContents(e, l) && InAddressSpace(e) && |BytesOf(vs, 1)| <= MAX_U64 - Word(vs, 0, 0)
    ensures SameButContents(e + [ObjectOf(vs, x, true)], l + [ObjectOf(vs, x, false)])
    ensures InAddressSpace(e + [ObjectOf(vs, x, true)])
  {}

  lemma DecodeAlike(e: State, l: State, bytes: seq<byte>, fields: seq<Field>, withSlots: bool, data: seq<byte>)
    requires Twins(e, l, data)
    ensures Decode(l, bytes, fields, 0, withSlots) == Decode(e, bytes, fields, 0, withSlots)
  {}

  lemma ObjectTwins(e: State, l: State, vs: seq<Value>, opts: Options, data: seq<byte>)
    requires Twins(e, l, data) && forall i :: 0 <= i < |vs| ==> IsLocated(vs[i], data)
    ensures TwinResults(ApplyObject(e, vs, Eager(opts)), ApplyObject(l, vs, Lazy(opts)), data)
  {
    if ApplyObject(e, vs, Eager(opts)).Ok? {
      var x := Decode(e, BytesOf(vs, 1), FieldsOf(vs, 2), 0, opts.keepOffsets);
      DecodeAlike(e, l, BytesOf(vs, 1), FieldsOf(vs, 2), opts.keepOffsets, data);
      AddedObject(e.snap.objects, l.snap.objects, vs, x);
      ObjectListed(l.refs, e.snap.objects, vs, x, data);
    }
  }

  lemma SegmentTwins(e: State, l: State, isData: bool, vs: seq<Value>, opts: Options, data: seq<byte>)
    requires Twins(e, l, data)
    ensures TwinResults(ApplySegment(e, isData, vs, Eager(opts)), ApplySegment(l, isData, vs, Lazy(opts)), data)
  {}

  lemma FrameTwins(e: State, l: State, vs: seq<Value>, opts: Options, data: seq<byte>)
    requires Twins(e, l, data)
    ensures TwinResults(ApplyFrame(e, vs, Eager(opts)), ApplyFrame(l, vs, Lazy(opts)), data)
  {}

  lemma OtherTwins(e: State, l: State, r: Record, opts: Options, data: seq<byte>)
    requires Twins(e, l, data) && r.tag !in {TAG_OBJECT, TAG_DATA, TAG_BSS, TAG_STACK_FRAME}
    ensures TwinResults(Apply(e, r, Eager(opts)), Apply(l, r, Lazy(opts)), data)
  {}

  lemma StepTwins(e: State, l: State, r: Record, opts: Options, data: seq<byte>)
    requires Twins(e, l, data) && forall i :: 0 <= i < |r.values| ==> IsLocated(r.values[i], data)
    ensures TwinResults(Step(e, r, Eager(opts)), Step(l, r, Lazy(opts)), data)
  {
    var e0, l0 := EndGoroutine(e, r.tag), EndGoroutine(l, r.tag);
    assert Twins(e0, l0, data);
    if r.tag == TAG_OBJECT {
      ObjectTwins(e0, l0, r.values, opts, data);
    } else if r.tag == TAG_DATA || r.tag == TAG_BSS {
      SegmentTwins(e0, l0, r.tag == TAG_DATA, r.values, opts, data);
    } else if r.tag == TAG_STACK_FRAME {
      FrameTwins(e0, l0, r.values, opts, data);
    } else {
      OtherTwins(e0, l0, r, opts, data);
    }
  }

  ghost predicate TwinParses(e: Result<Got<State>, ParseError>, l: Result<Got<State>, ParseError>, data: seq<byte>)
  {
    match e
    case Ok(es) => l.Ok? && Twins(es.value, l.value.value, data) && l.value.next == es.next
    case Err(x) => l == Err(x)
  }

  // Two machines that keep twins together, on records whose blocks are located.
  ghost predicate TwinMachines(a: Machine, b: Machine, data: seq<byte>)
  {
    && (forall e: State, l: State, r: Record {:trigger a.step(e, r), b.step(l, r)} ::
          Twins(e, l, data) && AllLocated(r, data) ==> TwinResults(a.step(e, r), b.step(l, r), data))
    && (forall e: State, l: State, r: Record {:trigger a.finish(e, r), b.finish(l, r)} ::
          Twins(e, l, data) ==> TwinResults(a.finish(e, r), b.finish(l, r), data))
  }

  ghost predicate AllLocated(r: Record, data: seq<byte>)
  {
    forall i :: 0 <= i < |r.values| ==> IsLocated(r.values[i], data)
  }

  lemma ParsersAreTwins(opts: Options, data: seq<byte>)
    ensures TwinMachines(MachineOf(Eager(opts)), MachineOf(Lazy(opts)), data)
  {
    forall e: State, l: State, r: Record | Twins(e, l, data) && AllLocated(r, data)
      ensures TwinResults(MachineOf(Eager(opts)).step(e, r), MachineOf(Lazy(opts)).step(l, r), data)
    {
      StepTwins(e, l, r, opts, data);
    }
    forall e: State, l: State, r: Record | Twins(e, l, data)
      ensures TwinResults(MachineOf(Eager(opts)).finish(e, r), MachineOf(Lazy(opts)).finish(l, r), data)
    {
      FinishTwins(e, l, r, opts, data);
    }
  }

  lemma FinishTwins(e: State, l: State, r: Record, opts: Options, data: seq<byte>)
    requires Twins(e, l, data)
    ensures TwinResults(Finish(e, r, Eager(opts)), Finish(l, r, Lazy(opts)), data)
  {}

  lemma {:induction false} ParsesAreTwins(f: Format, a: Machine, b: Machine, data: seq<byte>, pos: nat, e: State, l: State)
    requires TwinMachines(a, b, data) && Twins(e, l, data)
    ensures TwinParses(ParseFrom(f, a, data, pos, e), ParseFrom(f, b, data, pos, l), data)
    decreases |data| - pos
  {
    if pos < |data| && DecRecord(f, data, pos).Ok? {
      var r := DecRecord(f, data, pos).value;
      if IsLast(f, r.value) {
        assert TwinResults(a.finish(e, r.value), b.finish(l, r.value), data);
      } else {
        forall i | 0 <= i < |r.value.values|
          ensures IsLocated(r.value.values[i], data)
        {
          RecordIsLocated(f, data, pos, i);
        }
        assert TwinResults(a.step(e, r.value), b.step(l, r.value), data);
        if a.step(e, r.value).Ok? {
          ParsesAreTwins(f, a, b, data, r.next, a.step(e, r.value).value, b.step(l, r.value).value);
        }
      }
    }
  }

  // The lazy parse accepts the same input, and its snapshot differs only in the
  // contents it does not keep.
  lemma LazyParseIsEagerParse(lim: Limits, opts: Options, data: seq<byte>)
    ensures TwinParses(Parse(lim, Eager(opts), data), Parse(lim, Lazy(opts), data), data)
  {
    assert Twins(INITIAL, INITIAL, data);
    ParsersAreTwins(opts, data);
    if DecLine(data, 0, 0).Ok? {
      ParsesAreTwins(DumpFormat(Effective(lim)), MachineOf(Eager(opts)), MachineOf(Lazy(opts)), data,
                     DecLine(data, 0, 0).value.next, INITIAL, INITIAL);
    }
  }

  // ---- The resolver's table ----

  lemma {:induction false} ListsHasObject(refs: seq<ContentRef>, objs: seq<HeapObject>, data: seq<byte>, k: nat)
    requires Lists(refs, objs, data) && k < |refs|
    ensures HasObject(refs[k], objs, data)
    decreases |objs|
  {
    var n := |objs| - 1;
    var before := objs[..n];
    if |objs[n].contents| == 0 {
      ListsHasObject(refs, before, data, k);
    } else if k < |refs| - 1 {
      ListsHasObject(refs[..|refs| - 1], before, data, k);
    }
    if |objs[n].contents| == 0 || k < |refs| - 1 {
      var i :| 0 <= i < |before| && IsRefOf(refs[k], before[i], data);
      assert before[i] == objs[i];
    }
  }

  lemma {:induction false} ListsHasRef(refs: seq<ContentRef>, objs: seq<HeapObject>, data: seq<byte>, i: nat)
    requires Lists(refs, objs, data) && i < |objs| && |objs[i].contents| > 0
    ensures HasRef(objs[i], refs, data)
    decreases |objs|
  {
    var n := |objs| - 1;
    if i == n {
      assert refs[|refs| - 1] in refs;
    } else {
      var rest := if |objs[n].contents| == 0 then refs else refs[..|refs| - 1];
      ListsHasRef(rest, objs[..n], data, i);
      assert HasRef(objs[..n][i], rest, data);
      var r :| r in rest && IsRefOf(r, objs[i], data);
      assert r in refs;
    }
  }

  lemma ListsIsTable(refs: seq<ContentRef>, objs: seq<HeapObject>, data: seq<byte>)
    requires Lists(refs, objs, data)
    ensures IsRefTable(refs, objs, data) && InFile(refs)
  {
    forall k | 0 <= k < |refs|
      ensures HasObject(refs[k], objs, data) && refs[k].at >= 0
    {
      ListsHasObject(refs, objs, data, k);
    }
    forall i | 0 <= i < |objs| && |objs[i].contents| > 0
      ensures HasRef(objs[i], refs, data)
    {
      ListsHasRef(refs, objs, data, i);
    }
  }

  // A finalised resolver over the places that a lazy parse recorded.
  ghost predicate Resolves(c: ContentResolver, objs: seq<HeapObject>)
    reads c
  {
    c.Finalized() && IsRefTable(c.refs, objs, c.src) && InAddressSpace(objs)
  }

  // It answers as the objects' bytes say, and so as the objects as a reader do when
  // those that share an address share their bytes.
  lemma ResolverReads(c: ContentResolver, objs: seq<HeapObject>, addr: u64, size: u64)
    requires Resolves(c, objs)
    ensures Answers(objs, addr, size, false, c.AsReader()(addr, size))
    ensures SharedAlike(objs) ==> c.AsReader()(addr, size) == HeapReader(objs)(addr, size)
  {
    FetchAnswers(c.src, c.refs, c.byAddr, objs, addr, size);
    if SharedAlike(objs) {
      AnswerIs(objs, addr, size, false, c.AsReader()(addr, size));
    }
  }

  // ParseLazyContents: the snapshot without contents, and the resolver.
  method ParseLazily(lim: Limits, opts: Options, data: seq<byte>) returns (r: Result<State, ParseError>, c: ContentResolver)
    ensures fresh(c) && c.Finalized()
    ensures match Parse(lim, Lazy(opts), data)
      case Ok(got) => r == Ok(got.value)
      case Err(e) => r == Err(e)
    ensures r.Ok? ==> Parse(lim, Eager(opts), data).Ok? && Resolves(c, Parse(lim, Eager(opts), data).value.value.snap.objects)
  {
    LazyParseIsEagerParse(lim, opts, data);
    r := ParseDump(lim, Lazy(opts), data);
    if r.Err? {
      c := new ContentResolver(data, []);
      return;
    }
    ghost var objs := Parse(lim, Eager(opts), data).value.value.snap.objects;
    ListsIsTable(r.value.refs, objs, data);
    c := new ContentResolver(data, r.value.refs);
    c.Finalize();
    SortedRefs(r.value.refs, c.refs, objs, data);
  }

  // Lazy equals eager: on any input both ways of parsing fail alike, and both answer
  // every read from the bytes of an object that starts last at or below the address.
  // Where objects that share an address share their bytes, they answer alike.
  method ReadBothWays(lim: Limits, opts: Options, data: seq<byte>, addr: u64, size: u64)
    returns (kept: Result<Option<seq<byte>>, ParseError>, fetched: Result<Option<seq<byte>>, ParseError>)
    ensures match Parse(lim, Eager(opts), data)
      case Ok(got) =>
        var objs := got.value.snap.objects;
        && kept.Ok? && Answers(objs, addr, size, true, kept.value)
        && fetched.Ok? && Answers(objs, addr, size, false, fetched.value)
        && (SharedAlike(objs) ==> kept == fetched == Ok(ContentsAt(objs, addr, size)))
      case Err(e) => kept == fetched == Err(e)
  {
    LazyParseIsEagerParse(lim, opts, data);
    var eager := ParseDump(lim, Eager(opts), data);
    var lazy, resolver := ParseLazily(lim, opts, data);
    if eager.Err? {
      return Err(eager.error), Err(lazy.error);
    }
    ghost var objs := eager.value.snap.objects;
    var memory := new Memory(eager.value.snap.objects);
    var a := memory.Read(addr, size);
    var b := resolver.Read(addr, size);
    ResolverReads(resolver, objs, addr, size);
    if SharedAlike(objs) {
      AnswerIs(objs, addr, size, true, a);
      AnswerIs(objs, addr, size, false, b);
    }
    return Ok(a), Ok(b);
  }
}
