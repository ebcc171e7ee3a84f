// What the records of a heap dump mean (internal/heapdump/parser.go): the
// parser's state and the effect of every record on it.
module Dump {
  import opened Words
  import opened Wrappers
  import opened Heap
  import opened Varint
  import opened Wire
  import opened Records
  import opened Pointers

  datatype ParseError = Read(error: ReadError) | BadHeader | MissingEnd | BadPointerSize | RangeOverflow | StrictWarning

  // track records where object contents lie in the file (ParseLazyContents).
  datatype Options = Options(keepContents: bool, keepOffsets: bool, strict: bool, track: bool)

  // An object's payload: length bytes at file offset at.
  datatype ContentRef = ContentRef(addr: u64, at: int, length: u64)

  // Pointers found in objects, stack frames, data and bss.
  datatype PointerTally = PointerTally(objects: nat, frames: nat, data: nat, bss: nat)

  // counts[t] is the counter of records with tag t; roots counts global roots.
  datatype Stats = Stats(counts: seq<nat>, pointers: PointerTally, roots: nat, objectBytes: u64, unknown: nat, ifaces: nat, efaces: nat)

  datatype State = State(snap: Snapshot, haveParams: bool, current: Option<nat>, stats: Stats, warnings: nat, refs: seq<ContentRef>)

  const TAGS: nat := 18

  function ZeroCounts(n: nat): (c: seq<nat>)
    ensures |c| == n && forall t :: 0 <= t < n ==> c[t] == 0
  {
    if n == 0 then [] else ZeroCounts(n - 1) + [0]
  }

  const NO_STATS := Stats(ZeroCounts(TAGS), PointerTally(0, 0, 0, 0), 0, 0, 0, 0, 0)

  const INITIAL := State(EMPTY_SNAPSHOT, false, None, NO_STATS, 0, [])

  // ---- Field access; the layout guarantees the shape ----

  function Word(vs: seq<Value>, i: nat, j: nat): u64
  {
    if i < |vs| && vs[i].Words? && j < |vs[i].words| then vs[i].words[j] else 0
  }

  function WordList(vs: seq<Value>, i: nat): seq<u64>
  {
    if i < |vs| && vs[i].Words? then vs[i].words else []
  }

  function FlagOf(vs: seq<Value>, i: nat): bool
  {
    i < |vs| && vs[i].Flag? && vs[i].flag
  }

  function BytesOf(vs: seq<Value>, i: nat): seq<byte>
  {
    if i < |vs| && vs[i].Block? then vs[i].bytes else []
  }

  function AtOf(vs: seq<Value>, i: nat): int
  {
    if i < |vs| && vs[i].Block? then vs[i].at else 0
  }

  function FieldsOf(vs: seq<Value>, i: nat): seq<Field>
  {
    if i < |vs| && vs[i].Fields? then vs[i].fields else []
  }

  // uint64(len(bytes))
  function Length64(bytes: seq<byte>): u64
  {
    |bytes| % TWO64
  }

  // ---- Shared steps ----

  function Bump(st: Stats, tag: u64): Stats
  {
    if tag < |st.counts| then st.(counts := st.counts[tag := st.counts[tag] + 1]) else st
  }

  function CountInterfaces(st: Stats, x: Extracted): Stats
  {
    st.(ifaces := st.ifaces + x.ifaces, efaces := st.efaces + x.efaces)
  }

  // Pointer decoding needs the parameters; without them nothing is found.
  function Decode(st: State, contents: seq<byte>, fields: seq<Field>, container: u64, withSlots: bool): Extracted
  {
    if !st.haveParams then NOTHING
    else Extract(contents, fields, View(st.snap.params.ptrSize, st.snap.params.bigEndian, container, withSlots))
  }

  // In strict mode a warning ends the parse.
  function Warn(st: State, n: nat, opts: Options): Result<State, ParseError>
  {
    if n > 0 && opts.strict then Err(StrictWarning) else Ok(st.(warnings := st.warnings + n))
  }

  // ---- Records ----

  function ApplyParams(st: State, vs: seq<Value>): Result<State, ParseError>
  {
    if !PointerWidth(Word(vs, 1, 0)) then Err(BadPointerSize)
    else
      var p := Params(FlagOf(vs, 0), Word(vs, 1, 0), Word(vs, 1, 1), Word(vs, 1, 2), BytesOf(vs, 2), BytesOf(vs, 3), Word(vs, 4, 0));
      Ok(st.(snap := st.snap.(params := p), haveParams := true))
  }

  function ObjectOf(vs: seq<Value>, x: Extracted, keepContents: bool): HeapObject
  {
    var contents := BytesOf(vs, 1);
    HeapObject(Word(vs, 0, 0), Length64(contents), if keepContents then contents else [], FieldsOf(vs, 2), x.targets, x.slots)
  }

  function RefOf(vs: seq<Value>, track: bool): seq<ContentRef>
  {
    if track && |BytesOf(vs, 1)| > 0 then [ContentRef(Word(vs, 0, 0), AtOf(vs, 1), Length64(BytesOf(vs, 1)))] else []
  }

  function ObjectStats(st: Stats, x: Extracted, size: u64): Stats
  {
    var s := CountInterfaces(Bump(st, TAG_OBJECT), x);
    s.(pointers := s.pointers.(objects := s.pointers.objects + |x.targets|), objectBytes := (s.objectBytes + size) % TWO64)
  }

  function ApplyObject(st: State, vs: seq<Value>, opts: Options): Result<State, ParseError>
  {
    var contents := BytesOf(vs, 1);
    if |contents| > MAX_U64 - Word(vs, 0, 0) then Err(RangeOverflow)
    else
      var st1 :- Warn(st, if st.haveParams then 0 else 1, opts);
      var x := Decode(st, contents, FieldsOf(vs, 2), 0, opts.keepOffsets);
      var st2 :- Warn(st1, x.warnings, opts);
      Ok(st2.(snap := st2.snap.(objects := st2.snap.objects + [ObjectOf(vs, x, opts.keepContents)]),
              stats := ObjectStats(st2.stats, x, Length64(contents)),
              refs := st2.refs + RefOf(vs, opts.track)))
  }

  function ApplyOtherRoot(st: State, vs: seq<Value>): State
  {
    var s := Bump(st.stats, TAG_OTHER_ROOT);
    st.(snap := st.snap.(globals := st.snap.globals + [Root("otherroot", BytesOf(vs, 0), 0, Word(vs, 1, 0))]),
        stats := s.(roots := s.roots + 1))
  }

  function RootsOf(kind: string, x: Extracted, n: nat): seq<Root>
    requires n <= |x.targets|
  {
    if n == 0 then []
    else RootsOf(kind, x, n - 1) + [Root(kind, [], if n - 1 < |x.slots| then x.slots[n - 1] else 0, x.targets[n - 1])]
  }

  function SegmentStats(st: Stats, isData: bool, x: Extracted): Stats
  {
    var s := CountInterfaces(Bump(st, if isData then TAG_DATA else TAG_BSS), x);
    var n := |x.targets|;
    s.(roots := s.roots + n,
       pointers := if isData then s.pointers.(data := s.pointers.data + n) else s.pointers.(bss := s.pointers.bss + n))
  }

  function SegmentOf(kind: string, vs: seq<Value>, x: Extracted): Segment
  {
    Segment(kind, Word(vs, 0, 0), Length64(BytesOf(vs, 1)), FieldsOf(vs, 2), x.targets, x.slots)
  }

  function WithSegment(snap: Snapshot, isData: bool, seg: Segment, roots: seq<Root>): Snapshot
  {
    if isData then snap.(globals := snap.globals + roots, data := snap.data + [seg])
    else snap.(globals := snap.globals + roots, bss := snap.bss + [seg])
  }

  function ApplySegment(st: State, isData: bool, vs: seq<Value>, opts: Options): Result<State, ParseError>
  {
    var kind := if isData then "data" else "bss";
    var x := Decode(st, BytesOf(vs, 1), FieldsOf(vs, 2), Word(vs, 0, 0), true);
    var st1 :- Warn(st, x.warnings, opts);
    Ok(st1.(snap := WithSegment(st1.snap, isData, SegmentOf(kind, vs, x), RootsOf(kind, x, |x.targets|)),
            stats := SegmentStats(st1.stats, isData, x)))
  }

  function GoroutineOf(vs: seq<Value>): HeapGoroutine
  {
    HeapGoroutine(Word(vs, 0, 0), Word(vs, 0, 1), Word(vs, 0, 2), Word(vs, 0, 3), Word(vs, 0, 4),
                  FlagOf(vs, 1), FlagOf(vs, 2), Word(vs, 3, 0), BytesOf(vs, 4),
                  Sched(Word(vs, 5, 0), Word(vs, 5, 1), Word(vs, 5, 2), Word(vs, 5, 3)), [])
  }

  function ApplyGoroutine(st: State, vs: seq<Value>): State
  {
    st.(snap := st.snap.(goroutines := st.snap.goroutines + [GoroutineOf(vs)]),
        current := Some(|st.snap.goroutines|), stats := Bump(st.stats, TAG_GOROUTINE))
  }

  function FrameOf(vs: seq<Value>, x: Extracted): Frame
  {
    Frame(Word(vs, 0, 0), Word(vs, 0, 1), Word(vs, 0, 2), WordList(vs, 2), BytesOf(vs, 3),
          Length64(BytesOf(vs, 1)), FieldsOf(vs, 4), x.targets, x.slots)
  }

  function PushFrame(gs: seq<HeapGoroutine>, j: nat, fr: Frame): seq<HeapGoroutine>
  {
    if j < |gs| then gs[j := gs[j].(frames := gs[j].frames + [fr])] else gs
  }

  function FrameStats(st: Stats, n: nat): Stats
  {
    var s := Bump(st, TAG_STACK_FRAME);
    s.(pointers := s.pointers.(frames := s.pointers.frames + n))
  }

  // A frame goes to the current goroutine; without one it is dropped with a
  // warning.
  function ApplyFrame(st: State, vs: seq<Value>, opts: Options): Result<State, ParseError>
  {
    var x := Decode(st, BytesOf(vs, 1), FieldsOf(vs, 4), Word(vs, 0, 0), true);
    var st0 :- Warn(st, x.warnings, opts);
    var st1 := st0.(stats := CountInterfaces(st0.stats, x));
    match st1.current
    case None => Warn(st1, 1, opts)
    case Some(j) =>
      Ok(st1.(snap := st1.snap.(goroutines := PushFrame(st1.snap.goroutines, j, FrameOf(vs, x))),
              stats := FrameStats(st1.stats, |x.targets|)))
  }

  function FinalizerOf(vs: seq<Value>): Finalizer
  {
    Finalizer(Word(vs, 0, 0), Word(vs, 0, 1), [Word(vs, 0, 2), Word(vs, 0, 3), Word(vs, 0, 4)])
  }

  function ProfileFrames(more: seq<Value>): seq<AllocationFrame>
  {
    if |more| < 4 then []
    else [AllocationFrame(BytesOf(more, 0), BytesOf(more, 1), Word(more, 2, 0))] + ProfileFrames(more[3..])
  }

  function ProfileOf(r: Record): MemProfile
  {
    var n := |r.more|;
    MemProfile([Word(r.values, 0, 0), Word(r.values, 0, 1)] + (if n > 0 then WordList(r.more, n - 1) else []), ProfileFrames(r.more))
  }

  // Records the graph does not use.
  function ApplyExtra(e: Extras, r: Record): Extras
  {
    var vs := r.values;
    if r.tag == TAG_TYPE then e.(types := e.types[Word(vs, 0, 0) := TypeInfo(Word(vs, 0, 1), BytesOf(vs, 1), FlagOf(vs, 2))])
    else if r.tag == TAG_ITAB then e.(itabs := e.itabs[Word(vs, 0, 0) := Word(vs, 0, 1)])
    else if r.tag == TAG_OS_THREAD then e.(threads := e.threads + [WordList(vs, 0)])
    else if r.tag == TAG_MEM_STATS then e.(memStats := WordList(vs, 0))
    else if r.tag == TAG_MEM_PROF then e.(profiles := e.profiles + [ProfileOf(r)])
    else if r.tag == TAG_ALLOC_SAMPLE then e.(samples := e.samples + [WordList(vs, 0)])
    else e
  }

  // Memory statistics are the one record no counter counts.
  function ExtraStats(st: Stats, tag: u64): Stats
  {
    if tag == TAG_MEM_STATS then st else Bump(st, tag)
  }

  // Only stack frames, defers and panics belong to the current goroutine.
  predicate KeepsGoroutine(tag: u64)
  {
    tag == TAG_STACK_FRAME || tag == TAG_DEFER || tag == TAG_PANIC || tag == TAG_GOROUTINE
  }

  function EndGoroutine(st: State, tag: u64): State
  {
    if KeepsGoroutine(tag) then st else st.(current := None)
  }

  function Apply(st: State, r: Record, opts: Options): Result<State, ParseError>
  {
    var vs := r.values;
    if r.tag == TAG_PARAMS then ApplyParams(st, vs)
    else if r.tag == TAG_OBJECT then ApplyObject(st, vs, opts)
    else if r.tag == TAG_OTHER_ROOT then Ok(ApplyOtherRoot(st, vs))
    else if r.tag == TAG_DATA then ApplySegment(st, true, vs, opts)
    else if r.tag == TAG_BSS then ApplySegment(st, false, vs, opts)
    else if r.tag == TAG_GOROUTINE then Ok(ApplyGoroutine(st, vs))
    else if r.tag == TAG_STACK_FRAME then ApplyFrame(st, vs, opts)
    else if r.tag == TAG_FINALIZER then
      Ok(st.(snap := st.snap.(finalizers := st.snap.finalizers + [FinalizerOf(vs)]), stats := Bump(st.stats, r.tag)))
    else if r.tag == TAG_QUEUED_FINALIZER then
      Ok(st.(snap := st.snap.(queued := st.snap.queued + [FinalizerOf(vs)]), stats := Bump(st.stats, r.tag)))
    else
      Ok(st.(snap := st.snap.(extras := ApplyExtra(st.snap.extras, r)), stats := ExtraStats(st.stats, r.tag)))
  }

  // A record that is not the last.
  function Step(st: State, r: Record, opts: Options): Result<State, ParseError>
  {
    Apply(EndGoroutine(st, r.tag), r, opts)
  }

  // The end record, or an unknown tag: a partial snapshot with a warning.
  function Finish(st: State, r: Record, opts: Options): Result<State, ParseError>
  {
    var st1 := EndGoroutine(st, r.tag);
    if r.tag == TAG_EOF then Ok(st1)
    else Warn(st1.(stats := st1.stats.(unknown := st1.stats.unknown + 1)), 1, opts)
  }

  // ---- Whole dumps ----

  // How records change the state: ordinary ones, and the last.
  datatype Machine = Machine(step: (State, Record) -> Result<State, ParseError>, finish: (State, Record) -> Result<State, ParseError>)

  function MachineOf(opts: Options): Machine
  {
    Machine((st: State, r: Record) => Step(st, r, opts), (st: State, r: Record) => Finish(st, r, opts))
  }

  // The records up to the last, from a given state.
  function ParseFrom(f: Format, m: Machine, data: seq<byte>, pos: nat, st: State): (r: Result<Got<State>, ParseError>)
    ensures r.Ok? ==> r.value.next <= |data|
    decreases |data| - pos
  {
    if pos >= |data| then Err(MissingEnd)
    else
      match DecRecord(f, data, pos)
      case Err(e) => Err(Read(e))
      case Ok(got) =>
        if IsLast(f, got.value) then
          var st1 :- m.finish(st, got.value);
          Ok(Got(st1, got.next))
        else
          var st1 :- m.step(st, got.value);
          ParseFrom(f, m, data, got.next, st1)
  }

  // The source passes zero limits on as its defaults: 16 MiB and 1 GiB.
  function Effective(lim: Limits): Limits
  {
    Limits(if lim.maxString == 0 then 0x100_0000 else lim.maxString, if lim.maxMemory == 0 then 0x4000_0000 else lim.maxMemory)
  }

  // A header line, then records in the given format.
  function ParseWith(f: Format, m: Machine, data: seq<byte>): (r: Result<Got<State>, ParseError>)
    ensures r.Ok? ==> r.value.next <= |data|
  {
    match DecLine(data, 0, 0)
    case Err(e) => Err(Read(e))
    case Ok(line) => if line.value != HEADER then Err(BadHeader) else ParseFrom(f, m, data, line.next, INITIAL)
  }

  function Parse(lim: Limits, opts: Options, data: seq<byte>): (r: Result<Got<State>, ParseError>)
    ensures r.Ok? ==> r.value.next <= |data|
  {
    ParseWith(DumpFormat(Effective(lim)), MachineOf(opts), data)
  }

  // The meaning of a list of records, the last one included.
  function Run(f: Format, m: Machine, rs: seq<Record>, st: State): Result<State, ParseError>
    decreases |rs|
  {
    if |rs| == 0 then Ok(st)
    else if IsLast(f, rs[0]) then m.finish(st, rs[0])
    else
      var st1 :- m.step(st, rs[0]);
      Run(f, m, rs[1..], st1)
  }

  // Parsing is decoding the records and running them.
  lemma {:induction false} ParseIsRun(f: Format, m: Machine, data: seq<byte>, pos: nat, st: State)
    requires DecRecords(f, data, pos).Ok?
    ensures (var rs := DecRecords(f, data, pos).value;
             match Run(f, m, rs.value, st)
             case Ok(st1) => ParseFrom(f, m, data, pos, st) == Ok(Got(st1, rs.next))
             case Err(e) => ParseFrom(f, m, data, pos, st) == Err(e))
    decreases |data| - pos
  {
    var r := DecRecord(f, data, pos).value;
    var rs := DecRecords(f, data, pos).value.value;
    assert rs[0] == r.value;
    if !IsLast(f, r.value) {
      assert rs[1..] == DecRecords(f, data, r.next).value.value;
      if m.step(st, r.value).Ok? {
        ParseIsRun(f, m, data, r.next, m.step(st, r.value).value);
      }
    }
  }

  // Only input whose records all decode is accepted.
  lemma {:induction false} AcceptedDecodes(f: Format, m: Machine, data: seq<byte>, pos: nat, st: State)
    requires ParseFrom(f, m, data, pos, st).Ok?
    ensures DecRecords(f, data, pos).Ok?
    decreases |data| - pos
  {
    var r := DecRecord(f, data, pos).value;
    if !IsLast(f, r.value) {
      AcceptedDecodes(f, m, data, r.next, m.step(st, r.value).value);
    }
  }

  function Encode(rs: seq<Record>, k: seq<byte>): seq<byte>
  {
    PutLine(HEADER, PutRecords(rs, k))
  }

  lemma HeaderRoundTrip(data: seq<byte>, body: seq<byte>)
    requires data == PutLine(HEADER, body)
    ensures |body| <= |data| && DecLine(data, 0, 0) == Ok(Got(HEADER, |data| - |body|)) && At(data, |data| - |body|, body)
  {
    AtMeans(data, 0, data);
    assert data[0..] == data;
    LineRoundTrip(data, 0, HEADER, 0, body);
  }

  // The parse of input of the given length ended as want says, in front of its
  // last k bytes.
  ghost predicate Yields(got: Result<Got<State>, ParseError>, want: Result<State, ParseError>, length: nat, k: nat)
  {
    match want
    case Ok(st) => k <= length && got == Ok(Got(st, length - k))
    case Err(e) => got == Err(e)
  }

  lemma RunYields(f: Format, m: Machine, data: seq<byte>, pos: nat, rs: seq<Record>, k: seq<byte>, st: State)
    requires Reads(DecRecords(f, data, pos), rs, data, k)
    ensures Yields(ParseFrom(f, m, data, pos, st), Run(f, m, rs, st), |data|, |k|)
  {
    ParseIsRun(f, m, data, pos, st);
  }

  lemma BodyRoundTrip(f: Format, m: Machine, data: seq<byte>, pos: nat, rs: seq<Record>, k: seq<byte>)
    requires WellFormed(f, rs) && At(data, pos, PutRecords(rs, k))
    ensures Yields(ParseFrom(f, m, data, pos, INITIAL), Run(f, m, PlacedRecords(rs, k, |data|), INITIAL), |data|, |k|)
  {
    var placed := PlacedRecords(rs, k, |data|);
    RecordsRoundTrip(f, data, pos, rs, k);
    RunYields(f, m, data, pos, placed, k, INITIAL);
  }

  lemma AfterHeader(f: Format, m: Machine, data: seq<byte>, pos: nat)
    requires DecLine(data, 0, 0) == Ok(Got(HEADER, pos))
    ensures ParseWith(f, m, data) == ParseFrom(f, m, data, pos, INITIAL)
  {}

  lemma EncodedParses(f: Format, m: Machine, rs: seq<Record>, k: seq<byte>)
    requires WellFormed(f, rs)
    ensures var data := Encode(rs, k);
      Yields(ParseWith(f, m, data), Run(f, m, PlacedRecords(rs, k, |data|), INITIAL), |data|, |k|)
  {
    var data, body := Encode(rs, k), PutRecords(rs, k);
    HeaderRoundTrip(data, body);
    AfterHeader(f, m, data, |data| - |body|);
    BodyRoundTrip(f, m, data, |data| - |body|, rs, k);
  }

  // Decoding inverts encoding for whole dumps: parsing the encoding of any
  // well-formed record list, whatever follows it, gives what the records mean.
  lemma DumpRoundTrip(lim: Limits, opts: Options, rs: seq<Record>, k: seq<byte>)
    requires WellFormed(DumpFormat(Effective(lim)), rs)
    ensures var data := Encode(rs, k);
      Yields(Parse(lim, opts, data), Run(DumpFormat(Effective(lim)), MachineOf(opts), PlacedRecords(rs, k, |data|), INITIAL), |data|, |k|)
  {
    EncodedParses(DumpFormat(Effective(lim)), MachineOf(opts), rs, k);
  }

  // ---- No prefix of an accepted dump is accepted ----

  lemma {:induction false} ParseFromExtends(f: Format, m: Machine, data: seq<byte>, pos: nat, st: State, k: seq<byte>)
    requires ParseFrom(f, m, data, pos, st).Ok?
    ensures ParseFrom(f, m, data + k, pos, st) == ParseFrom(f, m, data, pos, st)
    decreases |data| - pos
  {
    RecordExtends(f, data, pos, k);
    var r := DecRecord(f, data, pos).value;
    if !IsLast(f, r.value) {
      ParseFromExtends(f, m, data, r.next, m.step(st, r.value).value, k);
    }
  }

  // Accepting does not depend on what follows the consumed bytes.
  lemma ParseExtends(f: Format, m: Machine, data: seq<byte>, k: seq<byte>)
    requires ParseWith(f, m, data).Ok?
    ensures ParseWith(f, m, data + k) == ParseWith(f, m, data)
  {
    LineExtends(data, 0, 0, k);
    ParseFromExtends(f, m, data, DecLine(data, 0, 0).value.next, INITIAL, k);
  }

  lemma CutRejected(f: Format, m: Machine, data: seq<byte>, n: nat)
    requires ParseWith(f, m, data).Ok? && n < ParseWith(f, m, data).value.next
    ensures ParseWith(f, m, data[..n]).Err?
  {
    assert data[..n] + data[n..] == data;
    if ParseWith(f, m, data[..n]).Ok? {
      ParseExtends(f, m, data[..n], data[n..]);
    }
  }

  // The parser stops where the dump ends: cutting any byte off the consumed
  // input makes it unacceptable.
  lemma PrefixRejected(lim: Limits, opts: Options, data: seq<byte>, n: nat)
    requires Parse(lim, opts, data).Ok? && n < Parse(lim, opts, data).value.next
    ensures Parse(lim, opts, data[..n]).Err?
  {
    CutRejected(DumpFormat(Effective(lim)), MachineOf(opts), data, n);
  }
}
