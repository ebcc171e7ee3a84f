// The dump parser: one object whose fields every record updates
// (internal/heapdump/parser.go).
module DumpParser {
  import opened Words
  import opened Wrappers
  import opened Heap
  import opened Varint
  import opened Wire
  import opened Records
  import opened Pointers
  import opened Dump
  import opened DumpReader

  // The method failed with the error the specification fails with, or left the
  // state it leaves. After an error the state is open.
  ghost predicate Took(spec: Result<State, ParseError>, err: Option<ParseError>, st: State)
  {
    match spec
    case Ok(s) => err == None && st == s
    case Err(e) => err == Some(e)
  }

  class Parser {
    const opts: Options
    const reader: Reader
    var snap: Snapshot
    var haveParams: bool
    var current: Option<nat>
    var stats: Stats
    var warnings: nat
    var refs: seq<ContentRef>

    constructor (reader: Reader, opts: Options)
      ensures this.reader == reader && this.opts == opts && View() == INITIAL
    {
      this.reader, this.opts := reader, opts;
      snap, haveParams, current, stats, warnings, refs := EMPTY_SNAPSHOT, false, None, NO_STATS, 0, [];
    }

    ghost function View(): State
      reads this
    {
      State(snap, haveParams, current, stats, warnings, refs)
    }

    method WarnTimes(n: nat) returns (err: Option<ParseError>)
      modifies this`warnings
      ensures Took(Warn(old(View()), n, opts), err, View())
    {
      if n > 0 && opts.strict {
        return Some(StrictWarning);
      }
      warnings := warnings + n;
      return None;
    }

    method DecodePointers(contents: seq<byte>, fields: seq<Field>, container: u64, withSlots: bool) returns (x: Extracted)
      ensures x == Decode(View(), contents, fields, container, withSlots)
    {
      if !haveParams {
        return NOTHING;
      }
      x := ExtractPointers(contents, fields, Pointers.View(snap.params.ptrSize, snap.params.bigEndian, container, withSlots));
    }

    method ParseParams(vs: seq<Value>) returns (err: Option<ParseError>)
      modifies this
      ensures Took(ApplyParams(old(View()), vs), err, View())
    {
      var ptrSize := Word(vs, 1, 0);
      if ptrSize != 4 && ptrSize != 8 {
        return Some(BadPointerSize);
      }
      snap := snap.(params := Params(FlagOf(vs, 0), ptrSize, Word(vs, 1, 1), Word(vs, 1, 2), BytesOf(vs, 2), BytesOf(vs, 3), Word(vs, 4, 0)));
      haveParams := true;
      return None;
    }

    method ParseObject(vs: seq<Value>) returns (err: Option<ParseError>)
      modifies this
      ensures Took(ApplyObject(old(View()), vs, opts), err, View())
    {
      var addr, contents := Word(vs, 0, 0), BytesOf(vs, 1);
      if |contents| > MAX_U64 - addr {
        return Some(RangeOverflow);
      }
      if !haveParams {
        err := WarnTimes(1);
        if err.Some? {
          return;
        }
      }
      var x := DecodePointers(contents, FieldsOf(vs, 2), 0, opts.keepOffsets);
      err := WarnTimes(x.warnings);
      if err.Some? {
        return;
      }
      snap := snap.(objects := snap.objects + [ObjectOf(vs, x, opts.keepContents)]);
      stats := ObjectStats(stats, x, Length64(contents));
      refs := refs + RefOf(vs, opts.track);
    }

    method ParseOtherRoot(vs: seq<Value>)
      modifies this
      ensures View() == ApplyOtherRoot(old(View()), vs)
    {
      snap := snap.(globals := snap.globals + [Root("otherroot", BytesOf(vs, 0), 0, Word(vs, 1, 0))]);
      var s := Bump(stats, TAG_OTHER_ROOT);
      stats := s.(roots := s.roots + 1);
    }

    method ListRoots(kind: string, x: Extracted) returns (roots: seq<Root>)
      ensures roots == RootsOf(kind, x, |x.targets|)
    {
      roots := [];
      for i := 0 to |x.targets|
        invariant roots == RootsOf(kind, x, i)
      {
        var slot: u64 := 0;
        if i < |x.slots| {
          slot := x.slots[i];
        }
        roots := roots + [Root(kind, [], slot, x.targets[i])];
      }
    }

    method ParseDataLike(isData: bool, vs: seq<Value>) returns (err: Option<ParseError>)
      modifies this
      ensures Took(ApplySegment(old(View()), isData, vs, opts), err, View())
    {
      var kind := if isData then "data" else "bss";
      var x := DecodePointers(BytesOf(vs, 1), FieldsOf(vs, 2), Word(vs, 0, 0), true);
      err := WarnTimes(x.warnings);
      if err.Some? {
        return;
      }
      var roots := ListRoots(kind, x);
      snap := WithSegment(snap, isData, SegmentOf(kind, vs, x), roots);
      stats := SegmentStats(stats, isData, x);
    }

    method ParseGoroutine(vs: seq<Value>)
      modifies this
      ensures View() == ApplyGoroutine(old(View()), vs)
    {
      snap := snap.(goroutines := snap.goroutines + [Dump.GoroutineOf(vs)]);
      current := Some(|snap.goroutines| - 1);
      stats := Bump(stats, TAG_GOROUTINE);
    }

    method ParseStackFrame(vs: seq<Value>) returns (err: Option<ParseError>)
      modifies this
      ensures Took(ApplyFrame(old(View()), vs, opts), err, View())
    {
      var x := DecodePointers(BytesOf(vs, 1), FieldsOf(vs, 4), Word(vs, 0, 0), true);
      err := WarnTimes(x.warnings);
      if err.Some? {
        return;
      }
      stats := CountInterfaces(stats, x);
      if current.None? {
        err := WarnTimes(1);
        return;
      }
      snap := snap.(goroutines := PushFrame(snap.goroutines, current.value, FrameOf(vs, x)));
      stats := FrameStats(stats, |x.targets|);
    }

    // The remaining records: finalizers and those kept aside.
    method ParseOther(r: Record)
      requires r.tag !in {TAG_PARAMS, TAG_OBJECT, TAG_OTHER_ROOT, TAG_DATA, TAG_BSS, TAG_GOROUTINE, TAG_STACK_FRAME}
      modifies this
      ensures Apply(old(View()), r, opts) == Ok(View())
    {
      if r.tag == TAG_FINALIZER {
        snap, stats := snap.(finalizers := snap.finalizers + [FinalizerOf(r.values)]), Bump(stats, r.tag);
      } else if r.tag == TAG_QUEUED_FINALIZER {
        snap, stats := snap.(queued := snap.queued + [FinalizerOf(r.values)]), Bump(stats, r.tag);
      } else {
        snap, stats := snap.(extras := ApplyExtra(snap.extras, r)), ExtraStats(stats, r.tag);
      }
    }

    method EndSection(tag: u64)
      modifies this`current
      ensures View() == EndGoroutine(old(View()), tag)
    {
      if !KeepsGoroutine(tag) {
        current := None;
      }
    }

    method Dispatch(r: Record) returns (err: Option<ParseError>)
      modifies this
      ensures Took(Apply(old(View()), r, opts), err, View())
    {
      err := None;
      match r.tag
      case 6 => err := ParseParams(r.values);
      case 1 => err := ParseObject(r.values);
      case 2 => ParseOtherRoot(r.values);
      case 12 => err := ParseDataLike(true, r.values);
      case 13 => err := ParseDataLike(false, r.values);
      case 4 => ParseGoroutine(r.values);
      case 5 => err := ParseStackFrame(r.values);
      case _ => ParseOther(r);
    }

    method StopAt(r: Record) returns (err: Option<ParseError>)
      modifies this
      ensures Took(Finish(old(View()), r, opts), err, View())
    {
      EndSection(r.tag);
      if r.tag == TAG_EOF {
        return None;
      }
      stats := stats.(unknown := stats.unknown + 1);
      err := WarnTimes(1);
    }

    // The outcome of a parse that stands at offset.
    ghost predicate Parsed(spec: Result<Got<State>, ParseError>, err: Option<ParseError>)
      reads this, reader
    {
      match spec
      case Ok(got) => err == None && View() == got.value && reader.offset == got.next
      case Err(e) => err == Some(e)
    }

    method ParseRecords() returns (err: Option<ParseError>)
      modifies this, reader`offset
      ensures Parsed(ParseFrom(reader.format, MachineOf(opts), reader.data, old(reader.offset), old(View())), err)
    {
      ghost var spec := ParseFrom(reader.format, MachineOf(opts), reader.data, reader.offset, View());
      while true
        invariant spec == ParseFrom(reader.format, MachineOf(opts), reader.data, reader.offset, View())
        decreases |reader.data| - reader.offset
      {
        if reader.offset >= |reader.data| {
          return Some(MissingEnd);
        }
        var r := reader.ReadRecord();
        if r.Err? {
          return Some(Read(r.error));
        }
        if IsLast(reader.format, r.value) {
          err := StopAt(r.value);
          return;
        }
        EndSection(r.value.tag);
        err := Dispatch(r.value);
        if err.Some? {
          return;
        }
      }
    }
  }

  // Parse and ParseLazyContents. The result is the meaning of the bytes.
  method ParseDump(lim: Limits, opts: Options, data: seq<byte>) returns (r: Result<State, ParseError>)
    ensures match Parse(lim, opts, data)
      case Ok(got) => r == Ok(got.value)
      case Err(e) => r == Err(e)
  {
    var reader := new Reader(data, DumpFormat(Effective(lim)));
    var line := reader.ReadLine();
    if line.Err? {
      return Err(Read(line.error));
    }
    if line.value != HEADER {
      return Err(BadHeader);
    }
    var p := new Parser(reader, opts);
    var err := p.ParseRecords();
    if err.Some? {
      return Err(err.value);
    }
    return Ok(State(p.snap, p.haveParams, p.current, p.stats, p.warnings, p.refs));
  }
}
