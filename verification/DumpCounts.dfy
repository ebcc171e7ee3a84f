// The statistics of a parsed dump, record kind by record kind
// (internal/heapdump/parser.go).
module DumpCounts {
  import opened Words
  import opened Heap
  import opened Wire
  import opened Records
  import opened Dump
  import opened DumpFacts

  // Parameters and memory statistics have no counter; a frame counts when it
  // belongs to a goroutine.
  predicate IsCounted(tag: u64, owned: bool)
  {
    tag != TAG_PARAMS && tag != TAG_MEM_STATS && (tag == TAG_STACK_FRAME ==> owned)
  }

  // The counted records of one kind among the first n.
  function CountedUpTo(rs: seq<Record>, n: nat, tag: u64): nat
    requires n <= |rs|
  {
    if n == 0 then 0
    else CountedUpTo(rs, n - 1, tag) + (if rs[n - 1].tag == tag && IsCounted(tag, OwnerAt(rs, n - 1).Some?) then 1 else 0)
  }

  ghost predicate TagsCounted(counts: seq<nat>, rs: seq<Record>, n: nat)
    requires n <= |rs|
  {
    |counts| == TAGS && forall t: nat {:trigger counts[t]} :: t < TAGS ==> counts[t] == CountedUpTo(rs, n, t)
  }

  // The counters after one more record.
  function Counted(counts: seq<nat>, tag: u64, owned: bool): seq<nat>
  {
    if tag < |counts| && IsCounted(tag, owned) then counts[tag := counts[tag] + 1] else counts
  }

  lemma CountNext(counts: seq<nat>, rs: seq<Record>, n: nat)
    requires n < |rs| && TagsCounted(counts, rs, n)
    ensures TagsCounted(Counted(counts, rs[n].tag, OwnerAt(rs, n).Some?), rs, n + 1)
  {}

  lemma SegmentCounts(st: State, isData: bool, vs: seq<Value>, opts: Options)
    requires ApplySegment(st, isData, vs, opts).Ok? && |st.stats.counts| == TAGS
    ensures ApplySegment(st, isData, vs, opts).value.stats.counts == Counted(st.stats.counts, if isData then TAG_DATA else TAG_BSS, true)
  {}

  lemma ObjectCounts(st: State, vs: seq<Value>, opts: Options)
    requires ApplyObject(st, vs, opts).Ok? && |st.stats.counts| == TAGS
    ensures ApplyObject(st, vs, opts).value.stats.counts == Counted(st.stats.counts, TAG_OBJECT, true)
  {}

  lemma FrameCounts(st: State, vs: seq<Value>, opts: Options)
    requires ApplyFrame(st, vs, opts).Ok? && |st.stats.counts| == TAGS
    ensures ApplyFrame(st, vs, opts).value.stats.counts == Counted(st.stats.counts, TAG_STACK_FRAME, st.current.Some?)
  {}

  lemma StepCounts(st: State, r: Record, opts: Options)
    requires Step(st, r, opts).Ok? && |st.stats.counts| == TAGS
    ensures Step(st, r, opts).value.stats.counts == Counted(st.stats.counts, r.tag, st.current.Some?)
  {
    var st0 := EndGoroutine(st, r.tag);
    if r.tag == TAG_OBJECT {
      ObjectCounts(st0, r.values, opts);
    } else if r.tag == TAG_DATA || r.tag == TAG_BSS {
      SegmentCounts(st0, r.tag == TAG_DATA, r.values, opts);
    } else if r.tag == TAG_STACK_FRAME {
      FrameCounts(st0, r.values, opts);
    }
  }

  // Every step counts its record, and finishing counts nothing.
  ghost predicate Counts(m: Machine)
  {
    && (forall st: State, r: Record {:trigger m.step(st, r)} ::
          m.step(st, r).Ok? && |st.stats.counts| == TAGS ==> m.step(st, r).value.stats.counts == Counted(st.stats.counts, r.tag, st.current.Some?))
    && (forall st: State, r: Record {:trigger m.finish(st, r)} ::
          m.finish(st, r).Ok? ==> m.finish(st, r).value.stats.counts == st.stats.counts)
  }

  lemma ParserCounts(opts: Options)
    ensures Counts(MachineOf(opts))
  {
    var m := MachineOf(opts);
    forall st: State, r: Record | m.step(st, r).Ok? && |st.stats.counts| == TAGS
      ensures m.step(st, r).value.stats.counts == Counted(st.stats.counts, r.tag, st.current.Some?)
    {
      StepCounts(st, r, opts);
    }
    FinishCounts(opts);
  }

  lemma FinishCounts(opts: Options)
    ensures forall st: State, r: Record :: Finish(st, r, opts).Ok? ==> Finish(st, r, opts).value.stats.counts == st.stats.counts
  {}

  lemma {:induction false} RunCounts(m: Machine, rs: seq<Record>, n: nat)
    requires Counts(m) && KeepsAttribution(m, rs) && n <= |rs| && RunPrefix(m, rs, n, INITIAL).Ok?
    ensures TagsCounted(RunPrefix(m, rs, n, INITIAL).value.stats.counts, rs, n)
  {
    if n == 0 {
      NoneCounted(rs);
    } else {
      RunCounts(m, rs, n - 1);
      RunAttributes(m, rs, n - 1);
      CountNext(RunPrefix(m, rs, n - 1, INITIAL).value.stats.counts, rs, n - 1);
    }
  }

  lemma NoneCounted(rs: seq<Record>)
    ensures TagsCounted(INITIAL.stats.counts, rs, 0)
  {}

  lemma CountsOfRun(f: Format, m: Machine, data: seq<byte>) returns (rs: seq<Record>)
    requires Counts(m) && Attributes(m) && ParseWith(f, m, data).Ok?
    ensures IsRecordList(f, data, rs)
    ensures TagsCounted(ParseWith(f, m, data).value.value.stats.counts, rs, |rs| - 1)
  {
    var pos := DecLine(data, 0, 0).value.next;
    ParseIsPrefixRun(f, m, data, pos, INITIAL);
    rs := DecRecords(f, data, pos).value.value;
    RunCounts(m, rs, |rs| - 1);
  }

  // For every accepted dump each counter is the number of records of its kind.
  lemma ParsedCounts(lim: Limits, opts: Options, data: seq<byte>) returns (rs: seq<Record>)
    requires Parse(lim, opts, data).Ok?
    ensures IsRecordList(DumpFormat(Effective(lim)), data, rs)
    ensures TagsCounted(Parse(lim, opts, data).value.value.stats.counts, rs, |rs| - 1)
  {
    ParserAttributes(opts);
    ParserCounts(opts);
    rs := CountsOfRun(DumpFormat(Effective(lim)), MachineOf(opts), data);
  }
}
