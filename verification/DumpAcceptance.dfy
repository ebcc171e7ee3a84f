// Which dumps the parser accepts (internal/heapdump/parser.go).
module DumpAcceptance {
  import opened Words
  import opened Wrappers
  import opened Varint
  import opened Heap
  import opened Wire
  import opened Records
  import opened Pointers
  import opened Dump
  import opened DumpFacts
  import opened DumpItems
  import opened ParsedItems

  // An object must end in the address space; strict parsing also wants parameters
  // before it and a readable pointer at every field.
  ghost predicate ObjectAccepted(opts: Options, addr: u64, bytes: seq<byte>, fields: seq<Field>, w: Option<Params>)
  {
    && addr + |bytes| <= MAX_U64
    && (opts.strict ==> w.Some? && Found(w, bytes, fields, 0, opts.keepOffsets).warnings == 0)
  }

  ghost predicate SegmentAccepted(opts: Options, addr: u64, bytes: seq<byte>, fields: seq<Field>, w: Option<Params>)
  {
    opts.strict ==> Found(w, bytes, fields, addr, true).warnings == 0
  }

  ghost predicate HasSection(rs: seq<Record>, n: nat)
  {
    exists p: nat :: InSection(rs, p, n)
  }

  // Strict parsing wants every frame in a goroutine's section.
  ghost predicate FrameAccepted(rs: seq<Record>, n: nat, opts: Options, fr: Frame, bytes: seq<byte>, w: Option<Params>)
  {
    opts.strict ==> Found(w, bytes, fr.fields, fr.sp, true).warnings == 0 && HasSection(rs, n)
  }

  ghost predicate ParamsFine(r: Record)
  {
    forall p: Params :: p.ptrSize <= MAX_U64 && r == ParamsRecord(p) ==> p.ptrSize == 4 || p.ptrSize == 8
  }

  ghost predicate ObjectFine(rs: seq<Record>, n: nat, opts: Options)
    requires n < |rs|
  {
    forall addr: u64, bytes: seq<byte>, fields: seq<Field>, w: Option<Params> ::
      rs[n] == RangeRecord(1, addr, bytes, fields) && InForce(rs, n, w) ==> ObjectAccepted(opts, addr, bytes, fields, w)
  }

  ghost predicate SegmentFine(rs: seq<Record>, n: nat, opts: Options, tag: u64)
    requires n < |rs|
  {
    forall addr: u64, bytes: seq<byte>, fields: seq<Field>, w: Option<Params> ::
      rs[n] == RangeRecord(tag, addr, bytes, fields) && InForce(rs, n, w) ==> SegmentAccepted(opts, addr, bytes, fields, w)
  }

  ghost predicate FrameFine(rs: seq<Record>, n: nat, opts: Options)
    requires n < |rs|
  {
    forall fr: Frame, bytes: seq<byte>, w: Option<Params> ::
      rs[n] == FrameRecord(fr, bytes) && InForce(rs, n, w) ==> FrameAccepted(rs, n, opts, fr, bytes, w)
  }

  // Every other record is accepted.
  ghost predicate IsAccepted(rs: seq<Record>, n: nat, opts: Options)
    requires n < |rs|
  {
    ParamsFine(rs[n]) && ObjectFine(rs, n, opts) && SegmentFine(rs, n, opts, 12) && SegmentFine(rs, n, opts, 13) && FrameFine(rs, n, opts)
  }

  // ---- Steps ----

  // What a step needs, on the record as it was read.
  lemma ParamsStep(st: State, r: Record, opts: Options)
    requires r.tag == TAG_PARAMS
    ensures Step(st, r, opts).Ok? <==> PointerWidth(Word(r.values, 1, 0))
  {}

  lemma ObjectStep(st: State, r: Record, opts: Options)
    requires r.tag == TAG_OBJECT
    ensures var x := Decode(st, BytesOf(r.values, 1), FieldsOf(r.values, 2), 0, opts.keepOffsets);
      Step(st, r, opts).Ok? <==>
        Word(r.values, 0, 0) + |BytesOf(r.values, 1)| <= MAX_U64 && (opts.strict ==> st.haveParams && x.warnings == 0)
  {}

  lemma SegmentStep(st: State, r: Record, opts: Options)
    requires r.tag in {TAG_DATA, TAG_BSS}
    ensures var x := Decode(st, BytesOf(r.values, 1), FieldsOf(r.values, 2), Word(r.values, 0, 0), true);
      Step(st, r, opts).Ok? <==> (opts.strict ==> x.warnings == 0)
  {}

  lemma FrameStep(st: State, r: Record, opts: Options)
    requires r.tag == TAG_STACK_FRAME
    ensures var x := Decode(st, BytesOf(r.values, 1), FieldsOf(r.values, 4), Word(r.values, 0, 0), true);
      Step(st, r, opts).Ok? <==> (opts.strict ==> x.warnings == 0 && st.current.Some?)
  {}

  lemma OtherStep(st: State, r: Record, opts: Options)
    requires r.tag !in {TAG_PARAMS, TAG_OBJECT, TAG_DATA, TAG_BSS, TAG_STACK_FRAME}
    ensures Step(st, r, opts).Ok?
  {}

  lemma Decoded(st: State, rs: seq<Record>, ps: seq<Record>, n: nat, w: Option<Params>, bytes: seq<byte>, fields: seq<Field>, container: u64, withSlots: bool)
    requires SameRecords(rs, ps) && n < |rs| && InForce(rs, n, w) && ParamsKnown(st, ps, n)
    ensures Decode(st, bytes, fields, container, withSlots) == Found(w, bytes, fields, container, withSlots) && st.haveParams == w.Some?
  {
    ParamsFound(rs, ps, n, w);
  }

  ghost predicate AllLaidOut(rs: seq<Record>, n: nat, lim: Limits)
    requires n <= |rs|
  {
    forall i :: 0 <= i < n ==> IsLaidOut(rs[i], lim)
  }

  lemma ParamsAccepted(st: State, rs: seq<Record>, ps: seq<Record>, n: nat, lim: Limits, opts: Options)
    requires SameRecords(rs, ps) && n < |rs| && AllLaidOut(rs, n + 1, lim) && rs[n].tag == 6
    ensures Step(st, ps[n], opts).Ok? <==> ParamsFine(rs[n])
  {
    var p := ParamsForm(rs[n], lim);
    assert ps[n].tag == 6;
    ParamsStep(st, ps[n], opts);
    forall q: Params | q.ptrSize <= MAX_U64 && rs[n] == ParamsRecord(q)
      ensures Word(ps[n].values, 1, 0) == q.ptrSize
    {
      ParamsRead(rs, ps, n, q);
    }
  }

  lemma ObjectDecides(st: State, rs: seq<Record>, ps: seq<Record>, n: nat, opts: Options, addr: u64, bytes: seq<byte>, fields: seq<Field>, w: Option<Params>)
    requires SameRecords(rs, ps) && n < |rs| && ParamsKnown(st, ps, n)
    requires rs[n] == RangeRecord(1, addr, bytes, fields) && InForce(rs, n, w)
    ensures Step(st, ps[n], opts).Ok? <==> ObjectAccepted(opts, addr, bytes, fields, w)
  {
    assert ps[n].tag == 1;
    RangeRead(rs, ps, n, 1, addr, bytes, fields);
    ObjectStep(st, ps[n], opts);
    Decoded(st, rs, ps, n, w, bytes, fields, 0, opts.keepOffsets);
  }

  lemma SegmentDecides(st: State, rs: seq<Record>, ps: seq<Record>, n: nat, opts: Options, tag: u64, addr: u64, bytes: seq<byte>, fields: seq<Field>, w: Option<Params>)
    requires SameRecords(rs, ps) && n < |rs| && ParamsKnown(st, ps, n) && tag in {12, 13}
    requires rs[n] == RangeRecord(tag, addr, bytes, fields) && InForce(rs, n, w)
    ensures Step(st, ps[n], opts).Ok? <==> SegmentAccepted(opts, addr, bytes, fields, w)
  {
    assert ps[n].tag == tag;
    RangeRead(rs, ps, n, tag, addr, bytes, fields);
    SegmentStep(st, ps[n], opts);
    Decoded(st, rs, ps, n, w, bytes, fields, addr, true);
  }

  lemma InSectionMeans(rs: seq<Record>, ps: seq<Record>, n: nat)
    requires SameRecords(rs, ps) && n <= |rs|
    ensures OwnerAt(ps, n).Some? <==> HasSection(rs, n)
  {
    if OwnerAt(ps, n).Some? {
      OwnerMeans(ps, n, OwnerAt(ps, n).value);
      var p: nat :| SectionRuns(ps, p, n, OwnerAt(ps, n).value);
      forall q | p < q < n
        ensures rs[q].tag in {5, 14, 15}
      {
        assert ps[q].tag in {TAG_STACK_FRAME, TAG_DEFER, TAG_PANIC};
      }
      assert InSection(rs, p, n);
    }
    if p: nat :| InSection(rs, p, n) {
      SameSections(rs, ps, p, n);
      SectionLength(ps, p, n);
    }
  }

  lemma FrameDecides(st: State, rs: seq<Record>, ps: seq<Record>, n: nat, opts: Options, fr: Frame, bytes: seq<byte>, w: Option<Params>)
    requires SameRecords(rs, ps) && n < |rs| && ParamsKnown(st, ps, n) && st.current == OwnerAt(ps, n)
    requires rs[n] == FrameRecord(fr, bytes) && InForce(rs, n, w)
    ensures Step(st, ps[n], opts).Ok? <==> FrameAccepted(rs, n, opts, fr, bytes, w)
  {
    var vs, ws := rs[n].values, ps[n].values;
    assert ps[n].tag == 5;
    assert SameField(vs[0], ws[0]) && SameField(vs[1], ws[1]) && SameField(vs[4], ws[4]);
    FrameStep(st, ps[n], opts);
    Decoded(st, rs, ps, n, w, bytes, fr.fields, fr.sp, true);
    InSectionMeans(rs, ps, n);
  }

  // ---- Each kind of record on its own: all its readings decide alike ----

  lemma ObjectsAgree(ok: bool, rs: seq<Record>, n: nat, lim: Limits, opts: Options)
    requires n < |rs| && AllLaidOut(rs, n + 1, lim) && rs[n].tag == 1
    requires forall addr: u64, bytes: seq<byte>, fields: seq<Field>, w: Option<Params> ::
      rs[n] == RangeRecord(1, addr, bytes, fields) && InForce(rs, n, w) ==> (ok <==> ObjectAccepted(opts, addr, bytes, fields, w))
    ensures ok <==> ObjectFine(rs, n, opts)
  {
    var addr, bytes, fields := RangeForm(rs[n], lim);
    var w := SomeInForce(rs, n, lim);
    assert rs[n] == RangeRecord(1, addr, bytes, fields) && InForce(rs, n, w);
  }

  lemma SegmentsAgree(ok: bool, rs: seq<Record>, n: nat, lim: Limits, opts: Options, tag: u64)
    requires n < |rs| && AllLaidOut(rs, n + 1, lim) && rs[n].tag == tag && tag in {12, 13}
    requires forall addr: u64, bytes: seq<byte>, fields: seq<Field>, w: Option<Params> ::
      rs[n] == RangeRecord(tag, addr, bytes, fields) && InForce(rs, n, w) ==> (ok <==> SegmentAccepted(opts, addr, bytes, fields, w))
    ensures ok <==> SegmentFine(rs, n, opts, tag)
  {
    var addr, bytes, fields := RangeForm(rs[n], lim);
    var w := SomeInForce(rs, n, lim);
    assert rs[n] == RangeRecord(tag, addr, bytes, fields) && InForce(rs, n, w);
  }

  lemma FramesAgree(ok: bool, rs: seq<Record>, n: nat, lim: Limits, opts: Options)
    requires n < |rs| && AllLaidOut(rs, n + 1, lim) && rs[n].tag == 5
    requires forall fr: Frame, bytes: seq<byte>, w: Option<Params> ::
      rs[n] == FrameRecord(fr, bytes) && InForce(rs, n, w) ==> (ok <==> FrameAccepted(rs, n, opts, fr, bytes, w))
    ensures ok <==> FrameFine(rs, n, opts)
  {
    var fr, bytes := FrameForm(rs[n], lim);
    var w := SomeInForce(rs, n, lim);
    assert rs[n] == FrameRecord(fr, bytes) && InForce(rs, n, w);
  }

  lemma ObjectsAccepted(st: State, rs: seq<Record>, ps: seq<Record>, n: nat, lim: Limits, opts: Options)
    requires SameRecords(rs, ps) && n < |rs| && AllLaidOut(rs, n + 1, lim) && ParamsKnown(st, ps, n) && rs[n].tag == 1
    ensures Step(st, ps[n], opts).Ok? <==> ObjectFine(rs, n, opts)
  {
    forall addr: u64, bytes: seq<byte>, fields: seq<Field>, w: Option<Params> | rs[n] == RangeRecord(1, addr, bytes, fields) && InForce(rs, n, w)
      ensures Step(st, ps[n], opts).Ok? <==> ObjectAccepted(opts, addr, bytes, fields, w)
    {
      ObjectDecides(st, rs, ps, n, opts, addr, bytes, fields, w);
    }
    ObjectsAgree(Step(st, ps[n], opts).Ok?, rs, n, lim, opts);
  }

  lemma SegmentsAccepted(st: State, rs: seq<Record>, ps: seq<Record>, n: nat, lim: Limits, opts: Options)
    requires SameRecords(rs, ps) && n < |rs| && AllLaidOut(rs, n + 1, lim) && ParamsKnown(st, ps, n) && rs[n].tag in {12, 13}
    ensures Step(st, ps[n], opts).Ok? <==> SegmentFine(rs, n, opts, rs[n].tag)
  {
    var tag := rs[n].tag;
    forall addr: u64, bytes: seq<byte>, fields: seq<Field>, w: Option<Params> | rs[n] == RangeRecord(tag, addr, bytes, fields) && InForce(rs, n, w)
      ensures Step(st, ps[n], opts).Ok? <==> SegmentAccepted(opts, addr, bytes, fields, w)
    {
      SegmentDecides(st, rs, ps, n, opts, tag, addr, bytes, fields, w);
    }
    SegmentsAgree(Step(st, ps[n], opts).Ok?, rs, n, lim, opts, tag);
  }

  lemma FramesAccepted(st: State, rs: seq<Record>, ps: seq<Record>, n: nat, lim: Limits, opts: Options)
    requires SameRecords(rs, ps) && n < |rs| && AllLaidOut(rs, n + 1, lim) && ParamsKnown(st, ps, n) && st.current == OwnerAt(ps, n)
    requires rs[n].tag == 5
    ensures Step(st, ps[n], opts).Ok? <==> FrameFine(rs, n, opts)
  {
    forall fr: Frame, bytes: seq<byte>, w: Option<Params> | rs[n] == FrameRecord(fr, bytes) && InForce(rs, n, w)
      ensures Step(st, ps[n], opts).Ok? <==> FrameAccepted(rs, n, opts, fr, bytes, w)
    {
      FrameDecides(st, rs, ps, n, opts, fr, bytes, w);
    }
    FramesAgree(Step(st, ps[n], opts).Ok?, rs, n, lim, opts);
  }

  lemma OnlyOneKind(rs: seq<Record>, n: nat, opts: Options)
    requires n < |rs|
    ensures rs[n].tag != 6 ==> ParamsFine(rs[n])
    ensures rs[n].tag != 1 ==> ObjectFine(rs, n, opts)
    ensures forall tag: u64 :: rs[n].tag != tag ==> SegmentFine(rs, n, opts, tag)
    ensures rs[n].tag != 5 ==> FrameFine(rs, n, opts)
  {}

  lemma StepAccepts(st: State, rs: seq<Record>, ps: seq<Record>, n: nat, lim: Limits, opts: Options)
    requires SameRecords(rs, ps) && n < |rs| && AllLaidOut(rs, n + 1, lim) && ParamsKnown(st, ps, n) && st.current == OwnerAt(ps, n)
    ensures Step(st, ps[n], opts).Ok? <==> IsAccepted(rs, n, opts)
  {
    OnlyOneKind(rs, n, opts);
    var t := rs[n].tag;
    if t == 6 {
      ParamsAccepted(st, rs, ps, n, lim, opts);
    } else if t == 1 {
      ObjectsAccepted(st, rs, ps, n, lim, opts);
    } else if t in {12, 13} {
      SegmentsAccepted(st, rs, ps, n, lim, opts);
    } else if t == 5 {
      FramesAccepted(st, rs, ps, n, lim, opts);
    } else {
      assert ps[n].tag == t;
      OtherStep(st, ps[n], opts);
    }
  }

  // ---- Whole dumps ----

  // Steps succeed exactly on the accepted records.
  ghost predicate Decides(m: Machine, ps: seq<Record>, last: nat, accepted: nat -> bool)
    requires last <= |ps|
  {
    forall st: State, n: nat {:trigger m.step(st, ps[n])} ::
      n < last && ParamsKnown(st, ps, n) && st.current == OwnerAt(ps, n) ==> (m.step(st, ps[n]).Ok? <==> accepted(n))
  }

  lemma StepDecided(m: Machine, ps: seq<Record>, n: nat, last: nat, st: State, accepted: nat -> bool)
    requires n < last <= |ps| && Decides(m, ps, last, accepted) && Attributed(st, ps, n)
    ensures m.step(st, ps[n]).Ok? <==> accepted(n)
  {}

  lemma PrefixDecided(m: Machine, ps: seq<Record>, n: nat, last: nat, accepted: nat -> bool)
    requires n < last <= |ps| && KeepsAttribution(m, ps) && Decides(m, ps, last, accepted)
    ensures RunPrefix(m, ps, n + 1, INITIAL).Ok? <==> RunPrefix(m, ps, n, INITIAL).Ok? && accepted(n)
  {
    if RunPrefix(m, ps, n, INITIAL).Ok? {
      RunAttributes(m, ps, n);
      StepDecided(m, ps, n, last, RunPrefix(m, ps, n, INITIAL).value, accepted);
    }
  }

  lemma {:induction false} RunAccepts(m: Machine, ps: seq<Record>, n: nat, last: nat, accepted: nat -> bool)
    requires n <= last <= |ps| && KeepsAttribution(m, ps) && Decides(m, ps, last, accepted)
    ensures RunPrefix(m, ps, n, INITIAL).Ok? <==> forall i: nat :: i < n ==> accepted(i)
  {
    if n > 0 {
      RunAccepts(m, ps, n - 1, last, accepted);
      PrefixDecided(m, ps, n - 1, last, accepted);
    }
  }

  lemma {:induction false} PrefixFails(m: Machine, rs: seq<Record>, n: nat, st: State)
    requires 0 < n <= |rs| && m.step(st, rs[0]).Err?
    ensures RunPrefix(m, rs, n, st).Err?
  {
    if n == 1 {
      assert RunPrefix(m, rs, 0, st) == Ok(st);
    } else {
      PrefixFails(m, rs, n - 1, st);
    }
  }

  ghost predicate LastEnds(f: Format, m: Machine, rs: seq<Record>)
  {
    && |rs| > 0 && (forall i :: 0 <= i < |rs| - 1 ==> !IsLast(f, rs[i])) && IsLast(f, rs[|rs| - 1])
    && forall st: State, r: Record {:trigger m.finish(st, r)} :: r == rs[|rs| - 1] ==> m.finish(st, r).Ok?
  }

  // A run succeeds when the steps before the last record do.
  lemma {:induction false} RunIsPrefix(f: Format, m: Machine, rs: seq<Record>, st: State)
    requires LastEnds(f, m, rs)
    ensures Run(f, m, rs, st).Ok? <==> RunPrefix(m, rs, |rs| - 1, st).Ok?
    decreases |rs|
  {
    if |rs| > 1 {
      assert LastEnds(f, m, rs[1..]);
      if m.step(st, rs[0]).Ok? {
        RunIsPrefix(f, m, rs[1..], m.step(st, rs[0]).value);
        PrefixShift(m, rs, |rs| - 2, st);
      } else {
        PrefixFails(m, rs, |rs| - 1, st);
      }
    }
  }

  lemma ParserDecides(rs: seq<Record>, ps: seq<Record>, lim: Limits, opts: Options, accepted: nat -> bool)
    requires SameRecords(rs, ps) && |rs| > 0 && AllLaidOut(rs, |rs|, lim)
    requires forall n: nat :: n < |rs| ==> (accepted(n) <==> IsAccepted(rs, n, opts))
    ensures Decides(MachineOf(opts), ps, |ps| - 1, accepted)
  {
    var m := MachineOf(opts);
    forall st: State, n: nat | n < |ps| - 1 && ParamsKnown(st, ps, n) && st.current == OwnerAt(ps, n)
      ensures m.step(st, ps[n]).Ok? <==> accepted(n)
    {
      StepAccepts(st, rs, ps, n, lim, opts);
    }
  }

  lemma EndsAreFine(rs: seq<Record>, ps: seq<Record>, lim: Limits, opts: Options)
    requires WellFormed(DumpFormat(lim), rs) && SameRecords(rs, ps)
    ensures LastEnds(DumpFormat(lim), MachineOf(opts), ps)
  {
    forall i | 0 <= i < |ps| - 1
      ensures !IsLast(DumpFormat(lim), ps[i])
    {
      assert ps[i].tag == rs[i].tag;
    }
    assert ps[|ps| - 1].tag == 0;
  }

  lemma RunDecided(f: Format, m: Machine, ps: seq<Record>, accepted: nat -> bool)
    requires LastEnds(f, m, ps) && KeepsAttribution(m, ps) && Decides(m, ps, |ps| - 1, accepted)
    ensures Run(f, m, ps, INITIAL).Ok? <==> forall n: nat :: n < |ps| - 1 ==> accepted(n)
  {
    RunIsPrefix(f, m, ps, INITIAL);
    RunAccepts(m, ps, |ps| - 1, |ps| - 1, accepted);
  }

  // Parsing the bytes of any dump succeeds if and only if every record is accepted.
  lemma AcceptedIff(lim: Limits, opts: Options, rs: seq<Record>, k: seq<byte>)
    requires WellFormed(DumpFormat(Effective(lim)), rs) && forall i :: 0 <= i < |rs| ==> IsPlain(rs[i])
    ensures Parse(lim, opts, Encode(rs, k)).Ok? <==> forall n: nat :: n < |rs| - 1 ==> IsAccepted(rs, n, opts)
  {
    var f, m, ps := DumpFormat(Effective(lim)), MachineOf(opts), PlacedRecords(rs, k, |Encode(rs, k)|);
    DumpRoundTrip(lim, opts, rs, k);
    PlacedList(rs, k, |Encode(rs, k)|);
    ghost var accepted: nat -> bool := (n: nat) => n < |rs| && IsAccepted(rs, n, opts);
    EndsAreFine(rs, ps, Effective(lim), opts);
    ParserDecides(rs, ps, Effective(lim), opts, accepted);
    ParserKeepsAttribution(opts, ps);
    RunDecided(f, m, ps, accepted);
    assert forall n: nat :: n < |rs| - 1 ==> (accepted(n) <==> IsAccepted(rs, n, opts));
  }
}
