// Dump records byte by byte, and the snapshot elements they are parsed into
// (internal/heapdump/parser.go, internal/heapsnapshot/model.go).
module DumpItems {
  import opened Words
  import opened Varint
  import opened Heap
  import opened Wire
  import opened Records

  // ---- Encoding ----

  function Bit(b: bool): nat { if b then 1 else 0 }

  // A length and that many bytes.
  function PutText(t: seq<byte>, k: seq<byte>): seq<byte>
  {
    PutUvarint(|t|, t + k)
  }

  // Kind and offset of each field, then a zero.
  function PutFieldList(fs: seq<Field>, k: seq<byte>): seq<byte>
  {
    if |fs| == 0 then PutUvarint(0, k) else PutUvarint(fs[0].kind, PutUvarint(fs[0].offset, PutFieldList(fs[1..], k)))
  }

  lemma {:induction false} SameFieldList(fs: seq<Field>, k: seq<byte>)
    ensures PutFieldList(fs, k) == PutFields(fs, k)
  {
    if |fs| > 0 {
      SameFieldList(fs[1..], k);
    }
  }

  lemma ValuesCons(v: Value, vs: seq<Value>, k: seq<byte>)
    ensures PutValues([v] + vs, k) == PutValue(v, PutValues(vs, k))
  {
    assert ([v] + vs)[1..] == vs;
  }

  lemma WordsConsPut(w: u64, ws: seq<u64>, k: seq<byte>)
    ensures PutWords([w] + ws, k) == PutUvarint(w, PutWords(ws, k))
  {
    assert ([w] + ws)[1..] == ws;
  }

  lemma OneWord(a: u64, k: seq<byte>)
    ensures PutWords([a], k) == PutUvarint(a, k)
  {
    WordsConsPut(a, [], k);
    assert [a] + [] == [a];
  }

  lemma ThreeWords(a: u64, b: u64, c: u64, k: seq<byte>)
    ensures PutWords([a, b, c], k) == PutUvarint(a, PutUvarint(b, PutUvarint(c, k)))
  {
    OneWord(c, k);
    WordsConsPut(b, [c], k);
    WordsConsPut(a, [b, c], k);
    assert [b] + [c] == [b, c] && [a] + [b, c] == [a, b, c];
  }

  lemma FourWords(a: u64, b: u64, c: u64, d: u64, k: seq<byte>)
    ensures PutWords([a, b, c, d], k) == PutUvarint(a, PutUvarint(b, PutUvarint(c, PutUvarint(d, k))))
  {
    ThreeWords(b, c, d, k);
    WordsConsPut(a, [b, c, d], k);
    assert [a] + [b, c, d] == [a, b, c, d];
  }

  lemma FiveWords(a: u64, b: u64, c: u64, d: u64, e: u64, k: seq<byte>)
    ensures PutWords([a, b, c, d, e], k) == PutUvarint(a, PutUvarint(b, PutUvarint(c, PutUvarint(d, PutUvarint(e, k)))))
  {
    FourWords(b, c, d, e, k);
    WordsConsPut(a, [b, c, d, e], k);
    assert [a] + [b, c, d, e] == [a, b, c, d, e];
  }

  // ---- Goroutines ----

  // Tag 4: address, stack top, ID, creating PC, status, two flags, wait time and reason,
  // then the four scheduler words.
  function PutGoroutine(g: HeapGoroutine, k: seq<byte>): seq<byte>
  {
    PutUvarint(4, PutUvarint(g.addr, PutUvarint(g.stackTop, PutUvarint(g.id, PutUvarint(g.goPC, PutUvarint(g.status, PutWait(g, k)))))))
  }

  function PutWait(g: HeapGoroutine, k: seq<byte>): seq<byte>
  {
    PutUvarint(Bit(g.isSystem), PutUvarint(Bit(g.isBackground), PutUvarint(g.waitSince, PutText(g.waitReason, PutSched(g.sched, k)))))
  }

  function PutSched(s: Sched, k: seq<byte>): seq<byte>
  {
    PutUvarint(s.ctxt, PutUvarint(s.m, PutUvarint(s.deferAddr, PutUvarint(s.panicAddr, k))))
  }

  function GoroutineRecord(g: HeapGoroutine): Record
  {
    Record(TAG_GOROUTINE, [Value.Words([g.addr, g.stackTop, g.id, g.goPC, g.status])] + WaitValues(g), [])
  }

  function WaitValues(g: HeapGoroutine): seq<Value>
  {
    [Flag(g.isSystem)] + ([Flag(g.isBackground)] + ([Value.Words([g.waitSince])] + ([Block(g.waitReason, 0)] + [SchedValue(g.sched)])))
  }

  function SchedValue(s: Sched): Value
  {
    Value.Words([s.ctxt, s.m, s.deferAddr, s.panicAddr])
  }

  lemma ValuesOne(v: Value, k: seq<byte>)
    ensures PutValues([v], k) == PutValue(v, k)
  {
    ValuesCons(v, [], k);
    assert [v] + [] == [v];
  }

  lemma WaitBytes(g: HeapGoroutine, k: seq<byte>)
    ensures PutValues(WaitValues(g), k) == PutWait(g, k)
  {
    var held := PutSched(g.sched, k);
    ValuesOne(SchedValue(g.sched), k);
    FourWords(g.sched.ctxt, g.sched.m, g.sched.deferAddr, g.sched.panicAddr, k);
    ValuesCons(Block(g.waitReason, 0), [SchedValue(g.sched)], k);
    var vs3 := [Block(g.waitReason, 0)] + [SchedValue(g.sched)];
    ValuesCons(Value.Words([g.waitSince]), vs3, k);
    OneWord(g.waitSince, PutText(g.waitReason, held));
    var vs2 := [Value.Words([g.waitSince])] + vs3;
    ValuesCons(Flag(g.isBackground), vs2, k);
    ValuesCons(Flag(g.isSystem), [Flag(g.isBackground)] + vs2, k);
  }

  lemma GoroutineBytes(g: HeapGoroutine, k: seq<byte>)
    ensures PutRecord(GoroutineRecord(g), k) == PutGoroutine(g, k)
  {
    ValuesCons(Value.Words([g.addr, g.stackTop, g.id, g.goPC, g.status]), WaitValues(g), k);
    WaitBytes(g, k);
    FiveWords(g.addr, g.stackTop, g.id, g.goPC, g.status, PutWait(g, k));
    assert PutValues([], k) == k;
  }

  // ---- Frames ----

  // Tag 5: stack pointer, depth, child's stack pointer, the frame's bytes, three code
  // addresses, the function's name and the fields.
  function PutFrame(fr: Frame, bytes: seq<byte>, k: seq<byte>): seq<byte>
    requires |fr.pcs| == 3
  {
    PutUvarint(5, PutUvarint(fr.sp, PutUvarint(fr.depth, PutUvarint(fr.childSP, PutText(bytes, PutCode(fr, k))))))
  }

  function PutCode(fr: Frame, k: seq<byte>): seq<byte>
    requires |fr.pcs| == 3
  {
    PutUvarint(fr.pcs[0], PutUvarint(fr.pcs[1], PutUvarint(fr.pcs[2], PutText(fr.funcName, PutFieldList(fr.fields, k)))))
  }

  function FrameRecord(fr: Frame, bytes: seq<byte>): Record
  {
    Record(TAG_STACK_FRAME, [Value.Words([fr.sp, fr.depth, fr.childSP])] + ([Block(bytes, 0)] + CodeValues(fr)), [])
  }

  function CodeValues(fr: Frame): seq<Value>
  {
    [Value.Words(fr.pcs)] + ([Block(fr.funcName, 0)] + [Fields(fr.fields)])
  }

  lemma CodeBytes(fr: Frame, k: seq<byte>)
    requires |fr.pcs| == 3
    ensures PutValues(CodeValues(fr), k) == PutCode(fr, k)
  {
    ValuesOne(Fields(fr.fields), k);
    SameFieldList(fr.fields, k);
    ValuesCons(Block(fr.funcName, 0), [Fields(fr.fields)], k);
    ValuesCons(Value.Words(fr.pcs), [Block(fr.funcName, 0)] + [Fields(fr.fields)], k);
    ThreeWords(fr.pcs[0], fr.pcs[1], fr.pcs[2], PutText(fr.funcName, PutFieldList(fr.fields, k)));
    assert fr.pcs == [fr.pcs[0], fr.pcs[1], fr.pcs[2]];
  }

  lemma FrameBytes(fr: Frame, bytes: seq<byte>, k: seq<byte>)
    requires |fr.pcs| == 3
    ensures PutRecord(FrameRecord(fr, bytes), k) == PutFrame(fr, bytes, k)
  {
    var vs := [Block(bytes, 0)] + CodeValues(fr);
    ValuesCons(Value.Words([fr.sp, fr.depth, fr.childSP]), vs, k);
    ValuesCons(Block(bytes, 0), CodeValues(fr), k);
    CodeBytes(fr, k);
    ThreeWords(fr.sp, fr.depth, fr.childSP, PutText(bytes, PutCode(fr, k)));
    assert PutValues([], k) == k;
  }

  // ---- Objects and segments ----

  // Address, contents and fields, under tag 1 for an object, 12 for data and 13 for bss.
  function PutRange(tag: u64, addr: u64, bytes: seq<byte>, fields: seq<Field>, k: seq<byte>): seq<byte>
  {
    PutUvarint(tag, PutUvarint(addr, PutText(bytes, PutFieldList(fields, k))))
  }

  function RangeRecord(tag: u64, addr: u64, bytes: seq<byte>, fields: seq<Field>): Record
  {
    Record(tag, [Value.Words([addr])] + ([Block(bytes, 0)] + [Fields(fields)]), [])
  }

  lemma RangeBytes(tag: u64, addr: u64, bytes: seq<byte>, fields: seq<Field>, k: seq<byte>)
    ensures PutRecord(RangeRecord(tag, addr, bytes, fields), k) == PutRange(tag, addr, bytes, fields, k)
  {
    ValuesOne(Fields(fields), k);
    SameFieldList(fields, k);
    ValuesCons(Block(bytes, 0), [Fields(fields)], k);
    ValuesCons(Value.Words([addr]), [Block(bytes, 0)] + [Fields(fields)], k);
    OneWord(addr, PutText(bytes, PutFieldList(fields, k)));
    assert PutValues([], k) == k;
  }

  // ---- Parameters ----

  // Tag 6: byte order, pointer width, the heap's bounds, two texts and the CPU count.
  function PutParams(p: Params, k: seq<byte>): seq<byte>
  {
    PutUvarint(6, PutUvarint(Bit(p.bigEndian), PutUvarint(p.ptrSize, PutUvarint(p.heapStart, PutUvarint(p.heapEnd, PutBuild(p, k))))))
  }

  function PutBuild(p: Params, k: seq<byte>): seq<byte>
  {
    PutText(p.goarch, PutText(p.buildVersion, PutUvarint(p.numCPU, k)))
  }

  function ParamsRecord(p: Params): Record
    requires p.ptrSize <= MAX_U64
  {
    Record(TAG_PARAMS, [Flag(p.bigEndian)] + ([Value.Words([p.ptrSize, p.heapStart, p.heapEnd])] + BuildValues(p)), [])
  }

  function BuildValues(p: Params): seq<Value>
  {
    [Block(p.goarch, 0)] + ([Block(p.buildVersion, 0)] + [Value.Words([p.numCPU])])
  }

  lemma BuildBytes(p: Params, k: seq<byte>)
    ensures PutValues(BuildValues(p), k) == PutBuild(p, k)
  {
    ValuesOne(Value.Words([p.numCPU]), k);
    OneWord(p.numCPU, k);
    ValuesCons(Block(p.buildVersion, 0), [Value.Words([p.numCPU])], k);
    ValuesCons(Block(p.goarch, 0), [Block(p.buildVersion, 0)] + [Value.Words([p.numCPU])], k);
  }

  lemma ParamsBytes(p: Params, k: seq<byte>)
    requires p.ptrSize <= MAX_U64
    ensures PutRecord(ParamsRecord(p), k) == PutParams(p, k)
  {
    var words := Value.Words([p.ptrSize, p.heapStart, p.heapEnd]);
    BuildBytes(p, k);
    ValuesCons(words, BuildValues(p), k);
    ValuesCons(Flag(p.bigEndian), [words] + BuildValues(p), k);
    ThreeWords(p.ptrSize, p.heapStart, p.heapEnd, PutBuild(p, k));
    assert PutValues([], k) == k;
  }

  // ---- Finalizers and other roots ----

  // Five words, under tag 7, or 11 for a queued finalizer.
  function PutFinalizer(tag: u64, f: Finalizer, k: seq<byte>): seq<byte>
    requires |f.rest| == 3
  {
    PutUvarint(tag, PutUvarint(f.objectAddr, PutUvarint(f.funcVal, PutUvarint(f.rest[0], PutUvarint(f.rest[1], PutUvarint(f.rest[2], k))))))
  }

  function FinalizerRecord(tag: u64, f: Finalizer): Record
    requires |f.rest| == 3
  {
    Record(tag, [Value.Words([f.objectAddr, f.funcVal, f.rest[0], f.rest[1], f.rest[2]])], [])
  }

  lemma FinalizerBytes(tag: u64, f: Finalizer, k: seq<byte>)
    requires |f.rest| == 3
    ensures PutRecord(FinalizerRecord(tag, f), k) == PutFinalizer(tag, f, k)
  {
    ValuesOne(Value.Words([f.objectAddr, f.funcVal, f.rest[0], f.rest[1], f.rest[2]]), k);
    FiveWords(f.objectAddr, f.funcVal, f.rest[0], f.rest[1], f.rest[2], k);
    assert PutValues([], k) == k;
  }

  // Tag 2: a description and a pointer.
  function PutOtherRoot(description: seq<byte>, ptr: u64, k: seq<byte>): seq<byte>
  {
    PutUvarint(2, PutText(description, PutUvarint(ptr, k)))
  }

  function OtherRootRecord(description: seq<byte>, ptr: u64): Record
  {
    Record(TAG_OTHER_ROOT, [Block(description, 0)] + [Value.Words([ptr])], [])
  }

  lemma OtherRootBytes(description: seq<byte>, ptr: u64, k: seq<byte>)
    ensures PutRecord(OtherRootRecord(description, ptr), k) == PutOtherRoot(description, ptr, k)
  {
    ValuesOne(Value.Words([ptr]), k);
    OneWord(ptr, k);
    ValuesCons(Block(description, 0), [Value.Words([ptr])], k);
    assert PutValues([], k) == k;
  }

  // ---- Every record is one of these ----

  // Where a block lies in a file is not written; here it is 0.
  ghost predicate IsPlain(r: Record)
  {
    forall i :: 0 <= i < |r.values| && r.values[i].Block? ==> r.values[i].at == 0
  }

  function PlainValue(v: Value): Value
  {
    if v.Block? then Block(v.bytes, 0) else v
  }

  function PlainValues(vs: seq<Value>): (ps: seq<Value>)
    ensures |ps| == |vs| && forall i :: 0 <= i < |vs| ==> ps[i] == PlainValue(vs[i])
  {
    if |vs| == 0 then [] else [PlainValue(vs[0])] + PlainValues(vs[1..])
  }

  function PlainRecord(r: Record): Record
  {
    Record(r.tag, PlainValues(r.values), PlainValues(r.more))
  }

  function PlainRecords(rs: seq<Record>): (ps: seq<Record>)
    ensures |ps| == |rs| && forall i :: 0 <= i < |rs| ==> ps[i] == PlainRecord(rs[i])
  {
    if |rs| == 0 then [] else [PlainRecord(rs[0])] + PlainRecords(rs[1..])
  }

  lemma {:induction false} PlainBytes(vs: seq<Value>, k: seq<byte>)
    ensures PutValues(PlainValues(vs), k) == PutValues(vs, k)
  {
    if |vs| > 0 {
      PlainBytes(vs[1..], k);
      assert PlainValues(vs)[1..] == PlainValues(vs[1..]);
    }
  }

  lemma {:induction false} PlainRecordsBytes(rs: seq<Record>, k: seq<byte>)
    ensures PutRecords(PlainRecords(rs), k) == PutRecords(rs, k)
  {
    if |rs| > 0 {
      PlainRecordsBytes(rs[1..], k);
      assert PlainRecords(rs)[1..] == PlainRecords(rs[1..]);
      PlainBytes(rs[0].more, PutRecords(rs[1..], k));
      PlainBytes(rs[0].values, PutValues(rs[0].more, PutRecords(rs[1..], k)));
    }
  }

  lemma PlainFits(lim: Limits, r: Record)
    requires RecordFits(DumpFormat(lim), r)
    ensures RecordFits(DumpFormat(lim), PlainRecord(r)) && IsPlain(PlainRecord(r))
  {
    var f := DumpFormat(lim);
    forall i | 0 <= i < |r.values|
      ensures Fits(PlainValues(r.values)[i], f.layout(r.tag).value[i], lim)
    {
      assert Fits(r.values[i], f.layout(r.tag).value[i], lim);
    }
    assert Announced(PlainValues(r.values)) == Announced(r.values);
    forall i | 0 <= i < |r.more|
      ensures Fits(PlainValues(r.more)[i], f.more(r.tag, Announced(r.values))[i], lim)
    {
      assert Fits(r.more[i], f.more(r.tag, Announced(r.values))[i], lim);
    }
  }

  // Every dump is the dump of plain records, byte for byte.
  lemma PlainEncodes(lim: Limits, rs: seq<Record>, k: seq<byte>) returns (ps: seq<Record>)
    requires WellFormed(DumpFormat(lim), rs)
    ensures WellFormed(DumpFormat(lim), ps) && (forall i :: 0 <= i < |ps| ==> IsPlain(ps[i]))
    ensures |ps| == |rs| && PutRecords(ps, k) == PutRecords(rs, k)
  {
    ps := PlainRecords(rs);
    PlainRecordsBytes(rs, k);
    forall i | 0 <= i < |ps|
      ensures RecordFits(DumpFormat(lim), ps[i]) && IsPlain(ps[i])
    {
      PlainFits(lim, rs[i]);
    }
  }

  // What a fitting record without announced fields looks like.
  ghost predicate IsLaidOut(r: Record, lim: Limits)
  {
    IsPlain(r) && RecordFits(DumpFormat(lim), r)
  }

  lemma GoroutineForm(r: Record, lim: Limits) returns (g: HeapGoroutine)
    requires IsLaidOut(r, lim) && r.tag == 4
    ensures g.frames == [] && r == GoroutineRecord(g)
  {
    var ps, vs := Layout(4).value, r.values;
    assert Fits(vs[0], ps[0], lim) && Fits(vs[1], ps[1], lim) && Fits(vs[2], ps[2], lim);
    assert Fits(vs[3], ps[3], lim) && Fits(vs[4], ps[4], lim) && Fits(vs[5], ps[5], lim);
    var head, s := vs[0].words, vs[5].words;
    g := HeapGoroutine(head[0], head[1], head[2], head[3], head[4], vs[1].flag, vs[2].flag, vs[3].words[0], vs[4].bytes,
                       Sched(s[0], s[1], s[2], s[3]), []);
    assert head == [g.addr, g.stackTop, g.id, g.goPC, g.status] && s == [s[0], s[1], s[2], s[3]] && vs[3].words == [g.waitSince];
  }

  lemma FrameForm(r: Record, lim: Limits) returns (fr: Frame, bytes: seq<byte>)
    requires IsLaidOut(r, lim) && r.tag == 5
    ensures r == FrameRecord(fr, bytes)
  {
    var ps, vs := Layout(5).value, r.values;
    assert Fits(vs[0], ps[0], lim) && Fits(vs[1], ps[1], lim) && Fits(vs[2], ps[2], lim) && Fits(vs[3], ps[3], lim) && Fits(vs[4], ps[4], lim);
    var head := vs[0].words;
    fr := Frame(head[0], head[1], head[2], vs[2].words, vs[3].bytes, 0, vs[4].fields, [], []);
    bytes := vs[1].bytes;
    assert head == [fr.sp, fr.depth, fr.childSP];
  }

  lemma RangeForm(r: Record, lim: Limits) returns (addr: u64, bytes: seq<byte>, fields: seq<Field>)
    requires IsLaidOut(r, lim) && r.tag in {1, 12, 13}
    ensures r == RangeRecord(r.tag, addr, bytes, fields)
  {
    var ps, vs := Layout(r.tag).value, r.values;
    assert Fits(vs[0], ps[0], lim) && Fits(vs[1], ps[1], lim) && Fits(vs[2], ps[2], lim);
    addr, bytes, fields := vs[0].words[0], vs[1].bytes, vs[2].fields;
    assert vs[0].words == [addr];
  }

  lemma ParamsForm(r: Record, lim: Limits) returns (p: Params)
    requires IsLaidOut(r, lim) && r.tag == 6
    ensures p.ptrSize <= MAX_U64 && r == ParamsRecord(p)
  {
    var ps, vs := Layout(6).value, r.values;
    assert Fits(vs[0], ps[0], lim) && Fits(vs[1], ps[1], lim) && Fits(vs[2], ps[2], lim) && Fits(vs[3], ps[3], lim) && Fits(vs[4], ps[4], lim);
    var ws := vs[1].words;
    p := Params(vs[0].flag, ws[0], ws[1], ws[2], vs[2].bytes, vs[3].bytes, vs[4].words[0]);
    assert ws == [p.ptrSize, p.heapStart, p.heapEnd] && vs[4].words == [p.numCPU];
  }

  lemma FinalizerForm(r: Record, lim: Limits) returns (f: Finalizer)
    requires IsLaidOut(r, lim) && r.tag in {7, 11}
    ensures |f.rest| == 3 && r == FinalizerRecord(r.tag, f)
  {
    assert Fits(r.values[0], Layout(r.tag).value[0], lim);
    var ws := r.values[0].words;
    f := Finalizer(ws[0], ws[1], [ws[2], ws[3], ws[4]]);
    assert ws == [f.objectAddr, f.funcVal, f.rest[0], f.rest[1], f.rest[2]];
  }

  lemma OtherRootForm(r: Record, lim: Limits) returns (description: seq<byte>, ptr: u64)
    requires IsLaidOut(r, lim) && r.tag == 2
    ensures r == OtherRootRecord(description, ptr)
  {
    var ps, vs := Layout(2).value, r.values;
    assert Fits(vs[0], ps[0], lim) && Fits(vs[1], ps[1], lim);
    description, ptr := vs[0].bytes, vs[1].words[0];
    assert vs[1].words == [ptr];
  }
}
