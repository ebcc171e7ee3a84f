// The record stream of a heap dump (internal/heapdump/records.go, parser.go).
module Records {
  import opened Words
  import opened Wrappers
  import opened Varint
  import opened Wire

  const TAG_EOF: u64 := 0
  const TAG_OBJECT: u64 := 1
  const TAG_OTHER_ROOT: u64 := 2
  const TAG_TYPE: u64 := 3
  const TAG_GOROUTINE: u64 := 4
  const TAG_STACK_FRAME: u64 := 5
  const TAG_PARAMS: u64 := 6
  const TAG_FINALIZER: u64 := 7
  const TAG_ITAB: u64 := 8
  const TAG_OS_THREAD: u64 := 9
  const TAG_MEM_STATS: u64 := 10
  const TAG_QUEUED_FINALIZER: u64 := 11
  const TAG_DATA: u64 := 12
  const TAG_BSS: u64 := 13
  const TAG_DEFER: u64 := 14
  const TAG_PANIC: u64 := 15
  const TAG_MEM_PROF: u64 := 16
  const TAG_ALLOC_SAMPLE: u64 := 17

  // "go1.7 heap dump"
  const HEADER: seq<byte> := [103, 111, 49, 46, 55, 32, 104, 101, 97, 112, 32, 100, 117, 109, 112]
  const NEWLINE: byte := 10
  const MAX_LINE: nat := 1024

  // more holds the fields whose number the record itself announces.
  datatype Record = Record(tag: u64, values: seq<Value>, more: seq<Value>)

  // The fields of a record; no record has an unknown tag.
  function Layout(tag: u64): Option<seq<Part>>
  {
    match tag
    case 0 => Some([])
    case 1 => Some([WordsOf(1), BlockPart(false), FieldsPart])
    case 2 => Some([BlockPart(true), WordsOf(1)])
    case 3 => Some([WordsOf(2), BlockPart(true), FlagPart])
    case 4 => Some([WordsOf(5), FlagPart, FlagPart, WordsOf(1), BlockPart(true), WordsOf(4)])
    case 5 => Some([WordsOf(3), BlockPart(false), WordsOf(3), BlockPart(true), FieldsPart])
    case 6 => Some([FlagPart, WordsOf(3), BlockPart(true), BlockPart(true), WordsOf(1)])
    case 7 => Some([WordsOf(5)])
    case 8 => Some([WordsOf(2)])
    case 9 => Some([WordsOf(3)])
    case 10 => Some([WordsOf(281)])
    case 11 => Some([WordsOf(5)])
    case 12 => Some([WordsOf(1), BlockPart(false), FieldsPart])
    case 13 => Some([WordsOf(1), BlockPart(false), FieldsPart])
    case 14 => Some([WordsOf(7)])
    case 15 => Some([WordsOf(6)])
    case 16 => Some([WordsOf(3)])
    case 17 => Some([WordsOf(2)])
    case _ => None
  }

  // Function, file and line of each of n allocation frames.
  function FrameParts(n: nat): seq<Part>
  {
    if n == 0 then [] else [BlockPart(true), BlockPart(true), WordsOf(1)] + FrameParts(n - 1)
  }

  // A memory profile announces its stack depth and ends with two counters.
  function MoreParts(tag: u64, n: nat): seq<Part>
  {
    if tag == TAG_MEM_PROF then FrameParts(n) + [WordsOf(2)] else []
  }

  // The number a record's first three words end with.
  function Announced(values: seq<Value>): nat
  {
    if |values| == 1 && values[0].Words? && |values[0].words| == 3 then values[0].words[2] else 0
  }

  // A table of layouts with the limits on blocks.
  datatype Format = Format(layout: u64 -> Option<seq<Part>>, more: (u64, nat) -> seq<Part>, lim: Limits)

  function DumpFormat(lim: Limits): Format
  {
    Format(Layout, MoreParts, lim)
  }

  // Reading stops at the end record and at the first unknown tag.
  predicate IsLast(f: Format, r: Record)
  {
    r.tag == TAG_EOF || f.layout(r.tag).None?
  }

  function DecRecord(f: Format, data: seq<byte>, pos: nat): (r: Result<Got<Record>, ReadError>)
    ensures r.Ok? ==> pos < r.value.next
    ensures r.Ok? && pos <= |data| ==> r.value.next <= |data|
    ensures r.Ok? ==> pos < |data|
  {
    var tag :- Uvarint(data, pos);
    match f.layout(tag.value)
    case None => Ok(Got(Record(tag.value, [], []), tag.next))
    case Some(ps) =>
      var vs :- DecParts(ps, f.lim, data, tag.next);
      var more :- DecParts(f.more(tag.value, Announced(vs.value)), f.lim, data, vs.next);
      Ok(Got(Record(tag.value, vs.value, more.value), more.next))
  }

  // All records up to and including the last.
  function DecRecords(f: Format, data: seq<byte>, pos: nat): (r: Result<Got<seq<Record>>, ReadError>)
    ensures r.Ok? ==> pos <= r.value.next
    ensures r.Ok? && pos <= |data| ==> r.value.next <= |data|
    decreases |data| - pos
  {
    var rec :- DecRecord(f, data, pos);
    if IsLast(f, rec.value) then Ok(Got([rec.value], rec.next))
    else
      var more :- DecRecords(f, data, rec.next);
      Ok(Got([rec.value] + more.value, more.next))
  }

  // The line at pos, n bytes of which were read; at most MAX_LINE.
  function DecLine(data: seq<byte>, pos: nat, n: nat): (r: Result<Got<seq<byte>>, ReadError>)
    ensures r.Ok? ==> pos < r.value.next
    ensures r.Ok? && pos <= |data| ==> r.value.next <= |data|
    decreases |data| - pos
  {
    if n >= MAX_LINE then Err(HeaderTooLong)
    else if pos >= |data| then Err(if n == 0 then EOF else Truncated)
    else if data[pos] == NEWLINE then Ok(Got([], pos + 1))
    else
      var more :- DecLine(data, pos + 1, n + 1);
      Ok(Got([data[pos]] + more.value, more.next))
  }

  // ---- Encoding ----

  function PutRecord(r: Record, k: seq<byte>): seq<byte>
  {
    PutUvarint(r.tag, PutValues(r.values, PutValues(r.more, k)))
  }

  function PutRecords(rs: seq<Record>, k: seq<byte>): seq<byte>
  {
    if |rs| == 0 then k else PutRecord(rs[0], PutRecords(rs[1..], k))
  }

  function PutLine(line: seq<byte>, k: seq<byte>): seq<byte>
  {
    if |line| == 0 then [NEWLINE] + k else [line[0]] + PutLine(line[1..], k)
  }

  // The record has the fields of its layout, within the limits.
  predicate RecordFits(f: Format, r: Record)
  {
    && f.layout(r.tag).Some? && AllFit(r.values, f.layout(r.tag).value, f.lim)
    && AllFit(r.more, f.more(r.tag, Announced(r.values)), f.lim)
  }

  // A dump body: complete records, the last one the end record.
  predicate WellFormed(f: Format, rs: seq<Record>)
  {
    && |rs| > 0 && rs[|rs| - 1].tag == TAG_EOF
    && (forall i :: 0 <= i < |rs| ==> RecordFits(f, rs[i]))
    && (forall i :: 0 <= i < |rs| - 1 ==> rs[i].tag != TAG_EOF)
  }

  // The record as it is read back: its blocks know their file offsets.
  function PlacedRecord(r: Record, k: seq<byte>, length: nat): Record
  {
    Record(r.tag, PlacedAll(r.values, PutValues(r.more, k), length), PlacedAll(r.more, k, length))
  }

  function PlacedRecords(rs: seq<Record>, k: seq<byte>, length: nat): (r: seq<Record>)
    ensures |r| == |rs|
    decreases |rs|
  {
    if |rs| == 0 then []
    else [PlacedRecord(rs[0], PutRecords(rs[1..], k), length)] + PlacedRecords(rs[1..], k, length)
  }

  // Offsets play no part in the layout.
  lemma SameAnnounced(values: seq<Value>, k: seq<byte>, length: nat)
    ensures Announced(PlacedAll(values, k, length)) == Announced(values)
  {
    if |values| == 1 {
      assert PlacedAll(values, k, length)[0] == Placed(values[0], PutValues(values[1..], k), length);
    }
  }

  lemma RecordCons(f: Format, data: seq<byte>, pos: nat, tag: u64, next: nat, ps: seq<Part>,
                   vs: seq<Value>, mid: nat, more: seq<Value>, last: nat)
    requires Uvarint(data, pos) == Ok(Got(tag, next)) && f.layout(tag) == Some(ps)
    requires DecParts(ps, f.lim, data, next) == Ok(Got(vs, mid))
    requires DecParts(f.more(tag, Announced(vs)), f.lim, data, mid) == Ok(Got(more, last))
    ensures DecRecord(f, data, pos) == Ok(Got(Record(tag, vs, more), last))
  {}

  // The two groups of fields of one record.
  lemma FieldsRoundTrip(f: Format, data: seq<byte>, r: Record, k: seq<byte>)
    requires RecordFits(f, r)
    requires var all := PutValues(r.values, PutValues(r.more, k)); |all| <= |data| && At(data, |data| - |all|, all)
    ensures var more := PutValues(r.more, k);
      var all := PutValues(r.values, more);
      && Reads(DecParts(f.layout(r.tag).value, f.lim, data, |data| - |all|), PlacedAll(r.values, more, |data|), data, more)
      && Reads(DecParts(f.more(r.tag, Announced(r.values)), f.lim, data, |data| - |more|), PlacedAll(r.more, k, |data|), data, k)
  {
    var more := PutValues(r.more, k);
    var all := PutValues(r.values, more);
    ValuesRoundTrip(data, |data| - |all|, r.values, f.layout(r.tag).value, f.lim, more);
    ValuesRoundTrip(data, |data| - |more|, r.more, f.more(r.tag, Announced(r.values)), f.lim, k);
  }

  // Tag and fields that read back make a record that reads back.
  lemma RecordAssembled(f: Format, data: seq<byte>, pos: nat, r: Record, k: seq<byte>, next: nat)
    requires RecordFits(f, r) && Uvarint(data, pos) == Ok(Got(r.tag, next))
    requires var more := PutValues(r.more, k);
      && Reads(DecParts(f.layout(r.tag).value, f.lim, data, next), PlacedAll(r.values, more, |data|), data, more)
      && Reads(DecParts(f.more(r.tag, Announced(r.values)), f.lim, data, |data| - |more|), PlacedAll(r.more, k, |data|), data, k)
    ensures Reads(DecRecord(f, data, pos), PlacedRecord(r, k, |data|), data, k)
  {
    var more := PutValues(r.more, k);
    SameAnnounced(r.values, more, |data|);
    RecordCons(f, data, pos, r.tag, next, f.layout(r.tag).value,
               PlacedAll(r.values, more, |data|), |data| - |more|, PlacedAll(r.more, k, |data|), |data| - |k|);
  }

  lemma RecordRoundTrip(f: Format, data: seq<byte>, pos: nat, r: Record, k: seq<byte>)
    requires RecordFits(f, r) && At(data, pos, PutRecord(r, k))
    ensures Reads(DecRecord(f, data, pos), PlacedRecord(r, k, |data|), data, k)
  {
    var all := PutValues(r.values, PutValues(r.more, k));
    UvarintRoundTrip(data, pos, r.tag, all);
    FieldsRoundTrip(f, data, r, k);
    RecordAssembled(f, data, pos, r, k, |data| - |all|);
  }

  lemma PlacedIsNotLast(f: Format, r: Record, k: seq<byte>, length: nat)
    ensures IsLast(f, PlacedRecord(r, k, length)) <==> IsLast(f, r)
  {}

  lemma RestFits(f: Format, rs: seq<Record>)
    requires WellFormed(f, rs) && |rs| > 1
    ensures WellFormed(f, rs[1..])
  {}

  lemma RecordsCons(f: Format, data: seq<byte>, pos: nat, r: Record, next: nat, more: seq<Record>, last: nat)
    requires DecRecord(f, data, pos) == Ok(Got(r, next)) && !IsLast(f, r)
    requires DecRecords(f, data, next) == Ok(Got(more, last))
    ensures DecRecords(f, data, pos) == Ok(Got([r] + more, last))
  {}

  // One record in front of a list that reads back.
  lemma ReadsCons(f: Format, data: seq<byte>, pos: nat, r: Record, next: nat, more: seq<Record>, k: seq<byte>)
    requires DecRecord(f, data, pos) == Ok(Got(r, next)) && !IsLast(f, r)
    requires Reads(DecRecords(f, data, next), more, data, k)
    ensures Reads(DecRecords(f, data, pos), [r] + more, data, k)
  {
    RecordsCons(f, data, pos, r, next, more, |data| - |k|);
  }

  lemma StepRoundTrip(f: Format, data: seq<byte>, pos: nat, r: Record, rest: seq<byte>, tail: seq<Record>, k: seq<byte>)
    requires RecordFits(f, r) && !IsLast(f, r) && At(data, pos, PutRecord(r, rest)) && |rest| <= |data|
    requires Reads(DecRecords(f, data, |data| - |rest|), tail, data, k)
    ensures Reads(DecRecords(f, data, pos), [PlacedRecord(r, rest, |data|)] + tail, data, k)
  {
    var placed, next := PlacedRecord(r, rest, |data|), |data| - |rest|;
    RecordRoundTrip(f, data, pos, r, rest);
    PlacedIsNotLast(f, r, rest, |data|);
    ReadsCons(f, data, pos, placed, next, tail, k);
  }

  lemma RestFollows(f: Format, data: seq<byte>, pos: nat, r: Record, rest: seq<byte>)
    requires RecordFits(f, r) && At(data, pos, PutRecord(r, rest))
    ensures |rest| <= |data| && At(data, |data| - |rest|, rest)
  {
    RecordRoundTrip(f, data, pos, r, rest);
  }

  lemma PlacedStep(rs: seq<Record>, k: seq<byte>, length: nat)
    requires |rs| > 1
    ensures PlacedRecords(rs, k, length) == [PlacedRecord(rs[0], PutRecords(rs[1..], k), length)] + PlacedRecords(rs[1..], k, length)
  {}

  lemma FirstFits(f: Format, data: seq<byte>, pos: nat, rs: seq<Record>, k: seq<byte>)
    requires WellFormed(f, rs) && |rs| > 1 && At(data, pos, PutRecords(rs, k))
    ensures RecordFits(f, rs[0]) && !IsLast(f, rs[0]) && At(data, pos, PutRecord(rs[0], PutRecords(rs[1..], k)))
  {}

  lemma PlacedOne(rs: seq<Record>, k: seq<byte>, length: nat)
    requires |rs| == 1
    ensures PutRecords(rs, k) == PutRecord(rs[0], k) && PlacedRecords(rs, k, length) == [PlacedRecord(rs[0], k, length)]
  {
    assert rs[1..] == [];
  }

  // A whole body is read back record by record, whatever follows it.
  lemma {:induction false} RecordsRoundTrip(f: Format, data: seq<byte>, pos: nat, rs: seq<Record>, k: seq<byte>)
    requires WellFormed(f, rs) && At(data, pos, PutRecords(rs, k))
    ensures Reads(DecRecords(f, data, pos), PlacedRecords(rs, k, |data|), data, k)
    decreases |rs|
  {
    if |rs| == 1 {
      PlacedOne(rs, k, |data|);
      RecordRoundTrip(f, data, pos, rs[0], k);
    } else {
      var rest := PutRecords(rs[1..], k);
      RestFits(f, rs);
      FirstFits(f, data, pos, rs, k);
      RestFollows(f, data, pos, rs[0], rest);
      RecordsRoundTrip(f, data, |data| - |rest|, rs[1..], k);
      StepRoundTrip(f, data, pos, rs[0], rest, PlacedRecords(rs[1..], k, |data|), k);
      PlacedStep(rs, k, |data|);
    }
  }

  lemma {:induction false} LineRoundTrip(data: seq<byte>, pos: nat, line: seq<byte>, n: nat, k: seq<byte>)
    requires n + |line| < MAX_LINE && NEWLINE !in line && At(data, pos, PutLine(line, k))
    ensures Reads(DecLine(data, pos, n), line, data, k)
    decreases |line|
  {
    if |line| == 0 {
      AtNext(data, pos, NEWLINE, k);
    } else {
      AtNext(data, pos, line[0], PutLine(line[1..], k));
      LineRoundTrip(data, pos + 1, line[1..], n + 1, k);
      assert [line[0]] + line[1..] == line;
    }
  }

  // ---- Decoding does not look ahead ----

  lemma RecordExtends(f: Format, data: seq<byte>, pos: nat, k: seq<byte>)
    requires DecRecord(f, data, pos).Ok?
    ensures DecRecord(f, data + k, pos) == DecRecord(f, data, pos)
  {
    UvarintExtends(data, pos, k);
    var tag := Uvarint(data, pos).value;
    match f.layout(tag.value)
    case None =>
    case Some(ps) =>
      PartsExtend(ps, f.lim, data, tag.next, k);
      var vs := DecParts(ps, f.lim, data, tag.next).value;
      PartsExtend(f.more(tag.value, Announced(vs.value)), f.lim, data, vs.next, k);
  }

  lemma {:induction false} LineExtends(data: seq<byte>, pos: nat, n: nat, k: seq<byte>)
    requires DecLine(data, pos, n).Ok?
    ensures DecLine(data + k, pos, n) == DecLine(data, pos, n)
    decreases |data| - pos
  {
    if data[pos] != NEWLINE {
      LineExtends(data, pos + 1, n + 1, k);
    }
  }
}
