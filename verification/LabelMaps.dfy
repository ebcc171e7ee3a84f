// Decoding pprof label maps from goroutine memory
// (internal/heaplabels/decode.go, layout.go).
module LabelMaps {
  import opened Words
  import opened Wrappers
  import opened AddressSpace
  import Endian

  type Text = seq<byte>

  datatype SliceLayout = SliceLayout(data: u64, len: u64, cap: u64)
  datatype StringLayout = StringLayout(data: u64, len: u64)
  datatype LabelLayout = LabelLayout(size: u64, key: u64, value: u64)

  // Offsets inside runtime.g, the label map, slices, labels and strings.
  datatype Layout = Layout(ptrSize: nat, bigEndian: bool, gLabels: u64, mapSet: u64, setList: u64,
                           slice: SliceLayout, str: StringLayout, entry: LabelLayout)

  datatype Limits = Limits(maxLabels: u64, maxStringLen: u64)

  datatype Status =
    | NoLabels | Decoded | UnsupportedRuntime
    | GObjectMissing | LabelsObjectMissing | LabelArrayMissing | StringMissing | Malformed

  // structural reads the maps and headers, body the characters.
  datatype Source = Source(structural: Reader, body: Reader, layout: Layout, limits: Limits)
  {
    ghost predicate Valid()
    {
      IsReader(structural) && IsReader(body)
    }

    function Word(addr: u64): Option<u64>
    {
      ReadUintptr(structural, addr, layout.ptrSize, layout.bigEndian)
    }
  }

  // Zero limits select the defaults.
  function Normalized(l: Limits): Limits
  {
    Limits(if l.maxLabels == 0 then 1024 else l.maxLabels, if l.maxStringLen == 0 then 0x10_0000 else l.maxStringLen)
  }

  // Exact sum, or malformed when it leaves the address space.
  function Offset(addr: nat, delta: nat): Result<u64, Status>
  {
    if addr + delta <= MAX_U64 then Ok(addr + delta) else Err(Malformed)
  }

  function Require<T>(x: Option<T>, s: Status): Result<T, Status>
  {
    match x case Some(v) => Ok(v) case None => Err(s)
  }

  // ---- What is decoded, in exact arithmetic ----

  function StringAt(src: Source, header: u64): Result<Text, Status>
  {
    var l := Normalized(src.limits);
    var dataAddr :- Offset(header, src.layout.str.data);
    var lenAddr :- Offset(header, src.layout.str.len);
    var data :- Require(src.Word(dataAddr), StringMissing);
    var length :- Require(src.Word(lenAddr), StringMissing);
    if length > l.maxStringLen then Err(Malformed)
    else if length == 0 then Ok([])
    else if data == 0 then Err(StringMissing)
    else Require(ReadString(src.body, data, length, l.maxStringLen), StringMissing)
  }

  datatype SliceHeader = SliceHeader(data: u64, len: u64, cap: u64)

  // The header of the label list of the map at addr.
  function HeaderAt(src: Source, addr: u64): Result<SliceHeader, Status>
  {
    var setAddr :- Offset(addr, src.layout.mapSet);
    var list :- Offset(setAddr, src.layout.setList);
    var dataAddr :- Offset(list, src.layout.slice.data);
    var lenAddr :- Offset(list, src.layout.slice.len);
    var capAddr :- Offset(list, src.layout.slice.cap);
    var data :- Require(src.Word(dataAddr), LabelsObjectMissing);
    var len :- Require(src.Word(lenAddr), LabelsObjectMissing);
    var cap :- Require(src.Word(capAddr), LabelsObjectMissing);
    Ok(SliceHeader(data, len, cap))
  }

  type StringReader = u64 -> Result<Text, Status>

  function StringsIn(src: Source): StringReader
  {
    (header: u64) => StringAt(src, header)
  }

  // Key and value of the label at entry, given how strings are read.
  function EntryFrom(e: LabelLayout, strings: StringReader, entry: u64): Result<(Text, Text), Status>
  {
    var keyAddr :- Offset(entry, e.key);
    var valueAddr :- Offset(entry, e.value);
    var key :- strings(keyAddr);
    var value :- strings(valueAddr);
    Ok((key, value))
  }

  function LabelFrom(e: LabelLayout, strings: StringReader, data: u64, i: nat): Result<(Text, Text), Status>
  {
    var entry :- Offset(data, i * e.size);
    EntryFrom(e, strings, entry)
  }

  // Label i of the array at data.
  function LabelAt(src: Source, data: u64, i: nat): Result<(Text, Text), Status>
  {
    LabelFrom(src.layout.entry, StringsIn(src), data, i)
  }

  type LabelReader = nat -> Result<(Text, Text), Status>

  function LabelsIn(src: Source, data: u64): LabelReader
  {
    (i: nat) => LabelAt(src, data, i)
  }

  // The first n labels; a later value replaces an earlier one.
  function LabelsUpTo(f: LabelReader, n: nat): Result<map<Text, Text>, Status>
  {
    if n == 0 then Ok(map[])
    else
      var m :- LabelsUpTo(f, n - 1);
      var kv :- f(n - 1);
      Ok(m[kv.0 := kv.1])
  }

  // The array a header describes, given how its labels are read.
  function ArrayFrom(src: Source, labels: LabelReader, h: SliceHeader): Result<map<Text, Text>, Status>
  {
    if h.len > h.cap || h.len > Normalized(src.limits).maxLabels then Err(Malformed)
    else if h.len == 0 then Ok(map[])
    else if h.data == 0 then Err(LabelArrayMissing)
    else if h.len * src.layout.entry.size > MAX_U64 then Err(Malformed)
    else if src.structural(h.data, h.len * src.layout.entry.size).None? then Err(LabelArrayMissing)
    else LabelsUpTo(labels, h.len)
  }

  function ArrayAt(src: Source, h: SliceHeader): Result<map<Text, Text>, Status>
  {
    ArrayFrom(src, LabelsIn(src, h.data), h)
  }

  function LabelMapAt(src: Source, addr: u64): Result<map<Text, Text>, Status>
  {
    var h :- HeaderAt(src, addr);
    ArrayAt(src, h)
  }

  datatype GoroutineLabels = GoroutineLabels(status: Status, labels: map<Text, Text>)

  // The labels of the goroutine whose runtime.g lies at addr.
  function LabelsOfGoroutine(src: Source, addr: u64): GoroutineLabels
  {
    if src.layout.ptrSize != 4 && src.layout.ptrSize != 8 then GoroutineLabels(UnsupportedRuntime, map[])
    else if addr + src.layout.gLabels > MAX_U64 then GoroutineLabels(Malformed, map[])
    else
      match src.Word(addr + src.layout.gLabels)
      case None => GoroutineLabels(GObjectMissing, map[])
      case Some(p) =>
        if p == 0 then GoroutineLabels(NoLabels, map[])
        else
          match LabelMapAt(src, p)
          case Err(s) => GoroutineLabels(s, map[])
          case Ok(m) => GoroutineLabels(Decoded, m)
  }

  // ---- The decoder, in wrapping arithmetic ----

  method Add(a: u64, b: u64) returns (r: Result<u64, Status>)
    ensures r == Offset(a, b)
  {
    AddIsExact(a, b);
    var c := AddUint64(a, b);
    return if c.1 then Ok(c.0) else Err(Malformed);
  }

  method DecodeString(src: Source, header: u64) returns (r: Result<Text, Status>)
    ensures r == StringAt(src, header)
  {
    var l := Normalized(src.limits);
    var dataAddr :- Add(header, src.layout.str.data);
    var lenAddr :- Add(header, src.layout.str.len);
    var data := src.Word(dataAddr);
    if data.None? {
      return Err(StringMissing);
    }
    var length := src.Word(lenAddr);
    if length.None? {
      return Err(StringMissing);
    }
    if length.value > l.maxStringLen {
      return Err(Malformed);
    }
    if length.value == 0 {
      return Ok([]);
    }
    if data.value == 0 {
      return Err(StringMissing);
    }
    return Require(ReadString(src.body, data.value, length.value, l.maxStringLen), StringMissing);
  }

  method DecodeHeader(src: Source, addr: u64) returns (r: Result<SliceHeader, Status>)
    ensures r == HeaderAt(src, addr)
  {
    var setAddr :- Add(addr, src.layout.mapSet);
    var list :- Add(setAddr, src.layout.setList);
    var dataAddr :- Add(list, src.layout.slice.data);
    var lenAddr :- Add(list, src.layout.slice.len);
    var capAddr :- Add(list, src.layout.slice.cap);
    var data := src.Word(dataAddr);
    if data.None? {
      return Err(LabelsObjectMissing);
    }
    var len := src.Word(lenAddr);
    if len.None? {
      return Err(LabelsObjectMissing);
    }
    var cap := src.Word(capAddr);
    if cap.None? {
      return Err(LabelsObjectMissing);
    }
    return Ok(SliceHeader(data.value, len.value, cap.value));
  }

  // i * size cannot wrap once the size of the whole array did not.
  lemma ProductFits(i: nat, n: nat, size: nat)
    requires i < n && n * size <= MAX_U64
    ensures i * size <= MAX_U64
    ensures (i * size) % TWO64 == i * size
  {
    assert n * size == i * size + (n - i) * size;
    assert (n - i) * size >= 0;
    ModSmall(i * size);
  }

  method DecodeEntry(src: Source, entry: u64) returns (r: Result<(Text, Text), Status>)
    ensures r == EntryFrom(src.layout.entry, StringsIn(src), entry)
  {
    var keyAddr :- Add(entry, src.layout.entry.key);
    var valueAddr :- Add(entry, src.layout.entry.value);
    var key :- DecodeString(src, keyAddr);
    var value :- DecodeString(src, valueAddr);
    return Ok((key, value));
  }

  method DecodeLabel(src: Source, data: u64, i: u64, n: nat) returns (r: Result<(Text, Text), Status>)
    requires i < n && n * src.layout.entry.size <= MAX_U64
    ensures r == LabelsIn(src, data)(i)
  {
    ProductFits(i, n, src.layout.entry.size);
    var entry :- Add(data, WrapMul(i, src.layout.entry.size));
    r := DecodeEntry(src, entry);
  }

  method DecodeArray(src: Source, h: SliceHeader) returns (r: Result<map<Text, Text>, Status>)
    ensures r == ArrayAt(src, h)
  {
    if h.len > h.cap {
      return Err(Malformed);
    }
    if h.len > Normalized(src.limits).maxLabels {
      return Err(Malformed);
    }
    if h.len == 0 {
      return Ok(map[]);
    }
    if h.data == 0 {
      return Err(LabelArrayMissing);
    }
    MulIsExact(h.len, src.layout.entry.size);
    var bytes := MulUint64(h.len, src.layout.entry.size);
    if !bytes.1 {
      return Err(Malformed);
    }
    if src.structural(h.data, bytes.0).None? {
      return Err(LabelArrayMissing);
    }
    var labels: map<Text, Text> := map[];
    ghost var f := LabelsIn(src, h.data);
    for i := 0 to h.len
      invariant LabelsUpTo(f, i) == Ok(labels)
    {
      var kv := DecodeLabel(src, h.data, i, h.len);
      if kv.Err? {
        StopsAt(f, i, h.len);
        return Err(kv.error);
      }
      labels := labels[kv.value.0 := kv.value.1];
    }
    return Ok(labels);
  }

  // The first label that fails decides.
  lemma {:induction false} StopsAt(f: LabelReader, i: nat, n: nat)
    requires i < n && LabelsUpTo(f, i).Ok? && f(i).Err?
    ensures LabelsUpTo(f, n) == Err(f(i).error)
  {
    if i < n - 1 {
      StopsAt(f, i, n - 1);
    }
  }

  method DecodeLabelMap(src: Source, addr: u64) returns (r: Result<map<Text, Text>, Status>)
    ensures r == LabelMapAt(src, addr)
  {
    var h :- DecodeHeader(src, addr);
    r := DecodeArray(src, h);
  }

  method DecodeLabelsForGoroutine(src: Source, addr: u64) returns (r: GoroutineLabels)
    ensures r == LabelsOfGoroutine(src, addr)
    ensures src.Valid() ==> Reports(src, addr, r)
  {
    if src.Valid() {
      ResultReports(src, addr);
    }
    if src.layout.ptrSize != 4 && src.layout.ptrSize != 8 {
      return GoroutineLabels(UnsupportedRuntime, map[]);
    }
    var field := Add(addr, src.layout.gLabels);
    if field.Err? {
      return GoroutineLabels(Malformed, map[]);
    }
    var p := src.Word(field.value);
    if p.None? {
      return GoroutineLabels(GObjectMissing, map[]);
    }
    if p.value == 0 {
      return GoroutineLabels(NoLabels, map[]);
    }
    var m := DecodeLabelMap(src, p.value);
    return if m.Err? then GoroutineLabels(m.error, map[]) else GoroutineLabels(Decoded, m.value);
  }

  // ---- Laid-out maps decode to themselves ----

  // The word x, encoded, lies at addr.
  ghost predicate HoldsWord(src: Source, addr: nat, x: nat)
  {
    var l := src.layout;
    && addr <= MAX_U64 && (l.ptrSize == 4 || l.ptrSize == 8) && x < Endian.Pow256(l.ptrSize)
    && src.structural(addr, l.ptrSize) == Some(Endian.Bytes(x, l.ptrSize, l.bigEndian))
  }

  lemma WordIs(src: Source, addr: u64, x: nat)
    requires src.Valid()
    ensures HoldsWord(src, addr, x) <==> src.Word(addr).Some? && src.Word(addr).value == x
  {
    var l := src.layout;
    if l.ptrSize == 4 || l.ptrSize == 8 {
      if HoldsWord(src, addr, x) {
        Endian.ValueOfBytes(x, l.ptrSize, l.bigEndian);
      }
      if src.Word(addr).Some? {
        Endian.BytesOfValue(src.structural(addr, l.ptrSize).value, l.bigEndian);
      }
    }
  }

  // The header's data word leads to the bytes of t, if there are any.
  ghost predicate PointsTo(src: Source, header: nat, data: u64, t: Text)
  {
    && HoldsWord(src, header + src.layout.str.data, data) && |t| <= MAX_U64
    && (|t| > 0 ==> data != 0 && src.body(data, |t|) == Some(t))
  }

  // A string header at header for the text t, whose bytes the body reader has.
  ghost predicate HoldsString(src: Source, header: nat, t: Text)
  {
    && |t| <= Normalized(src.limits).maxStringLen
    && HoldsWord(src, header + src.layout.str.len, |t|)
    && exists data: u64 :: PointsTo(src, header, data, t)
  }

  lemma StringIs(src: Source, header: u64, t: Text)
    requires src.Valid()
    ensures HoldsString(src, header, t) <==> StringAt(src, header) == Ok(t)
  {
    if HoldsString(src, header, t) {
      HeldStringDecodes(src, header, t);
    }
    if StringAt(src, header) == Ok(t) {
      DecodedStringWasHeld(src, header, t);
    }
  }

  lemma HeldStringDecodes(src: Source, header: u64, t: Text)
    requires src.Valid() && HoldsString(src, header, t)
    ensures StringAt(src, header) == Ok(t)
  {
    var dataAddr, lenAddr := header + src.layout.str.data, header + src.layout.str.len;
    var data: u64 :| PointsTo(src, header, data, t);
    WordIs(src, lenAddr, |t|);
    WordIs(src, dataAddr, data);
  }

  lemma DecodedStringWasHeld(src: Source, header: u64, t: Text)
    requires src.Valid() && StringAt(src, header) == Ok(t)
    ensures HoldsString(src, header, t)
  {
    var dataAddr, lenAddr := header + src.layout.str.data, header + src.layout.str.len;
    var data, length := src.Word(dataAddr).value, src.Word(lenAddr).value;
    assert length > 0 ==> src.body(data, length) == Some(t);
    assert |t| == length;
    WordIs(src, lenAddr, length);
    WordIs(src, dataAddr, data);
    assert PointsTo(src, header, data, t);
  }

  // holds(a, t): the text t is laid out behind the header at a.
  type Holding = (nat, Text) -> bool

  ghost function HeldIn(src: Source): Holding
  {
    (header: nat, t: Text) => HoldsString(src, header, t)
  }

  ghost predicate HoldsEntry(e: LabelLayout, holds: Holding, entry: nat, kv: (Text, Text))
  {
    && entry + e.key <= MAX_U64 && entry + e.value <= MAX_U64
    && holds(entry + e.key, kv.0) && holds(entry + e.value, kv.1)
  }

  ghost predicate HoldsEntries(e: LabelLayout, holds: Holding, data: nat, labels: seq<(Text, Text)>)
  {
    forall i :: 0 <= i < |labels| ==> HoldsEntry(e, holds, data + i * e.size, labels[i])
  }

  // Reading returns what is laid out and nothing else.
  ghost predicate Matches(holds: Holding, f: StringReader)
  {
    forall header: u64, t: Text :: holds(header, t) <==> f(header) == Ok(t)
  }

  lemma HeldMatches(src: Source)
    requires src.Valid()
    ensures Matches(HeldIn(src), StringsIn(src))
  {
    forall header: u64, t: Text
      ensures HeldIn(src)(header, t) <==> StringsIn(src)(header) == Ok(t)
    {
      StringIs(src, header, t);
    }
  }

  lemma LabelMatches(e: LabelLayout, holds: Holding, f: StringReader, data: u64, i: nat, kv: (Text, Text))
    requires Matches(holds, f)
    ensures HoldsEntry(e, holds, data + i * e.size, kv) <==> LabelFrom(e, f, data, i) == Ok(kv)
  {}

  function LastWins(labels: seq<(Text, Text)>): map<Text, Text>
  {
    if |labels| == 0 then map[]
    else
      var kv := labels[|labels| - 1];
      LastWins(labels[..|labels| - 1])[kv.0 := kv.1]
  }

  predicate IsLastOf(labels: seq<(Text, Text)>, k: Text, i: int)
  {
    0 <= i < |labels| && labels[i].0 == k && forall j :: i < j < |labels| ==> labels[j].0 != k
  }

  lemma {:induction false} LastWinsKeys(labels: seq<(Text, Text)>, k: Text)
    ensures k in LastWins(labels) <==> exists i :: 0 <= i < |labels| && labels[i].0 == k
  {
    if |labels| > 0 {
      var n := |labels| - 1;
      var before := labels[..n];
      LastWinsKeys(before, k);
      if k in LastWins(before) {
        var i :| 0 <= i < |before| && before[i].0 == k;
        assert labels[i].0 == k;
      }
      if i :| 0 <= i < n && labels[i].0 == k {
        assert before[i].0 == k;
      }
    }
  }

  lemma {:induction false} LastWinsValue(labels: seq<(Text, Text)>, k: Text, i: nat)
    requires IsLastOf(labels, k, i)
    ensures k in LastWins(labels) && LastWins(labels)[k] == labels[i].1
  {
    var n := |labels| - 1;
    if i < n {
      assert labels[n].0 != k;
      LastWinsValue(labels[..n], k, i);
    }
  }

  // Exactly the keys listed, each with the value listed last.
  lemma LastWinsMeans(labels: seq<(Text, Text)>, k: Text)
    ensures k in LastWins(labels) <==> exists i :: 0 <= i < |labels| && labels[i].0 == k
    ensures forall i :: IsLastOf(labels, k, i) ==> LastWins(labels)[k] == labels[i].1
  {
    LastWinsKeys(labels, k);
    forall i | IsLastOf(labels, k, i)
      ensures k in LastWins(labels) && LastWins(labels)[k] == labels[i].1
    {
      LastWinsValue(labels, k, i);
    }
  }

  ghost predicate HoldsArray(src: Source, data: nat, labels: seq<(Text, Text)>)
  {
    HoldsEntries(src.layout.entry, HeldIn(src), data, labels)
  }

  // The reader returns these labels.
  ghost predicate Returns(f: LabelReader, labels: seq<(Text, Text)>)
  {
    forall i :: 0 <= i < |labels| ==> f(i) == Ok(labels[i])
  }

  lemma {:induction false} CollectsLastWins(f: LabelReader, labels: seq<(Text, Text)>)
    requires Returns(f, labels)
    ensures LabelsUpTo(f, |labels|) == Ok(LastWins(labels))
  {
    if |labels| > 0 {
      CollectsLastWins(f, labels[..|labels| - 1]);
    }
  }

  lemma {:induction false} Collected(f: LabelReader, n: nat) returns (labels: seq<(Text, Text)>)
    requires LabelsUpTo(f, n).Ok?
    ensures |labels| == n && Returns(f, labels)
  {
    if n == 0 {
      labels := [];
    } else {
      var before := Collected(f, n - 1);
      labels := before + [f(n - 1).value];
    }
  }

  lemma EntriesMatch(e: LabelLayout, holds: Holding, f: StringReader, data: u64, labels: seq<(Text, Text)>, g: LabelReader)
    requires Matches(holds, f) && forall i: nat :: g(i) == LabelFrom(e, f, data, i)
    ensures HoldsEntries(e, holds, data, labels) <==> Returns(g, labels)
  {
    if HoldsEntries(e, holds, data, labels) {
      forall i | 0 <= i < |labels|
        ensures g(i) == Ok(labels[i])
      {
        LabelMatches(e, holds, f, data, i, labels[i]);
      }
    }
    if Returns(g, labels) {
      forall i | 0 <= i < |labels|
        ensures HoldsEntry(e, holds, data + i * e.size, labels[i])
      {
        assert g(i) == Ok(labels[i]);
        LabelMatches(e, holds, f, data, i, labels[i]);
      }
    }
  }

  lemma ArrayIs(src: Source, data: u64, labels: seq<(Text, Text)>)
    requires src.Valid()
    ensures HoldsArray(src, data, labels) <==> Returns(LabelsIn(src, data), labels)
  {
    HeldMatches(src);
    assert forall i: nat :: LabelsIn(src, data)(i) == LabelFrom(src.layout.entry, StringsIn(src), data, i);
    EntriesMatch(src.layout.entry, HeldIn(src), StringsIn(src), data, labels, LabelsIn(src, data));
  }

  ghost predicate HoldsHeader(src: Source, addr: nat, h: SliceHeader)
  {
    var list := addr + src.layout.mapSet + src.layout.setList;
    && list <= MAX_U64
    && HoldsWord(src, list + src.layout.slice.data, h.data)
    && HoldsWord(src, list + src.layout.slice.len, h.len)
    && HoldsWord(src, list + src.layout.slice.cap, h.cap)
  }

  // A label list within the limits, laid out at addr.
  ghost predicate HoldsLabels(src: Source, addr: nat, h: SliceHeader, labels: seq<(Text, Text)>)
  {
    && HoldsHeader(src, addr, h) && h.len == |labels| <= h.cap && |labels| <= Normalized(src.limits).maxLabels
    && (|labels| > 0 ==>
          && h.data != 0 && |labels| * src.layout.entry.size <= MAX_U64
          && src.structural(h.data, |labels| * src.layout.entry.size).Some?
          && HoldsArray(src, h.data, labels))
  }

  lemma HeaderIs(src: Source, addr: u64, h: SliceHeader)
    requires src.Valid()
    ensures HoldsHeader(src, addr, h) <==> HeaderAt(src, addr) == Ok(h)
  {
    var list := addr + src.layout.mapSet + src.layout.setList;
    var d, l, c := list + src.layout.slice.data, list + src.layout.slice.len, list + src.layout.slice.cap;
    if d <= MAX_U64 && l <= MAX_U64 && c <= MAX_U64 {
      WordIs(src, d, h.data);
      WordIs(src, l, h.len);
      WordIs(src, c, h.cap);
    }
  }

  // The header announces labels that f returns, within the limits.
  ghost predicate Announces(src: Source, f: LabelReader, h: SliceHeader, labels: seq<(Text, Text)>)
  {
    && h.len == |labels| <= h.cap && |labels| <= Normalized(src.limits).maxLabels
    && (|labels| > 0 ==>
          && h.data != 0 && |labels| * src.layout.entry.size <= MAX_U64
          && src.structural(h.data, |labels| * src.layout.entry.size).Some?
          && Returns(f, labels))
  }

  lemma AnnouncedDecodes(src: Source, f: LabelReader, h: SliceHeader, labels: seq<(Text, Text)>)
    requires Announces(src, f, h, labels)
    ensures ArrayFrom(src, f, h) == Ok(LastWins(labels))
  {
    if |labels| > 0 {
      CollectsLastWins(f, labels);
    }
  }

  lemma DecodedWasAnnounced(src: Source, f: LabelReader, h: SliceHeader) returns (labels: seq<(Text, Text)>)
    requires ArrayFrom(src, f, h).Ok?
    ensures Announces(src, f, h, labels)
  {
    labels := [];
    if h.len > 0 {
      labels := Collected(f, h.len);
    }
  }

  // Whatever list is laid out, decoding returns its last-value-wins map, for
  // 4- and 8-byte pointers in either byte order.
  lemma LaidOutMapDecodes(src: Source, addr: u64, h: SliceHeader, labels: seq<(Text, Text)>)
    requires src.Valid() && HoldsLabels(src, addr, h, labels)
    ensures LabelMapAt(src, addr) == Ok(LastWins(labels))
  {
    HeaderIs(src, addr, h);
    ArrayIs(src, h.data, labels);
    AnnouncedDecodes(src, LabelsIn(src, h.data), h, labels);
  }

  // ... and whatever decodes was such a list.
  lemma DecodedMapWasLaidOut(src: Source, addr: u64) returns (h: SliceHeader, labels: seq<(Text, Text)>)
    requires src.Valid() && LabelMapAt(src, addr).Ok?
    ensures HoldsLabels(src, addr, h, labels)
  {
    h := HeaderAt(src, addr).value;
    HeaderIs(src, addr, h);
    labels := DecodedWasAnnounced(src, LabelsIn(src, h.data), h);
    ArrayIs(src, h.data, labels);
  }

  // ---- Extra string memory ----

  // b answers at least what a answers, alike.
  ghost predicate Extends(a: Reader, b: Reader)
  {
    forall addr: u64, size: u64 {:trigger a(addr, size)} :: a(addr, size).Some? ==> b(addr, size) == a(addr, size)
  }

  lemma MoreBytesString(src: Source, body: Reader, header: u64)
    requires Extends(src.body, body)
    ensures StringAt(src, header) != Err(StringMissing) ==> StringAt(src.(body := body), header) == StringAt(src, header)
  {}

  // g agrees with f wherever f does not miss a string.
  ghost predicate RefinesStrings(f: StringReader, g: StringReader)
  {
    forall header: u64 {:trigger f(header)} :: f(header) != Err(StringMissing) ==> g(header) == f(header)
  }

  lemma MoreBytesStrings(src: Source, body: Reader)
    requires Extends(src.body, body)
    ensures RefinesStrings(StringsIn(src), StringsIn(src.(body := body)))
  {
    forall header: u64
      ensures StringAt(src, header) != Err(StringMissing) ==> StringAt(src.(body := body), header) == StringAt(src, header)
    {
      MoreBytesString(src, body, header);
    }
  }

  lemma MoreBytesEntry(e: LabelLayout, f: StringReader, g: StringReader, entry: u64)
    requires RefinesStrings(f, g)
    ensures EntryFrom(e, f, entry) != Err(StringMissing) ==> EntryFrom(e, g, entry) == EntryFrom(e, f, entry)
  {}

  lemma MoreBytesLabel(src: Source, body: Reader, data: u64, i: nat)
    requires Extends(src.body, body)
    ensures LabelAt(src, data, i) != Err(StringMissing) ==> LabelAt(src.(body := body), data, i) == LabelAt(src, data, i)
  {
    var entry := data + i * src.layout.entry.size;
    if entry <= MAX_U64 {
      MoreBytesStrings(src, body);
      MoreBytesEntry(src.layout.entry, StringsIn(src), StringsIn(src.(body := body)), entry);
    }
  }

  // g agrees with f wherever f does not miss a string.
  ghost predicate Refines(f: LabelReader, g: LabelReader)
  {
    forall i: nat {:trigger f(i)} :: f(i) != Err(StringMissing) ==> g(i) == f(i)
  }

  lemma {:induction false} RefinedLabels(f: LabelReader, g: LabelReader, n: nat)
    requires Refines(f, g)
    ensures LabelsUpTo(f, n) != Err(StringMissing) ==> LabelsUpTo(g, n) == LabelsUpTo(f, n)
  {
    if n > 0 {
      RefinedLabels(f, g, n - 1);
    }
  }

  lemma MoreBytesLabels(src: Source, body: Reader, data: u64)
    requires Extends(src.body, body)
    ensures Refines(LabelsIn(src, data), LabelsIn(src.(body := body), data))
  {
    var f, g := LabelsIn(src, data), LabelsIn(src.(body := body), data);
    forall i: nat
      ensures f(i) != Err(StringMissing) ==> g(i) == f(i)
    {
      MoreBytesLabel(src, body, data, i);
    }
  }

  lemma MoreBytesMap(src: Source, body: Reader, addr: u64)
    requires Extends(src.body, body)
    ensures LabelMapAt(src, addr) != Err(StringMissing) ==> LabelMapAt(src.(body := body), addr) == LabelMapAt(src, addr)
  {
    var more := src.(body := body);
    assert HeaderAt(more, addr) == HeaderAt(src, addr);
    if HeaderAt(src, addr).Ok? {
      var h := HeaderAt(src, addr).value;
      MoreBytesLabels(src, body, h.data);
      RefinedLabels(LabelsIn(src, h.data), LabelsIn(more, h.data), h.len);
    }
  }

  lemma MoreBytesGoroutine(src: Source, body: Reader, addr: u64)
    requires Extends(src.body, body)
    ensures LabelsOfGoroutine(src, addr).status != StringMissing ==> LabelsOfGoroutine(src.(body := body), addr) == LabelsOfGoroutine(src, addr)
  {
    var field := addr + src.layout.gLabels;
    if field <= MAX_U64 && src.Word(field).Some? {
      MoreBytesMap(src, body, src.Word(field).value);
    }
  }

  lemma CompositeExtends(a: Reader, b: Reader)
    requires IsReader(a) && IsReader(b)
    ensures IsReader(Composite([a, b])) && Extends(a, Composite([a, b]))
  {
    var rs := [a, b];
    CompositeIsReader(rs);
    assert rs[0] == a;
  }

  // Adding string memory never changes a result that was not string_missing.
  lemma ExtraMemoryIsHarmless(src: Source, extra: Reader, addr: u64)
    requires src.Valid() && IsReader(extra) && src.body == src.structural
    ensures (var more := src.(body := Composite([src.structural, extra]));
             && more.Valid()
             && (LabelsOfGoroutine(src, addr).status != StringMissing ==> LabelsOfGoroutine(more, addr) == LabelsOfGoroutine(src, addr)))
  {
    CompositeExtends(src.structural, extra);
    MoreBytesGoroutine(src, Composite([src.structural, extra]), addr);
  }

  // ---- Unsupported pointer sizes ----

  lemma {:induction false} NeverFails(f: LabelReader, n: nat, s: Status)
    requires forall i: nat :: f(i) != Err(s)
    ensures LabelsUpTo(f, n) != Err(s)
  {
    if n > 0 {
      NeverFails(f, n - 1, s);
    }
  }

  // The pointer size alone decides, whatever the memory holds.
  lemma UnsupportedIs(src: Source, addr: u64)
    ensures LabelsOfGoroutine(src, addr).status == UnsupportedRuntime <==> src.layout.ptrSize != 4 && src.layout.ptrSize != 8
  {
    forall data: u64, i: nat
      ensures LabelsIn(src, data)(i) != Err(UnsupportedRuntime)
    {}
    forall data: u64, n: nat
      ensures LabelsUpTo(LabelsIn(src, data), n) != Err(UnsupportedRuntime)
    {
      NeverFails(LabelsIn(src, data), n, UnsupportedRuntime);
    }
  }

  // ---- Which map a goroutine has ----

  // Not a status of a label map.
  predicate IsOfGoroutine(s: Status) { s == NoLabels || s == Decoded || s == GObjectMissing || s == UnsupportedRuntime }

  lemma MapStatus(src: Source, addr: u64, s: Status)
    requires IsOfGoroutine(s)
    ensures LabelMapAt(src, addr) != Err(s)
  {
    var r := HeaderAt(src, addr);
    if r.Ok? {
      forall i: nat
        ensures LabelsIn(src, r.value.data)(i) != Err(s)
      {
        LabelStatus(src, r.value.data, i, s);
      }
      NeverFails(LabelsIn(src, r.value.data), r.value.len, s);
    }
  }

  lemma LabelStatus(src: Source, data: u64, i: nat, s: Status)
    requires IsOfGoroutine(s)
    ensures LabelAt(src, data, i) != Err(s)
  {}

  // The goroutine at addr points to a label map that lies at p and lists labels.
  ghost predicate PointsToLabels(src: Source, addr: nat, p: u64, h: SliceHeader, labels: seq<(Text, Text)>)
  {
    p != 0 && HoldsWord(src, addr + src.layout.gLabels, p) && HoldsLabels(src, p, h, labels)
  }

  // The labels in memory of the goroutine at addr are m.
  ghost predicate LabelledWith(src: Source, addr: nat, m: map<Text, Text>)
  {
    exists p: u64, h: SliceHeader, labels: seq<(Text, Text)> :: PointsToLabels(src, addr, p, h, labels) && m == LastWins(labels)
  }

  predicate SupportedWidth(src: Source) { src.layout.ptrSize == 4 || src.layout.ptrSize == 8 }

  // What is reported of the goroutine at addr, in terms of memory.
  ghost predicate Reports(src: Source, addr: u64, r: GoroutineLabels)
  {
    var field := addr + src.layout.gLabels;
    && (r.status == UnsupportedRuntime <==> !SupportedWidth(src))
    && (r.status == NoLabels <==> HoldsWord(src, field, 0))
    && (r.status == GObjectMissing <==> SupportedWidth(src) && field <= MAX_U64 && src.structural(field, src.layout.ptrSize).None?)
    && (SupportedWidth(src) && field > MAX_U64 ==> r.status == Malformed)
    && (r.status == Decoded ==> LabelledWith(src, addr, r.labels))
    && (forall m :: LabelledWith(src, addr, m) ==> r == GoroutineLabels(Decoded, m))
    && (r.status != Decoded ==> r.labels == map[])
  }

  lemma ResultReports(src: Source, addr: u64)
    requires src.Valid()
    ensures Reports(src, addr, LabelsOfGoroutine(src, addr))
  {
    var field := addr + src.layout.gLabels;
    UnsupportedIs(src, addr);
    if field <= MAX_U64 && SupportedWidth(src) && src.Word(field).Some? {
      var p := src.Word(field).value;
      WordIs(src, field, 0);
      WordIs(src, field, p);
      MapReported(src, addr, p);
    } else {
      NotLabelled(src, addr, field);
    }
  }

  lemma NotLabelled(src: Source, addr: u64, field: nat)
    requires src.Valid() && field == addr + src.layout.gLabels
    requires field > MAX_U64 || !SupportedWidth(src) || src.Word(field).None?
    ensures forall x: nat :: !HoldsWord(src, field, x)
    ensures forall m :: !LabelledWith(src, addr, m)
  {
    forall x: nat
      ensures !HoldsWord(src, field, x)
    {
      if field <= MAX_U64 {
        WordIs(src, field, x);
      }
    }
  }

  lemma MapReported(src: Source, addr: u64, p: u64)
    requires src.Valid() && HoldsWord(src, addr + src.layout.gLabels, p)
    ensures p != 0 && LabelMapAt(src, p).Ok? ==> LabelledWith(src, addr, LabelMapAt(src, p).value)
    ensures forall m :: LabelledWith(src, addr, m) ==> p != 0 && LabelMapAt(src, p) == Ok(m)
    ensures p != 0 && LabelMapAt(src, p).Err? ==> !IsOfGoroutine(LabelMapAt(src, p).error)
  {
    var r := LabelMapAt(src, p);
    if p != 0 && r.Ok? {
      DecodedIsLabelled(src, addr, p, r.value);
    }
    if r.Err? && IsOfGoroutine(r.error) {
      MapStatus(src, p, r.error);
    }
    forall m | LabelledWith(src, addr, m)
      ensures p != 0 && LabelMapAt(src, p) == Ok(m)
    {
      LabelledDecodes(src, addr, p, m);
    }
  }

  lemma DecodedIsLabelled(src: Source, addr: u64, p: u64, m: map<Text, Text>)
    requires src.Valid() && p != 0 && HoldsWord(src, addr + src.layout.gLabels, p) && LabelMapAt(src, p) == Ok(m)
    ensures LabelledWith(src, addr, m)
  {
    var h, labels := DecodedMapWasLaidOut(src, p);
    LaidOutMapDecodes(src, p, h, labels);
    assert PointsToLabels(src, addr, p, h, labels);
  }

  lemma LabelledDecodes(src: Source, addr: u64, p: u64, m: map<Text, Text>)
    requires src.Valid() && HoldsWord(src, addr + src.layout.gLabels, p) && LabelledWith(src, addr, m)
    ensures p != 0 && LabelMapAt(src, p) == Ok(m)
  {
    var q: u64, h: SliceHeader, labels: seq<(Text, Text)> :| PointsToLabels(src, addr, q, h, labels) && m == LastWins(labels);
    SameWord(src, addr + src.layout.gLabels, p, q);
    LaidOutMapDecodes(src, q, h, labels);
  }

  lemma SameWord(src: Source, addr: nat, x: nat, y: nat)
    requires src.Valid() && HoldsWord(src, addr, x) && HoldsWord(src, addr, y)
    ensures x == y
  {
    WordIs(src, addr, x);
    WordIs(src, addr, y);
  }

  // ---- All goroutines ----

  // The address and ID of a goroutine record.
  datatype Target = Target(id: u64, addr: u64)

  datatype Totals = Totals(decoded: nat, noLabels: nat, unsupported: nat, failed: nat, missing: nat)

  function CountOf(t: Totals, s: Status): Totals
  {
    match s
    case Decoded => t.(decoded := t.decoded + 1)
    case NoLabels => t.(noLabels := t.noLabels + 1)
    case UnsupportedRuntime => t.(unsupported := t.unsupported + 1)
    case StringMissing => t.(failed := t.failed + 1, missing := t.missing + 1)
    case _ => t.(failed := t.failed + 1)
  }

  function ResultsUpTo(src: Source, gs: seq<Target>, n: nat): (rs: seq<GoroutineLabels>)
    requires n <= |gs|
    ensures |rs| == n
  {
    if n == 0 then [] else ResultsUpTo(src, gs, n - 1) + [LabelsOfGoroutine(src, gs[n - 1].addr)]
  }

  function TotalsOf(rs: seq<GoroutineLabels>): Totals
  {
    if |rs| == 0 then Totals(0, 0, 0, 0, 0) else CountOf(TotalsOf(rs[..|rs| - 1]), rs[|rs| - 1].status)
  }

  // Labels by goroutine ID: decoded and not empty; the last record of an ID wins.
  function ByID(gs: seq<Target>, rs: seq<GoroutineLabels>): map<u64, map<Text, Text>>
    requires |rs| <= |gs|
  {
    if |rs| == 0 then map[]
    else
      var before, r := ByID(gs, rs[..|rs| - 1]), rs[|rs| - 1];
      if r.status == Decoded && |r.labels| > 0 then before[gs[|rs| - 1].id := r.labels] else before
  }

  // Record i is the last one with this ID that has labels in memory, and they are m.
  ghost predicate IsLastLabelled(src: Source, gs: seq<Target>, i: nat, id: u64, m: map<Text, Text>)
  {
    && i < |gs| && gs[i].id == id && m != map[] && LabelledWith(src, gs[i].addr, m)
    && forall j: nat :: i < j < |gs| && gs[j].id == id ==> HasNoLabels(src, gs[j].addr)
  }

  ghost predicate HasNoLabels(src: Source, addr: nat)
  {
    forall m :: m != map[] ==> !LabelledWith(src, addr, m)
  }

  // The recovered labels are those in memory: of each ID, those of its last record
  // that has any.
  ghost predicate AreLabelsInMemory(src: Source, gs: seq<Target>, byID: map<u64, map<Text, Text>>)
  {
    forall id :: IsLabelInMemory(src, gs, byID, id)
  }

  ghost predicate IsLabelInMemory(src: Source, gs: seq<Target>, byID: map<u64, map<Text, Text>>, id: u64)
  {
    && (id in byID ==> exists i: nat :: IsLastLabelled(src, gs, i, id, byID[id]))
    && (forall i: nat, m :: IsLastLabelled(src, gs, i, id, m) ==> id in byID && byID[id] == m)
  }

  // Result i of id is the last that decoded to labels.
  ghost predicate IsLastDecoded(gs: seq<Target>, rs: seq<GoroutineLabels>, i: nat, id: u64)
    requires |rs| <= |gs|
  {
    && i < |rs| && gs[i].id == id && rs[i].status == Decoded && rs[i].labels != map[]
    && forall j: nat :: i < j < |rs| && gs[j].id == id ==> rs[j].status != Decoded || rs[j].labels == map[]
  }

  lemma {:induction false} ByIDMeans(gs: seq<Target>, rs: seq<GoroutineLabels>, id: u64)
    requires |rs| <= |gs|
    ensures id in ByID(gs, rs) ==> exists i: nat :: IsLastDecoded(gs, rs, i, id) && ByID(gs, rs)[id] == rs[i].labels
    ensures forall i: nat :: IsLastDecoded(gs, rs, i, id) ==> id in ByID(gs, rs) && ByID(gs, rs)[id] == rs[i].labels
  {
    if |rs| > 0 {
      var n := |rs| - 1;
      var p := rs[..n];
      ByIDMeans(gs, p, id);
      assert |rs[n].labels| > 0 <==> rs[n].labels != map[];
      if gs[n].id == id && rs[n].status == Decoded && rs[n].labels != map[] {
        assert IsLastDecoded(gs, rs, n, id);
      } else {
        forall i: nat | i < n
          ensures IsLastDecoded(gs, rs, i, id) <==> IsLastDecoded(gs, p, i, id)
        {
          LastDecodedEarlier(gs, rs, n, i, id);
        }
      }
    }
  }

  lemma LastDecodedEarlier(gs: seq<Target>, rs: seq<GoroutineLabels>, n: nat, i: nat, id: u64)
    requires i < n == |rs| - 1 && |rs| <= |gs| && !(gs[n].id == id && rs[n].status == Decoded && rs[n].labels != map[])
    ensures IsLastDecoded(gs, rs, i, id) <==> IsLastDecoded(gs, rs[..n], i, id)
  {
    var p := rs[..n];
    assert forall j: nat :: j < n ==> p[j] == rs[j];
    if IsLastDecoded(gs, p, i, id) {
      forall j: nat | i < j < |rs| && gs[j].id == id
        ensures rs[j].status != Decoded || rs[j].labels == map[]
      {
        assert j < n ==> p[j] == rs[j];
      }
    }
  }

  // Every result reports its goroutine.
  ghost predicate AllReport(src: Source, gs: seq<Target>, rs: seq<GoroutineLabels>)
  {
    |rs| <= |gs| && forall i {:trigger rs[i]} :: 0 <= i < |rs| ==> Reports(src, gs[i].addr, rs[i])
  }

  lemma NextReports(src: Source, gs: seq<Target>, rs: seq<GoroutineLabels>, r: GoroutineLabels)
    requires AllReport(src, gs, rs) && |rs| < |gs| && Reports(src, gs[|rs|].addr, r)
    ensures AllReport(src, gs, rs + [r])
  {}

  lemma RecoveredIsInMemory(src: Source, gs: seq<Target>, rs: seq<GoroutineLabels>, id: u64)
    requires |rs| == |gs| && AllReport(src, gs, rs)
    ensures IsLabelInMemory(src, gs, ByID(gs, rs), id)
  {
    ByIDMeans(gs, rs, id);
    if id in ByID(gs, rs) {
      var i: nat :| IsLastDecoded(gs, rs, i, id) && ByID(gs, rs)[id] == rs[i].labels;
      LastAgrees(src, gs, rs, i, id);
    }
    forall i: nat, m | IsLastLabelled(src, gs, i, id, m)
      ensures id in ByID(gs, rs) && ByID(gs, rs)[id] == m
    {
      LastAgrees(src, gs, rs, i, id);
    }
  }

  lemma RecoveredAreInMemory(src: Source, gs: seq<Target>, rs: seq<GoroutineLabels>)
    requires |rs| == |gs| && AllReport(src, gs, rs)
    ensures AreLabelsInMemory(src, gs, ByID(gs, rs))
  {
    forall id
      ensures IsLabelInMemory(src, gs, ByID(gs, rs), id)
    {
      RecoveredIsInMemory(src, gs, rs, id);
    }
  }

  lemma LastAgrees(src: Source, gs: seq<Target>, rs: seq<GoroutineLabels>, i: nat, id: u64)
    requires |rs| == |gs| && AllReport(src, gs, rs)
    ensures IsLastDecoded(gs, rs, i, id) ==> IsLastLabelled(src, gs, i, id, rs[i].labels)
    ensures forall m :: IsLastLabelled(src, gs, i, id, m) ==> IsLastDecoded(gs, rs, i, id) && rs[i].labels == m
  {
    forall k: nat | k < |gs|
      ensures HasNoLabels(src, gs[k].addr) <==> rs[k].status != Decoded || rs[k].labels == map[]
    {
      assert Reports(src, gs[k].addr, rs[k]);
    }
  }

  method DecodeAll(src: Source, gs: seq<Target>)
    returns (results: seq<GoroutineLabels>, byID: map<u64, map<Text, Text>>, totals: Totals)
    ensures results == ResultsUpTo(src, gs, |gs|)
    ensures byID == ByID(gs, results) && totals == TotalsOf(results)
    ensures src.Valid() ==> AllReport(src, gs, results) && AreLabelsInMemory(src, gs, byID)
  {
    results, byID, totals := [], map[], Totals(0, 0, 0, 0, 0);
    for i := 0 to |gs|
      invariant results == ResultsUpTo(src, gs, i)
      invariant byID == ByID(gs, results) && totals == TotalsOf(results)
      invariant src.Valid() ==> AllReport(src, gs, results)
    {
      var r := DecodeLabelsForGoroutine(src, gs[i].addr);
      assert (results + [r])[..i] == results;
      if src.Valid() {
        NextReports(src, gs, results, r);
      }
      results := results + [r];
      totals := CountOf(totals, r.status);
      if r.status == Decoded && |r.labels| > 0 {
        byID := byID[gs[i].id := r.labels];
      }
    }
    if src.Valid() {
      RecoveredAreInMemory(src, gs, results);
    }
  }

  ghost function Where(rs: seq<GoroutineLabels>, ss: set<Status>): set<nat>
  {
    set i: nat | i < |rs| && rs[i].status in ss
  }

  lemma WhereNext(rs: seq<GoroutineLabels>, ss: set<Status>)
    requires |rs| > 0
    ensures |Where(rs, ss)| == |Where(rs[..|rs| - 1], ss)| + (if rs[|rs| - 1].status in ss then 1 else 0)
  {
    var n := |rs| - 1;
    assert Where(rs, ss) == Where(rs[..n], ss) + (if rs[n].status in ss then {n} else {});
  }

  // Each total is the number of results with these statuses.
  lemma {:induction false} TotalsMean(rs: seq<GoroutineLabels>)
    ensures TotalsOf(rs).decoded == |Where(rs, {Decoded})| && TotalsOf(rs).noLabels == |Where(rs, {NoLabels})|
    ensures TotalsOf(rs).unsupported == |Where(rs, {UnsupportedRuntime})| && TotalsOf(rs).missing == |Where(rs, {StringMissing})|
    ensures TotalsOf(rs).failed == |Where(rs, {GObjectMissing, LabelsObjectMissing, LabelArrayMissing, StringMissing, Malformed})|
  {
    if |rs| > 0 {
      TotalsMean(rs[..|rs| - 1]);
      WhereNext(rs, {Decoded});
      WhereNext(rs, {NoLabels});
      WhereNext(rs, {UnsupportedRuntime});
      WhereNext(rs, {StringMissing});
      WhereNext(rs, {GObjectMissing, LabelsObjectMissing, LabelArrayMissing, StringMissing, Malformed});
    }
  }

  // Every goroutine is counted once.
  lemma {:induction false} TotalsBalance(rs: seq<GoroutineLabels>)
    ensures (var t := TotalsOf(rs); t.decoded + t.noLabels + t.unsupported + t.failed == |rs| && t.missing <= t.failed)
    ensures TotalsOf(rs).missing == 0 ==> forall i :: 0 <= i < |rs| ==> rs[i].status != StringMissing
  {
    if |rs| > 0 {
      TotalsBalance(rs[..|rs| - 1]);
    }
  }

  // ---- The same memory ----

  ghost predicate Alike(a: Reader, b: Reader)
  {
    forall addr: u64, size: u64 {:trigger a(addr, size)} {:trigger b(addr, size)} :: b(addr, size) == a(addr, size)
  }

  ghost predicate SameMemory(s: Source, t: Source)
  {
    Alike(s.structural, t.structural) && Alike(s.body, t.body) && t.layout == s.layout && t.limits == s.limits
  }

  lemma AlikeComposite(a: Reader, b: Reader, extra: Reader)
    requires Alike(a, b)
    ensures Alike(Composite([a, extra]), Composite([b, extra]))
  {
    assert [a, extra][1..] == [b, extra][1..];
  }

  lemma SameStrings(s: Source, t: Source)
    requires SameMemory(s, t)
    ensures forall header: u64 :: StringsIn(t)(header) == StringsIn(s)(header)
  {
    forall header: u64
      ensures StringAt(t, header) == StringAt(s, header)
    {}
  }

  lemma SameEntry(e: LabelLayout, f: StringReader, g: StringReader, entry: u64)
    requires forall header: u64 :: g(header) == f(header)
    ensures EntryFrom(e, g, entry) == EntryFrom(e, f, entry)
  {}

  lemma SameLabel(s: Source, t: Source, data: u64, i: nat)
    requires SameMemory(s, t)
    ensures LabelAt(t, data, i) == LabelAt(s, data, i)
  {
    var entry := data + i * s.layout.entry.size;
    if entry <= MAX_U64 {
      SameStrings(s, t);
      SameEntry(s.layout.entry, StringsIn(s), StringsIn(t), entry);
    }
  }

  lemma {:induction false} SameLabels(f: LabelReader, g: LabelReader, n: nat)
    requires forall i: nat :: g(i) == f(i)
    ensures LabelsUpTo(g, n) == LabelsUpTo(f, n)
  {
    if n > 0 {
      SameLabels(f, g, n - 1);
    }
  }

  lemma SameArray(s: Source, t: Source, f: LabelReader, g: LabelReader, h: SliceHeader)
    requires SameMemory(s, t) && forall i: nat :: g(i) == f(i)
    ensures ArrayFrom(t, g, h) == ArrayFrom(s, f, h)
  {
    SameLabels(f, g, h.len);
  }

  lemma SameLabelReader(s: Source, t: Source, data: u64)
    requires SameMemory(s, t)
    ensures forall i: nat :: LabelsIn(t, data)(i) == LabelsIn(s, data)(i)
  {
    forall i: nat
      ensures LabelsIn(t, data)(i) == LabelsIn(s, data)(i)
    {
      SameLabel(s, t, data, i);
    }
  }

  lemma SameHeader(s: Source, t: Source, addr: u64)
    requires SameMemory(s, t)
    ensures HeaderAt(t, addr) == HeaderAt(s, addr)
  {}

  lemma SameMap(s: Source, t: Source, addr: u64)
    requires SameMemory(s, t)
    ensures LabelMapAt(t, addr) == LabelMapAt(s, addr)
  {
    SameHeader(s, t, addr);
    if HeaderAt(s, addr).Ok? {
      var h := HeaderAt(s, addr).value;
      SameLabelReader(s, t, h.data);
      SameArray(s, t, LabelsIn(s, h.data), LabelsIn(t, h.data), h);
    }
  }

  lemma SameGoroutine(s: Source, t: Source, addr: u64)
    requires SameMemory(s, t)
    ensures LabelsOfGoroutine(t, addr) == LabelsOfGoroutine(s, addr)
  {
    var field := addr + s.layout.gLabels;
    if field <= MAX_U64 && s.Word(field).Some? {
      SameMap(s, t, s.Word(field).value);
    }
  }

  // Labels depend on what the readers answer, not on how they find it.
  lemma {:induction false} SameResults(s: Source, t: Source, gs: seq<Target>, n: nat)
    requires SameMemory(s, t) && n <= |gs|
    ensures ResultsUpTo(t, gs, n) == ResultsUpTo(s, gs, n)
  {
    if n > 0 {
      SameResults(s, t, gs, n - 1);
      SameGoroutine(s, t, gs[n - 1].addr);
    }
  }
}
