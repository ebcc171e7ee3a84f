// Object contents kept in memory and object contents read back from the file
// (internal/heaplabels/memory.go, internal/heapdump/contentresolver.go).
module Contents {
  import opened Words
  import opened Wrappers
  import opened Heap
  import opened Order
  import opened Dump
  import AddressSpace

  // ---- The reference: reading from a list of objects ----

  // Of the first n objects, the one with bytes that starts last at or below addr.
  function Holder(objs: seq<HeapObject>, n: nat, addr: u64): (r: Option<nat>)
    requires n <= |objs|
    ensures r.Some? ==> r.value < n && |objs[r.value].contents| > 0 && objs[r.value].addr <= addr
    ensures forall j :: 0 <= j < n && |objs[j].contents| > 0 && objs[j].addr <= addr ==>
      r.Some? && objs[j].addr <= objs[r.value].addr
  {
    if n == 0 then None
    else
      var r := Holder(objs, n - 1, addr);
      var o := objs[n - 1];
      if |o.contents| > 0 && o.addr <= addr && (r.None? || objs[r.value].addr <= o.addr) then Some(n - 1) else r
  }

  // size bytes at offset from of b, if b has them.
  function Slice(b: seq<byte>, from: nat, size: nat): Option<seq<byte>>
  {
    if from + size <= |b| then Some(b[from..from + size]) else None
  }

  // The bytes at [addr, addr + size), inside one object.
  function ContentsAt(objs: seq<HeapObject>, addr: u64, size: u64): Option<seq<byte>>
  {
    if size == 0 then Some([])
    else if addr == 0 || addr + size > MAX_U64 then None
    else
      match Holder(objs, |objs|, addr)
      case None => None
      case Some(i) => Slice(objs[i].contents, addr - objs[i].addr, size)
  }

  // The objects as a reader of the address space.
  function HeapReader(objs: seq<HeapObject>): AddressSpace.Reader
  {
    (addr: u64, size: u64) => ContentsAt(objs, addr, size)
  }

  // Objects that do not leave the address space: what the parser accepts.
  ghost predicate InAddressSpace(objs: seq<HeapObject>)
  {
    forall i :: 0 <= i < |objs| ==> objs[i].addr + |objs[i].contents| <= MAX_U64
  }

  // ---- What a read may answer, whatever the addresses ----

  // The object has bytes and does not leave the address space.
  predicate Kept(o: HeapObject)
  {
    |o.contents| > 0 && o.addr + |o.contents| <= MAX_U64
  }

  // Object i starts last at or below addr.
  ghost predicate Holds(objs: seq<HeapObject>, i: nat, addr: u64)
  {
    && i < |objs| && Kept(objs[i]) && objs[i].addr <= addr
    && forall j :: 0 <= j < |objs| && Kept(objs[j]) && objs[j].addr <= addr ==> objs[j].addr <= objs[i].addr
  }

  // ... and no other at its address is longer.
  ghost predicate HoldsLongest(objs: seq<HeapObject>, i: nat, addr: u64)
  {
    Holds(objs, i, addr) && forall j: nat :: Holds(objs, j, addr) ==> |objs[j].contents| <= |objs[i].contents|
  }

  ghost predicate AnsweredBy(objs: seq<HeapObject>, addr: u64, size: u64, longest: bool, r: Option<seq<byte>>, i: nat)
  {
    && Holds(objs, i, addr) && (longest ==> HoldsLongest(objs, i, addr))
    && r == Slice(objs[i].contents, addr - objs[i].addr, size)
  }

  // The bytes of an object that starts last at or below addr, of a longest one on
  // request; which one is open when several share the address.
  ghost predicate Answers(objs: seq<HeapObject>, addr: u64, size: u64, longest: bool, r: Option<seq<byte>>)
  {
    if size == 0 then r == Some([])
    else if addr == 0 || addr + size > MAX_U64 then r == None
    else (r == None && forall i: nat :: !Holds(objs, i, addr)) || exists i: nat :: AnsweredBy(objs, addr, size, longest, r, i)
  }

  // Whoever answers so keeps the contract of readers.
  lemma AnswersKeepContract(objs: seq<HeapObject>, mem: AddressSpace.Reader, longest: bool)
    requires forall addr: u64, size: u64 :: Answers(objs, addr, size, longest, mem(addr, size))
    ensures AddressSpace.IsReader(mem)
  {
    forall addr: u64, size: u64 | mem(addr, size).Some?
      ensures |mem(addr, size).value| == size
    {
      assert Answers(objs, addr, size, longest, mem(addr, size));
    }
  }

  // ---- When the answer does not depend on the choice ----

  // The bytes of an object that reads can see: nothing is read at address 0.
  function Visible(o: HeapObject): seq<byte>
  {
    if o.addr == 0 && |o.contents| > 0 then o.contents[1..] else o.contents
  }

  // Objects at address 0 are out of sight below one at address 1.
  ghost predicate Hidden(objs: seq<HeapObject>, a: u64)
  {
    a == 0 && exists k: nat :: k < |objs| && Kept(objs[k]) && objs[k].addr == 1
  }

  // Objects with bytes at one address have the same bytes, as far as they are seen.
  ghost predicate SharedAlike(objs: seq<HeapObject>)
  {
    forall i: nat, j: nat :: i < |objs| && j < |objs| && Kept(objs[i]) && Kept(objs[j]) && objs[i].addr == objs[j].addr ==>
      Hidden(objs, objs[i].addr) || Visible(objs[i]) == Visible(objs[j])
  }

  lemma SliceOfVisible(o: HeapObject, addr: u64, size: u64)
    requires Kept(o) && 0 < addr && o.addr <= addr
    ensures Slice(o.contents, addr - o.addr, size) == Slice(Visible(o), addr - o.addr - (if o.addr == 0 then 1 else 0), size)
  {
    var from := addr - o.addr;
    if o.addr == 0 && from + size <= |o.contents| {
      var a, b := o.contents[from..from + size], o.contents[1..][from - 1..from - 1 + size];
      assert forall k :: 0 <= k < size ==> a[k] == b[k];
      assert a == b;
    }
  }

  lemma HoldersAgree(objs: seq<HeapObject>, addr: u64, size: u64, i: nat, j: nat)
    requires SharedAlike(objs) && addr > 0 && Holds(objs, i, addr) && Holds(objs, j, addr)
    ensures Slice(objs[i].contents, addr - objs[i].addr, size) == Slice(objs[j].contents, addr - objs[j].addr, size)
  {
    SliceOfVisible(objs[i], addr, size);
    SliceOfVisible(objs[j], addr, size);
  }

  lemma AnswersAgree(objs: seq<HeapObject>, addr: u64, size: u64, longest: bool, r: Option<seq<byte>>, other: bool, q: Option<seq<byte>>)
    requires SharedAlike(objs) && Answers(objs, addr, size, longest, r) && Answers(objs, addr, size, other, q)
    ensures r == q
  {
    if i: nat, j: nat :| size > 0 && addr > 0 && AnsweredBy(objs, addr, size, longest, r, i) && AnsweredBy(objs, addr, size, other, q, j) {
      HoldersAgree(objs, addr, size, i, j);
    }
  }

  lemma {:induction false} LongestHolder(objs: seq<HeapObject>, addr: u64, i: nat) returns (h: nat)
    requires Holds(objs, i, addr)
    ensures HoldsLongest(objs, h, addr)
    decreases MAX_U64 - |objs[i].contents|
  {
    h := i;
    if j: nat :| Holds(objs, j, addr) && |objs[j].contents| > |objs[i].contents| {
      h := LongestHolder(objs, addr, j);
    }
  }

  // A longest object at an address answers with all its bytes.
  lemma SeesAll(objs: seq<HeapObject>, addr: u64, h: nat, i: nat)
    requires AlwaysAgree(objs) && 0 < addr && HoldsLongest(objs, h, addr) && Holds(objs, i, addr)
    requires addr == if objs[h].addr == 0 then 1 else objs[h].addr
    ensures Visible(objs[i]) == Visible(objs[h])
  {
    var size := |Visible(objs[h])|;
    if size > 0 {
      SliceOfVisible(objs[h], addr, size);
      SliceOfVisible(objs[i], addr, size);
      var r, q := Slice(objs[h].contents, addr - objs[h].addr, size), Slice(objs[i].contents, addr - objs[i].addr, size);
      assert AnsweredBy(objs, addr, size, true, r, h);
      assert AnsweredBy(objs, addr, size, false, q, i);
      assert Answers(objs, addr, size, true, r) && Answers(objs, addr, size, false, q);
      assert Visible(objs[h])[0..size] == Visible(objs[h]);
    }
  }

  // Whatever order equal addresses were sorted into, kept contents and contents in
  // the file answer alike.
  ghost predicate AlwaysAgree(objs: seq<HeapObject>)
  {
    forall addr: u64, size: u64, r: Option<seq<byte>>, q: Option<seq<byte>> ::
      Answers(objs, addr, size, true, r) && Answers(objs, addr, size, false, q) ==> r == q
  }

  // They do exactly when objects that share an address share their bytes.
  lemma AgreeIffAlike(objs: seq<HeapObject>)
    ensures AlwaysAgree(objs) <==> SharedAlike(objs)
  {
    if SharedAlike(objs) {
      forall addr: u64, size: u64, r: Option<seq<byte>>, q: Option<seq<byte>>
        | Answers(objs, addr, size, true, r) && Answers(objs, addr, size, false, q)
        ensures r == q
      {
        AnswersAgree(objs, addr, size, true, r, false, q);
      }
    }
    if AlwaysAgree(objs) {
      forall i: nat, j: nat | i < |objs| && j < |objs| && Kept(objs[i]) && Kept(objs[j])
                              && objs[i].addr == objs[j].addr && !Hidden(objs, objs[i].addr)
        ensures Visible(objs[i]) == Visible(objs[j])
      {
        var addr := if objs[i].addr == 0 then 1 else objs[i].addr;
        var h := LongestHolder(objs, addr, i);
        SeesAll(objs, addr, h, i);
        SeesAll(objs, addr, h, j);
      }
    }
  }

  // Two objects at address 8 with the bytes 1 and 2: the read of one byte there may
  // answer 1 from memory and 2 from the file.
  lemma SharedAddressExample(fields: seq<Field>)
    ensures var objs := [HeapObject(8, 1, [1], fields, [], []), HeapObject(8, 1, [2], fields, [], [])];
      Answers(objs, 8, 1, true, Some([1])) && Answers(objs, 8, 1, false, Some([2])) && !SharedAlike(objs)
  {
    var objs := [HeapObject(8, 1, [1], fields, [], []), HeapObject(8, 1, [2], fields, [], [])];
    assert objs[0].contents[0..1] == [1] && objs[1].contents[0..1] == [2];
    assert Visible(objs[0])[0] != Visible(objs[1])[0];
    assert AnsweredBy(objs, 8, 1, true, Some([1]), 0);
    assert AnsweredBy(objs, 8, 1, false, Some([2]), 1);
  }

  // Then nothing is open.
  lemma AnswerIs(objs: seq<HeapObject>, addr: u64, size: u64, longest: bool, r: Option<seq<byte>>)
    requires SharedAlike(objs) && InAddressSpace(objs) && Answers(objs, addr, size, longest, r)
    ensures r == ContentsAt(objs, addr, size)
  {
    ContentsAnswer(objs, addr, size);
    AnswersAgree(objs, addr, size, longest, r, false, ContentsAt(objs, addr, size));
  }

  lemma ContentsAnswer(objs: seq<HeapObject>, addr: u64, size: u64)
    requires InAddressSpace(objs)
    ensures Answers(objs, addr, size, false, ContentsAt(objs, addr, size))
  {
    HolderHolds(objs, addr);
    var h := Holder(objs, |objs|, addr);
    if h.Some? && size > 0 && addr != 0 && addr + size <= MAX_U64 {
      assert AnsweredBy(objs, addr, size, false, ContentsAt(objs, addr, size), h.value);
    }
  }

  lemma HolderHolds(objs: seq<HeapObject>, addr: u64)
    requires InAddressSpace(objs)
    ensures Holder(objs, |objs|, addr).Some? ==> Holds(objs, Holder(objs, |objs|, addr).value, addr)
  {}

  // ---- Kept contents ----

  datatype Range = Range(start: u64, end: u64, data: seq<byte>)

  // The order of the ranges: by start, then by end.
  function RangeKey(r: Range): int { r.start * TWO64 + r.end }

  function RangeOf(o: HeapObject): Range
    requires Kept(o)
  {
    Range(o.addr, o.addr + |o.contents|, o.contents)
  }

  ghost predicate IsSomeRange(r: Range, objs: seq<HeapObject>, n: nat)
    requires n <= |objs|
  {
    exists i :: 0 <= i < n && Kept(objs[i]) && r == RangeOf(objs[i])
  }

  // One range for every object with bytes inside the address space.
  ghost predicate IsRangeTable(ranges: seq<Range>, objs: seq<HeapObject>, n: nat)
    requires n <= |objs|
  {
    && (forall k :: 0 <= k < |ranges| ==> IsSomeRange(ranges[k], objs, n))
    && (forall i :: 0 <= i < n && Kept(objs[i]) ==> RangeOf(objs[i]) in ranges)
  }

  method CollectRanges(objs: seq<HeapObject>) returns (ranges: seq<Range>)
    ensures IsRangeTable(ranges, objs, |objs|)
  {
    ranges := [];
    for i := 0 to |objs|
      invariant IsRangeTable(ranges, objs, i)
    {
      var o := objs[i];
      AddRange(ranges, objs, i);
      if |o.contents| == 0 || |o.contents| > MAX_U64 {
        continue;
      }
      var end := AddUint64(o.addr, |o.contents|);
      AddIsExact(o.addr, |o.contents|);
      if !end.1 {
        continue;
      }
      ranges := ranges + [Range(o.addr, end.0, o.contents)];
    }
  }

  lemma StillSomeRange(r: Range, objs: seq<HeapObject>, n: nat)
    requires n < |objs| && IsSomeRange(r, objs, n)
    ensures IsSomeRange(r, objs, n + 1)
  {
    var i :| 0 <= i < n && Kept(objs[i]) && r == RangeOf(objs[i]);
    assert r == RangeOf(objs[i]);
  }

  lemma AddRange(ranges: seq<Range>, objs: seq<HeapObject>, i: nat)
    requires i < |objs| && IsRangeTable(ranges, objs, i)
    ensures !Kept(objs[i]) ==> IsRangeTable(ranges, objs, i + 1)
    ensures Kept(objs[i]) ==> IsRangeTable(ranges + [RangeOf(objs[i])], objs, i + 1)
  {
    forall k | 0 <= k < |ranges|
      ensures IsSomeRange(ranges[k], objs, i + 1)
    {
      StillSomeRange(ranges[k], objs, i);
    }
    if Kept(objs[i]) {
      var t := ranges + [RangeOf(objs[i])];
      assert t[|ranges|] == RangeOf(objs[i]);
      assert IsSomeRange(RangeOf(objs[i]), objs, i + 1);
      forall k | 0 <= k < |t|
        ensures IsSomeRange(t[k], objs, i + 1)
      {
        if k < |ranges| {
          assert t[k] == ranges[k];
        }
      }
    }
  }

  // Memory built from kept contents.
  class Memory {
    ghost const objs: seq<HeapObject>
    const ranges: seq<Range>

    ghost predicate Valid()
    {
      IsRangeTable(ranges, objs, |objs|) && Ascending(ranges, RangeKey)
    }

    constructor (objs: seq<HeapObject>)
      ensures Valid() && this.objs == objs
    {
      var ranges := CollectRanges(objs);
      var sorted := SortByKey(ranges, RangeKey);
      SortedTable(ranges, sorted, objs);
      this.objs, this.ranges := objs, sorted;
    }

    method Read(addr: u64, size: u64) returns (r: Option<seq<byte>>)
      requires Valid()
      ensures Answers(objs, addr, size, true, r)
    {
      if size == 0 {
        return Some([]);
      }
      if addr == 0 {
        return None;
      }
      var end := AddUint64(addr, size);
      AddIsExact(addr, size);
      if !end.1 {
        return None;
      }
      var idx, h := FirstAbove(addr);
      if idx == 0 {
        return None;
      }
      var range := ranges[idx - 1];
      if end.0 > range.end {
        assert AnsweredBy(objs, addr, size, true, None, h);
        return None;
      }
      var off := addr - range.start;
      r := Some(range.data[off..off + size]);
      assert AnsweredBy(objs, addr, size, true, r, h);
    }

    // The first range after addr; the one before it is addr's.
    method FirstAbove(addr: u64) returns (idx: nat, ghost h: nat)
      requires Valid()
      ensures idx <= |ranges|
      ensures idx == 0 ==> forall i: nat :: !Holds(objs, i, addr)
      ensures idx > 0 ==> HoldsLongest(objs, h, addr) && ranges[idx - 1] == RangeOf(objs[h])
    {
      idx := SearchAbove(ranges, RangeKey, addr * TWO64 + MAX_U64);
      KeyIsStart(ranges, addr, idx);
      h := 0;
      if idx == 0 {
        NoRangeBelow(ranges, objs, addr);
      } else {
        h := LastRange(ranges, objs, addr, idx);
      }
    }
  }

  lemma SortedTable(ranges: seq<Range>, sorted: seq<Range>, objs: seq<HeapObject>)
    requires IsRangeTable(ranges, objs, |objs|) && multiset(ranges) == multiset(sorted)
    ensures IsRangeTable(sorted, objs, |objs|)
  {
    SameElements(ranges, sorted);
    forall k | 0 <= k < |sorted|
      ensures IsSomeRange(sorted[k], objs, |objs|)
    {
      assert sorted[k] in sorted;
      var l :| 0 <= l < |ranges| && ranges[l] == sorted[k];
    }
    forall i | 0 <= i < |objs| && Kept(objs[i])
      ensures RangeOf(objs[i]) in sorted
    {
      assert RangeOf(objs[i]) in ranges;
    }
  }

  // Comparing (start, end) with (addr, highest word) compares starts with addr.
  lemma KeyIsStart(ranges: seq<Range>, addr: u64, idx: nat)
    requires idx <= |ranges|
    requires forall i :: 0 <= i < idx ==> RangeKey(ranges[i]) <= addr * TWO64 + MAX_U64
    requires forall i :: idx <= i < |ranges| ==> addr * TWO64 + MAX_U64 < RangeKey(ranges[i])
    ensures forall i :: 0 <= i < idx ==> ranges[i].start <= addr
    ensures forall i :: idx <= i < |ranges| ==> addr < ranges[i].start
  {
    forall i | 0 <= i < idx
      ensures ranges[i].start <= addr
    {
      assert RangeKey(ranges[i]) <= addr * TWO64 + MAX_U64;
    }
    forall i | idx <= i < |ranges|
      ensures addr < ranges[i].start
    {
      assert addr * TWO64 + MAX_U64 < RangeKey(ranges[i]);
    }
  }

  lemma NoRangeBelow(ranges: seq<Range>, objs: seq<HeapObject>, addr: u64)
    requires IsRangeTable(ranges, objs, |objs|)
    requires forall i :: 0 <= i < |ranges| ==> addr < ranges[i].start
    ensures forall i: nat :: !Holds(objs, i, addr)
  {
    forall i: nat
      ensures !Holds(objs, i, addr)
    {
      if i < |objs| && Kept(objs[i]) {
        assert RangeOf(objs[i]) in ranges;
      }
    }
  }

  // Object j, which starts at or below addr, has its range before place idx.
  lemma RangeBelow(ranges: seq<Range>, objs: seq<HeapObject>, addr: u64, idx: nat, j: nat)
    requires IsRangeTable(ranges, objs, |objs|) && Ascending(ranges, RangeKey) && 0 < idx <= |ranges|
    requires forall i :: idx <= i < |ranges| ==> addr < ranges[i].start
    requires j < |objs| && Kept(objs[j]) && objs[j].addr <= addr
    ensures RangeKey(RangeOf(objs[j])) <= RangeKey(ranges[idx - 1])
  {
    assert RangeOf(objs[j]) in ranges;
    var k :| 0 <= k < |ranges| && ranges[k] == RangeOf(objs[j]);
    assert k < idx;
    assert RangeKey(ranges[k]) <= RangeKey(ranges[idx - 1]);
  }

  lemma LastRange(ranges: seq<Range>, objs: seq<HeapObject>, addr: u64, idx: nat) returns (h: nat)
    requires IsRangeTable(ranges, objs, |objs|) && Ascending(ranges, RangeKey) && 0 < idx <= |ranges|
    requires forall i :: 0 <= i < idx ==> ranges[i].start <= addr
    requires forall i :: idx <= i < |ranges| ==> addr < ranges[i].start
    ensures HoldsLongest(objs, h, addr) && ranges[idx - 1] == RangeOf(objs[h])
  {
    assert IsSomeRange(ranges[idx - 1], objs, |objs|);
    h :| 0 <= h < |objs| && Kept(objs[h]) && ranges[idx - 1] == RangeOf(objs[h]);
    forall j: nat | j < |objs| && Kept(objs[j]) && objs[j].addr <= addr
      ensures objs[j].addr <= objs[h].addr
      ensures objs[j].addr == objs[h].addr ==> |objs[j].contents| <= |objs[h].contents|
    {
      RangeBelow(ranges, objs, addr, idx, j);
    }
  }

  // ---- Contents in the file ----

  // The recorded place holds the object's bytes.
  ghost predicate IsRefOf(r: ContentRef, o: HeapObject, data: seq<byte>)
  {
    && 0 < |o.contents| <= MAX_I64 && r.addr == o.addr && r.length == |o.contents|
    && 0 <= r.at && r.at + r.length <= |data| && data[r.at..r.at + r.length] == o.contents
  }

  ghost predicate HasObject(r: ContentRef, objs: seq<HeapObject>, data: seq<byte>)
  {
    exists i :: 0 <= i < |objs| && IsRefOf(r, objs[i], data)
  }

  ghost predicate HasRef(o: HeapObject, refs: seq<ContentRef>, data: seq<byte>)
  {
    exists r :: r in refs && IsRefOf(r, o, data)
  }

  // One recorded place for every object with bytes.
  ghost predicate IsRefTable(refs: seq<ContentRef>, objs: seq<HeapObject>, data: seq<byte>)
  {
    && (forall k {:trigger HasObject(refs[k], objs, data)} :: 0 <= k < |refs| ==> HasObject(refs[k], objs, data))
    && (forall i {:trigger HasRef(objs[i], refs, data)} :: 0 <= i < |objs| && |objs[i].contents| > 0 ==> HasRef(objs[i], refs, data))
  }

  function Addr(r: ContentRef): int { r.addr }

  // io.ReaderAt over a byte sequence: at most n bytes from at on.
  function ReadAt(src: seq<byte>, n: nat, at: nat): seq<byte>
  {
    if at >= |src| then [] else src[at..if at + n <= |src| then at + n else |src|]
  }

  // size bytes at offset of the recorded place, if it has them.
  function FetchRef(src: seq<byte>, ref: ContentRef, offset: u64, size: u64): Option<seq<byte>>
  {
    if offset + size > ref.length || offset > MAX_I64 || size > MAX_I64 || ref.at < 0 then None
    else
      var buf := ReadAt(src, size, ref.at + offset);
      if |buf| == size then Some(buf) else None
  }

  // The same for the bytes at addr.
  function FetchIn(src: seq<byte>, ref: ContentRef, addr: u64, size: u64): Option<seq<byte>>
  {
    if addr < ref.addr || addr + size > (ref.addr + ref.length) % TWO64 then None
    else FetchRef(src, ref, addr - ref.addr, size)
  }

  // The same through the table: the last place at or below addr.
  function FetchNear(src: seq<byte>, refs: seq<ContentRef>, addr: u64, size: u64): Option<seq<byte>>
  {
    var j := LastUpTo(refs, Addr, |refs|, addr);
    if j == 0 then None else FetchIn(src, refs[j - 1], addr, size)
  }

  // A read through index and table: the place recorded for exactly addr, or else
  // the last one before it.
  function FetchAt(src: seq<byte>, refs: seq<ContentRef>, byAddr: map<u64, nat>, addr: u64, size: u64): Option<seq<byte>>
    requires forall a :: a in byAddr ==> byAddr[a] < |refs|
  {
    if size == 0 then Some([])
    else if addr == 0 || addr + size > MAX_U64 then None
    else if addr in byAddr then FetchRef(src, refs[byAddr[addr]], 0, size)
    else FetchNear(src, refs, addr, size)
  }

  class ContentResolver {
    const src: seq<byte>
    var byAddr: map<u64, nat>
    var refs: seq<ContentRef>

    ghost predicate Finalized()
      reads this
    {
      Ascending(refs, Addr) && IsIndex(byAddr, refs, |refs|) && InFile(refs)
    }

    // The resolver as the parser leaves it.
    constructor (src: seq<byte>, refs: seq<ContentRef>)
      requires InFile(refs)
      ensures this.src == src && this.refs == refs && this.byAddr == map[]
    {
      this.src, this.refs, this.byAddr := src, refs, map[];
    }

    method Finalize()
      requires InFile(refs)
      modifies this
      ensures Finalized() && multiset(refs) == multiset(old(refs))
    {
      var sorted := SortByKey(refs, Addr);
      SortedInFile(refs, sorted);
      refs, byAddr := sorted, map[];
      for i := 0 to |refs|
        invariant refs == sorted && IsIndex(byAddr, refs, i)
      {
        byAddr := byAddr[refs[i].addr := i];
      }
    }

    // The resolver as a reader of the address space.
    function AsReader(): AddressSpace.Reader
      requires forall a :: a in byAddr ==> byAddr[a] < |refs|
      reads this
    {
      var s, rs, index := src, refs, byAddr;
      (addr: u64, size: u64) => FetchAt(s, rs, index, addr, size)
    }

    method ReadRef(ref: ContentRef, offset: u64, size: u64) returns (r: Option<seq<byte>>)
      requires ref.at >= 0
      ensures r == FetchRef(src, ref, offset, size)
    {
      var end := (offset + size) % TWO64;
      WrapSplit(offset, size);
      if end > ref.length || end < offset {
        return None;
      }
      if offset > MAX_I64 {
        return None;
      }
      var at := ref.at + offset;
      if at < ref.at {
        return None;
      }
      if size > MAX_I64 {
        return None;
      }
      var buf := ReadAt(src, size, at);
      if |buf| != size {
        return None;
      }
      return Some(buf);
    }

    // The bytes at addr, if the recorded place reaches that far.
    method ReadIn(ref: ContentRef, addr: u64, size: u64) returns (r: Option<seq<byte>>)
      requires ref.at >= 0 && addr + size <= MAX_U64
      ensures r == FetchIn(src, ref, addr, size)
    {
      if addr < ref.addr {
        return None;
      }
      if addr + size > (ref.addr + ref.length) % TWO64 {
        return None;
      }
      r := ReadRef(ref, addr - ref.addr, size);
    }

    method Read(addr: u64, size: u64) returns (r: Option<seq<byte>>)
      requires Finalized()
      ensures r == AsReader()(addr, size)
    {
      if size == 0 {
        return Some([]);
      }
      if addr == 0 {
        return None;
      }
      WrapSplit(addr, size);
      var end := (addr + size) % TWO64;
      if end < addr {
        return None;
      }
      if addr in byAddr {
        r := ReadRef(refs[byAddr[addr]], 0, size);
        return;
      }
      var j := SearchAbove(refs, Addr, addr);
      if j == 0 {
        return None;
      }
      r := ReadIn(refs[j - 1], addr, size);
    }
  }

  ghost predicate InFile(refs: seq<ContentRef>)
  {
    forall k :: 0 <= k < |refs| ==> refs[k].at >= 0
  }

  lemma SortedInFile(refs: seq<ContentRef>, sorted: seq<ContentRef>)
    requires multiset(refs) == multiset(sorted) && InFile(refs)
    ensures InFile(sorted)
  {
    SameElements(refs, sorted);
    forall k | 0 <= k < |sorted|
      ensures sorted[k].at >= 0
    {
      assert sorted[k] in refs;
    }
  }

  // What a recorded place of object o fetches.
  lemma FetchIsSlice(src: seq<byte>, ref: ContentRef, o: HeapObject, offset: u64, size: u64)
    requires IsRefOf(ref, o, src)
    ensures FetchRef(src, ref, offset, size) == Slice(o.contents, offset, size)
  {
    if offset + size <= ref.length {
      SliceOfSlice(src, ref.at, ref.length, offset, size);
    }
  }

  lemma FetchInIsSlice(src: seq<byte>, ref: ContentRef, o: HeapObject, addr: u64, size: u64)
    requires IsRefOf(ref, o, src) && o.addr + |o.contents| <= MAX_U64 && o.addr <= addr
    ensures FetchIn(src, ref, addr, size) == Slice(o.contents, addr - o.addr, size)
  {
    WrapSplit(ref.addr, ref.length);
    FetchIsSlice(src, ref, o, addr - o.addr, size);
  }

  lemma Answered(objs: seq<HeapObject>, addr: u64, size: u64, r: Option<seq<byte>>, h: nat)
    requires size > 0 && addr > 0 && addr + size <= MAX_U64 && AnsweredBy(objs, addr, size, false, r, h)
    ensures Answers(objs, addr, size, false, r)
  {}

  // The resolver answers as the list of objects allows.
  lemma FetchAnswers(src: seq<byte>, refs: seq<ContentRef>, byAddr: map<u64, nat>, objs: seq<HeapObject>, addr: u64, size: u64)
    requires IsRefTable(refs, objs, src) && InAddressSpace(objs) && Ascending(refs, Addr) && IsIndex(byAddr, refs, |refs|)
    ensures Answers(objs, addr, size, false, FetchAt(src, refs, byAddr, addr, size))
  {
    var r := FetchAt(src, refs, byAddr, addr, size);
    if size > 0 && addr != 0 && addr + size <= MAX_U64 {
      if addr in byAddr {
        var h := FetchExact(src, refs, objs, byAddr[addr], size);
        Answered(objs, addr, size, r, h);
      } else {
        FetchNearAnswers(src, refs, objs, addr, size);
      }
    }
  }

  lemma FetchNearAnswers(src: seq<byte>, refs: seq<ContentRef>, objs: seq<HeapObject>, addr: u64, size: u64)
    requires IsRefTable(refs, objs, src) && InAddressSpace(objs) && Ascending(refs, Addr)
    requires size > 0 && addr > 0 && addr + size <= MAX_U64
    ensures Answers(objs, addr, size, false, FetchNear(src, refs, addr, size))
  {
    var j := LastUpTo(refs, Addr, |refs|, addr);
    if j == 0 {
      NoRefBelow(refs, objs, src, addr);
    } else {
      FetchBelow(src, refs, objs, addr, size, j, FetchIn(src, refs[j - 1], addr, size));
    }
  }

  lemma FetchExact(src: seq<byte>, refs: seq<ContentRef>, objs: seq<HeapObject>, k: nat, size: u64)
    returns (h: nat)
    requires IsRefTable(refs, objs, src) && InAddressSpace(objs) && k < |refs|
    ensures AnsweredBy(objs, refs[k].addr, size, false, FetchRef(src, refs[k], 0, size), h)
  {
    h := ObjectOfRef(refs, objs, src, k);
    FetchIsSlice(src, refs[k], objs[h], 0, size);
  }

  lemma FetchBelow(src: seq<byte>, refs: seq<ContentRef>, objs: seq<HeapObject>, addr: u64, size: u64, j: nat, r: Option<seq<byte>>)
    requires IsRefTable(refs, objs, src) && InAddressSpace(objs) && Ascending(refs, Addr) && 0 < j <= |refs|
    requires Addr(refs[j - 1]) <= addr
    requires forall i :: j <= i < |refs| ==> addr < Addr(refs[i])
    requires r == FetchIn(src, refs[j - 1], addr, size)
    requires size > 0 && addr > 0 && addr + size <= MAX_U64
    ensures Answers(objs, addr, size, false, r)
  {
    var h := ObjectOfRef(refs, objs, src, j - 1);
    LastRef(refs, objs, src, addr, j, h);
    Fetched(src, refs[j - 1], objs, h, addr, size, r);
    Answered(objs, addr, size, r, h);
  }

  lemma Fetched(src: seq<byte>, ref: ContentRef, objs: seq<HeapObject>, h: nat, addr: u64, size: u64, r: Option<seq<byte>>)
    requires Holds(objs, h, addr) && IsRefOf(ref, objs[h], src) && r == FetchIn(src, ref, addr, size)
    ensures AnsweredBy(objs, addr, size, false, r, h)
  {
    FetchInIsSlice(src, ref, objs[h], addr, size);
  }

  ghost predicate IsIndex(byAddr: map<u64, nat>, refs: seq<ContentRef>, n: nat)
    requires n <= |refs|
  {
    && (forall a :: a in byAddr ==> byAddr[a] < n && refs[byAddr[a]].addr == a)
    && (forall i :: 0 <= i < n ==> refs[i].addr in byAddr)
  }

  lemma WrapSplit(a: u64, b: u64)
    ensures a + b <= MAX_U64 ==> (a + b) % TWO64 == a + b
    ensures a + b > MAX_U64 ==> (a + b) % TWO64 == a + b - TWO64 < a
  {
    if a + b > MAX_U64 {
      assert (a + b) % TWO64 == a + b - TWO64;
    }
  }

  lemma SliceOfSlice(src: seq<byte>, at: nat, length: nat, offset: nat, size: nat)
    requires at + length <= |src| && offset + size <= length
    ensures src[at..at + length][offset..offset + size] == src[at + offset..at + offset + size]
  {
    var a, b := src[at..at + length][offset..offset + size], src[at + offset..at + offset + size];
    forall i | 0 <= i < size
      ensures a[i] == b[i]
    {
      assert a[i] == src[at..at + length][offset + i];
    }
  }

  lemma SortedRefs(refs: seq<ContentRef>, sorted: seq<ContentRef>, objs: seq<HeapObject>, data: seq<byte>)
    requires multiset(refs) == multiset(sorted) && IsRefTable(refs, objs, data)
    ensures IsRefTable(sorted, objs, data)
  {
    SameElements(refs, sorted);
    forall k | 0 <= k < |sorted|
      ensures HasObject(sorted[k], objs, data)
    {
      assert sorted[k] in sorted;
      var l :| 0 <= l < |refs| && refs[l] == sorted[k];
    }
    forall i | 0 <= i < |objs| && |objs[i].contents| > 0
      ensures HasRef(objs[i], sorted, data)
    {
      assert HasRef(objs[i], refs, data);
      var r :| r in refs && IsRefOf(r, objs[i], data);
      assert r in sorted;
    }
  }

  lemma NoRefBelow(refs: seq<ContentRef>, objs: seq<HeapObject>, data: seq<byte>, addr: u64)
    requires IsRefTable(refs, objs, data)
    requires forall i :: 0 <= i < |refs| ==> addr < Addr(refs[i])
    ensures forall i: nat :: !Holds(objs, i, addr)
  {
    forall i: nat
      ensures !Holds(objs, i, addr)
    {
      if i < |objs| && Kept(objs[i]) {
        var k := RefOfObject(refs, objs, data, i);
        assert addr < Addr(refs[k]);
      }
    }
  }

  lemma RefOfObject(refs: seq<ContentRef>, objs: seq<HeapObject>, data: seq<byte>, i: nat) returns (k: nat)
    requires IsRefTable(refs, objs, data) && i < |objs| && |objs[i].contents| > 0
    ensures k < |refs| && IsRefOf(refs[k], objs[i], data)
  {
    assert HasRef(objs[i], refs, data);
    var r :| r in refs && IsRefOf(r, objs[i], data);
    k :| 0 <= k < |refs| && refs[k] == r;
  }

  lemma ObjectOfRef(refs: seq<ContentRef>, objs: seq<HeapObject>, data: seq<byte>, k: nat) returns (h: nat)
    requires IsRefTable(refs, objs, data) && k < |refs|
    ensures h < |objs| && IsRefOf(refs[k], objs[h], data)
  {
    assert HasObject(refs[k], objs, data);
    h :| h < |objs| && IsRefOf(refs[k], objs[h], data);
  }

  // The object of the last place at or below addr starts last at or below addr.
  lemma LastRef(refs: seq<ContentRef>, objs: seq<HeapObject>, data: seq<byte>, addr: u64, j: nat, h: nat)
    requires IsRefTable(refs, objs, data) && InAddressSpace(objs) && Ascending(refs, Addr) && 0 < j <= |refs|
    requires Addr(refs[j - 1]) <= addr
    requires forall i :: j <= i < |refs| ==> addr < Addr(refs[i])
    requires h < |objs| && IsRefOf(refs[j - 1], objs[h], data)
    ensures Holds(objs, h, addr)
  {
    forall i: nat | i < |objs| && Kept(objs[i]) && objs[i].addr <= addr
      ensures objs[i].addr <= objs[h].addr
    {
      RefBelow(refs, objs, data, addr, j, i);
    }
  }

  lemma RefBelow(refs: seq<ContentRef>, objs: seq<HeapObject>, data: seq<byte>, addr: u64, j: nat, i: nat)
    requires IsRefTable(refs, objs, data) && Ascending(refs, Addr) && 0 < j <= |refs|
    requires forall k :: j <= k < |refs| ==> addr < Addr(refs[k])
    requires i < |objs| && |objs[i].contents| > 0 && objs[i].addr <= addr
    ensures objs[i].addr <= Addr(refs[j - 1])
  {
    var k := RefOfObject(refs, objs, data, i);
    assert Addr(refs[k]) <= addr;
    assert k < j;
    assert Addr(refs[k]) <= Addr(refs[j - 1]);
  }
}
