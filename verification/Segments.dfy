// The saved read-only segments of a bundle (internal/bundle/segreader.go).
module Segments {
  import opened Words
  import opened Wrappers
  import opened Order

  // One entry of the segment index; name identifies its data member.
  datatype Info = Info(name: nat, addr: u64, size: u64)

  datatype Segment = Segment(start: u64, end: u64, data: seq<byte>)

  datatype SegmentError = CountMismatch | SizeMismatch(i: nat) | RangeOverflows(i: nat) | RangesOverlap

  function Start(s: Segment): int { s.start }

  // ---- What is acceptable ----

  // Entry i has as many bytes as it says and stays in the address space.
  predicate WellSized(infos: seq<Info>, data: seq<seq<byte>>, i: nat)
    requires i < |infos| == |data|
  {
    |data[i]| == infos[i].size && infos[i].addr + infos[i].size <= MAX_U64
  }

  predicate Apart(a: Info, b: Info)
  {
    a.addr + a.size <= b.addr || b.addr + b.size <= a.addr
  }

  // Every two non-empty ranges are disjoint.
  ghost predicate PairwiseDisjoint(infos: seq<Info>)
  {
    forall i, j :: 0 <= i < j < |infos| && infos[i].size > 0 && infos[j].size > 0 ==> Apart(infos[i], infos[j])
  }

  ghost predicate Acceptable(infos: seq<Info>, data: seq<seq<byte>>)
  {
    && |infos| == |data|
    && (forall i :: 0 <= i < |infos| ==> WellSized(infos, data, i))
    && PairwiseDisjoint(infos)
  }

  function SegmentOf(infos: seq<Info>, data: seq<seq<byte>>, i: nat): Segment
    requires i < |infos| == |data| && WellSized(infos, data, i)
  {
    Segment(infos[i].addr, infos[i].addr + infos[i].size, data[i])
  }

  // The segments of the first n entries, empty ones left out, in index order.
  function SegmentsUpTo(infos: seq<Info>, data: seq<seq<byte>>, n: nat): seq<Segment>
    requires n <= |infos| == |data| && forall i :: 0 <= i < n ==> WellSized(infos, data, i)
  {
    if n == 0 then []
    else if infos[n - 1].size == 0 then SegmentsUpTo(infos, data, n - 1)
    else SegmentsUpTo(infos, data, n - 1) + [SegmentOf(infos, data, n - 1)]
  }

  ghost predicate Overlap(a: Segment, b: Segment)
  {
    a.start < b.end && b.start < a.end
  }

  ghost predicate SegmentsApart(segs: seq<Segment>)
  {
    forall k, l :: 0 <= k < l < |segs| ==> !Overlap(segs[k], segs[l])
  }

  ghost predicate AllProper(segs: seq<Segment>)
  {
    forall k :: 0 <= k < |segs| ==> segs[k].start < segs[k].end && |segs[k].data| == segs[k].end - segs[k].start
  }

  ghost predicate ComesFrom(s: Segment, infos: seq<Info>, data: seq<seq<byte>>, n: nat)
    requires n <= |infos| == |data| && forall i :: 0 <= i < n ==> WellSized(infos, data, i)
  {
    exists i :: 0 <= i < n && infos[i].size > 0 && s == SegmentOf(infos, data, i)
  }

  lemma {:induction false} SegmentsAre(infos: seq<Info>, data: seq<seq<byte>>, n: nat)
    requires n <= |infos| == |data| && forall i :: 0 <= i < n ==> WellSized(infos, data, i)
    ensures AllProper(SegmentsUpTo(infos, data, n))
    ensures forall s :: s in SegmentsUpTo(infos, data, n) <==> ComesFrom(s, infos, data, n)
  {
    if n > 0 {
      SegmentsAre(infos, data, n - 1);
      assert WellSized(infos, data, n - 1);
      var before, all := SegmentsUpTo(infos, data, n - 1), SegmentsUpTo(infos, data, n);
      forall s
        ensures s in all <==> ComesFrom(s, infos, data, n)
      {
        if ComesFrom(s, infos, data, n - 1) {
          var i :| 0 <= i < n - 1 && infos[i].size > 0 && s == SegmentOf(infos, data, i);
          assert s == SegmentOf(infos, data, i);
        }
        if ComesFrom(s, infos, data, n) {
          var i :| 0 <= i < n && infos[i].size > 0 && s == SegmentOf(infos, data, i);
          assert i < n - 1 ==> ComesFrom(s, infos, data, n - 1);
        }
        if infos[n - 1].size > 0 && s == SegmentOf(infos, data, n - 1) {
          assert s == all[|before|];
        }
      }
    }
  }

  // Disjointness of the entries is disjointness of the segments.
  lemma {:induction false} ApartIs(infos: seq<Info>, data: seq<seq<byte>>, n: nat)
    requires n <= |infos| == |data| && forall i :: 0 <= i < n ==> WellSized(infos, data, i)
    ensures SegmentsApart(SegmentsUpTo(infos, data, n)) <==> PairwiseDisjoint(infos[..n])
  {
    if n > 0 {
      ApartIs(infos, data, n - 1);
      SegmentsAre(infos, data, n - 1);
      var p, q := infos[..n - 1], infos[..n];
      assert forall i :: 0 <= i < n - 1 ==> p[i] == q[i];
      if infos[n - 1].size == 0 {
        assert PairwiseDisjoint(p) <==> PairwiseDisjoint(q);
      } else {
        LastApart(infos, data, n);
      }
    }
  }

  lemma LastApart(infos: seq<Info>, data: seq<seq<byte>>, n: nat)
    requires 0 < n <= |infos| == |data| && infos[n - 1].size > 0
    requires forall i :: 0 <= i < n ==> WellSized(infos, data, i)
    requires SegmentsApart(SegmentsUpTo(infos, data, n - 1)) <==> PairwiseDisjoint(infos[..n - 1])
    ensures SegmentsApart(SegmentsUpTo(infos, data, n)) <==> PairwiseDisjoint(infos[..n])
  {
    if SegmentsApart(SegmentsUpTo(infos, data, n)) {
      EntriesApart(infos, data, n);
    }
    if PairwiseDisjoint(infos[..n]) {
      SegmentsStayApart(infos, data, n);
    }
  }

  lemma EntriesApart(infos: seq<Info>, data: seq<seq<byte>>, n: nat)
    requires 0 < n <= |infos| == |data| && infos[n - 1].size > 0
    requires forall i :: 0 <= i < n ==> WellSized(infos, data, i)
    requires SegmentsApart(SegmentsUpTo(infos, data, n - 1)) ==> PairwiseDisjoint(infos[..n - 1])
    requires SegmentsApart(SegmentsUpTo(infos, data, n))
    ensures PairwiseDisjoint(infos[..n])
  {
    SegmentsAre(infos, data, n - 1);
    var p, q := infos[..n - 1], infos[..n];
    var before, all := SegmentsUpTo(infos, data, n - 1), SegmentsUpTo(infos, data, n);
    forall k, l | 0 <= k < l < |before|
      ensures !Overlap(before[k], before[l])
    {
      assert !Overlap(all[k], all[l]);
    }
    forall i | 0 <= i < n - 1 && infos[i].size > 0
      ensures Apart(infos[i], infos[n - 1])
    {
      assert ComesFrom(SegmentOf(infos, data, i), infos, data, n - 1);
      assert SegmentOf(infos, data, i) in before;
      var k :| 0 <= k < |before| && before[k] == SegmentOf(infos, data, i);
      assert !Overlap(all[k], all[|before|]);
    }
    forall i, j | 0 <= i < j < |q| && q[i].size > 0 && q[j].size > 0
      ensures Apart(q[i], q[j])
    {
      if j < n - 1 {
        assert Apart(p[i], p[j]);
      }
    }
  }

  lemma SegmentsStayApart(infos: seq<Info>, data: seq<seq<byte>>, n: nat)
    requires 0 < n <= |infos| == |data| && infos[n - 1].size > 0
    requires forall i :: 0 <= i < n ==> WellSized(infos, data, i)
    requires PairwiseDisjoint(infos[..n - 1]) ==> SegmentsApart(SegmentsUpTo(infos, data, n - 1))
    requires PairwiseDisjoint(infos[..n])
    ensures SegmentsApart(SegmentsUpTo(infos, data, n))
  {
    SegmentsAre(infos, data, n - 1);
    var p, q := infos[..n - 1], infos[..n];
    var before, last := SegmentsUpTo(infos, data, n - 1), SegmentOf(infos, data, n - 1);
    forall i, j | 0 <= i < j < |p| && p[i].size > 0 && p[j].size > 0
      ensures Apart(p[i], p[j])
    {
      assert Apart(q[i], q[j]);
    }
    forall k | 0 <= k < |before|
      ensures !Overlap(before[k], last)
    {
      assert before[k] in before;
      assert ComesFrom(before[k], infos, data, n - 1);
      var i :| 0 <= i < n - 1 && infos[i].size > 0 && before[k] == SegmentOf(infos, data, i);
      assert Apart(q[i], q[n - 1]);
    }
  }

  // Sorted by start, comparing neighbours is enough.
  lemma NeighboursDecide(segs: seq<Segment>)
    requires Ascending(segs, Start) && AllProper(segs)
    ensures SegmentsApart(segs) <==> forall k, l :: 0 <= k && l == k + 1 < |segs| ==> segs[k].end <= segs[l].start
  {
    if SegmentsApart(segs) {
      forall k, l | 0 <= k && l == k + 1 < |segs|
        ensures segs[k].end <= segs[l].start
      {
        assert Start(segs[k]) <= Start(segs[l]);
        assert !Overlap(segs[k], segs[l]);
      }
    }
    if forall k, l :: 0 <= k && l == k + 1 < |segs| ==> segs[k].end <= segs[l].start {
      forall k, l | 0 <= k < l < |segs|
        ensures !Overlap(segs[k], segs[l])
      {
        var m := k + 1;
        assert segs[k].end <= segs[m].start;
        assert m < l ==> Start(segs[m]) <= Start(segs[l]);
      }
    }
  }

  // Reordering changes nothing about overlap.
  lemma SortedApart(segs: seq<Segment>, sorted: seq<Segment>)
    requires multiset(segs) == multiset(sorted) && AllProper(segs)
    ensures AllProper(sorted)
    ensures SegmentsApart(segs) <==> SegmentsApart(sorted)
  {
    SameElements(segs, sorted);
    forall k | 0 <= k < |sorted|
      ensures sorted[k].start < sorted[k].end && |sorted[k].data| == sorted[k].end - sorted[k].start
    {
      assert sorted[k] in segs;
    }
    if SegmentsApart(segs) {
      ApartTransfers(segs, sorted);
    }
    if SegmentsApart(sorted) {
      ApartTransfers(sorted, segs);
    }
  }

  lemma ApartTransfers(a: seq<Segment>, b: seq<Segment>)
    requires multiset(a) == multiset(b) && AllProper(a) && SegmentsApart(a)
    ensures SegmentsApart(b)
  {
    forall k, l | 0 <= k < l < |b|
      ensures !Overlap(b[k], b[l])
    {
      var i, j := TwoPositions(a, b, k, l);
      assert !Overlap(a[if i < j then i else j], a[if i < j then j else i]);
    }
  }

  // The reader is built exactly for acceptable input, from its non-empty entries.
  method NewSegmentsReader(infos: seq<Info>, data: seq<seq<byte>>) returns (r: Result<seq<Segment>, SegmentError>)
    ensures r.Ok? <==> Acceptable(infos, data)
    ensures r.Ok? ==> Ascending(r.value, Start) && AllProper(r.value) && SegmentsApart(r.value)
    ensures r.Ok? ==> multiset(r.value) == multiset(SegmentsUpTo(infos, data, |infos|))
  {
    if |infos| != |data| {
      return Err(CountMismatch);
    }
    var segs: seq<Segment> := [];
    for i := 0 to |infos|
      invariant forall j :: 0 <= j < i ==> WellSized(infos, data, j)
      invariant segs == SegmentsUpTo(infos, data, i)
    {
      if |data[i]| != infos[i].size {
        assert !WellSized(infos, data, i);
        return Err(SizeMismatch(i));
      }
      AddIsExact(infos[i].addr, infos[i].size);
      var end := AddUint64(infos[i].addr, infos[i].size);
      if !end.1 {
        assert !WellSized(infos, data, i);
        return Err(RangeOverflows(i));
      }
      if infos[i].size == 0 {
        continue;
      }
      segs := segs + [Segment(infos[i].addr, end.0, data[i])];
    }
    SegmentsAre(infos, data, |infos|);
    ApartIs(infos, data, |infos|);
    assert infos[..|infos|] == infos;
    var sorted := SortByKey(segs, Start);
    SortedApart(segs, sorted);
    NeighboursDecide(sorted);
    var ok := CheckNeighbours(sorted);
    return if ok then Ok(sorted) else Err(RangesOverlap);
  }

  method CheckNeighbours(segs: seq<Segment>) returns (ok: bool)
    ensures ok <==> forall k, l :: 0 <= k && l == k + 1 < |segs| ==> segs[k].end <= segs[l].start
  {
    var i := 1;
    while i < |segs|
      invariant forall k, l :: 0 <= k && l == k + 1 < |segs| && l < i ==> segs[k].end <= segs[l].start
    {
      if segs[i].start < segs[i - 1].end {
        return false;
      }
      i := i + 1;
    }
    return true;
  }

  // ---- Reading ----

  // The read lies inside the segment.
  predicate Covers(s: Segment, addr: u64, size: u64)
  {
    s.start <= addr && addr + size <= s.end
  }

  // The bytes of the read, from the one segment it lies in.
  ghost predicate IsAnswer(segs: seq<Segment>, addr: u64, size: u64, r: Option<seq<byte>>)
  {
    if size == 0 then r == Some([])
    else if addr == 0 then r == None
    else
      match r
      case Some(b) => exists k :: 0 <= k < |segs| && IsSlice(segs[k], addr, size, b)
      case None => forall k :: 0 <= k < |segs| ==> !Covers(segs[k], addr, size)
  }

  ghost predicate IsSlice(s: Segment, addr: u64, size: u64, b: seq<byte>)
  {
    && Covers(s, addr, size) && |s.data| == s.end - s.start
    && b == s.data[addr - s.start..addr - s.start + size]
  }

  method ReadAtAddr(segs: seq<Segment>, addr: u64, size: u64) returns (r: Option<seq<byte>>)
    requires Ascending(segs, Start) && AllProper(segs) && SegmentsApart(segs)
    ensures IsAnswer(segs, addr, size, r)
  {
    if size == 0 {
      return Some([]);
    }
    if addr == 0 {
      return None;
    }
    AddIsExact(addr, size);
    var end := AddUint64(addr, size);
    if !end.1 {
      return None;
    }
    var i := SearchAbove(segs, Start, addr);
    OnlyCandidate(segs, addr, size, i);
    if i == 0 {
      return None;
    }
    var s := segs[i - 1];
    assert Start(s) <= addr;
    if addr < s.start || end.0 > s.end {
      return None;
    }
    assert IsSlice(s, addr, size, s.data[addr - s.start..end.0 - s.start]);
    return Some(s.data[addr - s.start..end.0 - s.start]);
  }

  // Only the last segment that starts at or below addr can cover a read there.
  lemma OnlyCandidate(segs: seq<Segment>, addr: u64, size: u64, i: nat)
    requires Ascending(segs, Start) && AllProper(segs) && SegmentsApart(segs) && i <= |segs| && size > 0
    requires forall k :: 0 <= k < i ==> Start(segs[k]) <= addr
    requires forall k :: i <= k < |segs| ==> addr < Start(segs[k])
    ensures forall k :: 0 <= k < |segs| && Covers(segs[k], addr, size) ==> k == i - 1
  {
    forall k | 0 <= k < |segs| && Covers(segs[k], addr, size)
      ensures k == i - 1
    {
      assert Start(segs[k]) <= addr;
      assert k < i && Start(segs[i - 1]) <= addr;
      ApartAt(segs, k, i - 1);
    }
  }

  lemma ApartAt(segs: seq<Segment>, k: int, l: int)
    requires SegmentsApart(segs) && AllProper(segs)
    ensures 0 <= k < l < |segs| ==> !Overlap(segs[k], segs[l]) && segs[l].start < segs[l].end
  {}
}
