// Saving read-only memory in a bundle and reading it back (internal/bundle:
// capture.go, write.go, read.go). A bundle is a list of named members.
module Bundle {
  import opened Words
  import opened Wrappers
  import opened AddressSpace
  import opened Segments
  import Order

  const CHUNK: nat := 0x10_0000
  const DEFAULT_BUDGET: nat := 0x1000_0000

  datatype Mapping = Mapping(start: u64, end: u64)

  datatype Status = RodataOK | RodataTruncated | RodataUnavailable

  // What becomes of a range.
  datatype Verdict = Empty | Unreadable | TooLarge | Taken

  // size in wrapping arithmetic, as computed.
  function SizeOf(m: Mapping): u64
  {
    (m.end - m.start) % TWO64
  }

  function Probe(size: u64): u64 { if size < CHUNK then size else CHUNK }

  // The first and the last chunk can be read.
  predicate Readable(r: Reader, addr: u64, size: u64)
  {
    r(addr, Probe(size)).Some? && (size > Probe(size) ==> r((addr + size - Probe(size)) % TWO64, Probe(size)).Some?)
  }

  method ProbeRange(r: Reader, addr: u64, size: u64) returns (ok: bool)
    ensures ok == Readable(r, addr, size)
  {
    var probe := CHUNK;
    if probe > size {
      probe := size;
    }
    if r(addr, probe).None? {
      return false;
    }
    if size > probe {
      return r((addr + size - probe) % TWO64, probe).Some?;
    }
    return true;
  }

  function VerdictOn(r: Reader, m: Mapping, budget: nat): Verdict
  {
    if SizeOf(m) == 0 then Empty
    else if !Readable(r, m.start, SizeOf(m)) then Unreadable
    else if SizeOf(m) > budget then TooLarge
    else Taken
  }

  // Choices so far: the ranges taken, what is left of the budget, and whether one
  // was dropped for size.
  datatype Choice = Choice(taken: seq<Mapping>, budget: nat, truncated: bool)

  function Choose(r: Reader, c: Choice, m: Mapping): Choice
  {
    match VerdictOn(r, m, c.budget)
    case Taken => Choice(c.taken + [m], c.budget - SizeOf(m), c.truncated)
    case TooLarge => c.(truncated := true)
    case _ => c
  }

  function ChooseUpTo(r: Reader, ms: seq<Mapping>, n: nat, budget: nat): Choice
    requires n <= |ms|
  {
    if n == 0 then Choice([], budget, false) else Choose(r, ChooseUpTo(r, ms, n - 1, budget), ms[n - 1])
  }

  function Budget(maxBytes: int): nat
  {
    if maxBytes <= 0 then DEFAULT_BUDGET else maxBytes
  }

  // ---- Which ranges are taken ----

  // The ends that are read: as much as a chunk at the start and, of a longer range, as
  // much before its end.
  predicate EndsRead(r: Reader, m: Mapping)
  {
    if SizeOf(m) <= 0x10_0000 then r(m.start, SizeOf(m)).Some?
    else r(m.start, 0x10_0000).Some? && r((m.end - 0x10_0000) % TWO64, 0x10_0000).Some?
  }

  lemma EndsReadMeans(r: Reader, m: Mapping)
    ensures EndsRead(r, m) <==> Readable(r, m.start, SizeOf(m))
  {
    assert (m.start + SizeOf(m) - CHUNK) % TWO64 == (m.end - CHUNK) % TWO64;
  }

  // The bytes of the kept ranges below index n.
  ghost function Spent(ms: seq<Mapping>, kept: set<nat>, n: nat): nat
    requires n <= |ms|
  {
    if n == 0 then 0 else Spent(ms, kept, n - 1) + (if n - 1 in kept then SizeOf(ms[n - 1]) else 0)
  }

  // The kept ranges below index n, in order.
  ghost function Kept(ms: seq<Mapping>, kept: set<nat>, n: nat): seq<Mapping>
    requires n <= |ms|
  {
    if n == 0 then [] else Kept(ms, kept, n - 1) + (if n - 1 in kept then [ms[n - 1]] else [])
  }

  // Not empty and readable, so that only the budget can keep it out.
  predicate IsCandidate(r: Reader, m: Mapping)
  {
    m.start != m.end && EndsRead(r, m)
  }

  // A candidate below index n is kept exactly when it fits what earlier ones left.
  ghost predicate KeepsWhatFits(r: Reader, ms: seq<Mapping>, n: nat, budget: nat, kept: set<nat>)
    requires n <= |ms|
  {
    forall i: nat :: i in kept <==> i < n && IsCandidate(r, ms[i]) && Spent(ms, kept, i) + SizeOf(ms[i]) <= budget
  }

  ghost predicate DoesNotFit(r: Reader, ms: seq<Mapping>, i: nat, budget: nat, kept: set<nat>)
    requires i < |ms|
  {
    IsCandidate(r, ms[i]) && Spent(ms, kept, i) + SizeOf(ms[i]) > budget
  }

  ghost predicate SomeDropped(r: Reader, ms: seq<Mapping>, n: nat, budget: nat, kept: set<nat>)
    requires n <= |ms|
  {
    exists i: nat :: i < n && DoesNotFit(r, ms, i, budget, kept)
  }

  ghost predicate IsSelection(r: Reader, ms: seq<Mapping>, budget: nat, taken: seq<Mapping>, status: Status, kept: set<nat>)
  {
    && KeepsWhatFits(r, ms, |ms|, budget, kept) && taken == Kept(ms, kept, |ms|)
    && (status == RodataTruncated <==> SomeDropped(r, ms, |ms|, budget, kept))
    && (status == RodataUnavailable <==> forall i: nat :: i < |ms| ==> !IsCandidate(r, ms[i]))
  }

  // What is taken of the eligible ranges: 256 MiB unless a budget is given.
  ghost predicate IsSelected(r: Reader, ms: seq<Mapping>, maxBytes: int, taken: seq<Mapping>, status: Status)
  {
    exists budget: nat, kept: set<nat> ::
      budget == (if maxBytes <= 0 then 0x1000_0000 else maxBytes) && IsSelection(r, ms, budget, taken, status, kept)
  }

  lemma {:induction false} LaterIrrelevant(ms: seq<Mapping>, kept: set<nat>, more: set<nat>, n: nat)
    requires n <= |ms| && forall i: nat :: i < n ==> (i in more <==> i in kept)
    ensures Spent(ms, more, n) == Spent(ms, kept, n) && Kept(ms, more, n) == Kept(ms, kept, n)
  {
    if n > 0 {
      LaterIrrelevant(ms, kept, more, n - 1);
    }
  }

  lemma ModIsZero(m: Mapping)
    ensures SizeOf(m) == 0 <==> m.start == m.end
  {}

  // One more range: kept when it is a candidate and fits.
  lemma KeepNext(r: Reader, ms: seq<Mapping>, n: nat, budget: nat, before: set<nat>) returns (kept: set<nat>)
    requires n < |ms| && KeepsWhatFits(r, ms, n, budget, before)
    ensures KeepsWhatFits(r, ms, n + 1, budget, kept)
    ensures forall i: nat :: i <= n ==> Spent(ms, kept, i) == Spent(ms, before, i) && Kept(ms, kept, i) == Kept(ms, before, i)
    ensures n in kept <==> IsCandidate(r, ms[n]) && Spent(ms, before, n) + SizeOf(ms[n]) <= budget
  {
    kept := if IsCandidate(r, ms[n]) && Spent(ms, before, n) + SizeOf(ms[n]) <= budget then before + {n} else before;
    forall i: nat | i <= n
      ensures Spent(ms, kept, i) == Spent(ms, before, i) && Kept(ms, kept, i) == Kept(ms, before, i)
    {
      LaterIrrelevant(ms, before, kept, i);
    }
  }

  lemma DroppedNext(r: Reader, ms: seq<Mapping>, n: nat, budget: nat, before: set<nat>, kept: set<nat>)
    requires n < |ms| && forall i: nat :: i <= n ==> Spent(ms, kept, i) == Spent(ms, before, i)
    ensures SomeDropped(r, ms, n + 1, budget, kept) <==> SomeDropped(r, ms, n, budget, before) || DoesNotFit(r, ms, n, budget, before)
  {
    forall i: nat | i <= n
      ensures DoesNotFit(r, ms, i, budget, kept) <==> DoesNotFit(r, ms, i, budget, before)
    {
      assert Spent(ms, kept, i) == Spent(ms, before, i);
    }
    if SomeDropped(r, ms, n, budget, before) {
      var i: nat :| i < n && DoesNotFit(r, ms, i, budget, before);
      assert DoesNotFit(r, ms, i, budget, kept);
    }
  }

  lemma VerdictMeans(r: Reader, m: Mapping, budget: nat)
    ensures VerdictOn(r, m, budget) == Taken <==> IsCandidate(r, m) && SizeOf(m) <= budget
    ensures VerdictOn(r, m, budget) == TooLarge <==> IsCandidate(r, m) && SizeOf(m) > budget
  {
    EndsReadMeans(r, m);
    ModIsZero(m);
  }

  ghost predicate IsChoice(r: Reader, ms: seq<Mapping>, n: nat, budget: nat, kept: set<nat>, c: Choice)
    requires n <= |ms|
  {
    && KeepsWhatFits(r, ms, n, budget, kept) && c.taken == Kept(ms, kept, n) && c.budget + Spent(ms, kept, n) == budget
    && (c.truncated <==> SomeDropped(r, ms, n, budget, kept))
  }

  lemma {:induction false} ChoiceMeans(r: Reader, ms: seq<Mapping>, n: nat, budget: nat) returns (kept: set<nat>)
    requires n <= |ms|
    ensures IsChoice(r, ms, n, budget, kept, ChooseUpTo(r, ms, n, budget))
  {
    if n == 0 {
      kept := {};
    } else {
      var before := ChoiceMeans(r, ms, n - 1, budget);
      kept := ChoiceNext(r, ms, n - 1, budget, before, ChooseUpTo(r, ms, n - 1, budget));
    }
  }

  lemma ChoiceNext(r: Reader, ms: seq<Mapping>, n: nat, budget: nat, before: set<nat>, c: Choice) returns (kept: set<nat>)
    requires n < |ms| && IsChoice(r, ms, n, budget, before, c)
    ensures IsChoice(r, ms, n + 1, budget, kept, Choose(r, c, ms[n]))
  {
    kept := KeepNext(r, ms, n, budget, before);
    DroppedNext(r, ms, n, budget, before, kept);
    VerdictMeans(r, ms[n], c.budget);
  }

  // The first candidate always is kept or does not fit.
  lemma {:induction false} NoneKept(r: Reader, ms: seq<Mapping>, n: nat, budget: nat, kept: set<nat>)
    requires n <= |ms| && KeepsWhatFits(r, ms, |ms|, budget, kept)
    ensures Kept(ms, kept, n) == [] <==> forall i: nat :: i < n ==> i !in kept
  {
    if n > 0 {
      NoneKept(r, ms, n - 1, budget, kept);
    }
  }

  lemma Selected(r: Reader, ms: seq<Mapping>, budget: nat, taken: seq<Mapping>, status: Status) returns (kept: set<nat>)
    requires var c := ChooseUpTo(r, ms, |ms|, budget);
      && taken == c.taken
      && status == if c.truncated then RodataTruncated else if |taken| == 0 then RodataUnavailable else RodataOK
    ensures IsSelection(r, ms, budget, taken, status, kept)
  {
    kept := ChoiceMeans(r, ms, |ms|, budget);
    NoneKept(r, ms, |ms|, budget, kept);
    if taken == [] && !SomeDropped(r, ms, |ms|, budget, kept) {
      forall i: nat | i < |ms|
        ensures !IsCandidate(r, ms[i])
      {
        assert i !in kept && !DoesNotFit(r, ms, i, budget, kept);
      }
    }
  }

  method CollectSegments(r: Reader, ms: seq<Mapping>, maxBytes: int) returns (taken: seq<Mapping>, status: Status)
    ensures (var c := ChooseUpTo(r, ms, |ms|, Budget(maxBytes));
             && taken == c.taken
             && status == if c.truncated then RodataTruncated else if |taken| == 0 then RodataUnavailable else RodataOK)
    ensures IsSelected(r, ms, maxBytes, taken, status)
  {
    var budget: nat := if maxBytes <= 0 then DEFAULT_BUDGET else maxBytes;
    status, taken := RodataOK, [];
    for i := 0 to |ms|
      invariant Choice(taken, budget, status == RodataTruncated) == ChooseUpTo(r, ms, i, Budget(maxBytes))
      invariant status != RodataUnavailable
    {
      var m := ms[i];
      var size := SizeOf(m);
      if size == 0 {
        continue;
      }
      var ok := ProbeRange(r, m.start, size);
      if !ok {
        continue;
      }
      if size > budget {
        status := RodataTruncated;
        continue;
      }
      budget := budget - size;
      taken := taken + [m];
    }
    if |taken| == 0 && status == RodataOK {
      status := RodataUnavailable;
    }
    ghost var kept := Selected(r, ms, Budget(maxBytes), taken, status);
  }

  function Total(ms: seq<Mapping>): nat
  {
    if |ms| == 0 then 0 else Total(ms[..|ms| - 1]) + SizeOf(ms[|ms| - 1])
  }

  lemma {:induction false} BudgetAddsUp(r: Reader, ms: seq<Mapping>, n: nat, budget: nat)
    requires n <= |ms|
    ensures (var c := ChooseUpTo(r, ms, n, budget); Total(c.taken) + c.budget == budget)
  {
    if n > 0 {
      BudgetAddsUp(r, ms, n - 1, budget);
      var c := ChooseUpTo(r, ms, n - 1, budget);
      assert (c.taken + [ms[n - 1]])[..|c.taken|] == c.taken;
    }
  }

  lemma {:induction false} TakenAreEligible(r: Reader, ms: seq<Mapping>, n: nat, budget: nat, m: Mapping)
    requires n <= |ms| && m in ChooseUpTo(r, ms, n, budget).taken
    ensures m in ms[..n] && SizeOf(m) > 0 && Readable(r, m.start, SizeOf(m))
  {
    assert ms[..n] == ms[..n - 1] + [ms[n - 1]];
    if m in ChooseUpTo(r, ms, n - 1, budget).taken {
      TakenAreEligible(r, ms, n - 1, budget, m);
    }
  }

  // The bytes taken never exceed the budget, and the segments taken are eligible,
  // not empty, and readable at both ends.
  lemma BudgetHolds(r: Reader, ms: seq<Mapping>, n: nat, budget: nat)
    requires n <= |ms|
    ensures (var c := ChooseUpTo(r, ms, n, budget); Total(c.taken) + c.budget == budget)
    ensures forall m :: m in ChooseUpTo(r, ms, n, budget).taken ==>
      m in ms[..n] && SizeOf(m) > 0 && Readable(r, m.start, SizeOf(m))
  {
    BudgetAddsUp(r, ms, n, budget);
    forall m | m in ChooseUpTo(r, ms, n, budget).taken
      ensures m in ms[..n] && SizeOf(m) > 0 && Readable(r, m.start, SizeOf(m))
    {
      TakenAreEligible(r, ms, n, budget, m);
    }
  }

  // ---- Streaming a range ----

  // Reads [addr, addr + remaining) in bounded chunks.
  class RangeReader {
    const r: Reader
    var addr: u64
    var remaining: u64

    constructor (r: Reader, addr: u64, size: u64)
      ensures this.r == r && this.addr == addr && remaining == size
    {
      this.r, this.addr, this.remaining := r, addr, size;
    }

    // None is a failed read; an empty result is the end.
    method Read(n: nat) returns (b: Option<seq<byte>>)
      requires IsReader(r)
      modifies this
      ensures (var k := if old(remaining) < n then old(remaining) else n;
               var c := if k < CHUNK then k else CHUNK;
               && (old(remaining) > 0 ==> b == r(old(addr), c))
               && (old(remaining) == 0 ==> b == Some([]))
               && (b.Some? && old(remaining) > 0 ==> addr == (old(addr) + c) % TWO64 && remaining == old(remaining) - c)
               && (b.None? || old(remaining) == 0 ==> addr == old(addr) && remaining == old(remaining)))
    {
      if remaining == 0 {
        return Some([]);
      }
      var k: u64 := if remaining < n then remaining else n;
      if k > CHUNK {
        k := CHUNK;
      }
      b := r(addr, k);
      if b.None? {
        return;
      }
      addr, remaining := (addr + k) % TWO64, remaining - k;
    }
  }

  // Memory that does not change: every successful read shows the same image.
  ghost predicate IsStatic(r: Reader, image: int -> byte)
  {
    forall addr: u64, size: u64 {:trigger r(addr, size)} :: r(addr, size).Some? ==> Shows(r(addr, size).value, addr, image)
  }

  ghost predicate Shows(b: seq<byte>, addr: nat, image: int -> byte)
  {
    forall i :: 0 <= i < |b| ==> b[i] == image(addr + i)
  }

  // What one read with a buffer of n bytes asks for.
  function ChunkOf(remaining: nat, n: nat): nat
  {
    var k := if remaining < n then remaining else n;
    if k < CHUNK then k else CHUNK
  }

  // Every chunk of [addr, addr + remaining) can be read, with a buffer of n bytes.
  ghost predicate Streams(r: Reader, addr: nat, remaining: nat, n: nat)
    requires n > 0 && addr + remaining <= MAX_U64
    decreases remaining
  {
    remaining == 0 ||
    (var c := ChunkOf(remaining, n);
     r(addr, c).Some? && Streams(r, addr + c, remaining - c, n))
  }

  // A read of at most one chunk, inside the range, that fails.
  ghost predicate FailsAt(r: Reader, m: Mapping, addr: u64, size: u64)
  {
    m.start <= addr && 0 < size <= CHUNK && addr + size <= m.start + SizeOf(m) && r(addr, size).None?
  }

  ghost predicate HasFailure(r: Reader, m: Mapping)
  {
    exists addr: u64, size: u64 :: FailsAt(r, m, addr, size)
  }

  // Streaming stops short only at a failing read: a range that can be read
  // throughout is copied, whatever the buffer.
  lemma {:induction false} StreamsUnlessFailing(r: Reader, m: Mapping, addr: nat, remaining: nat, n: nat)
    requires n > 0 && m.start <= addr && addr + remaining == m.start + SizeOf(m) <= MAX_U64
    ensures Streams(r, addr, remaining, n) || HasFailure(r, m)
    decreases remaining
  {
    if remaining > 0 {
      var c := ChunkOf(remaining, n);
      if r(addr, c).Some? {
        StreamsUnlessFailing(r, m, addr + c, remaining - c, n);
      } else {
        assert FailsAt(r, m, addr, c);
      }
    }
  }

  // io.CopyN with a buffer of n bytes: the whole range, or failure when a chunk
  // cannot be read.
  method CopyRange(r: Reader, m: Mapping, n: nat, ghost image: int -> byte) returns (data: Option<seq<byte>>)
    requires IsReader(r) && IsStatic(r, image) && n > 0 && m.start + SizeOf(m) <= MAX_U64
    ensures data.Some? <==> Streams(r, m.start, SizeOf(m), n)
    ensures data.Some? ==> |data.value| == SizeOf(m) && Shows(data.value, m.start, image)
  {
    var rr := new RangeReader(r, m.start, SizeOf(m));
    var out: seq<byte> := [];
    while rr.remaining > 0
      invariant |out| + rr.remaining == SizeOf(m) && rr.addr == m.start + |out|
      invariant rr.r == r && Shows(out, m.start, image)
      invariant Streams(r, rr.addr, rr.remaining, n) <==> Streams(r, m.start, SizeOf(m), n)
      decreases rr.remaining
    {
      var b := NextChunk(rr, n, image);
      if b.None? {
        return None;
      }
      ShowsMore(out, b.value, m.start, image);
      out := out + b.value;
    }
    return Some(out);
  }

  // One chunk of the range, unless its read fails.
  method NextChunk(rr: RangeReader, n: nat, ghost image: int -> byte) returns (b: Option<seq<byte>>)
    requires IsReader(rr.r) && IsStatic(rr.r, image) && n > 0 && rr.remaining > 0 && rr.addr + rr.remaining <= MAX_U64
    modifies rr
    ensures b.None? ==> !Streams(rr.r, old(rr.addr), old(rr.remaining), n)
    ensures b.Some? ==>
      && |b.value| > 0 && rr.addr == old(rr.addr) + |b.value| && rr.remaining + |b.value| == old(rr.remaining)
      && Shows(b.value, old(rr.addr), image)
      && (Streams(rr.r, rr.addr, rr.remaining, n) <==> Streams(rr.r, old(rr.addr), old(rr.remaining), n))
  {
    ghost var addr, remaining := rr.addr, rr.remaining;
    b := rr.Read(n);
    assert b == rr.r(addr, ChunkOf(remaining, n));
  }

  lemma ShowsMore(a: seq<byte>, b: seq<byte>, addr: nat, image: int -> byte)
    requires Shows(a, addr, image) && Shows(b, addr + |a|, image)
    ensures Shows(a + b, addr, image)
  {}

  // ---- Members ----

  // A data member carries its position in the index as its name.
  datatype Member = IndexMember(infos: seq<Info>) | DataMember(i: nat, data: seq<byte>) | Ignored

  function InfoOf(ms: seq<Mapping>, i: nat): Info
    requires i < |ms|
  {
    Info(i, ms[i].start, SizeOf(ms[i]))
  }

  function InfosOf(ms: seq<Mapping>): seq<Info>
  {
    seq(|ms|, (i: int) requires 0 <= i < |ms| => InfoOf(ms, i))
  }

  // Every range can be streamed.
  ghost predicate AllStream(r: Reader, ms: seq<Mapping>, count: nat, n: nat)
    requires n > 0 && count <= |ms| && InSpace(ms)
  {
    forall i :: 0 <= i < count ==> Streams(r, ms[i].start, SizeOf(ms[i]), n)
  }

  ghost predicate InSpace(ms: seq<Mapping>)
  {
    forall i :: 0 <= i < |ms| ==> ms[i].start + SizeOf(ms[i]) <= MAX_U64
  }

  lemma AllStreamUnlessFailing(r: Reader, ms: seq<Mapping>, n: nat)
    requires n > 0 && InSpace(ms)
    ensures AllStream(r, ms, |ms|, n) || exists i :: 0 <= i < |ms| && HasFailure(r, ms[i])
  {
    forall i | 0 <= i < |ms|
      ensures Streams(r, ms[i].start, SizeOf(ms[i]), n) || HasFailure(r, ms[i])
    {
      StreamsUnlessFailing(r, ms[i], ms[i].start, SizeOf(ms[i]), n);
    }
  }

  // The index, then every segment's bytes in order, if there is any; failure
  // aborts the write.
  method WriteSegments(r: Reader, ms: seq<Mapping>, n: nat, ghost image: int -> byte)
    returns (members: Option<seq<Member>>, ghost data: seq<seq<byte>>)
    requires IsReader(r) && IsStatic(r, image) && n > 0 && InSpace(ms)
    ensures members.Some? <==> AllStream(r, ms, |ms|, n)
    ensures members.Some? ==> |data| == |ms| && members.value == MembersOf(ms, data)
    ensures members.Some? ==> forall i :: 0 <= i < |ms| ==> |data[i]| == SizeOf(ms[i]) && Shows(data[i], ms[i].start, image)
  {
    var out: seq<Member> := [];
    data := [];
    for i := 0 to |ms|
      invariant |data| == i && out == DataMembers(data) && AllStream(r, ms, i, n)
      invariant forall j :: 0 <= j < i ==> |data[j]| == SizeOf(ms[j]) && Shows(data[j], ms[j].start, image)
    {
      var d := CopyRange(r, ms[i], n, image);
      if d.None? {
        return None, data;
      }
      out := out + [DataMember(i, d.value)];
      data := data + [d.value];
    }
    return Some(if |ms| == 0 then [] else [IndexMember(InfosOf(ms))] + out), data;
  }

  ghost function DataMembers(data: seq<seq<byte>>): seq<Member>
  {
    seq(|data|, (i: int) requires 0 <= i < |data| => DataMember(i, data[i]))
  }

  ghost function MembersOf(ms: seq<Mapping>, data: seq<seq<byte>>): seq<Member>
  {
    if |ms| == 0 then [] else [IndexMember(InfosOf(ms))] + DataMembers(data)
  }

  datatype OpenError = DuplicateMember | TooMuchData | MissingMember(name: nat) | BadSegments(e: SegmentError)

  // What reading the members collects.
  datatype Found = Found(infos: Option<seq<Info>>, data: map<nat, seq<byte>>, bytes: nat)

  // A member seen twice, or data beyond the limit, is refused.
  function AddMember(f: Found, m: Member, limit: nat): Result<Found, OpenError>
  {
    match m
    case IndexMember(infos) => if f.infos.Some? then Err(DuplicateMember) else Ok(f.(infos := Some(infos)))
    case DataMember(i, d) =>
      if i in f.data then Err(DuplicateMember)
      else if |d| > limit - f.bytes then Err(TooMuchData)
      else Ok(f.(data := f.data[i := d], bytes := f.bytes + |d|))
    case Ignored => Ok(f)
  }

  function FoundUpTo(ms: seq<Member>, n: nat, limit: nat): Result<Found, OpenError>
    requires n <= |ms|
  {
    if n == 0 then Ok(Found(None, map[], 0))
    else
      var f :- FoundUpTo(ms, n - 1, limit);
      AddMember(f, ms[n - 1], limit)
  }

  method ReadMembers(ms: seq<Member>, limit: nat) returns (r: Result<Found, OpenError>)
    ensures r == FoundUpTo(ms, |ms|, limit)
  {
    var f := Found(None, map[], 0);
    for i := 0 to |ms|
      invariant FoundUpTo(ms, i, limit) == Ok(f)
    {
      var next := AddMember(f, ms[i], limit);
      if next.Err? {
        FailsOn(ms, i, |ms|, limit);
        return next;
      }
      f := next.value;
    }
    return Ok(f);
  }

  lemma {:induction false} FailsOn(ms: seq<Member>, i: nat, n: nat, limit: nat)
    requires i < n <= |ms| && FoundUpTo(ms, i, limit).Ok? && AddMember(FoundUpTo(ms, i, limit).value, ms[i], limit).Err?
    ensures FoundUpTo(ms, n, limit) == AddMember(FoundUpTo(ms, i, limit).value, ms[i], limit)
  {
    if i < n - 1 {
      FailsOn(ms, i, n - 1, limit);
    }
  }

  // Entry i names a member that is not there.
  predicate Missing(infos: seq<Info>, data: map<nat, seq<byte>>, i: nat)
  {
    i < |infos| && infos[i].name !in data
  }

  // The error names the first such entry.
  ghost predicate FirstMissing(infos: seq<Info>, data: map<nat, seq<byte>>, i: nat, e: OpenError)
  {
    Missing(infos, data, i) && (forall j: nat :: j < i ==> !Missing(infos, data, j)) && e == MissingMember(infos[i].name)
  }

  // The data blocks in index order.
  method MatchData(infos: seq<Info>, data: map<nat, seq<byte>>) returns (r: Result<seq<seq<byte>>, OpenError>)
    ensures r.Ok? <==> forall i: nat :: !Missing(infos, data, i)
    ensures r.Err? ==> exists i: nat :: FirstMissing(infos, data, i, r.error)
    ensures r.Ok? ==> |r.value| == |infos| && forall i :: 0 <= i < |infos| ==> infos[i].name in data && r.value[i] == data[infos[i].name]
  {
    var out: seq<seq<byte>> := [];
    for i := 0 to |infos|
      invariant |out| == i && forall j :: 0 <= j < i ==> infos[j].name in data && out[j] == data[infos[j].name]
    {
      if infos[i].name !in data {
        assert FirstMissing(infos, data, i, MissingMember(infos[i].name));
        return Err(MissingMember(infos[i].name));
      }
      out := out + [data[infos[i].name]];
    }
    return Ok(out);
  }

  // The segments of a bundle; none without an index.
  method OpenSegments(ms: seq<Member>, limit: nat) returns (r: Result<seq<Segment>, OpenError>)
    ensures match FoundUpTo(ms, |ms|, limit)
      case Err(e) => r == Err(e)
      case Ok(f) =>
        if f.infos.None? || f.infos.value == [] then r == Ok([])
        else
          var infos := f.infos.value;
          if exists i: nat :: Missing(infos, f.data, i) then r.Err? && exists i: nat :: FirstMissing(infos, f.data, i, r.error)
          else IsOpened(infos, DataOf(infos, f.data), r)
  {
    var f :- ReadMembers(ms, limit);
    if f.infos.None? || |f.infos.value| == 0 {
      return Ok([]);
    }
    var infos := f.infos.value;
    var data :- MatchData(infos, f.data);
    assert data == DataOf(infos, f.data);
    var segs := NewSegmentsReader(infos, data);
    return if segs.Err? then Err(BadSegments(segs.error)) else Ok(segs.value);
  }

  ghost function DataOf(infos: seq<Info>, data: map<nat, seq<byte>>): seq<seq<byte>>
  {
    seq(|infos|, (i: int) requires 0 <= i < |infos| => if infos[i].name in data then data[infos[i].name] else [])
  }

  ghost predicate IsOpened(infos: seq<Info>, data: seq<seq<byte>>, r: Result<seq<Segment>, OpenError>)
  {
    && (r.Ok? <==> Acceptable(infos, data))
    && (r.Err? ==> r.error.BadSegments?)
    && (r.Ok? ==>
          && Order.Ascending(r.value, Start) && AllProper(r.value) && SegmentsApart(r.value)
          && multiset(r.value) == multiset(SegmentsUpTo(infos, data, |infos|)))
  }

  // ---- Saved memory reads like live memory ----

  ghost predicate MappingsApart(a: Mapping, b: Mapping)
  {
    a.end <= b.start || b.end <= a.start
  }

  // Live ranges: well-formed and pairwise disjoint.
  ghost predicate LiveRanges(ms: seq<Mapping>)
  {
    && (forall i :: 0 <= i < |ms| ==> ms[i].start <= ms[i].end)
    && (forall i, j :: 0 <= i < j < |ms| && ms[i].start < ms[i].end && ms[j].start < ms[j].end ==> MappingsApart(ms[i], ms[j]))
  }

  lemma AddLive(ms: seq<Mapping>, m: Mapping)
    requires LiveRanges(ms) && m.start <= m.end
    requires forall i :: 0 <= i < |ms| ==> MappingsApart(ms[i], m)
    ensures LiveRanges(ms + [m])
  {}

  // A range taken earlier is apart from range k, if that is not empty.
  lemma EarlierApart(r: Reader, ms: seq<Mapping>, k: nat, budget: nat, m: Mapping)
    requires k < |ms| && LiveRanges(ms) && ms[k].start < ms[k].end && m in ChooseUpTo(r, ms, k, budget).taken
    ensures MappingsApart(m, ms[k])
  {
    BudgetHolds(r, ms, k, budget);
    var i :| 0 <= i < k && ms[i] == m;
    SizeIs(ms[i]);
    assert MappingsApart(ms[i], ms[k]);
  }

  lemma {:induction false} TakenAreLive(r: Reader, ms: seq<Mapping>, n: nat, budget: nat)
    requires n <= |ms| && LiveRanges(ms)
    ensures LiveRanges(ChooseUpTo(r, ms, n, budget).taken)
  {
    if n > 0 {
      TakenAreLive(r, ms, n - 1, budget);
      var c, m := ChooseUpTo(r, ms, n - 1, budget), ms[n - 1];
      SizeIs(m);
      if VerdictOn(r, m, c.budget) == Taken {
        forall i | 0 <= i < |c.taken|
          ensures MappingsApart(c.taken[i], m)
        {
          EarlierApart(r, ms, n - 1, budget, c.taken[i]);
        }
        AddLive(c.taken, m);
      }
    }
  }

  lemma SizeIs(m: Mapping)
    requires m.start <= m.end
    ensures SizeOf(m) == m.end - m.start && m.start + SizeOf(m) == m.end
  {}

  // What the first n data members leave behind.
  ghost function Collected(ms: seq<Mapping>, data: seq<seq<byte>>, n: nat): Found
    requires n <= |data|
  {
    Found(Some(InfosOf(ms)), map i: nat | i < n :: data[i], Lengths(data, n))
  }

  ghost function Lengths(data: seq<seq<byte>>, n: nat): nat
    requires n <= |data|
  {
    if n == 0 then 0 else Lengths(data, n - 1) + |data[n - 1]|
  }

  lemma {:induction false} MembersAreFound(ms: seq<Mapping>, data: seq<seq<byte>>, n: nat, limit: nat)
    requires 0 < |ms| == |data| && n <= |data| && Lengths(data, n) <= limit
    ensures FoundUpTo(MembersOf(ms, data), n + 1, limit) == Ok(Collected(ms, data, n))
  {
    var all := MembersOf(ms, data);
    if n == 0 {
      assert all[0] == IndexMember(InfosOf(ms));
      assert FoundUpTo(all, 0, limit) == Ok(Found(None, map[], 0));
      assert Collected(ms, data, 0).data == map[];
    } else {
      MembersAreFound(ms, data, n - 1, limit);
      assert all[n] == DataMember(n - 1, data[n - 1]);
      assert (map i: nat | i < n - 1 :: data[i])[n - 1 := data[n - 1]] == (map i: nat | i < n :: data[i]);
    }
  }

  // Every block as long as its range.
  ghost predicate Fitting(ms: seq<Mapping>, data: seq<seq<byte>>)
  {
    |data| == |ms| && forall i :: 0 <= i < |ms| ==> |data[i]| == SizeOf(ms[i])
  }

  lemma {:induction false} LengthsAreTotal(ms: seq<Mapping>, data: seq<seq<byte>>, n: nat)
    requires n <= |ms| && Fitting(ms, data)
    ensures Lengths(data, n) == Total(ms[..n])
  {
    if n > 0 {
      LengthsAreTotal(ms, data, n - 1);
      assert ms[..n][..n - 1] == ms[..n - 1];
    }
  }

  lemma SavedIsAcceptable(ms: seq<Mapping>, data: seq<seq<byte>>)
    requires LiveRanges(ms) && Fitting(ms, data)
    ensures Acceptable(InfosOf(ms), data)
  {
    var infos := InfosOf(ms);
    forall i | 0 <= i < |ms|
      ensures WellSized(infos, data, i)
    {
      SizeIs(ms[i]);
    }
    forall i, j | 0 <= i < j < |ms| && infos[i].size > 0 && infos[j].size > 0
      ensures Apart(infos[i], infos[j])
    {
      SizeIs(ms[i]);
      SizeIs(ms[j]);
      assert MappingsApart(ms[i], ms[j]);
    }
  }

  // A saved segment: one of the ranges, with the bytes of the image.
  ghost predicate IsSaved(s: Segment, ms: seq<Mapping>, image: int -> byte)
  {
    exists i :: 0 <= i < |ms| && s.start == ms[i].start && s.end == ms[i].end && |s.data| == s.end - s.start && Shows(s.data, s.start, image)
  }

  ghost predicate HasSegment(m: Mapping, segs: seq<Segment>)
  {
    exists k :: 0 <= k < |segs| && segs[k].start == m.start && segs[k].end == m.end
  }

  ghost predicate IsSnapshot(segs: seq<Segment>, ms: seq<Mapping>, image: int -> byte)
  {
    && Order.Ascending(segs, Start) && AllProper(segs) && SegmentsApart(segs)
    && (forall k :: 0 <= k < |segs| ==> IsSaved(segs[k], ms, image))
    && (forall i :: 0 <= i < |ms| && ms[i].start < ms[i].end ==> HasSegment(ms[i], segs))
  }

  lemma OpenedIsSnapshot(ms: seq<Mapping>, data: seq<seq<byte>>, segs: seq<Segment>, image: int -> byte)
    requires LiveRanges(ms) && Fitting(ms, data)
    requires forall i :: 0 <= i < |ms| ==> Shows(data[i], ms[i].start, image)
    requires Acceptable(InfosOf(ms), data)
    requires Order.Ascending(segs, Start) && AllProper(segs) && SegmentsApart(segs)
    requires multiset(segs) == multiset(SegmentsUpTo(InfosOf(ms), data, |ms|))
    ensures IsSnapshot(segs, ms, image)
  {
    var infos := InfosOf(ms);
    var list := SegmentsUpTo(infos, data, |ms|);
    SegmentsAre(infos, data, |ms|);
    Order.SameElements(segs, list);
    forall k | 0 <= k < |segs|
      ensures IsSaved(segs[k], ms, image)
    {
      assert segs[k] in segs;
      assert ComesFrom(segs[k], infos, data, |ms|);
      var i :| 0 <= i < |ms| && infos[i].size > 0 && segs[k] == SegmentOf(infos, data, i);
      SizeIs(ms[i]);
      assert segs[k].start == ms[i].start && segs[k].end == ms[i].end;
    }
    forall i | 0 <= i < |ms| && ms[i].start < ms[i].end
      ensures HasSegment(ms[i], segs)
    {
      SizeIs(ms[i]);
      assert WellSized(infos, data, i);
      assert ComesFrom(SegmentOf(infos, data, i), infos, data, |ms|);
      assert SegmentOf(infos, data, i) in segs;
      var k :| 0 <= k < |segs| && segs[k] == SegmentOf(infos, data, i);
    }
  }

  // Collect, write, open. Unless a live read of a chunk inside a collected range fails,
  // which aborts the write, the bundle opens exactly when its data fits the reader's
  // limit, and holds exactly the collected ranges with their bytes.
  method SaveAndOpen(r: Reader, ms: seq<Mapping>, maxBytes: int, n: nat, limit: nat, ghost image: int -> byte)
    returns (result: Option<Result<seq<Segment>, OpenError>>, taken: seq<Mapping>)
    requires IsReader(r) && IsStatic(r, image) && n > 0 && LiveRanges(ms)
    ensures taken == ChooseUpTo(r, ms, |ms|, Budget(maxBytes)).taken && Total(taken) <= Budget(maxBytes)
    ensures InSpace(taken) && (result.Some? <==> AllStream(r, taken, |taken|, n))
    ensures result.None? ==> exists i :: 0 <= i < |taken| && HasFailure(r, taken[i])
    ensures result.Some? ==> OpensWithin(result.value, taken, limit, image)
  {
    var status: Status;
    taken, status := CollectSegments(r, ms, maxBytes);
    TakenAreLive(r, ms, |ms|, Budget(maxBytes));
    BudgetHolds(r, ms, |ms|, Budget(maxBytes));
    forall i | 0 <= i < |taken|
      ensures taken[i].start + SizeOf(taken[i]) <= MAX_U64
    {
      SizeIs(taken[i]);
    }
    AllStreamUnlessFailing(r, taken, n);
    var members, data := WriteSegments(r, taken, n, image);
    if members.None? {
      return None, taken;
    }
    var saved := OpenWritten(taken, members.value, limit, data, image);
    return Some(saved), taken;
  }

  ghost predicate OpensWithin(result: Result<seq<Segment>, OpenError>, ms: seq<Mapping>, limit: nat, image: int -> byte)
  {
    if Total(ms) <= limit then result.Ok? && IsSnapshot(result.value, ms, image) else result == Err(TooMuchData)
  }

  method OpenWritten(ms: seq<Mapping>, members: seq<Member>, limit: nat, ghost data: seq<seq<byte>>, ghost image: int -> byte)
    returns (r: Result<seq<Segment>, OpenError>)
    requires LiveRanges(ms) && Fitting(ms, data) && members == MembersOf(ms, data)
    requires forall i :: 0 <= i < |ms| ==> Shows(data[i], ms[i].start, image)
    ensures OpensWithin(r, ms, limit, image)
  {
    r := OpenSegments(members, limit);
    if |ms| == 0 {
      return;
    }
    if Total(ms) > limit {
      WrittenIsTooMuch(ms, data, limit);
      return;
    }
    WrittenIsFound(ms, data, limit);
    NothingMissing(ms, data);
    SavedIsAcceptable(ms, data);
    OpenedIsSnapshot(ms, data, r.value, image);
  }

  lemma {:induction false} DataOverLimit(ms: seq<Mapping>, data: seq<seq<byte>>, n: nat, limit: nat)
    requires 0 < |ms| == |data| && n <= |data| && Lengths(data, n) > limit
    ensures FoundUpTo(MembersOf(ms, data), n + 1, limit) == Err(TooMuchData)
  {
    if Lengths(data, n - 1) > limit {
      DataOverLimit(ms, data, n - 1, limit);
    } else {
      MembersAreFound(ms, data, n - 1, limit);
      assert MembersOf(ms, data)[n] == DataMember(n - 1, data[n - 1]);
    }
  }

  lemma WrittenIsTooMuch(ms: seq<Mapping>, data: seq<seq<byte>>, limit: nat)
    requires |ms| > 0 && Fitting(ms, data) && Total(ms) > limit
    ensures FoundUpTo(MembersOf(ms, data), |MembersOf(ms, data)|, limit) == Err(TooMuchData)
  {
    LengthsAreTotal(ms, data, |ms|);
    assert ms[..|ms|] == ms;
    DataOverLimit(ms, data, |ms|, limit);
  }

  // What is written is found again, within the limit.
  lemma WrittenIsFound(ms: seq<Mapping>, data: seq<seq<byte>>, limit: nat)
    requires |ms| > 0 && Fitting(ms, data) && Total(ms) <= limit
    ensures FoundUpTo(MembersOf(ms, data), |MembersOf(ms, data)|, limit) == Ok(Collected(ms, data, |ms|))
  {
    LengthsAreTotal(ms, data, |ms|);
    assert ms[..|ms|] == ms;
    MembersAreFound(ms, data, |ms|, limit);
  }

  lemma NothingMissing(ms: seq<Mapping>, data: seq<seq<byte>>)
    requires |data| == |ms|
    ensures var f := Collected(ms, data, |ms|);
      (forall i: nat :: !Missing(InfosOf(ms), f.data, i)) && DataOf(InfosOf(ms), f.data) == data
  {
    assert DataOf(InfosOf(ms), Collected(ms, data, |ms|).data) == data;
  }

  predicate Within(m: Mapping, addr: u64, size: u64)
  {
    m.start <= addr && addr + size <= m.end
  }

  lemma CoveredIsWithin(segs: seq<Segment>, ms: seq<Mapping>, image: int -> byte, addr: u64, size: u64, k: nat)
    requires IsSnapshot(segs, ms, image) && k < |segs| && Covers(segs[k], addr, size)
    ensures exists i :: 0 <= i < |ms| && Within(ms[i], addr, size)
    ensures Shows(segs[k].data, segs[k].start, image)
  {
    assert IsSaved(segs[k], ms, image);
    var i :| 0 <= i < |ms| && segs[k].start == ms[i].start && segs[k].end == ms[i].end;
    assert Within(ms[i], addr, size);
  }

  lemma WithinIsCovered(segs: seq<Segment>, ms: seq<Mapping>, image: int -> byte, addr: u64, size: u64, i: nat)
    requires IsSnapshot(segs, ms, image) && i < |ms| && Within(ms[i], addr, size) && size > 0
    ensures exists k :: 0 <= k < |segs| && Covers(segs[k], addr, size)
  {
    assert HasSegment(ms[i], segs);
    var k :| 0 <= k < |segs| && segs[k].start == ms[i].start && segs[k].end == ms[i].end;
    assert Covers(segs[k], addr, size);
  }

  lemma SliceShows(s: Segment, addr: u64, size: u64, b: seq<byte>, image: int -> byte)
    requires IsSlice(s, addr, size, b) && Shows(s.data, s.start, image)
    ensures |b| == size && Shows(b, addr, image)
  {
    forall j | 0 <= j < size
      ensures b[j] == image(addr + j)
    {
      assert b[j] == s.data[addr - s.start + j];
    }
  }

  // Reading the snapshot: a read succeeds exactly when it is empty or lies inside
  // one collected range, and returns what the live memory shows there.
  lemma SnapshotReads(segs: seq<Segment>, ms: seq<Mapping>, image: int -> byte, addr: u64, size: u64, answer: Option<seq<byte>>)
    requires IsSnapshot(segs, ms, image) && IsAnswer(segs, addr, size, answer)
    ensures answer.Some? <==> size == 0 || (addr != 0 && exists i :: 0 <= i < |ms| && Within(ms[i], addr, size))
    ensures answer.Some? ==> |answer.value| == size && Shows(answer.value, addr, image)
  {
    if size > 0 && addr != 0 {
      if i :| 0 <= i < |ms| && Within(ms[i], addr, size) {
        WithinIsCovered(segs, ms, image, addr, size, i);
      }
      if answer.Some? {
        var k :| 0 <= k < |segs| && IsSlice(segs[k], addr, size, answer.value);
        CoveredIsWithin(segs, ms, image, addr, size, k);
        SliceShows(segs[k], addr, size, answer.value, image);
      }
    }
  }

  // In particular it agrees with every answer of the live reader.
  lemma SnapshotAgreesWithLive(r: Reader, segs: seq<Segment>, ms: seq<Mapping>, image: int -> byte,
                               addr: u64, size: u64, answer: Option<seq<byte>>)
    requires IsReader(r) && IsStatic(r, image)
    requires IsSnapshot(segs, ms, image) && IsAnswer(segs, addr, size, answer)
    ensures answer.Some? && r(addr, size).Some? ==> answer == r(addr, size)
  {
    SnapshotReads(segs, ms, image, addr, size, answer);
    if answer.Some? && r(addr, size).Some? {
      var a, b := answer.value, r(addr, size).value;
      forall i | 0 <= i < size
        ensures a[i] == b[i]
      {
        assert b[i] == image(addr + i);
      }
      assert a == b;
    }
  }
}
