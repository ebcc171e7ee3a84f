// Reading bytes at virtual addresses (internal/addrspace/reader.go,
// composite.go).
module AddressSpace {
  import opened Words
  import opened Wrappers
  import Endian

  // A reader as the function from reads to answers.
  type Reader = (u64, u64) -> Option<seq<byte>>

  // The contract every reader promises.
  ghost predicate IsReader(r: Reader)
  {
    forall addr: u64, size: u64 {:trigger r(addr, size)} ::
      && (size == 0 ==> r(addr, size) == Some([]))
      && (size > 0 && (addr == 0 || addr + size > MAX_U64) ==> r(addr, size) == None)
      && (r(addr, size).Some? ==> |r(addr, size).value| == size)
  }

  // The first reader that satisfies the read.
  function FirstOf(rs: seq<Reader>, addr: u64, size: u64): Option<seq<byte>>
  {
    if |rs| == 0 then None
    else if rs[0](addr, size).Some? then rs[0](addr, size)
    else FirstOf(rs[1..], addr, size)
  }

  function Composite(rs: seq<Reader>): Reader
  {
    (addr: u64, size: u64) =>
      if size == 0 then Some([])
      else if addr == 0 || addr + size > MAX_U64 then None
      else FirstOf(rs, addr, size)
  }

  method ReadComposite(rs: seq<Reader>, addr: u64, size: u64) returns (r: Option<seq<byte>>)
    ensures r == Composite(rs)(addr, size)
  {
    if size == 0 {
      return Some([]);
    }
    if addr == 0 {
      return None;
    }
    AddIsExact(addr, size);
    if !AddUint64(addr, size).1 {
      return None;
    }
    for i := 0 to |rs|
      invariant FirstOf(rs, addr, size) == FirstOf(rs[i..], addr, size)
    {
      assert rs[i..][0] == rs[i] && rs[i..][1..] == rs[i + 1..];
      r := rs[i](addr, size);
      if r.Some? {
        return;
      }
    }
    return None;
  }

  lemma {:induction false} FirstOfFails(rs: seq<Reader>, addr: u64, size: u64)
    ensures FirstOf(rs, addr, size).None? <==> forall i :: 0 <= i < |rs| ==> rs[i](addr, size).None?
  {
    if |rs| > 0 {
      FirstOfFails(rs[1..], addr, size);
      forall i | 0 < i < |rs|
        ensures rs[i] == rs[1..][i - 1]
      {}
    }
  }

  lemma {:induction false} FirstOfSize(rs: seq<Reader>, addr: u64, size: u64)
    requires forall i :: 0 <= i < |rs| ==> IsReader(rs[i])
    ensures FirstOf(rs, addr, size).Some? ==> |FirstOf(rs, addr, size).value| == size
  {
    if |rs| > 0 {
      assert IsReader(rs[0]);
      FirstOfSize(rs[1..], addr, size);
    }
  }

  // Readers compose: the composite keeps the contract and answers whatever its
  // first reader answers.
  lemma CompositeIsReader(rs: seq<Reader>)
    requires forall i :: 0 <= i < |rs| ==> IsReader(rs[i])
    ensures IsReader(Composite(rs))
    ensures |rs| > 0 ==> forall addr: u64, size: u64 :: rs[0](addr, size).Some? ==> Composite(rs)(addr, size) == rs[0](addr, size)
  {
    forall addr: u64, size: u64
      ensures Composite(rs)(addr, size).Some? ==> |Composite(rs)(addr, size).value| == size
    {
      FirstOfSize(rs, addr, size);
    }
    if |rs| > 0 {
      assert IsReader(rs[0]);
    }
  }

  // It fails exactly where all fail.
  lemma CompositeFails(rs: seq<Reader>, addr: u64, size: u64)
    requires size > 0 && forall i :: 0 <= i < |rs| ==> IsReader(rs[i])
    ensures Composite(rs)(addr, size).None? <==> forall i :: 0 <= i < |rs| ==> rs[i](addr, size).None?
  {
    FirstOfFails(rs, addr, size);
  }

  // A pointer-sized word. A reader that keeps its contract never answers with
  // another number of bytes.
  function ReadUintptr(r: Reader, addr: u64, ptrSize: nat, bigEndian: bool): Option<u64>
  {
    if ptrSize != 4 && ptrSize != 8 then None
    else
      match r(addr, ptrSize)
      case None => None
      case Some(b) =>
        if |b| != ptrSize then None
        else
          Endian.ValueFits(b, bigEndian);
          Some(Endian.Value(b, bigEndian))
  }

  // max 0 means no bound.
  function ReadString(r: Reader, addr: u64, length: u64, max: u64): Option<seq<byte>>
  {
    if length == 0 then Some([])
    else if max > 0 && length > max then None
    else r(addr, length)
  }
}
