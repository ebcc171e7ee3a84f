// The normalised heap snapshot a dump is parsed into
// (internal/heapsnapshot/model.go). Text read from the dump is kept as bytes.
module Heap {
  import opened Words

  // Field kinds: 0 ends a list, 1 is a pointer, 2 and 3 are interface words.
  const KIND_EOL: u64 := 0
  const KIND_PTR: u64 := 1
  const KIND_IFACE: u64 := 2
  const KIND_EFACE: u64 := 3

  datatype Field = Field(kind: u64, offset: u64)

  datatype Params = Params(bigEndian: bool, ptrSize: nat, heapStart: u64, heapEnd: u64,
                           goarch: seq<byte>, buildVersion: seq<byte>, numCPU: u64)

  const NO_PARAMS := Params(false, 0, 0, 0, [], [], 0)

  datatype HeapObject = HeapObject(addr: u64, size: u64, contents: seq<byte>, fields: seq<Field>,
                                   pointerAddrs: seq<u64>, pointerOffsets: seq<u64>)

  // The object without its bytes.
  function Bare(o: HeapObject): HeapObject { o.(contents := []) }

  // One stack frame; pcs holds the entry, current and continuation PC.
  datatype Frame = Frame(sp: u64, depth: u64, childSP: u64, pcs: seq<u64>, funcName: seq<byte>, size: u64,
                         fields: seq<Field>, pointerAddrs: seq<u64>, pointerSlots: seq<u64>)

  // Scheduler words of a goroutine record: ctxt, m, defer, panic.
  datatype Sched = Sched(ctxt: u64, m: u64, deferAddr: u64, panicAddr: u64)

  datatype HeapGoroutine = HeapGoroutine(
    addr: u64, stackTop: u64, id: u64, goPC: u64, status: u64,
    isSystem: bool, isBackground: bool,
    waitSince: u64, waitReason: seq<byte>,
    sched: Sched, frames: seq<Frame>)

  datatype Root = Root(kind: string, description: seq<byte>, addr: u64, pointerAddr: u64)

  datatype Segment = Segment(kind: string, addr: u64, size: u64, fields: seq<Field>,
                             pointerAddrs: seq<u64>, pointerSlots: seq<u64>)

  // Also a queued finalizer; pcs holds the remaining three words of the record.
  datatype Finalizer = Finalizer(objectAddr: u64, funcVal: u64, rest: seq<u64>)

  datatype TypeInfo = TypeInfo(size: u64, name: seq<byte>, indirectIface: bool)

  datatype AllocationFrame = AllocationFrame(function_: seq<byte>, file: seq<byte>, line: u64)

  // counts holds bucket, size, allocs and frees.
  datatype MemProfile = MemProfile(counts: seq<u64>, frames: seq<AllocationFrame>)

  // Records the graph builder does not read; words in record order.
  datatype Extras = Extras(
    types: map<u64, TypeInfo>, itabs: map<u64, u64>, threads: seq<seq<u64>>,
    memStats: seq<u64>, profiles: seq<MemProfile>, samples: seq<seq<u64>>)

  const NO_EXTRAS := Extras(map[], map[], [], [], [], [])

  datatype Snapshot = Snapshot(
    params: Params, objects: seq<HeapObject>, goroutines: seq<HeapGoroutine>,
    globals: seq<Root>, data: seq<Segment>, bss: seq<Segment>,
    finalizers: seq<Finalizer>, queued: seq<Finalizer>, extras: Extras)

  // The snapshot without the bytes of its objects.
  function Stripped(snap: Snapshot): Snapshot
  {
    snap.(objects := seq(|snap.objects|, (i: int) requires 0 <= i < |snap.objects| => Bare(snap.objects[i])))
  }

  // l lists the objects of e without their bytes.
  ghost predicate SameButContents(e: seq<HeapObject>, l: seq<HeapObject>)
  {
    |e| == |l| && forall i :: 0 <= i < |e| ==> l[i] == Bare(e[i])
  }

  const EMPTY_SNAPSHOT := Snapshot(NO_PARAMS, [], [], [], [], [], [], [], NO_EXTRAS)
}
