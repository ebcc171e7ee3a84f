// Decoding the pointer slots of a memory range (internal/heapdump/pointers.go).
module Pointers {
  import opened Words
  import opened Wrappers
  import opened Heap
  import opened Picks
  import Endian

  // How a range is read: pointer width, byte order, the address of its first
  // byte, and whether slot addresses are wanted.
  datatype View = View(ptrSize: nat, bigEndian: bool, container: u64, withSlots: bool)

  datatype Extracted = Extracted(targets: seq<u64>, slots: seq<u64>, warnings: nat, ifaces: nat, efaces: nat)

  const NOTHING := Extracted([], [], 0, 0, 0)

  predicate PointerWidth(n: nat) { n == 4 || n == 8 }

  // The pointer-sized word at offset, if it lies in the range.
  function ReadPointer(contents: seq<byte>, offset: nat, v: View): Option<u64>
  {
    if !PointerWidth(v.ptrSize) || offset + v.ptrSize > |contents| then None
    else
      var bs := contents[offset..offset + v.ptrSize];
      Endian.ValueFits(bs, v.bigEndian);
      Some(Endian.Value(bs, v.bigEndian))
  }

  predicate IsInterface(f: Field) { f.kind == KIND_IFACE || f.kind == KIND_EFACE }

  // The slot a field stands for: of an interface, the data word.
  function SlotOffset(f: Field, v: View): Option<nat>
  {
    if f.kind == KIND_PTR then Some(f.offset)
    else if IsInterface(f) && f.offset + v.ptrSize <= MAX_U64 then Some(f.offset + v.ptrSize)
    else None
  }

  // The slot's pointer, when there is one in the range.
  function ReadField(contents: seq<byte>, f: Field, v: View): Option<u64>
  {
    match SlotOffset(f, v)
    case None => None
    case Some(offset) => ReadPointer(contents, offset, v)
  }

  function Warned(x: Extracted): Extracted
  {
    x.(warnings := x.warnings + 1)
  }

  function Counted(x: Extracted, f: Field): Extracted
  {
    if f.kind == KIND_IFACE then x.(ifaces := x.ifaces + 1)
    else if f.kind == KIND_EFACE then x.(efaces := x.efaces + 1)
    else x
  }

  // A non-null pointer found at an offset; dropped with a warning when its slot
  // address leaves the address space.
  function Recorded(x: Extracted, ptr: u64, offset: nat, v: View): Extracted
  {
    if !v.withSlots then x.(targets := x.targets + [ptr])
    else if offset > MAX_U64 - v.container then Warned(x)
    else x.(targets := x.targets + [ptr], slots := x.slots + [v.container + offset])
  }

  function AddField(contents: seq<byte>, f: Field, v: View, x: Extracted): Extracted
  {
    var y := Counted(x, f);
    match ReadField(contents, f, v)
    case None => Warned(y)
    case Some(ptr) => if ptr == 0 then y else Recorded(y, ptr, SlotOffset(f, v).value, v)
  }

  function ExtractUpTo(contents: seq<byte>, fields: seq<Field>, n: nat, v: View): Extracted
    requires n <= |fields|
  {
    if n == 0 then NOTHING else AddField(contents, fields[n - 1], v, ExtractUpTo(contents, fields, n - 1, v))
  }

  function Extract(contents: seq<byte>, fields: seq<Field>, v: View): Extracted
  {
    if !PointerWidth(v.ptrSize) then Warned(NOTHING) else ExtractUpTo(contents, fields, |fields|, v)
  }

  // One field: the loop body.
  method ExtractField(contents: seq<byte>, f: Field, v: View, x: Extracted) returns (y: Extracted)
    ensures y == AddField(contents, f, v, x)
  {
    y := Counted(x, f);
    var offset := f.offset as nat;
    if f.kind == KIND_IFACE || f.kind == KIND_EFACE {
      if f.offset > MAX_U64 - v.ptrSize {
        return Warned(y);
      }
      offset := f.offset + v.ptrSize;
    } else if f.kind != KIND_PTR {
      return Warned(y);
    }
    var ptr := ReadPointer(contents, offset, v);
    if ptr.None? {
      return Warned(y);
    }
    if ptr.value != 0 {
      y := Recorded(y, ptr.value, offset, v);
    }
  }

  method ExtractPointers(contents: seq<byte>, fields: seq<Field>, v: View) returns (x: Extracted)
    ensures x == Extract(contents, fields, v)
  {
    if v.ptrSize != 4 && v.ptrSize != 8 {
      return Warned(NOTHING);
    }
    x := NOTHING;
    for i := 0 to |fields|
      invariant x == ExtractUpTo(contents, fields, i, v)
    {
      x := ExtractField(contents, fields[i], v, x);
    }
  }

  // Targets and slots stay parallel, no target is null, and every slot holds its
  // target.
  ghost predicate IsFaithful(contents: seq<byte>, v: View, x: Extracted)
  {
    && |x.slots| == (if v.withSlots then |x.targets| else 0)
    && (forall k :: 0 <= k < |x.targets| ==> x.targets[k] != 0)
    && (forall k :: 0 <= k < |x.slots| ==>
          v.container <= x.slots[k] && ReadPointer(contents, x.slots[k] - v.container, v) == Some(x.targets[k]))
  }

  lemma {:induction false} ExtractIsFaithful(contents: seq<byte>, fields: seq<Field>, n: nat, v: View)
    requires n <= |fields|
    ensures IsFaithful(contents, v, ExtractUpTo(contents, fields, n, v))
  {
    if n > 0 {
      ExtractIsFaithful(contents, fields, n - 1, v);
      AddIsFaithful(contents, fields[n - 1], v, ExtractUpTo(contents, fields, n - 1, v));
    }
  }

  lemma AddIsFaithful(contents: seq<byte>, f: Field, v: View, x: Extracted)
    requires IsFaithful(contents, v, x)
    ensures IsFaithful(contents, v, AddField(contents, f, v, x))
  {
    var y := Counted(x, f);
    assert IsFaithful(contents, v, y);
    if ReadField(contents, f, v).Some? && ReadField(contents, f, v).value != 0 {
      RecordedIsFaithful(contents, v, y, ReadField(contents, f, v).value, SlotOffset(f, v).value);
    }
  }

  lemma RecordedIsFaithful(contents: seq<byte>, v: View, x: Extracted, ptr: u64, offset: nat)
    requires IsFaithful(contents, v, x) && ptr != 0 && ReadPointer(contents, offset, v) == Some(ptr)
    ensures IsFaithful(contents, v, Recorded(x, ptr, offset, v))
  {}

  ghost predicate IsPointerField(contents: seq<byte>, f: Field, v: View)
  {
    && ReadField(contents, f, v).Some? && ReadField(contents, f, v).value != 0
    && SlotOffset(f, v).value <= MAX_U64 - v.container
  }

  // No field gives more than one target or warning, and every readable pointer that is
  // not null gives a target.
  lemma {:induction false} EveryFieldAccounted(contents: seq<byte>, fields: seq<Field>, n: nat, v: View)
    requires n <= |fields|
    ensures (var x := ExtractUpTo(contents, fields, n, v); |x.targets| + x.warnings <= n)
    ensures (forall i :: 0 <= i < n ==> IsPointerField(contents, fields[i], v))
      ==> |ExtractUpTo(contents, fields, n, v).targets| == n
  {
    if n > 0 {
      EveryFieldAccounted(contents, fields, n - 1, v);
    }
  }

  // ---- Which fields give what ----

  // A field's pointer lies at its offset; an interface's one word later.
  function PlaceOf(f: Field, v: View): nat
  {
    if f.kind == 1 then f.offset else f.offset + v.ptrSize
  }

  // One of the three kinds, inside the range.
  predicate IsReadable(contents: seq<byte>, f: Field, v: View)
  {
    f.kind in {1, 2, 3} && PlaceOf(f, v) <= MAX_U64 && PlaceOf(f, v) + v.ptrSize <= |contents|
  }

  function StoredAt(contents: seq<byte>, f: Field, v: View): nat
  {
    if IsReadable(contents, f, v) then Endian.Value(contents[PlaceOf(f, v)..PlaceOf(f, v) + v.ptrSize], v.bigEndian) else 0
  }

  // The slot's address, where one is wanted, leaves the address space.
  predicate SlotOverflows(f: Field, v: View)
  {
    v.withSlots && v.container + PlaceOf(f, v) > MAX_U64
  }

  predicate GivesTarget(contents: seq<byte>, f: Field, v: View)
  {
    StoredAt(contents, f, v) != 0 && !SlotOverflows(f, v)
  }

  predicate GivesWarning(contents: seq<byte>, f: Field, v: View)
  {
    !IsReadable(contents, f, v) || (StoredAt(contents, f, v) != 0 && SlotOverflows(f, v))
  }

  ghost function Giving(contents: seq<byte>, fields: seq<Field>, v: View): nat -> bool
  {
    (i: nat) => i < |fields| && GivesTarget(contents, fields[i], v)
  }

  ghost function Warning(contents: seq<byte>, fields: seq<Field>, v: View): nat -> bool
  {
    (i: nat) => i < |fields| && GivesWarning(contents, fields[i], v)
  }

  ghost function OfKind(fields: seq<Field>, kind: u64): nat -> bool
  {
    (i: nat) => i < |fields| && fields[i].kind == kind
  }

  ghost function Stored(contents: seq<byte>, fields: seq<Field>, v: View): nat -> int
  {
    (i: nat) => if i < |fields| then StoredAt(contents, fields[i], v) else 0
  }

  ghost function SlotAddress(fields: seq<Field>, v: View): nat -> int
  {
    (i: nat) => if i < |fields| then v.container + PlaceOf(fields[i], v) else 0
  }

  // The pointer of every field that gives a target, in field order, and where slots are
  // wanted its address; one warning for each field that gives one; and how many are
  // interfaces of each kind.
  ghost predicate IsExtracted(contents: seq<byte>, fields: seq<Field>, n: nat, v: View, x: Extracted)
  {
    && IsPicked(x.targets, n, Giving(contents, fields, v), Stored(contents, fields, v))
    && (if v.withSlots then IsPicked(x.slots, n, Giving(contents, fields, v), SlotAddress(fields, v)) else x.slots == [])
    && x.warnings == CountWhere(Warning(contents, fields, v), n)
    && x.ifaces == CountWhere(OfKind(fields, 2), n) && x.efaces == CountWhere(OfKind(fields, 3), n)
  }

  lemma AddMeans(contents: seq<byte>, f: Field, v: View, x: Extracted)
    requires PointerWidth(v.ptrSize)
    ensures var y := AddField(contents, f, v, x);
      && y.targets == (if GivesTarget(contents, f, v) then x.targets + [StoredAt(contents, f, v)] else x.targets)
      && y.slots == (if v.withSlots && GivesTarget(contents, f, v) then x.slots + [v.container + PlaceOf(f, v)] else x.slots)
      && y.warnings == x.warnings + (if GivesWarning(contents, f, v) then 1 else 0)
      && y.ifaces == x.ifaces + (if f.kind == 2 then 1 else 0) && y.efaces == x.efaces + (if f.kind == 3 then 1 else 0)
  {}

  lemma {:induction false} ExtractedUpTo(contents: seq<byte>, fields: seq<Field>, n: nat, v: View)
    requires n <= |fields| && PointerWidth(v.ptrSize)
    ensures IsExtracted(contents, fields, n, v, ExtractUpTo(contents, fields, n, v))
  {
    if n > 0 {
      var x, y := ExtractUpTo(contents, fields, n - 1, v), ExtractUpTo(contents, fields, n, v);
      ExtractedUpTo(contents, fields, n - 1, v);
      AddMeans(contents, fields[n - 1], v, x);
      ExtractedNext(contents, fields, n - 1, v, x, y);
    }
  }

  lemma ExtractedNext(contents: seq<byte>, fields: seq<Field>, n: nat, v: View, x: Extracted, y: Extracted)
    requires n < |fields| && IsExtracted(contents, fields, n, v, x)
    requires var gives := GivesTarget(contents, fields[n], v);
      && y.targets == (if gives then x.targets + [StoredAt(contents, fields[n], v)] else x.targets)
      && y.slots == (if v.withSlots && gives then x.slots + [v.container + PlaceOf(fields[n], v)] else x.slots)
      && y.warnings == x.warnings + (if GivesWarning(contents, fields[n], v) then 1 else 0)
      && y.ifaces == x.ifaces + (if fields[n].kind == 2 then 1 else 0) && y.efaces == x.efaces + (if fields[n].kind == 3 then 1 else 0)
    ensures IsExtracted(contents, fields, n + 1, v, y)
  {
    PickedNext(x.targets, y.targets, n, Giving(contents, fields, v), Stored(contents, fields, v));
    if v.withSlots {
      PickedNext(x.slots, y.slots, n, Giving(contents, fields, v), SlotAddress(fields, v));
    }
  }

  // Decoding gives, in field order, the non-null word every pointer field's place holds
  // and that place's address; the other fields give warnings.
  lemma ExtractMeans(contents: seq<byte>, fields: seq<Field>, v: View)
    ensures PointerWidth(v.ptrSize) ==> IsExtracted(contents, fields, |fields|, v, Extract(contents, fields, v))
    ensures !PointerWidth(v.ptrSize) ==> Extract(contents, fields, v) == Extracted([], [], 1, 0, 0)
  {
    if PointerWidth(v.ptrSize) {
      ExtractedUpTo(contents, fields, |fields|, v);
    }
  }
}
