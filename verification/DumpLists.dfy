// Which list element a record becomes (internal/heapdump/parser.go).
module DumpLists {
  import opened Words
  import opened Wrappers
  import opened Heap
  import opened Wire
  import opened Records
  import opened Pointers
  import opened Dump
  import opened DumpFacts

  // The records of one kind among the first n.
  function CountTag(rs: seq<Record>, n: nat, tag: u64): nat
    requires n <= |rs|
  {
    if n == 0 then 0 else CountTag(rs, n - 1, tag) + (if rs[n - 1].tag == tag then 1 else 0)
  }

  lemma {:induction false} CountGrows(rs: seq<Record>, p: nat, n: nat, tag: u64)
    requires p < n <= |rs| && rs[p].tag == tag
    ensures CountTag(rs, p, tag) < CountTag(rs, n, tag)
  {
    if p < n - 1 {
      CountGrows(rs, p, n - 1, tag);
    }
  }

  // The list holds one element for each record of the kind, in order.
  ghost predicate Holds<T(!new)>(list: seq<T>, rs: seq<Record>, n: nat, tag: u64, elem: nat -> T)
    requires n <= |rs|
  {
    && |list| == CountTag(rs, n, tag)
    && forall p: nat {:trigger elem(p)} :: p < n && rs[p].tag == tag ==> CountTag(rs, p, tag) < |list| && list[CountTag(rs, p, tag)] == elem(p)
  }

  lemma HoldsNext<T(!new)>(list: seq<T>, rs: seq<Record>, n: nat, tag: u64, elem: nat -> T)
    requires n < |rs| && Holds(list, rs, n, tag, elem)
    ensures Holds(if rs[n].tag == tag then list + [elem(n)] else list, rs, n + 1, tag, elem)
  {
    forall p: nat | p < n + 1 && rs[p].tag == tag
      ensures CountTag(rs, p, tag) < CountTag(rs, n + 1, tag)
    {
      CountGrows(rs, p, n + 1, tag);
    }
  }

  // ---- The elements ----

  // The pointers record n's bytes hold under the parameters in force.
  function PointersAt(rs: seq<Record>, n: nat, bytes: seq<byte>, fields: seq<Field>, container: u64, withSlots: bool): Extracted
    requires n < |rs|
  {
    match ParamsAt(rs, n)
    case None => NOTHING
    case Some(p) => Extract(bytes, fields, View(p.0, p.1, container, withSlots))
  }

  function ObjectAt(rs: seq<Record>, n: nat, opts: Options): HeapObject
    requires n < |rs|
  {
    var vs := rs[n].values;
    ObjectOf(vs, PointersAt(rs, n, BytesOf(vs, 1), FieldsOf(vs, 2), 0, opts.keepOffsets), opts.keepContents)
  }

  function SegmentAt(rs: seq<Record>, n: nat, kind: string): Segment
    requires n < |rs|
  {
    var vs := rs[n].values;
    SegmentOf(kind, vs, PointersAt(rs, n, BytesOf(vs, 1), FieldsOf(vs, 2), Word(vs, 0, 0), true))
  }

  ghost function ObjectsIn(rs: seq<Record>, opts: Options): nat -> HeapObject
  {
    (n: nat) => if n < |rs| then ObjectAt(rs, n, opts) else ObjectOf([], NOTHING, false)
  }

  ghost function SegmentsIn(rs: seq<Record>, kind: string): nat -> Segment
  {
    (n: nat) => if n < |rs| then SegmentAt(rs, n, kind) else SegmentOf(kind, [], NOTHING)
  }

  ghost function FinalizersIn(rs: seq<Record>): nat -> Finalizer
  {
    (n: nat) => FinalizerOf(if n < |rs| then rs[n].values else [])
  }

  // The parameters are those of the latest record, if there was one.
  ghost function ParamsIn(rs: seq<Record>, n: nat): Params
    requires n <= |rs|
  {
    if n == 0 then NO_PARAMS
    else if rs[n - 1].tag == TAG_PARAMS then ParamsOf(rs[n - 1].values)
    else ParamsIn(rs, n - 1)
  }

  function ParamsOf(vs: seq<Value>): Params
  {
    Params(FlagOf(vs, 0), Word(vs, 1, 0), Word(vs, 1, 1), Word(vs, 1, 2), BytesOf(vs, 2), BytesOf(vs, 3), Word(vs, 4, 0))
  }

  // What a record adds to the global roots.
  function RootsAt(rs: seq<Record>, n: nat): seq<Root>
    requires n < |rs|
  {
    var vs := rs[n].values;
    if rs[n].tag == TAG_OTHER_ROOT then [Root("otherroot", BytesOf(vs, 0), 0, Word(vs, 1, 0))]
    else if rs[n].tag == TAG_DATA || rs[n].tag == TAG_BSS then
      var x := PointersAt(rs, n, BytesOf(vs, 1), FieldsOf(vs, 2), Word(vs, 0, 0), true);
      RootsOf(if rs[n].tag == TAG_DATA then "data" else "bss", x, |x.targets|)
    else []
  }

  ghost function RootsIn(rs: seq<Record>): nat -> seq<Root>
  {
    (n: nat) => if n < |rs| then RootsAt(rs, n) else []
  }

  ghost function Flatten<T>(f: nat -> seq<T>, n: nat): seq<T>
  {
    if n == 0 then [] else Flatten(f, n - 1) + f(n - 1)
  }

  lemma {:induction false} FlattenMembers<T(!new)>(f: nat -> seq<T>, n: nat, x: T)
    ensures x in Flatten(f, n) <==> exists p: nat :: p < n && x in f(p)
  {
    if n > 0 {
      FlattenMembers(f, n - 1, x);
    }
  }

  // ---- What a step does to each list ----

  lemma GlobalsNext(st: State, rs: seq<Record>, n: nat, opts: Options)
    requires n < |rs| && ParamsKnown(st, rs, n) && Step(st, rs[n], opts).Ok?
    ensures Step(st, rs[n], opts).value.snap.globals == st.snap.globals + RootsAt(rs, n)
  {
    var vs := rs[n].values;
    PointersDecoded(st, rs, n, BytesOf(vs, 1), FieldsOf(vs, 2), Word(vs, 0, 0), true);
    assert st.snap.globals + [] == st.snap.globals;
  }

  lemma ObjectsNext(st: State, r: Record, opts: Options)
    requires Step(st, r, opts).Ok?
    ensures var vs := r.values;
      Step(st, r, opts).value.snap.objects ==
        if r.tag == TAG_OBJECT then st.snap.objects + [ObjectOf(vs, Decode(st, BytesOf(vs, 1), FieldsOf(vs, 2), 0, opts.keepOffsets), opts.keepContents)]
        else st.snap.objects
  {}

  lemma DataNext(st: State, r: Record, opts: Options)
    requires Step(st, r, opts).Ok?
    ensures var vs := r.values;
      Step(st, r, opts).value.snap.data ==
        if r.tag == TAG_DATA then st.snap.data + [SegmentOf("data", vs, Decode(st, BytesOf(vs, 1), FieldsOf(vs, 2), Word(vs, 0, 0), true))]
        else st.snap.data
  {}

  lemma BssNext(st: State, r: Record, opts: Options)
    requires Step(st, r, opts).Ok?
    ensures var vs := r.values;
      Step(st, r, opts).value.snap.bss ==
        if r.tag == TAG_BSS then st.snap.bss + [SegmentOf("bss", vs, Decode(st, BytesOf(vs, 1), FieldsOf(vs, 2), Word(vs, 0, 0), true))]
        else st.snap.bss
  {}

  lemma FinalizersNext(st: State, r: Record, opts: Options)
    requires Step(st, r, opts).Ok?
    ensures Step(st, r, opts).value.snap.finalizers ==
      if r.tag == TAG_FINALIZER then st.snap.finalizers + [FinalizerOf(r.values)] else st.snap.finalizers
  {}

  lemma QueuedNext(st: State, r: Record, opts: Options)
    requires Step(st, r, opts).Ok?
    ensures Step(st, r, opts).value.snap.queued ==
      if r.tag == TAG_QUEUED_FINALIZER then st.snap.queued + [FinalizerOf(r.values)] else st.snap.queued
  {}

  lemma ParamsNext(st: State, r: Record, opts: Options)
    requires Step(st, r, opts).Ok?
    ensures Step(st, r, opts).value.snap.params == if r.tag == TAG_PARAMS then ParamsOf(r.values) else st.snap.params
  {}

  // ---- Whole runs ----

  ghost predicate ListsHold(st: State, rs: seq<Record>, n: nat, opts: Options)
    requires n <= |rs|
  {
    var s := st.snap;
    && Holds(s.objects, rs, n, TAG_OBJECT, ObjectsIn(rs, opts))
    && Holds(s.data, rs, n, TAG_DATA, SegmentsIn(rs, "data")) && Holds(s.bss, rs, n, TAG_BSS, SegmentsIn(rs, "bss"))
    && Holds(s.finalizers, rs, n, TAG_FINALIZER, FinalizersIn(rs)) && Holds(s.queued, rs, n, TAG_QUEUED_FINALIZER, FinalizersIn(rs))
    && s.params == ParamsIn(rs, n) && s.globals == Flatten(RootsIn(rs), n)
  }

  lemma PointersDecoded(st: State, rs: seq<Record>, n: nat, bytes: seq<byte>, fields: seq<Field>, container: u64, withSlots: bool)
    requires n < |rs| && ParamsKnown(st, rs, n)
    ensures PointersAt(rs, n, bytes, fields, container, withSlots) == Decode(st, bytes, fields, container, withSlots)
  {}

  lemma StepHolds(st: State, rs: seq<Record>, n: nat, opts: Options)
    requires n < |rs| && ListsHold(st, rs, n, opts) && ParamsKnown(st, rs, n) && Step(st, rs[n], opts).Ok?
    ensures ListsHold(Step(st, rs[n], opts).value, rs, n + 1, opts)
  {
    var r, vs, s := rs[n], rs[n].values, st.snap;
    ObjectsNext(st, r, opts);
    DataNext(st, r, opts);
    BssNext(st, r, opts);
    FinalizersNext(st, r, opts);
    QueuedNext(st, r, opts);
    ParamsNext(st, r, opts);
    GlobalsNext(st, rs, n, opts);
    PointersDecoded(st, rs, n, BytesOf(vs, 1), FieldsOf(vs, 2), 0, opts.keepOffsets);
    PointersDecoded(st, rs, n, BytesOf(vs, 1), FieldsOf(vs, 2), Word(vs, 0, 0), true);
    HoldsNext(s.objects, rs, n, TAG_OBJECT, ObjectsIn(rs, opts));
    HoldsNext(s.data, rs, n, TAG_DATA, SegmentsIn(rs, "data"));
    HoldsNext(s.bss, rs, n, TAG_BSS, SegmentsIn(rs, "bss"));
    HoldsNext(s.finalizers, rs, n, TAG_FINALIZER, FinalizersIn(rs));
    HoldsNext(s.queued, rs, n, TAG_QUEUED_FINALIZER, FinalizersIn(rs));
  }

  ghost predicate KeepsLists(m: Machine, rs: seq<Record>, opts: Options)
  {
    forall st: State, n: nat {:trigger m.step(st, rs[n])} ::
      n < |rs| && ListsHold(st, rs, n, opts) && ParamsKnown(st, rs, n) && m.step(st, rs[n]).Ok? ==> ListsHold(m.step(st, rs[n]).value, rs, n + 1, opts)
  }

  lemma ParserKeepsLists(opts: Options, rs: seq<Record>)
    ensures KeepsLists(MachineOf(opts), rs, opts)
  {
    var m := MachineOf(opts);
    forall st: State, n: nat | n < |rs| && ListsHold(st, rs, n, opts) && ParamsKnown(st, rs, n) && m.step(st, rs[n]).Ok?
      ensures ListsHold(m.step(st, rs[n]).value, rs, n + 1, opts)
    {
      StepHolds(st, rs, n, opts);
    }
  }

  lemma NothingHeld(rs: seq<Record>, opts: Options)
    ensures ListsHold(INITIAL, rs, 0, opts)
  {}

  lemma {:induction false} RunHolds(m: Machine, rs: seq<Record>, n: nat, opts: Options)
    requires KeepsLists(m, rs, opts) && KeepsAttribution(m, rs) && n <= |rs| && RunPrefix(m, rs, n, INITIAL).Ok?
    ensures ListsHold(RunPrefix(m, rs, n, INITIAL).value, rs, n, opts)
  {
    if n == 0 {
      NothingHeld(rs, opts);
    } else {
      RunHolds(m, rs, n - 1, opts);
      RunAttributes(m, rs, n - 1);
    }
  }
}
