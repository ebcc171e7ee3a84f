// Exclusive and shared reachability of selections: inspect, Exclusive, Compare
// (internal/memusage: objects.go, multibubble.go).
module Bubbles {
  import opened Words
  import opened Wrappers
  import opened Graphs
  import opened Reachability
  import opened Analyses
  import opened Holdings

  datatype Inspection = Inspection(
    selected: set<ObjectID>,
    global: set<ObjectID>,
    system: set<ObjectID>,
    other: set<ObjectID>,
    outside: set<ObjectID>,
    gids: set<u64>)

  // Goroutines outside a selection, told apart by ID.
  function OtherRuntime(gids: set<u64>): Class { (g: Goroutine) => g.id !in gids && IsRuntime(g) }
  function OtherUser(gids: set<u64>): Class { (g: Goroutine) => g.id !in gids && !IsRuntime(g) }

  ghost function InspectionOf(a: Analysis, labels: map<u64, Labels>, opts: Options, want: Labels): Inspection
  {
    var gids := IDs(a.goroutines, Selected(labels, opts, want));
    var global := GlobalReach(a);
    var system := Reach(a.graph, Roots(a.goroutines, OtherRuntime(gids)));
    var other := Reach(a.graph, Roots(a.goroutines, OtherUser(gids)));
    Inspection(
      Reach(a.graph, Roots(a.goroutines, Selected(labels, opts, want))),
      global, system, other, global + (system + other), gids)
  }

  // The IDs these goroutines carry.
  ghost function CarriedIDs(a: Analysis, gs: set<nat>): set<u64>
  {
    set i: nat | i in gs && i < |a.goroutines| :: a.goroutines[i].id
  }

  // The goroutines that carry none of the IDs, those of the runtime or the others.
  ghost function WithoutIDs(a: Analysis, ids: set<u64>, runtime: bool): set<nat>
  {
    set i: nat | i < |a.goroutines| && a.goroutines[i].id !in ids && ((a.goroutines[i].isSystem || a.goroutines[i].isBackground) <==> runtime)
  }

  // What a selection and everything outside it reach, goroutine by goroutine.
  ghost predicate IsInspection(a: Analysis, labels: map<u64, Labels>, opts: Options, want: Labels, i: Inspection)
  {
    var P := Picked(a, labels, opts, want);
    && i.gids == CarriedIDs(a, P) && i.selected == HeldBy(a, P)
    && i.global == Reach(a.graph, RootSet(a.globals))
    && i.system == HeldBy(a, WithoutIDs(a, i.gids, true)) && i.other == HeldBy(a, WithoutIDs(a, i.gids, false))
    && i.outside == i.global + i.system + i.other
  }

  lemma IDsCarried(a: Analysis, c: Class)
    ensures IDs(a.goroutines, c) == CarriedIDs(a, Members(a.goroutines, |a.goroutines|, c))
  {
    var gs := a.goroutines;
    forall id: u64
      ensures id in IDs(gs, c) <==> id in CarriedIDs(a, Members(gs, |gs|, c))
    {
      IDsMember(gs, |gs|, c, id);
    }
  }

  lemma SelectionMeans(a: Analysis, labels: map<u64, Labels>, opts: Options, want: Labels)
    ensures var P, i := Picked(a, labels, opts, want), InspectionOf(a, labels, opts, want);
      i.gids == CarriedIDs(a, P) && i.selected == HeldBy(a, P)
  {
    var gs, sel := a.goroutines, Selected(labels, opts, want);
    assert Picked(a, labels, opts, want) == Members(gs, |gs|, sel);
    IDsCarried(a, sel);
    HeldIsReach(a, sel);
  }

  lemma InspectionMeans(a: Analysis, labels: map<u64, Labels>, opts: Options, want: Labels)
    ensures IsInspection(a, labels, opts, want, InspectionOf(a, labels, opts, want))
  {
    var gs, gids := a.goroutines, InspectionOf(a, labels, opts, want).gids;
    SelectionMeans(a, labels, opts, want);
    assert WithoutIDs(a, gids, true) == Members(gs, |gs|, OtherRuntime(gids));
    HeldIsReach(a, OtherRuntime(gids));
    assert WithoutIDs(a, gids, false) == Members(gs, |gs|, OtherUser(gids));
    HeldIsReach(a, OtherUser(gids));
  }

  method SelectGoroutines(a: Analysis, labels: map<u64, Labels>, opts: Options, want: Labels)
    returns (roots: seq<RootRef>, gids: set<u64>)
    ensures RootSet(roots) == Roots(a.goroutines, Selected(labels, opts, want))
    ensures gids == IDs(a.goroutines, Selected(labels, opts, want))
  {
    roots, gids := [], {};
    ghost var c := Selected(labels, opts, want);
    for i := 0 to |a.goroutines|
      invariant RootSet(roots) == RootsUpTo(a.goroutines, i, c)
      invariant gids == IDsUpTo(a.goroutines, i, c)
    {
      var g := a.goroutines[i];
      if !opts.includeSystemGoroutines && IsRuntime(g) {
        continue;
      }
      var ok := LabelsMatch(LabelsOf(labels, g.id), want);
      if ok {
        RootSetConcat(roots, g.roots);
        gids := gids + {g.id};
        roots := roots + g.roots;
      }
    }
  }

  // The roots of everything outside gids, runtime goroutines apart.
  method OutsideRoots(gs: seq<Goroutine>, gids: set<u64>) returns (system: seq<RootRef>, other: seq<RootRef>)
    ensures RootSet(system) == Roots(gs, OtherRuntime(gids))
    ensures RootSet(other) == Roots(gs, OtherUser(gids))
  {
    system, other := [], [];
    for i := 0 to |gs|
      invariant RootSet(system) == RootsUpTo(gs, i, OtherRuntime(gids))
      invariant RootSet(other) == RootsUpTo(gs, i, OtherUser(gids))
    {
      var g := gs[i];
      if g.id in gids {
        continue;
      }
      if g.isSystem || g.isBackground {
        RootSetConcat(system, g.roots);
        system := system + g.roots;
      } else {
        RootSetConcat(other, g.roots);
        other := other + g.roots;
      }
    }
  }

  method Inspect(a: Analysis, labels: map<u64, Labels>, opts: Options, want: Labels) returns (r: Result<Inspection, Error>)
    ensures r == if ValidRequest(want, opts) then Ok(InspectionOf(a, labels, opts, want)) else Err(InvalidRequest)
    ensures r.Ok? ==> IsInspection(a, labels, opts, want, r.value)
  {
    InspectionMeans(a, labels, opts, want);
    if !ValidRequest(want, opts) {
      return Err(InvalidRequest);
    }
    var roots, gids := SelectGoroutines(a, labels, opts, want);
    var selected := Walk(a.graph, roots);
    var global := Walk(a.graph, a.globals);
    var systemRoots, otherRoots := OutsideRoots(a.goroutines, gids);
    var system := Walk(a.graph, systemRoots);
    var other := Walk(a.graph, otherRoots);
    return Ok(Inspection(selected, global, system, other, global + (system + other), gids));
  }

  // ---- Exclusive ----

  datatype ExclusiveResult = ExclusiveResult(
    goroutines: nat,
    reachable: Measure,
    exclusive: Measure,
    shared: Measure,
    globalOverlap: Measure,
    systemOverlap: Measure,
    otherGoroutineOverlap: Measure)

  ghost function ExclusiveOf(g: Graph, i: Inspection): ExclusiveResult
  {
    ExclusiveResult(
      |i.gids|,
      MeasureOf(g, i.selected),
      MeasureOf(g, i.selected - i.outside),
      MeasureOf(g, i.selected * i.outside),
      MeasureOf(g, i.selected * i.global),
      MeasureOf(g, i.selected * i.system),
      MeasureOf(g, i.selected * i.other))
  }

  // Every number of the result, on the sets of the inspection.
  ghost predicate ReportsExclusive(g: Graph, i: Inspection, e: ExclusiveResult)
  {
    && e.goroutines == |i.gids|
    && IsMeasure(g, e.reachable, i.selected)
    && IsMeasure(g, e.exclusive, i.selected - i.outside) && IsMeasure(g, e.shared, i.selected * i.outside)
    && IsMeasure(g, e.globalOverlap, i.selected * i.global) && IsMeasure(g, e.systemOverlap, i.selected * i.system)
    && IsMeasure(g, e.otherGoroutineOverlap, i.selected * i.other)
  }

  ghost predicate IsExclusiveAnswer(a: Analysis, labels: map<u64, Labels>, opts: Options, want: Labels, e: ExclusiveResult)
  {
    exists i: Inspection :: IsInspection(a, labels, opts, want, i) && ReportsExclusive(a.graph, i, e)
  }

  // Every part of a set whose bytes fit can be measured.
  lemma PartFits(g: Graph, part: set<ObjectID>, whole: set<ObjectID>)
    requires part <= whole && Bytes(g, whole) <= MAX_U64
    ensures Bytes(g, part) <= MAX_U64
  {
    BytesMonotone(g, part, whole);
  }

  method MeasurePart(g: Graph, part: set<ObjectID>, ghost whole: set<ObjectID>) returns (m: Measure)
    requires part <= whole && Bytes(g, whole) <= MAX_U64
    requires forall id :: id in whole ==> g.ValidID(id)
    ensures m == MeasureOf(g, part)
  {
    PartFits(g, part, whole);
    var r := MeasureSet(g, part);
    m := r.value;
  }

  // The six measures of an inspection. Only the first can overflow.
  method MeasureInspection(g: Graph, i: Inspection) returns (r: Result<ExclusiveResult, Error>)
    requires forall id :: id in i.selected ==> g.ValidID(id)
    ensures r == if Bytes(g, i.selected) <= MAX_U64 then Ok(ExclusiveOf(g, i)) else Err(BytesOverflow)
  {
    var reachable :- MeasureSet(g, i.selected);
    var exclusive := MeasurePart(g, i.selected - i.outside, i.selected);
    var shared := MeasurePart(g, i.selected * i.outside, i.selected);
    var global := MeasurePart(g, i.selected * i.global, i.selected);
    var system := MeasurePart(g, i.selected * i.system, i.selected);
    var other := MeasurePart(g, i.selected * i.other, i.selected);
    return Ok(ExclusiveResult(|i.gids|, reachable, exclusive, shared, global, system, other));
  }

  method Exclusive(a: Analysis, labels: map<u64, Labels>, opts: Options, want: Labels) returns (r: Result<ExclusiveResult, Error>)
    ensures !ValidRequest(want, opts) ==> r == Err(InvalidRequest)
    ensures ValidRequest(want, opts) ==>
      var i := InspectionOf(a, labels, opts, want);
      r == if Bytes(a.graph, i.selected) <= MAX_U64 then Ok(ExclusiveOf(a.graph, i)) else Err(BytesOverflow)
    ensures r.Ok? ==> IsExclusiveAnswer(a, labels, opts, want, r.value)
  {
    var i :- Inspect(a, labels, opts, want);
    r := MeasureInspection(a.graph, i);
    assert r.Ok? ==> ReportsExclusive(a.graph, i, r.value);
  }

  // ---- Compare ----

  datatype Comparison = Comparison(aGoroutines: nat, bGoroutines: nat, overlapping: set<u64>, aOnly: Measure, bOnly: Measure, shared: Measure, union: Measure)

  ghost function ComparisonOf(g: Graph, x: set<ObjectID>, y: set<ObjectID>, xs: set<u64>, ys: set<u64>): Comparison
  {
    Comparison(|xs|, |ys|, xs * ys, MeasureOf(g, x - y), MeasureOf(g, y - x), MeasureOf(g, x * y), MeasureOf(g, x + y))
  }

  // Every number of a comparison, on what the two selections hold.
  ghost predicate IsComparison(a: Analysis, labels: map<u64, Labels>, opts: Options, x: Labels, y: Labels, c: Comparison)
  {
    var P, Q := Picked(a, labels, opts, x), Picked(a, labels, opts, y);
    var X, Y := HeldBy(a, P), HeldBy(a, Q);
    && c.aGoroutines == |CarriedIDs(a, P)| && c.bGoroutines == |CarriedIDs(a, Q)|
    && c.overlapping == CarriedIDs(a, P) * CarriedIDs(a, Q)
    && IsMeasure(a.graph, c.aOnly, X - Y) && IsMeasure(a.graph, c.bOnly, Y - X)
    && IsMeasure(a.graph, c.shared, X * Y) && IsMeasure(a.graph, c.union, X + Y)
  }

  method Compare(a: Analysis, labels: map<u64, Labels>, opts: Options, x: Labels, y: Labels) returns (r: Result<Comparison, Error>)
    ensures !(ValidRequest(x, opts) && ValidRequest(y, opts)) ==> r == Err(InvalidRequest)
    ensures ValidRequest(x, opts) && ValidRequest(y, opts) ==>
      var xs, ys := InspectionOf(a, labels, opts, x), InspectionOf(a, labels, opts, y);
      r == if Bytes(a.graph, xs.selected + ys.selected) <= MAX_U64
           then Ok(ComparisonOf(a.graph, xs.selected, ys.selected, xs.gids, ys.gids)) else Err(BytesOverflow)
    ensures r.Ok? ==> IsComparison(a, labels, opts, x, y, r.value)
  {
    InspectionMeans(a, labels, opts, x);
    InspectionMeans(a, labels, opts, y);
    if !ValidRequest(x, opts) || !ValidRequest(y, opts) {
      return Err(InvalidRequest);
    }
    var xRoots, xs := SelectGoroutines(a, labels, opts, x);
    var yRoots, ys := SelectGoroutines(a, labels, opts, y);
    var p := Walk(a.graph, xRoots);
    var q := Walk(a.graph, yRoots);
    BytesMonotone(a.graph, p - q, p + q);
    BytesMonotone(a.graph, q - p, p + q);
    BytesMonotone(a.graph, p * q, p + q);
    var aOnly :- MeasureSet(a.graph, p - q);
    var bOnly :- MeasureSet(a.graph, q - p);
    var shared :- MeasureSet(a.graph, p * q);
    var union :- MeasureSet(a.graph, p + q);
    return Ok(Comparison(|xs|, |ys|, xs * ys, aOnly, bOnly, shared, union));
  }

  // The three parts of a comparison make up the union.
  lemma ComparisonPartitions(g: Graph, x: set<ObjectID>, y: set<ObjectID>, xs: set<u64>, ys: set<u64>)
    ensures var c := ComparisonOf(g, x, y, xs, ys);
      && c.union.objects == c.aOnly.objects + c.bOnly.objects + c.shared.objects
      && c.union.bytes == c.aOnly.bytes + c.bOnly.bytes + c.shared.bytes
  {
    MeasureAdds(g, x - y, y - x);
    MeasureAdds(g, (x - y) + (y - x), x * y);
    assert (x - y) + (y - x) + x * y == x + y;
  }
}
