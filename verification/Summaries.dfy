// The summary of one selection and its pprof export (internal/memusage/summary.go,
// export.go).
module Summaries {
  import opened Words
  import opened Wrappers
  import opened Graphs
  import opened Analyses
  import opened Bubbles
  import opened Samples
  import opened ExportPaths
  import Distribution

  // ---- Root tallies ----

  // The roots of the goroutines with these IDs, in order.
  function HeldUpTo(gs: seq<Goroutine>, gids: set<u64>, n: nat): seq<RootRef>
    requires n <= |gs|
  {
    if n == 0 then []
    else HeldUpTo(gs, gids, n - 1) + (if gs[n - 1].id in gids then gs[n - 1].roots else [])
  }

  function KindsOf(rs: seq<RootRef>): seq<string>
  {
    if |rs| == 0 then [] else KindsOf(rs[..|rs| - 1]) + [rs[|rs| - 1].kind]
  }

  predicate NamesFunction(r: RootRef) { r.kind == "stack" && r.detail != [] }

  // The functions of the stack roots that name one.
  function FunctionsOf(rs: seq<RootRef>): seq<seq<byte>>
  {
    if |rs| == 0 then []
    else
      var before, r := FunctionsOf(rs[..|rs| - 1]), rs[|rs| - 1];
      if NamesFunction(r) then before + [r.detail] else before
  }

  // m counts how often each key occurs.
  ghost predicate Tallies<K(!new)>(m: map<K, nat>, ks: seq<K>)
  {
    forall k :: (k in m <==> k in ks) && (k in m ==> m[k] == multiset(ks)[k])
  }

  method Tally<K(==,!new)>(m0: map<K, nat>, ghost ks: seq<K>, k: K) returns (m: map<K, nat>)
    requires Tallies(m0, ks)
    ensures Tallies(m, ks + [k])
  {
    m := m0[k := (if k in m0 then m0[k] else 0) + 1];
  }

  datatype RootTally = RootTally(roots: nat, categories: map<string, nat>, functions: map<seq<byte>, nat>)

  ghost predicate TalliesRoots(t: RootTally, rs: seq<RootRef>)
  {
    t.roots == |rs| && Tallies(t.categories, KindsOf(rs)) && Tallies(t.functions, FunctionsOf(rs))
  }

  method TallyRoot(t0: RootTally, ghost rs: seq<RootRef>, r: RootRef) returns (t: RootTally)
    requires TalliesRoots(t0, rs)
    ensures TalliesRoots(t, rs + [r])
  {
    assert (rs + [r])[..|rs|] == rs;
    var categories := Tally(t0.categories, KindsOf(rs), r.kind);
    var functions := t0.functions;
    if r.kind == "stack" && r.detail != [] {
      functions := Tally(functions, FunctionsOf(rs), r.detail);
    }
    t := RootTally(t0.roots + 1, categories, functions);
  }

  method TallyGoroutine(t0: RootTally, ghost before: seq<RootRef>, rs: seq<RootRef>) returns (t: RootTally)
    requires TalliesRoots(t0, before)
    ensures TalliesRoots(t, before + rs)
  {
    t := t0;
    ghost var done := before;
    for i := 0 to |rs|
      invariant TalliesRoots(t, done) && done == before + rs[..i]
    {
      t := TallyRoot(t, done, rs[i]);
      done := done + [rs[i]];
    }
    assert done == before + rs;
  }

  method TallyHeld(gs: seq<Goroutine>, gids: set<u64>) returns (t: RootTally)
    ensures TalliesRoots(t, HeldUpTo(gs, gids, |gs|))
  {
    t := RootTally(0, map[], map[]);
    for i := 0 to |gs|
      invariant TalliesRoots(t, HeldUpTo(gs, gids, i))
    {
      if gs[i].id in gids {
        t := TallyGoroutine(t, HeldUpTo(gs, gids, i), gs[i].roots);
      } else {
        assert HeldUpTo(gs, gids, i) + [] == HeldUpTo(gs, gids, i);
      }
    }
  }

  // ---- The summary ----

  datatype Summary = Summary(present: bool, metrics: ExclusiveResult, distribution: seq<Distribution.Entry>, tally: RootTally)

  // The measures of the inspection, the size distribution of what was selected, and
  // the roots of the goroutines that carry a selected ID.
  ghost predicate Summarizes(s: Summary, a: Analysis, i: Inspection)
  {
    && s.metrics == ExclusiveOf(a.graph, i) && ReportsExclusive(a.graph, i, s.metrics) && s.present == (i.gids != {})
    && Distribution.Describes(s.distribution, a.graph, i.selected)
    && TalliesRoots(s.tally, HeldUpTo(a.goroutines, i.gids, |a.goroutines|))
  }

  // It fails only where the selected bytes do not fit 64 bits: no overlap, class or
  // count can overflow on its own.
  method Summarize(a: Analysis, labels: map<u64, Labels>, opts: Options, want: Labels) returns (r: Result<Summary, Error>)
    ensures var i := InspectionOf(a, labels, opts, want);
      if !ValidRequest(want, opts) then r == Err(InvalidRequest)
      else if Bytes(a.graph, i.selected) > MAX_U64 then r == Err(BytesOverflow)
      else r.Ok? && Summarizes(r.value, a, i)
  {
    var i :- Inspect(a, labels, opts, want);
    var metrics :- MeasureInspection(a.graph, i);
    var distribution := Distribution.SizeDistribution(a.graph, i.selected);
    var tally := TallyHeld(a.goroutines, i.gids);
    assert |i.gids| > 0 <==> i.gids != {};
    return Ok(Summary(|i.gids| > 0, metrics, distribution.value, tally));
  }

  // ---- The pprof export ----

  // Sum of one column over the summary's samples.
  ghost function SummarySum(samples: seq<seq<nat>>, c: nat): nat
  {
    if |samples| == 0 then 0
    else SummarySum(samples[..|samples| - 1], c) + At(samples[|samples| - 1], c)
  }

  // The sample of partition k (0 exclusive, 1 shared), and none for an empty one.
  method AddPartition(samples0: seq<seq<nat>>, k: nat, m: Measure) returns (samples: seq<seq<nat>>)
    requires k < 2 && (m.objects == 0 ==> m.bytes == 0)
    ensures |samples| <= |samples0| + 1
    ensures forall c: nat :: c < COLUMNS ==> (
      SummarySum(samples, c) == SummarySum(samples0, c) +
        (if c == 0 || c == 2 + 2 * k then m.objects else if c == 1 || c == 3 + 2 * k then m.bytes else 0))
  {
    samples := samples0;
    if m.objects == 0 {
      return;
    }
    var values: seq<nat> := [m.objects, m.bytes, 0, 0, 0, 0];
    values := values[2 + 2 * k := m.objects];
    values := values[3 + 2 * k := m.bytes];
    samples := samples + [values];
    assert samples[..|samples0|] == samples0;
  }

  // Pprof on a summary: at most one sample per partition.
  method SummaryPprof(m: ExclusiveResult, ghost g: Graph, ghost i: Inspection) returns (r: Result<seq<seq<nat>>, Error>)
    requires m == ExclusiveOf(g, i)
    ensures r.Err? <==> Bytes(g, i.selected) > MAX_I64
    ensures r.Err? ==> r.error == PprofRange
    ensures r.Ok? ==> IsSummaryExport(r.value, g, i)
  {
    PartitionOfSelected(g, i);
    if m.reachable.bytes > MAX_I64 || m.exclusive.bytes > MAX_I64 || m.shared.bytes > MAX_I64 {
      return Err(PprofRange);
    }
    EmptyHasNoBytes(g, i.selected - i.outside);
    EmptyHasNoBytes(g, i.selected * i.outside);
    var samples := AddPartition([], 0, m.exclusive);
    samples := AddPartition(samples, 1, m.shared);
    return Ok(samples);
  }

  // At most two samples, whose columns add up to the measures.
  ghost predicate IsSummaryExport(samples: seq<seq<nat>>, g: Graph, i: Inspection)
  {
    |samples| <= 2 && forall c: nat :: c < COLUMNS ==> SummarySum(samples, c) == Expected(g, i, c)
  }

  // Summary mode as a whole: fails exactly when paths mode's guards do, and its
  // columns add up to the same totals.
  method ExportSummaryMode(a: Analysis, labels: map<u64, Labels>, opts: Options, want: Labels) returns (r: Result<seq<seq<nat>>, Error>)
    ensures var e := GuardError(a, labels, opts, want, 0);
      && (e.Some? ==> r == Err(e.value))
      && (e.None? ==> r.Ok? && IsSummaryExport(r.value, a.graph, InspectionOf(a, labels, opts, want)))
  {
    ghost var i := InspectionOf(a, labels, opts, want);
    GuardOf(a, labels, opts, want, i);
    var s := Summarize(a, labels, opts, want);
    if s.Err? {
      return Err(s.error);
    }
    r := SummaryPprof(s.value.metrics, a.graph, i);
  }

  // The guards of summary mode, in terms of the inspection.
  lemma GuardOf(a: Analysis, labels: map<u64, Labels>, opts: Options, want: Labels, i: Inspection)
    requires i == InspectionOf(a, labels, opts, want)
    ensures GuardError(a, labels, opts, want, 0) ==
      if !ValidRequest(want, opts) then Some(InvalidRequest)
      else if Bytes(a.graph, i.selected) > MAX_U64 then Some(BytesOverflow)
      else if Bytes(a.graph, i.selected) > MAX_I64 then Some(PprofRange)
      else None
  {}

  lemma EmptyHasNoBytes(g: Graph, s: set<ObjectID>)
    ensures |s| == 0 ==> Bytes(g, s) == 0
  {
    if |s| == 0 {
      assert s == {};
      BytesNone(g.objects, |g.objects|);
    }
  }

  // Exclusive and shared make up the selection.
  lemma PartitionOfSelected(g: Graph, i: Inspection)
    ensures Bytes(g, i.selected) == Bytes(g, i.selected - i.outside) + Bytes(g, i.selected * i.outside)
    ensures |i.selected| == |i.selected - i.outside| + |i.selected * i.outside|
  {
    var x, y := i.selected - i.outside, i.selected * i.outside;
    MeasureAdds(g, x, y);
    assert x + y == i.selected;
  }

  // The columns of either export are consistent: exclusive plus shared is
  // reachable, and no column exceeds a signed 64-bit value in bytes.
  lemma ColumnsConsistent(a: Analysis, labels: map<u64, Labels>, opts: Options, want: Labels)
    requires GuardError(a, labels, opts, want, 0).None?
    ensures var g, i := a.graph, InspectionOf(a, labels, opts, want);
      && Expected(g, i, 0) == Expected(g, i, 2) + Expected(g, i, 4)
      && Expected(g, i, 1) == Expected(g, i, 3) + Expected(g, i, 5) <= MAX_I64
      && Expected(g, i, 0) == |i.selected| && Expected(g, i, 1) == Bytes(g, i.selected)
      && Expected(g, i, 2) == |i.selected - i.outside| && Expected(g, i, 3) == Bytes(g, i.selected - i.outside)
      && Expected(g, i, 4) == |i.selected * i.outside| && Expected(g, i, 5) == Bytes(g, i.selected * i.outside)
  {
    PartitionOfSelected(a.graph, InspectionOf(a, labels, opts, want));
  }
}
