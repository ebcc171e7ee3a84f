// From the bytes of a dump to an answered request: the lazy parse, the labels read
// through its resolver, the graph, the session and its query
// (internal/memusage/analyze.go, snapshot.go, capture.go).
module Pipeline {
  import opened Words
  import opened Wrappers
  import opened AddressSpace
  import opened Graphs
  import opened Heap
  import opened Analyses
  import opened Compute
  import Wire
  import Dump
  import opened DumpFacts
  import opened DumpParser
  import opened Contents
  import opened LazyContents
  import opened Resolution
  import opened ObjectIndex
  import GraphRoots
  import opened Build
  import opened Parity
  import opened Recovery
  import L = LabelMaps
  import Distribution
  import Session

  // ---- Labels ----

  // runtimelayout.Lookup: the table of verified layouts.
  type LayoutTable = Params -> Option<L.Layout>

  function TargetsOf(grs: seq<HeapGoroutine>): (gs: seq<L.Target>)
    ensures |gs| == |grs|
  {
    seq(|grs|, (i: int) requires 0 <= i < |grs| => L.Target(grs[i].id, grs[i].addr))
  }

  // Structures are read from mem alone, string bytes from extra too.
  function SourceOf(mem: Reader, extra: Option<Reader>, layout: L.Layout): L.Source
  {
    L.Source(mem, if extra.Some? then Composite([mem, extra.value]) else mem, layout, L.Limits(0, 0))
  }

  // What label recovery finds for every goroutine.
  function Recovered(layout: Option<L.Layout>, mem: Reader, extra: Option<Reader>, gs: seq<L.Target>): (rs: seq<L.GoroutineLabels>)
    ensures |rs| == |gs|
  {
    match layout
    case None => seq(|gs|, _ => L.GoroutineLabels(L.UnsupportedRuntime, map[]))
    case Some(l) => L.ResultsUpTo(SourceOf(mem, extra, l), gs, |gs|)
  }

  method Recover(layout: Option<L.Layout>, mem: Reader, extra: Option<Reader>, gs: seq<L.Target>)
    returns (rs: seq<L.GoroutineLabels>, totals: L.Totals)
    ensures rs == Recovered(layout, mem, extra, gs) && totals == L.TotalsOf(rs)
  {
    if layout.Some? {
      var byID;
      rs, byID, totals := L.DecodeAll(SourceOf(mem, extra, layout.value), gs);
      return;
    }
    rs, totals := [], L.TotalsOf([]);
    for i := 0 to |gs|
      invariant |rs| == i && forall j :: 0 <= j < i ==> rs[j] == L.GoroutineLabels(L.UnsupportedRuntime, map[])
      invariant totals == L.TotalsOf(rs)
    {
      var r := L.GoroutineLabels(L.UnsupportedRuntime, map[]);
      assert (rs + [r])[..i] == rs;
      rs, totals := rs + [r], L.CountOf(totals, r.status);
    }
  }

  // ---- What recovery finds ----

  // The goroutines of the dump, by ID and address.
  ghost predicate AreTargets(gs: seq<L.Target>, grs: seq<HeapGoroutine>)
  {
    |gs| == |grs| && forall i :: 0 <= i < |gs| ==> gs[i].id == grs[i].id && gs[i].addr == grs[i].addr
  }

  // One character per byte.
  ghost predicate Spells(k: string, t: L.Text)
  {
    |k| == |t| && forall i :: 0 <= i < |t| ==> k[i] == t[i] as char
  }

  ghost predicate SpellsOut(labels: Labels, m: map<L.Text, L.Text>)
  {
    && (forall t {:trigger m[t]} :: t in m ==> exists k :: k in labels && Spells(k, t) && Spells(labels[k], m[t]))
    && (forall k {:trigger labels[k]} :: k in labels ==> exists t :: t in m && Spells(k, t) && Spells(labels[k], m[t]))
  }

  ghost predicate AllSpelled(labels: map<u64, Labels>, byID: map<u64, map<L.Text, L.Text>>)
  {
    labels.Keys == byID.Keys && forall id :: id in byID ==> SpellsOut(labels[id], byID[id])
  }

  // Each result says what memory holds for its goroutine, the labels are those in memory
  // and the diagnostics count the results.
  ghost predicate IsRead(src: L.Source, grs: seq<HeapGoroutine>, gs: seq<L.Target>, rs: seq<L.GoroutineLabels>,
                         byID: map<u64, map<L.Text, L.Text>>, labels: map<u64, Labels>, d: Diagnostics)
  {
    && AreTargets(gs, grs) && |rs| == |gs| && L.AllReport(src, gs, rs) && IsDiagnosis(gs, rs, d)
    && L.AreLabelsInMemory(src, gs, byID) && AllSpelled(labels, byID)
  }

  // Labels and diagnostics of the goroutines: nothing without a layout, and otherwise
  // what the memory of the dump, and for string bytes the extra memory, holds.
  ghost predicate IsRecovery(layout: Option<L.Layout>, mem: Reader, extra: Option<Reader>, grs: seq<HeapGoroutine>,
                             labels: map<u64, Labels>, d: Diagnostics)
  {
    match layout
    case None => labels == map[] && d == Diagnostics(|grs| > 0, 0, 0, None, None)
    case Some(l) =>
      var src := L.Source(mem, if extra.Some? then Composite([mem, extra.value]) else mem, l, L.Limits(0, 0));
      exists gs, rs, byID :: IsRead(src, grs, gs, rs, byID, labels, d)
  }

  lemma CharsSpell(t: L.Text)
    ensures Spells(Chars(t), t)
  {}

  lemma EntrySpelled(m: map<L.Text, L.Text>, t: L.Text)
    requires t in m
    ensures Chars(t) in CharLabels(m) && Spells(Chars(t), t) && Spells(CharLabels(m)[Chars(t)], m[t])
  {
    CharLabelsAt(m, t);
    CharsSpell(t);
    CharsSpell(m[t]);
  }

  lemma SpelledOut(m: map<L.Text, L.Text>)
    ensures SpellsOut(CharLabels(m), m)
  {
    forall t | t in m
      ensures Chars(t) in CharLabels(m) && Spells(Chars(t), t) && Spells(CharLabels(m)[Chars(t)], m[t])
    {
      EntrySpelled(m, t);
    }
    forall k | k in CharLabels(m)
      ensures exists t :: t in m && k == Chars(t)
    {
      CharLabelsOnly(m, k);
    }
  }

  lemma ResultsReport(src: L.Source, gs: seq<L.Target>)
    requires src.Valid()
    ensures L.AllReport(src, gs, L.ResultsUpTo(src, gs, |gs|))
  {
    var rs := L.ResultsUpTo(src, gs, |gs|);
    forall i {:trigger rs[i]} | 0 <= i < |rs|
      ensures L.Reports(src, gs[i].addr, rs[i])
    {
      ResultAt(src, gs, |gs|, i);
      L.ResultReports(src, gs[i].addr);
    }
  }

  lemma ReportsInMemory(src: L.Source, gs: seq<L.Target>)
    requires src.Valid()
    ensures var rs := L.ResultsUpTo(src, gs, |gs|); L.AllReport(src, gs, rs) && L.AreLabelsInMemory(src, gs, L.ByID(gs, rs))
  {
    ResultsReport(src, gs);
    L.RecoveredAreInMemory(src, gs, L.ResultsUpTo(src, gs, |gs|));
  }

  lemma TargetsAre(grs: seq<HeapGoroutine>)
    ensures AreTargets(TargetsOf(grs), grs)
  {}

  lemma RecoveredIsRead(src: L.Source, grs: seq<HeapGoroutine>)
    requires src.Valid()
    ensures var gs := TargetsOf(grs);
      var rs := L.ResultsUpTo(src, gs, |gs|);
      IsRead(src, grs, gs, rs, L.ByID(gs, rs), RecoveredLabels(gs, rs), DiagnosticsOf(gs, rs))
  {
    var gs := TargetsOf(grs);
    TargetsAre(grs);
    TargetsRead(src, grs, gs);
  }

  lemma TargetsRead(src: L.Source, grs: seq<HeapGoroutine>, gs: seq<L.Target>)
    requires src.Valid() && AreTargets(gs, grs)
    ensures var rs := L.ResultsUpTo(src, gs, |gs|);
      IsRead(src, grs, gs, rs, L.ByID(gs, rs), RecoveredLabels(gs, rs), DiagnosticsOf(gs, rs))
  {
    var rs := L.ResultsUpTo(src, gs, |gs|);
    ReportsInMemory(src, gs);
    DiagnosisMeans(gs, rs);
    LabelsSpelled(gs, rs);
  }

  lemma LabelsSpelled(gs: seq<L.Target>, rs: seq<L.GoroutineLabels>)
    requires |rs| <= |gs|
    ensures AllSpelled(RecoveredLabels(gs, rs), L.ByID(gs, rs))
  {
    forall id | id in L.ByID(gs, rs)
      ensures SpellsOut(RecoveredLabels(gs, rs)[id], L.ByID(gs, rs)[id])
    {
      SpelledOut(L.ByID(gs, rs)[id]);
    }
  }

  lemma {:induction false} NothingRead(gs: seq<L.Target>, rs: seq<L.GoroutineLabels>)
    requires |rs| <= |gs| && forall i :: 0 <= i < |rs| ==> rs[i].status == L.UnsupportedRuntime
    ensures L.ByID(gs, rs) == map[]
  {
    if |rs| > 0 {
      NothingRead(gs, rs[..|rs| - 1]);
    }
  }

  lemma NoLayoutNoLabels(mem: Reader, extra: Option<Reader>, grs: seq<HeapGoroutine>)
    ensures var gs := TargetsOf(grs);
      var rs := Recovered(None, mem, extra, gs);
      IsRecovery(None, mem, extra, grs, RecoveredLabels(gs, rs), DiagnosticsOf(gs, rs))
  {
    var gs := TargetsOf(grs);
    var rs := Recovered(None, mem, extra, gs);
    NothingRead(gs, rs);
    DiagnosisMeans(gs, rs);
    assert L.Where(rs, {L.StringMissing}) == {} && L.Where(rs, FAILURES) == {};
    assert IDsWhere(gs, rs, {L.StringMissing}) == {} && IDsWhere(gs, rs, FAILURES) == {};
  }

  // Readers that answer alike recover alike, however they find their bytes.
  lemma SameRecovery(layout: Option<L.Layout>, a: Reader, b: Reader, extra: Option<Reader>, gs: seq<L.Target>)
    requires L.Alike(a, b)
    ensures Recovered(layout, a, extra, gs) == Recovered(layout, b, extra, gs)
  {
    if layout.Some? {
      if extra.Some? {
        L.AlikeComposite(a, b, extra.value);
      }
      L.SameResults(SourceOf(a, extra, layout.value), SourceOf(b, extra, layout.value), gs, |gs|);
    }
  }

  // mem reads the contents of these objects: any object that starts last at or below
  // an address may answer for it. Where those that share an address share their bytes,
  // it is the objects themselves as a reader.
  ghost predicate ReadsFrom(mem: Reader, objs: seq<HeapObject>)
  {
    && (forall addr: u64, size: u64 {:trigger mem(addr, size)} :: Answers(objs, addr, size, false, mem(addr, size)))
    && (SharedAlike(objs) ==> L.Alike(HeapReader(objs), mem))
  }

  // Then the labels are those of the contents kept in memory.
  lemma LazyLabelsAreEager(mem: Reader, objs: seq<HeapObject>, layout: Option<L.Layout>, extra: Option<Reader>, gs: seq<L.Target>)
    requires ReadsFrom(mem, objs) && SharedAlike(objs)
    ensures Recovered(layout, mem, extra, gs) == Recovered(layout, HeapReader(objs), extra, gs)
  {
    SameRecovery(layout, HeapReader(objs), mem, extra, gs);
  }

  // The labels and diagnostics of a session on these objects are those in memory.
  lemma RecoveryMeans(layout: Option<L.Layout>, mem: Reader, objs: seq<HeapObject>, extra: Option<Reader>, grs: seq<HeapGoroutine>)
    requires ReadsFrom(mem, objs) && (extra.Some? ==> IsReader(extra.value))
    ensures var gs := TargetsOf(grs);
      var rs := Recovered(layout, mem, extra, gs);
      IsRecovery(layout, mem, extra, grs, RecoveredLabels(gs, rs), DiagnosticsOf(gs, rs))
  {
    AnswersKeepContract(objs, mem, false);
    if layout.Some? {
      if extra.Some? {
        CompositeIsReader([mem, extra.value]);
      }
      RecoveredIsRead(SourceOf(mem, extra, layout.value), grs);
    } else {
      NoLayoutNoLabels(mem, extra, grs);
    }
  }

  // An answer from the dump alone is final: no process memory consulted in addition
  // changes it, although more labels may then be recovered.
  lemma DumpAnswerIsFinal(mem: Reader, objs: seq<HeapObject>, layout: L.Layout, extra: Reader, gs: seq<L.Target>, a: Analysis, opts: Options, want: Labels)
    requires ReadsFrom(mem, objs) && IsReader(extra)
    ensures var rs, more := Recovered(Some(layout), mem, None, gs), Recovered(Some(layout), mem, Some(extra), gs);
      var r := Answer(a, RecoveredLabels(gs, rs), DiagnosticsOf(gs, rs), opts, want);
      r.Ok? ==> Answer(a, RecoveredLabels(gs, more), DiagnosticsOf(gs, more), opts, want) == r
  {
    AnswersKeepContract(objs, mem, false);
    assert SourceOf(mem, None, layout).(body := Composite([mem, extra])) == SourceOf(mem, Some(extra), layout);
    AnswerIsFinal(SourceOf(mem, None, layout), extra, gs, a, opts, want);
  }

  // ---- Loading ----

  datatype LoadError = ParseFailed(parse: Dump.ParseError) | UnsupportedLayout | BuildFailed(build: BuildError)

  function DumpOptions(keep: bool): Dump.Options { Dump.Options(false, keep, true, true) }

  // The global roots are those of the parser's own list: the second pass over the
  // data and bss segments finds nothing new, and misses nothing new either.
  ghost predicate HasParserGlobals(snap: Snapshot, b: Built)
  {
    var l := LookupOf(b.analysis.graph);
    var found := GraphRoots.GlobalsIn(l, GraphRoots.GlobalCandidates(snap.globals, |snap.globals|));
    && b.analysis.globals == found.roots + GraphRoots.FinalizerFound(l, snap).roots
    && b.unresolved.globals == found.unresolved
  }

  // No set of objects of the analysis measures more than 64 bits, and so no size
  // distribution fails.
  ghost predicate IsMeasurable(g: Graph)
  {
    forall s: set<nat> {:trigger Bytes(g, s)} ::
      (forall id :: id in s ==> g.ValidID(id)) ==> Bytes(g, s) <= MAX_U64 && Distribution.ClassesFit(g, s)
  }

  // a is what the whole snapshot, contents and all, builds to.
  ghost predicate IsAnalysisOf(a: Analysis, snap: Snapshot, keep: bool, m: nat, b: Built)
  {
    IsBuiltFrom(snap, keep, m, b) && b.analysis == a && HasParserGlobals(snap, b) && IsMeasurable(a.graph)
  }

  // The session holds the analysis of the snapshot, and labels and diagnostics
  // recovered through mem.
  ghost predicate IsSessionOf(s: Session.Snapshot, snap: Snapshot, rs: seq<L.GoroutineLabels>, keep: bool, m: nat, opts: Options)
    requires |rs| == |snap.goroutines|
    reads s
  {
    var gs := TargetsOf(snap.goroutines);
    && s.Valid() && s.opts == opts && s.analysis.Some?
    && (exists b :: IsAnalysisOf(s.analysis.value, snap, keep, m, b))
    && s.labels == RecoveredLabels(gs, rs) && s.diag == DiagnosticsOf(gs, rs)
  }

  // Why a snapshot that parses is not loaded: no layout is known for its runtime, or it
  // has too many objects, or too many bytes.
  function LoadFault(snap: Snapshot, rs: seq<L.GoroutineLabels>, m: nat): Option<LoadError>
    requires |rs| == |snap.goroutines|
  {
    if DiagnosticsOf(TargetsOf(snap.goroutines), rs).unsupportedRuntime then Some(UnsupportedLayout)
    else if |snap.objects| > m then Some(BuildFailed(TooManyObjects))
    else if TotalSize(snap.objects, |snap.objects|) > MAX_U64 then Some(BuildFailed(TotalBytesOverflow))
    else None
  }

  // For every input, and whatever memory is at hand: the dump fails to parse, or has
  // a load fault, or yields the session of the whole snapshot, although contents were
  // never kept.
  method LoadSnapshot(lim: Wire.Limits, data: seq<byte>, layouts: LayoutTable, extra: Option<Reader>, keep: bool, m: nat, opts: Options)
    returns (r: Result<Session.Snapshot, LoadError>, ghost mem: Reader)
    ensures match Dump.Parse(lim, Dump.Options(keepContents := true, keepOffsets := keep, strict := true, track := false), data)
      case Err(e) => r == Err(ParseFailed(e))
      case Ok(got) =>
        var snap := got.value.snap;
        var rs := Recovered(layouts(snap.params), mem, extra, TargetsOf(snap.goroutines));
        && ReadsFrom(mem, snap.objects)
        && match LoadFault(snap, rs, m)
           case Some(e) => r == Err(e)
           case None => r.Ok? && fresh(r.value) && IsSessionOf(r.value, snap, rs, keep, m, opts)
  {
    var parsed, resolver := ParseLazily(lim, DumpOptions(keep), data);
    LazyParseIsEagerParse(lim, DumpOptions(keep), data);
    mem := resolver.AsReader();
    if parsed.Err? {
      return Err(ParseFailed(parsed.error)), mem;
    }
    var lazy := parsed.value.snap;
    ghost var snap := Dump.Parse(lim, Eager(DumpOptions(keep)), data).value.value.snap;
    ResolverIsReader(resolver, snap.objects);
    var gs := TargetsOf(lazy.goroutines);
    var rs, totals := Recover(layouts(lazy.params), resolver.AsReader(), extra, gs);
    var diag := DiagnosticsFromHeapLabels(gs, rs, totals);
    if diag.unsupportedRuntime {
      return Err(UnsupportedLayout), mem;
    }
    var built := Build.Build(lazy, false, keep, m);
    assert lazy == Stripped(snap);
    if built.Err? {
      NotBuildable(snap, rs, m, built.error);
      return Err(BuildFailed(built.error)), mem;
    }
    BuildableAlike(snap, false, m);
    ParsedAnalysis(lim, data, keep, m, built.value);
    var s := new Session.Snapshot(built.value.analysis, RecoveredLabels(gs, rs), diag, opts);
    assert IsAnalysisOf(s.analysis.value, snap, keep, m, built.value);
    return Ok(s), mem;
  }

  lemma ResolverIsReader(c: ContentResolver, objs: seq<HeapObject>)
    requires LazyContents.Resolves(c, objs)
    ensures ReadsFrom(c.AsReader(), objs)
  {
    forall addr: u64, size: u64
      ensures Answers(objs, addr, size, false, c.AsReader()(addr, size))
      ensures SharedAlike(objs) ==> c.AsReader()(addr, size) == HeapReader(objs)(addr, size)
    {
      ResolverReads(c, objs, addr, size);
    }
  }

  lemma NotBuildable(snap: Snapshot, rs: seq<L.GoroutineLabels>, m: nat, e: BuildError)
    requires |rs| == |snap.goroutines| && !DiagnosticsOf(TargetsOf(snap.goroutines), rs).unsupportedRuntime
    requires Build.IsFailure(Stripped(snap).objects, false, m, e)
    ensures LoadFault(snap, rs, m) == Some(BuildFailed(e))
  {
    var objs := Stripped(snap).objects;
    SameSizes(snap.objects, objs, |objs|);
    if !e.TotalBytesOverflow? {
      var i: nat :| RefusedAt(objs, i, false, m, e);
    }
  }

  // What is built from a lazily parsed snapshot is built from the whole one, and
  // keeps the promises of the parser.
  lemma ParsedAnalysis(lim: Wire.Limits, data: seq<byte>, keep: bool, m: nat, b: Built)
    requires Dump.Parse(lim, Eager(DumpOptions(keep)), data).Ok?
    requires IsBuiltFrom(Stripped(Dump.Parse(lim, Eager(DumpOptions(keep)), data).value.value.snap), keep, m, b)
    ensures IsAnalysisOf(b.analysis, Dump.Parse(lim, Eager(DumpOptions(keep)), data).value.value.snap, keep, m, b)
  {
    var snap := Dump.Parse(lim, Eager(DumpOptions(keep)), data).value.value.snap;
    BuildIgnoresContents(snap, keep, m, b);
    ParsedFacts(lim, Eager(DumpOptions(keep)), data);
    ParsedGlobals(snap, keep, m, b);
    BuiltIsMeasurable(snap, keep, m, b);
  }

  lemma BuiltIsMeasurable(snap: Snapshot, keep: bool, m: nat, b: Built)
    requires IsBuiltFrom(snap, keep, m, b)
    ensures IsMeasurable(b.analysis.graph)
  {
    var g := b.analysis.graph;
    forall s: set<nat> | forall id :: id in s ==> g.ValidID(id)
      ensures Bytes(g, s) <= MAX_U64 && Distribution.ClassesFit(g, s)
    {
      MeasuresNeverOverflow(snap, keep, m, b, s);
      Distribution.TotalFits(g, s);
    }
  }

  // ---- Requests ----

  datatype AnalyzeError = LoadFailed(load: LoadError) | QueryFailed(query: Error)

  function Reported(answer: Result<Response, Error>): Result<Response, AnalyzeError>
  {
    match answer
    case Ok(v) => Ok(v)
    case Err(e) => Err(QueryFailed(e))
  }

  // The answer to want on the analysis of the snapshot with the recovered labels.
  ghost predicate IsAnswerOf(r: Result<Response, AnalyzeError>, snap: Snapshot, rs: seq<L.GoroutineLabels>, keep: bool, m: nat, opts: Options, want: Labels)
    requires |rs| == |snap.goroutines|
  {
    var gs := TargetsOf(snap.goroutines);
    exists a: Analysis, b: Built :: IsAnalysisOf(a, snap, keep, m, b) && r == Reported(Answer(a, RecoveredLabels(gs, rs), DiagnosticsOf(gs, rs), opts, want))
  }

  // AnalyzeDump: a request is validated before anything is read; then it is answered
  // as on the eagerly parsed snapshot, or the load error is reported.
  method AnalyzeDump(lim: Wire.Limits, data: seq<byte>, layouts: LayoutTable, extra: Option<Reader>, keep: bool, m: nat, opts: Options, want: Labels)
    returns (r: Result<Response, AnalyzeError>, ghost mem: Reader)
    ensures !ValidRequest(want, opts) ==> r == Err(QueryFailed(InvalidRequest))
    ensures ValidRequest(want, opts) ==>
      match Dump.Parse(lim, Dump.Options(keepContents := true, keepOffsets := keep, strict := true, track := false), data)
      case Err(e) => r == Err(LoadFailed(ParseFailed(e)))
      case Ok(got) =>
        var snap := got.value.snap;
        var rs := Recovered(layouts(snap.params), mem, extra, TargetsOf(snap.goroutines));
        && ReadsFrom(mem, snap.objects)
        && match LoadFault(snap, rs, m)
           case Some(e) => r == Err(LoadFailed(e))
           case None => IsAnswerOf(r, snap, rs, keep, m, opts, want)
  {
    mem := (addr: u64, size: u64) => None;
    if !ValidRequest(want, opts) {
      return Err(QueryFailed(InvalidRequest)), mem;
    }
    var s;
    s, mem := LoadSnapshot(lim, data, layouts, extra, keep, m, opts);
    if s.Err? {
      return Err(LoadFailed(s.error)), mem;
    }
    var answer := s.value.Query(want);
    s.value.Close();
    return Reported(answer), mem;
  }
}
