// The paths-mode export of one selection (internal/memusage/export_paths.go).
module ExportPaths {
  import opened Words
  import opened Wrappers
  import opened Graphs
  import opened Search
  import opened Reachability
  import opened Analyses
  import opened Bubbles
  import opened ExportForest
  import opened Samples
  import Agreement

  // The guards before any sample is built.
  ghost function GuardError(a: Analysis, labels: map<u64, Labels>, opts: Options, want: Labels, maxDepth: int): Option<Error>
  {
    if maxDepth < 0 || maxDepth == 1 || !ValidRequest(want, opts) then Some(InvalidRequest)
    else
      var bytes := Bytes(a.graph, InspectionOf(a, labels, opts, want).selected);
      if bytes > MAX_U64 then Some(BytesOverflow)
      else if bytes > MAX_I64 then Some(PprofRange)
      else None
  }

  // The objects the forest covers: reach of every goroutine whose ID was selected.
  ghost function Covered(a: Analysis, i: Inspection): set<ObjectID>
  {
    Reach(a.graph, Roots(a.goroutines, InIDs(i.gids)))
  }

  // One sample stands for one reachable object, classified, with its real path
  // abbreviated and a selected goroutine that holds the root of that path.
  ghost predicate SampleOK(g: Graph, gs: seq<Goroutine>, i: Inspection, roots: seq<ExportRoot>, t: State, maxDepth: nat, s: Sample)
    requires Sound(g, RootObjects(roots), t)
  {
    var path := PathTo(g, RootObjects(roots), t, s.id);
    && s.id in i.selected && g.ValidID(s.id)
    && IsShortest(g, Elements(RootObjects(roots)), path, s.id)
    && Abbreviates(path, maxDepth, s.prefix, s.omitted, s.suffix)
    && StartsFrom(gs, i.gids, s.gid, path[0])
    && (s.shared <==> s.id in i.outside)
    && (var size := g.objects[s.id].size; s.values == if s.shared then [1, size, 0, 0, 1, size] else [1, size, 1, size, 0, 0])
  }

  ghost function Representative(roots: seq<ExportRoot>, t: State, id: ObjectID): u64
  {
    if id in t.pred && t.pred[id].root < |roots| then roots[t.pred[id].root].gid else 0
  }

  ghost function Fits(path: seq<ObjectID>, maxDepth: nat): bool
  {
    maxDepth == 0 || |path| <= maxDepth
  }

  ghost function SampleOf(g: Graph, i: Inspection, roots: seq<ExportRoot>, t: State, maxDepth: nat, id: ObjectID): Sample
    requires g.ValidID(id) && Sound(g, RootObjects(roots), t)
  {
    var path := PathTo(g, RootObjects(roots), t, id);
    Sample(id, Representative(roots, t, id),
      if Fits(path, maxDepth) then path else path[..maxDepth / 2],
      if Fits(path, maxDepth) then 0 else |path| - maxDepth,
      if Fits(path, maxDepth) then [] else path[|path| - (maxDepth - maxDepth / 2)..],
      id in i.outside,
      ValuesFor(g.objects[id].size, id in i.outside))
  }

  ghost function AllSamples(g: Graph, i: Inspection, roots: seq<ExportRoot>, t: State, maxDepth: nat): (all: seq<Sample>)
    requires Sound(g, RootObjects(roots), t)
    ensures |all| == |g.objects|
    ensures forall id :: 0 <= id < |all| ==> all[id] == SampleOf(g, i, roots, t, maxDepth, id)
  {
    seq(|g.objects|, id requires 0 <= id < |g.objects| => SampleOf(g, i, roots, t, maxDepth, id))
  }

  lemma SampleAbbreviates(g: Graph, i: Inspection, roots: seq<ExportRoot>, t: State, maxDepth: nat, id: ObjectID)
    requires Sound(g, RootObjects(roots), t) && g.ValidID(id)
    ensures var s := SampleOf(g, i, roots, t, maxDepth, id);
      Abbreviates(PathTo(g, RootObjects(roots), t, id), maxDepth, s.prefix, s.omitted, s.suffix)
  {
    HalfSplit(PathTo(g, RootObjects(roots), t, id), maxDepth);
  }

  // The goroutine gid, one of the selection, holds a root at object first.
  ghost predicate StartsFrom(gs: seq<Goroutine>, gids: set<u64>, gid: u64, first: ObjectID)
  {
    gid in gids && exists r :: Owns(gs, gid, r) && r.objectID == first
  }

  lemma RepresentativeStarts(g: Graph, gs: seq<Goroutine>, gids: set<u64>, roots: seq<ExportRoot>, t: State, id: ObjectID)
    requires Consistent(g, t) && Sound(g, RootObjects(roots), t) && id in t.pred && AllOwned(gs, gids, roots)
    ensures |PathTo(g, RootObjects(roots), t, id)| > 0
    ensures StartsFrom(gs, gids, Representative(roots, t, id), PathTo(g, RootObjects(roots), t, id)[0])
  {
    ChainIsPath(g, RootObjects(roots), t, id);
    var k := t.pred[id].root;
    assert roots[k].ref.objectID == RootObjects(roots)[k];
    assert Owns(gs, roots[k].gid, roots[k].ref);
  }

  lemma SampleOfIsOK(g: Graph, gs: seq<Goroutine>, i: Inspection, roots: seq<ExportRoot>, t: State, maxDepth: nat, id: ObjectID)
    requires IsSearch(g, RootObjects(roots), t) && AllOwned(gs, i.gids, roots)
    requires id in i.selected && id in t.pred
    ensures SampleOK(g, gs, i, roots, t, maxDepth, SampleOf(g, i, roots, t, maxDepth, id))
  {
    RepresentativeStarts(g, gs, i.gids, roots, t, id);
    SampleAbbreviates(g, i, roots, t, maxDepth, id);
  }

  lemma HalfSplit(path: seq<ObjectID>, maxDepth: nat)
    ensures !Fits(path, maxDepth) ==>
      Abbreviates(path, maxDepth, path[..maxDepth / 2], |path| - maxDepth, path[|path| - (maxDepth - maxDepth / 2)..])
    ensures Fits(path, maxDepth) ==> Abbreviates(path, maxDepth, path, 0, [])
  {}

  lemma HalfSplitOnly(path: seq<ObjectID>, maxDepth: nat, prefix: seq<ObjectID>, omitted: nat, suffix: seq<ObjectID>)
    requires Abbreviates(path, maxDepth, prefix, omitted, suffix)
    ensures !Fits(path, maxDepth) ==>
      prefix == path[..maxDepth / 2] && omitted == |path| - maxDepth && suffix == path[|path| - (maxDepth - maxDepth / 2)..]
    ensures Fits(path, maxDepth) ==> prefix == path && omitted == 0 && suffix == []
  {}

  lemma {:induction false} SizeFits(g: Graph, s: set<ObjectID>, id: ObjectID, n: nat)
    requires n <= |g.objects| && id in s && id < n
    ensures g.objects[id].size <= BytesUpTo(g.objects, s, n)
  {
    if id < n - 1 {
      SizeFits(g, s, id, n - 1);
    }
  }

  method SampleFor(g: Graph, i: Inspection, forest: seq<ExportPredecessor>, roots: seq<ExportRoot>, maxDepth: nat, id: ObjectID, ghost t: State) returns (s: Sample)
    requires Consistent(g, t) && Sound(g, RootObjects(roots), t)
    requires g.ValidID(id) && forest == Forest(g, RootObjects(roots), t, t, maxDepth / 2)
    requires id in i.selected && id in t.pred
    requires Bytes(g, i.selected) <= MAX_I64
    ensures s == SampleOf(g, i, roots, t, maxDepth, id)
  {
    assert SoundAt(g, RootObjects(roots), t, id);
    SizeFits(g, i.selected, id, |g.objects|);
    var gid, size := roots[forest[id].root].gid, g.objects[id].size;
    assert size <= MAX_I64;
    var prefix, suffix, omitted := ExportPathSegments(forest, id, maxDepth, g, RootObjects(roots), t);
    HalfSplitOnly(PathTo(g, RootObjects(roots), t, id), maxDepth, prefix, omitted, suffix);
    var shared := id in i.outside;
    s := Sample(id, gid, prefix, omitted, suffix, shared, ValuesFor(size, shared));
  }

  // id is the smallest member of covered outside selected.
  ghost predicate IsFirstOutside(covered: set<ObjectID>, selected: set<ObjectID>, id: ObjectID)
  {
    id in covered && id !in selected && forall x :: x in covered && x < id ==> x in selected
  }

  // One sample per object the forest marks, in object order, unless a mark lies
  // outside the selection.
  method BuildSamples(g: Graph, i: Inspection, forest: seq<ExportPredecessor>, roots: seq<ExportRoot>, maxDepth: nat, ghost t: State)
    returns (r: Result<seq<Sample>, Error>)
    requires Consistent(g, t) && Sound(g, RootObjects(roots), t)
    requires forest == Forest(g, RootObjects(roots), t, t, maxDepth / 2)
    requires i.selected <= t.pred.Keys && Bytes(g, i.selected) <= MAX_I64
    ensures r.Ok? <==> t.pred.Keys <= i.selected
    ensures r.Ok? ==> r.value == Chosen(AllSamples(g, i, roots, t, maxDepth), i.selected, |g.objects|)
    ensures r.Err? ==> r.error.OutsideSelection? && IsFirstOutside(t.pred.Keys, i.selected, r.error.id)
  {
    var samples: seq<Sample> := [];
    ghost var all := AllSamples(g, i, roots, t, maxDepth);
    for id := 0 to |forest|
      invariant samples == Chosen(all, i.selected, id)
      invariant forall x :: x in t.pred && x < id ==> x in i.selected
    {
      VisitedHasDepth(g, RootObjects(roots), t, t, maxDepth / 2, id);
      ChosenStep(all, i.selected, id);
      if forest[id].depth == 0 {
        continue;
      }
      if id !in i.selected {
        return Err(OutsideSelection(id));
      }
      var s := SampleFor(g, i, forest, roots, maxDepth, id, t);
      assert s == all[id];
      samples := samples + [s];
    }
    return Ok(samples);
  }

  lemma ExportedColumns(g: Graph, i: Inspection, roots: seq<ExportRoot>, t: State, maxDepth: nat)
    requires IsSearch(g, RootObjects(roots), t) && i.selected <= t.pred.Keys
    ensures var samples := Chosen(AllSamples(g, i, roots, t, maxDepth), i.selected, |g.objects|);
      |samples| == |i.selected| && forall c: nat :: c < COLUMNS ==> ColumnSum(samples, c) == Expected(g, i, c)
  {
    var all := AllSamples(g, i, roots, t, maxDepth);
    CardIsSize(i.selected, |g.objects|);
    ChosenTotals(g, i, all, |g.objects|, 0);
    forall c: nat | c < COLUMNS
      ensures ColumnSum(Chosen(all, i.selected, |g.objects|), c) == Expected(g, i, c)
    {
      ExpectedAll(g, i, c);
      ChosenTotals(g, i, all, |g.objects|, c);
    }
  }

  lemma ExportedSamples(g: Graph, gs: seq<Goroutine>, i: Inspection, roots: seq<ExportRoot>, t: State, maxDepth: nat)
    requires IsSearch(g, RootObjects(roots), t) && i.selected <= t.pred.Keys && AllOwned(gs, i.gids, roots)
    ensures var samples := Chosen(AllSamples(g, i, roots, t, maxDepth), i.selected, |g.objects|);
      && (forall k :: 0 <= k < |samples| ==> SampleOK(g, gs, i, roots, t, maxDepth, samples[k]))
      && (forall k :: 0 < k < |samples| ==> samples[k - 1].id < samples[k].id)
  {
    var all := AllSamples(g, i, roots, t, maxDepth);
    var samples := Chosen(all, i.selected, |g.objects|);
    forall k | 0 <= k < |samples|
      ensures SampleOK(g, gs, i, roots, t, maxDepth, samples[k])
      ensures k > 0 ==> samples[k - 1].id < samples[k].id
    {
      ChosenMember(all, i.selected, |g.objects|, k);
      SampleOfIsOK(g, gs, i, roots, t, maxDepth, samples[k].id);
    }
  }

  // The export passes its guards and then meets the selection mismatch.
  ghost predicate MismatchFires(a: Analysis, labels: map<u64, Labels>, opts: Options, want: Labels, maxDepth: int)
  {
    var i := InspectionOf(a, labels, opts, want);
    GuardError(a, labels, opts, want, maxDepth).None? && !(Covered(a, i) <= i.selected)
  }

  // Paths mode as a whole. Of the source's two mismatch errors only the first is
  // possible at all, just when the goroutines sharing the selected IDs reach
  // beyond the selection (SomeMismatchIff, MismatchExample); "does not
  // cover" never happens.
  method ExportPathsMode(a: Analysis, labels: map<u64, Labels>, opts: Options, want: Labels, maxDepth: int)
    returns (r: Result<seq<Sample>, Error>, ghost roots: seq<ExportRoot>, ghost t: State)
    ensures GuardError(a, labels, opts, want, maxDepth).Some? ==> r == Err(GuardError(a, labels, opts, want, maxDepth).value)
    ensures r.Err? && r.error.OutsideSelection? <==> MismatchFires(a, labels, opts, want, maxDepth)
    ensures GuardError(a, labels, opts, want, maxDepth).None? ==>
      var i := InspectionOf(a, labels, opts, want);
      && (r.Ok? <==> Covered(a, i) <= i.selected)
      && (r.Err? ==> r.error.OutsideSelection? && IsFirstOutside(Covered(a, i), i.selected, r.error.id))
      && RootSet(Refs(roots)) == Roots(a.goroutines, InIDs(i.gids)) && IsSearch(a.graph, RootObjects(roots), t)
      && (r.Ok? ==>
            && |r.value| == |i.selected|
            && (forall c: nat :: c < COLUMNS ==> ColumnSum(r.value, c) == Expected(a.graph, i, c))
            && (forall k :: 0 <= k < |r.value| ==> SampleOK(a.graph, a.goroutines, i, roots, t, maxDepth, r.value[k]))
            && (forall k :: 0 < k < |r.value| ==> r.value[k - 1].id < r.value[k].id))
  {
    roots, t := [], START;
    if maxDepth < 0 || maxDepth == 1 {
      return Err(InvalidRequest), roots, t;
    }
    var inspected := Inspect(a, labels, opts, want);
    if inspected.Err? {
      return Err(inspected.error), roots, t;
    }
    var i := inspected.value;
    var m := MeasureSet(a.graph, i.selected);
    if m.Err? {
      return Err(m.error), roots, t;
    }
    if m.value.bytes > MAX_I64 {
      return Err(PprofRange), roots, t;
    }
    SelectionIsCovered(a, labels, opts, want);
    r, roots, t := ExportInspected(a, i, maxDepth);
  }

  // The part after the guards.
  method ExportInspected(a: Analysis, i: Inspection, maxDepth: nat) returns (r: Result<seq<Sample>, Error>, ghost roots: seq<ExportRoot>, ghost t: State)
    requires i.selected <= Covered(a, i) && Bytes(a.graph, i.selected) <= MAX_I64
    ensures RootSet(Refs(roots)) == Roots(a.goroutines, InIDs(i.gids)) && IsSearch(a.graph, RootObjects(roots), t)
    ensures r.Ok? <==> Covered(a, i) <= i.selected
    ensures r.Err? ==> r.error.OutsideSelection? && IsFirstOutside(Covered(a, i), i.selected, r.error.id)
    ensures r.Ok? ==>
      && |r.value| == |i.selected|
      && (forall c: nat :: c < COLUMNS ==> ColumnSum(r.value, c) == Expected(a.graph, i, c))
      && (forall k :: 0 <= k < |r.value| ==> SampleOK(a.graph, a.goroutines, i, roots, t, maxDepth, r.value[k]))
      && (forall k :: 0 < k < |r.value| ==> r.value[k - 1].id < r.value[k].id)
  {
    var exportRoots := ExportRoots(a.goroutines, i.gids);
    roots := exportRoots;
    RootIDsSet(Refs(exportRoots));
    var forest;
    forest, t := BuildExportForest(a.graph, exportRoots, maxDepth / 2);
    ExportedColumns(a.graph, i, exportRoots, t, maxDepth);
    ExportedSamples(a.graph, a.goroutines, i, exportRoots, t, maxDepth);
    r := BuildSamples(a.graph, i, forest[..], exportRoots, maxDepth, t);
  }

  lemma SelectionIsCovered(a: Analysis, labels: map<u64, Labels>, opts: Options, want: Labels)
    ensures var i := InspectionOf(a, labels, opts, want);
      i.selected <= Covered(a, i)
  {
    var gs, c := a.goroutines, Selected(labels, opts, want);
    var gids := IDs(gs, c);
    forall k | 0 <= k < |gs| && c(gs[k])
      ensures InIDs(gids)(gs[k])
    {
      IDsMember(gs, |gs|, c, gs[k].id);
    }
    RootsSmaller(gs, |gs|, c, InIDs(gids));
    ReachMonotone(a.graph, Roots(gs, c), Roots(gs, InIDs(gids)));
  }

  // ---- When the mismatch error fires ----

  // A goroutine that cannot be matched carries a selected ID and has a root the
  // selection does not reach.
  ghost predicate Shadowing(a: Analysis, opts: Options, i: Inspection, k: nat)
  {
    && k < |a.goroutines|
    && !Eligible(a.goroutines[k], opts) && a.goroutines[k].id in i.gids
    && exists r :: r in RootSet(a.goroutines[k].roots) && a.graph.ValidID(r) && r !in i.selected
  }

  lemma CoveredSplits(a: Analysis, labels: map<u64, Labels>, opts: Options, want: Labels)
    ensures var i := InspectionOf(a, labels, opts, want);
      Covered(a, i) == i.selected + Reach(a.graph, Roots(a.goroutines, ShadowsIn(opts, i.gids)))
  {
    var gs, c := a.goroutines, Selected(labels, opts, want);
    var gids := IDs(gs, c);
    forall k | 0 <= k < |gs|
      ensures InIDs(gids)(gs[k]) <==> c(gs[k]) || ShadowsIn(opts, gids)(gs[k])
    {
      IDsMember(gs, |gs|, c, gs[k].id);
    }
    RootsSplit(gs, |gs|, InIDs(gids), c, ShadowsIn(opts, gids));
    ReachOfUnion(a.graph, Roots(gs, c), Roots(gs, ShadowsIn(opts, gids)));
  }

  lemma MismatchIffShadowing(a: Analysis, labels: map<u64, Labels>, opts: Options, want: Labels)
    ensures var i := InspectionOf(a, labels, opts, want);
      Covered(a, i) <= i.selected <==> forall k: nat :: !Shadowing(a, opts, i, k)
  {
    var i := InspectionOf(a, labels, opts, want);
    var gs, c := a.goroutines, ShadowsIn(opts, i.gids);
    CoveredSplits(a, labels, opts, want);
    ReachIsClosed(a.graph, Roots(gs, c));
    if Covered(a, i) <= i.selected {
      forall k: nat | k < |gs| && c(gs[k])
        ensures !Shadowing(a, opts, i, k)
      {
        forall r | r in RootSet(gs[k].roots) && a.graph.ValidID(r)
          ensures r in i.selected
        {
          RootsMember(gs, |gs|, c, r);
        }
      }
    } else {
      if forall r :: r in Roots(gs, c) && a.graph.ValidID(r) ==> r in i.selected {
        ReachAbsorbs(a.graph, Roots(gs, Selected(labels, opts, want)), Roots(gs, c));
      } else {
        var r :| r in Roots(gs, c) && a.graph.ValidID(r) && r !in i.selected;
        RootsMember(gs, |gs|, c, r);
        var k: nat :| k < |gs| && c(gs[k]) && r in RootSet(gs[k].roots);
        assert Shadowing(a, opts, i, k);
      }
    }
  }

  function EligibleWith(opts: Options, id: u64): Class { (g: Goroutine) => g.id == id && Eligible(g, opts) }

  // Whatever a goroutine that cannot be matched holds is held as well by the
  // goroutines with its ID that can, if there are any.
  ghost predicate ShadowsCovered(a: Analysis, opts: Options)
  {
    forall j: nat, k: nat :: Shadows(a, opts, j, k) ==> RootsHeld(a, opts, k)
  }

  // Goroutine k cannot be matched and carries the ID of j, which can.
  ghost predicate Shadows(a: Analysis, opts: Options, j: nat, k: nat)
  {
    && j < |a.goroutines| && k < |a.goroutines|
    && Eligible(a.goroutines[j], opts) && !Eligible(a.goroutines[k], opts) && a.goroutines[k].id == a.goroutines[j].id
  }

  ghost predicate RootsHeld(a: Analysis, opts: Options, k: nat)
    requires k < |a.goroutines|
  {
    var held := Reach(a.graph, Roots(a.goroutines, EligibleWith(opts, a.goroutines[k].id)));
    forall r :: r in RootSet(a.goroutines[k].roots) && a.graph.ValidID(r) ==> r in held
  }

  // Labels belong to IDs: who matches brings along all that can be matched with
  // the same ID.
  lemma SameIDSelected(a: Analysis, labels: map<u64, Labels>, opts: Options, want: Labels, j: nat)
    requires j < |a.goroutines| && Selected(labels, opts, want)(a.goroutines[j])
    ensures Reach(a.graph, Roots(a.goroutines, EligibleWith(opts, a.goroutines[j].id))) <= InspectionOf(a, labels, opts, want).selected
  {
    var gs, c, d := a.goroutines, EligibleWith(opts, a.goroutines[j].id), Selected(labels, opts, want);
    RootsSmaller(gs, |gs|, c, d);
    ReachMonotone(a.graph, Roots(gs, c), Roots(gs, d));
  }

  lemma CoveredNeverMismatches(a: Analysis, labels: map<u64, Labels>, opts: Options, want: Labels)
    requires ShadowsCovered(a, opts)
    ensures Covered(a, InspectionOf(a, labels, opts, want)) <= InspectionOf(a, labels, opts, want).selected
  {
    var i := InspectionOf(a, labels, opts, want);
    var gs, c := a.goroutines, Selected(labels, opts, want);
    MismatchIffShadowing(a, labels, opts, want);
    forall k: nat
      ensures !Shadowing(a, opts, i, k)
    {
      if k < |gs| && !Eligible(gs[k], opts) && gs[k].id in i.gids {
        IDsMember(gs, |gs|, c, gs[k].id);
        var j: nat :| j < |gs| && c(gs[j]) && gs[j].id == gs[k].id;
        assert Shadows(a, opts, j, k);
        SameIDSelected(a, labels, opts, want, j);
      }
    }
  }

  // With just one ID labelled, the selection is what its matchable goroutines hold.
  lemma OnlySelected(a: Analysis, opts: Options, labels: map<u64, Labels>, j: nat, i: Inspection)
    requires j < |a.goroutines| && Eligible(a.goroutines[j], opts)
    requires labels == map[a.goroutines[j].id := ONE_LABEL] && i == InspectionOf(a, labels, opts, ONE_LABEL)
    ensures i.selected == Reach(a.graph, Roots(a.goroutines, EligibleWith(opts, a.goroutines[j].id)))
    ensures a.goroutines[j].id in i.gids
  {
    var gs, id := a.goroutines, a.goroutines[j].id;
    var c, d := Selected(labels, opts, ONE_LABEL), EligibleWith(opts, id);
    forall m | 0 <= m < |gs|
      ensures c(gs[m]) <==> d(gs[m])
    {
      OnlyLabelled(labels, gs[m].id, id);
    }
    RootsSame(gs, |gs|, c, d);
    IDsMember(gs, |gs|, c, id);
    assert c(gs[j]);
  }

  // Conversely, labelling just the shadowed goroutine makes the export fail.
  lemma UncoveredMismatches(a: Analysis, opts: Options, j: nat, k: nat)
    requires Shadows(a, opts, j, k) && !RootsHeld(a, opts, k)
    ensures var i := InspectionOf(a, map[a.goroutines[j].id := ONE_LABEL], opts, ONE_LABEL); !(Covered(a, i) <= i.selected)
  {
    var labels: map<u64, Labels> := map[a.goroutines[j].id := ONE_LABEL];
    var i := InspectionOf(a, labels, opts, ONE_LABEL);
    OnlySelected(a, opts, labels, j, i);
    MismatchIffShadowing(a, labels, opts, ONE_LABEL);
    UncoveredShadows(a, opts, j, k, i);
  }

  lemma UncoveredShadows(a: Analysis, opts: Options, j: nat, k: nat, i: Inspection)
    requires Shadows(a, opts, j, k) && !RootsHeld(a, opts, k) && a.goroutines[j].id in i.gids
    requires i.selected == Reach(a.graph, Roots(a.goroutines, EligibleWith(opts, a.goroutines[j].id)))
    ensures Shadowing(a, opts, i, k)
  {}

  lemma OnlyLabelled(labels: map<u64, Labels>, other: u64, id: u64)
    requires labels == map[id := ONE_LABEL]
    ensures Matches(LabelsOf(labels, other), ONE_LABEL) <==> other == id
  {
    assert "k" in ONE_LABEL;
  }

  // For one request: the error fires just when the guards pass and some goroutine
  // that cannot be matched carries a selected ID and holds more than the selection.
  lemma MismatchFiresIff(a: Analysis, labels: map<u64, Labels>, opts: Options, want: Labels, maxDepth: int)
    ensures MismatchFires(a, labels, opts, want, maxDepth) <==>
      GuardError(a, labels, opts, want, maxDepth).None? && exists k: nat :: Shadowing(a, opts, InspectionOf(a, labels, opts, want), k)
  {
    MismatchIffShadowing(a, labels, opts, want);
  }

  // Goroutine k cannot be matched, carries the ID of j, which can, and holds
  // something that the matchable goroutines of that ID do not; what these hold
  // passes the byte guards.
  ghost predicate Exposed(a: Analysis, opts: Options, j: nat, k: nat)
  {
    && Shadows(a, opts, j, k) && !RootsHeld(a, opts, k)
    && Bytes(a.graph, Reach(a.graph, Roots(a.goroutines, EligibleWith(opts, a.goroutines[j].id)))) <= MAX_I64
  }

  lemma FiringIsExposed(a: Analysis, labels: map<u64, Labels>, opts: Options, want: Labels, maxDepth: int) returns (j: nat, k: nat)
    requires MismatchFires(a, labels, opts, want, maxDepth)
    ensures Exposed(a, opts, j, k)
  {
    var gs, c := a.goroutines, Selected(labels, opts, want);
    var i := InspectionOf(a, labels, opts, want);
    MismatchIffShadowing(a, labels, opts, want);
    k :| Shadowing(a, opts, i, k);
    IDsMember(gs, |gs|, c, gs[k].id);
    j :| j < |gs| && c(gs[j]) && gs[j].id == gs[k].id;
    SameIDSelected(a, labels, opts, want, j);
    BytesMonotone(a.graph, Reach(a.graph, Roots(gs, EligibleWith(opts, gs[j].id))), i.selected);
  }

  predicate ValidDepth(maxDepth: int) { maxDepth == 0 || maxDepth >= 2 }

  lemma GuardsPass(a: Analysis, labels: map<u64, Labels>, opts: Options, want: Labels, maxDepth: int, i: Inspection)
    requires i == InspectionOf(a, labels, opts, want) && ValidRequest(want, opts) && ValidDepth(maxDepth)
    requires Bytes(a.graph, i.selected) <= MAX_I64
    ensures GuardError(a, labels, opts, want, maxDepth).None?
  {}

  lemma ExposedPasses(a: Analysis, opts: Options, labels: map<u64, Labels>, j: nat, k: nat, maxDepth: int)
    requires Exposed(a, opts, j, k) && ValidDepth(maxDepth) && labels == map[a.goroutines[j].id := ONE_LABEL]
    ensures GuardError(a, labels, opts, ONE_LABEL, maxDepth).None?
  {
    var i := InspectionOf(a, labels, opts, ONE_LABEL);
    OneLabelIsValid(opts);
    OnlySelected(a, opts, labels, j, i);
    GuardsPass(a, labels, opts, ONE_LABEL, maxDepth, i);
  }

  lemma ExposedFires(a: Analysis, opts: Options, j: nat, k: nat, maxDepth: int)
    requires Exposed(a, opts, j, k) && ValidDepth(maxDepth)
    ensures MismatchFires(a, map[a.goroutines[j].id := ONE_LABEL], opts, ONE_LABEL, maxDepth)
  {
    ExposedPasses(a, opts, map[a.goroutines[j].id := ONE_LABEL], j, k, maxDepth);
    UncoveredMismatches(a, opts, j, k);
  }

  // The exact condition, which a caller can check before choosing a request: some
  // request meets the mismatch error just when some goroutine is exposed.
  lemma SomeMismatchIff(a: Analysis, opts: Options, maxDepth: int)
    ensures (exists labels: map<u64, Labels>, want: Labels :: MismatchFires(a, labels, opts, want, maxDepth)) <==>
      ValidDepth(maxDepth) && exists j: nat, k: nat :: Exposed(a, opts, j, k)
  {
    if labels: map<u64, Labels>, want: Labels :| MismatchFires(a, labels, opts, want, maxDepth) {
      var j, k := FiringIsExposed(a, labels, opts, want, maxDepth);
    }
    if j: nat, k: nat :| Exposed(a, opts, j, k) {
      if ValidDepth(maxDepth) {
        ExposedFires(a, opts, j, k, maxDepth);
      }
    }
  }

  // Unambiguous goroutine IDs are enough.
  lemma NoMismatch(a: Analysis, labels: map<u64, Labels>, opts: Options, want: Labels)
    requires Agreement.NoShadowedIDs(a.goroutines, opts)
    ensures Covered(a, InspectionOf(a, labels, opts, want)) <= InspectionOf(a, labels, opts, want).selected
    ensures forall maxDepth: int :: !MismatchFires(a, labels, opts, want, maxDepth)
  {
    CoveredNeverMismatches(a, labels, opts, want);
  }

  // An analysis that fails: two goroutines with one ID, the second of the runtime
  // and alone in holding object 1.
  function ShadowExample(): Analysis
  {
    Analysis(
      Graph([Object(8, 8, []), Object(16, 8, [])], map[8 := 0, 16 := 1], [], [ObjectRange(8, 16, 0), ObjectRange(16, 24, 1)]),
      [Goroutine(1, false, false, [RootRef(0, 8, 0, "sched.ctxt", [])]), Goroutine(1, true, false, [RootRef(1, 16, 0, "sched.ctxt", [])])],
      [])
  }

  lemma MismatchExample(opts: Options, maxDepth: int)
    requires !opts.includeSystemGoroutines && ValidDepth(maxDepth)
    ensures MismatchFires(ShadowExample(), map[1 := ONE_LABEL], opts, ONE_LABEL, maxDepth)
  {
    var a := ShadowExample();
    var gs, c := a.goroutines, EligibleWith(opts, 1);
    forall r | r in Roots(gs, c)
      ensures r == 0
    {
      RootsMember(gs, 2, c, r);
    }
    ReachIsLeast(a.graph, Roots(gs, c), {0});
    BytesMonotone(a.graph, Reach(a.graph, Roots(gs, c)), {0});
    BytesOne(a.graph.objects, 0, 2);
    assert gs[1].roots[0] in gs[1].roots && 1 in RootSet(gs[1].roots);
    assert Exposed(a, opts, 0, 1);
    ExposedFires(a, opts, 0, 1, maxDepth);
  }
}
