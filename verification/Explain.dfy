// Why an object is reachable: explainObject and path (internal/memusage/explain.go),
// groupSources (objects.go).
module Explain {
  import opened Words
  import opened Wrappers
  import opened Graphs
  import opened Reachability
  import Search
  import opened FindPath
  import opened Analyses
  import opened Bubbles
  import ObjectIndex
  import Resolution
  import Top
  import RowOrder

  // gids is parallel to roots for goroutine sources and empty for globals.
  datatype Source = Source(category: string, labels: Labels, value: string, roots: seq<RootRef>, gids: seq<u64>)

  // What a source is called, without what it holds.
  function NameOf(s: Source): Source { s.(roots := [], gids := []) }

  datatype Status = Found | SearchLimit | NotReachable

  datatype PathStep = PathStep(id: ObjectID, incomingOffset: Option<u64>, incomingPointer: Option<u64>)

  datatype PathReport = PathReport(
    category: string,
    labels: Labels,
    status: Status,
    root: Option<RootRef>,
    gid: Option<u64>,
    steps: seq<PathStep>,
    totalSteps: nat,
    truncated: bool)

  // Limits after normalisation: all positive except maxVisited.
  datatype Limits = Limits(maxGroups: nat, maxPaths: nat, maxSteps: nat, maxVisited: int)

  // Zero selects a default; negative limits are refused.
  function Normalized(maxGroups: int, maxPaths: int, maxSteps: int, maxVisited: int): Option<Limits>
  {
    if maxGroups < 0 || maxPaths < 0 || maxSteps < 0 || maxVisited < 0 then None
    else Some(Limits(
      if maxGroups == 0 then 20 else maxGroups,
      if maxPaths == 0 then 6 else maxPaths,
      if maxSteps == 0 then 64 else maxSteps,
      maxVisited))
  }

  function IncomingOffset(r: Reference): Option<u64> { if r.offsetKnown then Some(r.offset) else None }
  function IncomingPointer(r: Reference): Option<u64> { if r.pointer != 0 then Some(r.pointer) else None }

  // Step k of a witness: the object, and the slot it was reached through.
  ghost function StepOf(w: Witness, k: nat): PathStep
    requires k < |w.objects| && |w.references| == |w.objects| - 1
  {
    if k == 0 then PathStep(w.objects[0], None, None)
    else PathStep(w.objects[k], IncomingOffset(w.references[k - 1]), IncomingPointer(w.references[k - 1]))
  }

  // The first maxSteps steps of a shortest path, with its true length.
  ghost predicate ReportsWitness(g: Graph, source: Source, target: ObjectID, limits: Limits, w: Witness, r: PathReport)
  {
    && IsWitness(g, source.roots, target, w)
    && r.root == Some(source.roots[w.rootIndex])
    && r.gid == (if w.rootIndex < |source.gids| then Some(source.gids[w.rootIndex]) else None)
    && r.totalSteps == |w.objects|
    && (r.truncated <==> r.totalSteps > limits.maxSteps)
    && |r.steps| == (if r.truncated then limits.maxSteps else r.totalSteps)
    && (forall k :: 0 <= k < |r.steps| ==> r.steps[k] == StepOf(w, k))
  }

  method StepsOf(w: Witness, n: nat) returns (steps: seq<PathStep>)
    requires n <= |w.objects| && |w.references| == |w.objects| - 1
    ensures |steps| == n && forall k :: 0 <= k < n ==> steps[k] == StepOf(w, k)
  {
    steps := [];
    for i := 0 to n
      invariant |steps| == i && forall k :: 0 <= k < i ==> steps[k] == StepOf(w, k)
    {
      var step := PathStep(w.objects[i], None, None);
      if i > 0 {
        var r := w.references[i - 1];
        if r.offsetKnown {
          step := step.(incomingOffset := Some(r.offset));
        }
        if r.pointer != 0 {
          step := step.(incomingPointer := Some(r.pointer));
        }
      }
      steps := steps + [step];
    }
  }

  // The unlimited search meets target before it has visited maxVisited objects.
  ghost predicate InBudget(g: Graph, source: Source, target: ObjectID, limits: Limits)
  {
    WithinBudget(Search.Bfs(g, RootIDs(source.roots)), target, limits.maxVisited)
  }

  method Path(g: Graph, source: Source, target: ObjectID, limits: Limits) returns (r: PathReport, ghost w: Witness)
    ensures r.category == source.category && r.labels == source.labels
    ensures r.status == Found <==> InBudget(g, source, target, limits)
    ensures r.status == Found ==> ReportsWitness(g, source, target, limits, w, r)
    ensures r.status == NotReachable ==> target !in Reach(g, RootSet(source.roots))
    ensures r.status == SearchLimit ==> 0 < limits.maxVisited < |Reach(g, RootSet(source.roots))|
    ensures r.status != Found ==> r.steps == [] && r.totalSteps == 0 && r.root == None
  {
    r := PathReport(source.category, source.labels, NotReachable, None, None, [], 0, false);
    var f := Find(g, source.roots, target, limits.maxVisited);
    w := f;
    if f.searchLimited {
      r := r.(status := SearchLimit);
      return;
    }
    if !f.found {
      NotLimitedMeansAbsent(g, source.roots, target, limits.maxVisited);
      return;
    }
    r := r.(status := Found, root := Some(source.roots[f.rootIndex]));
    if f.rootIndex < |source.gids| {
      r := r.(gid := Some(source.gids[f.rootIndex]));
    }
    r := r.(totalSteps := |f.objects|);
    var n := |f.objects|;
    if n > limits.maxSteps {
      n := limits.maxSteps;
      r := r.(truncated := true);
    }
    var steps := StepsOf(f, n);
    r := r.(steps := steps);
  }

  // ---- Sources ----

  // Root k of the source belongs to a goroutine with ID gids[k].
  ghost predicate OwnedBy(gs: seq<Goroutine>, s: Source)
  {
    && |s.gids| == |s.roots|
    && (forall k :: 0 <= k < |s.roots| ==> Owns(gs, s.gids[k], s.roots[k]))
  }

  method AppendOwned(gs: seq<Goroutine>, s0: Source, i: nat) returns (s: Source)
    requires i < |gs| && OwnedBy(gs, s0)
    ensures OwnedBy(gs, s) && NameOf(s) == NameOf(s0)
    ensures RootSet(s.roots) == RootSet(s0.roots) + RootSet(gs[i].roots)
  {
    s := s0;
    ghost var added: seq<RootRef> := [];
    for j := 0 to |gs[i].roots|
      invariant OwnedBy(gs, s) && NameOf(s) == NameOf(s0)
      invariant added == gs[i].roots[..j] && s.roots == s0.roots + added
    {
      var r := gs[i].roots[j];
      assert Owns(gs, gs[i].id, r);
      added := added + [r];
      s := s.(roots := s.roots + [r], gids := s.gids + [gs[i].id]);
    }
    RootSetConcat(s0.roots, gs[i].roots);
  }

  // The roots of the goroutines of one class, with their owners.
  method CollectClass(gs: seq<Goroutine>, name: Source, c: Class) returns (s: Source)
    requires name == NameOf(name)
    ensures OwnedBy(gs, s) && NameOf(s) == name
    ensures RootSet(s.roots) == Roots(gs, c)
  {
    s := name;
    for i := 0 to |gs|
      invariant OwnedBy(gs, s) && NameOf(s) == name
      invariant RootSet(s.roots) == RootsUpTo(gs, i, c)
    {
      if c(gs[i]) {
        s := AppendOwned(gs, s, i);
      }
    }
  }

  // ---- Explaining one object ----

  datatype Classification = NotSelected | SharedWith | ExclusiveTo

  datatype ObjectInfo = ObjectInfo(id: ObjectID, class_: Classification, global: bool, otherSystem: bool, otherGoroutines: bool)

  // The object relative to an inspected selection.
  function InfoOf(i: Inspection, id: ObjectID): ObjectInfo
  {
    ObjectInfo(id, if id !in i.selected then NotSelected else if id in i.outside then SharedWith else ExclusiveTo,
               id in i.global, id in i.system, id in i.other)
  }

  // Not selected, or selected and also reached from outside, or selected alone; and
  // what reaches it from outside.
  ghost predicate IsInfo(i: Inspection, id: ObjectID, info: ObjectInfo)
  {
    && info.id == id
    && (info.class_ == NotSelected <==> id !in i.selected)
    && (info.class_ == SharedWith <==> id in i.selected && id in i.outside)
    && (info.class_ == ExclusiveTo <==> id in i.selected && id !in i.outside)
    && (info.global <==> id in i.global) && (info.otherSystem <==> id in i.system) && (info.otherGoroutines <==> id in i.other)
  }

  ghost predicate IsInfoFor(a: Analysis, labels: map<u64, Labels>, opts: Options, want: Labels, id: ObjectID, info: ObjectInfo)
  {
    exists i: Inspection :: IsInspection(a, labels, opts, want, i) && IsInfo(i, id, info)
  }

  datatype SelectionReach = SelectionReach(labels: Labels, goroutines: nat, reachable: bool)

  datatype Explanation = Explanation(
    info: ObjectInfo,
    selections: seq<SelectionReach>,
    reachableSources: nat,
    paths: seq<PathReport>,
    pathsTruncated: bool,
    groups: seq<string>,
    groupCount: nat,
    groupsTruncated: bool)

  ghost predicate Reaches(g: Graph, s: Source, id: ObjectID)
  {
    id in Reach(g, RootSet(s.roots))
  }

  // The sources that reach id, in order.
  ghost function Reaching(g: Graph, sources: seq<Source>, id: ObjectID): seq<Source>
  {
    if |sources| == 0 then []
    else if Reaches(g, sources[|sources| - 1], id) then Reaching(g, sources[..|sources| - 1], id) + [sources[|sources| - 1]]
    else Reaching(g, sources[..|sources| - 1], id)
  }

  lemma {:induction false} ReachingConcat(g: Graph, a: seq<Source>, b: seq<Source>, id: ObjectID)
    ensures Reaching(g, a + b, id) == Reaching(g, a, id) + Reaching(g, b, id)
  {
    if |b| == 0 {
      assert a + b == a;
    } else {
      ReachingConcat(g, a, b[..|b| - 1], id);
      assert (a + b)[..|a + b| - 1] == a + b[..|b| - 1];
    }
  }

  lemma {:induction false} ReachingAll(g: Graph, sources: seq<Source>, id: ObjectID)
    ensures forall k :: 0 <= k < |Reaching(g, sources, id)| ==> Reaches(g, Reaching(g, sources, id)[k], id)
  {
    if |sources| > 0 {
      ReachingAll(g, sources[..|sources| - 1], id);
    }
  }

  function Take<T>(s: seq<T>, n: nat): seq<T>
  {
    if n < |s| then s[..n] else s
  }

  ghost function Values(sources: seq<Source>): (vs: seq<string>)
    ensures |vs| == |sources| && forall k :: 0 <= k < |vs| ==> vs[k] == sources[k].value
  {
    if |sources| == 0 then [] else Values(sources[..|sources| - 1]) + [sources[|sources| - 1].value]
  }

  // Every selection is listed, reached or not.
  ghost predicate ListsSelections(g: Graph, sources: seq<Source>, counts: seq<nat>, id: ObjectID, list: seq<SelectionReach>)
    requires |counts| == |sources|
  {
    && |list| == |sources|
    && (forall k :: 0 <= k < |list| ==> list[k] == SelectionReach(sources[k].labels, counts[k], Reaches(g, sources[k], id)))
  }

  // Lists the selections and keeps those whose walk reaches id.
  method KeepReaching(g: Graph, sources: seq<Source>, counts: seq<nat>, id: ObjectID) returns (kept: seq<Source>, list: seq<SelectionReach>)
    requires |counts| == |sources|
    ensures kept == Reaching(g, sources, id) && ListsSelections(g, sources, counts, id, list)
  {
    kept, list := [], [];
    for i := 0 to |sources|
      invariant kept == Reaching(g, sources[..i], id) && ListsSelections(g, sources[..i], counts[..i], id, list)
    {
      var reach := Walk(g, sources[i].roots);
      assert sources[..i + 1][..i] == sources[..i];
      list := list + [SelectionReach(sources[i].labels, counts[i], id in reach)];
      if id in reach {
        kept := kept + [sources[i]];
      }
    }
    assert sources[..|sources|] == sources && counts[..|counts|] == counts;
  }

  // Group sources are counted in full but retained only while a path of theirs
  // could still be printed.
  method KeepGroups(g: Graph, base: seq<Source>, groups: seq<Source>, id: ObjectID, limits: Limits)
    returns (kept: seq<Source>, skipped: nat, names: seq<string>, count: nat, truncated: bool)
    ensures var hit := Reaching(g, groups, id);
      && Take(kept, limits.maxPaths) == Take(base + hit, limits.maxPaths)
      && |kept| + skipped == |base| + |hit|
      && count == |hit| && names == Take(Values(hit), limits.maxGroups)
      && (truncated <==> count > limits.maxGroups)
  {
    kept, skipped, names, count, truncated := base, 0, [], 0, false;
    for i := 0 to |groups|
      invariant Kept(base, Reaching(g, groups[..i], id), limits.maxPaths, kept, skipped)
      invariant Named(Reaching(g, groups[..i], id), limits.maxGroups, names, count, truncated)
    {
      var reach := Walk(g, groups[i].roots);
      ghost var hit := Reaching(g, groups[..i], id);
      assert groups[..i + 1][..i] == groups[..i];
      if id !in reach {
        continue;
      }
      KeptStep(base, hit, limits.maxPaths, kept, skipped, groups[i]);
      NamedStep(hit, limits.maxGroups, names, count, truncated, groups[i]);
      count := count + 1;
      if |names| < limits.maxGroups {
        names := names + [groups[i].value];
      } else {
        truncated := true;
      }
      if |kept| < limits.maxPaths {
        kept := kept + [groups[i]];
      } else {
        skipped := skipped + 1;
      }
    }
    assert groups[..|groups|] == groups;
  }

  // kept is base and as many of hit as fit below maxPaths.
  ghost predicate Kept(base: seq<Source>, hit: seq<Source>, maxPaths: nat, kept: seq<Source>, skipped: nat)
  {
    && |kept| + skipped == |base| + |hit|
    && kept == (base + hit)[..|kept|] && |base| <= |kept|
    && (skipped > 0 ==> |kept| >= maxPaths)
  }

  lemma KeptStep(base: seq<Source>, hit: seq<Source>, maxPaths: nat, kept: seq<Source>, skipped: nat, s: Source)
    requires Kept(base, hit, maxPaths, kept, skipped)
    ensures |kept| < maxPaths ==> Kept(base, hit + [s], maxPaths, kept + [s], skipped)
    ensures |kept| >= maxPaths ==> Kept(base, hit + [s], maxPaths, kept, skipped + 1)
  {
    assert base + (hit + [s]) == (base + hit) + [s];
  }

  ghost predicate Named(hit: seq<Source>, maxGroups: nat, names: seq<string>, count: nat, truncated: bool)
  {
    count == |hit| && names == Take(Values(hit), maxGroups) && (truncated <==> count > maxGroups)
  }

  lemma NamedStep(hit: seq<Source>, maxGroups: nat, names: seq<string>, count: nat, truncated: bool, s: Source)
    requires Named(hit, maxGroups, names, count, truncated)
    ensures |names| < maxGroups ==> Named(hit + [s], maxGroups, names + [s.value], count + 1, truncated)
    ensures |names| >= maxGroups ==> Named(hit + [s], maxGroups, names, count + 1, true)
  {
    assert (hit + [s])[..|hit|] == hit;
  }

  // One report per printed source, in order.
  method Reports(g: Graph, sources: seq<Source>, id: ObjectID, limits: Limits) returns (paths: seq<PathReport>)
    requires forall k :: 0 <= k < |sources| ==> Reaches(g, sources[k], id)
    ensures |paths| == |sources|
    ensures forall k :: 0 <= k < |paths| ==> Explains(g, sources[k], id, limits, paths[k])
  {
    paths := [];
    for i := 0 to |sources|
      invariant |paths| == i && forall k :: 0 <= k < i ==> Explains(g, sources[k], id, limits, paths[k])
    {
      var r, w := Path(g, sources[i], id, limits);
      assert Explains(g, sources[i], id, limits, r);
      paths := paths + [r];
    }
  }

  // A report about a source that does reach the object: found with a shortest
  // path, or given up for a budget smaller than what the source reaches. It is
  // never "not reachable".
  ghost predicate Explains(g: Graph, s: Source, id: ObjectID, limits: Limits, r: PathReport)
  {
    && r.category == s.category && r.labels == s.labels
    && r.status == (if InBudget(g, s, id, limits) then Found else SearchLimit)
    && (r.status == Found ==> exists w :: ReportsWitness(g, s, id, limits, w, r))
    && (r.status == SearchLimit ==> 0 < limits.maxVisited < |Reach(g, RootSet(s.roots))|)
  }

  // The three fixed sources are kept by the inspection's flags instead of a walk.
  method KeepFixed(g: Graph, i: Inspection, fixed: seq<Source>, id: ObjectID) returns (kept: seq<Source>)
    requires |fixed| == 3
    requires id in i.global <==> Reaches(g, fixed[0], id)
    requires id in i.system <==> Reaches(g, fixed[1], id)
    requires id in i.other <==> Reaches(g, fixed[2], id)
    ensures kept == Reaching(g, fixed, id)
  {
    kept := [];
    assert fixed[..1][..0] == [] && fixed[..2][..1] == fixed[..1] && fixed[..3][..2] == fixed[..2] && fixed[..3] == fixed;
    if id in i.global {
      kept := kept + [fixed[0]];
    }
    assert kept == Reaching(g, fixed[..1], id);
    if id in i.system {
      kept := kept + [fixed[1]];
    }
    assert kept == Reaching(g, fixed[..2], id);
    if id in i.other {
      kept := kept + [fixed[2]];
    }
  }

  // Every source that reaches the object is counted; the first maxPaths of them,
  // in order, are explained; with an unlimited visit budget every explanation is
  // a found path; and the groups among them are listed up to maxGroups.
  ghost predicate IsExplanation(g: Graph, id: ObjectID, sources: seq<Source>, groups: seq<Source>, limits: Limits, e: Explanation)
  {
    var all, hit := Reaching(g, sources + groups, id), Reaching(g, groups, id);
    && e.reachableSources == |all|
    && (e.pathsTruncated <==> |all| > limits.maxPaths)
    && |e.paths| == |Take(all, limits.maxPaths)|
    && (forall k :: 0 <= k < |e.paths| ==> Explains(g, all[k], id, limits, e.paths[k]))
    && (limits.maxVisited <= 0 ==> forall k :: 0 <= k < |e.paths| ==> e.paths[k].status == Found)
    && e.groupCount == |hit| && e.groups == Take(Values(hit), limits.maxGroups)
    && (e.groupsTruncated <==> |hit| > limits.maxGroups)
  }

  method ExplainObject(g: Graph, id: ObjectID, i: Inspection, selections: seq<Source>, counts: seq<nat>, fixed: seq<Source>, groups: seq<Source>, limits: Limits)
    returns (e: Explanation)
    requires |counts| == |selections| && |fixed| == 3
    requires id in i.global <==> Reaches(g, fixed[0], id)
    requires id in i.system <==> Reaches(g, fixed[1], id)
    requires id in i.other <==> Reaches(g, fixed[2], id)
    ensures IsExplanation(g, id, selections + fixed, groups, limits, e)
    ensures e.info == InfoOf(i, id) && ListsSelections(g, selections, counts, id, e.selections)
  {
    var first, list := KeepReaching(g, selections, counts, id);
    var second := KeepFixed(g, i, fixed, id);
    var kept, skipped, names, count, namesCut := KeepGroups(g, first + second, groups, id, limits);
    ReachingConcat(g, selections, fixed, id);
    ReachingConcat(g, selections + fixed, groups, id);
    ghost var all := Reaching(g, selections + fixed + groups, id);
    ReachingAll(g, selections + fixed + groups, id);
    var reachable := skipped + |kept|;
    if |kept| > limits.maxPaths {
      kept := kept[..limits.maxPaths];
    }
    assert kept == Take(all, limits.maxPaths);
    var paths := Reports(g, kept, id, limits);
    e := Explanation(InfoOf(i, id), list, reachable, paths, reachable > |kept|, names, count, namesCut);
  }

  // ---- Where the sources come from ----

  ghost predicate Ascending(vs: seq<string>)
  {
    forall i :: 0 < i < |vs| ==> RowOrder.Less(vs[i - 1], vs[i])
  }

  function InsertValue(v: string, vs: seq<string>): (r: seq<string>)
    ensures |r| == |vs| + 1 && (r[0] == v || (|vs| > 0 && r[0] == vs[0]))
    ensures forall x :: x in r <==> x == v || x in vs
  {
    if |vs| == 0 || RowOrder.Less(v, vs[0]) then [v] + vs
    else
      assert vs == [vs[0]] + vs[1..];
      [vs[0]] + InsertValue(v, vs[1..])
  }

  lemma {:induction false} InsertAscending(v: string, vs: seq<string>)
    requires Ascending(vs) && v !in vs
    ensures Ascending(InsertValue(v, vs))
  {
    if |vs| > 0 && !RowOrder.Less(v, vs[0]) {
      RowOrder.LessTotal(v, vs[0]);
      InsertAscending(v, vs[1..]);
      ConsAscending(vs[0], InsertValue(v, vs[1..]));
    } else {
      ConsAscending(v, vs);
    }
  }

  lemma ConsAscending(v: string, vs: seq<string>)
    requires Ascending(vs) && (|vs| > 0 ==> RowOrder.Less(v, vs[0]))
    ensures Ascending([v] + vs)
  {
    var r := [v] + vs;
    forall i | 0 < i < |r|
      ensures RowOrder.Less(r[i - 1], r[i])
    {
      if i > 1 {
        assert r[i - 1] == vs[i - 2] && r[i] == vs[i - 1];
      }
    }
  }

  // The label values of eligible goroutines, ascending.
  method GroupValues(a: Analysis, labels: map<u64, Labels>, opts: Options, key: string) returns (vs: seq<string>)
    ensures Ascending(vs) && forall v :: v in vs <==> Top.HasGroup(a, labels, opts, key, v)
  {
    var t := Top.GroupGoroutines(a, labels, opts, key);
    forall v
      ensures v in t.groups <==> Top.HasGroup(a, labels, opts, key, v)
    {
      assert Top.CountIn(t.counts, v) == CountUpTo(a.goroutines, |a.goroutines|, Top.InGroup(labels, opts, key, v));
    }
    vs := [];
    var todo := t.groups.Keys;
    while todo != {}
      invariant todo <= t.groups.Keys && Ascending(vs)
      invariant forall v :: v in vs <==> v in t.groups && v !in todo
      decreases todo
    {
      var v :| v in todo;
      InsertAscending(v, vs);
      vs := InsertValue(v, vs);
      todo := todo - {v};
    }
  }

  // One source per group, in ascending value order.
  // Each source holds what the goroutines of its value's group hold.
  ghost predicate AreGroupsOf(a: Analysis, labels: map<u64, Labels>, opts: Options, key: string, vs: seq<string>, groups: seq<Source>)
  {
    && |groups| == |vs|
    && (forall k :: 0 <= k < |vs| ==>
          && NameOf(groups[k]) == Source("group", map[key := vs[k]], vs[k], [], []) && OwnedBy(a.goroutines, groups[k])
          && RootSet(groups[k].roots) == Roots(a.goroutines, Top.InGroup(labels, opts, key, vs[k])))
  }

  // ... and every group has one, in ascending order of value.
  ghost predicate IsGroupSources(a: Analysis, labels: map<u64, Labels>, opts: Options, key: string, groups: seq<Source>)
  {
    var vs := Values(groups);
    && Ascending(vs) && (forall v :: v in vs <==> Top.HasGroup(a, labels, opts, key, v))
    && AreGroupsOf(a, labels, opts, key, vs, groups)
  }

  method GroupSources(a: Analysis, labels: map<u64, Labels>, opts: Options, key: string) returns (groups: seq<Source>)
    ensures IsGroupSources(a, labels, opts, key, groups)
  {
    var values := GroupValues(a, labels, opts, key);
    groups := [];
    for i := 0 to |values|
      invariant AreGroupsOf(a, labels, opts, key, values[..i], groups)
    {
      var s := CollectClass(a.goroutines, Source("group", map[key := values[i]], values[i], [], []), Top.InGroup(labels, opts, key, values[i]));
      groups := groups + [s];
    }
    assert values[..|values|] == values == Values(groups);
  }

  // selectionSource: by goroutine ID, like every consumer of a selection.
  ghost predicate IsSelectionSource(a: Analysis, labels: map<u64, Labels>, opts: Options, want: Labels, s: Source)
  {
    && NameOf(s) == Source("selection", want, "", [], []) && OwnedBy(a.goroutines, s)
    && RootSet(s.roots) == Roots(a.goroutines, InIDs(IDs(a.goroutines, Selected(labels, opts, want))))
  }

  method SelectionSource(a: Analysis, labels: map<u64, Labels>, opts: Options, want: Labels) returns (s: Source, count: nat)
    ensures IsSelectionSource(a, labels, opts, want, s)
    ensures count == |IDs(a.goroutines, Selected(labels, opts, want))|
  {
    var roots, gids := SelectGoroutines(a, labels, opts, want);
    s := CollectClass(a.goroutines, Source("selection", want, "", [], []), InIDs(gids));
    count := |gids|;
  }

  ghost predicate IsSelectionSources(a: Analysis, labels: map<u64, Labels>, opts: Options, selectors: seq<Labels>, sources: seq<Source>)
  {
    |sources| == |selectors| && forall k :: 0 <= k < |selectors| ==> IsSelectionSource(a, labels, opts, selectors[k], sources[k])
  }

  // counts[k] goroutine IDs are selected by selector k.
  ghost predicate CountsSelected(a: Analysis, labels: map<u64, Labels>, opts: Options, selectors: seq<Labels>, counts: seq<nat>)
  {
    |counts| == |selectors| && forall k :: 0 <= k < |selectors| ==> counts[k] == |IDs(a.goroutines, Selected(labels, opts, selectors[k]))|
  }

  method SelectionSources(a: Analysis, labels: map<u64, Labels>, opts: Options, selectors: seq<Labels>) returns (sources: seq<Source>, counts: seq<nat>)
    ensures IsSelectionSources(a, labels, opts, selectors, sources) && CountsSelected(a, labels, opts, selectors, counts)
  {
    sources, counts := [], [];
    for i := 0 to |selectors|
      invariant |sources| == i && forall k :: 0 <= k < i ==> IsSelectionSource(a, labels, opts, selectors[k], sources[k])
      invariant |counts| == i && forall k :: 0 <= k < i ==> counts[k] == |IDs(a.goroutines, Selected(labels, opts, selectors[k]))|
    {
      var s, count := SelectionSource(a, labels, opts, selectors[i]);
      sources, counts := sources + [s], counts + [count];
    }
  }

  // ---- Explain ----

  datatype ExplainError = NegativeLimit | NoSelector | InvalidSelector | NoObject

  // Why an explanation is refused; checked in this order.
  ghost function Refusal(a: Analysis, opts: Options, address: u64, selectors: seq<Labels>, limits: Option<Limits>): Option<ExplainError>
  {
    if limits.None? then Some(NegativeLimit)
    else if |selectors| == 0 then Some(NoSelector)
    else if exists k :: 0 <= k < |selectors| && !ValidRequest(selectors[k], opts) then Some(InvalidSelector)
    else if Resolution.Resolve(Resolution.LookupOf(a.graph), address).None? then Some(NoObject)
    else None
  }

  method AllValid(selectors: seq<Labels>, opts: Options) returns (valid: bool)
    ensures valid <==> forall k :: 0 <= k < |selectors| ==> ValidRequest(selectors[k], opts)
  {
    for i := 0 to |selectors|
      invariant forall k :: 0 <= k < i ==> ValidRequest(selectors[k], opts)
    {
      if !ValidRequest(selectors[i], opts) {
        return false;
      }
    }
    return true;
  }

  // The sources of an explanation: the selections, the three fixed ones, and with a
  // key the groups.
  ghost predicate AreSources(a: Analysis, labels: map<u64, Labels>, opts: Options, selectors: seq<Labels>, key: string,
                             selections: seq<Source>, fixed: seq<Source>, groups: seq<Source>)
  {
    && |selectors| > 0 && IsSelectionSources(a, labels, opts, selectors, selections)
    && IsFixedSources(a, IDs(a.goroutines, Selected(labels, opts, selectors[0])), fixed)
    && (if |key| == 0 then groups == [] else IsGroupSources(a, labels, opts, key, groups))
  }

  method Sources(a: Analysis, labels: map<u64, Labels>, opts: Options, selectors: seq<Labels>, key: string, gids: set<u64>)
    returns (selections: seq<Source>, counts: seq<nat>, fixed: seq<Source>, groups: seq<Source>)
    requires |selectors| > 0 && gids == IDs(a.goroutines, Selected(labels, opts, selectors[0]))
    ensures AreSources(a, labels, opts, selectors, key, selections, fixed, groups) && CountsSelected(a, labels, opts, selectors, counts)
  {
    selections, counts := SelectionSources(a, labels, opts, selectors);
    fixed := FixedSources(a, gids);
    groups := [];
    if |key| > 0 {
      groups := GroupSources(a, labels, opts, key);
    }
  }

  // Explains the object an address points to, at its start or inside it. The first
  // selector decides what counts as outside; every selection is listed.
  method Explain(a: Analysis, labels: map<u64, Labels>, opts: Options, address: u64, selectors: seq<Labels>, key: string,
                 maxGroups: int, maxPaths: int, maxSteps: int, maxVisited: int)
    returns (r: Result<Explanation, ExplainError>, ghost selections: seq<Source>, ghost fixed: seq<Source>, ghost groups: seq<Source>)
    requires ObjectIndex.IsSorted(a.graph.ranges)
    ensures var refusal := Refusal(a, opts, address, selectors, Normalized(maxGroups, maxPaths, maxSteps, maxVisited));
      (r.Err? <==> refusal.Some?) && (r.Err? ==> r.error == refusal.value)
    ensures r.Ok? ==>
      && IsInfoFor(a, labels, opts, selectors[0], Resolution.Resolve(Resolution.LookupOf(a.graph), address).value, r.value.info)
      && |r.value.selections| == |selectors|
    ensures r.Ok? ==>
      var id, limits := Resolution.Resolve(Resolution.LookupOf(a.graph), address).value, Normalized(maxGroups, maxPaths, maxSteps, maxVisited).value;
      && AreSources(a, labels, opts, selectors, key, selections, fixed, groups)
      && IsExplanation(a.graph, id, selections + fixed, groups, limits, r.value)
      && (exists counts :: CountsSelected(a, labels, opts, selectors, counts) && ListsSelections(a.graph, selections, counts, id, r.value.selections))
  {
    selections, fixed, groups := [], [], [];
    var limits := Normalized(maxGroups, maxPaths, maxSteps, maxVisited);
    if limits.None? {
      return Err(NegativeLimit), selections, fixed, groups;
    }
    if |selectors| == 0 {
      return Err(NoSelector), selections, fixed, groups;
    }
    var valid := AllValid(selectors, opts);
    if !valid {
      return Err(InvalidSelector), selections, fixed, groups;
    }
    var id := Resolution.FindObjectContaining(Resolution.LookupOf(a.graph), address);
    if id.None? {
      return Err(NoObject), selections, fixed, groups;
    }
    var i := Inspect(a, labels, opts, selectors[0]);
    var ss, counts, fs, gs := Sources(a, labels, opts, selectors, key, i.value.gids);
    selections, fixed, groups := ss, fs, gs;
    var e := ExplainObject(a.graph, id.value, i.value, ss, counts, fs, gs, limits.value);
    assert IsInfo(i.value, id.value, e.info);
    r := Ok(e);
  }

  ghost predicate IsFixedSources(a: Analysis, gids: set<u64>, fixed: seq<Source>)
  {
    && |fixed| == 3
    && fixed[0] == Source("global", map[], "", a.globals, [])
    && NameOf(fixed[1]) == Source("other_system", map[], "", [], []) && NameOf(fixed[2]) == Source("other_goroutines", map[], "", [], [])
    && OwnedBy(a.goroutines, fixed[1]) && RootSet(fixed[1].roots) == Roots(a.goroutines, OtherRuntime(gids))
    && OwnedBy(a.goroutines, fixed[2]) && RootSet(fixed[2].roots) == Roots(a.goroutines, OtherUser(gids))
  }

  method FixedSources(a: Analysis, gids: set<u64>) returns (fixed: seq<Source>)
    ensures IsFixedSources(a, gids, fixed)
  {
    var system := CollectClass(a.goroutines, Source("other_system", map[], "", [], []), OtherRuntime(gids));
    var other := CollectClass(a.goroutines, Source("other_goroutines", map[], "", [], []), OtherUser(gids));
    fixed := [Source("global", map[], "", a.globals, []), system, other];
  }
}
