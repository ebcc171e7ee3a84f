// What a row of the per-group table reports, goroutine by goroutine
// (internal/memusage/multibubble.go).
module TopRows {
  import opened Words
  import opened Graphs
  import opened Analyses
  import opened Holdings
  import opened Top

  predicate OfRuntimeAt(a: Analysis, i: nat)
    requires i < |a.goroutines|
  {
    a.goroutines[i].isSystem || a.goroutines[i].isBackground
  }

  // Goroutine i takes part in grouping and has the label.
  predicate HasKey(a: Analysis, labels: map<u64, Labels>, opts: Options, key: string, i: nat)
    requires i < |a.goroutines|
  {
    (opts.includeSystemGoroutines || !OfRuntimeAt(a, i)) && a.goroutines[i].id in labels && key in labels[a.goroutines[i].id]
  }

  ghost function WithValue(a: Analysis, labels: map<u64, Labels>, opts: Options, key: string, v: string): set<nat>
  {
    set i: nat | i < |a.goroutines| && HasKey(a, labels, opts, key, i) && labels[a.goroutines[i].id][key] == v
  }

  ghost function WithOtherValue(a: Analysis, labels: map<u64, Labels>, opts: Options, key: string, v: string): set<nat>
  {
    set i: nat | i < |a.goroutines| && HasKey(a, labels, opts, key, i) && labels[a.goroutines[i].id][key] != v
  }

  // Goroutines that take part but lack the label.
  ghost function WithoutKey(a: Analysis, labels: map<u64, Labels>, opts: Options, key: string): set<nat>
  {
    set i: nat | i < |a.goroutines| && (opts.includeSystemGoroutines || !OfRuntimeAt(a, i)) && !HasKey(a, labels, opts, key, i)
  }

  // The runtime's goroutines in no group, and those that take no part at all.
  ghost function RuntimeWithoutKey(a: Analysis, labels: map<u64, Labels>, opts: Options, key: string): set<nat>
  {
    set i: nat | i < |a.goroutines| && OfRuntimeAt(a, i) && !HasKey(a, labels, opts, key, i)
  }

  ghost function LeftOut(a: Analysis, opts: Options): set<nat>
  {
    set i: nat | i < |a.goroutines| && OfRuntimeAt(a, i) && !opts.includeSystemGoroutines
  }

  // G is what the group holds, B what other groups hold, O what all other roots reach.
  ghost predicate ReportsSizes(g: Graph, G: set<ObjectID>, B: set<ObjectID>, O: set<ObjectID>,
                               global: set<ObjectID>, system: set<ObjectID>, rest: set<ObjectID>, s: Breakdown)
  {
    && IsMeasure(g, s.reachable, G) && IsMeasure(g, s.exclusive, G - B - O) && IsMeasure(g, s.shared, G * (B + O))
    && IsMeasure(g, s.bubblesOnly, G * B - O) && IsMeasure(g, s.otherRootsOnly, G * O - B) && IsMeasure(g, s.both, G * B * O)
    && IsMeasure(g, s.bubbleOverlap, G * B) && IsMeasure(g, s.otherRootOverlap, G * O)
    && IsMeasure(g, s.globalOverlap, G * global) && IsMeasure(g, s.systemOverlap, G * system) && IsMeasure(g, s.ungroupedOverlap, G * rest)
  }

  ghost predicate ReportsRow(a: Analysis, labels: map<u64, Labels>, opts: Options, key: string, row: GroupRow)
  {
    var global := Reach(a.graph, RootSet(a.globals));
    var system, rest := HeldBy(a, RuntimeWithoutKey(a, labels, opts, key)), HeldBy(a, WithoutKey(a, labels, opts, key));
    && row.goroutines == |WithValue(a, labels, opts, key, row.value)|
    && ReportsSizes(a.graph, HeldBy(a, WithValue(a, labels, opts, key, row.value)), HeldBy(a, WithOtherValue(a, labels, opts, key, row.value)),
                    global + system + rest, global, system, rest, row.sizes)
  }

  lemma GroupsHold(a: Analysis, labels: map<u64, Labels>, opts: Options, key: string, v: string)
    ensures WithValue(a, labels, opts, key, v) == Members(a.goroutines, |a.goroutines|, InGroup(labels, opts, key, v))
    ensures HeldBy(a, WithValue(a, labels, opts, key, v)) == GroupSet(a, labels, opts, key, v)
    ensures HeldBy(a, WithOtherValue(a, labels, opts, key, v)) == OtherGroups(a, labels, opts, key, v)
  {
    var gs := a.goroutines;
    assert WithValue(a, labels, opts, key, v) == Members(gs, |gs|, InGroup(labels, opts, key, v));
    HeldIsReach(a, InGroup(labels, opts, key, v));
    assert WithOtherValue(a, labels, opts, key, v) == Members(gs, |gs|, InOtherGroup(labels, opts, key, v));
    HeldIsReach(a, InOtherGroup(labels, opts, key, v));
  }

  lemma OthersHold(a: Analysis, labels: map<u64, Labels>, opts: Options, key: string)
    ensures WithoutKey(a, labels, opts, key) == Members(a.goroutines, |a.goroutines|, Ungrouped(labels, opts, key))
    ensures HeldBy(a, WithoutKey(a, labels, opts, key)) == UngroupedSet(a, labels, opts, key)
    ensures HeldBy(a, RuntimeWithoutKey(a, labels, opts, key)) == SystemSet(a, labels, opts, key)
  {
    var gs := a.goroutines;
    assert WithoutKey(a, labels, opts, key) == Members(gs, |gs|, Ungrouped(labels, opts, key));
    HeldIsReach(a, Ungrouped(labels, opts, key));
    assert RuntimeWithoutKey(a, labels, opts, key) == Members(gs, |gs|, TableSystem(labels, opts, key));
    HeldIsReach(a, TableSystem(labels, opts, key));
  }

  lemma SizesMean(g: Graph, G: set<ObjectID>, B: set<ObjectID>, O: set<ObjectID>, global: set<ObjectID>, system: set<ObjectID>, rest: set<ObjectID>)
    ensures ReportsSizes(g, G, B, O, global, system, rest, SizesOf(g, G, B, O, global, system, rest))
  {}

  lemma RowMeans(a: Analysis, labels: map<u64, Labels>, opts: Options, key: string, v: string)
    ensures ReportsRow(a, labels, opts, key, RowOf(a, labels, opts, key, v))
    ensures HasGroup(a, labels, opts, key, v) <==> WithValue(a, labels, opts, key, v) != {}
  {
    var gs := a.goroutines;
    GroupsHold(a, labels, opts, key, v);
    OthersHold(a, labels, opts, key);
    CountIsMembers(gs, |gs|, InGroup(labels, opts, key, v));
    var global, system, rest := GlobalReach(a), SystemSet(a, labels, opts, key), UngroupedSet(a, labels, opts, key);
    assert Outside(a, labels, opts, key) == global + system + rest;
    SizesMean(a.graph, GroupSet(a, labels, opts, key, v), OtherGroups(a, labels, opts, key, v), Outside(a, labels, opts, key), global, system, rest);
  }

  lemma RestCounted(a: Analysis, labels: map<u64, Labels>, opts: Options, key: string)
    ensures CountUpTo(a.goroutines, |a.goroutines|, Ungrouped(labels, opts, key)) == |WithoutKey(a, labels, opts, key)|
    ensures CountUpTo(a.goroutines, |a.goroutines|, Excluded(opts)) == |LeftOut(a, opts)|
  {
    var gs := a.goroutines;
    OthersHold(a, labels, opts, key);
    CountIsMembers(gs, |gs|, Ungrouped(labels, opts, key));
    CountIsMembers(gs, |gs|, Excluded(opts));
    assert LeftOut(a, opts) == Members(gs, |gs|, Excluded(opts));
  }
}
