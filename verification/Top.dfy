// The per-group table (Snapshot.Top, internal/memusage/multibubble.go): one
// membership counter per reached object instead of one set per group.
module Top {
  import opened Words
  import opened Wrappers
  import opened Graphs
  import opened Reachability
  import opened Analyses
  import opened Bubbles

  datatype Breakdown = Breakdown(
    reachable: Measure,
    exclusive: Measure,
    shared: Measure,
    bubblesOnly: Measure,
    otherRootsOnly: Measure,
    both: Measure,
    bubbleOverlap: Measure,
    otherRootOverlap: Measure,
    globalOverlap: Measure,
    systemOverlap: Measure,
    ungroupedOverlap: Measure)

  datatype GroupRow = GroupRow(value: string, goroutines: nat, sizes: Breakdown)

  // ---- Goroutine classes of a table keyed by one label ----

  predicate Grouped(g: Goroutine, labels: map<u64, Labels>, opts: Options, key: string)
  {
    Eligible(g, opts) && key in LabelsOf(labels, g.id)
  }

  function InGroup(labels: map<u64, Labels>, opts: Options, key: string, v: string): Class
  {
    (g: Goroutine) => Grouped(g, labels, opts, key) && LabelsOf(labels, g.id)[key] == v
  }

  function InOtherGroup(labels: map<u64, Labels>, opts: Options, key: string, v: string): Class
  {
    (g: Goroutine) => Grouped(g, labels, opts, key) && LabelsOf(labels, g.id)[key] != v
  }

  function Ungrouped(labels: map<u64, Labels>, opts: Options, key: string): Class
  {
    (g: Goroutine) => Eligible(g, opts) && !Grouped(g, labels, opts, key)
  }

  // Excluded runtime goroutines, and admitted ones without the label.
  function TableSystem(labels: map<u64, Labels>, opts: Options, key: string): Class
  {
    (g: Goroutine) => !Eligible(g, opts) || (!Grouped(g, labels, opts, key) && IsRuntime(g))
  }

  function Excluded(opts: Options): Class
  {
    (g: Goroutine) => !Eligible(g, opts)
  }

  // ---- What a row measures ----

  ghost function GroupSet(a: Analysis, labels: map<u64, Labels>, opts: Options, key: string, v: string): set<ObjectID>
  {
    Reach(a.graph, Roots(a.goroutines, InGroup(labels, opts, key, v)))
  }

  // Everything another group reaches.
  ghost function OtherGroups(a: Analysis, labels: map<u64, Labels>, opts: Options, key: string, v: string): set<ObjectID>
  {
    Reach(a.graph, Roots(a.goroutines, InOtherGroup(labels, opts, key, v)))
  }

  ghost function SystemSet(a: Analysis, labels: map<u64, Labels>, opts: Options, key: string): set<ObjectID>
  {
    Reach(a.graph, Roots(a.goroutines, TableSystem(labels, opts, key)))
  }

  ghost function UngroupedSet(a: Analysis, labels: map<u64, Labels>, opts: Options, key: string): set<ObjectID>
  {
    Reach(a.graph, Roots(a.goroutines, Ungrouped(labels, opts, key)))
  }

  ghost function Outside(a: Analysis, labels: map<u64, Labels>, opts: Options, key: string): set<ObjectID>
  {
    GlobalReach(a) + (SystemSet(a, labels, opts, key) + UngroupedSet(a, labels, opts, key))
  }

  // G is the group's reach, B what other groups reach, O what other roots reach.
  ghost function SizesOf(g: Graph, G: set<ObjectID>, B: set<ObjectID>, O: set<ObjectID>, global: set<ObjectID>, system: set<ObjectID>, rest: set<ObjectID>): Breakdown
  {
    Breakdown(
      MeasureOf(g, G),
      MeasureOf(g, G - B - O),
      MeasureOf(g, G * (B + O)),
      MeasureOf(g, G * B - O),
      MeasureOf(g, G * O - B),
      MeasureOf(g, G * B * O),
      MeasureOf(g, G * B),
      MeasureOf(g, G * O),
      MeasureOf(g, G * global),
      MeasureOf(g, G * system),
      MeasureOf(g, G * rest))
  }

  ghost function RowOf(a: Analysis, labels: map<u64, Labels>, opts: Options, key: string, v: string): GroupRow
  {
    GroupRow(v,
      CountUpTo(a.goroutines, |a.goroutines|, InGroup(labels, opts, key, v)),
      SizesOf(a.graph, GroupSet(a, labels, opts, key, v), OtherGroups(a, labels, opts, key, v),
        Outside(a, labels, opts, key), GlobalReach(a), SystemSet(a, labels, opts, key), UngroupedSet(a, labels, opts, key)))
  }

  // The label values that have a goroutine, each with its number of goroutines.
  ghost predicate HasGroup(a: Analysis, labels: map<u64, Labels>, opts: Options, key: string, v: string)
  {
    CountUpTo(a.goroutines, |a.goroutines|, InGroup(labels, opts, key, v)) > 0
  }

  // ---- Grouping the goroutines ----

  datatype Grouping = Grouping(
    groups: map<string, seq<RootRef>>,
    counts: map<string, nat>,
    system: seq<RootRef>,
    ungrouped: seq<RootRef>,
    excludedCount: nat,
    ungroupedCount: nat)

  function RootsIn(groups: map<string, seq<RootRef>>, v: string): seq<RootRef>
  {
    if v in groups then groups[v] else []
  }

  function CountIn(counts: map<string, nat>, v: string): nat
  {
    if v in counts then counts[v] else 0
  }

  ghost predicate GroupedUpTo(gs: seq<Goroutine>, n: nat, labels: map<u64, Labels>, opts: Options, key: string, t: Grouping)
    requires n <= |gs|
  {
    && t.groups.Keys == t.counts.Keys
    && (forall v :: RootSet(RootsIn(t.groups, v)) == RootsUpTo(gs, n, InGroup(labels, opts, key, v)))
    && (forall v :: CountIn(t.counts, v) == CountUpTo(gs, n, InGroup(labels, opts, key, v)))
    && (forall v :: v in t.counts ==> t.counts[v] > 0)
    && RootSet(t.system) == RootsUpTo(gs, n, TableSystem(labels, opts, key))
    && RootSet(t.ungrouped) == RootsUpTo(gs, n, Ungrouped(labels, opts, key))
    && t.excludedCount == CountUpTo(gs, n, Excluded(opts))
    && t.ungroupedCount == CountUpTo(gs, n, Ungrouped(labels, opts, key))
  }

  method PlaceGoroutine(gs: seq<Goroutine>, i: nat, labels: map<u64, Labels>, opts: Options, key: string, t: Grouping) returns (r: Grouping)
    requires i < |gs| && GroupedUpTo(gs, i, labels, opts, key, t)
    ensures GroupedUpTo(gs, i + 1, labels, opts, key, r)
  {
    var g := gs[i];
    var have := LabelsOf(labels, g.id);
    if !opts.includeSystemGoroutines && (g.isSystem || g.isBackground) {
      RootSetConcat(t.system, g.roots);
      r := t.(system := t.system + g.roots, excludedCount := t.excludedCount + 1);
    } else if key !in have {
      RootSetConcat(t.system, g.roots);
      RootSetConcat(t.ungrouped, g.roots);
      r := t.(ungrouped := t.ungrouped + g.roots, ungroupedCount := t.ungroupedCount + 1);
      if g.isSystem || g.isBackground {
        r := r.(system := r.system + g.roots);
      }
    } else {
      r := JoinGroup(gs, i, labels, opts, key, have[key], t);
    }
  }

  // A goroutine that has the key joins the group of its value.
  method JoinGroup(gs: seq<Goroutine>, i: nat, labels: map<u64, Labels>, opts: Options, key: string, value: string, t: Grouping) returns (r: Grouping)
    requires i < |gs| && GroupedUpTo(gs, i, labels, opts, key, t)
    requires Grouped(gs[i], labels, opts, key) && LabelsOf(labels, gs[i].id)[key] == value
    ensures GroupedUpTo(gs, i + 1, labels, opts, key, r)
  {
    RootSetConcat(RootsIn(t.groups, value), gs[i].roots);
    r := t.(counts := t.counts[value := CountIn(t.counts, value) + 1],
            groups := t.groups[value := RootsIn(t.groups, value) + gs[i].roots]);
  }

  method GroupGoroutines(a: Analysis, labels: map<u64, Labels>, opts: Options, key: string) returns (t: Grouping)
    ensures GroupedUpTo(a.goroutines, |a.goroutines|, labels, opts, key, t)
  {
    t := Grouping(map[], map[], [], [], 0, 0);
    for i := 0 to |a.goroutines|
      invariant GroupedUpTo(a.goroutines, i, labels, opts, key, t)
    {
      t := PlaceGoroutine(a.goroutines, i, labels, opts, key, t);
    }
  }

  // ---- The membership counter ----

  // The groups among vs that reach id.
  ghost function Holders(g: Graph, groups: map<string, seq<RootRef>>, vs: set<string>, id: ObjectID): set<string>
  {
    set v | v in vs && id in Reach(g, RootSet(RootsIn(groups, v)))
  }

  function Tally(membership: map<ObjectID, nat>, id: ObjectID): nat
  {
    if id in membership then membership[id] else 0
  }

  // Increments the counter of every member of s, in an arbitrary order.
  method CountSet(membership: map<ObjectID, nat>, s: set<ObjectID>) returns (r: map<ObjectID, nat>)
    ensures forall id :: Tally(r, id) == Tally(membership, id) + (if id in s then 1 else 0)
  {
    r := membership;
    var todo := s;
    while todo != {}
      invariant todo <= s
      invariant forall id :: Tally(r, id) == Tally(membership, id) + (if id in s && id !in todo then 1 else 0)
      decreases todo
    {
      var id :| id in todo;
      r := r[id := Tally(r, id) + 1];
      todo := todo - {id};
    }
  }

  lemma HoldersAdd(g: Graph, groups: map<string, seq<RootRef>>, vs: set<string>, v: string, id: ObjectID)
    requires v !in vs
    ensures |Holders(g, groups, vs + {v}, id)| == |Holders(g, groups, vs, id)| + (if id in Reach(g, RootSet(RootsIn(groups, v))) then 1 else 0)
  {
    if id in Reach(g, RootSet(RootsIn(groups, v))) {
      assert Holders(g, groups, vs + {v}, id) == Holders(g, groups, vs, id) + {v};
    } else {
      assert Holders(g, groups, vs + {v}, id) == Holders(g, groups, vs, id);
    }
  }

  // Walks the groups in an arbitrary order; the counter ends up the same.
  method CountMemberships(g: Graph, groups: map<string, seq<RootRef>>) returns (membership: map<ObjectID, nat>)
    ensures forall id :: Tally(membership, id) == |Holders(g, groups, groups.Keys, id)|
  {
    membership := map[];
    var todo := groups.Keys;
    ghost var done: set<string> := {};
    while todo != {}
      invariant done !! todo && done + todo == groups.Keys
      invariant forall id :: Tally(membership, id) == |Holders(g, groups, done, id)|
      decreases todo
    {
      var v :| v in todo;
      var s := Walk(g, groups[v]);
      membership := CountSet(membership, s);
      forall id
        ensures Tally(membership, id) == |Holders(g, groups, done + {v}, id)|
      {
        HoldersAdd(g, groups, done, v, id);
      }
      todo, done := todo - {v}, done + {v};
    }
    assert done == groups.Keys;
  }

  // More than one holder means another group reaches the object too.
  lemma SharedHolders(g: Graph, groups: map<string, seq<RootRef>>, v: string, id: ObjectID)
    requires v in groups && id in Reach(g, RootSet(groups[v]))
    ensures |Holders(g, groups, groups.Keys, id)| > 1 <==> exists w :: w in groups && w != v && id in Reach(g, RootSet(groups[w]))
  {
    var h := Holders(g, groups, groups.Keys, id);
    assert v in h;
    assert h == {v} + (h - {v});
    if h - {v} != {} {
      var w :| w in h - {v};
      assert w in groups && w != v && id in Reach(g, RootSet(groups[w]));
    }
    if w :| w in groups && w != v && id in Reach(g, RootSet(groups[w])) {
      assert w in h - {v};
    }
  }

  ghost predicate AnotherHolds(g: Graph, groups: map<string, seq<RootRef>>, v: string, id: ObjectID)
  {
    exists w :: w in groups && w != v && id in Reach(g, RootSet(groups[w]))
  }

  lemma AnotherIsOther(a: Analysis, labels: map<u64, Labels>, opts: Options, key: string, t: Grouping, v: string, id: ObjectID)
    requires GroupedUpTo(a.goroutines, |a.goroutines|, labels, opts, key, t)
    requires AnotherHolds(a.graph, t.groups, v, id)
    ensures id in OtherGroups(a, labels, opts, key, v)
  {
    var gs := a.goroutines;
    var w :| w in t.groups && w != v && id in Reach(a.graph, RootSet(t.groups[w]));
    RootsSmaller(gs, |gs|, InGroup(labels, opts, key, w), InOtherGroup(labels, opts, key, v));
    assert RootSet(RootsIn(t.groups, w)) == Roots(gs, InGroup(labels, opts, key, w));
    ReachMonotone(a.graph, Roots(gs, InGroup(labels, opts, key, w)), Roots(gs, InOtherGroup(labels, opts, key, v)));
  }

  lemma OtherIsAnother(a: Analysis, labels: map<u64, Labels>, opts: Options, key: string, t: Grouping, v: string, id: ObjectID)
    requires GroupedUpTo(a.goroutines, |a.goroutines|, labels, opts, key, t)
    requires id in OtherGroups(a, labels, opts, key, v)
    ensures AnotherHolds(a.graph, t.groups, v, id)
  {
    var gs := a.goroutines;
    var r := ReachFromOne(a.graph, Roots(gs, InOtherGroup(labels, opts, key, v)), id);
    RootsMember(gs, |gs|, InOtherGroup(labels, opts, key, v), r);
    var i :| 0 <= i < |gs| && InOtherGroup(labels, opts, key, v)(gs[i]) && r in RootSet(gs[i].roots);
    var w := LabelsOf(labels, gs[i].id)[key];
    RootsMember(gs, |gs|, InGroup(labels, opts, key, w), r);
    assert r in RootSet(RootsIn(t.groups, w));
    ReachMonotone(a.graph, {r}, RootSet(RootsIn(t.groups, w)));
  }

  // The counter decides "reached by another group" exactly.
  lemma TallyDecides(a: Analysis, labels: map<u64, Labels>, opts: Options, key: string, t: Grouping, v: string, id: ObjectID)
    requires GroupedUpTo(a.goroutines, |a.goroutines|, labels, opts, key, t)
    requires v in t.groups && id in GroupSet(a, labels, opts, key, v)
    ensures |Holders(a.graph, t.groups, t.groups.Keys, id)| > 1 <==> id in OtherGroups(a, labels, opts, key, v)
  {
    assert RootSet(RootsIn(t.groups, v)) == Roots(a.goroutines, InGroup(labels, opts, key, v));
    SharedHolders(a.graph, t.groups, v, id);
    if AnotherHolds(a.graph, t.groups, v, id) {
      AnotherIsOther(a, labels, opts, key, t, v, id);
    }
    if id in OtherGroups(a, labels, opts, key, v) {
      OtherIsAnother(a, labels, opts, key, t, v, id);
    }
  }

  // ---- One row ----

  datatype Parts = Parts(bubblesOnly: set<ObjectID>, otherOnly: set<ObjectID>, both: set<ObjectID>, exclusive: set<ObjectID>)

  ghost function PartsOf(G: set<ObjectID>, B: set<ObjectID>, O: set<ObjectID>): Parts
  {
    Parts(G * B - O, G * O - B, G * B * O, G - B - O)
  }

  // Sorts the members of s into the four classes by counter and outside set.
  method Classify(s: set<ObjectID>, outside: set<ObjectID>, membership: map<ObjectID, nat>, ghost B: set<ObjectID>) returns (p: Parts)
    requires forall id :: id in s ==> (Tally(membership, id) > 1 <==> id in B)
    ensures p == PartsOf(s, B, outside)
  {
    p := Parts({}, {}, {}, {});
    var todo := s;
    ghost var done: set<ObjectID> := {};
    while todo != {}
      invariant done !! todo && done + todo == s
      invariant p == PartsOf(done, B, outside)
      decreases todo
    {
      var id :| id in todo;
      var o := id in outside;
      var b := Tally(membership, id) > 1;
      if b && o {
        p := p.(both := p.both + {id});
      } else if b {
        p := p.(bubblesOnly := p.bubblesOnly + {id});
      } else if o {
        p := p.(otherOnly := p.otherOnly + {id});
      } else {
        p := p.(exclusive := p.exclusive + {id});
      }
      PartsAdd(done, B, outside, id);
      todo, done := todo - {id}, done + {id};
    }
    assert done == s;
  }

  lemma PartsAdd(G: set<ObjectID>, B: set<ObjectID>, O: set<ObjectID>, id: ObjectID)
    requires id !in G
    ensures var p, q := PartsOf(G, B, O), PartsOf(G + {id}, B, O);
      && q.both == (if id in B && id in O then p.both + {id} else p.both)
      && q.bubblesOnly == (if id in B && id !in O then p.bubblesOnly + {id} else p.bubblesOnly)
      && q.otherOnly == (if id !in B && id in O then p.otherOnly + {id} else p.otherOnly)
      && q.exclusive == (if id !in B && id !in O then p.exclusive + {id} else p.exclusive)
  {}

  method MeasureRow(g: Graph, s: set<ObjectID>, p: Parts, ghost B: set<ObjectID>, outside: set<ObjectID>, global: set<ObjectID>, system: set<ObjectID>, rest: set<ObjectID>)
    returns (r: Result<Breakdown, Error>)
    requires forall id :: id in s ==> g.ValidID(id)
    requires p == PartsOf(s, B, outside)
    ensures r == if Bytes(g, s) <= MAX_U64 then Ok(SizesOf(g, s, B, outside, global, system, rest)) else Err(BytesOverflow)
  {
    assert s - p.exclusive == s * (B + outside);
    assert p.bubblesOnly + p.both == s * B;
    assert p.otherOnly + p.both == s * outside;
    var reachable :- MeasureSet(g, s);
    var exclusive := MeasurePart(g, p.exclusive, s);
    var shared := MeasurePart(g, s - p.exclusive, s);
    var bubblesOnly := MeasurePart(g, p.bubblesOnly, s);
    var otherOnly := MeasurePart(g, p.otherOnly, s);
    var both := MeasurePart(g, p.both, s);
    var bubbleOverlap := MeasurePart(g, p.bubblesOnly + p.both, s);
    var otherOverlap := MeasurePart(g, p.otherOnly + p.both, s);
    var globalOverlap := MeasurePart(g, s * global, s);
    var systemOverlap := MeasurePart(g, s * system, s);
    var ungroupedOverlap := MeasurePart(g, s * rest, s);
    return Ok(Breakdown(reachable, exclusive, shared, bubblesOnly, otherOnly, both, bubbleOverlap, otherOverlap, globalOverlap, systemOverlap, ungroupedOverlap));
  }
}
