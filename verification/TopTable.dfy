// Top as a whole: every group classified, rows ordered and limited; and how its
// counter-based rows relate to the set-based Exclusive.
module TopTable {
  import opened Words
  import opened Wrappers
  import opened Graphs
  import opened Reachability
  import opened Analyses
  import opened Top
  import opened RowOrder
  import opened TopRows

  datatype TopResult = TopResult(
    groups: seq<GroupRow>,
    totalGroups: nat,
    ungroupedGoroutines: nat,
    excludedSystemGoroutines: nat)

  // The groups whose rows fit 64 bits.
  ghost predicate RowFits(a: Analysis, labels: map<u64, Labels>, opts: Options, key: string, v: string)
  {
    Bytes(a.graph, GroupSet(a, labels, opts, key, v)) <= MAX_U64
  }

  // The row of group v, or the overflow.
  ghost function RowFor(a: Analysis, labels: map<u64, Labels>, opts: Options, key: string): string -> Result<GroupRow, Error>
  {
    v => if RowFits(a, labels, opts, key, v) then Ok(RowOf(a, labels, opts, key, v)) else Err(BytesOverflow)
  }

  // The object sets and counters the rows are computed from.
  datatype Sources = Sources(membership: map<ObjectID, nat>, outside: set<ObjectID>, global: set<ObjectID>, system: set<ObjectID>, rest: set<ObjectID>)

  ghost predicate HasRoots(t: Grouping, v: string)
  {
    v in t.groups
  }

  ghost predicate AreSources(a: Analysis, labels: map<u64, Labels>, opts: Options, key: string, t: Grouping, s: Sources)
  {
    && GroupedUpTo(a.goroutines, |a.goroutines|, labels, opts, key, t)
    && (forall id :: Tally(s.membership, id) == |Holders(a.graph, t.groups, t.groups.Keys, id)|)
    && s.outside == Outside(a, labels, opts, key) && s.global == GlobalReach(a)
    && s.system == SystemSet(a, labels, opts, key) && s.rest == UngroupedSet(a, labels, opts, key)
  }

  // row(v) is the row of each group v.
  ghost predicate SpecifiesRows(a: Analysis, labels: map<u64, Labels>, opts: Options, key: string, t: Grouping, row: string -> Result<GroupRow, Error>)
  {
    forall v {:trigger HasRoots(t, v)} :: HasRoots(t, v) ==> row(v) == RowFor(a, labels, opts, key)(v)
  }

  // What each group v needs to know.
  ghost predicate Ready(a: Analysis, labels: map<u64, Labels>, opts: Options, key: string, t: Grouping, s: Sources)
  {
    forall v {:trigger HasRoots(t, v)} :: HasRoots(t, v) ==> AreSources(a, labels, opts, key, t, s)
  }

  method BuildRow(a: Analysis, labels: map<u64, Labels>, opts: Options, key: string, t: Grouping, v: string, src: Sources)
    returns (r: Result<GroupRow, Error>)
    requires AreSources(a, labels, opts, key, t, src) && v in t.groups
    ensures r == if RowFits(a, labels, opts, key, v) then Ok(RowOf(a, labels, opts, key, v)) else Err(BytesOverflow)
  {
    var s := Walk(a.graph, t.groups[v]);
    assert RootsIn(t.groups, v) == t.groups[v];
    assert s == GroupSet(a, labels, opts, key, v);
    ghost var B := OtherGroups(a, labels, opts, key, v);
    forall id | id in s
      ensures Tally(src.membership, id) > 1 <==> id in B
    {
      TallyDecides(a, labels, opts, key, t, v, id);
    }
    var p := Classify(s, src.outside, src.membership, B);
    var sizes :- MeasureRow(a.graph, s, p, B, src.outside, src.global, src.system, src.rest);
    assert CountIn(t.counts, v) == t.counts[v];
    return Ok(GroupRow(v, t.counts[v], sizes));
  }

  method ReadyRow(a: Analysis, labels: map<u64, Labels>, opts: Options, key: string, t: Grouping, v: string, src: Sources,
                  ghost row: string -> Result<GroupRow, Error>)
    returns (r: Result<GroupRow, Error>)
    requires Ready(a, labels, opts, key, t, src) && SpecifiesRows(a, labels, opts, key, t, row) && v in t.groups
    ensures r == row(v)
  {
    assert HasRoots(t, v);
    r := BuildRow(a, labels, opts, key, t, v, src);
  }

  // rows are the rows of the groups vs, in that order.
  ghost predicate AreRows(row: string -> Result<GroupRow, Error>, vs: seq<string>, rows: seq<GroupRow>)
  {
    |rows| == |vs| && forall i :: 0 <= i < |vs| ==> row(vs[i]) == Ok(rows[i])
  }

  ghost predicate Distinct(vs: seq<string>)
  {
    forall i, j :: 0 <= i < j < |vs| ==> vs[i] != vs[j]
  }

  // vs lists the set s, each member once.
  ghost predicate Listed(vs: seq<string>, s: set<string>)
  {
    Distinct(vs) && s == set v | v in vs
  }

  lemma ListedNext(vs: seq<string>, all: set<string>, todo: set<string>, v: string)
    requires Listed(vs, all - todo) && v in todo && todo <= all
    ensures Listed(vs + [v], all - (todo - {v}))
  {
    assert all - (todo - {v}) == (all - todo) + {v};
  }

  lemma AreRowsSnoc(row: string -> Result<GroupRow, Error>, vs: seq<string>, rows: seq<GroupRow>, v: string, next: GroupRow)
    requires AreRows(row, vs, rows) && row(v) == Ok(next)
    ensures AreRows(row, vs + [v], rows + [next])
  {}

  // The rows of the groups, in the order the map is visited.
  method RowsLoop(a: Analysis, labels: map<u64, Labels>, opts: Options, key: string, t: Grouping, src: Sources,
                  ghost row: string -> Result<GroupRow, Error>)
    returns (r: Result<seq<GroupRow>, Error>, ghost vs: seq<string>)
    requires Ready(a, labels, opts, key, t, src) && SpecifiesRows(a, labels, opts, key, t, row)
    ensures r.Ok? <==> forall v :: v in t.groups ==> row(v).Ok?
    ensures r.Ok? ==> AreRows(row, vs, r.value) && Listed(vs, t.groups.Keys)
    ensures r.Err? ==> exists v :: v in t.groups && row(v).Err? && r.error == row(v).error
  {
    vs := [];
    var rows: seq<GroupRow> := [];
    var todo := t.groups.Keys;
    while todo != {}
      invariant todo <= t.groups.Keys && Listed(vs, t.groups.Keys - todo)
      invariant AreRows(row, vs, rows)
      invariant forall v :: v in t.groups && v !in todo ==> row(v).Ok?
      decreases todo
    {
      var v :| v in todo;
      var next := ReadyRow(a, labels, opts, key, t, v, src, row);
      if next.Err? {
        return Err(next.error), vs;
      }
      AreRowsSnoc(row, vs, rows, v, next.value);
      ListedNext(vs, t.groups.Keys, todo, v);
      rows, vs, todo := rows + [next.value], vs + [v], todo - {v};
    }
    assert t.groups.Keys - todo == t.groups.Keys;
    return Ok(rows), vs;
  }

  method BuildRows(a: Analysis, labels: map<u64, Labels>, opts: Options, key: string, t: Grouping, ghost row: string -> Result<GroupRow, Error>)
    returns (r: Result<seq<GroupRow>, Error>, ghost vs: seq<string>)
    requires GroupedUpTo(a.goroutines, |a.goroutines|, labels, opts, key, t) && SpecifiesRows(a, labels, opts, key, t, row)
    ensures r.Ok? <==> forall v :: v in t.groups ==> row(v).Ok?
    ensures r.Ok? ==> AreRows(row, vs, r.value) && Listed(vs, t.groups.Keys)
    ensures r.Err? ==> exists v :: v in t.groups && row(v).Err? && r.error == row(v).error
  {
    var global := Walk(a.graph, a.globals);
    var system := Walk(a.graph, t.system);
    var rest := Walk(a.graph, t.ungrouped);
    var membership := CountMemberships(a.graph, t.groups);
    var src := Sources(membership, global + (system + rest), global, system, rest);
    r, vs := RowsLoop(a, labels, opts, key, t, src, row);
  }

  // all holds the row of every group and nothing else.
  ghost predicate AllRows(a: Analysis, labels: map<u64, Labels>, opts: Options, key: string, all: seq<GroupRow>)
  {
    forall x :: x in all <==> HasGroup(a, labels, opts, key, x.value) && x == RowOf(a, labels, opts, key, x.value)
  }

  ghost predicate EachOnce(rows: seq<GroupRow>)
  {
    forall i, j :: 0 <= i < j < |rows| ==> rows[i].value != rows[j].value
  }

  lemma RowsMember(row: string -> Result<GroupRow, Error>, vs: seq<string>, rows: seq<GroupRow>)
    requires AreRows(row, vs, rows) && Distinct(vs) && forall v :: row(v).Ok? ==> row(v).value.value == v
    ensures forall x :: x in rows <==> x.value in vs && row(x.value) == Ok(x)
    ensures EachOnce(rows)
  {
    forall x
      ensures x in rows <==> x.value in vs && row(x.value) == Ok(x)
    {
      if x in rows {
        var i :| 0 <= i < |rows| && rows[i] == x;
        assert row(vs[i]) == Ok(x);
      }
      if x.value in vs && row(x.value) == Ok(x) {
        var i :| 0 <= i < |vs| && vs[i] == x.value;
        assert rows[i] == x;
      }
    }
    forall i, j | 0 <= i < j < |rows|
      ensures rows[i].value != rows[j].value
    {
      assert row(vs[i]) == Ok(rows[i]) && row(vs[j]) == Ok(rows[j]);
    }
  }

  lemma RowsAreAll(a: Analysis, labels: map<u64, Labels>, opts: Options, key: string, vs: seq<string>, rows: seq<GroupRow>)
    requires forall x :: x in rows <==> x.value in vs && RowFor(a, labels, opts, key)(x.value) == Ok(x)
    requires forall v :: v in vs <==> HasGroup(a, labels, opts, key, v)
    requires forall v :: v in vs ==> RowFits(a, labels, opts, key, v)
    ensures AllRows(a, labels, opts, key, rows)
  {
    forall x
      ensures x in rows <==> HasGroup(a, labels, opts, key, x.value) && x == RowOf(a, labels, opts, key, x.value)
    {
      assert x in rows <==> x.value in vs && RowFor(a, labels, opts, key)(x.value) == Ok(x);
    }
  }

  // The rows of all groups, in some order.
  ghost predicate IsAllRows(a: Analysis, labels: map<u64, Labels>, opts: Options, key: string, r: Result<seq<GroupRow>, Error>)
  {
    && (r.Ok? <==> forall v :: HasGroup(a, labels, opts, key, v) ==> RowFits(a, labels, opts, key, v))
    && (r.Ok? ==> AllRows(a, labels, opts, key, r.value) && EachOnce(r.value))
    && (r.Err? ==> r.error == BytesOverflow)
  }

  lemma LoopIsAllRows(a: Analysis, labels: map<u64, Labels>, opts: Options, key: string, keys: set<string>,
                      row: string -> Result<GroupRow, Error>, vs: seq<string>, r: Result<seq<GroupRow>, Error>)
    requires row == RowFor(a, labels, opts, key)
    requires forall v :: v in keys <==> HasGroup(a, labels, opts, key, v)
    requires r.Ok? <==> forall v :: v in keys ==> row(v).Ok?
    requires r.Ok? ==> AreRows(row, vs, r.value) && Listed(vs, keys)
    requires r.Err? ==> exists v :: v in keys && row(v).Err? && r.error == row(v).error
    ensures IsAllRows(a, labels, opts, key, r)
  {
    assert forall v :: row(v).Ok? <==> RowFits(a, labels, opts, key, v);
    if r.Ok? {
      RowsMember(row, vs, r.value);
      RowsAreAll(a, labels, opts, key, vs, r.value);
    }
  }

  lemma RowForSpecifies(a: Analysis, labels: map<u64, Labels>, opts: Options, key: string, t: Grouping)
    ensures SpecifiesRows(a, labels, opts, key, t, RowFor(a, labels, opts, key))
  {}

  method AllGroupRows(a: Analysis, labels: map<u64, Labels>, opts: Options, key: string, t: Grouping)
    returns (r: Result<seq<GroupRow>, Error>)
    requires GroupedUpTo(a.goroutines, |a.goroutines|, labels, opts, key, t)
    requires forall v :: v in t.groups <==> HasGroup(a, labels, opts, key, v)
    ensures IsAllRows(a, labels, opts, key, r)
  {
    ghost var vs;
    RowForSpecifies(a, labels, opts, key, t);
    r, vs := BuildRows(a, labels, opts, key, t, RowFor(a, labels, opts, key));
    LoopIsAllRows(a, labels, opts, key, t.groups.Keys, RowFor(a, labels, opts, key), vs, r);
  }

  method SortAndLimit(k: SortKey, rows: seq<GroupRow>, limit: nat) returns (shown: seq<GroupRow>, ghost all: seq<GroupRow>)
    requires EachOnce(rows)
    ensures IsSorted(k, all) && |all| == |rows| && (forall x :: x in all <==> x in rows)
    ensures shown == if 0 < limit < |all| then all[..limit] else all
  {
    shown := SortRows(k, rows);
    all := shown;
    if limit > 0 && |shown| > limit {
      shown := shown[..limit];
    }
  }

  // One row for every value that some goroutine has, each number in terms of what
  // goroutines hold; and the goroutines that are in no group.
  ghost predicate RowsReport(a: Analysis, labels: map<u64, Labels>, opts: Options, key: string, all: seq<GroupRow>)
  {
    && (forall x :: x in all ==> ReportsRow(a, labels, opts, key, x))
    && (forall v :: WithValue(a, labels, opts, key, v) != {} <==> exists x :: x in all && x.value == v)
  }

  ghost predicate IsTable(a: Analysis, labels: map<u64, Labels>, opts: Options, key: string, all: seq<GroupRow>, t: TopResult)
  {
    && RowsReport(a, labels, opts, key, all)
    && t.ungroupedGoroutines == |WithoutKey(a, labels, opts, key)| && t.excludedSystemGoroutines == |LeftOut(a, opts)|
  }

  lemma AllRowsMean(a: Analysis, labels: map<u64, Labels>, opts: Options, key: string, all: seq<GroupRow>)
    requires AllRows(a, labels, opts, key, all)
    ensures RowsReport(a, labels, opts, key, all)
  {
    forall x | x in all
      ensures ReportsRow(a, labels, opts, key, x)
    {
      RowMeans(a, labels, opts, key, x.value);
    }
    forall v
      ensures WithValue(a, labels, opts, key, v) != {} <==> exists x :: x in all && x.value == v
    {
      RowMeans(a, labels, opts, key, v);
      if HasGroup(a, labels, opts, key, v) {
        assert RowOf(a, labels, opts, key, v) in all;
      }
    }
  }

  // The table is an ordered prefix of the rows of all groups.
  method TopGroups(a: Analysis, labels: map<u64, Labels>, opts: Options, key: string, k: SortKey, limit: int)
    returns (r: Result<TopResult, Error>, ghost all: seq<GroupRow>)
    ensures (|key| == 0 || limit < 0) ==> r == Err(InvalidRequest)
    ensures |key| > 0 && limit >= 0 ==>
      (r.Ok? <==> forall v :: HasGroup(a, labels, opts, key, v) ==> RowFits(a, labels, opts, key, v))
        && (r.Err? ==> r.error == BytesOverflow)
    ensures r.Ok? ==>
      && IsSorted(k, all) && AllRows(a, labels, opts, key, all)
      && r.value.totalGroups == |all|
      && r.value.groups == (if 0 < limit < |all| then all[..limit] else all)
      && r.value.ungroupedGoroutines == CountUpTo(a.goroutines, |a.goroutines|, Ungrouped(labels, opts, key))
      && r.value.excludedSystemGoroutines == CountUpTo(a.goroutines, |a.goroutines|, Excluded(opts))
    ensures r.Ok? ==> IsTable(a, labels, opts, key, all, r.value)
  {
    all := [];
    if |key| == 0 || limit < 0 {
      return Err(InvalidRequest), all;
    }
    var t := GroupGoroutines(a, labels, opts, key);
    forall v
      ensures v in t.groups <==> HasGroup(a, labels, opts, key, v)
    {
      assert CountIn(t.counts, v) == CountUpTo(a.goroutines, |a.goroutines|, InGroup(labels, opts, key, v));
    }
    var built := AllGroupRows(a, labels, opts, key, t);
    if built.Err? {
      return Err(built.error), all;
    }
    var shown;
    shown, all := SortAndLimit(k, built.value, limit);
    AllRowsMean(a, labels, opts, key, all);
    RestCounted(a, labels, opts, key);
    return Ok(TopResult(shown, |built.value|, t.ungroupedCount, t.excludedCount)), all;
  }

  // ---- What the rows mean ----

  // The four classes partition the group's reach, in objects and in bytes, and
  // Shared and the two overlaps are the unions their names say.
  ghost predicate SizesPartition(s: Breakdown)
  {
    && s.reachable == Sum(Sum(s.exclusive, s.bubblesOnly), Sum(s.otherRootsOnly, s.both))
    && s.shared == Sum(s.bubblesOnly, Sum(s.otherRootsOnly, s.both))
    && s.bubbleOverlap == Sum(s.bubblesOnly, s.both)
    && s.otherRootOverlap == Sum(s.otherRootsOnly, s.both)
  }

  lemma SumRegroups(a: Measure, b: Measure, c: Measure)
    ensures Sum(a, Sum(b, c)) == Sum(Sum(a, b), c)
  {}

  lemma SizesOfPartition(g: Graph, G: set<ObjectID>, B: set<ObjectID>, O: set<ObjectID>,
                         global: set<ObjectID>, system: set<ObjectID>, rest: set<ObjectID>)
    ensures SizesPartition(SizesOf(g, G, B, O, global, system, rest))
  {
    BubbleOverlapSplits(g, G, B, O);
    OtherOverlapSplits(g, G, B, O);
    SharedSplits(g, G, B, O);
    ReachSplits(g, G, B, O);
    SumRegroups(MeasureOf(g, G - B - O), MeasureOf(g, G * B - O), MeasureOf(g, G * O));
  }

  lemma RowPartitions(a: Analysis, labels: map<u64, Labels>, opts: Options, key: string, v: string)
    ensures SizesPartition(RowOf(a, labels, opts, key, v).sizes)
  {
    SizesOfPartition(a.graph, GroupSet(a, labels, opts, key, v), OtherGroups(a, labels, opts, key, v),
                     Outside(a, labels, opts, key), GlobalReach(a), SystemSet(a, labels, opts, key), UngroupedSet(a, labels, opts, key));
  }

  function Sum(a: Measure, b: Measure): Measure
  {
    Measure(a.objects + b.objects, a.bytes + b.bytes)
  }

  lemma Split(g: Graph, whole: set<ObjectID>, part: set<ObjectID>, rest: set<ObjectID>)
    requires part !! rest && whole == part + rest
    ensures MeasureOf(g, whole) == Sum(MeasureOf(g, part), MeasureOf(g, rest))
  {
    MeasureAdds(g, part, rest);
  }

  lemma BubbleOverlapSplits(g: Graph, G: set<ObjectID>, B: set<ObjectID>, O: set<ObjectID>)
    ensures MeasureOf(g, G * B) == Sum(MeasureOf(g, G * B - O), MeasureOf(g, G * B * O))
  {
    Split(g, G * B, G * B - O, G * B * O);
  }

  lemma OtherOverlapSplits(g: Graph, G: set<ObjectID>, B: set<ObjectID>, O: set<ObjectID>)
    ensures MeasureOf(g, G * O) == Sum(MeasureOf(g, G * O - B), MeasureOf(g, G * B * O))
  {
    Split(g, G * O, G * O - B, G * B * O);
  }

  lemma SharedSplits(g: Graph, G: set<ObjectID>, B: set<ObjectID>, O: set<ObjectID>)
    ensures MeasureOf(g, G * (B + O)) == Sum(MeasureOf(g, G * B - O), MeasureOf(g, G * O))
  {
    Split(g, G * (B + O), G * B - O, G * O);
  }

  lemma ReachSplits(g: Graph, G: set<ObjectID>, B: set<ObjectID>, O: set<ObjectID>)
    ensures MeasureOf(g, G) == Sum(MeasureOf(g, G - B - O), MeasureOf(g, G * (B + O)))
  {
    Split(g, G, G - B - O, G * (B + O));
  }

  // What two groups hold exclusively never overlaps.
  lemma ExclusiveSetsDisjoint(a: Analysis, labels: map<u64, Labels>, opts: Options, key: string, v: string, w: string)
    requires v != w
    ensures (GroupSet(a, labels, opts, key, v) - OtherGroups(a, labels, opts, key, v)) !! GroupSet(a, labels, opts, key, w)
  {
    var gs := a.goroutines;
    RootsSmaller(gs, |gs|, InGroup(labels, opts, key, w), InOtherGroup(labels, opts, key, v));
    ReachMonotone(a.graph, Roots(gs, InGroup(labels, opts, key, w)), Roots(gs, InOtherGroup(labels, opts, key, v)));
  }
}
