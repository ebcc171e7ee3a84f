// Whole-process reachability: ComputeReachability
// (internal/snapshotgraph/build.go).
module WholeProcess {
  import opened Graphs
  import opened Analyses
  import opened Search
  import opened Reachability

  // How many of the first n sets contain id.
  ghost function Owners(sets: seq<set<ObjectID>>, n: nat, id: ObjectID): nat
    requires n <= |sets|
  {
    if n == 0 then 0 else Owners(sets, n - 1, id) + (if id in sets[n - 1] then 1 else 0)
  }

  ghost predicate CountsOwners(owners: map<ObjectID, nat>, sets: seq<set<ObjectID>>, n: nat)
    requires n <= |sets|
  {
    forall id :: if id in owners then owners[id] == Owners(sets, n, id) > 0 else Owners(sets, n, id) == 0
  }

  // One goroutine's set, visited in an arbitrary order.
  method CountSet(sets: seq<set<ObjectID>>, n: nat, owners0: map<ObjectID, nat>) returns (owners: map<ObjectID, nat>)
    requires n < |sets| && CountsOwners(owners0, sets, n)
    ensures CountsOwners(owners, sets, n + 1)
  {
    owners := owners0;
    var todo := sets[n];
    while todo != {}
      invariant todo <= sets[n]
      invariant forall id :: id in sets[n] && id !in todo ==> id in owners && owners[id] == Owners(sets, n, id) + 1
      invariant forall id :: id in todo || id !in sets[n] ==>
        if id in owners then owners[id] == Owners(sets, n, id) > 0 else Owners(sets, n, id) == 0
      decreases todo
    {
      var id :| id in todo;
      owners := owners[id := (if id in owners then owners[id] else 0) + 1];
      todo := todo - {id};
    }
  }

  ghost function SharedIn(owners: map<ObjectID, nat>, s: set<ObjectID>): set<ObjectID>
  {
    set id | id in s && id in owners && owners[id] > 1
  }

  method CountShared(owners: map<ObjectID, nat>) returns (shared: nat)
    ensures shared == |SharedIn(owners, owners.Keys)|
  {
    shared := 0;
    var todo := owners.Keys;
    ghost var done: set<ObjectID> := {};
    while todo != {}
      invariant done !! todo && done + todo == owners.Keys
      invariant shared == |SharedIn(owners, done)|
      decreases todo
    {
      var id :| id in todo;
      if owners[id] > 1 {
        assert SharedIn(owners, done + {id}) == SharedIn(owners, done) + {id};
        shared := shared + 1;
      } else {
        assert SharedIn(owners, done + {id}) == SharedIn(owners, done);
      }
      todo, done := todo - {id}, done + {id};
    }
    assert done == owners.Keys;
  }

  method CountOwners(sets: seq<set<ObjectID>>) returns (owners: map<ObjectID, nat>)
    ensures CountsOwners(owners, sets, |sets|)
  {
    owners := map[];
    for i := 0 to |sets|
      invariant CountsOwners(owners, sets, i)
    {
      owners := CountSet(sets, i, owners);
    }
  }

  lemma {:induction false} OwnersMeans(a: Analysis, sets: seq<set<ObjectID>>, n: nat, id: ObjectID)
    requires n <= |sets| == |a.goroutines|
    requires forall i :: 0 <= i < |sets| ==> sets[i] == Reach(a.graph, RootSet(a.goroutines[i].roots))
    ensures Owners(sets, n, id) > 0 <==> id in Reach(a.graph, RootsUpTo(a.goroutines, n, Everyone))
  {
    if n == 0 {
      NothingReached(a.graph);
    } else {
      OwnersMeans(a, sets, n - 1, id);
      ReachOfUnion(a.graph, RootsUpTo(a.goroutines, n - 1, Everyone), RootSet(a.goroutines[n - 1].roots));
    }
  }

  lemma NothingReached(g: Graph)
    ensures Reach(g, {}) == {}
  {
    ReachIsLeast(g, {}, {});
  }

  ghost function GoroutineReach(a: Analysis): set<ObjectID>
  {
    Reach(a.graph, Roots(a.goroutines, Everyone))
  }

  ghost function GoroutineSets(a: Analysis): seq<set<ObjectID>>
  {
    seq(|a.goroutines|, (i: int) requires 0 <= i < |a.goroutines| => Reach(a.graph, RootSet(a.goroutines[i].roots)))
  }

  // Objects of two or more goroutines.
  ghost function SharedReach(a: Analysis): set<ObjectID>
  {
    set id | id in GoroutineReach(a) && Owners(GoroutineSets(a), |a.goroutines|, id) > 1
  }

  // Objects that no root leads to.
  ghost function Unreached(a: Analysis): set<ObjectID>
  {
    Below(|a.graph.objects|) - (GoroutineReach(a) + GlobalReach(a))
  }

  datatype ReachStats = ReachStats(goroutines: nat, shared: nat, globals: nat, unreachable: nat)

  ghost function ReachStatsOf(a: Analysis): ReachStats
  {
    ReachStats(|GoroutineReach(a)|, |SharedReach(a)|, |GlobalReach(a)|, |Unreached(a)|)
  }

  lemma OwnersAreReached(a: Analysis, owners: map<ObjectID, nat>)
    requires CountsOwners(owners, GoroutineSets(a), |a.goroutines|)
    ensures owners.Keys == GoroutineReach(a) && SharedIn(owners, owners.Keys) == SharedReach(a)
  {
    forall id: ObjectID
      ensures id in owners <==> id in GoroutineReach(a)
    {
      OwnersMeans(a, GoroutineSets(a), |a.goroutines|, id);
    }
  }

  // The counters, from the sets. objectCount is Stats.Objects, which Build sets;
  // the clamp at zero is never needed.
  method CountReach(a: Analysis, objectCount: nat, sets: seq<set<ObjectID>>, globals: set<ObjectID>)
    returns (st: ReachStats)
    requires sets == GoroutineSets(a) && globals == GlobalReach(a) && objectCount == |a.graph.objects|
    ensures st == ReachStatsOf(a)
  {
    var owners := CountOwners(sets);
    OwnersAreReached(a, owners);
    var shared := CountShared(owners);
    var all := owners.Keys + globals;
    ReachedAreObjects(a.graph, Roots(a.goroutines, Everyone), RootSet(a.globals));
    var unreachable: int := objectCount - |all|;
    if unreachable < 0 {
      unreachable := 0;
    }
    assert |owners| == |owners.Keys|;
    st := ReachStats(|owners|, shared, |globals|, unreachable);
  }

  // The reach-derived part of an analysis, filled in place.
  class Process {
    const analysis: Analysis
    var reachable: seq<set<ObjectID>>
    var globalReachable: set<ObjectID>
    var stats: ReachStats

    constructor (a: Analysis)
      ensures analysis == a
    {
      analysis, reachable, globalReachable, stats := a, [], {}, ReachStats(0, 0, 0, 0);
    }

    // Every set is plain reachability, every counter the size of its set.
    ghost predicate Computed()
      reads this
    {
      && reachable == GoroutineSets(analysis)
      && globalReachable == GlobalReach(analysis)
      && stats == ReachStatsOf(analysis)
    }

    method WalkAll()
      modifies this
      ensures reachable == GoroutineSets(analysis) && globalReachable == GlobalReach(analysis)
    {
      reachable := [];
      for i := 0 to |analysis.goroutines|
        invariant reachable == GoroutineSets(analysis)[..i]
      {
        var s := ReachableFrom(analysis.graph, analysis.goroutines[i].roots);
        reachable := reachable + [s];
      }
      globalReachable := ReachableFrom(analysis.graph, analysis.globals);
    }

    // Whatever was there before; running it again therefore changes nothing.
    method ComputeReachability()
      modifies this
      ensures Computed()
      ensures old(Computed()) ==> reachable == old(reachable) && globalReachable == old(globalReachable) && stats == old(stats)
    {
      WalkAll();
      stats := CountReach(analysis, |analysis.graph.objects|, reachable, globalReachable);
    }
  }

  // Two walks never reach more objects than there are.
  lemma ReachedAreObjects(g: Graph, a: set<ObjectID>, b: set<ObjectID>)
    ensures |Reach(g, a) + Reach(g, b)| <= |g.objects|
    ensures |g.objects| - |Reach(g, a) + Reach(g, b)| == |Below(|g.objects|) - (Reach(g, a) + Reach(g, b))|
  {
    var all, ids := Reach(g, a) + Reach(g, b), Below(|g.objects|);
    assert all <= ids;
    SubsetCount(all, ids);
    assert |ids - all| == |ids| - |all|;
  }
}
