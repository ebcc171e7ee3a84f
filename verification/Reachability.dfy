// The set-valued traversals: ReachableFrom (internal/snapshotgraph/reachability.go)
// and Snapshot.walk (internal/memusage/multibubble.go).
module Reachability {
  import opened Graphs
  import opened Search

  ghost function RootIDs(roots: seq<RootRef>): (ids: seq<ObjectID>)
    ensures |ids| == |roots| && forall i :: 0 <= i < |roots| ==> ids[i] == roots[i].objectID
  {
    if |roots| == 0 then []
    else RootIDs(roots[..|roots| - 1]) + [roots[|roots| - 1].objectID]
  }

  lemma RootIDsSet(roots: seq<RootRef>)
    ensures Elements(RootIDs(roots)) == RootSet(roots)
  {
    forall r | r in RootSet(roots)
      ensures r in RootIDs(roots)
    {
      var k :| 0 <= k < |roots| && roots[k].objectID == r;
      assert RootIDs(roots)[k] == r;
    }
  }

  method OfferRoots(g: Graph, roots: seq<RootRef>) returns (reachable: set<ObjectID>, queue: seq<ObjectID>, ghost s: State)
    ensures Consistent(g, s) && reachable == s.pred.Keys && queue == s.order
    ensures s == AddRoots(g, RootIDs(roots), 0, START)
  {
    reachable, queue, s := {}, [], START;
    ghost var ids := RootIDs(roots);
    ghost var all := AddRoots(g, ids, 0, START);
    for i := 0 to |roots|
      invariant Consistent(g, s) && reachable == s.pred.Keys && queue == s.order
      invariant AddRoots(g, ids, i, s) == all
    {
      var id := roots[i].objectID;
      s := Add(g, s, id, Pred(0, i, 1, 0));
      if !g.ValidID(id) {
        continue;
      }
      if id in reachable {
        continue;
      }
      reachable := reachable + {id};
      queue := queue + [id];
    }
  }

  method Drain(g: Graph, reachable0: set<ObjectID>, queue0: seq<ObjectID>, ghost s0: State, ghost t: State)
    returns (reachable: set<ObjectID>)
    requires Consistent(g, s0) && reachable0 == s0.pred.Keys && queue0 == s0.order && Leads(g, s0, 0, t)
    ensures reachable == t.pred.Keys
  {
    reachable := reachable0;
    var queue, head := queue0, 0;
    ghost var s := s0;
    while head < |queue|
      invariant Consistent(g, s) && reachable == s.pred.Keys && queue == s.order
      invariant head <= |queue| && Leads(g, s, head, t)
      decreases |g.objects| - head
    {
      LeadsNext(g, s, head, t);
      reachable, queue, s := OfferChildren(g, queue[head], reachable, queue, s);
      head := head + 1;
    }
    LeadsTo(g, s, head, t);
  }

  // The objects reachable from the roots, whatever cycles and invalid IDs the
  // graph holds.
  method ReachableFrom(g: Graph, roots: seq<RootRef>) returns (reachable: set<ObjectID>)
    ensures reachable == Reach(g, RootSet(roots))
  {
    var seen, queue, s := OfferRoots(g, roots);
    reachable := Drain(g, seen, queue, s, Bfs(g, RootIDs(roots)));
    BfsIsReach(g, RootIDs(roots));
    RootIDsSet(roots);
  }

  method OfferChildren(g: Graph, id: ObjectID, reachable0: set<ObjectID>, queue0: seq<ObjectID>, ghost s0: State)
    returns (reachable: set<ObjectID>, queue: seq<ObjectID>, ghost s: State)
    requires Consistent(g, s0) && reachable0 == s0.pred.Keys && queue0 == s0.order && id in s0.pred
    ensures s == AddChildren(g, id, s0.pred[id], 0, s0)
    ensures reachable == s.pred.Keys && queue == s.order
  {
    reachable, queue, s := reachable0, queue0, s0;
    var children := g.Children(id);
    for i := 0 to |children|
      invariant Consistent(g, s) && reachable == s.pred.Keys && queue == s.order
      invariant AddChildren(g, id, s0.pred[id], i, s) == AddChildren(g, id, s0.pred[id], 0, s0)
    {
      var child := children[i];
      s := Add(g, s, child, ChildPred(id, s0.pred[id]));
      if !g.ValidID(child) {
        continue;
      }
      if child in reachable {
        continue;
      }
      reachable := reachable + {child};
      queue := queue + [child];
    }
  }

  // ---- Snapshot.walk ----

  // The add closure: seen and queue grow by a valid object not met before.
  method Offer(g: Graph, id: ObjectID, seen0: set<ObjectID>, queue0: seq<ObjectID>, ghost s: State, ghost p: Pred)
    returns (seen: set<ObjectID>, queue: seq<ObjectID>)
    requires Consistent(g, s) && seen0 == s.pred.Keys && queue0 == s.order
    ensures seen == Add(g, s, id, p).pred.Keys && queue == Add(g, s, id, p).order
  {
    seen, queue := seen0, queue0;
    if id >= |g.objects| {
      return;
    }
    if id !in seen {
      seen := seen + {id};
      queue := queue + [id];
    }
  }

  method WalkRoots(g: Graph, roots: seq<RootRef>) returns (seen: set<ObjectID>, queue: seq<ObjectID>, ghost s: State)
    ensures Consistent(g, s) && seen == s.pred.Keys && queue == s.order
    ensures s == AddRoots(g, RootIDs(roots), 0, START)
  {
    seen, queue, s := {}, [], START;
    ghost var ids := RootIDs(roots);
    ghost var all := AddRoots(g, ids, 0, START);
    for i := 0 to |roots|
      invariant Consistent(g, s) && seen == s.pred.Keys && queue == s.order
      invariant AddRoots(g, ids, i, s) == all
    {
      seen, queue := Offer(g, roots[i].objectID, seen, queue, s, Pred(0, i, 1, 0));
      s := Add(g, s, ids[i], Pred(0, i, 1, 0));
    }
  }

  method WalkChildren(g: Graph, id: ObjectID, seen0: set<ObjectID>, queue0: seq<ObjectID>, ghost s0: State)
    returns (seen: set<ObjectID>, queue: seq<ObjectID>, ghost s: State)
    requires Consistent(g, s0) && seen0 == s0.pred.Keys && queue0 == s0.order && id in s0.pred
    ensures s == AddChildren(g, id, s0.pred[id], 0, s0)
    ensures seen == s.pred.Keys && queue == s.order
  {
    seen, queue, s := seen0, queue0, s0;
    var children := g.Children(id);
    for i := 0 to |children|
      invariant Consistent(g, s) && seen == s.pred.Keys && queue == s.order
      invariant AddChildren(g, id, s0.pred[id], i, s) == AddChildren(g, id, s0.pred[id], 0, s0)
    {
      seen, queue := Offer(g, children[i], seen, queue, s, ChildPred(id, s0.pred[id]));
      s := Add(g, s, children[i], ChildPred(id, s0.pred[id]));
    }
  }

  method WalkQueue(g: Graph, seen0: set<ObjectID>, queue0: seq<ObjectID>, ghost s0: State, ghost t: State)
    returns (seen: set<ObjectID>)
    requires Consistent(g, s0) && seen0 == s0.pred.Keys && queue0 == s0.order && Leads(g, s0, 0, t)
    ensures seen == t.pred.Keys
  {
    seen := seen0;
    var queue, head := queue0, 0;
    ghost var s := s0;
    while head < |queue|
      invariant Consistent(g, s) && seen == s.pred.Keys && queue == s.order
      invariant head <= |queue| && Leads(g, s, head, t)
      decreases |g.objects| - head
    {
      LeadsNext(g, s, head, t);
      seen, queue, s := WalkChildren(g, queue[head], seen, queue, s);
      head := head + 1;
    }
    LeadsTo(g, s, head, t);
  }

  // The walk of the inspection session computes the same set as ReachableFrom.
  method Walk(g: Graph, roots: seq<RootRef>) returns (seen: set<ObjectID>)
    ensures seen == Reach(g, RootSet(roots))
  {
    var first, queue, s := WalkRoots(g, roots);
    seen := WalkQueue(g, first, queue, s, Bfs(g, RootIDs(roots)));
    BfsIsReach(g, RootIDs(roots));
    RootIDsSet(roots);
  }
}
