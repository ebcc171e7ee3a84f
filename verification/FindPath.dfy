// FindPath (internal/snapshotgraph/path.go): a multi-root breadth-first search
// with a visit budget that reconstructs one witness path.
module FindPath {
  import opened Graphs
  import opened Search
  import opened Reachability

  datatype Witness = Witness(
    found: bool,
    searchLimited: bool,
    rootIndex: int,
    objects: seq<ObjectID>,
    references: seq<Reference>)

  datatype Predecessor = Predecessor(parent: ObjectID, root: nat, hasParent: bool)

  function Project(p: Pred): Predecessor
  {
    Predecessor(p.parent, p.root, p.depth > 1)
  }

  // The search's variables. seen is keyed by object, queue keeps what was taken.
  datatype Progress = Progress(seen: map<ObjectID, Predecessor>, queue: seq<ObjectID>, limited: bool)

  // How many entries of the unlimited search u the budget admits.
  ghost function Admitted(u: State, maxVisited: int): nat
  {
    if 0 < maxVisited < |u.order| then maxVisited else |u.order|
  }

  // The budgeted search against the unlimited search at the same point: it holds
  // the entries that fit, and knows whether anything was turned away.
  ghost function Cut(u: State, maxVisited: int): Progress
  {
    var n := Admitted(u, maxVisited);
    Progress(map id | id in u.pred && u.pred[id].index < n :: Project(u.pred[id]), u.order[..n], n < |u.order|)
  }

  lemma CutCount(g: Graph, u: State, maxVisited: int)
    requires Consistent(g, u)
    ensures |Cut(u, maxVisited).seen| == Admitted(u, maxVisited)
  {
    var n := Admitted(u, maxVisited);
    var q := u.order[..n];
    DistinctCount(q);
    assert forall i :: 0 <= i < n ==> q[i] == u.order[i];
    forall id
      ensures id in Cut(u, maxVisited).seen <==> id in q
    {
      if id in Cut(u, maxVisited).seen {
        assert q[u.pred[id].index] == id;
      }
    }
    assert Cut(u, maxVisited).seen.Keys == Elements(q);
  }

  lemma CutSame(g: Graph, u: State, maxVisited: int, id: ObjectID, q: Pred)
    requires Consistent(g, u) && g.ValidID(id) && id !in u.pred && Cut(u, maxVisited).limited
    ensures Cut(Add(g, u, id, q), maxVisited) == Cut(u, maxVisited)
  {
    var v := Add(g, u, id, q);
    assert Cut(v, maxVisited).queue == Cut(u, maxVisited).queue;
    assert Cut(v, maxVisited).seen == Cut(u, maxVisited).seen;
  }

  lemma CutFull(g: Graph, u: State, maxVisited: int, id: ObjectID, q: Pred)
    requires Consistent(g, u) && g.ValidID(id) && id !in u.pred && 0 < maxVisited == |u.order|
    ensures Cut(Add(g, u, id, q), maxVisited) == Cut(u, maxVisited).(limited := true)
  {
    var v := Add(g, u, id, q);
    assert Cut(v, maxVisited).queue == Cut(u, maxVisited).queue;
    assert Cut(v, maxVisited).seen == Cut(u, maxVisited).seen;
  }

  lemma CutGrows(g: Graph, u: State, maxVisited: int, id: ObjectID, q: Pred)
    requires Consistent(g, u) && g.ValidID(id) && id !in u.pred
    requires maxVisited > 0 ==> |u.order| < maxVisited
    ensures var b := Cut(u, maxVisited);
      Cut(Add(g, u, id, q), maxVisited) == Progress(b.seen[id := Project(q)], b.queue + [id], b.limited)
  {
    var v, b := Add(g, u, id, q), Cut(u, maxVisited);
    assert Cut(v, maxVisited).queue == b.queue + [id];
    assert Cut(v, maxVisited).seen == b.seen[id := Project(q)];
  }

  // The add closure.
  method Offer(g: Graph, id: ObjectID, p: Predecessor, maxVisited: int, b0: Progress, ghost u: State, ghost q: Pred)
    returns (b: Progress)
    requires Consistent(g, u) && b0 == Cut(u, maxVisited) && p == Project(q)
    ensures b == Cut(Add(g, u, id, q), maxVisited)
  {
    b := b0;
    if !g.ValidID(id) {
      return;
    }
    if id in b.seen {
      return;
    }
    CutCount(g, u, maxVisited);
    if maxVisited > 0 && |b.seen| >= maxVisited {
      if id !in u.pred && !b.limited {
        CutFull(g, u, maxVisited, id, q);
      } else if id !in u.pred {
        CutSame(g, u, maxVisited, id, q);
      }
      b := b.(limited := true);
      return;
    }
    CutGrows(g, u, maxVisited, id, q);
    b := Progress(b.seen[id := p], b.queue + [id], b.limited);
  }

  // The first retained slot of slots that targets to.
  function FirstSlot(slots: seq<Reference>, to: ObjectID): (r: Reference)
    ensures r.target == to
    ensures (exists i :: 0 <= i < |slots| && slots[i].target == to) ==> r in slots
  {
    if |slots| == 0 then Reference(to, 0, 0, false)
    else if slots[0].target == to then slots[0]
    else FirstSlot(slots[1..], to)
  }

  function SlotsOf(g: Graph, id: ObjectID): seq<Reference>
  {
    if id < |g.references| then g.references[id] else []
  }

  // What the search admits within the budget.
  ghost predicate WithinBudget(t: State, id: ObjectID, maxVisited: int)
  {
    id in t.pred && (maxVisited > 0 ==> t.pred[id].index < maxVisited)
  }

  // A witness for target: a shortest path from the root it names, each object
  // once, with the first retained slot of every transition. Ties are broken by
  // the order of the search.
  ghost predicate IsWitness(g: Graph, roots: seq<RootRef>, target: ObjectID, w: Witness)
  {
    IsWitnessIn(g, roots, target, w, Bfs(g, RootIDs(roots)))
  }

  ghost predicate IsWitnessIn(g: Graph, roots: seq<RootRef>, target: ObjectID, w: Witness, t: State)
  {
    var ids := RootIDs(roots);
    && 0 <= w.rootIndex < |roots|
    && IsShortest(g, RootSet(roots), w.objects, target)
    && w.objects[0] == roots[w.rootIndex].objectID
    && (forall i, j :: 0 <= i < j < |w.objects| ==> w.objects[i] != w.objects[j])
    && Sound(g, ids, t) && target in t.pred
    && w.objects == Chain(g, ids, t, target) && w.rootIndex == t.pred[target].root
    && |w.references| == |w.objects| - 1
    && (forall i :: 0 <= i < |w.references| ==> w.references[i] == FirstSlot(SlotsOf(g, w.objects[i]), w.objects[i + 1]))
  }

  method OfferChildren(g: Graph, id: ObjectID, maxVisited: int, b0: Progress, ghost u0: State)
    returns (b: Progress, ghost u: State)
    requires Consistent(g, u0) && b0 == Cut(u0, maxVisited)
    requires id in b0.seen && u0.pred[id].depth >= 1
    ensures Consistent(g, u) && b == Cut(u, maxVisited)
    ensures u == AddChildren(g, id, u0.pred[id], 0, u0)
  {
    b, u := b0, u0;
    var children := g.Children(id);
    for i := 0 to |children|
      invariant Consistent(g, u) && b == Cut(u, maxVisited)
      invariant id in b.seen && b.seen[id] == Project(u0.pred[id])
      invariant AddChildren(g, id, u0.pred[id], i, u) == AddChildren(g, id, u0.pred[id], 0, u0)
    {
      ghost var q := ChildPred(id, u0.pred[id]);
      ghost var v := Add(g, u, children[i], q);
      StaysSeen(g, u, v, maxVisited, id);
      b := Offer(g, children[i], Predecessor(id, b.seen[id].root, true), maxVisited, b, u, q);
      u := v;
    }
  }

  lemma StaysSeen(g: Graph, u: State, v: State, maxVisited: int, id: ObjectID)
    requires Consistent(g, u) && Consistent(g, v) && Extends(u, v) && id in Cut(u, maxVisited).seen
    ensures id in Cut(v, maxVisited).seen && Cut(v, maxVisited).seen[id] == Cut(u, maxVisited).seen[id]
  {}

  // seen leads from the end of path back to its start.
  ghost predicate Recorded(seen: map<ObjectID, Predecessor>, path: seq<ObjectID>)
  {
    && (forall j :: 0 <= j < |path| ==> path[j] in seen && (seen[path[j]].hasParent <==> j > 0))
    && (forall j :: 0 < j < |path| ==> seen[path[j]].parent == path[j - 1])
  }

  // Follows the predecessors from target to its root, then turns the list round.
  method Reconstruct(seen: map<ObjectID, Predecessor>, target: ObjectID, ghost path: seq<ObjectID>)
    returns (objects: seq<ObjectID>)
    requires EndsAt(path, target)
    requires Recorded(seen, path)
    ensures objects == path
  {
    objects := [];
    var id := target;
    ghost var n := |path|;
    while true
      invariant |objects| < n && id == path[n - 1 - |objects|]
      invariant forall k :: 0 <= k < |objects| ==> objects[k] == path[n - 1 - k]
      decreases n - |objects|
    {
      objects := objects + [id];
      var p := seen[id];
      if !p.hasParent {
        break;
      }
      id := p.parent;
    }
    assert |objects| == n;
    var i, j := 0, |objects| - 1;
    while i < j
      invariant 0 <= i <= j + 1 && i + j == n - 1 && |objects| == n
      invariant forall k :: 0 <= k < i || j < k < n ==> objects[k] == path[k]
      invariant forall k {:trigger objects[k]} :: i <= k <= j ==> objects[k] == path[n - 1 - k]
    {
      assert n - 1 - i == j;
      var x, y := objects[i], objects[j];
      assert x == path[j] && y == path[i];
      objects := objects[i := y];
      objects := objects[j := x];
      i, j := i + 1, j - 1;
    }
    assert forall k :: 0 <= k < n ==> objects[k] == path[k];
  }

  method TransitionSlots(g: Graph, objects: seq<ObjectID>) returns (references: seq<Reference>)
    requires |objects| > 0
    ensures |references| == |objects| - 1
    ensures forall i :: 0 <= i < |references| ==> references[i] == FirstSlot(SlotsOf(g, objects[i]), objects[i + 1])
  {
    references := [];
    var i := 0;
    while i + 1 < |objects|
      invariant i == |references| <= |objects| - 1
      invariant forall k :: 0 <= k < i ==> references[k] == FirstSlot(SlotsOf(g, objects[k]), objects[k + 1])
    {
      var from, to := objects[i], objects[i + 1];
      var ref := Reference(to, 0, 0, false);
      if from < |g.references| {
        var slots := g.references[from];
        for k := 0 to |slots|
          invariant ref == Reference(to, 0, 0, false)
          invariant FirstSlot(slots, to) == FirstSlot(slots[k..], to)
        {
          if slots[k].target == to {
            ref := slots[k];
            break;
          }
        }
      }
      references := references + [ref];
      i := i + 1;
    }
  }

  // What the whole search t records early enough is recorded within the budget.
  lemma EarlyIsSeen(g: Graph, u: State, t: State, maxVisited: int, x: ObjectID)
    requires Consistent(g, u) && Consistent(g, t) && Extends(u, t)
    requires x in t.pred && t.pred[x].index < Admitted(u, maxVisited)
    ensures x in Cut(u, maxVisited).seen && Cut(u, maxVisited).seen[x] == Project(t.pred[x])
    ensures Cut(u, maxVisited).queue[t.pred[x].index] == x
  {
    var k := t.pred[x].index;
    assert u.order[k] == t.order[k] == x;
    assert u.order[k] in u.pred && u.pred[u.order[k]].index == k;
  }

  // At the moment queue entry head is taken, the whole chain to it is recorded.
  lemma {:induction false} ChainInSeen(g: Graph, ids: seq<ObjectID>, t: State, u: State, maxVisited: int, head: nat)
    requires Consistent(g, u) && Consistent(g, t) && Extends(u, t) && head < Admitted(u, maxVisited)
    requires Sound(g, ids, t)
    ensures u.order[head] in t.pred
    ensures u.order[head] in Cut(u, maxVisited).seen
    ensures Cut(u, maxVisited).seen[u.order[head]].root == t.pred[u.order[head]].root
    ensures Recorded(Cut(u, maxVisited).seen, Chain(g, ids, t, u.order[head]))
    ensures EndsAt(Chain(g, ids, t, u.order[head]), u.order[head])
  {
    var id := u.order[head];
    assert id in u.pred && u.pred[id].index == head;
    assert t.pred[id] == u.pred[id];
    EarlyIsSeen(g, u, t, maxVisited, id);
    ChainShape(g, ids, t, id);
    ChainEnteredEarlier(g, ids, t, id);
    ChainRecorded(g, u, t, maxVisited, id, Chain(g, ids, t, id));
  }

  ghost predicate EndsAt(path: seq<ObjectID>, id: ObjectID)
  {
    |path| > 0 && path[|path| - 1] == id
  }

  lemma ChainRecorded(g: Graph, u: State, t: State, maxVisited: int, id: ObjectID, path: seq<ObjectID>)
    requires Consistent(g, u) && Consistent(g, t) && Extends(u, t)
    requires id in t.pred && t.pred[id].index < Admitted(u, maxVisited)
    requires forall j :: 0 <= j < |path| ==> path[j] in t.pred && t.pred[path[j]].depth == j + 1
    requires forall j :: 0 <= j < |path| ==> t.pred[path[j]].index <= t.pred[id].index
    requires forall j :: 0 < j < |path| ==> t.pred[path[j]].parent == path[j - 1]
    ensures Recorded(Cut(u, maxVisited).seen, path)
  {
    forall j | 0 <= j < |path|
      ensures path[j] in Cut(u, maxVisited).seen && Cut(u, maxVisited).seen[path[j]] == Project(t.pred[path[j]])
    {
      EarlyIsSeen(g, u, t, maxVisited, path[j]);
    }
  }

  lemma ChainIsWitness(g: Graph, roots: seq<RootRef>, target: ObjectID, w: Witness, t: State)
    requires IsSearch(g, RootIDs(roots), t) && target in t.pred
    requires w.objects == Chain(g, RootIDs(roots), t, target) && w.rootIndex == t.pred[target].root
    requires |w.references| == |w.objects| - 1
    requires forall i :: 0 <= i < |w.references| ==> w.references[i] == FirstSlot(SlotsOf(g, w.objects[i]), w.objects[i + 1])
    ensures IsWitnessIn(g, roots, target, w, t)
  {
    ChainIsPath(g, RootIDs(roots), t, target);
    RootIDsSet(roots);
  }

  method OfferRoots(g: Graph, roots: seq<RootRef>, maxVisited: int) returns (b: Progress, ghost u: State)
    ensures Consistent(g, u) && b == Cut(u, maxVisited)
    ensures u == AddRoots(g, RootIDs(roots), 0, START)
  {
    ghost var ids := RootIDs(roots);
    b, u := Progress(map[], [], false), START;
    ghost var all := AddRoots(g, ids, 0, START);
    for i := 0 to |roots|
      invariant Consistent(g, u) && b == Cut(u, maxVisited)
      invariant AddRoots(g, ids, i, u) == all
    {
      ghost var q := Pred(0, i, 1, 0);
      b := Offer(g, roots[i].objectID, Predecessor(0, i, false), maxVisited, b, u, q);
      u := Add(g, u, ids[i], q);
    }
  }

  lemma MissedSoFar(u: State, v: State, maxVisited: int, head: nat, target: ObjectID)
    requires Extends(u, v) && head < |Cut(u, maxVisited).queue|
    requires target !in Cut(u, maxVisited).queue[..head] && u.order[head] != target
    ensures head < |Cut(v, maxVisited).queue|
    ensures target !in Cut(v, maxVisited).queue[..head + 1]
  {
    assert Cut(v, maxVisited).queue[..head + 1] == Cut(u, maxVisited).queue[..head] + [u.order[head]];
  }

  lemma TakenFacts(g: Graph, ids: seq<ObjectID>, t: State, u: State, maxVisited: int, head: nat)
    requires Consistent(g, u) && head < |Cut(u, maxVisited).queue|
    requires Leads(g, u, head, t) && Sound(g, ids, t)
    ensures |u.order| <= |g.objects|
    ensures var id := u.order[head];
      && id in Cut(u, maxVisited).seen && u.pred[id].depth >= 1
      && Leads(g, AddChildren(g, id, u.pred[id], 0, u), head + 1, t)
  {
    LeadsTo(g, u, head, t);
    LeadsNext(g, u, head, t);
    assert SoundAt(g, ids, t, u.order[head]);
  }

  // One queue entry that is not the target: the loop body.
  method TakeNext(g: Graph, target: ObjectID, maxVisited: int, b0: Progress, head: nat,
                  ghost ids: seq<ObjectID>, ghost u0: State, ghost t: State) returns (b: Progress, ghost u: State)
    requires Consistent(g, u0) && b0 == Cut(u0, maxVisited) && head < |b0.queue|
    requires Leads(g, u0, head, t) && Sound(g, ids, t)
    requires target !in b0.queue[..head] && b0.queue[head] != target
    ensures Consistent(g, u) && b == Cut(u, maxVisited) && head < |g.objects|
    ensures head < |b.queue| && Leads(g, u, head + 1, t)
    ensures target !in b.queue[..head + 1]
  {
    TakenFacts(g, ids, t, u0, maxVisited, head);
    ghost var v := AddChildren(g, u0.order[head], u0.pred[u0.order[head]], 0, u0);
    MissedSoFar(u0, v, maxVisited, head, target);
    b, u := OfferChildren(g, b0.queue[head], maxVisited, b0, u0);
  }

  // The search loop: stops at target or when the queue is exhausted.
  method Run(g: Graph, roots: seq<RootRef>, target: ObjectID, maxVisited: int, ghost t: State)
    returns (hit: bool, b: Progress, ghost u: State, head: nat)
    requires Leads(g, AddRoots(g, RootIDs(roots), 0, START), 0, t) && Sound(g, RootIDs(roots), t)
    ensures Consistent(g, u) && b == Cut(u, maxVisited)
    ensures head <= |b.queue| && Leads(g, u, head, t)
    ensures hit ==> head < |b.queue| && b.queue[head] == target
    ensures !hit ==> head == |b.queue| && target !in b.queue
  {
    b, u := OfferRoots(g, roots, maxVisited);
    ghost var ids := RootIDs(roots);
    hit, head := false, 0;
    while head < |b.queue|
      invariant Consistent(g, u) && b == Cut(u, maxVisited)
      invariant head <= |b.queue| && Leads(g, u, head, t)
      invariant target !in b.queue[..head]
      decreases |g.objects| - head
    {
      if b.queue[head] == target {
        hit := true;
        return;
      }
      b, u := TakeNext(g, target, maxVisited, b, head, ids, u, t);
      head := head + 1;
    }
    assert b.queue[..head] == b.queue;
  }

  lemma MissFor(g: Graph, u: State, t: State, target: ObjectID, maxVisited: int)
    requires Consistent(g, u) && Consistent(g, t) && Extends(u, t)
    requires Admitted(u, maxVisited) == |u.order| ==> t == u
    requires target !in Cut(u, maxVisited).queue
    ensures !WithinBudget(t, target, maxVisited)
    ensures Cut(u, maxVisited).limited <==> 0 < maxVisited < |t.order|
  {
    if WithinBudget(t, target, maxVisited) {
      EarlyIsSeen(g, u, t, maxVisited, target);
    }
  }

  lemma ReachSize(g: Graph, roots: seq<RootRef>)
    ensures |Bfs(g, RootIDs(roots)).order| == |Reach(g, RootSet(roots))|
    ensures Bfs(g, RootIDs(roots)).pred.Keys == Reach(g, RootSet(roots))
  {
    BfsIsReach(g, RootIDs(roots));
    RootIDsSet(roots);
    OrderCount(g, Bfs(g, RootIDs(roots)));
  }

  // The search for a valid target, against the finished unlimited search t.
  method FindIn(g: Graph, roots: seq<RootRef>, target: ObjectID, maxVisited: int, ghost t: State) returns (w: Witness)
    requires IsSearch(g, RootIDs(roots), t) && Leads(g, AddRoots(g, RootIDs(roots), 0, START), 0, t)
    ensures w.found <==> WithinBudget(t, target, maxVisited)
    ensures w.searchLimited <==> !w.found && 0 < maxVisited < |t.order|
    ensures w.found ==> IsWitnessIn(g, roots, target, w, t)
    ensures !w.found ==> w.rootIndex == -1 && w.objects == [] && w.references == []
  {
    w := Witness(false, false, -1, [], []);
    ghost var ids := RootIDs(roots);
    var hit, b, u, head := Run(g, roots, target, maxVisited, t);
    LeadsTo(g, u, head, t);
    if hit {
      ChainInSeen(g, ids, t, u, maxVisited, head);
      var objects := Reconstruct(b.seen, target, Chain(g, ids, t, target));
      var references := TransitionSlots(g, objects);
      w := Witness(true, false, b.seen[target].root, objects, references);
      ChainIsWitness(g, roots, target, w, t);
    } else {
      MissFor(g, u, t, target, maxVisited);
      w := w.(searchLimited := b.limited);
    }
  }

  // Found exactly when the target lies within the budget of the unlimited
  // search; a found witness is a shortest path whatever the budget; the search
  // is reported as limited exactly when the budget turned something away.
  method Find(g: Graph, roots: seq<RootRef>, target: ObjectID, maxVisited: int) returns (w: Witness)
    ensures w.found <==> WithinBudget(Bfs(g, RootIDs(roots)), target, maxVisited)
    ensures w.searchLimited <==> !w.found && g.ValidID(target) && 0 < maxVisited < |Reach(g, RootSet(roots))|
    ensures w.found ==> IsWitness(g, roots, target, w)
    ensures !w.found ==> w.rootIndex == -1 && w.objects == [] && w.references == []
  {
    if !g.ValidID(target) {
      return Witness(false, false, -1, [], []);
    }
    ghost var ids := RootIDs(roots);
    BfsIsSearch(g, ids);
    ReachSize(g, roots);
    w := FindIn(g, roots, target, maxVisited, Bfs(g, ids));
  }

  // Consequences for callers. Without a budget the answer is plain reachability.
  lemma UnlimitedMeansReachable(g: Graph, roots: seq<RootRef>, target: ObjectID, maxVisited: int)
    requires maxVisited <= 0
    ensures WithinBudget(Bfs(g, RootIDs(roots)), target, maxVisited) <==> target in Reach(g, RootSet(roots))
  {
    ReachSize(g, roots);
  }

  // "Not found" proves absence exactly when the search was not limited.
  lemma NotLimitedMeansAbsent(g: Graph, roots: seq<RootRef>, target: ObjectID, maxVisited: int)
    requires !WithinBudget(Bfs(g, RootIDs(roots)), target, maxVisited)
    requires !(g.ValidID(target) && 0 < maxVisited < |Reach(g, RootSet(roots))|)
    ensures target !in Reach(g, RootSet(roots))
  {
    ReachSize(g, roots);
  }
}
