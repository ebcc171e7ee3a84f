// Breadth-first search with predecessors, as a function: the one traversal that
// FindPath and buildExportForest both refine. What it means is proved here once.
module Search {
  import opened Graphs

  // depth counts objects on the path from the root: 1 for a root. index is the
  // object's place in the queue.
  datatype Pred = Pred(parent: ObjectID, root: nat, depth: nat, index: nat)

  // order is the queue with nothing removed; pred is what was recorded when an
  // object entered it.
  datatype State = State(order: seq<ObjectID>, pred: map<ObjectID, Pred>)

  const START := State([], map[])

  ghost predicate Consistent(g: Graph, s: State)
  {
    && (forall i :: 0 <= i < |s.order| ==> s.order[i] in s.pred && s.pred[s.order[i]].index == i)
    && (forall id :: id in s.pred ==> g.ValidID(id) && s.pred[id].index < |s.order| && s.order[s.pred[id].index] == id)
  }

  // t is a later state of the search than s.
  ghost predicate Extends(s: State, t: State)
  {
    && s.order <= t.order
    && (forall id :: id in s.pred ==> id in t.pred && t.pred[id] == s.pred[id])
  }

  ghost function Add(g: Graph, s: State, id: ObjectID, p: Pred): (t: State)
    ensures Extends(s, t)
    ensures Consistent(g, s) ==> Consistent(g, t)
  {
    if !g.ValidID(id) || id in s.pred then s
    else State(s.order + [id], s.pred[id := p.(index := |s.order|)])
  }

  ghost function AddRoots(g: Graph, roots: seq<ObjectID>, i: nat, s: State): (t: State)
    requires i <= |roots|
    ensures Extends(s, t)
    ensures Consistent(g, s) ==> Consistent(g, t)
    decreases |roots| - i
  {
    if i == |roots| then s
    else AddRoots(g, roots, i + 1, Add(g, s, roots[i], Pred(0, i, 1, 0)))
  }

  ghost function ChildPred(id: ObjectID, node: Pred): Pred
  {
    Pred(id, node.root, node.depth + 1, 0)
  }

  // Offers children[ci..] of id, whose own record is node, to the search.
  ghost function AddChildren(g: Graph, id: ObjectID, node: Pred, ci: nat, s: State): (t: State)
    requires g.ValidID(id) && ci <= |g.Children(id)|
    ensures Extends(s, t)
    ensures Consistent(g, s) ==> Consistent(g, t)
    decreases |g.Children(id)| - ci
  {
    if ci == |g.Children(id)| then s
    else AddChildren(g, id, node, ci + 1, Add(g, s, g.Children(id)[ci], ChildPred(id, node)))
  }

  ghost function Below(n: nat): (ids: set<ObjectID>)
    ensures forall x :: x in ids <==> 0 <= x < n
    ensures |ids| == n
  {
    if n == 0 then {} else Below(n - 1) + {n - 1}
  }

  ghost function Elements<T>(q: seq<T>): set<T>
  {
    set x | x in q
  }

  lemma {:induction false} DistinctCount<T>(q: seq<T>)
    requires forall i, j :: 0 <= i < j < |q| ==> q[i] != q[j]
    ensures |Elements(q)| == |q|
  {
    if |q| > 0 {
      var last := |q| - 1;
      DistinctCount(q[..last]);
      assert Elements(q) == Elements(q[..last]) + {q[last]};
    }
  }

  lemma DistinctBound(order: seq<ObjectID>, n: nat)
    requires forall i :: 0 <= i < |order| ==> order[i] < n
    requires forall i, j :: 0 <= i < j < |order| ==> order[i] != order[j]
    ensures |order| <= n
  {
    DistinctCount(order);
    SubsetCount(Elements(order), Below(n));
  }

  lemma SubsetCount<T>(a: set<T>, b: set<T>)
    requires a <= b
    ensures |a| <= |b|
  {
    assert b == a + (b - a);
  }

  lemma OrderBound(g: Graph, s: State)
    requires Consistent(g, s)
    ensures |s.order| <= |g.objects|
  {
    DistinctBound(s.order, |g.objects|);
  }

  // Processes queue entry head.
  ghost function Visit(g: Graph, s: State, head: nat): (t: State)
    requires Consistent(g, s) && head < |s.order|
    ensures Consistent(g, t) && Extends(s, t)
  {
    AddChildren(g, s.order[head], s.pred[s.order[head]], 0, s)
  }

  ghost function Explore(g: Graph, s: State, head: nat): (t: State)
    requires Consistent(g, s) && head <= |s.order|
    ensures Consistent(g, t) && Extends(s, t)
    decreases |g.objects| - head
  {
    if head == |s.order| then s
    else
      OrderBound(g, s);
      Explore(g, Visit(g, s, head), head + 1)
  }

  ghost predicate InQueue(g: Graph, s: State, head: nat)
  {
    Consistent(g, s) && head <= |s.order|
  }

  // The search that stands at head of s ends in t. The quantifier keeps the
  // recursion folded until a lemma asks for it.
  ghost predicate Leads(g: Graph, s: State, head: nat, t: State)
  {
    forall h: nat {:trigger InQueue(g, s, h)} :: h == head && InQueue(g, s, h) ==> Explore(g, s, h) == t
  }

  lemma LeadsFrom(g: Graph, s: State, head: nat, t: State)
    requires Consistent(g, s) && head <= |s.order| && Explore(g, s, head) == t
    ensures Leads(g, s, head, t)
  {}

  lemma ExploreFrom(g: Graph, s: State, head: nat, t: State)
    requires Consistent(g, s) && head <= |s.order| && Leads(g, s, head, t)
    ensures Explore(g, s, head) == t
  {
    assert InQueue(g, s, head);
  }

  lemma VisitIs(g: Graph, s: State, head: nat)
    requires Consistent(g, s) && head < |s.order|
    ensures Explore(g, s, head) == Explore(g, AddChildren(g, s.order[head], s.pred[s.order[head]], 0, s), head + 1)
  {}

  lemma LeadsNext(g: Graph, s: State, head: nat, t: State)
    requires Consistent(g, s) && head < |s.order| && Leads(g, s, head, t)
    ensures |s.order| <= |g.objects|
    ensures Leads(g, AddChildren(g, s.order[head], s.pred[s.order[head]], 0, s), head + 1, t)
  {
    OrderBound(g, s);
    ExploreFrom(g, s, head, t);
    VisitIs(g, s, head);
    LeadsFrom(g, AddChildren(g, s.order[head], s.pred[s.order[head]], 0, s), head + 1, t);
  }

  lemma LeadsTo(g: Graph, s: State, head: nat, t: State)
    requires Consistent(g, s) && head <= |s.order| && Leads(g, s, head, t)
    ensures Consistent(g, t) && Extends(s, t)
    ensures head == |s.order| ==> s == t
  {
    ExploreFrom(g, s, head, t);
  }

  // The whole search: the state it ends in.
  ghost function Bfs(g: Graph, roots: seq<ObjectID>): (t: State)
    ensures Consistent(g, t)
  {
    var s := AddRoots(g, roots, 0, START);
    LeadsFrom(g, s, 0, Explore(g, s, 0));
    var t :| Leads(g, s, 0, t);
    LeadsTo(g, s, 0, t);
    t
  }

  // ---- What the records mean ----

  ghost predicate SoundAt(g: Graph, roots: seq<ObjectID>, s: State, id: ObjectID)
    requires id in s.pred
  {
    match s.pred[id]
    case Pred(parent, root, depth, index) =>
      && root < |roots|
      && depth >= 1
      && (depth == 1 ==> roots[root] == id && parent == 0)
      && (depth > 1 ==>
            && parent in s.pred
            && s.pred[parent].depth == depth - 1
            && s.pred[parent].root == root
            && s.pred[parent].index < index
            && g.ValidID(parent)
            && id in g.Children(parent))
  }

  ghost predicate Sound(g: Graph, roots: seq<ObjectID>, s: State)
  {
    forall id {:trigger SoundAt(g, roots, s, id)} :: id in s.pred ==> SoundAt(g, roots, s, id)
  }

  ghost function DepthOf(s: State, id: ObjectID): nat
  {
    if id in s.pred then s.pred[id].depth else 0
  }

  ghost predicate NotDeeper(s: State, i: nat)
  {
    match s
    case State(order, _) => 0 < i < |order| ==> DepthOf(s, order[i - 1]) <= DepthOf(s, order[i])
  }

  // Depths never decrease along the queue and never exceed bound.
  ghost predicate Layered(s: State, bound: nat)
  {
    && (forall i {:trigger NotDeeper(s, i)} :: 0 < i < |s.order| ==> NotDeeper(s, i))
    && (forall i :: 0 <= i < |s.order| ==> DepthOf(s, s.order[i]) <= bound)
  }

  // c is recorded no deeper than bound.
  ghost predicate Covered(s: State, c: ObjectID, bound: nat)
  {
    c in s.pred && s.pred[c].depth <= bound
  }

  // Every valid child of id is recorded no deeper than just below id.
  ghost predicate SettledAt(g: Graph, s: State, id: ObjectID)
  {
    match s
    case State(_, _) =>
      forall c :: g.ValidID(id) && c in g.Children(id) && g.ValidID(c) ==> Covered(s, c, DepthOf(s, id) + 1)
  }

  // ... for each of the first head queue entries.
  ghost predicate Settled(g: Graph, s: State, head: nat)
    requires head <= |s.order|
  {
    forall h :: 0 <= h < head ==> SettledAt(g, s, s.order[h])
  }

  // p may be recorded for id: it names a root, or a recorded parent of id.
  ghost predicate Admissible(g: Graph, roots: seq<ObjectID>, s: State, id: ObjectID, p: Pred)
  {
    && p.root < |roots|
    && p.depth >= 1
    && (p.depth == 1 ==> roots[p.root] == id && p.parent == 0)
    && (p.depth > 1 ==>
          && p.parent in s.pred
          && s.pred[p.parent].depth == p.depth - 1
          && s.pred[p.parent].root == p.root
          && g.ValidID(p.parent)
          && id in g.Children(p.parent))
  }

  lemma AddSound(g: Graph, roots: seq<ObjectID>, s: State, id: ObjectID, p: Pred)
    requires Consistent(g, s) && Sound(g, roots, s) && Admissible(g, roots, s, id, p)
    ensures Sound(g, roots, Add(g, s, id, p))
  {
    var t := Add(g, s, id, p);
    forall x | x in t.pred
      ensures SoundAt(g, roots, t, x)
    {
      if x in s.pred {
        assert SoundAt(g, roots, s, x);
      }
    }
  }

  lemma AddLayered(g: Graph, s: State, id: ObjectID, p: Pred)
    requires Consistent(g, s) && Layered(s, p.depth)
    ensures Layered(Add(g, s, id, p), p.depth)
    ensures g.ValidID(id) ==> Covered(Add(g, s, id, p), id, p.depth)
  {
    var t := Add(g, s, id, p);
    if t != s {
      assert forall i :: 0 <= i < |s.order| ==> t.order[i] == s.order[i] && DepthOf(t, t.order[i]) == DepthOf(s, s.order[i]);
      forall i: nat | 0 < i < |t.order|
        ensures NotDeeper(t, i)
      {
        assert NotDeeper(s, i);
      }
    } else if g.ValidID(id) {
      assert DepthOf(s, s.order[s.pred[id].index]) == s.pred[id].depth;
    }
  }

  lemma {:induction false} AddRootsSound(g: Graph, roots: seq<ObjectID>, i: nat, s: State)
    requires i <= |roots| && Consistent(g, s) && Sound(g, roots, s)
    ensures Sound(g, roots, AddRoots(g, roots, i, s))
    decreases |roots| - i
  {
    if i < |roots| {
      AddSound(g, roots, s, roots[i], Pred(0, i, 1, 0));
      AddRootsSound(g, roots, i + 1, Add(g, s, roots[i], Pred(0, i, 1, 0)));
    }
  }

  lemma {:induction false} AddChildrenSound(g: Graph, roots: seq<ObjectID>, id: ObjectID, node: Pred, ci: nat, s: State)
    requires Consistent(g, s) && Sound(g, roots, s) && g.ValidID(id)
    requires id in s.pred && s.pred[id] == node && ci <= |g.Children(id)|
    ensures Sound(g, roots, AddChildren(g, id, node, ci, s))
    decreases |g.Children(id)| - ci
  {
    if ci < |g.Children(id)| {
      var c, p := g.Children(id)[ci], ChildPred(id, node);
      assert SoundAt(g, roots, s, id);
      AddSound(g, roots, s, c, p);
      AddChildrenSound(g, roots, id, node, ci + 1, Add(g, s, c, p));
    }
  }

  lemma VisitSound(g: Graph, roots: seq<ObjectID>, s: State, head: nat)
    requires Consistent(g, s) && head < |s.order| && Sound(g, roots, s)
    ensures Sound(g, roots, Visit(g, s, head))
  {
    AddChildrenSound(g, roots, s.order[head], s.pred[s.order[head]], 0, s);
  }

  lemma {:induction false} ExploreSound(g: Graph, roots: seq<ObjectID>, s: State, head: nat, t: State)
    requires Consistent(g, s) && head <= |s.order| && Sound(g, roots, s) && Leads(g, s, head, t)
    ensures Sound(g, roots, t)
    decreases |g.objects| - head
  {
    OrderBound(g, s);
    if head < |s.order| {
      LeadsNext(g, s, head, t);
      VisitSound(g, roots, s, head);
      ExploreSound(g, roots, Visit(g, s, head), head + 1, t);
    } else {
      LeadsTo(g, s, head, t);
    }
  }

  ghost predicate RootsCovered(g: Graph, roots: seq<ObjectID>, from: nat, s: State)
  {
    forall k :: from <= k < |roots| && g.ValidID(roots[k]) ==> Covered(s, roots[k], 1)
  }

  lemma {:induction false} AddRootsLayered(g: Graph, roots: seq<ObjectID>, i: nat, s: State)
    requires i <= |roots| && Consistent(g, s) && Layered(s, 1)
    ensures Layered(AddRoots(g, roots, i, s), 1)
    ensures RootsCovered(g, roots, i, AddRoots(g, roots, i, s))
    decreases |roots| - i
  {
    if i < |roots| {
      AddLayered(g, s, roots[i], Pred(0, i, 1, 0));
      AddRootsLayered(g, roots, i + 1, Add(g, s, roots[i], Pred(0, i, 1, 0)));
    }
  }

  ghost predicate ChildrenCovered(g: Graph, id: ObjectID, from: nat, s: State, bound: nat)
    requires g.ValidID(id)
  {
    forall k :: from <= k < |g.Children(id)| && g.ValidID(g.Children(id)[k]) ==> Covered(s, g.Children(id)[k], bound)
  }

  lemma {:induction false} AddChildrenLayered(g: Graph, id: ObjectID, node: Pred, ci: nat, s: State)
    requires Consistent(g, s) && Layered(s, node.depth + 1)
    requires id in s.pred && s.pred[id] == node && ci <= |g.Children(id)|
    ensures Layered(AddChildren(g, id, node, ci, s), node.depth + 1)
    ensures ChildrenCovered(g, id, ci, AddChildren(g, id, node, ci, s), node.depth + 1)
    decreases |g.Children(id)| - ci
  {
    if ci < |g.Children(id)| {
      var c, p := g.Children(id)[ci], ChildPred(id, node);
      AddLayered(g, s, c, p);
      AddChildrenLayered(g, id, node, ci + 1, Add(g, s, c, p));
    }
  }

  lemma SettledAtKept(g: Graph, s: State, t: State, id: ObjectID)
    requires Extends(s, t) && id in s.pred && SettledAt(g, s, id)
    ensures SettledAt(g, t, id)
  {
    forall c | g.ValidID(id) && c in g.Children(id) && g.ValidID(c)
      ensures Covered(t, c, DepthOf(t, id) + 1)
    {
      assert Covered(s, c, DepthOf(s, id) + 1);
    }
  }

  lemma SettledNext(g: Graph, s: State, t: State, head: nat)
    requires Consistent(g, s) && Extends(s, t) && head < |s.order|
    requires Settled(g, s, head)
    requires ChildrenCovered(g, s.order[head], 0, t, DepthOf(s, s.order[head]) + 1)
    ensures Settled(g, t, head + 1)
  {
    forall h | 0 <= h < head + 1
      ensures SettledAt(g, t, t.order[h])
    {
      assert t.order[h] == s.order[h];
      if h < head {
        SettledAtKept(g, s, t, s.order[h]);
      }
    }
  }

  lemma LayeredNext(s: State, t: State, head: nat)
    requires Extends(s, t) && head + 1 < |t.order| && head < |s.order|
    requires s.order[head] in s.pred && Layered(t, DepthOf(s, s.order[head]) + 1)
    ensures Layered(t, DepthOf(t, t.order[head + 1]) + 1)
  {
    assert t.order[head] == s.order[head];
    assert NotDeeper(t, head + 1);
  }

  // A search in progress: what came before head is settled, and the queue is layered
  // from head on.
  ghost predicate AtFrontier(g: Graph, s: State, head: nat)
  {
    && Consistent(g, s) && head <= |s.order| && Settled(g, s, head)
    && (head < |s.order| ==> Layered(s, DepthOf(s, s.order[head]) + 1))
  }

  lemma VisitSettles(g: Graph, s: State, head: nat)
    requires AtFrontier(g, s, head) && head < |s.order|
    ensures AtFrontier(g, Visit(g, s, head), head + 1)
  {
    var id := s.order[head];
    AddChildrenLayered(g, id, s.pred[id], 0, s);
    var t := Visit(g, s, head);
    SettledNext(g, s, t, head);
    if head + 1 < |t.order| {
      LayeredNext(s, t, head);
    }
  }

  lemma {:induction false} ExploreSettles(g: Graph, s: State, head: nat, t: State)
    requires AtFrontier(g, s, head) && Leads(g, s, head, t)
    ensures Settled(g, t, |t.order|)
    decreases |g.objects| - head
  {
    OrderBound(g, s);
    if head < |s.order| {
      LeadsNext(g, s, head, t);
      VisitSettles(g, s, head);
      ExploreSettles(g, Visit(g, s, head), head + 1, t);
    } else {
      LeadsTo(g, s, head, t);
    }
  }

  lemma BfsKeeps(g: Graph, roots: seq<ObjectID>)
    ensures Sound(g, roots, Bfs(g, roots))
    ensures Settled(g, Bfs(g, roots), |Bfs(g, roots).order|)
    ensures RootsCovered(g, roots, 0, Bfs(g, roots))
  {
    var s := AddRoots(g, roots, 0, START);
    AddRootsSound(g, roots, 0, START);
    ExploreFrom(g, s, 0, Bfs(g, roots));
    ExploreSound(g, roots, s, 0, Bfs(g, roots));
    AddRootsLayered(g, roots, 0, START);
    ExploreSettles(g, s, 0, Bfs(g, roots));
  }

  // ---- Predecessor chains ----

  // The path the records describe, root first.
  ghost function Chain(g: Graph, roots: seq<ObjectID>, s: State, id: ObjectID): seq<ObjectID>
    requires Sound(g, roots, s) && id in s.pred
    decreases s.pred[id].depth
  {
    assert SoundAt(g, roots, s, id);
    if s.pred[id].depth == 1 then [id] else Chain(g, roots, s, s.pred[id].parent) + [id]
  }

  // Position j of a chain holds an object of depth j + 1 of the same root, whose
  // recorded parent stands at position j - 1.
  lemma {:induction false} ChainShape(g: Graph, roots: seq<ObjectID>, s: State, id: ObjectID)
    requires Consistent(g, s) && Sound(g, roots, s) && id in s.pred
    ensures var c := Chain(g, roots, s, id);
      && |c| == s.pred[id].depth && c[|c| - 1] == id
      && (forall j :: 0 <= j < |c| ==> c[j] in s.pred && s.pred[c[j]].depth == j + 1 && s.pred[c[j]].root == s.pred[id].root)
      && (forall j :: 0 < j < |c| ==> s.pred[c[j]].parent == c[j - 1])
    decreases s.pred[id].depth
  {
    assert SoundAt(g, roots, s, id);
    if s.pred[id].depth > 1 {
      ChainShape(g, roots, s, s.pred[id].parent);
    }
  }

  // Every member is recorded at or before place n of the queue.
  ghost predicate AllBy(s: State, c: seq<ObjectID>, n: nat)
  {
    forall j :: 0 <= j < |c| ==> c[j] in s.pred && s.pred[c[j]].index <= n
  }

  // No chain member entered the queue after the object itself.
  lemma {:induction false} ChainEnteredEarlier(g: Graph, roots: seq<ObjectID>, s: State, id: ObjectID)
    requires Consistent(g, s) && Sound(g, roots, s) && id in s.pred
    ensures AllBy(s, Chain(g, roots, s, id), s.pred[id].index)
    decreases s.pred[id].depth
  {
    assert SoundAt(g, roots, s, id);
    if s.pred[id].depth > 1 {
      ChainEnteredEarlier(g, roots, s, s.pred[id].parent);
    }
  }

  // The chain is a path of the graph from the recorded root; no object repeats.
  lemma ChainIsPath(g: Graph, roots: seq<ObjectID>, s: State, id: ObjectID)
    requires Consistent(g, s) && Sound(g, roots, s) && id in s.pred
    ensures var c := Chain(g, roots, s, id);
      && IsPath(g, c) && c[|c| - 1] == id
      && s.pred[id].root < |roots| && c[0] == roots[s.pred[id].root]
      && (forall i, j :: 0 <= i < j < |c| ==> c[i] != c[j])
  {
    ChainShape(g, roots, s, id);
    var c := Chain(g, roots, s, id);
    forall j | 0 <= j < |c|
      ensures SoundAt(g, roots, s, c[j])
    {}
  }

  // ---- Correctness of the whole search ----

  // A search that has run to its end.
  ghost predicate IsDone(g: Graph, roots: seq<ObjectID>, t: State)
  {
    && Consistent(g, t) && Sound(g, roots, t)
    && Settled(g, t, |t.order|) && RootsCovered(g, roots, 0, t)
  }

  // Any path to id is at least as long as the recorded depth.
  lemma {:induction false} NoShorterPath(g: Graph, roots: seq<ObjectID>, t: State, p: seq<ObjectID>, id: ObjectID)
    requires IsDone(g, roots, t) && IsPathFrom(g, Elements(roots), p, id)
    ensures id in t.pred && t.pred[id].depth <= |p|
    decreases |p|
  {
    if |p| == 1 {
      var k :| 0 <= k < |roots| && roots[k] == id;
      assert Covered(t, roots[k], 1);
    } else {
      var q := p[..|p| - 1];
      var last := q[|q| - 1];
      NoShorterPath(g, roots, t, q, last);
      var h := t.pred[last].index;
      assert SettledAt(g, t, t.order[h]);
      assert Covered(t, id, DepthOf(t, t.order[h]) + 1);
    }
  }

  ghost predicate IsShortest(g: Graph, roots: set<ObjectID>, p: seq<ObjectID>, id: ObjectID)
  {
    && IsPathFrom(g, roots, p, id)
    && (forall q :: IsPathFrom(g, roots, q, id) ==> |p| <= |q|)
  }

  lemma ChainIsShortest(g: Graph, roots: seq<ObjectID>, t: State, id: ObjectID)
    requires IsDone(g, roots, t) && id in t.pred
    ensures IsShortest(g, Elements(roots), Chain(g, roots, t, id), id)
  {
    ChainIsPath(g, roots, t, id);
    ChainShape(g, roots, t, id);
    forall q | IsPathFrom(g, Elements(roots), q, id)
      ensures |Chain(g, roots, t, id)| <= |q|
    {
      NoShorterPath(g, roots, t, q, id);
    }
  }

  // A finished search records exactly the reachable objects.
  lemma DoneIsReach(g: Graph, roots: seq<ObjectID>, t: State)
    requires IsDone(g, roots, t)
    ensures t.pred.Keys == Reach(g, Elements(roots))
  {
    forall id | id in t.pred
      ensures id in Reach(g, Elements(roots))
    {
      ChainIsShortest(g, roots, t, id);
    }
    forall id | id in Reach(g, Elements(roots))
      ensures id in t.pred
    {
      var p :| IsPathFrom(g, Elements(roots), p, id);
      NoShorterPath(g, roots, t, p, id);
    }
  }

  lemma OrderCount(g: Graph, s: State)
    requires Consistent(g, s)
    ensures |s.order| == |s.pred.Keys|
  {
    DistinctCount(s.order);
    forall x
      ensures x in s.pred.Keys <==> x in s.order
    {
      if x in s.pred {
        assert s.order[s.pred[x].index] == x;
      }
    }
    assert s.pred.Keys == Elements(s.order);
  }

  // A finished search: what the clients of the search rely on.
  ghost predicate IsSearch(g: Graph, roots: seq<ObjectID>, t: State)
  {
    && Consistent(g, t)
    && Sound(g, roots, t)
    && t.pred.Keys == Reach(g, Elements(roots))
    && (forall id :: id in t.pred ==> IsShortest(g, Elements(roots), Chain(g, roots, t, id), id))
  }

  lemma DoneIsSearch(g: Graph, roots: seq<ObjectID>, t: State)
    requires IsDone(g, roots, t)
    ensures IsSearch(g, roots, t)
  {
    DoneIsReach(g, roots, t);
    forall id | id in t.pred
      ensures IsShortest(g, Elements(roots), Chain(g, roots, t, id), id)
    {
      ChainIsShortest(g, roots, t, id);
    }
  }

  lemma BfsIsSearch(g: Graph, roots: seq<ObjectID>)
    ensures IsSearch(g, roots, Bfs(g, roots))
  {
    BfsKeeps(g, roots);
    DoneIsSearch(g, roots, Bfs(g, roots));
  }

  lemma BfsIsReach(g: Graph, roots: seq<ObjectID>)
    ensures Bfs(g, roots).pred.Keys == Reach(g, Elements(roots))
  {
    BfsKeeps(g, roots);
    DoneIsReach(g, roots, Bfs(g, roots));
  }
}
