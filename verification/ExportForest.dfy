// The predecessor forest of the paths export (internal/memusage/export_paths.go).
module ExportForest {
  import opened Words
  import opened Graphs
  import opened Search
  import opened Reachability
  import opened FindPath

  // depth 0 means unvisited; roots have depth 1.
  datatype ExportPredecessor = ExportPredecessor(
    parent: ObjectID,
    prefixEnd: ObjectID,
    root: nat,
    depth: nat,
    reference: Reference)

  const UNVISITED := ExportPredecessor(0, 0, 0, 0, NO_REFERENCE)

  ghost predicate HasSlot(slots: seq<Reference>, to: ObjectID)
  {
    exists i :: 0 <= i < |slots| && slots[i].target == to
  }

  // The first retained slot of the transition, or none.
  ghost function SlotFor(g: Graph, from: ObjectID, to: ObjectID): Reference
  {
    if HasSlot(SlotsOf(g, from), to) then FirstSlot(SlotsOf(g, from), to) else NO_REFERENCE
  }

  // The member of a root-first path that stands at depth
  // min(|path|, max(prefixDepth, 1)).
  ghost function Anchor(path: seq<ObjectID>, prefixDepth: int): ObjectID
  {
    var want := if prefixDepth < 1 then 1 else prefixDepth;
    if |path| == 0 then 0
    else if want < |path| then path[want - 1]
    else path[|path| - 1]
  }

  // What the forest records for a visited object of the search t.
  ghost function Node(g: Graph, ids: seq<ObjectID>, t: State, prefixDepth: int, id: ObjectID): ExportPredecessor
    requires Sound(g, ids, t) && id in t.pred
  {
    var n := t.pred[id];
    ExportPredecessor(
      n.parent,
      Anchor(Chain(g, ids, t, id), prefixDepth),
      n.root,
      n.depth,
      if n.depth > 1 then SlotFor(g, n.parent, id) else NO_REFERENCE)
  }

  ghost function NodeWhen(g: Graph, ids: seq<ObjectID>, t: State, s: State, prefixDepth: int, id: ObjectID): ExportPredecessor
    requires Sound(g, ids, t) && Extends(s, t)
  {
    if id in s.pred then Node(g, ids, t, prefixDepth, id) else UNVISITED
  }

  // The first n records when the search has come as far as s on its way to t.
  ghost function ForestUpTo(g: Graph, ids: seq<ObjectID>, t: State, s: State, prefixDepth: int, n: nat): (f: seq<ExportPredecessor>)
    requires Sound(g, ids, t) && Extends(s, t)
    ensures |f| == n
    ensures forall id :: 0 <= id < n ==> f[id] == NodeWhen(g, ids, t, s, prefixDepth, id)
  {
    if n == 0 then []
    else ForestUpTo(g, ids, t, s, prefixDepth, n - 1) + [NodeWhen(g, ids, t, s, prefixDepth, n - 1)]
  }

  ghost function Forest(g: Graph, ids: seq<ObjectID>, t: State, s: State, prefixDepth: int): (f: seq<ExportPredecessor>)
    requires Sound(g, ids, t) && Extends(s, t)
    ensures |f| == |g.objects|
    ensures forall id :: 0 <= id < |f| ==> f[id] == NodeWhen(g, ids, t, s, prefixDepth, id)
  {
    ForestUpTo(g, ids, t, s, prefixDepth, |g.objects|)
  }

  lemma RootNode(g: Graph, ids: seq<ObjectID>, t: State, prefixDepth: int, id: ObjectID)
    requires Sound(g, ids, t) && id in t.pred && t.pred[id].depth == 1
    ensures Node(g, ids, t, prefixDepth, id) == ExportPredecessor(0, id, t.pred[id].root, 1, NO_REFERENCE)
  {
    assert SoundAt(g, ids, t, id);
    assert Chain(g, ids, t, id) == [id];
  }

  // The O(1) step that carries the anchor down an edge.
  lemma ChildNode(g: Graph, ids: seq<ObjectID>, t: State, prefixDepth: int, id: ObjectID)
    requires Consistent(g, t) && Sound(g, ids, t) && id in t.pred && t.pred[id].depth > 1
    ensures t.pred[id].parent in t.pred
    ensures var node := Node(g, ids, t, prefixDepth, t.pred[id].parent);
      Node(g, ids, t, prefixDepth, id) == ExportPredecessor(
        t.pred[id].parent,
        if node.depth < prefixDepth then id else node.prefixEnd,
        node.root,
        node.depth + 1,
        SlotFor(g, t.pred[id].parent, id))
  {
    assert SoundAt(g, ids, t, id);
    var parent := t.pred[id].parent;
    assert SoundAt(g, ids, t, parent);
    ChainShape(g, ids, t, parent);
    assert Chain(g, ids, t, id) == Chain(g, ids, t, parent) + [id];
    AnchorStep(Chain(g, ids, t, parent), id, prefixDepth);
  }

  lemma AnchorStep(path: seq<ObjectID>, id: ObjectID, prefixDepth: int)
    requires |path| > 0
    ensures Anchor(path + [id], prefixDepth) == if |path| < prefixDepth then id else Anchor(path, prefixDepth)
  {}

  lemma ForestAdd(g: Graph, ids: seq<ObjectID>, t: State, s: State, prefixDepth: int, id: ObjectID, p: Pred)
    requires Sound(g, ids, t) && Consistent(g, s) && Extends(Add(g, s, id, p), t) && Extends(s, t)
    ensures !g.ValidID(id) || id in s.pred ==> Forest(g, ids, t, Add(g, s, id, p), prefixDepth) == Forest(g, ids, t, s, prefixDepth)
    ensures g.ValidID(id) && id !in s.pred ==>
      && id in t.pred
      && Forest(g, ids, t, Add(g, s, id, p), prefixDepth) == Forest(g, ids, t, s, prefixDepth)[id := Node(g, ids, t, prefixDepth, id)]
  {
    if g.ValidID(id) && id !in s.pred {
      assert id in Add(g, s, id, p).pred;
    }
  }

  lemma VisitedHasDepth(g: Graph, ids: seq<ObjectID>, t: State, s: State, prefixDepth: int, id: ObjectID)
    requires Sound(g, ids, t) && Extends(s, t) && g.ValidID(id)
    ensures Forest(g, ids, t, s, prefixDepth)[id].depth != 0 <==> id in s.pred
  {
    if id in s.pred {
      assert SoundAt(g, ids, t, id);
    }
  }

  // Index of the first slot per target.
  method IndexSlots(slots: seq<Reference>) returns (refs: map<ObjectID, Reference>)
    ensures forall to :: to in refs <==> HasSlot(slots, to)
    ensures forall to :: to in refs ==> refs[to] == FirstSlot(slots, to)
  {
    refs := map[];
    for i := 0 to |slots|
      invariant forall to :: to in refs <==> HasSlot(slots[..i], to)
      invariant forall to :: to in refs ==> refs[to] == FirstSlot(slots, to)
    {
      var r := slots[i];
      FirstSlotAt(slots, i);
      assert slots[..i + 1] == slots[..i] + [r];
      HasSlotSnoc(slots[..i], r);
      if r.target !in refs {
        refs := refs[r.target := r];
      }
    }
    assert slots[..|slots|] == slots;
  }

  lemma HasSlotSnoc(slots: seq<Reference>, r: Reference)
    ensures forall to :: HasSlot(slots + [r], to) <==> HasSlot(slots, to) || r.target == to
  {
    forall to
      ensures HasSlot(slots + [r], to) <==> HasSlot(slots, to) || r.target == to
    {
      if HasSlot(slots, to) {
        var i :| 0 <= i < |slots| && slots[i].target == to;
        assert (slots + [r])[i].target == to;
      }
      if r.target == to {
        assert (slots + [r])[|slots|].target == to;
      }
    }
  }

  lemma {:induction false} FirstSlotAt(slots: seq<Reference>, i: nat)
    requires i < |slots|
    ensures !HasSlot(slots[..i], slots[i].target) ==> FirstSlot(slots, slots[i].target) == slots[i]
  {
    if i > 0 && slots[0].target == slots[i].target {
      assert slots[..i][0].target == slots[i].target;
    } else if i > 0 {
      FirstSlotAt(slots[1..], i - 1);
      if HasSlot(slots[1..][..i - 1], slots[i].target) {
        var k :| 0 <= k < i - 1 && slots[1..][..i - 1][k].target == slots[i].target;
        assert slots[..i][k + 1].target == slots[i].target;
      }
    }
  }

  // ---- Building the forest ----

  datatype ExportRoot = ExportRoot(gid: u64, ref: RootRef)

  ghost function Refs(roots: seq<ExportRoot>): (refs: seq<RootRef>)
    ensures |refs| == |roots| && forall i :: 0 <= i < |roots| ==> refs[i] == roots[i].ref
  {
    seq(|roots|, i requires 0 <= i < |roots| => roots[i].ref)
  }

  ghost function RootObjects(roots: seq<ExportRoot>): (ids: seq<ObjectID>)
    ensures |ids| == |roots| && forall i :: 0 <= i < |roots| ==> ids[i] == roots[i].ref.objectID
  {
    RootIDs(Refs(roots))
  }

  // One child of node, whose object is id: recorded unless invalid or visited.
  method PlantChild(g: Graph, forest: array<ExportPredecessor>, queue0: seq<ObjectID>, id: ObjectID, node: ExportPredecessor,
                    child: ObjectID, refs: map<ObjectID, Reference>, prefixDepth: int,
                    ghost ids: seq<ObjectID>, ghost t: State, ghost s: State)
    returns (queue: seq<ObjectID>)
    requires Consistent(g, t) && Sound(g, ids, t) && Extends(s, t) && Consistent(g, s)
    requires id in t.pred && node == Node(g, ids, t, prefixDepth, id)
    requires child in refs <==> HasSlot(SlotsOf(g, id), child)
    requires child in refs ==> refs[child] == FirstSlot(SlotsOf(g, id), child)
    requires Extends(Add(g, s, child, ChildPred(id, t.pred[id])), t)
    requires queue0 == s.order && forest[..] == Forest(g, ids, t, s, prefixDepth)
    modifies forest
    ensures queue == Add(g, s, child, ChildPred(id, t.pred[id])).order
    ensures forest[..] == Forest(g, ids, t, Add(g, s, child, ChildPred(id, t.pred[id])), prefixDepth)
  {
    queue := queue0;
    assert forest.Length == |forest[..]|;
    ghost var p := ChildPred(id, t.pred[id]);
    ForestAdd(g, ids, t, s, prefixDepth, child, p);
    if !g.ValidID(child) {
      return;
    }
    VisitedHasDepth(g, ids, t, s, prefixDepth, child);
    assert forest[..][child] == forest[child];
    if forest[child].depth != 0 {
      return;
    }
    NewChildNode(g, ids, t, Add(g, s, child, p), prefixDepth, child, id);
    var prefixEnd := node.prefixEnd;
    if node.depth < prefixDepth {
      prefixEnd := child;
    }
    var reference := if child in refs then refs[child] else NO_REFERENCE;
    forest[child] := ExportPredecessor(id, prefixEnd, node.root, node.depth + 1, reference);
    queue := queue + [child];
  }

  // The loop over one object's children: fills the forest in place.
  method PlantChildren(g: Graph, forest: array<ExportPredecessor>, queue0: seq<ObjectID>, id: ObjectID, prefixDepth: int,
                       ghost ids: seq<ObjectID>, ghost t: State, ghost s0: State)
    returns (queue: seq<ObjectID>, ghost s: State)
    requires Consistent(g, t) && Sound(g, ids, t) && Consistent(g, s0) && Extends(s0, t) && id in s0.pred
    requires Extends(AddChildren(g, id, s0.pred[id], 0, s0), t)
    requires queue0 == s0.order && forest[..] == Forest(g, ids, t, s0, prefixDepth)
    modifies forest
    ensures s == AddChildren(g, id, s0.pred[id], 0, s0)
    ensures queue == s.order && forest[..] == Forest(g, ids, t, s, prefixDepth)
  {
    queue, s := queue0, s0;
    assert forest.Length == |forest[..]|;
    var node := forest[id];
    assert node == forest[..][id];
    var refs: map<ObjectID, Reference> := map[];
    if id < |g.references| {
      refs := IndexSlots(g.references[id]);
    }
    var children := g.Children(id);
    for i := 0 to |children|
      invariant Consistent(g, s) && queue == s.order && Extends(s, t)
      invariant forest[..] == Forest(g, ids, t, s, prefixDepth)
      invariant AddChildren(g, id, s0.pred[id], i, s) == AddChildren(g, id, s0.pred[id], 0, s0)
    {
      NextChild(g, id, s0.pred[id], i, s, t);
      queue := PlantChild(g, forest, queue, id, node, children[i], refs, prefixDepth, ids, t, s);
      s := Add(g, s, children[i], ChildPred(id, s0.pred[id]));
    }
  }

  lemma NextChild(g: Graph, id: ObjectID, node: Pred, i: nat, s: State, t: State)
    requires g.ValidID(id) && i < |g.Children(id)|
    requires Extends(AddChildren(g, id, node, i, s), t)
    ensures Extends(Add(g, s, g.Children(id)[i], ChildPred(id, node)), t)
  {}

  lemma NewChildNode(g: Graph, ids: seq<ObjectID>, t: State, s: State, prefixDepth: int, child: ObjectID, id: ObjectID)
    requires Consistent(g, t) && Sound(g, ids, t) && Extends(s, t)
    requires child in s.pred && id in t.pred
    requires s.pred[child].parent == id && s.pred[child].depth == t.pred[id].depth + 1
    ensures child in t.pred
    ensures var node := Node(g, ids, t, prefixDepth, id);
      Node(g, ids, t, prefixDepth, child) == ExportPredecessor(
        id,
        if node.depth < prefixDepth then child else node.prefixEnd,
        node.root,
        node.depth + 1,
        SlotFor(g, id, child))
  {
    assert SoundAt(g, ids, t, id);
    ChildNode(g, ids, t, prefixDepth, child);
  }

  // Root i, an object id: recorded unless invalid or visited.
  method PlantRoot(g: Graph, forest: array<ExportPredecessor>, queue0: seq<ObjectID>, id: ObjectID, i: nat,
                   ghost prefixDepth: int, ghost ids: seq<ObjectID>, ghost t: State, ghost s: State)
    returns (queue: seq<ObjectID>)
    requires Consistent(g, t) && Sound(g, ids, t) && Extends(s, t) && Consistent(g, s)
    requires Extends(Add(g, s, id, Pred(0, i, 1, 0)), t)
    requires queue0 == s.order && forest[..] == Forest(g, ids, t, s, prefixDepth)
    modifies forest
    ensures queue == Add(g, s, id, Pred(0, i, 1, 0)).order
    ensures forest[..] == Forest(g, ids, t, Add(g, s, id, Pred(0, i, 1, 0)), prefixDepth)
  {
    queue := queue0;
    assert forest.Length == |forest[..]|;
    ghost var next := Add(g, s, id, Pred(0, i, 1, 0));
    ForestAdd(g, ids, t, s, prefixDepth, id, Pred(0, i, 1, 0));
    if !g.ValidID(id) {
      return;
    }
    VisitedHasDepth(g, ids, t, s, prefixDepth, id);
    assert forest[..][id] == forest[id];
    if forest[id].depth != 0 {
      return;
    }
    assert t.pred[id] == next.pred[id];
    RootNode(g, ids, t, prefixDepth, id);
    forest[id] := ExportPredecessor(0, id, i, 1, NO_REFERENCE);
    queue := queue + [id];
  }

  method PlantRoots(g: Graph, forest: array<ExportPredecessor>, roots: seq<ExportRoot>, ghost prefixDepth: int, ghost t: State)
    returns (queue: seq<ObjectID>, ghost s: State)
    requires Consistent(g, t) && Sound(g, RootObjects(roots), t) && Extends(AddRoots(g, RootObjects(roots), 0, START), t)
    requires forest[..] == Forest(g, RootObjects(roots), t, START, prefixDepth)
    modifies forest
    ensures s == AddRoots(g, RootObjects(roots), 0, START) && Consistent(g, s)
    ensures queue == s.order && forest[..] == Forest(g, RootObjects(roots), t, s, prefixDepth)
  {
    ghost var ids := RootObjects(roots);
    ghost var all := AddRoots(g, ids, 0, START);
    queue, s := [], START;
    for i := 0 to |roots|
      invariant Consistent(g, s) && queue == s.order && Extends(s, t)
      invariant forest[..] == Forest(g, ids, t, s, prefixDepth)
      invariant AddRoots(g, ids, i, s) == all
    {
      NextRoot(g, ids, i, s, t);
      queue := PlantRoot(g, forest, queue, roots[i].ref.objectID, i, prefixDepth, ids, t, s);
      s := Add(g, s, ids[i], Pred(0, i, 1, 0));
    }
  }

  lemma NextRoot(g: Graph, ids: seq<ObjectID>, i: nat, s: State, t: State)
    requires i < |ids| && Extends(AddRoots(g, ids, i, s), t)
    ensures Extends(Add(g, s, ids[i], Pred(0, i, 1, 0)), t)
  {}

  lemma Planted(g: Graph, s: State, head: nat, t: State)
    requires Consistent(g, s) && head < |s.order| && Leads(g, s, head, t)
    ensures |s.order| <= |g.objects| && Extends(s, t)
    ensures var next := AddChildren(g, s.order[head], s.pred[s.order[head]], 0, s);
      Leads(g, next, head + 1, t) && Extends(next, t)
  {
    LeadsTo(g, s, head, t);
    LeadsNext(g, s, head, t);
    LeadsTo(g, AddChildren(g, s.order[head], s.pred[s.order[head]], 0, s), head + 1, t);
  }

  // One search covers all objects; the array holds the record of each.
  method BuildExportForest(g: Graph, roots: seq<ExportRoot>, prefixDepth: int) returns (forest: array<ExportPredecessor>, ghost t: State)
    ensures t == Bfs(g, RootObjects(roots)) && IsSearch(g, RootObjects(roots), t)
    ensures fresh(forest) && forest[..] == Forest(g, RootObjects(roots), t, t, prefixDepth)
  {
    ghost var ids := RootObjects(roots);
    BfsIsSearch(g, ids);
    t := Bfs(g, ids);
    LeadsTo(g, AddRoots(g, ids, 0, START), 0, t);
    forest := new ExportPredecessor[|g.objects|](_ => UNVISITED);
    assert forest[..] == Forest(g, ids, t, START, prefixDepth);
    var queue; ghost var s;
    queue, s := PlantRoots(g, forest, roots, prefixDepth, t);
    var head := 0;
    while head < |queue|
      invariant fresh(forest) && Consistent(g, s) && queue == s.order && head <= |queue|
      invariant Leads(g, s, head, t) && Extends(s, t)
      invariant forest[..] == Forest(g, ids, t, s, prefixDepth)
      decreases |g.objects| - head
    {
      Planted(g, s, head, t);
      queue, s := PlantChildren(g, forest, queue, queue[head], prefixDepth, ids, t, s);
      head := head + 1;
    }
    LeadsTo(g, s, head, t);
  }

  // ---- Rendering one path ----

  // The records lead from the end of path back to its start, one depth at a time.
  ghost predicate LeadsBack(forest: seq<ExportPredecessor>, path: seq<ObjectID>)
  {
    && (forall j :: 0 <= j < |path| ==> path[j] < |forest| && forest[path[j]].depth == j + 1)
    && (forall j :: 0 < j < |path| ==> forest[path[j]].parent == path[j - 1])
  }

  // The last n members of path, found from its end: fills an array backwards.
  method Collect(forest: seq<ExportPredecessor>, last: ObjectID, n: nat, ghost path: seq<ObjectID>)
    returns (out: array<ObjectID>)
    requires LeadsBack(forest, path) && n <= |path|
    requires n > 0 ==> EndsAt(path, last)
    ensures fresh(out) && out[..] == path[|path| - n..]
  {
    out := new ObjectID[n];
    var id := last;
    var i := n - 1;
    while i >= 0
      invariant -1 <= i < n
      invariant i >= 0 ==> id == path[|path| - n + i]
      invariant forall k :: i < k < n ==> out[k] == path[|path| - n + k]
    {
      out[i] := id;
      id := forest[id].parent;
      i := i - 1;
    }
  }

  // The real path of a visited object, and no path of an unvisited one.
  ghost function PathTo(g: Graph, ids: seq<ObjectID>, t: State, id: ObjectID): seq<ObjectID>
    requires Sound(g, ids, t)
  {
    if id in t.pred then Chain(g, ids, t, id) else []
  }

  // prefix and suffix are the two ends of path and omitted counts what lies
  // between: the whole path when it fits, else maxDepth of its objects.
  ghost predicate Abbreviates(path: seq<ObjectID>, maxDepth: nat, prefix: seq<ObjectID>, omitted: nat, suffix: seq<ObjectID>)
  {
    && |prefix| + omitted + |suffix| == |path|
    && prefix == path[..|prefix|]
    && suffix == path[|prefix| + omitted..]
    && (maxDepth == 0 || |path| <= maxDepth ==> omitted == 0 && |suffix| == 0)
    && (maxDepth > 0 && |path| > maxDepth ==> |prefix| == maxDepth / 2 && |prefix| + |suffix| == maxDepth)
  }

  method ExportPathSegments(forest: seq<ExportPredecessor>, id: ObjectID, maxDepth: nat, ghost g: Graph, ghost ids: seq<ObjectID>, ghost t: State)
    returns (prefix: seq<ObjectID>, suffix: seq<ObjectID>, omitted: nat)
    requires g.ValidID(id) && Consistent(g, t) && Sound(g, ids, t)
    requires forest == Forest(g, ids, t, t, maxDepth / 2)
    ensures Abbreviates(PathTo(g, ids, t, id), maxDepth, prefix, omitted, suffix)
  {
    PathRecorded(g, ids, t, maxDepth / 2, id);
    prefix, suffix, omitted := CutPath(forest, id, maxDepth, PathTo(g, ids, t, id));
  }

  method CutPath(forest: seq<ExportPredecessor>, id: ObjectID, maxDepth: nat, ghost path: seq<ObjectID>)
    returns (prefix: seq<ObjectID>, suffix: seq<ObjectID>, omitted: nat)
    requires id < |forest| && LeadsBack(forest, path) && forest[id].depth == |path|
    requires |path| > 0 ==> EndsAt(path, id) && forest[id].prefixEnd == Anchor(path, maxDepth / 2)
    ensures Abbreviates(path, maxDepth, prefix, omitted, suffix)
  {
    var depth := forest[id].depth;
    if maxDepth == 0 || depth <= maxDepth {
      var whole := Collect(forest, id, depth, path);
      return whole[..], [], 0;
    }
    var first := maxDepth / 2;
    var head := Collect(forest, forest[id].prefixEnd, first, path[..first]);
    var tail := Collect(forest, id, maxDepth - first, path);
    return head[..], tail[..], depth - maxDepth;
  }

  // The forest read at id: its depth is the length of the path, its prefix end
  // the path's anchor, and the parents lead back along it.
  lemma PathRecorded(g: Graph, ids: seq<ObjectID>, t: State, prefixDepth: int, id: ObjectID)
    requires g.ValidID(id) && Consistent(g, t) && Sound(g, ids, t)
    ensures var f, path := Forest(g, ids, t, t, prefixDepth), PathTo(g, ids, t, id);
      && f[id].depth == |path|
      && (|path| > 0 ==> EndsAt(path, id) && f[id].prefixEnd == Anchor(path, prefixDepth))
      && LeadsBack(f, path)
  {
    if id in t.pred {
      ChainShape(g, ids, t, id);
      var f, path := Forest(g, ids, t, t, prefixDepth), Chain(g, ids, t, id);
      forall j | 0 <= j < |path|
        ensures path[j] < |f| && f[path[j]] == Node(g, ids, t, prefixDepth, path[j])
      {}
    }
  }

  // ---- What the forest means ----

  // The forest marks exactly the reachable objects.
  lemma ForestMarksReach(g: Graph, ids: seq<ObjectID>, t: State, prefixDepth: int, id: ObjectID)
    requires g.ValidID(id) && IsSearch(g, ids, t)
    ensures Forest(g, ids, t, t, prefixDepth)[id].depth > 0 <==> id in Reach(g, Elements(ids))
    ensures id !in Reach(g, Elements(ids)) ==> Forest(g, ids, t, t, prefixDepth)[id] == UNVISITED
  {
    VisitedHasDepth(g, ids, t, t, prefixDepth, id);
  }

  // The record of a reachable object names the root and the length of a shortest
  // path on which no object repeats, the slot of its last transition, and the
  // path's member at depth min(depth, max(prefixDepth, 1)).
  lemma ForestMeans(g: Graph, ids: seq<ObjectID>, t: State, prefixDepth: int, id: ObjectID)
    requires g.ValidID(id) && IsSearch(g, ids, t) && id in Reach(g, Elements(ids))
    ensures IsShortest(g, Elements(ids), PathTo(g, ids, t, id), id)
    ensures var path := PathTo(g, ids, t, id);
      forall i, j :: 0 <= i < j < |path| ==> path[i] != path[j]
    ensures var node, path := Forest(g, ids, t, t, prefixDepth)[id], PathTo(g, ids, t, id);
      && node.depth == |path| > 0
      && node.root < |ids| && path[0] == ids[node.root]
      && node.prefixEnd == Anchor(path, prefixDepth)
      && (|path| > 1 ==> node.parent == path[|path| - 2] && node.reference == SlotFor(g, node.parent, id))
  {
    ChainIsPath(g, ids, t, id);
    ChainShape(g, ids, t, id);
  }

  // Two searches with different bookkeeping tell the same story: FindPath's
  // witness is the forest's path, from the same root.
  lemma ForestAgreesWithFindPath(g: Graph, roots: seq<ExportRoot>, prefixDepth: int, id: ObjectID, w: Witness)
    requires IsWitness(g, Refs(roots), id, w)
    ensures var ids, t := RootObjects(roots), Bfs(g, RootObjects(roots));
      && Sound(g, ids, t) && g.ValidID(id)
      && w.objects == PathTo(g, ids, t, id)
      && w.rootIndex == Forest(g, ids, t, t, prefixDepth)[id].root
  {
    BfsIsSearch(g, RootObjects(roots));
  }

  // The abbreviation loses nothing but the middle: its two ends and the omitted
  // run make up the path.
  lemma AbbreviationIsContiguous(path: seq<ObjectID>, maxDepth: nat, prefix: seq<ObjectID>, omitted: nat, suffix: seq<ObjectID>)
    requires Abbreviates(path, maxDepth, prefix, omitted, suffix)
    ensures path == prefix + path[|prefix|..|prefix| + omitted] + suffix
    ensures maxDepth >= 2 && |path| > 0 ==> |prefix| > 0 && prefix[0] == path[0] && (prefix + suffix)[|prefix| + |suffix| - 1] == path[|path| - 1]
  {
    assert suffix == path[|prefix| + omitted..];
  }
}
