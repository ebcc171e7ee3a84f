// The resolved object graph and plain graph reachability: what every traversal
// of the tool is measured against.
module Graphs {
  import opened Words

  // An object's ID is its index in Graph.objects (uint32 in the source; the
  // bound is imposed where the graph is built).
  type ObjectID = nat

  datatype Object = Object(addr: u64, size: u64, children: seq<ObjectID>)

  // Half-open address range [start, end) of one object.
  datatype ObjectRange = ObjectRange(start: u64, end: u64, id: ObjectID)

  // One resolved pointer slot of an object.
  datatype Reference = Reference(target: ObjectID, pointer: u64, offset: u64, offsetKnown: bool)

  const NO_REFERENCE := Reference(0, 0, 0, false)

  datatype RootRef = RootRef(objectID: ObjectID, ptr: u64, slotAddr: u64, kind: string, detail: seq<byte>)

  datatype Graph = Graph(
    objects: seq<Object>,
    byAddr: map<u64, ObjectID>,
    references: seq<seq<Reference>>,
    ranges: seq<ObjectRange>)
  {
    predicate ValidID(id: ObjectID) { id < |objects| }

    function Children(id: ObjectID): seq<ObjectID>
      requires ValidID(id)
    { objects[id].children }
  }

  function RootSet(roots: seq<RootRef>): set<ObjectID>
  {
    set r | r in roots :: r.objectID
  }

  // ---- Paths ----

  ghost predicate IsPath(g: Graph, p: seq<ObjectID>)
  {
    && |p| > 0
    && (forall i :: 0 <= i < |p| ==> g.ValidID(p[i]))
    && (forall i :: 0 < i < |p| ==> p[i] in g.Children(p[i - 1]))
  }

  ghost predicate IsPathFrom(g: Graph, roots: set<ObjectID>, p: seq<ObjectID>, id: ObjectID)
  {
    IsPath(g, p) && p[0] in roots && p[|p| - 1] == id
  }

  ghost predicate IsReachable(g: Graph, roots: set<ObjectID>, id: ObjectID)
  {
    exists p :: IsPathFrom(g, roots, p, id)
  }

  ghost function Reach(g: Graph, roots: set<ObjectID>): set<ObjectID>
  {
    set id | 0 <= id < |g.objects| && IsReachable(g, roots, id)
  }

  // S contains every valid child of its members.
  ghost predicate Closed(g: Graph, S: set<ObjectID>)
  {
    forall id, c :: id in S && g.ValidID(id) && c in g.Children(id) && g.ValidID(c) ==> c in S
  }

  lemma ReachContainsRoot(g: Graph, roots: set<ObjectID>, id: ObjectID)
    requires id in roots && g.ValidID(id)
    ensures id in Reach(g, roots)
  {
    assert IsPathFrom(g, roots, [id], id);
  }

  lemma ReachStep(g: Graph, roots: set<ObjectID>, id: ObjectID, child: ObjectID)
    requires id in Reach(g, roots) && child in g.Children(id) && g.ValidID(child)
    ensures child in Reach(g, roots)
  {
    var p :| IsPathFrom(g, roots, p, id);
    assert IsPathFrom(g, roots, p + [child], child);
  }

  lemma PathStaysInside(g: Graph, roots: set<ObjectID>, p: seq<ObjectID>, id: ObjectID, S: set<ObjectID>)
    requires IsPathFrom(g, roots, p, id) && Closed(g, S)
    requires forall r :: r in roots && g.ValidID(r) ==> r in S
    ensures id in S
    decreases |p|
  {
    if |p| > 1 {
      var q := p[..|p| - 1];
      PathStaysInside(g, roots, q, q[|q| - 1], S);
    }
  }

  // Reach is a fixed point: it holds the valid roots and is closed.
  lemma ReachIsClosed(g: Graph, roots: set<ObjectID>)
    ensures Closed(g, Reach(g, roots))
    ensures forall r :: r in roots && g.ValidID(r) ==> r in Reach(g, roots)
  {
    forall id, c | id in Reach(g, roots) && c in g.Children(id) && g.ValidID(c)
      ensures c in Reach(g, roots)
    {
      ReachStep(g, roots, id, c);
    }
    forall r | r in roots && g.ValidID(r)
      ensures r in Reach(g, roots)
    {
      ReachContainsRoot(g, roots, r);
    }
  }

  // ... and the least one.
  lemma ReachIsLeast(g: Graph, roots: set<ObjectID>, S: set<ObjectID>)
    requires Closed(g, S)
    requires forall r :: r in roots && g.ValidID(r) ==> r in S
    ensures Reach(g, roots) <= S
  {
    forall id | id in Reach(g, roots)
      ensures id in S
    {
      var p :| IsPathFrom(g, roots, p, id);
      PathStaysInside(g, roots, p, id, S);
    }
  }

  // The set holds the valid roots and, with an object, its valid children.
  ghost predicate IsClosure(g: Graph, roots: set<ObjectID>, S: set<ObjectID>)
  {
    Closed(g, S) && forall r :: r in roots && g.ValidID(r) ==> r in S
  }

  // Reach by paths is the least such set.
  lemma ReachIsLeastClosure(g: Graph, roots: set<ObjectID>)
    ensures IsClosure(g, roots, Reach(g, roots))
    ensures forall S :: IsClosure(g, roots, S) ==> Reach(g, roots) <= S
  {
    ReachIsClosed(g, roots);
    forall S | IsClosure(g, roots, S)
      ensures Reach(g, roots) <= S
    {
      ReachIsLeast(g, roots, S);
    }
  }

  // One walk over all roots equals the union of the walks: what lets the tool
  // replace per-goroutine searches by a single one.
  lemma ReachOfUnion(g: Graph, a: set<ObjectID>, b: set<ObjectID>)
    ensures Reach(g, a + b) == Reach(g, a) + Reach(g, b)
  {
    ReachIsClosed(g, a);
    ReachIsClosed(g, b);
    ReachIsClosed(g, a + b);
    ReachIsLeast(g, a + b, Reach(g, a) + Reach(g, b));
    ReachIsLeast(g, a, Reach(g, a + b));
    ReachIsLeast(g, b, Reach(g, a + b));
  }

  lemma ReachMonotone(g: Graph, a: set<ObjectID>, b: set<ObjectID>)
    requires a <= b
    ensures Reach(g, a) <= Reach(g, b)
  {
    ReachOfUnion(g, a, b);
    assert a + b == b;
  }

  // Starting again from anything already reached adds nothing.
  lemma ReachAbsorbs(g: Graph, a: set<ObjectID>, b: set<ObjectID>)
    requires forall r :: r in b && g.ValidID(r) ==> r in Reach(g, a)
    ensures Reach(g, b) <= Reach(g, a)
  {
    ReachIsClosed(g, a);
    ReachIsLeast(g, b, Reach(g, a));
  }

  // Whatever is reached is reached from a single root.
  lemma ReachFromOne(g: Graph, roots: set<ObjectID>, id: ObjectID) returns (r: ObjectID)
    requires id in Reach(g, roots)
    ensures r in roots && id in Reach(g, {r})
  {
    var p :| IsPathFrom(g, roots, p, id);
    r := p[0];
    assert IsPathFrom(g, {r}, p, id);
  }
}
