// The resolved analysis of a session, goroutine selection, and shallow measures
// (internal/memusage: request.go, compute.go, multibubble.go).
module Analyses {
  import opened Words
  import opened Wrappers
  import opened Graphs

  type Labels = map<string, string>

  datatype Goroutine = Goroutine(id: u64, isSystem: bool, isBackground: bool, roots: seq<RootRef>)

  datatype Analysis = Analysis(graph: Graph, goroutines: seq<Goroutine>, globals: seq<RootRef>)

  // Zero or negative limits select the defaults.
  datatype Options = Options(includeSystemGoroutines: bool, maxLabels: int, maxLabelKeyBytes: int, maxLabelValueBytes: int)

  datatype Error =
    | InvalidRequest
    | SnapshotClosed
    | UnsupportedRuntime
    | StringMissing
    | LabelRecoveryFailed(failedGoroutines: nat)
    | BytesOverflow
    | PprofRange
    | OutsideSelection(id: ObjectID)

  function Effective(limit: int, default: int): int
  {
    if limit <= 0 then default else limit
  }

  // Non-empty labels map, non-empty keys, and counts and lengths within limits.
  predicate ValidRequest(labels: Labels, opts: Options)
  {
    && 0 < |labels| <= Effective(opts.maxLabels, 32)
    && (forall k :: k in labels ==> 0 < |k| <= Effective(opts.maxLabelKeyBytes, 1024))
    && (forall k :: k in labels ==> |labels[k]| <= Effective(opts.maxLabelValueBytes, 4096))
  }

  predicate IsRuntime(g: Goroutine) { g.isSystem || g.isBackground }

  // May take part in label matching.
  predicate Eligible(g: Goroutine, opts: Options)
  {
    opts.includeSystemGoroutines || !IsRuntime(g)
  }

  function LabelsOf(labels: map<u64, Labels>, id: u64): Labels
  {
    if id in labels then labels[id] else map[]
  }

  predicate Matches(have: Labels, want: Labels)
  {
    forall k :: k in want ==> k in have && have[k] == want[k]
  }

  // LabelsMatch visits the selector in an arbitrary order; the answer does not
  // depend on it.
  method LabelsMatch(have: Labels, want: Labels) returns (ok: bool)
    ensures ok <==> Matches(have, want)
  {
    var todo := want.Keys;
    while todo != {}
      invariant todo <= want.Keys
      invariant forall k :: k in want && k !in todo ==> k in have && have[k] == want[k]
      decreases todo
    {
      var k :| k in todo;
      if k !in have || have[k] != want[k] {
        return false;
      }
      todo := todo - {k};
    }
    return true;
  }

  predicate IsSelected(g: Goroutine, labels: map<u64, Labels>, opts: Options, want: Labels)
  {
    Eligible(g, opts) && Matches(LabelsOf(labels, g.id), want)
  }

  // ---- Root sets of goroutine classes ----

  type Class = Goroutine -> bool

  function Selected(labels: map<u64, Labels>, opts: Options, want: Labels): Class
  {
    g => IsSelected(g, labels, opts, want)
  }

  // A goroutine with this ID holds the root r.
  ghost predicate Owns(gs: seq<Goroutine>, id: u64, r: RootRef)
  {
    exists i :: 0 <= i < |gs| && gs[i].id == id && r in gs[i].roots
  }

  // Every goroutine.
  const Everyone: Class := _ => true

  // The goroutines with one of the given IDs.
  function InIDs(gids: set<u64>): Class { (g: Goroutine) => g.id in gids }

  // Goroutines that cannot be matched although they carry one of the given IDs.
  function ShadowsIn(opts: Options, gids: set<u64>): Class { (g: Goroutine) => g.id in gids && !Eligible(g, opts) }

  // A selector that is valid whatever the limits.
  const ONE_LABEL: Labels := map["k" := "v"]

  lemma OneLabelIsValid(opts: Options)
    ensures ValidRequest(ONE_LABEL, opts)
  {
    assert forall k :: k in ONE_LABEL ==> |k| == 1 && |ONE_LABEL[k]| == 1;
  }

  ghost function RootsUpTo(gs: seq<Goroutine>, n: nat, c: Class): set<ObjectID>
    requires n <= |gs|
  {
    if n == 0 then {}
    else RootsUpTo(gs, n - 1, c) + (if c(gs[n - 1]) then RootSet(gs[n - 1].roots) else {})
  }

  // The objects the roots of the goroutines in class c refer to.
  ghost function Roots(gs: seq<Goroutine>, c: Class): set<ObjectID>
  {
    RootsUpTo(gs, |gs|, c)
  }

  ghost function GlobalReach(a: Analysis): set<ObjectID>
  {
    Reach(a.graph, RootSet(a.globals))
  }

  ghost function IDsUpTo(gs: seq<Goroutine>, n: nat, c: Class): set<u64>
    requires n <= |gs|
  {
    if n == 0 then {}
    else IDsUpTo(gs, n - 1, c) + (if c(gs[n - 1]) then {gs[n - 1].id} else {})
  }

  ghost function IDs(gs: seq<Goroutine>, c: Class): set<u64>
  {
    IDsUpTo(gs, |gs|, c)
  }

  ghost function CountUpTo(gs: seq<Goroutine>, n: nat, c: Class): nat
    requires n <= |gs|
  {
    if n == 0 then 0
    else CountUpTo(gs, n - 1, c) + (if c(gs[n - 1]) then 1 else 0)
  }

  lemma RootSetConcat(a: seq<RootRef>, b: seq<RootRef>)
    ensures RootSet(a + b) == RootSet(a) + RootSet(b)
  {
    forall r | r in RootSet(a + b)
      ensures r in RootSet(a) + RootSet(b)
    {
      var x :| x in a + b && x.objectID == r;
      assert x in a || x in b;
    }
    forall r | r in RootSet(a) + RootSet(b)
      ensures r in RootSet(a + b)
    {
      if r in RootSet(a) {
        var x :| x in a && x.objectID == r;
        assert x in a + b;
      } else {
        var x :| x in b && x.objectID == r;
        assert x in a + b;
      }
    }
  }

  // Classes that agree on every goroutine have the same roots.
  lemma {:induction false} RootsSame(gs: seq<Goroutine>, n: nat, a: Class, b: Class)
    requires n <= |gs| && forall i :: 0 <= i < n ==> (a(gs[i]) <==> b(gs[i]))
    ensures RootsUpTo(gs, n, a) == RootsUpTo(gs, n, b)
  {
    if n > 0 {
      RootsSame(gs, n - 1, a, b);
    }
  }

  lemma {:induction false} RootsSplit(gs: seq<Goroutine>, n: nat, c: Class, a: Class, b: Class)
    requires n <= |gs| && forall i :: 0 <= i < n ==> (c(gs[i]) <==> a(gs[i]) || b(gs[i]))
    ensures RootsUpTo(gs, n, c) == RootsUpTo(gs, n, a) + RootsUpTo(gs, n, b)
  {
    if n > 0 {
      RootsSplit(gs, n - 1, c, a, b);
    }
  }

  lemma {:induction false} RootsSmaller(gs: seq<Goroutine>, n: nat, a: Class, b: Class)
    requires n <= |gs| && forall i :: 0 <= i < n && a(gs[i]) ==> b(gs[i])
    ensures RootsUpTo(gs, n, a) <= RootsUpTo(gs, n, b)
  {
    if n > 0 {
      RootsSmaller(gs, n - 1, a, b);
    }
  }

  lemma {:induction false} RootsMember(gs: seq<Goroutine>, n: nat, c: Class, r: ObjectID)
    requires n <= |gs|
    ensures r in RootsUpTo(gs, n, c) <==> exists i :: 0 <= i < n && c(gs[i]) && r in RootSet(gs[i].roots)
  {
    if n > 0 {
      RootsMember(gs, n - 1, c, r);
    }
  }

  lemma {:induction false} IDsMember(gs: seq<Goroutine>, n: nat, c: Class, id: u64)
    requires n <= |gs|
    ensures id in IDsUpTo(gs, n, c) <==> exists i :: 0 <= i < n && c(gs[i]) && gs[i].id == id
  {
    if n > 0 {
      IDsMember(gs, n - 1, c, id);
    }
  }

  // ---- Measures ----

  datatype Measure = Measure(objects: nat, bytes: nat)

  // Shallow bytes of the members of s below n.
  ghost function BytesUpTo(objects: seq<Object>, s: set<ObjectID>, n: nat): nat
    requires n <= |objects|
  {
    if n == 0 then 0
    else BytesUpTo(objects, s, n - 1) + (if n - 1 in s then objects[n - 1].size else 0)
  }

  ghost function Bytes(g: Graph, s: set<ObjectID>): nat
  {
    BytesUpTo(g.objects, s, |g.objects|)
  }

  ghost function MeasureOf(g: Graph, s: set<ObjectID>): Measure
  {
    Measure(|s|, Bytes(g, s))
  }

  lemma {:induction false} BytesAdd(objects: seq<Object>, a: set<ObjectID>, b: set<ObjectID>, n: nat)
    requires n <= |objects| && a !! b
    ensures BytesUpTo(objects, a + b, n) == BytesUpTo(objects, a, n) + BytesUpTo(objects, b, n)
  {
    if n > 0 {
      BytesAdd(objects, a, b, n - 1);
    }
  }

  lemma {:induction false} BytesOne(objects: seq<Object>, id: ObjectID, n: nat)
    requires n <= |objects|
    ensures BytesUpTo(objects, {id}, n) == if id < n then objects[id].size else 0
  {
    if n > 0 {
      BytesOne(objects, id, n - 1);
    }
  }

  lemma {:induction false} BytesNone(objects: seq<Object>, n: nat)
    requires n <= |objects|
    ensures BytesUpTo(objects, {}, n) == 0
  {
    if n > 0 {
      BytesNone(objects, n - 1);
    }
  }

  lemma BytesMonotone(g: Graph, a: set<ObjectID>, b: set<ObjectID>)
    requires a <= b
    ensures Bytes(g, a) <= Bytes(g, b)
  {
    assert b == a + (b - a);
    BytesAdd(g.objects, a, b - a, |g.objects|);
  }

  // Objects and bytes of disjoint parts add up.
  lemma MeasureAdds(g: Graph, a: set<ObjectID>, b: set<ObjectID>)
    requires a !! b
    ensures MeasureOf(g, a + b) == Measure(MeasureOf(g, a).objects + MeasureOf(g, b).objects, MeasureOf(g, a).bytes + MeasureOf(g, b).bytes)
  {
    BytesAdd(g.objects, a, b, |g.objects|);
  }

  lemma BytesInsert(g: Graph, s: set<ObjectID>, id: ObjectID)
    requires id !in s && g.ValidID(id)
    ensures Bytes(g, s + {id}) == Bytes(g, s) + g.objects[id].size
  {
    BytesAdd(g.objects, s, {id}, |g.objects|);
    BytesOne(g.objects, id, |g.objects|);
  }

  // measure visits the set in an arbitrary order. It fails exactly when the true
  // total does not fit 64 bits, whatever the order.
  method MeasureSet(g: Graph, s: set<ObjectID>) returns (r: Result<Measure, Error>)
    requires forall id :: id in s ==> g.ValidID(id)
    ensures r == if Bytes(g, s) <= MAX_U64 then Ok(MeasureOf(g, s)) else Err(BytesOverflow)
  {
    var objects: nat, bytes: u64 := 0, 0;
    var todo := s;
    ghost var done: set<ObjectID> := {};
    BytesNone(g.objects, |g.objects|);
    while todo != {}
      invariant done !! todo && done + todo == s
      invariant objects == |done| && bytes == Bytes(g, done)
      decreases todo
    {
      var id :| id in todo;
      var size := g.objects[id].size;
      BytesInsert(g, done, id);
      BytesMonotone(g, done + {id}, s);
      if size > MAX_U64 - bytes {
        return Err(BytesOverflow);
      }
      objects, bytes := objects + 1, bytes + size;
      todo, done := todo - {id}, done + {id};
    }
    assert done == s;
    return Ok(Measure(objects, bytes));
  }
}
