// The uncached answer to a query and the cached computation (internal/memusage/compute.go).
module Compute {
  import opened Words
  import opened Wrappers
  import opened Graphs
  import opened Reachability
  import opened Analyses
  import opened Holdings

  // Label-decode failures. Without per-goroutine detail only the counts are known.
  datatype Diagnostics = Diagnostics(
    unsupportedRuntime: bool,
    stringMissingCount: nat,
    failedGoroutines: nat,
    stringMissingGIDs: Option<set<u64>>,
    failedGIDs: Option<set<u64>>)
  {
    predicate HasIDs() { stringMissingGIDs.Some? || failedGIDs.Some? }

    function Missing(): set<u64> { if stringMissingGIDs.Some? then stringMissingGIDs.value else {} }

    function Failed(): set<u64> { if failedGIDs.Some? then failedGIDs.value else {} }
  }

  function EligibleClass(opts: Options): Class { (g: Goroutine) => Eligible(g, opts) }

  // The members of ids that count against a request: eligible, or not in the
  // analysis at all.
  ghost function Counting(ids: set<u64>, known: set<u64>, eligible: set<u64>): set<u64>
  {
    set id | id in ids && (id in eligible || id !in known)
  }

  method EligibleFailures(d: Diagnostics, known: set<u64>, eligible: set<u64>) returns (stringMissing: nat, failed: nat)
    ensures !d.HasIDs() ==> stringMissing == d.stringMissingCount && failed == d.failedGoroutines
    ensures d.HasIDs() ==> stringMissing == |Counting(d.Missing(), known, eligible)|
    ensures d.HasIDs() ==> failed == |Counting(d.Failed() + d.Missing(), known, eligible)|
  {
    if !d.HasIDs() {
      return d.stringMissingCount, d.failedGoroutines;
    }
    var F, M := d.Failed(), d.Missing();
    stringMissing, failed := CountFailed(F, M, known, eligible);
    stringMissing, failed := CountUnfolded(F, M, known, eligible, stringMissing, failed);
  }

  // First pass: every failed ID, noting which also miss a string.
  method CountFailed(F: set<u64>, M: set<u64>, known: set<u64>, eligible: set<u64>) returns (stringMissing: nat, failed: nat)
    ensures failed == |Counting(F, known, eligible)|
    ensures stringMissing == |Counting(F * M, known, eligible)|
  {
    stringMissing, failed := 0, 0;
    var todo := F;
    ghost var done: set<u64> := {};
    while todo != {}
      invariant done !! todo && done + todo == F
      invariant failed == |Counting(done, known, eligible)|
      invariant stringMissing == |Counting(done * M, known, eligible)|
      decreases todo
    {
      var id :| id in todo;
      FirstLoopStep(M, done, id, known, eligible);
      todo, done := todo - {id}, done + {id};
      if !(id in eligible) && id in known {
        continue;
      }
      failed := failed + 1;
      if id in M {
        stringMissing := stringMissing + 1;
      }
    }
    assert done == F;
  }

  // Second pass: string-missing IDs that were not folded into the failed ones.
  method CountUnfolded(F: set<u64>, M: set<u64>, known: set<u64>, eligible: set<u64>, stringMissing0: nat, failed0: nat)
    returns (stringMissing: nat, failed: nat)
    requires failed0 == |Counting(F, known, eligible)|
    requires stringMissing0 == |Counting(F * M, known, eligible)|
    ensures failed == |Counting(F + M, known, eligible)|
    ensures stringMissing == |Counting(M, known, eligible)|
  {
    stringMissing, failed := stringMissing0, failed0;
    var todo := M;
    ghost var done: set<u64> := {};
    assert F + done == F && F * M + done == F * M;
    while todo != {}
      invariant done !! todo && done + todo == M
      invariant failed == |Counting(F + done, known, eligible)|
      invariant stringMissing == |Counting(F * M + done, known, eligible)|
      decreases todo
    {
      var id :| id in todo;
      SecondLoopStep(F, M, done, id, known, eligible);
      todo, done := todo - {id}, done + {id};
      if id in F {
        continue;
      }
      if !(id in eligible) && id in known {
        continue;
      }
      failed := failed + 1;
      stringMissing := stringMissing + 1;
    }
    assert done == M;
    assert F * M + M == M;
  }

  lemma FirstLoopStep(M: set<u64>, done: set<u64>, id: u64, known: set<u64>, eligible: set<u64>)
    requires id !in done
    ensures var more := if id in eligible || id !in known then 1 else 0;
      && |Counting(done + {id}, known, eligible)| == |Counting(done, known, eligible)| + more
      && |Counting((done + {id}) * M, known, eligible)| == |Counting(done * M, known, eligible)| + (if id in M then more else 0)
  {
    CountingAdd(done, id, known, eligible);
    if id in M {
      assert (done + {id}) * M == done * M + {id};
      CountingAdd(done * M, id, known, eligible);
    } else {
      assert (done + {id}) * M == done * M;
    }
  }

  lemma CountingAdd(s: set<u64>, id: u64, known: set<u64>, eligible: set<u64>)
    requires id !in s
    ensures |Counting(s + {id}, known, eligible)| == |Counting(s, known, eligible)| + (if id in eligible || id !in known then 1 else 0)
  {
    if id in eligible || id !in known {
      assert Counting(s + {id}, known, eligible) == Counting(s, known, eligible) + {id};
    } else {
      assert Counting(s + {id}, known, eligible) == Counting(s, known, eligible);
    }
  }

  lemma SecondLoopStep(F: set<u64>, M: set<u64>, done: set<u64>, id: u64, known: set<u64>, eligible: set<u64>)
    requires id in M && id !in done && done <= M
    ensures var more := if id !in F && (id in eligible || id !in known) then 1 else 0;
      && |Counting(F + (done + {id}), known, eligible)| == |Counting(F + done, known, eligible)| + more
      && |Counting(F * M + (done + {id}), known, eligible)| == |Counting(F * M + done, known, eligible)| + more
  {
    if id in F {
      assert F + (done + {id}) == F + done;
      assert F * M + (done + {id}) == F * M + done;
    } else {
      assert F + (done + {id}) == (F + done) + {id};
      assert F * M + (done + {id}) == (F * M + done) + {id};
      CountingAdd(F + done, id, known, eligible);
      CountingAdd(F * M + done, id, known, eligible);
    }
  }

  // The error the failures amount to; missing strings take priority.
  ghost function FailureError(d: Diagnostics, known: set<u64>, eligible: set<u64>): Option<Error>
  {
    var missing := if d.HasIDs() then |Counting(d.Missing(), known, eligible)| else d.stringMissingCount;
    var failed := if d.HasIDs() then |Counting(d.Failed() + d.Missing(), known, eligible)| else d.failedGoroutines;
    if missing > 0 then Some(StringMissing)
    else if failed > 0 then Some(LabelRecoveryFailed(failed))
    else None
  }

  method EligibleFailureError(d: Diagnostics, known: set<u64>, eligible: set<u64>) returns (e: Option<Error>)
    ensures e == FailureError(d, known, eligible)
  {
    var missing, failed := EligibleFailures(d, known, eligible);
    if missing > 0 {
      return Some(StringMissing);
    }
    if failed > 0 {
      return Some(LabelRecoveryFailed(failed));
    }
    return None;
  }

  // ---- The answer ----

  datatype Response = Response(
    matchedGoroutines: nat,
    reachableObjects: nat,
    reachableBytes: nat,
    globalOverlapObjects: nat,
    globalOverlapBytes: nat,
    systemOverlapObjects: nat,
    systemOverlapBytes: nat)

  function RuntimeClass(): Class { (g: Goroutine) => IsRuntime(g) }

  ghost function SystemReach(a: Analysis): set<ObjectID>
  {
    Reach(a.graph, Roots(a.goroutines, RuntimeClass()))
  }

  // Byte totals here are 64-bit sums without an overflow check.
  ghost function WrapBytes(g: Graph, s: set<ObjectID>): nat
  {
    Bytes(g, s) % TWO64
  }

  ghost function Payload(a: Analysis, labels: map<u64, Labels>, opts: Options, want: Labels): Response
  {
    var U := Reach(a.graph, Roots(a.goroutines, Selected(labels, opts, want)));
    var S := if opts.includeSystemGoroutines then {} else SystemReach(a);
    Response(
      CountUpTo(a.goroutines, |a.goroutines|, Selected(labels, opts, want)),
      |U|, WrapBytes(a.graph, U),
      |U * GlobalReach(a)|, WrapBytes(a.graph, U * GlobalReach(a)),
      |U * S|, WrapBytes(a.graph, U * S))
  }

  // ComputeFromAnalysis as a mathematical function: no index, no cache.
  ghost function Answer(a: Analysis, labels: map<u64, Labels>, d: Diagnostics, opts: Options, want: Labels): Result<Response, Error>
  {
    if !ValidRequest(want, opts) then Err(InvalidRequest)
    else if d.unsupportedRuntime then Err(UnsupportedRuntime)
    else
      var known, eligible := IDs(a.goroutines, Everyone), IDs(a.goroutines, EligibleClass(opts));
      var e := FailureError(d, known, eligible);
      if e.Some? then Err(e.value) else Ok(Payload(a, labels, opts, want))
  }

  // ---- What an answer means ----

  // The response to a selector, each number in terms of goroutines and objects.
  ghost predicate IsResponse(a: Analysis, labels: map<u64, Labels>, opts: Options, want: Labels, r: Response)
  {
    var P := Picked(a, labels, opts, want);
    var U, G, S := HeldBy(a, P), Reach(a.graph, RootSet(a.globals)), HeldBy(a, OfRuntime(a, opts));
    && r.matchedGoroutines == |P|
    && r.reachableObjects == |U| && r.reachableBytes == Bytes(a.graph, U) % TWO64
    && r.globalOverlapObjects == |U * G| && r.globalOverlapBytes == Bytes(a.graph, U * G) % TWO64
    && r.systemOverlapObjects == |U * S| && r.systemOverlapBytes == Bytes(a.graph, U * S) % TWO64
  }

  predicate CarriedAt(gs: seq<Goroutine>, i: nat, id: u64) { i < |gs| && gs[i].id == id }

  // The failure of this ID leaves the selection open: a goroutine that takes part in
  // matching carries it, or no goroutine does.
  ghost predicate Matters(gs: seq<Goroutine>, opts: Options, id: u64)
  {
    || (forall i: nat :: !CarriedAt(gs, i, id))
    || exists i: nat :: CarriedAt(gs, i, id) && (opts.includeSystemGoroutines || (!gs[i].isSystem && !gs[i].isBackground))
  }

  ghost predicate SomeStringMissing(a: Analysis, d: Diagnostics, opts: Options)
  {
    if d.HasIDs() then exists id :: id in d.Missing() && Matters(a.goroutines, opts, id) else d.stringMissingCount > 0
  }

  ghost function FailureCount(a: Analysis, d: Diagnostics, opts: Options): nat
  {
    if d.HasIDs() then |set id | id in d.Failed() + d.Missing() && Matters(a.goroutines, opts, id)| else d.failedGoroutines
  }

  // The errors in the order they are looked for, and otherwise the response.
  ghost predicate IsOutcome(a: Analysis, labels: map<u64, Labels>, d: Diagnostics, opts: Options, want: Labels, r: Result<Response, Error>)
  {
    if !ValidRequest(want, opts) then r == Err(InvalidRequest)
    else if d.unsupportedRuntime then r == Err(UnsupportedRuntime)
    else if SomeStringMissing(a, d, opts) then r == Err(StringMissing)
    else if FailureCount(a, d, opts) > 0 then r == Err(LabelRecoveryFailed(FailureCount(a, d, opts)))
    else r.Ok? && IsResponse(a, labels, opts, want, r.value)
  }

  lemma PayloadIsResponse(a: Analysis, labels: map<u64, Labels>, opts: Options, want: Labels)
    ensures IsResponse(a, labels, opts, want, Payload(a, labels, opts, want))
  {
    var gs, sel := a.goroutines, Selected(labels, opts, want);
    assert Picked(a, labels, opts, want) == Members(gs, |gs|, sel);
    CountIsMembers(gs, |gs|, sel);
    HeldIsReach(a, sel);
    if opts.includeSystemGoroutines {
      assert OfRuntime(a, opts) == {};
      assert HeldBy(a, {}) == {};
      assert HeldBy(a, Picked(a, labels, opts, want)) * {} == {};
    } else {
      assert OfRuntime(a, opts) == Members(gs, |gs|, RuntimeClass());
      HeldIsReach(a, RuntimeClass());
    }
  }

  lemma MattersIs(a: Analysis, opts: Options, id: u64)
    ensures Matters(a.goroutines, opts, id) <==>
      id in IDs(a.goroutines, EligibleClass(opts)) || id !in IDs(a.goroutines, Everyone)
  {
    var gs := a.goroutines;
    IDsMember(gs, |gs|, EligibleClass(opts), id);
    IDsMember(gs, |gs|, Everyone, id);
    if i: nat :| i < |gs| && EligibleClass(opts)(gs[i]) && gs[i].id == id {
      assert CarriedAt(gs, i, id);
    }
    if i: nat :| i < |gs| && Everyone(gs[i]) && gs[i].id == id {
      assert CarriedAt(gs, i, id);
    }
  }

  lemma CountingIsMattering(a: Analysis, opts: Options, ids: set<u64>)
    ensures Counting(ids, IDs(a.goroutines, Everyone), IDs(a.goroutines, EligibleClass(opts))) ==
      set id | id in ids && Matters(a.goroutines, opts, id)
  {
    forall id | id in ids
      ensures id in Counting(ids, IDs(a.goroutines, Everyone), IDs(a.goroutines, EligibleClass(opts))) <==> Matters(a.goroutines, opts, id)
    {
      MattersIs(a, opts, id);
    }
  }

  lemma FailureMeans(a: Analysis, d: Diagnostics, opts: Options)
    ensures FailureError(d, IDs(a.goroutines, Everyone), IDs(a.goroutines, EligibleClass(opts))) ==
      if SomeStringMissing(a, d, opts) then Some(StringMissing)
      else if FailureCount(a, d, opts) > 0 then Some(LabelRecoveryFailed(FailureCount(a, d, opts)))
      else None
  {
    if d.HasIDs() {
      CountingIsMattering(a, opts, d.Missing());
      CountingIsMattering(a, opts, d.Failed() + d.Missing());
      var missing := set id | id in d.Missing() && Matters(a.goroutines, opts, id);
      SomeMember(missing);
      if SomeStringMissing(a, d, opts) {
        var id :| id in d.Missing() && Matters(a.goroutines, opts, id);
        assert id in missing;
      } else {
        assert missing == {};
      }
    }
  }

  lemma SomeMember(s: set<u64>)
    ensures |s| > 0 <==> exists id :: id in s
  {
    if |s| > 0 {
      var id :| id in s;
    }
  }

  lemma AnswerMeans(a: Analysis, labels: map<u64, Labels>, d: Diagnostics, opts: Options, want: Labels)
    ensures IsOutcome(a, labels, d, opts, want, Answer(a, labels, d, opts, want))
  {
    FailureMeans(a, d, opts);
    PayloadIsResponse(a, labels, opts, want);
  }

  // ---- Wrapping sums over sets ----

  lemma SumStep(g: Graph, done: set<ObjectID>, id: ObjectID)
    requires id !in done
    ensures WrapBytes(g, done + {id}) == (WrapBytes(g, done) + (if g.ValidID(id) then g.objects[id].size else 0)) % TWO64
  {
    BytesAdd(g.objects, done, {id}, |g.objects|);
    BytesOne(g.objects, id, |g.objects|);
    WrapAdd(Bytes(g, done), if g.ValidID(id) then g.objects[id].size else 0);
  }

  method SetBytes(g: Graph, s: set<ObjectID>) returns (bytes: nat)
    ensures bytes == WrapBytes(g, s)
  {
    bytes := 0;
    var todo := s;
    ghost var done: set<ObjectID> := {};
    BytesNone(g.objects, |g.objects|);
    while todo != {}
      invariant done !! todo && done + todo == s
      invariant bytes == WrapBytes(g, done)
      decreases todo
    {
      var id :| id in todo;
      SumStep(g, done, id);
      if g.ValidID(id) {
        bytes := (bytes + g.objects[id].size) % TWO64;
      }
      todo, done := todo - {id}, done + {id};
    }
    assert done == s;
  }

  lemma WrapAdd(x: nat, y: u64)
    ensures (x % TWO64 + y) % TWO64 == (x + y) % TWO64
  {
    var q, r := x / TWO64, x % TWO64;
    assert x + y == q * TWO64 + (r + y);
    if r + y < TWO64 {
      ModIs(x + y, q, r + y);
    } else {
      assert x + y == (q + 1) * TWO64 + (r + y - TWO64);
      ModIs(x + y, q + 1, r + y - TWO64);
    }
  }

  lemma ModIs(n: nat, q: nat, r: nat)
    requires r < TWO64 && n == q * TWO64 + r
    ensures n % TWO64 == r
  {
    assert n / TWO64 == q;
  }

  lemma IntersectStep(g: Graph, done: set<ObjectID>, large: set<ObjectID>, id: ObjectID)
    requires id !in done
    ensures id !in large ==> (done + {id}) * large == done * large
    ensures id in large ==>
      && |(done + {id}) * large| == |done * large| + 1
      && WrapBytes(g, (done + {id}) * large) == (WrapBytes(g, done * large) + (if g.ValidID(id) then g.objects[id].size else 0)) % TWO64
  {
    if id in large {
      assert (done + {id}) * large == done * large + {id};
      SumStep(g, done * large, id);
    } else {
      assert (done + {id}) * large == done * large;
    }
  }

  // Intersects by walking the smaller set. IDs of no object are counted, with no bytes.
  method IntersectCountBytes(g: Graph, a: set<ObjectID>, b: set<ObjectID>) returns (count: nat, bytes: nat)
    ensures count == |a * b| && bytes == WrapBytes(g, a * b)
  {
    if |a| == 0 || |b| == 0 {
      BytesNone(g.objects, |g.objects|);
      assert a * b == {};
      return 0, 0;
    }
    if |b| < |a| {
      count, bytes := CountCommon(g, b, a);
      assert b * a == a * b;
    } else {
      count, bytes := CountCommon(g, a, b);
    }
  }

  method CountCommon(g: Graph, small: set<ObjectID>, large: set<ObjectID>) returns (count: nat, bytes: nat)
    ensures count == |small * large| && bytes == WrapBytes(g, small * large)
  {
    BytesNone(g.objects, |g.objects|);
    count, bytes := 0, 0;
    var todo := small;
    ghost var done: set<ObjectID> := {};
    assert done * large == {};
    while todo != {}
      invariant done !! todo && done + todo == small
      invariant count == |done * large| && bytes == WrapBytes(g, done * large)
      decreases todo
    {
      var id :| id in todo;
      IntersectStep(g, done, large, id);
      todo, done := todo - {id}, done + {id};
      if id !in large {
        continue;
      }
      count := count + 1;
      if g.ValidID(id) {
        bytes := (bytes + g.objects[id].size) % TWO64;
      }
    }
    assert done == small;
  }

  // ---- The computation ----

  datatype Cache = Cache(global: Option<set<ObjectID>>, system: Option<set<ObjectID>>)

  // A filled slot holds the set it stands for.
  ghost predicate CacheOK(a: Analysis, c: Cache)
  {
    && (c.global.Some? ==> c.global.value == GlobalReach(a))
    && (c.system.Some? ==> c.system.value == SystemReach(a))
  }

  // candidates may leave out only goroutines that are not selected anyway.
  ghost predicate CandidatesOK(a: Analysis, labels: map<u64, Labels>, opts: Options, want: Labels, candidates: Option<set<u64>>)
  {
    candidates.Some? ==>
      forall i :: 0 <= i < |a.goroutines| && IsSelected(a.goroutines[i], labels, opts, want) ==> a.goroutines[i].id in candidates.value
  }

  datatype Matching = Matching(roots: seq<RootRef>, matched: nat, system: seq<RootRef>, systemCount: nat, known: set<u64>, eligible: set<u64>)

  ghost predicate MatchedUpTo(gs: seq<Goroutine>, n: nat, labels: map<u64, Labels>, opts: Options, want: Labels, m: Matching)
    requires n <= |gs|
  {
    && RootSet(m.roots) == RootsUpTo(gs, n, Selected(labels, opts, want))
    && m.matched == CountUpTo(gs, n, Selected(labels, opts, want))
    && RootSet(m.system) == RootsUpTo(gs, n, RuntimeClass())
    && m.systemCount == CountUpTo(gs, n, RuntimeClass())
    && m.known == IDsUpTo(gs, n, Everyone)
    && m.eligible == IDsUpTo(gs, n, EligibleClass(opts))
  }

  method MatchOne(a: Analysis, i: nat, labels: map<u64, Labels>, opts: Options, want: Labels, candidates: Option<set<u64>>, m0: Matching) returns (m: Matching)
    requires i < |a.goroutines| && CandidatesOK(a, labels, opts, want, candidates)
    requires MatchedUpTo(a.goroutines, i, labels, opts, want, m0)
    ensures MatchedUpTo(a.goroutines, i + 1, labels, opts, want, m)
  {
    var g := a.goroutines[i];
    RootSetConcat(m0.roots, g.roots);
    RootSetConcat(m0.system, g.roots);
    m := m0.(known := m0.known + {g.id});
    var isSystem := g.isSystem || g.isBackground;
    if isSystem {
      m := m.(system := m.system + g.roots, systemCount := m.systemCount + 1);
      if !opts.includeSystemGoroutines {
        return;
      }
    }
    m := m.(eligible := m.eligible + {g.id});
    if candidates.Some? {
      if g.id !in candidates.value {
        return;
      }
    }
    var ok := LabelsMatch(LabelsOf(labels, g.id), want);
    if !ok {
      return;
    }
    m := m.(roots := m.roots + g.roots, matched := m.matched + 1);
  }

  method MatchAll(a: Analysis, labels: map<u64, Labels>, opts: Options, want: Labels, candidates: Option<set<u64>>) returns (m: Matching)
    requires CandidatesOK(a, labels, opts, want, candidates)
    ensures MatchedUpTo(a.goroutines, |a.goroutines|, labels, opts, want, m)
  {
    m := Matching([], 0, [], 0, {}, {});
    for i := 0 to |a.goroutines|
      invariant MatchedUpTo(a.goroutines, i, labels, opts, want, m)
    {
      m := MatchOne(a, i, labels, opts, want, candidates, m);
    }
  }

  lemma {:induction false} NoneCounted(gs: seq<Goroutine>, n: nat, c: Class)
    requires n <= |gs| && CountUpTo(gs, n, c) == 0
    ensures RootsUpTo(gs, n, c) == {}
  {
    if n > 0 {
      NoneCounted(gs, n - 1, c);
    }
  }

  // Fills the slots this query needs; an empty slot stays empty otherwise.
  method Overlaps(a: Analysis, opts: Options, union: set<ObjectID>, m: Matching, cache0: Cache, ghost labels: map<u64, Labels>, ghost want: Labels)
    returns (global: set<ObjectID>, system: set<ObjectID>, cache: Cache)
    requires CacheOK(a, cache0) && MatchedUpTo(a.goroutines, |a.goroutines|, labels, opts, want, m)
    ensures CacheOK(a, cache)
    ensures union * global == union * GlobalReach(a)
    ensures union * system == union * (if opts.includeSystemGoroutines then {} else SystemReach(a))
    ensures global <= GlobalReach(a) && system <= SystemReach(a)
  {
    global, system, cache := {}, {}, cache0;
    if |union| > 0 {
      if cache.global.Some? {
        global := cache.global.value;
      } else {
        global := ReachableFrom(a.graph, a.globals);
        cache := cache.(global := Some(global));
      }
      if !opts.includeSystemGoroutines && m.systemCount > 0 {
        if cache.system.Some? {
          system := cache.system.value;
        } else {
          system := ReachableFrom(a.graph, m.system);
          cache := cache.(system := Some(system));
        }
      } else if !opts.includeSystemGoroutines {
        NoneCounted(a.goroutines, |a.goroutines|, RuntimeClass());
        ReachIsLeast(a.graph, {}, {});
      }
    }
  }

  // computeFromAnalysis: whatever the cache holds and whatever candidates leave
  // out, the result is the uncached answer, and the cache stays right.
  method ComputeFromAnalysis(a: Analysis, labels: map<u64, Labels>, d: Diagnostics, opts: Options, want: Labels, cache0: Cache, candidates: Option<set<u64>>)
    returns (r: Result<Response, Error>, cache: Cache)
    requires CacheOK(a, cache0) && CandidatesOK(a, labels, opts, want, candidates)
    ensures r == Answer(a, labels, d, opts, want)
    ensures IsOutcome(a, labels, d, opts, want, r)
    ensures CacheOK(a, cache)
  {
    AnswerMeans(a, labels, d, opts, want);
    cache := cache0;
    if !ValidRequest(want, opts) {
      return Err(InvalidRequest), cache;
    }
    if d.unsupportedRuntime {
      return Err(UnsupportedRuntime), cache;
    }
    var m := MatchAll(a, labels, opts, want, candidates);
    var e := EligibleFailureError(d, m.known, m.eligible);
    if e.Some? {
      return Err(e.value), cache;
    }
    var union := ReachableFrom(a.graph, m.roots);
    var global, system;
    global, system, cache := Overlaps(a, opts, union, m, cache, labels, want);
    var globalCount, globalBytes := IntersectCountBytes(a.graph, union, global);
    var systemCount, systemBytes := IntersectCountBytes(a.graph, union, system);
    var bytes := SetBytes(a.graph, union);
    return Ok(Response(m.matched, |union|, bytes, globalCount, globalBytes, systemCount, systemBytes)), cache;
  }

  // ---- Authority of a successful answer ----

  // Success means every failed goroutine is known and none of the goroutines
  // that could be matched carries a failed ID.
  lemma SuccessExcludesFailed(a: Analysis, labels: map<u64, Labels>, d: Diagnostics, opts: Options, want: Labels, i: nat)
    requires d.HasIDs() && Answer(a, labels, d, opts, want).Ok?
    requires i < |a.goroutines| && Eligible(a.goroutines[i], opts)
    ensures a.goroutines[i].id !in d.Failed() + d.Missing()
  {
    var gs, id := a.goroutines, a.goroutines[i].id;
    IDsMember(gs, |gs|, EligibleClass(opts), id);
    assert EligibleClass(opts)(gs[i]);
    var known, eligible := IDs(gs, Everyone), IDs(gs, EligibleClass(opts));
    assert id in d.Failed() + d.Missing() ==> id in Counting(d.Failed() + d.Missing(), known, eligible);
  }

  // Replacing the labels of all failed goroutines by anything leaves a
  // successful response unchanged.
  lemma SuccessIsAuthoritative(a: Analysis, labels: map<u64, Labels>, truth: map<u64, Labels>, d: Diagnostics, opts: Options, want: Labels)
    requires d.HasIDs() && Answer(a, labels, d, opts, want).Ok?
    requires forall id :: id !in d.Failed() + d.Missing() ==> LabelsOf(truth, id) == LabelsOf(labels, id)
    ensures Answer(a, truth, d, opts, want) == Answer(a, labels, d, opts, want)
  {
    var gs := a.goroutines;
    var was, now := Selected(labels, opts, want), Selected(truth, opts, want);
    forall i | 0 <= i < |gs|
      ensures now(gs[i]) <==> was(gs[i])
    {
      if Eligible(gs[i], opts) {
        SuccessExcludesFailed(a, labels, d, opts, want, i);
      }
    }
    RootsSame(gs, |gs|, now, was);
    CountSame(gs, |gs|, now, was);
  }

  lemma {:induction false} CountSame(gs: seq<Goroutine>, n: nat, a: Class, b: Class)
    requires n <= |gs| && forall i :: 0 <= i < n ==> (a(gs[i]) <==> b(gs[i]))
    ensures CountUpTo(gs, n, a) == CountUpTo(gs, n, b)
  {
    if n > 0 {
      CountSame(gs, n - 1, a, b);
    }
  }

  lemma SubsetWraps(g: Graph, s: set<ObjectID>, t: set<ObjectID>)
    requires Bytes(g, s) <= MAX_U64
    ensures WrapBytes(g, s * t) == Bytes(g, s * t) <= Bytes(g, s)
  {
    BytesMonotone(g, s * t, s);
    ModSmall(Bytes(g, s * t));
  }

  lemma PayloadBytes(a: Analysis, labels: map<u64, Labels>, opts: Options, want: Labels)
    ensures var p, U := Payload(a, labels, opts, want), Reach(a.graph, Roots(a.goroutines, Selected(labels, opts, want)));
      && p.reachableBytes == WrapBytes(a.graph, U * U)
      && p.globalOverlapBytes == WrapBytes(a.graph, U * GlobalReach(a))
      && p.systemOverlapBytes == WrapBytes(a.graph, U * (if opts.includeSystemGoroutines then {} else SystemReach(a)))
  {
    var U := Reach(a.graph, Roots(a.goroutines, Selected(labels, opts, want)));
    assert U * U == U;
  }

  // When the graph's total fits 64 bits the wrapping sums are exact.
  lemma NoWrap(a: Analysis, labels: map<u64, Labels>, opts: Options, want: Labels)
    requires Bytes(a.graph, Reach(a.graph, Roots(a.goroutines, Selected(labels, opts, want)))) <= MAX_U64
    ensures var p, U := Payload(a, labels, opts, want), Reach(a.graph, Roots(a.goroutines, Selected(labels, opts, want)));
      && p.reachableBytes == Bytes(a.graph, U)
      && p.globalOverlapBytes == Bytes(a.graph, U * GlobalReach(a)) <= p.reachableBytes
      && p.systemOverlapBytes == Bytes(a.graph, U * (if opts.includeSystemGoroutines then {} else SystemReach(a))) <= p.reachableBytes
  {
    var U := Reach(a.graph, Roots(a.goroutines, Selected(labels, opts, want)));
    var S: set<ObjectID> := if opts.includeSystemGoroutines then {} else SystemReach(a);
    PayloadBytes(a, labels, opts, want);
    assert U * U == U;
    SubsetWraps(a.graph, U, U);
    SubsetWraps(a.graph, U, GlobalReach(a));
    SubsetWraps(a.graph, U, S);
  }
}
