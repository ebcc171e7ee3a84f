// A reusable snapshot session: label index, two invariant caches, closing
// (internal/memusage/snapshot.go, with the guards of multibubble.go).
module Session {
  import opened Words
  import opened Wrappers
  import opened Graphs
  import opened Analyses
  import opened Compute
  import opened Holdings
  import Bubbles
  import Search

  type Index = map<string, map<string, seq<u64>>>

  function Lookup(index: Index, k: string, v: string): seq<u64>
  {
    if k in index && v in index[k] then index[k][v] else []
  }

  function HasLabel(labels: map<u64, Labels>, opts: Options, k: string, v: string): Class
  {
    (g: Goroutine) => Eligible(g, opts) && k in LabelsOf(labels, g.id) && LabelsOf(labels, g.id)[k] == v
  }

  // Every entry lists exactly the eligible goroutines with that label.
  ghost predicate IndexUpTo(gs: seq<Goroutine>, n: nat, labels: map<u64, Labels>, opts: Options, index: Index)
    requires n <= |gs|
  {
    forall k, v :: Search.Elements(Lookup(index, k, v)) == IDsUpTo(gs, n, HasLabel(labels, opts, k, v))
  }

  // ... where the labels done of goroutine n have been entered already.
  ghost predicate IndexPartly(gs: seq<Goroutine>, n: nat, labels: map<u64, Labels>, opts: Options, index: Index, done: set<string>)
    requires n < |gs|
  {
    forall k, v :: Search.Elements(Lookup(index, k, v)) ==
      IDsUpTo(gs, n, HasLabel(labels, opts, k, v)) + (if k in done && HasLabel(labels, opts, k, v)(gs[n]) then {gs[n].id} else {})
  }

  method IndexGoroutine(gs: seq<Goroutine>, i: nat, labels: map<u64, Labels>, opts: Options, index0: Index) returns (index: Index)
    requires i < |gs| && IndexUpTo(gs, i, labels, opts, index0)
    ensures IndexUpTo(gs, i + 1, labels, opts, index)
  {
    index := index0;
    var g := gs[i];
    if !opts.includeSystemGoroutines && IsRuntime(g) {
      return;
    }
    var have := LabelsOf(labels, g.id);
    var todo := have.Keys;
    while todo != {}
      invariant todo <= have.Keys
      invariant IndexPartly(gs, i, labels, opts, index, have.Keys - todo)
      decreases todo
    {
      var k :| k in todo;
      index := Enter(gs, i, labels, opts, index, have.Keys - todo, k);
      assert have.Keys - (todo - {k}) == (have.Keys - todo) + {k};
      todo := todo - {k};
    }
    assert have.Keys - todo == have.Keys;
  }

  method Enter(gs: seq<Goroutine>, i: nat, labels: map<u64, Labels>, opts: Options, index0: Index, ghost done: set<string>, k: string) returns (index: Index)
    requires i < |gs| && IndexPartly(gs, i, labels, opts, index0, done)
    requires k !in done && k in LabelsOf(labels, gs[i].id) && Eligible(gs[i], opts)
    ensures IndexPartly(gs, i, labels, opts, index, done + {k})
  {
    var id, v := gs[i].id, LabelsOf(labels, gs[i].id)[k];
    var values: map<string, seq<u64>> := if k in index0 then index0[k] else map[];
    var ids := Lookup(index0, k, v);
    index := index0[k := values[v := ids + [id]]];
    assert Search.Elements(ids + [id]) == Search.Elements(ids) + {id};
    forall k', v'
      ensures Lookup(index, k', v') == if k' == k && v' == v then ids + [id] else Lookup(index0, k', v')
    {}
  }

  method BuildIndex(a: Analysis, labels: map<u64, Labels>, opts: Options) returns (index: Index)
    ensures IndexUpTo(a.goroutines, |a.goroutines|, labels, opts, index)
  {
    index := map[];
    for i := 0 to |a.goroutines|
      invariant IndexUpTo(a.goroutines, i, labels, opts, index)
    {
      index := IndexGoroutine(a.goroutines, i, labels, opts, index);
    }
  }

  // Intersects the index lists of the selector's labels, taken in an arbitrary
  // order. No order loses a selected goroutine.
  method Candidates(a: Analysis, labels: map<u64, Labels>, opts: Options, index: Index, want: Labels) returns (candidates: Option<set<u64>>)
    requires IndexUpTo(a.goroutines, |a.goroutines|, labels, opts, index)
    ensures CandidatesOK(a, labels, opts, want, candidates)
  {
    var ids: set<u64> := {};
    var first := true;
    var todo := want.Keys;
    while todo != {}
      invariant todo <= want.Keys
      invariant !first ==> CandidatesOK(a, labels, opts, want, Some(ids))
      decreases todo
    {
      var k :| k in todo;
      var listed := Lookup(index, k, want[k]);
      var next := set id | id in listed && (first || id in ids);
      forall i | 0 <= i < |a.goroutines| && IsSelected(a.goroutines[i], labels, opts, want)
        ensures a.goroutines[i].id in next
      {
        SelectedIsListed(a, labels, opts, index, want, k, i);
      }
      ids, first := next, false;
      todo := todo - {k};
    }
    if first {
      return None;
    }
    return Some(ids);
  }

  lemma SelectedIsListed(a: Analysis, labels: map<u64, Labels>, opts: Options, index: Index, want: Labels, k: string, i: nat)
    requires IndexUpTo(a.goroutines, |a.goroutines|, labels, opts, index) && k in want
    requires i < |a.goroutines| && IsSelected(a.goroutines[i], labels, opts, want)
    ensures a.goroutines[i].id in Lookup(index, k, want[k])
  {
    var gs, c := a.goroutines, HasLabel(labels, opts, k, want[k]);
    IDsMember(gs, |gs|, c, gs[i].id);
    assert c(gs[i]);
    assert gs[i].id in Search.Elements(Lookup(index, k, want[k]));
  }

  class Snapshot {
    // None once the session is closed.
    var analysis: Option<Analysis>
    var labels: map<u64, Labels>
    var index: Index
    var cache: Cache
    const diag: Diagnostics
    const opts: Options

    ghost predicate Valid()
      reads this
    {
      analysis.Some? ==>
        && IndexUpTo(analysis.value.goroutines, |analysis.value.goroutines|, labels, opts, index)
        && CacheOK(analysis.value, cache)
    }

    // What a query is answered: the uncached, unindexed computation.
    ghost function Expected(want: Labels): Result<Response, Error>
      reads this
    {
      if analysis.None? then Err(SnapshotClosed)
      else Answer(analysis.value, labels, diag, opts, want)
    }

    constructor (a: Analysis, labels: map<u64, Labels>, diag: Diagnostics, opts: Options)
      ensures Valid() && analysis == Some(a) && this.labels == labels && this.diag == diag && this.opts == opts
      ensures cache == Cache(None, None)
    {
      this.analysis := Some(a);
      this.labels := labels;
      this.diag := diag;
      this.opts := opts;
      this.cache := Cache(None, None);
      var index := BuildIndex(a, labels, opts);
      this.index := index;
    }

    method Query(want: Labels) returns (r: Result<Response, Error>)
      requires Valid()
      modifies this`cache
      ensures Valid()
      ensures r == old(Expected(want))
      ensures if old(analysis).None? then r == Err(SnapshotClosed)
              else IsOutcome(old(analysis).value, labels, diag, opts, want, r)
      ensures forall w :: Expected(w) == old(Expected(w))
    {
      if analysis.None? {
        return Err(SnapshotClosed);
      }
      var candidates := Candidates(analysis.value, labels, opts, index, want);
      var c;
      r, c := ComputeFromAnalysis(analysis.value, labels, diag, opts, want, cache, candidates);
      cache := c;
    }

    method Close()
      modifies this
      ensures Valid() && analysis == None && labels == map[] && index == map[] && cache == Cache(None, None)
    {
      analysis := None;
      labels := map[];
      index := map[];
      cache := Cache(None, None);
    }

    // The guard of every inspection method: closed session, unsupported runtime,
    // or failures of goroutines that could be matched.
    method Ready() returns (e: Option<Error>)
      ensures e == ReadyError()
    {
      if analysis.None? {
        return Some(SnapshotClosed);
      }
      if diag.unsupportedRuntime {
        return Some(UnsupportedRuntime);
      }
      var gs := analysis.value.goroutines;
      var known: set<u64>, eligible: set<u64> := {}, {};
      for i := 0 to |gs|
        invariant known == IDsUpTo(gs, i, Everyone) && eligible == IDsUpTo(gs, i, EligibleClass(opts))
      {
        known := known + {gs[i].id};
        if opts.includeSystemGoroutines || !(gs[i].isSystem || gs[i].isBackground) {
          eligible := eligible + {gs[i].id};
        }
      }
      e := EligibleFailureError(diag, known, eligible);
    }

    ghost function ReadyError(): Option<Error>
      reads this
    {
      if analysis.None? then Some(SnapshotClosed)
      else if diag.unsupportedRuntime then Some(UnsupportedRuntime)
      else FailureError(diag, IDs(analysis.value.goroutines, Everyone), IDs(analysis.value.goroutines, EligibleClass(opts)))
    }

    method Exclusive(want: Labels) returns (r: Result<Bubbles.ExclusiveResult, Error>)
      ensures ReadyError().Some? ==> r == Err(ReadyError().value)
      ensures ReadyError().None? && !ValidRequest(want, opts) ==> r == Err(InvalidRequest)
      ensures ReadyError().None? ==> analysis.Some?
      ensures ReadyError().None? && ValidRequest(want, opts) ==>
        var g, i := analysis.value.graph, Bubbles.InspectionOf(analysis.value, labels, opts, want);
        r == if Bytes(g, i.selected) <= MAX_U64 then Ok(Bubbles.ExclusiveOf(g, i)) else Err(BytesOverflow)
      ensures r.Ok? ==> analysis.Some? && Bubbles.IsExclusiveAnswer(analysis.value, labels, opts, want, r.value)
    {
      var e := Ready();
      if e.Some? {
        return Err(e.value);
      }
      r := Bubbles.Exclusive(analysis.value, labels, opts, want);
    }

    // Eligible goroutines with one exact label.
    method GoroutineIDs(k: string, v: string) returns (ids: seq<u64>)
      requires Valid()
      ensures analysis.Some? ==> Search.Elements(ids) == IDs(analysis.value.goroutines, HasLabel(labels, opts, k, v))
    {
      ids := Lookup(index, k, v);
    }
  }

  // ---- Query and Exclusive ----

  // No goroutine of the runtime carries the ID of a selected one.
  ghost predicate RuntimeApart(gs: seq<Goroutine>, opts: Options, gids: set<u64>)
  {
    !opts.includeSystemGoroutines && forall i: nat, id :: CarriedAt(gs, i, id) && id in gids ==> !IsRuntime(gs[i])
  }

  lemma ResponseSets(a: Analysis, labels: map<u64, Labels>, opts: Options, want: Labels)
    ensures var i := Bubbles.InspectionOf(a, labels, opts, want);
      && HeldBy(a, Picked(a, labels, opts, want)) == i.selected && Reach(a.graph, RootSet(a.globals)) == i.global
      && |i.gids| <= |Picked(a, labels, opts, want)|
      && (RuntimeApart(a.goroutines, opts, i.gids) ==> HeldBy(a, OfRuntime(a, opts)) == i.system)
  {
    var gs, sel := a.goroutines, Selected(labels, opts, want);
    var i := Bubbles.InspectionOf(a, labels, opts, want);
    assert Picked(a, labels, opts, want) == Members(gs, |gs|, sel);
    HeldIsReach(a, sel);
    IDsWithin(gs, |gs|, sel);
    CountIsMembers(gs, |gs|, sel);
    if RuntimeApart(gs, opts, i.gids) {
      assert OfRuntime(a, opts) == Members(gs, |gs|, RuntimeClass());
      HeldIsReach(a, RuntimeClass());
      SameClass(gs, |gs|, opts, i.gids);
    }
  }

  lemma {:induction false} SameClass(gs: seq<Goroutine>, n: nat, opts: Options, gids: set<u64>)
    requires n <= |gs| && RuntimeApart(gs, opts, gids)
    ensures RootsUpTo(gs, n, RuntimeClass()) == RootsUpTo(gs, n, Bubbles.OtherRuntime(gids))
  {
    if n > 0 {
      SameClass(gs, n - 1, opts, gids);
      assert CarriedAt(gs, n - 1, gs[n - 1].id);
    }
  }

  lemma {:induction false} IDsWithin(gs: seq<Goroutine>, n: nat, c: Class)
    requires n <= |gs|
    ensures |IDsUpTo(gs, n, c)| <= CountUpTo(gs, n, c)
  {
    if n > 0 {
      IDsWithin(gs, n - 1, c);
      OneMore(IDsUpTo(gs, n - 1, c), gs[n - 1].id);
      assert IDsUpTo(gs, n - 1, c) + {} == IDsUpTo(gs, n - 1, c);
    }
  }

  lemma OneMore(ids: set<u64>, id: u64)
    ensures |ids + {id}| <= |ids| + 1
  {
    assert id in ids ==> ids + {id} == ids;
  }

  // The response and the exclusive result agree on what both measure.
  ghost predicate Concur(q: Response, x: Bubbles.ExclusiveResult, apart: bool)
  {
    && x.reachable == Measure(q.reachableObjects, q.reachableBytes)
    && x.globalOverlap == Measure(q.globalOverlapObjects, q.globalOverlapBytes)
    && x.goroutines <= q.matchedGoroutines
    && (apart ==> x.systemOverlap == Measure(q.systemOverlapObjects, q.systemOverlapBytes))
  }

  lemma ResponseConcurs(a: Analysis, labels: map<u64, Labels>, opts: Options, want: Labels, q: Response)
    requires IsResponse(a, labels, opts, want, q)
    requires Bytes(a.graph, Bubbles.InspectionOf(a, labels, opts, want).selected) <= MAX_U64
    ensures var i := Bubbles.InspectionOf(a, labels, opts, want);
      Concur(q, Bubbles.ExclusiveOf(a.graph, i), RuntimeApart(a.goroutines, opts, i.gids))
  {
    var i := Bubbles.InspectionOf(a, labels, opts, want);
    ResponseSets(a, labels, opts, want);
    assert i.selected * i.selected == i.selected;
    SubsetWraps(a.graph, i.selected, i.selected);
    SubsetWraps(a.graph, i.selected, i.global);
    SubsetWraps(a.graph, i.selected, HeldBy(a, OfRuntime(a, opts)));
  }

  // Query and Exclusive, one with unchecked sums and a cache, the other with checked
  // sums and set differences, agree on every selector that both answer. Exclusive
  // fails besides only where the selected bytes do not fit 64 bits.
  method AskBoth(s: Snapshot, want: Labels) returns (q: Result<Response, Error>, x: Result<Bubbles.ExclusiveResult, Error>)
    requires s.Valid()
    modifies s`cache
    ensures q.Ok? ==> s.analysis.Some? && (x.Ok? || x == Err(BytesOverflow))
    ensures q.Ok? && x.Ok? ==>
      Concur(q.value, x.value, RuntimeApart(s.analysis.value.goroutines, s.opts, IDs(s.analysis.value.goroutines, Selected(s.labels, s.opts, want))))
    ensures x.Ok? ==> q.Ok?
  {
    q := s.Query(want);
    x := s.Exclusive(want);
    if q.Ok? && x.Ok? {
      ResponseConcurs(s.analysis.value, s.labels, s.opts, want, q.value);
    }
  }

  // ---- Whole runs ----

  datatype Op = AskQuery(want: Labels) | CloseSession

  // What a run of operations yields when nothing is ever cached or indexed.
  ghost function RunAnswers(a: Option<Analysis>, labels: map<u64, Labels>, d: Diagnostics, opts: Options, ops: seq<Op>): seq<Result<Response, Error>>
    decreases |ops|
  {
    if |ops| == 0 then []
    else match ops[0]
      case AskQuery(want) =>
        [if a.None? then Err(SnapshotClosed) else Answer(a.value, labels, d, opts, want)] + RunAnswers(a, labels, d, opts, ops[1..])
      case CloseSession => RunAnswers(None, map[], d, opts, ops[1..])
  }

  // Over every run of queries and closings on one session, each answer is the
  // uncached one: no earlier query can influence a later answer.
  method Run(s: Snapshot, ops: seq<Op>) returns (answers: seq<Result<Response, Error>>)
    requires s.Valid()
    modifies s
    ensures s.Valid()
    ensures answers == old(RunAnswers(s.analysis, s.labels, s.diag, s.opts, ops))
  {
    answers := [];
    ghost var all := RunAnswers(s.analysis, s.labels, s.diag, s.opts, ops);
    for i := 0 to |ops|
      invariant s.Valid()
      invariant answers + RunAnswers(s.analysis, s.labels, s.diag, s.opts, ops[i..]) == all
    {
      assert ops[i..][0] == ops[i] && ops[i..][1..] == ops[i + 1..];
      match ops[i]
      case AskQuery(want) =>
        var r := s.Query(want);
        answers := answers + [r];
      case CloseSession =>
        s.Close();
    }
  }
}
