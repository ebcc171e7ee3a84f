// What groups of goroutines hold, goroutine by goroutine, and the measure of a set: the
// terms in which the answers to requests are stated (internal/memusage).
module Holdings {
  import opened Words
  import opened Graphs
  import opened Analyses

  // Goroutine i takes part in matching and has every label of the selector.
  ghost predicate Qualifies(a: Analysis, labels: map<u64, Labels>, opts: Options, want: Labels, i: nat)
    requires i < |a.goroutines|
  {
    var g := a.goroutines[i];
    && (opts.includeSystemGoroutines || (!g.isSystem && !g.isBackground))
    && forall k :: k in want ==> g.id in labels && k in labels[g.id] && labels[g.id][k] == want[k]
  }

  ghost function Picked(a: Analysis, labels: map<u64, Labels>, opts: Options, want: Labels): set<nat>
  {
    set i: nat | i < |a.goroutines| && Qualifies(a, labels, opts, want, i)
  }

  // The runtime's goroutines, unless they are matched like all others.
  ghost function OfRuntime(a: Analysis, opts: Options): set<nat>
  {
    set i: nat | i < |a.goroutines| && !opts.includeSystemGoroutines && (a.goroutines[i].isSystem || a.goroutines[i].isBackground)
  }

  ghost predicate HoldsObject(a: Analysis, i: nat, id: ObjectID)
  {
    i < |a.goroutines| && id in Reach(a.graph, RootSet(a.goroutines[i].roots))
  }

  ghost predicate SomeHolds(a: Analysis, gs: set<nat>, id: ObjectID)
  {
    exists i: nat :: i in gs && HoldsObject(a, i, id)
  }

  // The objects these goroutines reach, one walk for each.
  ghost function HeldBy(a: Analysis, gs: set<nat>): set<ObjectID>
  {
    set id: ObjectID | 0 <= id < |a.graph.objects| && SomeHolds(a, gs, id)
  }

  ghost function Members(gs: seq<Goroutine>, n: nat, c: Class): set<nat>
    requires n <= |gs|
  {
    set i: nat | i < n && c(gs[i])
  }

  lemma {:induction false} CountIsMembers(gs: seq<Goroutine>, n: nat, c: Class)
    requires n <= |gs|
    ensures CountUpTo(gs, n, c) == |Members(gs, n, c)|
  {
    if n > 0 {
      CountIsMembers(gs, n - 1, c);
      assert Members(gs, n, c) == Members(gs, n - 1, c) + (if c(gs[n - 1]) then {n - 1} else {});
    } else {
      assert Members(gs, 0, c) == {};
    }
  }

  lemma {:induction false} HeldUpTo(a: Analysis, n: nat, c: Class, id: ObjectID)
    requires n <= |a.goroutines|
    ensures id in Reach(a.graph, RootsUpTo(a.goroutines, n, c)) <==> SomeHolds(a, Members(a.goroutines, n, c), id)
  {
    if n == 0 {
      ReachIsLeast(a.graph, {}, {});
    } else {
      var before, here := RootsUpTo(a.goroutines, n - 1, c), RootSet(a.goroutines[n - 1].roots);
      HeldUpTo(a, n - 1, c, id);
      ReachOfUnion(a.graph, before, here);
      assert before + {} == before;
      if c(a.goroutines[n - 1]) && id in Reach(a.graph, here) {
        assert n - 1 in Members(a.goroutines, n, c) && HoldsObject(a, n - 1, id);
      }
      if i: nat :| i in Members(a.goroutines, n - 1, c) && HoldsObject(a, i, id) {
        assert i in Members(a.goroutines, n, c);
      }
    }
  }

  // One walk over all roots of a class reaches what its goroutines hold.
  lemma HeldIsReach(a: Analysis, c: Class)
    ensures HeldBy(a, Members(a.goroutines, |a.goroutines|, c)) == Reach(a.graph, Roots(a.goroutines, c))
  {
    forall id: ObjectID
      ensures id in HeldBy(a, Members(a.goroutines, |a.goroutines|, c)) <==> id in Reach(a.graph, Roots(a.goroutines, c))
    {
      HeldUpTo(a, |a.goroutines|, c, id);
    }
  }

  // The measure is the number of these objects and their bytes.
  ghost predicate IsMeasure(g: Graph, m: Measure, s: set<ObjectID>)
  {
    m.objects == |s| && m.bytes == Bytes(g, s)
  }
}
