// The samples of the two pprof exports (internal/memusage/export_paths.go, export.go).
module Samples {
  import opened Words
  import opened Graphs
  import opened Analyses
  import opened Bubbles
  import opened ExportForest

  // The six columns of a sample: objects and bytes, for reachable (0, 1),
  // exclusive (2, 3) and shared (4, 5).
  const COLUMNS := 6

  datatype Sample = Sample(
    id: ObjectID,
    gid: u64,
    prefix: seq<ObjectID>,
    omitted: nat,
    suffix: seq<ObjectID>,
    shared: bool,
    values: seq<nat>)

  function At(values: seq<nat>, c: nat): nat
  {
    if c < |values| then values[c] else 0
  }

  ghost function ColumnSum(samples: seq<Sample>, c: nat): nat
  {
    if |samples| == 0 then 0
    else ColumnSum(samples[..|samples| - 1], c) + At(samples[|samples| - 1].values, c)
  }

  // The object set a pair of columns accounts for.
  ghost function ColumnSet(i: Inspection, c: nat): set<ObjectID>
  {
    if c < 2 then i.selected
    else if c < 4 then i.selected - i.outside
    else i.selected * i.outside
  }

  // What a column must add up to.
  ghost function Expected(g: Graph, i: Inspection, c: nat): nat
  {
    if c % 2 == 0 then |ColumnSet(i, c)| else Bytes(g, ColumnSet(i, c))
  }

  // ---- Partial sums by object ID ----

  ghost function CardUpTo(s: set<ObjectID>, n: nat): nat
  {
    if n == 0 then 0 else CardUpTo(s, n - 1) + (if n - 1 in s then 1 else 0)
  }

  lemma {:induction false} CardIsSize(s: set<ObjectID>, n: nat)
    requires forall x :: x in s ==> x < n
    ensures CardUpTo(s, n) == |s|
  {
    if n > 0 {
      var t := s - {n - 1};
      CardSame(s, t, n - 1);
      CardIsSize(t, n - 1);
      if n - 1 in s {
        assert s == t + {n - 1};
      } else {
        assert s == t;
      }
    } else {
      assert s == {};
    }
  }

  lemma {:induction false} CardSame(s: set<ObjectID>, t: set<ObjectID>, n: nat)
    requires forall x :: 0 <= x < n ==> (x in s <==> x in t)
    ensures CardUpTo(s, n) == CardUpTo(t, n)
  {
    if n > 0 {
      CardSame(s, t, n - 1);
    }
  }

  ghost function ExpectedUpTo(g: Graph, i: Inspection, c: nat, n: nat): nat
    requires n <= |g.objects|
  {
    if c % 2 == 0 then CardUpTo(ColumnSet(i, c), n) else BytesUpTo(g.objects, ColumnSet(i, c), n)
  }

  lemma ExpectedAll(g: Graph, i: Inspection, c: nat)
    requires forall id :: id in i.selected ==> g.ValidID(id)
    ensures ExpectedUpTo(g, i, c, |g.objects|) == Expected(g, i, c)
  {
    CardIsSize(ColumnSet(i, c), |g.objects|);
  }

  // ---- Representative roots ----

  ghost predicate ByID(gs: seq<Goroutine>)
  {
    forall i :: 0 < i < |gs| ==> gs[i - 1].id <= gs[i].id
  }

  ghost predicate AllIn(gs: seq<Goroutine>, gids: set<u64>)
  {
    forall i :: 0 <= i < |gs| ==> gs[i].id in gids
  }

  ghost function RootUnion(gs: seq<Goroutine>): set<ObjectID>
  {
    if |gs| == 0 then {} else RootSet(gs[0].roots) + RootUnion(gs[1..])
  }

  // Places g after everything with an ID no greater than its own.
  function InsertByID(gs: seq<Goroutine>, g: Goroutine): (r: seq<Goroutine>)
    ensures |r| == |gs| + 1 && (r[0] == g || (|gs| > 0 && r[0] == gs[0]))
    ensures forall x :: x in r <==> x == g || x in gs
  {
    if |gs| == 0 || g.id < gs[0].id then [g] + gs
    else
      assert gs == [gs[0]] + gs[1..];
      [gs[0]] + InsertByID(gs[1..], g)
  }

  lemma {:induction false} InsertKeeps(gs: seq<Goroutine>, g: Goroutine, gids: set<u64>)
    requires ByID(gs) && AllIn(gs, gids) && g.id in gids
    ensures ByID(InsertByID(gs, g)) && AllIn(InsertByID(gs, g), gids)
    ensures RootUnion(InsertByID(gs, g)) == RootUnion(gs) + RootSet(g.roots)
  {
    if |gs| == 0 || g.id < gs[0].id {
      assert ([g] + gs)[1..] == gs;
    } else {
      var rest := InsertByID(gs[1..], g);
      InsertKeeps(gs[1..], g, gids);
      assert ([gs[0]] + rest)[1..] == rest;
      InsertOrder(gs[0], rest);
    }
  }

  lemma InsertOrder(first: Goroutine, rest: seq<Goroutine>)
    requires ByID(rest) && (|rest| > 0 ==> first.id <= rest[0].id)
    ensures ByID([first] + rest)
  {
    var r := [first] + rest;
    forall i | 0 < i < |r|
      ensures r[i - 1].id <= r[i].id
    {
      if i > 1 {
        assert r[i - 1] == rest[i - 2] && r[i] == rest[i - 1];
      }
    }
  }

  // Every root is labelled with a goroutine of the selection that holds it.
  ghost predicate AllOwned(gs: seq<Goroutine>, gids: set<u64>, roots: seq<ExportRoot>)
  {
    forall k :: 0 <= k < |roots| ==> roots[k].gid in gids && Owns(gs, roots[k].gid, roots[k].ref)
  }

  // The roots of the goroutines in gids, in ascending goroutine ID.
  method ExportRoots(gs: seq<Goroutine>, gids: set<u64>) returns (roots: seq<ExportRoot>)
    ensures RootSet(Refs(roots)) == Roots(gs, InIDs(gids))
    ensures AllOwned(gs, gids, roots)
    ensures forall i :: 0 < i < |roots| ==> roots[i - 1].gid <= roots[i].gid
  {
    var chosen: seq<Goroutine> := [];
    for i := 0 to |gs|
      invariant ByID(chosen) && AllIn(chosen, gids)
      invariant RootUnion(chosen) == RootsUpTo(gs, i, InIDs(gids)) && forall c :: c in chosen ==> c in gs
    {
      if gs[i].id in gids {
        InsertKeeps(chosen, gs[i], gids);
        chosen := InsertByID(chosen, gs[i]);
      }
    }
    roots := Flatten(chosen, gids, gs);
  }

  method Flatten(chosen: seq<Goroutine>, ghost gids: set<u64>, ghost gs: seq<Goroutine>) returns (roots: seq<ExportRoot>)
    requires ByID(chosen) && AllIn(chosen, gids) && forall c :: c in chosen ==> c in gs
    ensures RootSet(Refs(roots)) == RootUnion(chosen)
    ensures AllOwned(gs, gids, roots)
    ensures forall k :: 0 < k < |roots| ==> roots[k - 1].gid <= roots[k].gid
  {
    roots := [];
    for i := 0 to |chosen|
      invariant RootSet(Refs(roots)) + RootUnion(chosen[i..]) == RootUnion(chosen)
      invariant AllOwned(gs, gids, roots)
      invariant forall k :: 0 < k < |roots| ==> roots[k - 1].gid <= roots[k].gid
      invariant i < |chosen| && |roots| > 0 ==> roots[|roots| - 1].gid <= chosen[i].id
    {
      assert chosen[i..][1..] == chosen[i + 1..];
      assert chosen[i] in gs;
      roots := AppendRoots(roots, chosen[i], gids, gs);
    }
  }

  method AppendRoots(roots0: seq<ExportRoot>, g: Goroutine, ghost gids: set<u64>, ghost gs: seq<Goroutine>) returns (roots: seq<ExportRoot>)
    requires AllOwned(gs, gids, roots0) && g in gs && g.id in gids
    ensures RootSet(Refs(roots)) == RootSet(Refs(roots0)) + RootSet(g.roots)
    ensures AllOwned(gs, gids, roots)
    ensures roots0 <= roots && forall k :: |roots0| <= k < |roots| ==> roots[k].gid == g.id
  {
    roots := roots0;
    for j := 0 to |g.roots|
      invariant roots0 <= roots && Refs(roots) == Refs(roots0) + g.roots[..j]
      invariant forall k :: |roots0| <= k < |roots| ==> roots[k].gid == g.id
      invariant AllOwned(gs, gids, roots)
    {
      assert g.roots[j] in g.roots && Owns(gs, g.id, g.roots[j]);
      roots := roots + [ExportRoot(g.id, g.roots[j])];
    }
    assert g.roots[..|g.roots|] == g.roots;
    RootSetConcat(Refs(roots0), g.roots);
  }

  // ---- Choosing the samples of a set of objects ----

  // all holds one sample per object, in object order.
  ghost predicate PerObject(all: seq<Sample>)
  {
    forall id :: 0 <= id < |all| ==> all[id].id == id
  }

  // The samples of the members of s below n, in object order.
  ghost function Chosen(all: seq<Sample>, s: set<ObjectID>, n: nat): seq<Sample>
    requires n <= |all|
  {
    if n == 0 then []
    else if n - 1 in s then Chosen(all, s, n - 1) + [all[n - 1]]
    else Chosen(all, s, n - 1)
  }

  lemma ChosenStep(all: seq<Sample>, s: set<ObjectID>, n: nat)
    requires n < |all|
    ensures n !in s ==> Chosen(all, s, n + 1) == Chosen(all, s, n)
    ensures n in s ==> Chosen(all, s, n + 1) == Chosen(all, s, n) + [all[n]]
  {}

  // Each chosen sample belongs to a member of s, and no member has two.
  lemma {:induction false} ChosenMember(all: seq<Sample>, s: set<ObjectID>, n: nat, k: nat)
    requires PerObject(all) && n <= |all| && k < |Chosen(all, s, n)|
    ensures var c := Chosen(all, s, n);
      && c[k].id in s && c[k].id < n && c[k] == all[c[k].id]
      && (k > 0 ==> c[k - 1].id < c[k].id)
  {
    var before := Chosen(all, s, n - 1);
    if k < |before| {
      ChosenMember(all, s, n - 1, k);
    } else if k > 0 {
      ChosenMember(all, s, n - 1, k - 1);
    }
  }

  // Counts once under reachable and once under its partition.
  function ValuesFor(size: nat, shared: bool): seq<nat>
  {
    if shared then [1, size, 0, 0, 1, size] else [1, size, 1, size, 0, 0]
  }

  lemma ColumnSnoc(samples: seq<Sample>, s: Sample, c: nat)
    ensures ColumnSum(samples + [s], c) == ColumnSum(samples, c) + At(s.values, c)
  {
    assert (samples + [s])[..|samples|] == samples;
  }

  lemma ExpectedStep(g: Graph, i: Inspection, c: nat, n: nat)
    requires n < |g.objects| && c < COLUMNS
    ensures n !in i.selected ==> ExpectedUpTo(g, i, c, n + 1) == ExpectedUpTo(g, i, c, n)
    ensures n in i.selected ==>
      ExpectedUpTo(g, i, c, n + 1) == ExpectedUpTo(g, i, c, n) + At(ValuesFor(g.objects[n].size, n in i.outside), c)
  {
    assert n in ColumnSet(i, c) <==> n in i.selected && (c < 2 || (c < 4 && n !in i.outside) || (c >= 4 && n in i.outside));
  }

  // Column sums and count of the chosen samples. totals[k] is the sum expected
  // of the samples below k.
  lemma {:induction false} ChosenSum(all: seq<Sample>, s: set<ObjectID>, c: nat, totals: seq<nat>, n: nat)
    requires n <= |all| && |totals| == |all| + 1 && totals[0] == 0
    requires forall k :: 0 <= k < |all| ==> totals[k + 1] == totals[k] + (if k in s then At(all[k].values, c) else 0)
    ensures ColumnSum(Chosen(all, s, n), c) == totals[n]
  {
    if n > 0 {
      ChosenSum(all, s, c, totals, n - 1);
      ChosenStep(all, s, n - 1);
      ColumnSnoc(Chosen(all, s, n - 1), all[n - 1], c);
      assert totals[n - 1 + 1] == totals[n];
    }
  }

  lemma {:induction false} ChosenCount(all: seq<Sample>, s: set<ObjectID>, n: nat)
    requires n <= |all|
    ensures |Chosen(all, s, n)| == CardUpTo(s, n)
  {
    if n > 0 {
      ChosenCount(all, s, n - 1);
    }
  }

  lemma ChosenTotals(g: Graph, i: Inspection, all: seq<Sample>, n: nat, c: nat)
    requires n <= |all| == |g.objects| && c < COLUMNS
    requires forall id :: 0 <= id < |all| ==> all[id].values == ValuesFor(g.objects[id].size, id in i.outside)
    ensures ColumnSum(Chosen(all, i.selected, n), c) == ExpectedUpTo(g, i, c, n)
    ensures |Chosen(all, i.selected, n)| == CardUpTo(i.selected, n)
  {
    var totals := seq(|all| + 1, k requires 0 <= k <= |all| => ExpectedUpTo(g, i, c, k));
    forall k | 0 <= k < |all|
      ensures totals[k + 1] == totals[k] + (if k in i.selected then At(all[k].values, c) else 0)
    {
      ExpectedStep(g, i, c, k);
    }
    ChosenSum(all, i.selected, c, totals, n);
    ChosenCount(all, i.selected, n);
  }
}
