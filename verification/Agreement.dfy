// When the group table agrees with Exclusive (internal/memusage/multibubble.go). One
// tells goroutines outside a group apart by eligibility and label, the other by ID.
module Agreement {
  import opened Words
  import opened Graphs
  import opened Analyses
  import opened Bubbles
  import opened Top

  // The row of group v and Exclusive on {key: v} report the same measures.
  ghost predicate Agree(a: Analysis, labels: map<u64, Labels>, opts: Options, key: string, v: string)
  {
    var row, e := RowOf(a, labels, opts, key, v).sizes, ExclusiveOf(a.graph, InspectionOf(a, labels, opts, map[key := v]));
    && e.reachable == row.reachable
    && e.exclusive == row.exclusive
    && e.shared == row.shared
    && e.globalOverlap == row.globalOverlap
  }

  // The selection {key: v} is the group v.
  lemma SelectionIsGroup(a: Analysis, labels: map<u64, Labels>, opts: Options, key: string, v: string)
    ensures InspectionOf(a, labels, opts, map[key := v]).selected == GroupSet(a, labels, opts, key, v)
  {
    var gs := a.goroutines;
    RootsSame(gs, |gs|, Selected(labels, opts, map[key := v]), InGroup(labels, opts, key, v));
  }

  function NotIn(gids: set<u64>): Class { (g: Goroutine) => g.id !in gids }

  function NotInGroup(labels: map<u64, Labels>, opts: Options, key: string, v: string): Class
  {
    (g: Goroutine) => !(Grouped(g, labels, opts, key) && LabelsOf(labels, g.id)[key] == v)
  }

  function Unnamed(labels: map<u64, Labels>, opts: Options, key: string): Class
  {
    (g: Goroutine) => !Grouped(g, labels, opts, key)
  }

  lemma ClassesCover(g: Goroutine, labels: map<u64, Labels>, opts: Options, key: string, v: string)
    ensures NotInGroup(labels, opts, key, v)(g) <==> Unnamed(labels, opts, key)(g) || InOtherGroup(labels, opts, key, v)(g)
    ensures Unnamed(labels, opts, key)(g) <==> TableSystem(labels, opts, key)(g) || Ungrouped(labels, opts, key)(g)
  {}

  // Outside the group are the goroutines outside the selection by ID, and those
  // that cannot be matched but carry a selected ID.
  lemma OutsideByID(gs: seq<Goroutine>, labels: map<u64, Labels>, opts: Options, key: string, v: string, gids: set<u64>, i: nat)
    requires gids == IDs(gs, Selected(labels, opts, map[key := v])) && i < |gs|
    ensures NotInGroup(labels, opts, key, v)(gs[i]) <==> NotIn(gids)(gs[i]) || ShadowsIn(opts, gids)(gs[i])
  {
    var c := Selected(labels, opts, map[key := v]);
    IDsMember(gs, |gs|, c, gs[i].id);
    assert c(gs[i]) <==> !NotInGroup(labels, opts, key, v)(gs[i]);
  }

  // The roots outside the group, as the table and as Exclusive collect them.
  lemma OutsideRoots(gs: seq<Goroutine>, labels: map<u64, Labels>, opts: Options, key: string, v: string, gids: set<u64>)
    requires gids == IDs(gs, Selected(labels, opts, map[key := v]))
    ensures (Roots(gs, TableSystem(labels, opts, key)) + Roots(gs, Ungrouped(labels, opts, key))) + Roots(gs, InOtherGroup(labels, opts, key, v))
         == Roots(gs, NotIn(gids)) + Roots(gs, ShadowsIn(opts, gids))
  {
    var notIn, unnamed := NotInGroup(labels, opts, key, v), Unnamed(labels, opts, key);
    forall i | 0 <= i < |gs|
      ensures notIn(gs[i]) <==> NotIn(gids)(gs[i]) || ShadowsIn(opts, gids)(gs[i])
      ensures notIn(gs[i]) <==> unnamed(gs[i]) || InOtherGroup(labels, opts, key, v)(gs[i])
      ensures unnamed(gs[i]) <==> TableSystem(labels, opts, key)(gs[i]) || Ungrouped(labels, opts, key)(gs[i])
    {
      OutsideByID(gs, labels, opts, key, v, gids, i);
      ClassesCover(gs[i], labels, opts, key, v);
    }
    RootsSplit(gs, |gs|, notIn, NotIn(gids), ShadowsIn(opts, gids));
    RootsSplit(gs, |gs|, unnamed, TableSystem(labels, opts, key), Ungrouped(labels, opts, key));
    RootsSplit(gs, |gs|, notIn, unnamed, InOtherGroup(labels, opts, key, v));
  }

  lemma ReachOfThree(g: Graph, x: set<ObjectID>, y: set<ObjectID>, z: set<ObjectID>)
    ensures Reach(g, (x + y) + z) == (Reach(g, x) + Reach(g, y)) + Reach(g, z)
  {
    ReachOfUnion(g, x, y);
    ReachOfUnion(g, x + y, z);
  }

  // What Exclusive calls outside, from the goroutines outside by ID.
  lemma OutsideOfSelection(a: Analysis, labels: map<u64, Labels>, opts: Options, want: Labels)
    ensures var i := InspectionOf(a, labels, opts, want);
      i.outside == GlobalReach(a) + Reach(a.graph, Roots(a.goroutines, NotIn(i.gids)))
  {
    var gs, gids := a.goroutines, InspectionOf(a, labels, opts, want).gids;
    RootsSplit(gs, |gs|, NotIn(gids), OtherRuntime(gids), OtherUser(gids));
    ReachOfUnion(a.graph, Roots(gs, OtherRuntime(gids)), Roots(gs, OtherUser(gids)));
  }

  // The table counts as outside what Exclusive does, and the reach of the shadows.
  lemma OutsideAgrees(a: Analysis, labels: map<u64, Labels>, opts: Options, key: string, v: string)
    ensures var i := InspectionOf(a, labels, opts, map[key := v]);
      Outside(a, labels, opts, key) + OtherGroups(a, labels, opts, key, v)
      == i.outside + Reach(a.graph, Roots(a.goroutines, ShadowsIn(opts, i.gids)))
  {
    var gs, gids := a.goroutines, InspectionOf(a, labels, opts, map[key := v]).gids;
    OutsideRoots(gs, labels, opts, key, v, gids);
    ReachOfThree(a.graph, Roots(gs, TableSystem(labels, opts, key)), Roots(gs, Ungrouped(labels, opts, key)),
                 Roots(gs, InOtherGroup(labels, opts, key, v)));
    ReachOfUnion(a.graph, Roots(gs, NotIn(gids)), Roots(gs, ShadowsIn(opts, gids)));
    OutsideOfSelection(a, labels, opts, map[key := v]);
  }

  lemma ProperlySmaller(x: set<ObjectID>, y: set<ObjectID>, e: ObjectID)
    requires x <= y && e in y && e !in x
    ensures |x| < |y|
  {
    assert y == x + (y - x);
    assert e in y - x;
  }

  // Adding S to what counts as outside changes the measures of G's parts unless it
  // adds nothing inside G.
  lemma PartsAgreeIff(g: Graph, G: set<ObjectID>, X: set<ObjectID>, S: set<ObjectID>)
    ensures MeasureOf(g, G - (X + S)) == MeasureOf(g, G - X) && MeasureOf(g, G * (X + S)) == MeasureOf(g, G * X) <==> G * S <= X
  {
    if G * S <= X {
      assert G - (X + S) == G - X;
      assert G * (X + S) == G * X;
    } else {
      var x :| x in G * S && x !in X;
      ProperlySmaller(G - (X + S), G - X, x);
    }
  }

  // The same for a row's measures, G being the group's reach, B the other groups'
  // and O what the table counts as outside.
  lemma SizesAgreeIff(g: Graph, G: set<ObjectID>, B: set<ObjectID>, O: set<ObjectID>, X: set<ObjectID>, S: set<ObjectID>)
    requires O + B == X + S
    ensures MeasureOf(g, G - B - O) == MeasureOf(g, G - X) && MeasureOf(g, G * (B + O)) == MeasureOf(g, G * X) <==> G * S <= X
  {
    assert G - B - O == G - (X + S);
    assert B + O == X + S;
    PartsAgreeIff(g, G, X, S);
  }

  // For one group: they agree exactly when whatever the group shares with the
  // shadows of its IDs counts as outside anyway.
  lemma AgreeIff(a: Analysis, labels: map<u64, Labels>, opts: Options, key: string, v: string)
    ensures var i := InspectionOf(a, labels, opts, map[key := v]);
      Agree(a, labels, opts, key, v) <==> i.selected * Reach(a.graph, Roots(a.goroutines, ShadowsIn(opts, i.gids))) <= i.outside
  {
    var i := InspectionOf(a, labels, opts, map[key := v]);
    SelectionIsGroup(a, labels, opts, key, v);
    OutsideAgrees(a, labels, opts, key, v);
    SizesAgreeIff(a.graph, GroupSet(a, labels, opts, key, v), OtherGroups(a, labels, opts, key, v), Outside(a, labels, opts, key),
                  i.outside, Reach(a.graph, Roots(a.goroutines, ShadowsIn(opts, i.gids))));
  }

  // The condition on the analysis and options alone.
  ghost predicate ShadowsHarmless(a: Analysis, opts: Options)
  {
    var ids := IDs(a.goroutines, Matchable(opts));
    Reach(a.graph, Roots(a.goroutines, Matchable(opts))) * Reach(a.graph, Roots(a.goroutines, ShadowsIn(opts, ids)))
    <= GlobalReach(a) + Reach(a.graph, Roots(a.goroutines, NotIn(ids)))
  }

  function Matchable(opts: Options): Class { (g: Goroutine) => Eligible(g, opts) }

  // More IDs select more and leave less outside.
  lemma ClassesGrow(a: Analysis, opts: Options, x: set<u64>, y: set<u64>)
    requires x <= y
    ensures Reach(a.graph, Roots(a.goroutines, ShadowsIn(opts, x))) <= Reach(a.graph, Roots(a.goroutines, ShadowsIn(opts, y)))
    ensures Reach(a.graph, Roots(a.goroutines, NotIn(y))) <= Reach(a.graph, Roots(a.goroutines, NotIn(x)))
  {
    var gs := a.goroutines;
    RootsSmaller(gs, |gs|, ShadowsIn(opts, x), ShadowsIn(opts, y));
    ReachMonotone(a.graph, Roots(gs, ShadowsIn(opts, x)), Roots(gs, ShadowsIn(opts, y)));
    RootsSmaller(gs, |gs|, NotIn(y), NotIn(x));
    ReachMonotone(a.graph, Roots(gs, NotIn(y)), Roots(gs, NotIn(x)));
  }

  lemma SelectedIsMatchable(a: Analysis, labels: map<u64, Labels>, opts: Options, want: Labels)
    ensures var i := InspectionOf(a, labels, opts, want);
      && i.gids <= IDs(a.goroutines, Matchable(opts))
      && i.selected <= Reach(a.graph, Roots(a.goroutines, Matchable(opts)))
  {
    var gs, c, d := a.goroutines, Selected(labels, opts, want), Matchable(opts);
    forall id | id in IDs(gs, c)
      ensures id in IDs(gs, d)
    {
      IDsMember(gs, |gs|, c, id);
      IDsMember(gs, |gs|, d, id);
    }
    RootsSmaller(gs, |gs|, c, d);
    ReachMonotone(a.graph, Roots(gs, c), Roots(gs, d));
  }

  lemma HarmlessAgrees(a: Analysis, labels: map<u64, Labels>, opts: Options, key: string, v: string)
    requires ShadowsHarmless(a, opts)
    ensures Agree(a, labels, opts, key, v)
  {
    var i := InspectionOf(a, labels, opts, map[key := v]);
    SelectedIsMatchable(a, labels, opts, map[key := v]);
    ClassesGrow(a, opts, i.gids, IDs(a.goroutines, Matchable(opts)));
    OutsideOfSelection(a, labels, opts, map[key := v]);
    HarmlessWithin(a, opts, i);
    AgreeIff(a, labels, opts, key, v);
  }

  lemma HarmlessWithin(a: Analysis, opts: Options, i: Inspection)
    requires ShadowsHarmless(a, opts)
    requires var gs, ids := a.goroutines, IDs(a.goroutines, Matchable(opts));
      && i.selected <= Reach(a.graph, Roots(gs, Matchable(opts)))
      && Reach(a.graph, Roots(gs, ShadowsIn(opts, i.gids))) <= Reach(a.graph, Roots(gs, ShadowsIn(opts, ids)))
      && Reach(a.graph, Roots(gs, NotIn(ids))) <= Reach(a.graph, Roots(gs, NotIn(i.gids)))
      && i.outside == GlobalReach(a) + Reach(a.graph, Roots(gs, NotIn(i.gids)))
    ensures i.selected * Reach(a.graph, Roots(a.goroutines, ShadowsIn(opts, i.gids))) <= i.outside
  {
    var gs, ids := a.goroutines, IDs(a.goroutines, Matchable(opts));
    forall x | x in i.selected * Reach(a.graph, Roots(gs, ShadowsIn(opts, i.gids)))
      ensures x in i.outside
    {
      assert x in Reach(a.graph, Roots(gs, Matchable(opts))) * Reach(a.graph, Roots(gs, ShadowsIn(opts, ids)));
      assert x in GlobalReach(a) + Reach(a.graph, Roots(gs, NotIn(ids)));
    }
  }

  // With every matchable ID labelled alike, all that can be matched is one group.
  ghost function AllAlike(a: Analysis, opts: Options): map<u64, Labels>
  {
    map id | id in IDs(a.goroutines, Matchable(opts)) :: ONE_LABEL
  }

  lemma AllAreSelected(a: Analysis, opts: Options)
    ensures var i := InspectionOf(a, AllAlike(a, opts), opts, ONE_LABEL);
      && i.selected == Reach(a.graph, Roots(a.goroutines, Matchable(opts)))
      && i.gids == IDs(a.goroutines, Matchable(opts))
  {
    var gs, c, d := a.goroutines, Selected(AllAlike(a, opts), opts, ONE_LABEL), Matchable(opts);
    forall k | 0 <= k < |gs|
      ensures c(gs[k]) <==> d(gs[k])
    {
      IDsMember(gs, |gs|, d, gs[k].id);
    }
    RootsSame(gs, |gs|, c, d);
    IDsSame(gs, |gs|, c, d);
  }

  lemma {:induction false} IDsSame(gs: seq<Goroutine>, n: nat, c: Class, d: Class)
    requires n <= |gs| && forall i :: 0 <= i < n ==> (c(gs[i]) <==> d(gs[i]))
    ensures IDsUpTo(gs, n, c) == IDsUpTo(gs, n, d)
  {
    if n > 0 {
      IDsSame(gs, n - 1, c, d);
    }
  }

  lemma HarmfulDisagrees(a: Analysis, opts: Options)
    requires !ShadowsHarmless(a, opts)
    ensures !Agree(a, AllAlike(a, opts), opts, "k", "v")
  {
    AllAreSelected(a, opts);
    OutsideOfSelection(a, AllAlike(a, opts), opts, ONE_LABEL);
    AgreeIff(a, AllAlike(a, opts), opts, "k", "v");
  }

  // The exact condition, which can be checked before any request is chosen: the
  // two agree on every request just when the shadows are harmless.
  lemma AlwaysAgreeIff(a: Analysis, opts: Options)
    ensures ShadowsHarmless(a, opts) <==>
      forall labels: map<u64, Labels>, key: string, v: string :: ValidRequest(map[key := v], opts) ==> Agree(a, labels, opts, key, v)
  {
    if ShadowsHarmless(a, opts) {
      forall labels: map<u64, Labels>, key: string, v: string
        ensures Agree(a, labels, opts, key, v)
      {
        HarmlessAgrees(a, labels, opts, key, v);
      }
    } else {
      OneLabelIsValid(opts);
      HarmfulDisagrees(a, opts);
    }
  }

  // No goroutine that cannot be matched shares its ID with one that can. Distinct
  // goroutine IDs imply this.
  ghost predicate NoShadowedIDs(gs: seq<Goroutine>, opts: Options)
  {
    forall i, j :: 0 <= i < |gs| && 0 <= j < |gs| && Eligible(gs[i], opts) && !Eligible(gs[j], opts) ==> gs[i].id != gs[j].id
  }

  // Then each row equals Exclusive on the selector {key: v}, although one uses a
  // counter and the other set differences.
  lemma TopAgreesWithExclusive(a: Analysis, labels: map<u64, Labels>, opts: Options, key: string, v: string)
    requires NoShadowedIDs(a.goroutines, opts)
    ensures Agree(a, labels, opts, key, v)
  {
    var gs, ids := a.goroutines, IDs(a.goroutines, Matchable(opts));
    forall r
      ensures r !in Roots(gs, ShadowsIn(opts, ids))
    {
      RootsMember(gs, |gs|, ShadowsIn(opts, ids), r);
      forall k | 0 <= k < |gs|
        ensures !ShadowsIn(opts, ids)(gs[k])
      {
        IDsMember(gs, |gs|, Matchable(opts), gs[k].id);
      }
    }
    assert Roots(gs, ShadowsIn(opts, ids)) == {};
    ReachIsLeast(a.graph, {}, {});
    HarmlessAgrees(a, labels, opts, key, v);
  }

  // ---- An analysis on which they differ ----

  // One object, held by a goroutine that can be matched and by a runtime goroutine
  // with the same ID.
  function SharedExample(): Analysis
  {
    var root := RootRef(0, 8, 0, "sched.ctxt", []);
    Analysis(
      Graph([Object(8, 8, [])], map[8 := 0], [], [ObjectRange(8, 16, 0)]),
      [Goroutine(1, false, false, [root]), Goroutine(1, true, false, [root])],
      [])
  }

  // Both goroutines carry ID 1, so nobody else holds anything.
  lemma NobodyElse(opts: Options)
    requires !opts.includeSystemGoroutines
    ensures var a, i := SharedExample(), InspectionOf(SharedExample(), map[1 := ONE_LABEL], opts, ONE_LABEL);
      1 in i.gids && Roots(a.goroutines, NotIn(i.gids)) == {}
  {
    var gs, c := SharedExample().goroutines, Selected(map[1 := ONE_LABEL], opts, ONE_LABEL);
    var gids := IDs(gs, c);
    assert c(gs[0]);
    IDsMember(gs, 2, c, 1);
    forall r
      ensures r !in Roots(gs, NotIn(gids))
    {
      RootsMember(gs, 2, NotIn(gids), r);
    }
  }

  // ... and both hold the object.
  lemma BothHold(opts: Options, gids: set<u64>)
    requires !opts.includeSystemGoroutines && 1 in gids
    ensures var a := SharedExample();
      && 0 in Reach(a.graph, Roots(a.goroutines, Selected(map[1 := ONE_LABEL], opts, ONE_LABEL)))
      && 0 in Reach(a.graph, Roots(a.goroutines, ShadowsIn(opts, gids)))
  {
    var a, c := SharedExample(), Selected(map[1 := ONE_LABEL], opts, ONE_LABEL);
    var gs := a.goroutines;
    assert c(gs[0]);
    assert 0 in RootSet(gs[0].roots) && 0 in RootSet(gs[1].roots);
    RootsMember(gs, 2, c, 0);
    RootsMember(gs, 2, ShadowsIn(opts, gids), 0);
    ReachContainsRoot(a.graph, Roots(gs, c), 0);
    ReachContainsRoot(a.graph, Roots(gs, ShadowsIn(opts, gids)), 0);
  }

  // The table calls the object shared, Exclusive calls it exclusive.
  lemma DisagreementExample(opts: Options)
    requires !opts.includeSystemGoroutines
    ensures !Agree(SharedExample(), map[1 := ONE_LABEL], opts, "k", "v")
  {
    var a, labels := SharedExample(), map[1 := ONE_LABEL];
    var i := InspectionOf(a, labels, opts, ONE_LABEL);
    NobodyElse(opts);
    BothHold(opts, i.gids);
    OutsideOfSelection(a, labels, opts, ONE_LABEL);
    assert RootSet(a.globals) == {};
    ReachIsLeast(a.graph, {}, {});
    AgreeIff(a, labels, opts, "k", "v");
  }
}
