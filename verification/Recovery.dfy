// Label recovery seen from the query layer (internal/memusage/compute.go): why a
// successful answer does not depend on the string memory at hand.
module Recovery {
  import opened Words
  import opened Wrappers
  import opened AddressSpace
  import opened Analyses
  import opened Compute
  import L = LabelMaps

  // ---- Texts ----

  // One character per byte.
  function Chars(t: L.Text): string
  {
    seq(|t|, i requires 0 <= i < |t| => t[i] as char)
  }

  lemma CharsInjective(s: L.Text, t: L.Text)
    requires Chars(s) == Chars(t)
    ensures s == t
  {
    assert |s| == |Chars(s)| == |t|;
    forall i | 0 <= i < |s|
      ensures s[i] == t[i]
    {
      assert Chars(s)[i] == Chars(t)[i];
    }
  }

  function CharLabels(m: map<L.Text, L.Text>): Labels
  {
    assert forall s, t :: s in m && t in m && Chars(s) == Chars(t) ==> s == t by {
      forall s, t | s in m && t in m && Chars(s) == Chars(t)
        ensures s == t
      {
        CharsInjective(s, t);
      }
    }
    map t | t in m :: Chars(t) := Chars(m[t])
  }

  lemma CharLabelsAt(m: map<L.Text, L.Text>, t: L.Text)
    requires t in m
    ensures Chars(t) in CharLabels(m) && CharLabels(m)[Chars(t)] == Chars(m[t])
  {
    forall s | s in m && Chars(s) == Chars(t)
      ensures s == t
    {
      CharsInjective(s, t);
    }
  }

  lemma CharLabelsOnly(m: map<L.Text, L.Text>, k: string)
    requires k in CharLabels(m)
    ensures exists t :: t in m && k == Chars(t)
  {}

  // The labels by goroutine ID that the query layer matches against.
  function RecoveredLabels(gs: seq<L.Target>, rs: seq<L.GoroutineLabels>): map<u64, Labels>
    requires |rs| <= |gs|
  {
    var m := L.ByID(gs, rs);
    map id | id in m :: CharLabels(m[id])
  }

  // ---- Diagnostics ----

  predicate IsFailure(s: L.Status)
  {
    s != L.Decoded && s != L.NoLabels && s != L.UnsupportedRuntime
  }

  function FailedIDs(gs: seq<L.Target>, rs: seq<L.GoroutineLabels>, n: nat): set<u64>
    requires n <= |rs| <= |gs|
  {
    set i | 0 <= i < n && IsFailure(rs[i].status) :: gs[i].id
  }

  function MissingIDs(gs: seq<L.Target>, rs: seq<L.GoroutineLabels>, n: nat): set<u64>
    requires n <= |rs| <= |gs|
  {
    set i | 0 <= i < n && rs[i].status == L.StringMissing :: gs[i].id
  }

  // An absent set is one that was never allocated.
  function Allocated(ids: set<u64>): Option<set<u64>>
  {
    if ids == {} then None else Some(ids)
  }

  function DiagnosticsOf(gs: seq<L.Target>, rs: seq<L.GoroutineLabels>): Diagnostics
    requires |rs| == |gs|
  {
    var t := L.TotalsOf(rs);
    Diagnostics(|rs| > 0 && t.unsupported == |rs|, t.missing, t.failed,
                Allocated(MissingIDs(gs, rs, |rs|)), Allocated(FailedIDs(gs, rs, |rs|)))
  }

  ghost function IDsWhere(gs: seq<L.Target>, rs: seq<L.GoroutineLabels>, ss: set<L.Status>): set<u64>
    requires |rs| == |gs|
  {
    set i: nat | i < |rs| && rs[i].status in ss :: gs[i].id
  }

  // The statuses of a goroutine whose labels could not be read although it may have some.
  const FAILURES: set<L.Status> := {L.GObjectMissing, L.LabelsObjectMissing, L.LabelArrayMissing, L.StringMissing, L.Malformed}

  // Results and IDs with a missing string, those that failed in any way, and whether
  // nothing could be read at all.
  ghost predicate IsDiagnosis(gs: seq<L.Target>, rs: seq<L.GoroutineLabels>, d: Diagnostics)
    requires |rs| == |gs|
  {
    var M, F := IDsWhere(gs, rs, {L.StringMissing}), IDsWhere(gs, rs, FAILURES);
    && (d.unsupportedRuntime <==> |rs| > 0 && forall i :: 0 <= i < |rs| ==> rs[i].status == L.UnsupportedRuntime)
    && d.stringMissingCount == |L.Where(rs, {L.StringMissing})| && d.failedGoroutines == |L.Where(rs, FAILURES)|
    && d.stringMissingGIDs == (if M == {} then None else Some(M)) && d.failedGIDs == (if F == {} then None else Some(F))
  }

  lemma {:induction false} AllWhere(rs: seq<L.GoroutineLabels>, s: L.Status)
    ensures |L.Where(rs, {s})| <= |rs|
    ensures |L.Where(rs, {s})| == |rs| <==> forall i :: 0 <= i < |rs| ==> rs[i].status == s
  {
    if |rs| > 0 {
      AllWhere(rs[..|rs| - 1], s);
      L.WhereNext(rs, {s});
    } else {
      assert L.Where(rs, {s}) == {};
    }
  }

  lemma DiagnosisMeans(gs: seq<L.Target>, rs: seq<L.GoroutineLabels>)
    requires |rs| == |gs|
    ensures IsDiagnosis(gs, rs, DiagnosticsOf(gs, rs))
  {
    L.TotalsMean(rs);
    AllWhere(rs, L.UnsupportedRuntime);
    assert IDsWhere(gs, rs, {L.StringMissing}) == MissingIDs(gs, rs, |rs|);
    assert IDsWhere(gs, rs, FAILURES) == FailedIDs(gs, rs, |rs|);
  }

  method DiagnosticsFromHeapLabels(gs: seq<L.Target>, rs: seq<L.GoroutineLabels>, t: L.Totals) returns (d: Diagnostics)
    requires |rs| == |gs| && t == L.TotalsOf(rs)
    ensures d == DiagnosticsOf(gs, rs)
  {
    d := Diagnostics(false, t.missing, t.failed, None, None);
    for i := 0 to |rs|
      invariant d == Diagnostics(false, t.missing, t.failed, Allocated(MissingIDs(gs, rs, i)), Allocated(FailedIDs(gs, rs, i)))
    {
      NextIDs(gs, rs, i);
      assert d.Failed() == FailedIDs(gs, rs, i) && d.Missing() == MissingIDs(gs, rs, i);
      if !IsFailure(rs[i].status) {
        continue;
      }
      d := d.(failedGIDs := Some(d.Failed() + {gs[i].id}));
      if rs[i].status == L.StringMissing {
        d := d.(stringMissingGIDs := Some(d.Missing() + {gs[i].id}));
      }
    }
    if |rs| > 0 && t.unsupported == |rs| {
      d := d.(unsupportedRuntime := true);
    }
  }

  lemma NextIDs(gs: seq<L.Target>, rs: seq<L.GoroutineLabels>, i: nat)
    requires i < |rs| <= |gs|
    ensures FailedIDs(gs, rs, i + 1) == if IsFailure(rs[i].status) then FailedIDs(gs, rs, i) + {gs[i].id} else FailedIDs(gs, rs, i)
    ensures MissingIDs(gs, rs, i + 1) == if rs[i].status == L.StringMissing then MissingIDs(gs, rs, i) + {gs[i].id} else MissingIDs(gs, rs, i)
  {
    var F, M := FailedIDs(gs, rs, i + 1), MissingIDs(gs, rs, i + 1);
    assert IsFailure(rs[i].status) ==> gs[i].id in F;
    assert rs[i].status == L.StringMissing ==> gs[i].id in M;
    forall id | id in F
      ensures id in FailedIDs(gs, rs, i) || (IsFailure(rs[i].status) && id == gs[i].id)
    {
      var k :| 0 <= k < i + 1 && IsFailure(rs[k].status) && gs[k].id == id;
      assert k < i ==> gs[k].id in FailedIDs(gs, rs, i);
    }
    forall id | id in M
      ensures id in MissingIDs(gs, rs, i) || (rs[i].status == L.StringMissing && id == gs[i].id)
    {
      var k :| 0 <= k < i + 1 && rs[k].status == L.StringMissing && gs[k].id == id;
      assert k < i ==> gs[k].id in MissingIDs(gs, rs, i);
    }
  }

  lemma ListsFailure(gs: seq<L.Target>, rs: seq<L.GoroutineLabels>, i: nat)
    requires i < |rs| <= |gs|
    ensures IsFailure(rs[i].status) ==> gs[i].id in FailedIDs(gs, rs, |rs|)
    ensures rs[i].status == L.StringMissing ==> gs[i].id in MissingIDs(gs, rs, |rs|)
  {}

  // ---- Results with more string memory ----

  // more repeats rs except where a string was missing.
  ghost predicate Refined(rs: seq<L.GoroutineLabels>, more: seq<L.GoroutineLabels>)
  {
    && |more| == |rs|
    && (forall i :: 0 <= i < |rs| && rs[i].status != L.StringMissing ==> more[i] == rs[i])
    && (forall i :: 0 <= i < |rs| ==> (more[i].status == L.UnsupportedRuntime <==> rs[i].status == L.UnsupportedRuntime))
  }

  lemma {:induction false} ResultAt(src: L.Source, gs: seq<L.Target>, n: nat, i: nat)
    requires i < n <= |gs|
    ensures L.ResultsUpTo(src, gs, n)[i] == L.LabelsOfGoroutine(src, gs[i].addr)
  {
    if i < n - 1 {
      ResultAt(src, gs, n - 1, i);
    }
  }

  lemma MoreMemoryRefines(src: L.Source, extra: Reader, gs: seq<L.Target>)
    requires src.Valid() && IsReader(extra) && src.body == src.structural
    ensures Refined(L.ResultsUpTo(src, gs, |gs|), L.ResultsUpTo(src.(body := Composite([src.structural, extra])), gs, |gs|))
  {
    var with := src.(body := Composite([src.structural, extra]));
    var rs, more := L.ResultsUpTo(src, gs, |gs|), L.ResultsUpTo(with, gs, |gs|);
    forall i | 0 <= i < |gs|
      ensures rs[i].status != L.StringMissing ==> more[i] == rs[i]
      ensures more[i].status == L.UnsupportedRuntime <==> rs[i].status == L.UnsupportedRuntime
    {
      ResultAt(src, gs, |gs|, i);
      ResultAt(with, gs, |gs|, i);
      L.ExtraMemoryIsHarmless(src, extra, gs[i].addr);
      L.UnsupportedIs(src, gs[i].addr);
      L.UnsupportedIs(with, gs[i].addr);
    }
  }

  // A goroutine none of whose records misses a string keeps its labels.
  lemma {:induction false} SameByID(gs: seq<L.Target>, rs: seq<L.GoroutineLabels>, more: seq<L.GoroutineLabels>, id: u64)
    requires |more| == |rs| <= |gs|
    requires forall i :: 0 <= i < |rs| && gs[i].id == id ==> more[i] == rs[i]
    ensures id in L.ByID(gs, more) <==> id in L.ByID(gs, rs)
    ensures id in L.ByID(gs, rs) ==> L.ByID(gs, more)[id] == L.ByID(gs, rs)[id]
  {
    if |rs| > 0 {
      var n := |rs| - 1;
      SameByID(gs, rs[..n], more[..n], id);
    }
  }

  lemma SameLabels(gs: seq<L.Target>, rs: seq<L.GoroutineLabels>, more: seq<L.GoroutineLabels>, id: u64)
    requires |rs| == |gs| && Refined(rs, more) && id !in MissingIDs(gs, rs, |rs|)
    ensures LabelsOf(RecoveredLabels(gs, more), id) == LabelsOf(RecoveredLabels(gs, rs), id)
  {
    forall i | 0 <= i < |rs| && gs[i].id == id
      ensures more[i] == rs[i]
    {
      ListsFailure(gs, rs, i);
    }
    SameByID(gs, rs, more, id);
  }

  // More memory repairs failures and adds none.
  lemma FewerFailures(gs: seq<L.Target>, rs: seq<L.GoroutineLabels>, more: seq<L.GoroutineLabels>)
    requires |rs| == |gs| && Refined(rs, more)
    ensures FailedIDs(gs, more, |more|) <= FailedIDs(gs, rs, |rs|)
    ensures MissingIDs(gs, more, |more|) <= FailedIDs(gs, more, |more|)
  {
    forall id | id in FailedIDs(gs, more, |more|)
      ensures id in FailedIDs(gs, rs, |rs|)
    {
      var k :| 0 <= k < |more| && IsFailure(more[k].status) && gs[k].id == id;
      assert IsFailure(rs[k].status);
    }
    forall id | id in MissingIDs(gs, more, |more|)
      ensures id in FailedIDs(gs, more, |more|)
    {
      var k :| 0 <= k < |more| && more[k].status == L.StringMissing && gs[k].id == id;
      assert IsFailure(more[k].status);
    }
  }

  lemma {:induction false} NoFailures(rs: seq<L.GoroutineLabels>)
    requires forall i :: 0 <= i < |rs| ==> !IsFailure(rs[i].status)
    ensures L.TotalsOf(rs).failed == 0 && L.TotalsOf(rs).missing == 0
  {
    if |rs| > 0 {
      NoFailures(rs[..|rs| - 1]);
    }
  }

  lemma {:induction false} SameUnsupported(rs: seq<L.GoroutineLabels>, more: seq<L.GoroutineLabels>)
    requires |more| == |rs|
    requires forall i :: 0 <= i < |rs| ==> (more[i].status == L.UnsupportedRuntime <==> rs[i].status == L.UnsupportedRuntime)
    ensures L.TotalsOf(more).unsupported == L.TotalsOf(rs).unsupported
  {
    if |rs| > 0 {
      SameUnsupported(rs[..|rs| - 1], more[..|rs| - 1]);
    }
  }

  // If the failures of rs do not count, those of more do not.
  lemma StillNoError(gs: seq<L.Target>, rs: seq<L.GoroutineLabels>, more: seq<L.GoroutineLabels>, known: set<u64>, eligible: set<u64>)
    requires |rs| == |gs| && Refined(rs, more)
    requires FailureError(DiagnosticsOf(gs, rs), known, eligible) == None
    ensures FailureError(DiagnosticsOf(gs, more), known, eligible) == None
  {
    var d, e := DiagnosticsOf(gs, rs), DiagnosticsOf(gs, more);
    FewerFailures(gs, rs, more);
    if e.HasIDs() {
      assert Counting(d.Failed() + d.Missing(), known, eligible) == {};
      assert Counting(e.Failed() + e.Missing(), known, eligible) <= Counting(d.Failed() + d.Missing(), known, eligible);
      assert Counting(e.Missing(), known, eligible) <= Counting(d.Failed() + d.Missing(), known, eligible);
    } else {
      forall i | 0 <= i < |more|
        ensures !IsFailure(more[i].status)
      {
        ListsFailure(gs, more, i);
      }
      NoFailures(more);
    }
  }

  lemma SameAnswer(a: Analysis, labels: map<u64, Labels>, d: Diagnostics, e: Diagnostics, opts: Options, want: Labels)
    requires Answer(a, labels, d, opts, want).Ok? && e.unsupportedRuntime == d.unsupportedRuntime
    requires var known, eligible := IDs(a.goroutines, Everyone), IDs(a.goroutines, EligibleClass(opts));
      FailureError(d, known, eligible) == None ==> FailureError(e, known, eligible) == None
    ensures Answer(a, labels, e, opts, want) == Answer(a, labels, d, opts, want)
  {}

  // A success is final: an answer given on labels decoded from the heap alone is
  // the answer with any string memory whatever, although that may recover labels
  // of goroutines that failed.
  lemma AnswerIsFinal(src: L.Source, extra: Reader, gs: seq<L.Target>, a: Analysis, opts: Options, want: Labels)
    requires src.Valid() && IsReader(extra) && src.body == src.structural
    ensures var rs, more := L.ResultsUpTo(src, gs, |gs|), L.ResultsUpTo(src.(body := Composite([src.structural, extra])), gs, |gs|);
      var r := Answer(a, RecoveredLabels(gs, rs), DiagnosticsOf(gs, rs), opts, want);
      r.Ok? ==> Answer(a, RecoveredLabels(gs, more), DiagnosticsOf(gs, more), opts, want) == r
  {
    var rs, more := L.ResultsUpTo(src, gs, |gs|), L.ResultsUpTo(src.(body := Composite([src.structural, extra])), gs, |gs|);
    MoreMemoryRefines(src, extra, gs);
    RefinedAnswer(gs, rs, more, a, opts, want);
  }

  lemma RefinedAnswer(gs: seq<L.Target>, rs: seq<L.GoroutineLabels>, more: seq<L.GoroutineLabels>, a: Analysis, opts: Options, want: Labels)
    requires |rs| == |gs| && Refined(rs, more)
    ensures var r := Answer(a, RecoveredLabels(gs, rs), DiagnosticsOf(gs, rs), opts, want);
      r.Ok? ==> Answer(a, RecoveredLabels(gs, more), DiagnosticsOf(gs, more), opts, want) == r
  {
    var labels, truth := RecoveredLabels(gs, rs), RecoveredLabels(gs, more);
    var d, e := DiagnosticsOf(gs, rs), DiagnosticsOf(gs, more);
    if Answer(a, labels, d, opts, want).Ok? {
      LabelsAgree(gs, rs, more);
      if d.HasIDs() {
        SuccessIsAuthoritative(a, labels, truth, d, opts, want);
      } else {
        AllSame(gs, rs, more);
      }
      SameUnsupported(rs, more);
      var known, eligible := IDs(a.goroutines, Everyone), IDs(a.goroutines, EligibleClass(opts));
      if FailureError(d, known, eligible) == None {
        StillNoError(gs, rs, more, known, eligible);
      }
      SameAnswer(a, truth, d, e, opts, want);
    }
  }

  lemma LabelsAgree(gs: seq<L.Target>, rs: seq<L.GoroutineLabels>, more: seq<L.GoroutineLabels>)
    requires |rs| == |gs| && Refined(rs, more)
    ensures var d := DiagnosticsOf(gs, rs);
      forall id :: id !in d.Failed() + d.Missing() ==> LabelsOf(RecoveredLabels(gs, more), id) == LabelsOf(RecoveredLabels(gs, rs), id)
  {
    forall id: u64 | id !in DiagnosticsOf(gs, rs).Failed() + DiagnosticsOf(gs, rs).Missing()
      ensures LabelsOf(RecoveredLabels(gs, more), id) == LabelsOf(RecoveredLabels(gs, rs), id)
    {
      SameLabels(gs, rs, more, id);
    }
  }

  lemma AllSame(gs: seq<L.Target>, rs: seq<L.GoroutineLabels>, more: seq<L.GoroutineLabels>)
    requires |rs| == |gs| && Refined(rs, more) && !DiagnosticsOf(gs, rs).HasIDs()
    ensures more == rs
  {
    forall i | 0 <= i < |rs|
      ensures rs[i].status != L.StringMissing
    {
      ListsFailure(gs, rs, i);
    }
  }
}
