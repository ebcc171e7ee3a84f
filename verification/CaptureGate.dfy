// The capture gate (internal/capture/gate.go): slots and a cooldown. A step is one
// atomic action of one call of Acquire, so a run is an interleaving.
module CaptureGate {
  import opened Wrappers

  const SECOND: nat := 1_000_000_000

  // Where a call stands. Checking, Denied, Holding and Stamped occupy a slot:
  // Denied is about to give it back, Stamped has started the cooldown and is
  // about to free it.
  datatype Phase =
    | Checking
    | Denied(remaining: int)
    | Holding
    | Stamped
    | Busy
    | Refused(remaining: int)
    | Released

  // Grants and releases, with the time each read from the clock.
  datatype Event = Granted(id: nat, at: int) | Ended(id: nat, at: int)

  // next is the end of the cooldown; the zero time before the first release.
  datatype Gate = Gate(cap: nat, cooldown: nat, now: int, slots: nat, next: Option<int>,
                       calls: map<nat, Phase>, history: seq<Event>)

  // Ticks move the clock forward. Enter tries the semaphore, Check reads the
  // clock under the lock, GiveBack and Free receive from the semaphore, Release
  // is the returned closure up to the moment the cooldown is set.
  datatype Step = Tick(d: nat) | Enter(id: nat) | Check(id: nat) | GiveBack(id: nat) | Release(id: nat) | Free(id: nat)

  function Start(cap: nat, cooldown: nat, now: int): Gate
  {
    Gate(cap, cooldown, now, 0, None, map[], [])
  }

  predicate In(g: Gate, id: nat, p: Phase) { id in g.calls && g.calls[id] == p }

  predicate Occupies(p: Phase) { p.Checking? || p.Denied? || p.Holding? || p.Stamped? }

  predicate WasGranted(p: Phase) { p.Holding? || p.Stamped? || p.Released? }

  function Remaining(g: Gate): int
  {
    match g.next case None => 0 case Some(t) => t - g.now
  }

  // What the program can do next. A closure exists only for a granted call, and
  // may be called again at any time.
  predicate Enabled(g: Gate, s: Step)
  {
    match s
    case Tick(_) => true
    case Enter(id) => id !in g.calls
    case Check(id) => In(g, id, Checking)
    case GiveBack(id) => id in g.calls && g.calls[id].Denied?
    case Release(id) => id in g.calls && WasGranted(g.calls[id])
    case Free(id) => In(g, id, Stamped)
  }

  function Do(g: Gate, s: Step): Gate
    requires Enabled(g, s)
  {
    match s
    case Tick(d) => g.(now := g.now + d)
    case Enter(id) =>
      if g.slots < g.cap then g.(slots := g.slots + 1, calls := g.calls[id := Checking])
      else g.(calls := g.calls[id := Busy])
    case Check(id) =>
      if Remaining(g) > 0 then g.(calls := g.calls[id := Denied(Remaining(g))])
      else g.(calls := g.calls[id := Holding], history := g.history + [Granted(id, g.now)])
    case GiveBack(id) => g.(slots := Receive(g.slots), calls := g.calls[id := Refused(g.calls[id].remaining)])
    case Release(id) =>
      if g.calls[id].Holding? then
        g.(next := Some(g.now + g.cooldown), calls := g.calls[id := Stamped], history := g.history + [Ended(id, g.now)])
      else g
    case Free(id) => g.(slots := Receive(g.slots), calls := g.calls[id := Released])
  }

  // Receiving from an empty semaphore would block; NeverBlocks shows that it
  // does not happen.
  function Receive(slots: nat): nat
  {
    if slots == 0 then 0 else slots - 1
  }

  predicate Runs(g: Gate, steps: seq<Step>)
    decreases |steps|
  {
    |steps| == 0 || (Enabled(g, steps[0]) && Runs(Do(g, steps[0]), steps[1..]))
  }

  function Run(g: Gate, steps: seq<Step>): Gate
    requires Runs(g, steps)
    decreases |steps|
  {
    if |steps| == 0 then g else Run(Do(g, steps[0]), steps[1..])
  }

  // ---- What every step keeps ----

  function Occupants(calls: map<nat, Phase>): set<nat>
  {
    set id | id in calls && Occupies(calls[id])
  }

  // The semaphore counts the calls that occupy a slot.
  ghost predicate SlotsCounted(g: Gate)
  {
    g.slots == |Occupants(g.calls)| <= g.cap
  }

  // No event lies in the future; the cooldown starts at the last release.
  ghost predicate CooldownSet(g: Gate)
  {
    && (forall k :: 0 <= k < |g.history| ==> g.history[k].at <= g.now)
    && (g.next == None ==> forall k :: 0 <= k < |g.history| ==> g.history[k].Granted?)
    && (g.next.Some? ==> forall k :: 0 <= k < |g.history| && g.history[k].Ended? ==> g.history[k].at + g.cooldown <= g.next.value)
  }

  // A grant comes at least the cooldown after every earlier release.
  ghost predicate Spaced(h: seq<Event>, cooldown: nat)
  {
    forall i, j :: 0 <= i < j < |h| && h[i].Ended? && h[j].Granted? ==> h[i].at + cooldown <= h[j].at
  }

  ghost predicate Safe(g: Gate)
  {
    SlotsCounted(g) && CooldownSet(g) && Spaced(g.history, g.cooldown)
  }

  lemma StartIsSafe(cap: nat, cooldown: nat, now: int)
    ensures Safe(Start(cap, cooldown, now))
  {
    assert Occupants(map[]) == {};
  }

  lemma OccupantsAfter(calls: map<nat, Phase>, id: nat, p: Phase)
    ensures Occupants(calls[id := p]) == if Occupies(p) then Occupants(calls) + {id} else Occupants(calls) - {id}
  {}

  lemma SlotsAfter(calls: map<nat, Phase>, id: nat, p: Phase)
    ensures (var before, after := |Occupants(calls)|, |Occupants(calls[id := p])|;
             var had := id in calls && Occupies(calls[id]);
             after == before + (if Occupies(p) then 1 else 0) - (if had then 1 else 0))
  {
    OccupantsAfter(calls, id, p);
    assert id in Occupants(calls) ==> Occupants(calls) + {id} == Occupants(calls);
  }

  lemma StepCountsSlots(g: Gate, s: Step)
    requires SlotsCounted(g) && Enabled(g, s)
    ensures SlotsCounted(Do(g, s))
  {
    match s
    case Tick(_) =>
    case Enter(id) =>
      SlotsAfter(g.calls, id, Checking);
      SlotsAfter(g.calls, id, Busy);
    case Check(id) =>
      SlotsAfter(g.calls, id, Denied(Remaining(g)));
      SlotsAfter(g.calls, id, Holding);
    case GiveBack(id) =>
      SlotsAfter(g.calls, id, Refused(g.calls[id].remaining));
    case Release(id) =>
      SlotsAfter(g.calls, id, Stamped);
    case Free(id) =>
      SlotsAfter(g.calls, id, Released);
  }

  lemma StepKeepsSafe(g: Gate, s: Step)
    requires Safe(g) && Enabled(g, s)
    ensures Safe(Do(g, s))
  {
    StepCountsSlots(g, s);
  }

  // A call that gives its slot back always finds one to receive.
  lemma NeverBlocks(g: Gate, s: Step)
    requires SlotsCounted(g) && Enabled(g, s) && (s.GiveBack? || s.Free?)
    ensures g.slots > 0 && Do(g, s).slots == g.slots - 1
  {
    assert s.id in Occupants(g.calls);
  }

  // At most cap captures are in progress, with one slot at most one.
  lemma MutualExclusion(g: Gate, a: nat, b: nat)
    requires SlotsCounted(g) && g.cap == 1 && In(g, a, Holding) && In(g, b, Holding)
    ensures a == b
  {
    OneOccupant(g, a, b);
  }

  lemma OneOccupant(g: Gate, a: nat, b: nat)
    requires SlotsCounted(g) && g.cap == 1 && a in Occupants(g.calls) && b in Occupants(g.calls)
    ensures a == b
  {
    var rest := Occupants(g.calls) - {a};
    assert Occupants(g.calls) == {a} + rest;
    assert |rest| == 0;
  }

  // Over every interleaving.
  lemma {:induction false} RunIsSafe(g: Gate, steps: seq<Step>)
    requires Safe(g) && Runs(g, steps)
    ensures Safe(Run(g, steps)) && Run(g, steps).cap == g.cap && Run(g, steps).cooldown == g.cooldown
    decreases |steps|
  {
    if |steps| > 0 {
      StepKeepsSafe(g, steps[0]);
      RunIsSafe(Do(g, steps[0]), steps[1..]);
    }
  }

  // ---- One release for each grant ----

  ghost predicate GrantedBefore(h: seq<Event>, n: nat, id: nat)
    requires n <= |h|
  {
    exists i :: 0 <= i < n && h[i].Granted? && h[i].id == id
  }

  // No call is granted twice or released twice, and none is released ungranted.
  ghost predicate OnceEach(h: seq<Event>)
  {
    && (forall i, j :: 0 <= i < j < |h| && h[i].id == h[j].id ==> h[i].Granted? && h[j].Ended?)
    && (forall j :: 0 <= j < |h| && h[j].Ended? ==> GrantedBefore(h, j, h[j].id))
  }

  // The events say what the calls went through.
  ghost predicate EventsKnown(g: Gate)
  {
    && (forall k :: 0 <= k < |g.history| ==> g.history[k].id in g.calls && WasGranted(g.calls[g.history[k].id]))
    && (forall k :: 0 <= k < |g.history| && g.history[k].Ended? ==> !In(g, g.history[k].id, Holding))
    && (forall id :: In(g, id, Holding) ==> GrantedBefore(g.history, |g.history|, id))
  }

  lemma StillGranted(h: seq<Event>, n: nat, id: nat, e: Event)
    requires n <= |h| && GrantedBefore(h, n, id)
    ensures GrantedBefore(h + [e], n, id) && GrantedBefore(h + [e], |h| + 1, id)
  {
    var i :| 0 <= i < n && h[i].Granted? && h[i].id == id;
    assert (h + [e])[i] == h[i];
  }

  lemma EventAdded(h: seq<Event>, e: Event)
    requires OnceEach(h) && forall k :: 0 <= k < |h| && h[k].id == e.id ==> h[k].Granted? && e.Ended?
    requires e.Ended? ==> GrantedBefore(h, |h|, e.id)
    ensures OnceEach(h + [e])
  {
    forall j | 0 <= j < |h| + 1 && (h + [e])[j].Ended?
      ensures GrantedBefore(h + [e], j, (h + [e])[j].id)
    {
      StillGranted(h, j, (h + [e])[j].id, e);
    }
  }

  lemma GrantOnce(g: Gate, id: nat)
    requires EventsKnown(g) && OnceEach(g.history) && In(g, id, Checking) && Remaining(g) <= 0
    ensures EventsKnown(Do(g, Check(id))) && OnceEach(Do(g, Check(id)).history)
  {
    var e := Granted(id, g.now);
    var g' := Do(g, Check(id));
    EventAdded(g.history, e);
    forall x: nat | In(g', x, Holding)
      ensures GrantedBefore(g'.history, |g'.history|, x)
    {
      if x == id {
        assert g'.history[|g.history|] == e;
      } else {
        assert In(g, x, Holding);
        StillGranted(g.history, |g.history|, x, e);
      }
    }
  }

  lemma EndOnce(g: Gate, id: nat)
    requires EventsKnown(g) && OnceEach(g.history) && In(g, id, Holding)
    ensures EventsKnown(Do(g, Release(id))) && OnceEach(Do(g, Release(id)).history)
  {
    var e := Ended(id, g.now);
    var g' := Do(g, Release(id));
    EventAdded(g.history, e);
    forall x: nat | In(g', x, Holding)
      ensures GrantedBefore(g'.history, |g'.history|, x)
    {
      assert In(g, x, Holding);
      StillGranted(g.history, |g.history|, x, e);
    }
  }

  lemma QuietStep(g: Gate, s: Step)
    requires EventsKnown(g) && Enabled(g, s) && Do(g, s).history == g.history
    ensures EventsKnown(Do(g, s))
  {
    var g' := Do(g, s);
    forall x: nat
      ensures In(g', x, Holding) <==> In(g, x, Holding)
    {}
  }

  lemma {:induction false} RunsOnceEach(g: Gate, steps: seq<Step>)
    requires EventsKnown(g) && OnceEach(g.history) && Runs(g, steps)
    ensures OnceEach(Run(g, steps).history)
    decreases |steps|
  {
    if |steps| > 0 {
      var s := steps[0];
      if s.Check? && Remaining(g) <= 0 {
        GrantOnce(g, s.id);
      } else if s.Release? && g.calls[s.id].Holding? {
        EndOnce(g, s.id);
      } else {
        QuietStep(g, s);
      }
      RunsOnceEach(Do(g, s), steps[1..]);
    }
  }

  // However often the returned closures are called, in every interleaving: each
  // grant ends at most once, and nothing ends that was not granted.
  lemma ReleaseOnce(cap: nat, cooldown: nat, now: int, steps: seq<Step>)
    requires Runs(Start(cap, cooldown, now), steps)
    ensures OnceEach(Run(Start(cap, cooldown, now), steps).history)
  {
    RunsOnceEach(Start(cap, cooldown, now), steps);
  }

  // ---- One slot: grants and releases alternate ----

  // Grant, its release, grant, its release, ...
  ghost predicate Alternates(h: seq<Event>)
  {
    && (forall k :: 0 <= k < |h| ==> (h[k].Granted? <==> k % 2 == 0))
    && (forall k, l :: 0 <= k && l == k + 1 < |h| && k % 2 == 0 ==> h[k].id == h[l].id)
  }

  // The holder, if any, is the last one granted and not yet released.
  ghost predicate HolderKnown(g: Gate)
  {
    forall id :: In(g, id, Holding) <==> |g.history| % 2 == 1 && g.history[|g.history| - 1].id == id
  }

  ghost predicate Turns(g: Gate)
  {
    Alternates(g.history) && HolderKnown(g)
  }

  // With one slot, a call that checks is the only occupant.
  lemma CheckingAlone(g: Gate, id: nat)
    requires SlotsCounted(g) && g.cap == 1 && In(g, id, Checking) && HolderKnown(g)
    ensures |g.history| % 2 == 0
  {
    if |g.history| % 2 == 1 {
      var other := g.history[|g.history| - 1].id;
      assert In(g, other, Holding);
      OneOccupant(g, id, other);
    }
  }

  lemma GrantAlternates(g: Gate, id: nat)
    requires SlotsCounted(g) && g.cap == 1 && Turns(g) && In(g, id, Checking) && Remaining(g) <= 0
    ensures Turns(Do(g, Check(id)))
  {
    CheckingAlone(g, id);
    var g' := Do(g, Check(id));
    assert g'.history[|g.history|] == Granted(id, g.now);
    forall x: nat
      ensures In(g', x, Holding) <==> x == id
    {
      assert !In(g, x, Holding);
    }
  }

  lemma EndAlternates(g: Gate, id: nat)
    requires Turns(g) && In(g, id, Holding)
    ensures Turns(Do(g, Release(id)))
  {
    var g' := Do(g, Release(id));
    assert g'.history[|g.history|] == Ended(id, g.now);
    forall x: nat
      ensures !In(g', x, Holding)
    {
      assert In(g, x, Holding) ==> x == id;
    }
  }

  lemma QuietAlternates(g: Gate, s: Step)
    requires Turns(g) && Enabled(g, s) && Do(g, s).history == g.history
    ensures Turns(Do(g, s))
  {
    var g' := Do(g, s);
    forall x: nat
      ensures In(g', x, Holding) <==> In(g, x, Holding)
    {}
  }

  lemma StepAlternates(g: Gate, s: Step)
    requires SlotsCounted(g) && g.cap == 1 && Turns(g) && Enabled(g, s)
    ensures Turns(Do(g, s))
  {
    if s.Check? && Remaining(g) <= 0 {
      GrantAlternates(g, s.id);
    } else if s.Release? && g.calls[s.id].Holding? {
      EndAlternates(g, s.id);
    } else {
      QuietAlternates(g, s);
    }
  }

  lemma {:induction false} RunAlternates(g: Gate, steps: seq<Step>)
    requires Safe(g) && g.cap == 1 && Turns(g) && Runs(g, steps)
    ensures Turns(Run(g, steps))
    decreases |steps|
  {
    if |steps| > 0 {
      StepKeepsSafe(g, steps[0]);
      StepAlternates(g, steps[0]);
      RunAlternates(Do(g, steps[0]), steps[1..]);
    }
  }

  // In every interleaving on a gate with one slot: grants and releases alternate,
  // so at most one capture is in progress, and a grant comes at least the
  // cooldown after the release before it.
  lemma GateProtocol(cooldown: nat, now: int, steps: seq<Step>)
    requires Runs(Start(1, cooldown, now), steps)
    ensures (var g := Run(Start(1, cooldown, now), steps);
             && Turns(g)
             && (forall k, l :: 0 <= k && l == k + 1 < |g.history| && g.history[l].Granted? ==> g.history[k].at + cooldown <= g.history[l].at)
             && |Occupants(g.calls)| <= 1)
  {
    StartIsSafe(1, cooldown, now);
    RunIsSafe(Start(1, cooldown, now), steps);
    RunAlternates(Start(1, cooldown, now), steps);
  }

  // ---- Who is granted, who is refused, and for how long ----

  // The time of the last release.
  function LastEnd(h: seq<Event>): Option<int>
  {
    if |h| == 0 then None
    else if h[|h| - 1].Ended? then Some(h[|h| - 1].at)
    else LastEnd(h[..|h| - 1])
  }

  // The cooldown ends exactly its length after the last release.
  ghost predicate CooldownExact(g: Gate)
  {
    g.next == match LastEnd(g.history) case None => None case Some(at) => Some(at + g.cooldown)
  }

  lemma StepKeepsCooldown(g: Gate, s: Step)
    requires CooldownExact(g) && Enabled(g, s)
    ensures CooldownExact(Do(g, s))
  {
    var h := Do(g, s).history;
    assert |h| > |g.history| ==> h[..|h| - 1] == g.history;
  }

  lemma {:induction false} RunKeepsCooldown(g: Gate, steps: seq<Step>)
    requires CooldownExact(g) && Runs(g, steps)
    ensures CooldownExact(Run(g, steps))
    decreases |steps|
  {
    if |steps| > 0 {
      StepKeepsCooldown(g, steps[0]);
      RunKeepsCooldown(Do(g, steps[0]), steps[1..]);
    }
  }

  // The last release is one of the events, and in time order none is later.
  lemma {:induction false} LastEndMeans(h: seq<Event>)
    ensures LastEnd(h) == None <==> forall k :: 0 <= k < |h| ==> h[k].Granted?
    ensures LastEnd(h).Some? ==> exists k :: IsLastEnd(h, k) && h[k].at == LastEnd(h).value
  {
    if |h| > 0 {
      var p := h[..|h| - 1];
      LastEndMeans(p);
      if h[|h| - 1].Ended? {
        assert IsLastEnd(h, |h| - 1);
      } else if LastEnd(p).Some? {
        var k :| IsLastEnd(p, k) && p[k].at == LastEnd(p).value;
        assert IsLastEnd(h, k);
      } else {
        forall k | 0 <= k < |h|
          ensures h[k].Granted?
        {
          assert k < |p| ==> h[k] == p[k];
        }
      }
    }
  }

  // Event k is the last release.
  ghost predicate IsLastEnd(h: seq<Event>, k: int)
  {
    0 <= k < |h| && h[k].Ended? && forall j :: k < j < |h| ==> h[j].Granted?
  }

  // Every release so far is at least the cooldown ago.
  ghost predicate CooledDown(g: Gate)
  {
    forall k :: 0 <= k < |g.history| && g.history[k].Ended? ==> g.history[k].at + g.cooldown <= g.now
  }

  lemma RemainingMeans(g: Gate)
    requires Safe(g) && CooldownExact(g)
    ensures Remaining(g) > 0 <==> !CooledDown(g)
    ensures Remaining(g) > 0 ==> exists k :: IsLastEnd(g.history, k) && Remaining(g) == g.history[k].at + g.cooldown - g.now
  {
    LastEndMeans(g.history);
    if g.next.Some? {
      var k :| IsLastEnd(g.history, k) && g.history[k].at == LastEnd(g.history).value;
      assert g.history[k].Ended?;
    }
  }

  // Over every run: a new call is refused as busy just when every slot is taken, and
  // otherwise takes one.
  lemma BusyMeansFull(cap: nat, cooldown: nat, now: int, steps: seq<Step>, id: nat)
    requires Runs(Start(cap, cooldown, now), steps) && id !in Run(Start(cap, cooldown, now), steps).calls
    ensures var g := Run(Start(cap, cooldown, now), steps);
      var h := Do(g, Enter(id));
      && (|Occupants(g.calls)| == cap ==> In(h, id, Busy) && Occupants(h.calls) == Occupants(g.calls))
      && (|Occupants(g.calls)| < cap ==> In(h, id, Checking) && Occupants(h.calls) == Occupants(g.calls) + {id})
      && |Occupants(g.calls)| <= cap
  {
    var g := Run(Start(cap, cooldown, now), steps);
    StartIsSafe(cap, cooldown, now);
    RunIsSafe(Start(cap, cooldown, now), steps);
    OccupantsAfter(g.calls, id, Busy);
    OccupantsAfter(g.calls, id, Checking);
  }

  // ... and a call that has a slot is granted just when every release is at least the
  // cooldown ago. Otherwise it is denied, with what is left of the cooldown that the
  // last release started.
  lemma CheckDecides(cap: nat, cooldown: nat, now: int, steps: seq<Step>, id: nat)
    requires Runs(Start(cap, cooldown, now), steps) && In(Run(Start(cap, cooldown, now), steps), id, Checking)
    ensures var g := Run(Start(cap, cooldown, now), steps);
      var h := Do(g, Check(id));
      && (CooledDown(g) ==> In(h, id, Holding) && h.history == g.history + [Granted(id, g.now)])
      && (!CooledDown(g) ==> exists k :: IsLastEnd(g.history, k) && IsDenied(h, id, g.history[k].at + cooldown - g.now))
  {
    var g := Run(Start(cap, cooldown, now), steps);
    StartIsSafe(cap, cooldown, now);
    RunIsSafe(Start(cap, cooldown, now), steps);
    RunKeepsCooldown(Start(cap, cooldown, now), steps);
    RemainingMeans(g);
    if !CooledDown(g) {
      var k :| IsLastEnd(g.history, k) && Remaining(g) == g.history[k].at + g.cooldown - g.now;
      assert IsDenied(Do(g, Check(id)), id, g.history[k].at + cooldown - g.now);
    }
  }

  // Call id is denied with r > 0 left of the cooldown.
  predicate IsDenied(g: Gate, id: nat, r: int)
  {
    r > 0 && In(g, id, Denied(r))
  }

  // With a free slot and the cooldown over, a new call is granted at once.
  lemma FreeGateGrants(cap: nat, cooldown: nat, now: int, steps: seq<Step>, id: nat)
    requires Runs(Start(cap, cooldown, now), steps) && id !in Run(Start(cap, cooldown, now), steps).calls
    requires |Occupants(Run(Start(cap, cooldown, now), steps).calls)| < cap && CooledDown(Run(Start(cap, cooldown, now), steps))
    ensures var g := Run(Start(cap, cooldown, now), steps);
      && Enabled(g, Enter(id)) && Enabled(Do(g, Enter(id)), Check(id))
      && In(Do(Do(g, Enter(id)), Check(id)), id, Holding)
  {
    var g := Run(Start(cap, cooldown, now), steps);
    BusyMeansFull(cap, cooldown, now, steps, id);
    StartIsSafe(cap, cooldown, now);
    RunIsSafe(Start(cap, cooldown, now), steps);
    RunKeepsCooldown(Start(cap, cooldown, now), steps);
    RemainingMeans(g);
    assert Remaining(Do(g, Enter(id))) == Remaining(g);
  }

  // The first call of all, on a gate with a slot.
  lemma FirstIsGranted(cap: nat, cooldown: nat, now: int, id: nat)
    requires cap > 0
    ensures Runs(Start(cap, cooldown, now), [Enter(id), Check(id)])
    ensures In(Run(Start(cap, cooldown, now), [Enter(id), Check(id)]), id, Holding)
  {
    var g, steps := Start(cap, cooldown, now), [Enter(id), Check(id)];
    assert Run(g, []) == g;
    assert Occupants(map[]) == {};
    FreeGateGrants(cap, cooldown, now, [], id);
    var g1 := Do(g, Enter(id));
    assert steps[1..] == [Check(id)] && [Check(id)][1..] == [];
    assert Runs(Do(g1, Check(id)), []);
    assert Runs(g1, [Check(id)]) && Run(g1, [Check(id)]) == Do(g1, Check(id));
  }

  // ---- Refusals remember what they were denied for ----

  // The gate of a run before step n.
  function GateAt(g: Gate, steps: seq<Step>, n: nat): Gate
    requires Runs(g, steps) && n <= |steps|
    decreases |steps|
  {
    if n == 0 then g else GateAt(Do(g, steps[0]), steps[1..], n - 1)
  }

  // Step n checked call id and denied it with r left of the cooldown that the last
  // release had started.
  ghost predicate DeniedAt(g: Gate, steps: seq<Step>, n: nat, id: nat, r: int)
    requires Runs(g, steps)
  {
    && n < |steps| && steps[n] == Check(id) && r > 0
    && exists k :: IsLastEnd(GateAt(g, steps, n).history, k) && r == GateAt(g, steps, n).history[k].at + g.cooldown - GateAt(g, steps, n).now
  }

  ghost predicate WasDenied(g: Gate, steps: seq<Step>, id: nat, r: int)
    requires Runs(g, steps)
  {
    exists n: nat :: DeniedAt(g, steps, n, id, r)
  }

  predicate IsTurnedAway(p: Phase, r: int) { p == Denied(r) || p == Refused(r) }

  lemma DeniedLater(g: Gate, steps: seq<Step>, id: nat, r: int)
    requires |steps| > 0 && Runs(g, steps) && WasDenied(Do(g, steps[0]), steps[1..], id, r)
    ensures WasDenied(g, steps, id, r)
  {
    var n: nat :| DeniedAt(Do(g, steps[0]), steps[1..], n, id, r);
    assert GateAt(g, steps, n + 1) == GateAt(Do(g, steps[0]), steps[1..], n);
    assert DeniedAt(g, steps, n + 1, id, r);
  }

  // A step that turns a call away checks it, or passes on what it was denied for.
  lemma TurnedAwayStep(g: Gate, s: Step, id: nat, r: int)
    requires Safe(g) && CooldownExact(g) && Enabled(g, s) && id in Do(g, s).calls && IsTurnedAway(Do(g, s).calls[id], r)
    requires !(id in g.calls && IsTurnedAway(g.calls[id], r))
    ensures s == Check(id) && r > 0
    ensures exists k :: IsLastEnd(g.history, k) && r == g.history[k].at + g.cooldown - g.now
  {
    RemainingMeans(g);
  }

  // Over every run: whoever is turned away for the cooldown was denied at some check
  // with exactly what was then left of it.
  lemma {:induction false} RefusalsAreDenials(g: Gate, steps: seq<Step>, id: nat, r: int)
    requires Safe(g) && CooldownExact(g) && Runs(g, steps)
    requires !(id in g.calls && IsTurnedAway(g.calls[id], r))
    requires id in Run(g, steps).calls && IsTurnedAway(Run(g, steps).calls[id], r)
    ensures WasDenied(g, steps, id, r)
    decreases |steps|
  {
    var h := Do(g, steps[0]);
    StepKeepsSafe(g, steps[0]);
    StepKeepsCooldown(g, steps[0]);
    if id in h.calls && IsTurnedAway(h.calls[id], r) {
      TurnedAwayStep(g, steps[0], id, r);
      assert GateAt(g, steps, 0) == g;
      assert DeniedAt(g, steps, 0, id, r);
    } else {
      RefusalsAreDenials(h, steps[1..], id, r);
      DeniedLater(g, steps, id, r);
    }
  }

  lemma RefusedForCooldown(cap: nat, cooldown: nat, now: int, steps: seq<Step>, id: nat, r: int)
    requires Runs(Start(cap, cooldown, now), steps)
    requires In(Run(Start(cap, cooldown, now), steps), id, Denied(r)) || In(Run(Start(cap, cooldown, now), steps), id, Refused(r))
    ensures WasDenied(Start(cap, cooldown, now), steps, id, r)
  {
    StartIsSafe(cap, cooldown, now);
    RefusalsAreDenials(Start(cap, cooldown, now), steps, id, r);
  }

  // ---- The advertised wait ----

  // Whole seconds, rounded up (section 10.2.3 of RFC 9110).
  function RetryAfterSeconds(remaining: nat): (n: nat)
    ensures (n - 1) * SECOND < remaining <= n * SECOND || remaining == n == 0
  {
    var n := remaining / SECOND;
    if remaining % SECOND != 0 then n + 1 else n
  }

  lemma {:induction false} ClockAndCooldown(g: Gate, steps: seq<Step>)
    requires Runs(g, steps)
    ensures Run(g, steps).now >= g.now
    ensures Run(g, steps).history == g.history ==> Run(g, steps).next == g.next
    ensures |Run(g, steps).history| >= |g.history|
    decreases |steps|
  {
    if |steps| > 0 {
      ClockAndCooldown(Do(g, steps[0]), steps[1..]);
    }
  }

  // A refused call that waits the advertised seconds, with no capture granted or
  // ended in between, passes the check whenever it gets the slot.
  lemma WaitingClears(g: Gate, id: nat, steps: seq<Step>, again: nat)
    requires Enabled(g, Check(id)) && Remaining(g) > 0
    requires Runs(Do(g, Check(id)), steps)
    requires (var h := Run(Do(g, Check(id)), steps);
              && h.history == g.history && Enabled(h, Check(again))
              && h.now >= g.now + RetryAfterSeconds(Remaining(g)) * SECOND)
    ensures In(Do(g, Check(id)), id, Denied(Remaining(g)))
    ensures In(Do(Run(Do(g, Check(id)), steps), Check(again)), again, Holding)
  {
    ClockAndCooldown(Do(g, Check(id)), steps);
  }
}
