// Size distributions and their differences (internal/memusage/objects.go,
// internal/offline/diff.go).
module Distribution {
  import opened Words
  import opened Wrappers
  import opened Graphs
  import opened Analyses
  import opened Order

  const BUCKETS: nat := 65

  // bits.Len64
  function BitLen(x: nat): nat
  {
    if x == 0 then 0 else 1 + BitLen(x / 2)
  }

  function Pow2(k: nat): (p: nat)
    ensures p > 0
  {
    if k == 0 then 1 else 2 * Pow2(k - 1)
  }

  // The smallest and the largest size of bucket k.
  function MinOf(k: nat): nat { if k == 0 then 0 else Pow2(k - 1) }

  function MaxOf(k: nat): nat { if k == 0 then 0 else Pow2(k - 1) - 1 + Pow2(k - 1) }

  // A size lies in exactly the bucket of its bit length.
  lemma {:induction false} BucketIs(x: nat, k: nat)
    ensures BitLen(x) == k <==> MinOf(k) <= x <= MaxOf(k)
  {
    if x > 0 && k > 0 {
      if k == 1 {
        if x / 2 == 0 {
          assert BitLen(x / 2) == 0;
        }
      } else {
        BucketIs(x / 2, k - 1);
        HalfWithin(x, Pow2(k - 2));
      }
    }
  }

  lemma HalfWithin(x: nat, p: nat)
    requires p > 0
    ensures p <= x / 2 <= p - 1 + p <==> 2 * p <= x <= 2 * p - 1 + 2 * p
  {}

  lemma Pow2Is()
    ensures Pow2(63) == 0x8000_0000_0000_0000 && Pow2(64) == TWO64
  {
    assert Pow2(8) == 0x100;
    assert Pow2(16) == 0x1_0000 by { assert Pow2(12) == 0x1000; }
    assert Pow2(24) == 0x100_0000 by { assert Pow2(20) == 0x10_0000; }
    assert Pow2(32) == 0x1_0000_0000 by { assert Pow2(28) == 0x1000_0000; }
    assert Pow2(40) == 0x100_0000_0000 by { assert Pow2(36) == 0x10_0000_0000; }
    assert Pow2(48) == 0x1_0000_0000_0000 by { assert Pow2(44) == 0x1000_0000_0000; }
    assert Pow2(56) == 0x100_0000_0000_0000 by { assert Pow2(52) == 0x10_0000_0000_0000; }
    assert Pow2(60) == 0x1000_0000_0000_0000;
  }

  // The bound of the last bucket, 64, is exactly the largest word: its
  // computation does not wrap.
  lemma WordsHaveBuckets(x: u64)
    ensures BitLen(x) < BUCKETS
    ensures MaxOf(64) == MAX_U64
  {
    Pow2Is();
    TooLong(x, BitLen(x));
  }

  lemma TooLong(x: u64, k: nat)
    requires BitLen(x) == k
    ensures k < BUCKETS
  {
    BucketIs(x, k);
    Pow2Is();
    if k >= BUCKETS {
      Pow2Grows(64, k - 1);
    }
  }

  lemma {:induction false} Pow2Grows(a: nat, b: nat)
    requires a <= b
    ensures Pow2(a) <= Pow2(b)
  {
    if a < b {
      Pow2Grows(a, b - 1);
    }
  }

  // The members of s in bucket k.
  ghost function Class(g: Graph, s: set<ObjectID>, k: nat): set<ObjectID>
  {
    set id | id in s && g.ValidID(id) && BitLen(g.objects[id].size) == k
  }

  ghost function ClassesBelow(g: Graph, s: set<ObjectID>, n: nat): set<ObjectID>
  {
    set id | id in s && g.ValidID(id) && BitLen(g.objects[id].size) < n
  }

  // buckets[k] measures class k of s.
  ghost predicate IsDistribution(buckets: seq<Measure>, g: Graph, s: set<ObjectID>)
  {
    |buckets| == BUCKETS && forall k :: 0 <= k < BUCKETS ==> buckets[k] == MeasureOf(g, Class(g, s, k))
  }

  // Every class fits a bucket's 64-bit byte total.
  ghost predicate ClassesFit(g: Graph, s: set<ObjectID>)
  {
    forall k :: 0 <= k < BUCKETS ==> Bytes(g, Class(g, s, k)) <= MAX_U64
  }

  method AddToBucket(buckets: array<Measure>, g: Graph, id: ObjectID, ghost done: set<ObjectID>, ghost s: set<ObjectID>) returns (ok: bool)
    requires buckets.Length == BUCKETS && g.ValidID(id) && id in s && id !in done && done < s
    requires IsDistribution(buckets[..], g, done) && ClassesFit(g, done)
    modifies buckets
    ensures ok ==> IsDistribution(buckets[..], g, done + {id}) && ClassesFit(g, done + {id})
    ensures !ok ==> !ClassesFit(g, s)
  {
    var size := g.objects[id].size;
    var k := BitLen(size);
    WordsHaveBuckets(size);
    ghost var before := buckets[..];
    ghost var members := Class(g, done, k);
    BytesInsert(g, members, id);
    assert before[k] == MeasureOf(g, members);
    BytesMonotone(g, members + {id}, Class(g, s, k));
    if size > MAX_U64 - buckets[k].bytes {
      return false;
    }
    buckets[k] := Measure(buckets[k].objects + 1, buckets[k].bytes + size);
    forall j | 0 <= j < BUCKETS
      ensures buckets[..][j] == MeasureOf(g, Class(g, done + {id}, j))
      ensures Bytes(g, Class(g, done + {id}, j)) <= MAX_U64
    {
      if j == k {
        assert Class(g, done + {id}, j) == members + {id};
      } else {
        assert Class(g, done + {id}, j) == Class(g, done, j);
        assert buckets[..][j] == before[j];
      }
    }
    return true;
  }

  lemma TotalFits(g: Graph, s: set<ObjectID>)
    requires Bytes(g, s) <= MAX_U64
    ensures ClassesFit(g, s)
  {
    forall k | 0 <= k < BUCKETS
      ensures Bytes(g, Class(g, s, k)) <= MAX_U64
    {
      BytesMonotone(g, Class(g, s, k), s);
    }
  }

  // distribution visits the set in an arbitrary order. It fails exactly when some
  // class does not fit 64 bits, whatever the order.
  method Distribute(g: Graph, s: set<ObjectID>) returns (r: Result<seq<Measure>, Error>)
    requires forall id :: id in s ==> g.ValidID(id)
    ensures r.Ok? <==> ClassesFit(g, s)
    ensures r.Ok? ==> IsDistribution(r.value, g, s)
    ensures r.Err? ==> r.error == BytesOverflow
  {
    var buckets := new Measure[BUCKETS](_ => Measure(0, 0));
    var todo := s;
    ghost var done: set<ObjectID> := {};
    EmptyDistribution(g, buckets[..]);
    while todo != {}
      invariant done !! todo && done + todo == s
      invariant IsDistribution(buckets[..], g, done) && ClassesFit(g, done)
      decreases todo
    {
      var id :| id in todo;
      var ok := AddToBucket(buckets, g, id, done, s);
      if !ok {
        return Err(BytesOverflow);
      }
      todo, done := todo - {id}, done + {id};
    }
    assert done == s;
    return Ok(buckets[..]);
  }

  lemma EmptyDistribution(g: Graph, buckets: seq<Measure>)
    requires |buckets| == BUCKETS && forall k :: 0 <= k < BUCKETS ==> buckets[k] == Measure(0, 0)
    ensures IsDistribution(buckets, g, {}) && ClassesFit(g, {})
  {
    forall k | 0 <= k < BUCKETS
      ensures MeasureOf(g, Class(g, {}, k)) == Measure(0, 0) && Bytes(g, Class(g, {}, k)) == 0
    {
      assert Class(g, {}, k) == {};
      BytesNone(g.objects, |g.objects|);
    }
  }

  // ---- Conservation ----

  // Objects and bytes are counted alike; unit says which of the two.
  datatype Unit = ObjectUnit | ByteUnit

  datatype Amount = Amount(objects: int, bytes: int)

  function Part(a: Amount, u: Unit): int
  {
    if u.ObjectUnit? then a.objects else a.bytes
  }

  function Count(m: Measure, u: Unit): int
  {
    if u.ObjectUnit? then m.objects else m.bytes
  }

  function SumUpTo(buckets: seq<Measure>, n: nat, u: Unit): int
    requires n <= |buckets|
  {
    if n == 0 then 0 else SumUpTo(buckets, n - 1, u) + Count(buckets[n - 1], u)
  }

  lemma {:induction false} ClassesAddUp(buckets: seq<Measure>, g: Graph, s: set<ObjectID>, n: nat, u: Unit)
    requires IsDistribution(buckets, g, s) && n <= BUCKETS
    ensures SumUpTo(buckets, n, u) == Count(MeasureOf(g, ClassesBelow(g, s, n)), u)
  {
    if n == 0 {
      assert ClassesBelow(g, s, 0) == {};
      BytesNone(g.objects, |g.objects|);
    } else {
      ClassesAddUp(buckets, g, s, n - 1, u);
      assert ClassesBelow(g, s, n) == ClassesBelow(g, s, n - 1) + Class(g, s, n - 1);
      MeasureAdds(g, ClassesBelow(g, s, n - 1), Class(g, s, n - 1));
    }
  }

  // The buckets partition the set: their totals are the set's.
  lemma BucketsPartition(buckets: seq<Measure>, g: Graph, s: set<ObjectID>, u: Unit)
    requires IsDistribution(buckets, g, s) && forall id :: id in s ==> g.ValidID(id)
    ensures SumUpTo(buckets, BUCKETS, u) == Count(MeasureOf(g, s), u)
  {
    ClassesAddUp(buckets, g, s, BUCKETS, u);
    forall id | id in s
      ensures id in ClassesBelow(g, s, BUCKETS)
    {
      WordsHaveBuckets(g.objects[id].size);
    }
    assert ClassesBelow(g, s, BUCKETS) == s;
  }

  // ---- Listings ----

  // A listed bucket; k determines its bounds.
  datatype Entry = Entry(k: nat, amount: Amount)

  function Key(e: Entry): int { e.k }

  // A list by bucket: strictly ascending.
  ghost predicate IsListing(es: seq<Entry>)
  {
    && (forall i :: 0 <= i < |es| ==> es[i].k < BUCKETS)
    && (forall i, j :: 0 <= i < j < |es| ==> es[i].k < es[j].k)
  }

  // What is listed for bucket k; nothing counts as zero.
  function At(es: seq<Entry>, k: nat, u: Unit): int
  {
    if |es| == 0 then 0 else if es[0].k == k then Part(es[0].amount, u) else At(es[1..], k, u)
  }

  function Sum(es: seq<Entry>, u: Unit): int
  {
    if |es| == 0 then 0 else Part(es[0].amount, u) + Sum(es[1..], u)
  }

  function SumAt(es: seq<Entry>, n: nat, u: Unit): int
  {
    if n == 0 then 0 else SumAt(es, n - 1, u) + At(es, n - 1, u)
  }

  lemma {:induction false} NotListed(es: seq<Entry>, k: nat, u: Unit)
    requires forall i :: 0 <= i < |es| ==> es[i].k != k
    ensures At(es, k, u) == 0
  {
    if |es| > 0 {
      NotListed(es[1..], k, u);
    }
  }

  lemma {:induction false} ListedAt(es: seq<Entry>, i: nat, u: Unit)
    requires IsListing(es) && i < |es|
    ensures At(es, es[i].k, u) == Part(es[i].amount, u)
  {
    if i > 0 {
      ListedAt(es[1..], i - 1, u);
    }
  }

  lemma {:induction false} SumTail(es: seq<Entry>, n: nat, u: Unit)
    requires IsListing(es) && |es| > 0
    ensures SumAt(es, n, u) == (if es[0].k < n then Part(es[0].amount, u) else 0) + SumAt(es[1..], n, u)
  {
    if n > 0 {
      SumTail(es, n - 1, u);
      if es[0].k == n - 1 {
        NotListed(es[1..], n - 1, u);
      }
    }
  }

  // Summing the list is summing over all buckets.
  lemma {:induction false} SumIsSumAt(es: seq<Entry>, u: Unit)
    requires IsListing(es)
    ensures Sum(es, u) == SumAt(es, BUCKETS, u)
  {
    if |es| == 0 {
      SumOfNone(es, BUCKETS, u);
    } else {
      SumTail(es, BUCKETS, u);
      SumIsSumAt(es[1..], u);
    }
  }

  lemma {:induction false} SumOfNone(es: seq<Entry>, n: nat, u: Unit)
    requires |es| == 0
    ensures SumAt(es, n, u) == 0
  {
    if n > 0 {
      SumOfNone(es, n - 1, u);
    }
  }

  // es lists the distribution of s.
  ghost predicate Describes(es: seq<Entry>, g: Graph, s: set<ObjectID>)
  {
    && IsListing(es)
    && forall k: nat, u: Unit :: k < BUCKETS ==> At(es, k, u) == Count(MeasureOf(g, Class(g, s, k)), u)
  }

  // The non-empty buckets, in order: what is left out is empty.
  method ListBuckets(buckets: seq<Measure>, ghost g: Graph, ghost s: set<ObjectID>) returns (es: seq<Entry>)
    requires IsDistribution(buckets, g, s)
    ensures Describes(es, g, s)
  {
    es := [];
    for i := 0 to BUCKETS
      invariant IsListing(es) && forall j :: 0 <= j < |es| ==> es[j].k < i
      invariant forall k: nat, u: Unit :: k < i ==> At(es, k, u) == Count(buckets[k], u)
    {
      EmptyClass(buckets, g, s, i);
      forall u: Unit
        ensures At(es, i, u) == 0
      {
        NotListed(es, i, u);
      }
      if buckets[i].objects > 0 {
        AppendAt(es, Entry(i, Amount(buckets[i].objects, buckets[i].bytes)));
        es := es + [Entry(i, Amount(buckets[i].objects, buckets[i].bytes))];
      }
    }
  }

  // The listed size distribution of a set. It fails only when the bytes of the whole
  // set do not fit 64 bits either.
  method SizeDistribution(g: Graph, s: set<ObjectID>) returns (r: Result<seq<Entry>, Error>)
    requires forall id :: id in s ==> g.ValidID(id)
    ensures r.Ok? ==> Describes(r.value, g, s)
    ensures r.Err? ==> r.error == BytesOverflow && Bytes(g, s) > MAX_U64
  {
    var buckets := Distribute(g, s);
    if buckets.Err? {
      if Bytes(g, s) <= MAX_U64 {
        TotalFits(g, s);
      }
      return Err(buckets.error);
    }
    var es := ListBuckets(buckets.value, g, s);
    return Ok(es);
  }

  lemma EmptyClass(buckets: seq<Measure>, g: Graph, s: set<ObjectID>, k: nat)
    requires IsDistribution(buckets, g, s) && k < BUCKETS
    ensures buckets[k].objects == 0 ==> buckets[k].bytes == 0
  {
    if buckets[k].objects == 0 {
      assert Class(g, s, k) == {};
      BytesNone(g.objects, |g.objects|);
    }
  }

  lemma AppendAt(es: seq<Entry>, e: Entry)
    requires forall j :: 0 <= j < |es| ==> es[j].k != e.k
    ensures forall k: nat, u: Unit :: At(es + [e], k, u) == if k == e.k then Part(e.amount, u) else At(es, k, u)
  {
    forall k: nat, u: Unit
      ensures At(es + [e], k, u) == if k == e.k then Part(e.amount, u) else At(es, k, u)
    {
      AppendOne(es, e, k, u);
    }
  }

  lemma {:induction false} AppendOne(es: seq<Entry>, e: Entry, k: nat, u: Unit)
    requires forall j :: 0 <= j < |es| ==> es[j].k != e.k
    ensures At(es + [e], k, u) == if k == e.k then Part(e.amount, u) else At(es, k, u)
  {
    if |es| > 0 {
      AppendOne(es[1..], e, k, u);
      assert (es + [e])[1..] == es[1..] + [e];
    } else {
      assert [e][1..] == [] && es + [e] == [e];
    }
  }

  // The listed amounts add up to the measure of the set.
  lemma ListingTotals(es: seq<Entry>, g: Graph, s: set<ObjectID>, u: Unit)
    requires Describes(es, g, s) && forall id :: id in s ==> g.ValidID(id)
    ensures Sum(es, u) == Count(MeasureOf(g, s), u)
  {
    var buckets := seq(BUCKETS, (k: int) requires 0 <= k < BUCKETS => MeasureOf(g, Class(g, s, k)));
    BucketsPartition(buckets, g, s, u);
    ListedSum(buckets, es, BUCKETS, u);
    SumIsSumAt(es, u);
  }

  lemma {:induction false} ListedSum(buckets: seq<Measure>, es: seq<Entry>, n: nat, u: Unit)
    requires |buckets| == BUCKETS && n <= BUCKETS
    requires forall k: nat :: k < BUCKETS ==> At(es, k, u) == Count(buckets[k], u)
    ensures SumAt(es, n, u) == SumUpTo(buckets, n, u)
  {
    if n > 0 {
      ListedSum(buckets, es, n - 1, u);
    }
  }

  // ---- Differences ----

  function MeasureDelta(a: Amount, b: Amount): Amount
  {
    Amount(b.objects - a.objects, b.bytes - a.bytes)
  }

  const NOTHING := Amount(0, 0)

  // es lists what every bucket gained from a to b.
  ghost predicate IsChange(es: seq<Entry>, a: seq<Entry>, b: seq<Entry>)
  {
    IsListing(es) && forall k: nat, u: Unit :: At(es, k, u) == At(b, k, u) - At(a, k, u)
  }

  // The map holds, for the buckets of a and b, what they gained.
  ghost predicate IsDelta(deltas: map<nat, Amount>, a: seq<Entry>, b: seq<Entry>)
  {
    && (forall k :: k in deltas ==> k < BUCKETS)
    && (forall k: nat, u: Unit :: k in deltas ==> Part(deltas[k], u) == At(b, k, u) - At(a, k, u))
    && (forall i :: 0 <= i < |a| ==> a[i].k in deltas)
    && (forall i :: 0 <= i < |b| ==> b[i].k in deltas)
  }

  // The first entry of a for bucket k, or nothing.
  method Before(a: seq<Entry>, k: nat) returns (m: Amount)
    ensures forall u: Unit :: Part(m, u) == At(a, k, u)
  {
    for i := 0 to |a|
      invariant forall u: Unit :: At(a, k, u) == At(a[i..], k, u)
    {
      assert a[i..][0] == a[i] && a[i..][1..] == a[i + 1..];
      if a[i].k == k {
        return a[i].amount;
      }
    }
    return NOTHING;
  }

  lemma EntryAt(es: seq<Entry>, i: nat)
    requires IsListing(es) && i < |es|
    ensures forall u: Unit :: At(es, es[i].k, u) == Part(es[i].amount, u)
  {
    forall u: Unit
      ensures At(es, es[i].k, u) == Part(es[i].amount, u)
    {
      ListedAt(es, i, u);
    }
  }

  // The buckets of a, as losses.
  method Losses(a: seq<Entry>) returns (deltas: map<nat, Amount>)
    requires IsListing(a)
    ensures forall k :: k in deltas ==> k < BUCKETS
    ensures forall k: nat, u: Unit :: k in deltas ==> Part(deltas[k], u) == 0 - At(a, k, u)
    ensures forall i :: 0 <= i < |a| ==> a[i].k in deltas
  {
    deltas := map[];
    for i := 0 to |a|
      invariant forall k :: k in deltas ==> k < BUCKETS
      invariant forall k: nat, u: Unit :: k in deltas ==> Part(deltas[k], u) == 0 - At(a, k, u)
      invariant forall j :: 0 <= j < i ==> a[j].k in deltas
    {
      EntryAt(a, i);
      deltas := deltas[a[i].k := MeasureDelta(a[i].amount, NOTHING)];
    }
  }

  method BucketDeltas(a: seq<Entry>, b: seq<Entry>) returns (deltas: map<nat, Amount>)
    requires IsListing(a) && IsListing(b)
    ensures IsDelta(deltas, a, b)
  {
    deltas := Losses(a);
    for i := 0 to |b|
      invariant forall j :: 0 <= j < |a| ==> a[j].k in deltas
      invariant forall j :: 0 <= j < i ==> b[j].k in deltas
      invariant forall k :: k in deltas ==> k < BUCKETS
      invariant forall k: nat, u: Unit :: k in deltas ==>
        Part(deltas[k], u) == (if ListedBefore(b, i, k) then At(b, k, u) else 0) - At(a, k, u)
    {
      EntryAt(b, i);
      var m := Before(a, b[i].k);
      deltas := deltas[b[i].k := MeasureDelta(m, b[i].amount)];
    }
    forall k: nat, u: Unit | k in deltas && !ListedBefore(b, |b|, k)
      ensures At(b, k, u) == 0
    {
      NotListed(b, k, u);
    }
  }

  ghost predicate ListedBefore(b: seq<Entry>, n: nat, k: nat)
    requires n <= |b|
  {
    exists j :: 0 <= j < n && b[j].k == k
  }

  // list holds the entries of the map outside todo, each once.
  ghost predicate Lists(list: seq<Entry>, deltas: map<nat, Amount>, todo: set<nat>)
  {
    && (forall i :: 0 <= i < |list| ==> list[i].k in deltas && list[i].k !in todo && list[i].amount == deltas[list[i].k])
    && (forall k :: k in deltas && k !in todo ==> Entry(k, deltas[k]) in list)
    && (forall i, j :: 0 <= i < j < |list| ==> list[i].k != list[j].k)
  }

  // The map as a list in bucket order; it is visited in an arbitrary order.
  method ListDeltas(deltas: map<nat, Amount>) returns (es: seq<Entry>)
    requires forall k :: k in deltas ==> k < BUCKETS
    ensures IsListing(es)
    ensures forall k: nat, u: Unit :: At(es, k, u) == if k in deltas then Part(deltas[k], u) else 0
  {
    var todo := deltas.Keys;
    var list: seq<Entry> := [];
    while todo != {}
      invariant todo <= deltas.Keys && Lists(list, deltas, todo)
      decreases todo
    {
      var k :| k in todo;
      list := list + [Entry(k, deltas[k])];
      todo := todo - {k};
    }
    es := SortByKey(list, Key);
    SortedLists(list, es, deltas);
    forall k: nat, u: Unit
      ensures At(es, k, u) == if k in deltas then Part(deltas[k], u) else 0
    {
      ListedValue(es, deltas, k, u);
    }
  }

  lemma ListedValue(es: seq<Entry>, deltas: map<nat, Amount>, k: nat, u: Unit)
    requires IsListing(es) && Lists(es, deltas, {})
    ensures At(es, k, u) == if k in deltas then Part(deltas[k], u) else 0
  {
    if k in deltas {
      assert Entry(k, deltas[k]) in es;
      var i :| 0 <= i < |es| && es[i] == Entry(k, deltas[k]);
      ListedAt(es, i, u);
    } else {
      NotListed(es, k, u);
    }
  }

  lemma SortedLists(list: seq<Entry>, es: seq<Entry>, deltas: map<nat, Amount>)
    requires multiset(list) == multiset(es) && Ascending(es, Key) && Lists(list, deltas, {})
    requires forall k :: k in deltas ==> k < BUCKETS
    ensures IsListing(es) && Lists(es, deltas, {})
  {
    SameElements(list, es);
    forall i | 0 <= i < |es|
      ensures es[i].k in deltas && es[i].amount == deltas[es[i].k]
    {
      assert es[i] in es;
      var j :| 0 <= j < |list| && list[j] == es[i];
    }
    forall i, j | 0 <= i < j < |es|
      ensures es[i].k < es[j].k
    {
      assert Key(es[i]) <= Key(es[j]);
      var p, q := TwoPositions(list, es, i, j);
      assert list[if p < q then p else q].k != list[if p < q then q else p].k;
    }
    forall k | k in deltas
      ensures Entry(k, deltas[k]) in es
    {
      assert Entry(k, deltas[k]) in list;
    }
  }

  // The distribution part of a summary change.
  method Change(a: seq<Entry>, b: seq<Entry>) returns (es: seq<Entry>)
    requires IsListing(a) && IsListing(b)
    ensures IsChange(es, a, b)
  {
    var deltas := BucketDeltas(a, b);
    es := ListDeltas(deltas);
    forall k: nat, u: Unit | k !in deltas
      ensures At(a, k, u) == At(b, k, u) == 0
    {
      NotListed(a, k, u);
      NotListed(b, k, u);
    }
  }

  lemma {:induction false} ChangeSumAt(es: seq<Entry>, a: seq<Entry>, b: seq<Entry>, n: nat, u: Unit)
    requires IsChange(es, a, b)
    ensures SumAt(es, n, u) == SumAt(b, n, u) - SumAt(a, n, u)
  {
    if n > 0 {
      ChangeSumAt(es, a, b, n - 1, u);
    }
  }

  // The signed bucket deltas sum to the delta of the totals.
  lemma ChangeSums(es: seq<Entry>, a: seq<Entry>, b: seq<Entry>, u: Unit)
    requires IsListing(a) && IsListing(b) && IsChange(es, a, b)
    ensures Sum(es, u) == Sum(b, u) - Sum(a, u)
  {
    SumIsSumAt(a, u);
    SumIsSumAt(b, u);
    SumIsSumAt(es, u);
    ChangeSumAt(es, a, b, BUCKETS, u);
  }

  // For two captures, each with its own graph: the bucket deltas sum to the
  // delta of the reachable objects and bytes.
  lemma ReachableDelta(g: Graph, s: set<ObjectID>, a: seq<Entry>, h: Graph, t: set<ObjectID>, b: seq<Entry>,
                       es: seq<Entry>, u: Unit)
    requires Describes(a, g, s) && Describes(b, h, t) && IsChange(es, a, b)
    requires (forall id :: id in s ==> g.ValidID(id)) && (forall id :: id in t ==> h.ValidID(id))
    ensures Sum(es, u) == Count(MeasureOf(h, t), u) - Count(MeasureOf(g, s), u)
  {
    ListingTotals(a, g, s, u);
    ListingTotals(b, h, t, u);
    ChangeSums(es, a, b, u);
  }

  // Deltas telescope over three captures, bucket by bucket and in total.
  lemma ChangesTelescope(a: seq<Entry>, b: seq<Entry>, c: seq<Entry>, ab: seq<Entry>, bc: seq<Entry>, ac: seq<Entry>, u: Unit)
    requires IsListing(a) && IsListing(b) && IsListing(c)
    requires IsChange(ab, a, b) && IsChange(bc, b, c) && IsChange(ac, a, c)
    ensures forall k: nat :: At(ac, k, u) == At(ab, k, u) + At(bc, k, u)
    ensures Sum(ac, u) == Sum(ab, u) + Sum(bc, u)
  {
    ChangeSums(ab, a, b, u);
    ChangeSums(bc, b, c, u);
    ChangeSums(ac, a, c, u);
  }

  // ---- Category counts ----

  function CountAt(m: map<string, int>, k: string): int
  {
    if k in m then m[k] else 0
  }

  // countDelta visits both maps in an arbitrary order.
  method CountDelta(a: map<string, int>, b: map<string, int>) returns (out: map<string, int>)
    ensures out.Keys == a.Keys + b.Keys
    ensures forall k :: CountAt(out, k) == CountAt(b, k) - CountAt(a, k)
  {
    out := map[];
    var todo := a.Keys;
    while todo != {}
      invariant todo <= a.Keys && out.Keys == a.Keys - todo
      invariant forall k :: k in out ==> out[k] == -a[k]
      decreases todo
    {
      var k :| k in todo;
      out := out[k := -a[k]];
      todo := todo - {k};
    }
    todo := b.Keys;
    while todo != {}
      invariant todo <= b.Keys && out.Keys == a.Keys + (b.Keys - todo)
      invariant forall k :: CountAt(out, k) == (if k in b && k !in todo then b[k] else 0) - CountAt(a, k)
      decreases todo
    {
      var k :| k in todo;
      out := out[k := CountAt(out, k) + b[k]];
      todo := todo - {k};
    }
  }
}
