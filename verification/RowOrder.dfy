// Order of the per-group table: descending metric, ties by label value. Values are
// distinct, so any correct sort gives the rows of this insertion sort.
module RowOrder {
  import opened Top

  datatype SortKey = ByReachable | ByExclusive | ByShared

  function Metric(k: SortKey, r: GroupRow): nat
  {
    match k
    case ByReachable => r.sizes.reachable.bytes
    case ByExclusive => r.sizes.exclusive.bytes
    case ByShared => r.sizes.shared.bytes
  }

  // Lexicographic order on label values.
  predicate Less(a: string, b: string)
  {
    if |b| == 0 then false
    else if |a| == 0 then true
    else if a[0] != b[0] then a[0] < b[0]
    else Less(a[1..], b[1..])
  }

  lemma {:induction false} LessTotal(a: string, b: string)
    ensures a != b ==> Less(a, b) || Less(b, a)
    ensures Less(a, b) ==> !Less(b, a)
  {
    if |a| > 0 && |b| > 0 && a[0] == b[0] {
      LessTotal(a[1..], b[1..]);
      assert a == [a[0]] + a[1..] && b == [b[0]] + b[1..];
    }
  }

  lemma {:induction false} LessTransitive(a: string, b: string, c: string)
    requires Less(a, b) && Less(b, c)
    ensures Less(a, c)
  {
    if |a| > 0 && a[0] == b[0] && b[0] == c[0] {
      LessTransitive(a[1..], b[1..], c[1..]);
    }
  }

  predicate Ahead(k: SortKey, a: GroupRow, b: GroupRow)
  {
    if Metric(k, a) != Metric(k, b) then Metric(k, a) > Metric(k, b) else Less(a.value, b.value)
  }

  lemma AheadTransitive(k: SortKey, a: GroupRow, b: GroupRow, c: GroupRow)
    requires Ahead(k, a, b) && Ahead(k, b, c)
    ensures Ahead(k, a, c)
  {
    if Metric(k, a) == Metric(k, b) == Metric(k, c) {
      LessTransitive(a.value, b.value, c.value);
    }
  }

  ghost predicate Ordered(k: SortKey, rows: seq<GroupRow>)
  {
    forall i, j :: 0 <= i < j < |rows| ==> Ahead(k, rows[i], rows[j])
  }

  // ---- What the order is, key by key ----

  // b goes on where a ends, or has the greater character at the first difference.
  ghost predicate ComesBefore(a: string, b: string)
  {
    (a <= b && |a| < |b|) || exists p: nat :: DiffersAt(a, b, p) && a[p] < b[p]
  }

  ghost predicate DiffersAt(a: string, b: string, p: nat)
  {
    p < |a| && p < |b| && a[p] != b[p] && forall q :: 0 <= q < p ==> a[q] == b[q]
  }

  lemma {:induction false} LessMeans(a: string, b: string)
    ensures Less(a, b) <==> ComesBefore(a, b)
  {
    if |a| > 0 && |b| > 0 {
      if a[0] == b[0] {
        LessMeans(a[1..], b[1..]);
        assert a == [a[0]] + a[1..] && b == [b[0]] + b[1..];
        if p: nat :| DiffersAt(a, b, p) && a[p] < b[p] {
          assert DiffersAt(a[1..], b[1..], p - 1);
        }
        if p: nat :| DiffersAt(a[1..], b[1..], p) && a[1..][p] < b[1..][p] {
          assert DiffersAt(a, b, p + 1);
        }
      } else {
        assert DiffersAt(a, b, 0);
      }
    }
  }

  // More bytes of the chosen kind first; equal bytes by value.
  ghost predicate IsSorted(k: SortKey, rows: seq<GroupRow>)
  {
    forall i, j :: 0 <= i < j < |rows| ==>
      var x, y := rows[i], rows[j];
      && (k == ByReachable ==> MoreOrBefore(x.sizes.reachable.bytes, x.value, y.sizes.reachable.bytes, y.value))
      && (k == ByExclusive ==> MoreOrBefore(x.sizes.exclusive.bytes, x.value, y.sizes.exclusive.bytes, y.value))
      && (k == ByShared ==> MoreOrBefore(x.sizes.shared.bytes, x.value, y.sizes.shared.bytes, y.value))
  }

  ghost predicate MoreOrBefore(m: nat, a: string, n: nat, b: string)
  {
    m > n || (m == n && ComesBefore(a, b))
  }

  lemma OrderedMeans(k: SortKey, rows: seq<GroupRow>)
    ensures Ordered(k, rows) <==> IsSorted(k, rows)
  {
    forall i, j | 0 <= i < j < |rows|
      ensures Less(rows[i].value, rows[j].value) <==> ComesBefore(rows[i].value, rows[j].value)
    {
      LessMeans(rows[i].value, rows[j].value);
    }
  }

  function Insert(k: SortKey, x: GroupRow, rows: seq<GroupRow>): (r: seq<GroupRow>)
    ensures |r| == |rows| + 1
    ensures forall y :: y in r <==> y == x || y in rows
  {
    if |rows| == 0 || Ahead(k, x, rows[0]) then [x] + rows
    else
      assert rows == [rows[0]] + rows[1..];
      [rows[0]] + Insert(k, x, rows[1..])
  }

  lemma {:induction false} InsertOrdered(k: SortKey, x: GroupRow, rows: seq<GroupRow>)
    requires Ordered(k, rows) && forall y :: y in rows ==> y.value != x.value
    ensures Ordered(k, Insert(k, x, rows))
  {
    var r := Insert(k, x, rows);
    if |rows| > 0 {
      if Ahead(k, x, rows[0]) {
        forall j | 0 < j < |r|
          ensures Ahead(k, x, r[j])
        {
          if j > 1 {
            AheadTransitive(k, x, rows[0], rows[j - 1]);
          }
        }
      } else {
        LessTotal(x.value, rows[0].value);
        InsertOrdered(k, x, rows[1..]);
        var tail := Insert(k, x, rows[1..]);
        forall j | 0 <= j < |tail|
          ensures Ahead(k, rows[0], tail[j])
        {
          assert tail[j] in tail;
          if tail[j] != x {
            var m :| 0 <= m < |rows[1..]| && rows[1..][m] == tail[j];
            assert rows[m + 1] == tail[j];
          }
        }
      }
    }
  }

  method SortRows(k: SortKey, rows: seq<GroupRow>) returns (r: seq<GroupRow>)
    requires forall i, j :: 0 <= i < j < |rows| ==> rows[i].value != rows[j].value
    ensures Ordered(k, r) && IsSorted(k, r) && |r| == |rows|
    ensures forall y :: y in r <==> y in rows
  {
    r := [];
    for i := 0 to |rows|
      invariant Ordered(k, r) && |r| == i
      invariant forall y :: y in r <==> y in rows[..i]
    {
      forall y | y in r
        ensures y.value != rows[i].value
      {
        var m :| 0 <= m < i && rows[..i][m] == y;
        assert rows[m] == y;
      }
      InsertOrdered(k, rows[i], r);
      assert rows[..i + 1] == rows[..i] + [rows[i]];
      r := Insert(k, rows[i], r);
    }
    assert rows[..|rows|] == rows;
    OrderedMeans(k, r);
  }
}
