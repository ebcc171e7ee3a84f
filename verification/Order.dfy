// Go's sort.Slice and sort.Search, by an integer key.
module Order {

  ghost predicate Ascending<T(!new)>(s: seq<T>, key: T -> int)
  {
    forall i, j :: 0 <= i < j < |s| ==> key(s[i]) <= key(s[j])
  }

  // The place behind the last element, of the first n, with a key of at most x.
  function LastUpTo<T>(s: seq<T>, key: T -> int, n: nat, x: int): (k: nat)
    requires n <= |s|
    ensures k <= n && (k > 0 ==> key(s[k - 1]) <= x)
    ensures forall i :: k <= i < n ==> x < key(s[i])
  {
    if n == 0 then 0 else if key(s[n - 1]) <= x then n else LastUpTo(s, key, n - 1, x)
  }

  lemma {:induction false} LastUpToIs<T>(s: seq<T>, key: T -> int, n: nat, x: int, k: nat)
    requires k <= n <= |s| && (k > 0 ==> key(s[k - 1]) <= x)
    requires forall i :: k <= i < n ==> x < key(s[i])
    ensures LastUpTo(s, key, n, x) == k
  {
    if k < n {
      LastUpToIs(s, key, n - 1, x, k);
    }
  }

  // sort.Search for the first element with a key above x.
  method SearchAbove<T(!new)>(s: seq<T>, key: T -> int, x: int) returns (n: nat)
    requires Ascending(s, key)
    ensures n <= |s| && n == LastUpTo(s, key, |s|, x)
    ensures forall i :: 0 <= i < n ==> key(s[i]) <= x
    ensures forall i :: n <= i < |s| ==> x < key(s[i])
  {
    var lo, hi := 0, |s|;
    while lo < hi
      invariant 0 <= lo <= hi <= |s|
      invariant forall i :: 0 <= i < lo ==> key(s[i]) <= x
      invariant forall i :: hi <= i < |s| ==> x < key(s[i])
    {
      var mid := (lo + hi) / 2;
      if x < key(s[mid]) {
        hi := mid;
      } else {
        lo := mid + 1;
      }
    }
    n := lo;
    LastUpToIs(s, key, |s|, x, n);
  }

  function InsertAt<T>(s: seq<T>, k: nat, x: T): (t: seq<T>)
    requires k <= |s|
  {
    s[..k] + [x] + s[k..]
  }

  lemma InsertKeeps<T(!new)>(s: seq<T>, key: T -> int, k: nat, x: T)
    requires Ascending(s, key) && k <= |s|
    requires forall i :: 0 <= i < k ==> key(s[i]) <= key(x)
    requires forall i :: k <= i < |s| ==> key(x) < key(s[i])
    ensures Ascending(InsertAt(s, k, x), key)
  {
    var t := InsertAt(s, k, x);
    forall i, j | 0 <= i < j < |t|
      ensures key(t[i]) <= key(t[j])
    {
      var p, q := if i <= k then i else i - 1, if j <= k then j else j - 1;
      assert i != k ==> t[i] == s[p];
      assert j != k ==> t[j] == s[q];
    }
  }

  lemma InsertElements<T>(s: seq<T>, k: nat, x: T)
    requires k <= |s|
    ensures multiset(InsertAt(s, k, x)) == multiset(s) + multiset{x}
  {
    assert s == s[..k] + s[k..];
  }

  // sort.Slice: the same elements, in ascending key order.
  method SortByKey<T(!new)>(s: seq<T>, key: T -> int) returns (t: seq<T>)
    ensures multiset(t) == multiset(s)
    ensures Ascending(t, key)
  {
    t := [];
    for n := 0 to |s|
      invariant multiset(t) == multiset(s[..n])
      invariant Ascending(t, key)
    {
      var k := SearchAbove(t, key, key(s[n]));
      InsertKeeps(t, key, k, s[n]);
      InsertElements(t, k, s[n]);
      assert s[..n + 1] == s[..n] + [s[n]];
      t := InsertAt(t, k, s[n]);
    }
    assert s[..|s|] == s;
  }

  // Sorting keeps length and membership.
  lemma SameElements<T>(s: seq<T>, t: seq<T>)
    requires multiset(s) == multiset(t)
    ensures |s| == |t|
    ensures forall x :: x in s <==> x in t
  {
    assert |multiset(s)| == |multiset(t)|;
    forall x
      ensures x in s <==> x in t
    {
      assert x in s <==> x in multiset(s);
      assert x in t <==> x in multiset(t);
    }
  }

  function Without<T>(s: seq<T>, k: nat): (r: seq<T>)
    requires k < |s|
    ensures |r| == |s| - 1
    ensures forall p :: 0 <= p < |r| ==> r[p] == s[if p < k then p else p + 1]
    ensures multiset(r) == multiset(s) - multiset{s[k]}
  {
    assert s == s[..k] + [s[k]] + s[k + 1..];
    s[..k] + s[k + 1..]
  }

  lemma Position<T>(s: seq<T>, t: seq<T>, k: nat) returns (i: nat)
    requires multiset(s) == multiset(t) && k < |t|
    ensures i < |s| && s[i] == t[k]
  {
    assert t[k] in t;
    SameElements(s, t);
    i :| 0 <= i < |s| && s[i] == t[k];
  }

  // Two positions after sorting were two positions before.
  lemma TwoPositions<T>(s: seq<T>, t: seq<T>, k: nat, l: nat) returns (i: nat, j: nat)
    requires multiset(s) == multiset(t) && k < l < |t|
    ensures i < |s| && j < |s| && i != j && s[i] == t[k] && s[j] == t[l]
  {
    i := Position(s, t, k);
    var p := Position(Without(s, i), Without(t, k), l - 1);
    j := if p < i then p else p + 1;
  }
}
