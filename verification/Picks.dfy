// Lists that hold one element for every picked index, in order.
module Picks {

  function CountWhere(picked: nat -> bool, n: nat): nat
  {
    if n == 0 then 0 else CountWhere(picked, n - 1) + (if picked(n - 1) then 1 else 0)
  }

  // The list holds the value of every index below n that is picked, in order.
  ghost predicate IsPicked<T(!new)>(list: seq<T>, n: nat, picked: nat -> bool, value: nat -> T)
  {
    && |list| == CountWhere(picked, n)
    && forall i: nat {:trigger value(i)} :: i < n && picked(i) ==>
         CountWhere(picked, i) < |list| && list[CountWhere(picked, i)] == value(i)
  }

  // more has index n's value behind list, if n is picked.
  ghost predicate Extends<T(!new)>(list: seq<T>, more: seq<T>, n: nat, picked: nat -> bool, value: nat -> T)
  {
    more == if picked(n) then list + [value(n)] else list
  }

  lemma {:induction false} PickedGrow(picked: nat -> bool, i: nat, n: nat)
    requires i < n && picked(i)
    ensures CountWhere(picked, i) < CountWhere(picked, n)
  {
    if i < n - 1 {
      PickedGrow(picked, i, n - 1);
    }
  }

  lemma PickedNext<T(!new)>(list: seq<T>, more: seq<T>, n: nat, picked: nat -> bool, value: nat -> T)
    requires IsPicked(list, n, picked, value)
    requires Extends(list, more, n, picked, value)
    ensures IsPicked(more, n + 1, picked, value)
  {
    forall i: nat | i < n + 1 && picked(i)
      ensures CountWhere(picked, i) < CountWhere(picked, n + 1)
    {
      PickedGrow(picked, i, n + 1);
    }
  }
}
