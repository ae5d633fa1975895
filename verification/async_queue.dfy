/** The queue the TypeScript socket classes are built from (packages/core-ts/src/ws/async.ts). */
module AsyncQueues {
  import opened Wrappers

  /** A value to come: whoever settles it first decides what it is. */
  class Deferred<T> {
    var settled: bool
    var value: Option<T>

    constructor ()
      ensures !settled && value == None
    {
      settled, value := false, None;
    }

    method Resolve(v: T)
      modifies this
      ensures settled
      ensures if old(settled) then value == old(value) else value == Some(v)
    {
      if !settled {
        settled := true;
        value := Some(v);
      }
    }
  }

  function Min(a: nat, b: nat): nat { if a < b then a else b }

  /** Pushes and pulls matched in order, whichever of the two comes first. */
  class AsyncQueue<T> {
    var items: seq<T>
    var waiters: seq<Deferred<T>>
    ghost var pushes: seq<T>
    ghost var pulls: seq<Deferred<T>>

    /** Items and waiters never both wait, and the i-th pull has resolved with the i-th push. */
    ghost predicate Valid()
      reads this, pulls
    {
      && (items == [] || waiters == [])
      && (if |pulls| <= |pushes| then waiters == [] && items == pushes[|pulls|..]
          else items == [] && waiters == pulls[|pushes|..])
      && (forall i, j :: 0 <= i < j < |pulls| ==> pulls[i] != pulls[j])
      && (forall i :: 0 <= i < Min(|pulls|, |pushes|) ==> pulls[i].settled && pulls[i].value == Some(pushes[i]))
      && (forall i :: |pushes| <= i < |pulls| ==> !pulls[i].settled)
    }

    constructor ()
      ensures Valid() && pushes == [] && pulls == []
    {
      items, waiters, pushes, pulls := [], [], [], [];
    }

    method Push(item: T)
      requires Valid()
      modifies this, pulls
      ensures Valid() && pushes == old(pushes) + [item] && pulls == old(pulls)
      ensures forall i :: 0 <= i < |pulls| && i != |old(pushes)| ==>
                pulls[i].settled == old(pulls[i].settled) && pulls[i].value == old(pulls[i].value)
    {
      if |waiters| > 0 {
        var waiter := waiters[0];
        assert waiter == pulls[|pushes|];
        waiters := waiters[1..];
        waiter.Resolve(item);
      } else {
        items := items + [item];
      }
      pushes := pushes + [item];
    }

    method Pull() returns (promise: Deferred<T>)
      requires Valid()
      modifies this
      ensures Valid() && fresh(promise) && pulls == old(pulls) + [promise] && pushes == old(pushes)
      ensures |old(pulls)| < |pushes| <==> promise.settled
      ensures promise.settled ==> promise.value == Some(pushes[|old(pulls)|])
    {
      promise := new Deferred<T>();
      if |items| > 0 {
        assert items[0] == pushes[|pulls|];
        promise.Resolve(items[0]);
        items := items[1..];
      } else {
        waiters := waiters + [promise];
      }
      pulls := pulls + [promise];
    }
  }
}
