/**
 * The bounded recency queue: a first-in first-out queue of fixed capacity
 * that never holds the same item twice. When it is full, enqueuing first
 * drops the oldest item; an item already present is not added again.
 */
module FixedSizeQueues {
  import opened Common

  predicate NoDuplicates<T(==)>(s: seq<T>) {
    forall i, j :: 0 <= i < j < |s| ==> s[i] != s[j]
  }

  /**
   * The queue contents after `Enqueue(x)` on `items` (oldest first) with
   * capacity `maxSize`: eviction of the oldest item when full comes first,
   * the membership test second.
   */
  function Enqueued<T(==)>(items: seq<T>, maxSize: int, x: T): seq<T>
    requires 0 < maxSize
  {
    var kept := if |items| >= maxSize then items[1..] else items;
    if x in kept then kept else kept + [x]
  }

  /** The contents after enqueuing every element of `xs` in order. */
  function EnqueuedAll<T(==)>(items: seq<T>, maxSize: int, xs: seq<T>): seq<T>
    requires 0 < maxSize
  {
    if xs == [] then items
    else Enqueued(EnqueuedAll(items, maxSize, xs[..|xs| - 1]), maxSize, xs[|xs| - 1])
  }

  class FixedSizeQueue<T(==)> {
    /** The wrapped queue, oldest item first. */
    var items: seq<T>
    const maxSize: int

    ghost predicate Valid()
      reads this
    {
      0 < maxSize && |items| <= maxSize && NoDuplicates(items)
    }

    constructor (maxSize: int)
      requires 0 < maxSize
      ensures Valid() && this.maxSize == maxSize && items == []
    {
      this.maxSize := maxSize;
      items := [];
    }

    /** The constructor with its argument check: a capacity <= 0 is rejected. */
    static method Create(maxSize: int) returns (r: Result<FixedSizeQueue<T>>)
      ensures r.Failure? <==> maxSize <= 0
      ensures r.Failure? ==> r.error == MaxSizeNotPositive
      ensures r.Success? ==> fresh(r.value) && r.value.Valid()
      ensures r.Success? ==> r.value.maxSize == maxSize && r.value.items == []
    {
      if maxSize <= 0 {
        return Failure(MaxSizeNotPositive);
      }
      var q := new FixedSizeQueue(maxSize);
      r := Success(q);
    }

    method Enqueue(item: T)
      requires Valid()
      modifies this
      ensures Valid()
      ensures items == Enqueued(old(items), maxSize, item)
    {
      if |items| >= maxSize {
        items := items[1..];
      }
      if item in items {
        return;
      }
      items := items + [item];
      EnqueuedNoDuplicates(old(items), maxSize, item);
    }

    /** Enqueues each element of `xs` in order. */
    method EnqueueAll(xs: seq<T>)
      requires Valid()
      modifies this
      ensures Valid()
      ensures items == EnqueuedAll(old(items), maxSize, xs)
    {
      var i := 0;
      while i < |xs|
        invariant 0 <= i <= |xs|
        invariant Valid()
        invariant items == EnqueuedAll(old(items), maxSize, xs[..i])
      {
        assert xs[..i + 1][..i] == xs[..i];
        Enqueue(xs[i]);
        i := i + 1;
      }
      assert xs[..|xs|] == xs;
    }

    method Dequeue() returns (r: Result<T>)
      requires Valid()
      modifies this
      ensures Valid()
      ensures old(items) == [] ==> r == Failure(QueueEmpty) && items == []
      ensures old(items) != [] ==> r == Success(old(items)[0]) && items == old(items)[1..]
    {
      if |items| == 0 {
        return Failure(QueueEmpty);
      }
      r := Success(items[0]);
      items := items[1..];
    }

    function Count(): (n: nat)
      requires Valid()
      reads this
      ensures n == |items| && n <= maxSize
    {
      |items|
    }

    function Contains(item: T): (b: bool)
      reads this
      ensures b <==> exists i :: 0 <= i < |items| && items[i] == item
    {
      item in items
    }
  }

  /** Enqueuing never takes the queue above its capacity. */
  lemma EnqueuedBounded<T>(items: seq<T>, maxSize: int, x: T)
    requires 0 < maxSize && |items| <= maxSize
    ensures |Enqueued(items, maxSize, x)| <= maxSize
  {
  }

  /** After `Enqueue(x)`, `Contains(x)` holds, even when `x` was the evicted oldest item. */
  lemma EnqueuedContains<T>(items: seq<T>, maxSize: int, x: T)
    requires 0 < maxSize
    ensures x in Enqueued(items, maxSize, x)
    ensures |items| >= maxSize && items[0] == x && NoDuplicates(items) ==>
              Enqueued(items, maxSize, x) == items[1..] + [x]
  {
    if |items| >= maxSize && items[0] == x && NoDuplicates(items) {
      assert x !in items[1..] by {
        forall k | 0 <= k < |items[1..]| ensures items[1..][k] != x {
          assert items[1..][k] == items[k + 1];
        }
      }
    }
  }

  /** Enqueuing keeps the queue free of duplicates. */
  lemma EnqueuedNoDuplicates<T>(items: seq<T>, maxSize: int, x: T)
    requires 0 < maxSize && NoDuplicates(items)
    ensures NoDuplicates(Enqueued(items, maxSize, x))
  {
    var kept := if |items| >= maxSize then items[1..] else items;
    assert NoDuplicates(kept);
  }

  /** Every item held after enqueuing was held before or is the new one. */
  lemma EnqueuedSubset<T>(items: seq<T>, maxSize: int, x: T, y: T)
    requires 0 < maxSize
    ensures y in Enqueued(items, maxSize, x) ==> y in items || y == x
  {
  }

  /**
   * Enqueuing an item that is already present, into a queue that is not
   * full, changes nothing.
   */
  lemma EnqueuePresentNotFull<T>(items: seq<T>, maxSize: int, x: T)
    requires 0 < maxSize && |items| < maxSize && x in items
    ensures Enqueued(items, maxSize, x) == items
  {
  }

  /**
   * Enqueuing an item that is already present (and not the oldest) into a
   * full queue still evicts the oldest item, so the queue shrinks by one.
   */
  lemma EnqueuePresentFull<T>(items: seq<T>, maxSize: int, x: T)
    requires 0 < maxSize && |items| == maxSize && x in items && x != items[0]
    ensures Enqueued(items, maxSize, x) == items[1..]
    ensures |Enqueued(items, maxSize, x)| == maxSize - 1
  {
    var k :| 0 <= k < |items| && items[k] == x;
    assert items[1..][k - 1] == x;
  }

  /** Enqueuing `x` and then `xs` is enqueuing `[x] + xs`. */
  lemma {:induction false} EnqueuedAllCons<T>(items: seq<T>, maxSize: int, x: T, xs: seq<T>)
    requires 0 < maxSize
    ensures EnqueuedAll(items, maxSize, [x] + xs) == EnqueuedAll(Enqueued(items, maxSize, x), maxSize, xs)
    decreases |xs|
  {
    var zs := [x] + xs;
    if xs == [] {
      assert zs[..|zs| - 1] == [];
      assert EnqueuedAll(items, maxSize, zs) == Enqueued(EnqueuedAll(items, maxSize, []), maxSize, x);
    } else {
      var ys, y := xs[..|xs| - 1], xs[|xs| - 1];
      assert zs[..|zs| - 1] == [x] + ys;
      assert zs[|zs| - 1] == y;
      EnqueuedAllCons(items, maxSize, x, ys);
      assert EnqueuedAll(items, maxSize, zs) == Enqueued(EnqueuedAll(items, maxSize, [x] + ys), maxSize, y);
      assert EnqueuedAll(Enqueued(items, maxSize, x), maxSize, xs)
          == Enqueued(EnqueuedAll(Enqueued(items, maxSize, x), maxSize, ys), maxSize, y);
    }
  }

  /** Enqueuing an absent item into a queue within its capacity evicts when full and appends. */
  lemma EnqueuedAbsent<T>(items: seq<T>, maxSize: int, x: T)
    requires 0 < maxSize && |items| <= maxSize && x !in items
    ensures Enqueued(items, maxSize, x) == (if |items| == maxSize then items[1..] else items) + [x]
  {
    if |items| == maxSize {
      assert forall k :: 0 <= k < |items| - 1 ==> items[1..][k] == items[k + 1];
      assert x !in items[1..];
    }
  }

  /** Dropping the last item keeps a sequence free of duplicates. */
  lemma NoDuplicatesPrefix<T>(xs: seq<T>)
    requires xs != [] && NoDuplicates(xs)
    ensures NoDuplicates(xs[..|xs| - 1])
  {
    var ys := xs[..|xs| - 1];
    forall i, j | 0 <= i < j < |ys| ensures ys[i] != ys[j] {
      assert ys[i] == xs[i] && ys[j] == xs[j];
    }
  }

  /** The last item of a sequence without duplicates occurs in no slice before it. */
  lemma LastNotBefore<T>(xs: seq<T>, m: nat)
    requires m < |xs| && NoDuplicates(xs)
    ensures xs[|xs| - 1] !in xs[m..|xs| - 1]
  {
    var before := xs[m..|xs| - 1];
    forall k | 0 <= k < |before| ensures before[k] != xs[|xs| - 1] {
      assert before[k] == xs[m + k];
    }
  }

  /** The last `maxSize` items of `xs`. */
  function Newest<T>(xs: seq<T>, maxSize: nat): seq<T> {
    xs[if |xs| > maxSize then |xs| - maxSize else 0..]
  }

  /** A non-empty sequence is its prefix followed by its last item. */
  lemma SnocLast<T>(xs: seq<T>)
    requires xs != []
    ensures xs[..|xs| - 1] + [xs[|xs| - 1]] == xs
  {
  }

  /** The newest items of `xs` but its last, as a slice of `xs`. */
  lemma NewestOfPrefix<T>(xs: seq<T>, maxSize: nat)
    requires xs != []
    ensures var m := if |xs| - 1 > maxSize then |xs| - 1 - maxSize else 0;
            Newest(xs[..|xs| - 1], maxSize) == xs[m..|xs| - 1]
  {
  }

  /** The last item of a sequence without duplicates is not among the newest items before it. */
  lemma LastNotNewest<T>(xs: seq<T>, maxSize: nat)
    requires xs != [] && NoDuplicates(xs)
    ensures xs[|xs| - 1] !in Newest(xs[..|xs| - 1], maxSize)
  {
    LastNotBefore(xs, if |xs| - 1 > maxSize then |xs| - 1 - maxSize else 0);
    NewestOfPrefix(xs, maxSize);
  }

  /** Appending one item to `ys` shifts its newest `maxSize` items by one when there are that many. */
  lemma NewestSnoc<T>(ys: seq<T>, x: T, maxSize: nat)
    requires 0 < maxSize
    ensures |Newest(ys, maxSize)| <= maxSize
    ensures Newest(ys + [x], maxSize)
            == (if |Newest(ys, maxSize)| == maxSize then Newest(ys, maxSize)[1..] else Newest(ys, maxSize)) + [x]
  {
    var n := |ys|;
    if n >= maxSize {
      assert Newest(ys, maxSize) == ys[n - maxSize..];
      assert Newest(ys + [x], maxSize) == (ys + [x])[n + 1 - maxSize..];
      assert ys[n - maxSize..][1..] == ys[n + 1 - maxSize..];
    } else {
      assert Newest(ys, maxSize) == ys;
      assert Newest(ys + [x], maxSize) == ys + [x];
    }
  }

  /**
   * One step of `EnqueuedAllDistinct`: when the queue holds the newest items
   * of `ys` and `x` is not among them, enqueuing `x` gives the newest items
   * of `ys + [x]`.
   */
  lemma EnqueuedNewest<T>(maxSize: int, ys: seq<T>, x: T)
    requires 0 < maxSize
    requires EnqueuedAll([], maxSize, ys) == Newest(ys, maxSize)
    requires x !in Newest(ys, maxSize)
    ensures EnqueuedAll([], maxSize, ys + [x]) == Newest(ys + [x], maxSize)
  {
    var xs := ys + [x];
    assert xs[..|xs| - 1] == ys;
    assert EnqueuedAll([], maxSize, xs) == Enqueued(Newest(ys, maxSize), maxSize, x);
    NewestSnoc(ys, x, maxSize);
    EnqueuedAbsent(Newest(ys, maxSize), maxSize, x);
  }

  /**
   * Enqueuing distinct items into an empty queue of capacity `maxSize`
   * keeps exactly the last `maxSize` of them, oldest first.
   */
  lemma {:induction false} EnqueuedAllDistinct<T>(maxSize: int, xs: seq<T>)
    requires 0 < maxSize && NoDuplicates(xs)
    ensures EnqueuedAll([], maxSize, xs) == Newest(xs, maxSize)
  {
    if xs != [] {
      var n := |xs|;
      var ys, x := xs[..n - 1], xs[n - 1];
      NoDuplicatesPrefix(xs);
      EnqueuedAllDistinct(maxSize, ys);
      LastNotNewest(xs, maxSize);
      EnqueuedNewest(maxSize, ys, x);
      SnocLast(xs);
    }
  }

  /**
   * A queue of capacity K that has taken K+1 distinct items in order no
   * longer holds the first one and still holds the other K.
   */
  lemma OldestEvictedAfterCapacityPlusOne<T>(maxSize: int, xs: seq<T>)
    requires 0 < maxSize && |xs| == maxSize + 1 && NoDuplicates(xs)
    ensures xs[0] !in EnqueuedAll([], maxSize, xs)
    ensures forall k :: 1 <= k < |xs| ==> xs[k] in EnqueuedAll([], maxSize, xs)
  {
    EnqueuedAllDistinct(maxSize, xs);
    assert EnqueuedAll([], maxSize, xs) == xs[1..];
    forall k | 1 <= k < |xs| ensures xs[k] in xs[1..] {
      assert xs[1..][k - 1] == xs[k];
    }
  }
}
