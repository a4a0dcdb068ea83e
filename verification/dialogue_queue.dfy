/**
 * `DialogueQueue<T>`: a first-in first-out log with a fixed maximum size that
 * drops its oldest item to make room for a new one.
 */
module DialogueQueues {
  import opened Common

  /** The items kept after one `enqueue` of `item` onto a queue holding `items`. */
  function Push<T>(items: seq<T>, maxSize: int, item: T): (r: seq<T>)
    requires 0 < maxSize && |items| <= maxSize
    ensures 0 < |r| <= maxSize && r[|r| - 1] == item
  {
    (if |items| >= maxSize then items[1..] else items) + [item]
  }

  /**
   * Below capacity an enqueue keeps every item and appends; at capacity it
   * drops exactly the oldest one.
   */
  lemma PushKeepsOthers<T>(items: seq<T>, maxSize: int, item: T)
    requires 0 < maxSize && |items| <= maxSize
    ensures |items| < maxSize ==> |Push(items, maxSize, item)| == |items| + 1 && Push(items, maxSize, item)[..|items|] == items
    ensures |items| == maxSize ==> |Push(items, maxSize, item)| == maxSize && Push(items, maxSize, item)[..maxSize - 1] == items[1..]
  {
  }

  /** The items kept after enqueuing each of `added`, in order. */
  function PushAll<T>(items: seq<T>, maxSize: int, added: seq<T>): (r: seq<T>)
    requires 0 < maxSize && |items| <= maxSize
    ensures |r| <= maxSize
    decreases |added|
  {
    if added == [] then items
    else PushAll(Push(items, maxSize, added[0]), maxSize, added[1..])
  }

  /** The last `min(|items|, maxSize)` of `items`, in their original order. */
  function Newest<T>(items: seq<T>, maxSize: nat): (r: seq<T>)
  {
    items[|items| - Min(|items|, maxSize)..]
  }

  lemma NewestOfNewest<T>(a: seq<T>, b: seq<T>, maxSize: nat)
    ensures Newest(Newest(a, maxSize) + b, maxSize) == Newest(a + b, maxSize)
  {
    var na := Newest(a, maxSize);
    assert (a + b)[|a| - |na|..] == na + b;
  }

  /** One enqueue keeps the newest `maxSize` of the items so far. */
  lemma PushIsNewest<T>(items: seq<T>, maxSize: int, item: T)
    requires 0 < maxSize && |items| <= maxSize
    ensures Push(items, maxSize, item) == Newest(items + [item], maxSize)
  {
    if |items| == maxSize {
      assert (items + [item])[1..] == items[1..] + [item];
    }
  }

  /**
   * Enqueuing a list of items onto a queue that holds `items` leaves exactly
   * the newest `maxSize` of all of them, oldest first.
   */
  lemma {:induction false} PushAllKeepsNewest<T>(items: seq<T>, maxSize: int, added: seq<T>)
    requires 0 < maxSize && |items| <= maxSize
    ensures PushAll(items, maxSize, added) == Newest(items + added, maxSize)
    decreases |added|
  {
    if added == [] {
      assert items + added == items;
    } else {
      var pushed := Push(items, maxSize, added[0]);
      PushAllKeepsNewest(pushed, maxSize, added[1..]);
      PushIsNewest(items, maxSize, added[0]);
      NewestOfNewest(items + [added[0]], added[1..], maxSize);
      assert items + [added[0]] + added[1..] == items + added;
    }
  }

  /**
   * After N enqueues onto a new queue the log holds the last `min(N, maxSize)`
   * items enqueued, in insertion order.
   */
  lemma LogAfterEnqueues<T>(maxSize: int, added: seq<T>)
    requires 0 < maxSize
    ensures |PushAll([], maxSize, added)| == Min(|added|, maxSize)
    ensures PushAll([], maxSize, added) == added[|added| - Min(|added|, maxSize)..]
  {
    PushAllKeepsNewest([], maxSize, added);
    assert [] + added == added;
  }

  /** Enqueuing a list of one item is enqueuing that item. */
  lemma PushAllOne<T>(items: seq<T>, maxSize: int, item: T)
    requires 0 < maxSize && |items| <= maxSize
    ensures PushAll(items, maxSize, [item]) == Push(items, maxSize, item)
  {
    assert [item][1..] == [];
  }

  /** Enqueuing a list is enqueuing its first item, then the rest. */
  lemma PushAllCons<T>(items: seq<T>, maxSize: int, item: T, rest: seq<T>)
    requires 0 < maxSize && |items| <= maxSize
    ensures PushAll(items, maxSize, [item] + rest) == PushAll(Push(items, maxSize, item), maxSize, rest)
  {
    assert ([item] + rest)[0] == item && ([item] + rest)[1..] == rest;
  }

  /** Enqueuing two lists one after the other is enqueuing their concatenation. */
  lemma {:induction false} PushAllAppend<T>(items: seq<T>, maxSize: int, a: seq<T>, b: seq<T>)
    requires 0 < maxSize && |items| <= maxSize
    ensures PushAll(items, maxSize, a + b) == PushAll(PushAll(items, maxSize, a), maxSize, b)
    decreases |a|
  {
    if a == [] {
      assert a + b == b;
    } else {
      PushAllAppend(Push(items, maxSize, a[0]), maxSize, a[1..], b);
      assert (a + b)[0] == a[0];
      assert (a + b)[1..] == a[1..] + b;
    }
  }

  class DialogueQueue<T> {
    const maxSize: int
    var queue: seq<T>

    ghost predicate Valid()
      reads this
    {
      0 < maxSize && |queue| <= maxSize
    }

    /** The constructor proper, for a size the caller has checked (see `NewDialogueQueue`). */
    constructor (maxSize: int)
      requires 0 < maxSize
      ensures Valid() && this.maxSize == maxSize && queue == []
    {
      this.maxSize := maxSize;
      queue := [];
    }

    /** `enqueue`: when full, the oldest item is dequeued before the new one is added. */
    method Enqueue(item: T)
      requires Valid()
      modifies this
      ensures Valid()
      ensures queue == Push(old(queue), maxSize, item)
    {
      if |queue| >= maxSize {
        queue := queue[1..];
      }
      queue := queue + [item];
    }

    /** `GetEnumerator`: the items oldest first, without changing them. */
    method GetEnumerator() returns (items: seq<T>)
      requires Valid()
      ensures items == queue && |items| <= maxSize
    {
      items := queue;
    }
  }

  /** `new DialogueQueue<T>(maxSize)`: a size of zero or less throws `ArgumentOutOfRangeException`. */
  method NewDialogueQueue<T>(maxSize: int) returns (r: Result<DialogueQueue<T>>)
    ensures r.Failure? <==> maxSize <= 0
    ensures r.Failure? ==> r.error == ArgumentOutOfRange
    ensures r.Success? ==> fresh(r.value) && r.value.Valid() && r.value.maxSize == maxSize && r.value.queue == []
  {
    if maxSize <= 0 {
      return Failure(ArgumentOutOfRange);
    }
    var q := new DialogueQueue<T>(maxSize);
    return Success(q);
  }
}
