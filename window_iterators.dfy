/** SkipLastIterator and TakeLastIterator of src/Iterators.ts: each pass keeps
    a FIFO queue of the most recent upstream elements, dequeuing with
    `splice(0, 1)` and enqueuing with `push`. Neither touches the cursor. */
module WindowIterators {
  import opened Wrappers
  import opened Stages

  /** SkipLastIterator: the queue fills up to the count; from then on each new
      element releases the oldest one. Dequeuing an empty queue (count 0)
      yields `undefined`, modelled as `None`. */
  class SkipLastIterator<T> {
    const iterable: seq<T>
    const count: int
    var index: int
    var current: Option<T>

    predicate Idle()
      reads this
    {
      index == -1 && current.None?
    }

    constructor (iterable: seq<T>, count: int)
      ensures this.iterable == iterable && this.count == count && Idle()
    {
      this.iterable, this.count := iterable, count;
      index, current := -1, None;
    }

    method Reset()
      modifies this
      ensures Idle()
    {
      index, current := -1, None;
    }

    /** The loops of a pass. `longestQueue` is the most the queue ever holds:
        never more than a positive count. */
    method Pass() returns (out: seq<Option<T>>, ghost longestQueue: nat)
      ensures out == SkipLast(iterable, count)
      ensures count >= 1 ==> longestQueue <= count
    {
      var queue: seq<T> := [];
      out := [];
      longestQueue := 0;
      var i := 0;
      while i < |iterable|
        invariant 0 <= i <= |iterable|
        invariant queue == iterable[..i] && out == []
        invariant count >= 0 ==> i <= count
        invariant longestQueue == i
      {
        if |queue| == count {
          var j := i;
          while j < |iterable|
            invariant i <= j <= |iterable|
            invariant count >= 1 ==> queue == iterable[j - count..j] && out == Somes(iterable[..j - count])
            invariant count == 0 && j == 0 ==> queue == [] && out == []
            invariant count == 0 && j > 0 ==> queue == [iterable[j - 1]] && out == [None] + Somes(iterable[..j - 1])
            invariant count >= 1 ==> longestQueue <= count
          {
            // dequeue
            var dequeued: Option<T> := if queue == [] then None else Some(queue[0]);
            queue := if queue == [] then [] else queue[1..];
            out := out + [dequeued];
            // enqueue
            queue := queue + [iterable[j]];
            longestQueue := if |queue| > longestQueue then |queue| else longestQueue;
            j := j + 1;
          }
          assert iterable[..j - 1] == Init(iterable);
          break;
        } else {
          queue := queue + [iterable[i]];
          assert iterable[..i + 1] == iterable[..i] + [iterable[i]];
          i := i + 1;
          longestQueue := i;
        }
      }
    }

    method Iterate() returns (out: seq<Option<T>>, ghost longestQueue: nat)
      requires Idle()
      modifies this
      ensures out == SkipLast(iterable, count)
      ensures count >= 1 ==> longestQueue <= count
      ensures Idle()
    {
      out, longestQueue := Pass();
      Reset();
    }
  }

  /** TakeLastIterator: after the first element the queue fills up to the count,
      then slides over the rest of the upstream; a queue longer than the count
      (possible only for a count below one) throws before anything is yielded. */
  class TakeLastIterator<T> {
    const iterable: seq<T>
    const count: int
    var index: int
    var current: Option<T>

    predicate Idle()
      reads this
    {
      index == -1 && current.None?
    }

    constructor (iterable: seq<T>, count: int)
      ensures this.iterable == iterable && this.count == count && Idle()
    {
      this.iterable, this.count := iterable, count;
      index, current := -1, None;
    }

    method Reset()
      modifies this
      ensures Idle()
    {
      index, current := -1, None;
    }

    /** The queue-filling loop of a pass over a non-empty upstream: the queue
        ends up holding the last min(count, |upstream|) elements, or the last
        one alone for a count below one. `longestQueue` is the most it ever
        holds: never more than a positive count. */
    method Window() returns (queue: seq<T>, ghost longestQueue: nat)
      requires iterable != []
      ensures count >= 1 ==> queue == iterable[|iterable| - Min(count, |iterable|)..]
      ensures count < 1 ==> queue == [Last(iterable)]
      ensures count >= 1 ==> longestQueue <= count
    {
      queue := [iterable[0]];
      longestQueue := 1;
      var i := 1;
      while i < |iterable|
        invariant 1 <= i <= |iterable|
        invariant queue == iterable[..i]
        invariant i == 1 || i <= count
        invariant longestQueue == i
      {
        if |queue| < count {
          // enqueue
          queue := queue + [iterable[i]];
          assert iterable[..i + 1] == iterable[..i] + [iterable[i]];
          i := i + 1;
          longestQueue := i;
        } else {
          queue := Slide(queue, i);
          return;
        }
      }
    }

    /** The sliding loop: from position i on, each element dequeues the oldest
        one and is enqueued, so the queue keeps its length and ends on the
        last elements of the upstream. */
    method Slide(window: seq<T>, i: nat) returns (queue: seq<T>)
      requires 1 <= |window| <= i <= |iterable|
      requires window == iterable[i - |window|..i]
      ensures queue == iterable[|iterable| - |window|..]
    {
      queue := window;
      var j := i;
      while j < |iterable|
        invariant i <= j <= |iterable|
        invariant queue == iterable[j - |window|..j]
      {
        // dequeue, then enqueue
        assert iterable[j - |window| + 1..j + 1] == iterable[j - |window|..j][1..] + [iterable[j]];
        queue := queue[1..];
        queue := queue + [iterable[j]];
        j := j + 1;
      }
    }

    method Iterate() returns (r: Result<seq<T>>, ghost longestQueue: nat)
      requires Idle()
      modifies this
      ensures r == TakeLast(iterable, count)
      ensures count >= 1 ==> longestQueue <= count
      ensures Idle()
    {
      if |iterable| == 0 {
        Reset();
        return Ok([]), 0;
      }
      var queue;
      queue, longestQueue := Window();
      if |queue| > count {
        return Err(Unnamed), longestQueue;
      }
      var out: seq<T> := [];
      ghost var remaining := queue;
      while queue != []
        invariant out + queue == remaining
        decreases |queue|
      {
        // dequeue
        var dequeued := queue[0];
        queue := queue[1..];
        out := out + [dequeued];
      }
      assert out == remaining;
      r := Ok(out);
      Reset();
    }
  }
}
