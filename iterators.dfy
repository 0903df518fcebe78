/** The element-wise stage iterators of src/Iterators.ts. Each class keeps the
    `index`/`current` cursor of `BaseIterator`/`SourceResultIterator`, starting
    idle (-1 and null); `Iterate` is one complete pass over its upstream, which
    is given as the sequence that upstream yields, and ends with `reset()`. */
module Iterators {
  import opened Wrappers
  import opened Stages

  /** SimpleIterator: the upstream, element for element. */
  class SimpleIterator<T> {
    const iterable: seq<T>
    var index: int
    var current: Option<T>

    predicate Idle()
      reads this
    {
      index == -1 && current.None?
    }

    constructor (iterable: seq<T>)
      ensures this.iterable == iterable && Idle()
    {
      this.iterable := iterable;
      index, current := -1, None;
    }

    method Reset()
      modifies this
      ensures Idle()
    {
      index, current := -1, None;
    }

    method Iterate() returns (out: seq<T>)
      requires Idle()
      modifies this
      ensures out == iterable && Idle()
    {
      out := [];
      var i := 0;
      while i < |iterable|
        invariant 0 <= i <= |iterable|
        invariant index == i - 1
        invariant out == iterable[..i]
      {
        assert iterable[..i + 1] == iterable[..i] + [iterable[i]];
        index := index + 1;
        current := Some(iterable[i]);
        out := out + [iterable[i]];
        i := i + 1;
      }
      Reset();
    }
  }

  /** AppendIterator: the upstream, then the appended item. */
  class AppendIterator<T> {
    const iterable: seq<T>
    const item: T
    var index: int
    var current: Option<T>

    predicate Idle()
      reads this
    {
      index == -1 && current.None?
    }

    constructor (iterable: seq<T>, item: T)
      ensures this.iterable == iterable && this.item == item && Idle()
    {
      this.iterable, this.item := iterable, item;
      index, current := -1, None;
    }

    method Reset()
      modifies this
      ensures Idle()
    {
      index, current := -1, None;
    }

    method Iterate() returns (out: seq<T>)
      requires Idle()
      modifies this
      ensures out == iterable + [item] && Idle()
    {
      out := [];
      var i := 0;
      while i < |iterable|
        invariant 0 <= i <= |iterable|
        invariant index == i - 1
        invariant out == iterable[..i]
      {
        assert iterable[..i + 1] == iterable[..i] + [iterable[i]];
        index := index + 1;
        current := Some(iterable[i]);
        out := out + [iterable[i]];
        i := i + 1;
      }
      assert iterable[..i] == iterable;
      index := index + 1;
      current := Some(item);
      out := out + [item];
      Reset();
    }
  }

  /** PrependIterator: the prepended item, then the upstream. */
  class PrependIterator<T> {
    const iterable: seq<T>
    const item: T
    var index: int
    var current: Option<T>

    predicate Idle()
      reads this
    {
      index == -1 && current.None?
    }

    constructor (iterable: seq<T>, item: T)
      ensures this.iterable == iterable && this.item == item && Idle()
    {
      this.iterable, this.item := iterable, item;
      index, current := -1, None;
    }

    method Reset()
      modifies this
      ensures Idle()
    {
      index, current := -1, None;
    }

    method Iterate() returns (out: seq<T>)
      requires Idle()
      modifies this
      ensures out == [item] + iterable && Idle()
    {
      index := index + 1;
      current := Some(item);
      out := [item];
      var i := 0;
      while i < |iterable|
        invariant 0 <= i <= |iterable|
        invariant index == i
        invariant out == [item] + iterable[..i]
      {
        assert iterable[..i + 1] == iterable[..i] + [iterable[i]];
        index := index + 1;
        current := Some(iterable[i]);
        out := out + [iterable[i]];
        i := i + 1;
      }
      assert iterable[..i] == iterable;
      Reset();
    }
  }

  /** ConcatIterator: the upstream, then the other sequence. */
  class ConcatIterator<T> {
    const iterable: seq<T>
    const other: seq<T>
    var index: int
    var current: Option<T>

    predicate Idle()
      reads this
    {
      index == -1 && current.None?
    }

    constructor (iterable: seq<T>, other: seq<T>)
      ensures this.iterable == iterable && this.other == other && Idle()
    {
      this.iterable, this.other := iterable, other;
      index, current := -1, None;
    }

    method Reset()
      modifies this
      ensures Idle()
    {
      index, current := -1, None;
    }

    method Iterate() returns (out: seq<T>)
      requires Idle()
      modifies this
      ensures out == iterable + other && Idle()
    {
      out := [];
      var i := 0;
      while i < |iterable|
        invariant 0 <= i <= |iterable|
        invariant index == i - 1
        invariant out == iterable[..i]
      {
        assert iterable[..i + 1] == iterable[..i] + [iterable[i]];
        index := index + 1;
        current := Some(iterable[i]);
        out := out + [iterable[i]];
        i := i + 1;
      }
      assert iterable[..i] == iterable;
      var j := 0;
      while j < |other|
        invariant 0 <= j <= |other|
        invariant index == |iterable| + j - 1
        invariant out == iterable + other[..j]
      {
        assert other[..j + 1] == other[..j] + [other[j]];
        index := index + 1;
        current := Some(other[j]);
        out := out + [other[j]];
        j := j + 1;
      }
      assert other[..j] == other;
      Reset();
    }
  }

  /** DefaultIfEmptyIterator: the upstream, or the default value alone when the
      upstream yields nothing. */
  class DefaultIfEmptyIterator<T> {
    const iterable: seq<T>
    const defaultValue: T
    var index: int
    var current: Option<T>

    predicate Idle()
      reads this
    {
      index == -1 && current.None?
    }

    constructor (iterable: seq<T>, defaultValue: T)
      ensures this.iterable == iterable && this.defaultValue == defaultValue && Idle()
    {
      this.iterable, this.defaultValue := iterable, defaultValue;
      index, current := -1, None;
    }

    method Reset()
      modifies this
      ensures Idle()
    {
      index, current := -1, None;
    }

    method Iterate() returns (out: seq<T>)
      requires Idle()
      modifies this
      ensures iterable != [] ==> out == iterable
      ensures iterable == [] ==> out == [defaultValue]
      ensures Idle()
    {
      var count := 0;
      out := [];
      var i := 0;
      while i < |iterable|
        invariant 0 <= i <= |iterable|
        invariant count == i && index == i - 1
        invariant out == iterable[..i]
      {
        assert iterable[..i + 1] == iterable[..i] + [iterable[i]];
        count := count + 1;
        index := index + 1;
        current := Some(iterable[i]);
        out := out + [iterable[i]];
        i := i + 1;
      }
      assert iterable[..i] == iterable;
      if count == 0 {
        out := out + [defaultValue];
      }
      Reset();
    }
  }

  /** WhereIterator: the upstream elements the predicate accepts, given each
      element and its upstream position. */
  class WhereIterator<T> {
    const iterable: seq<T>
    const pred: (T, int) -> bool
    var index: int
    var current: Option<T>

    predicate Idle()
      reads this
    {
      index == -1 && current.None?
    }

    constructor (iterable: seq<T>, pred: (T, int) -> bool)
      ensures this.iterable == iterable && this.pred == pred && Idle()
    {
      this.iterable, this.pred := iterable, pred;
      index, current := -1, None;
    }

    method Reset()
      modifies this
      ensures Idle()
    {
      index, current := -1, None;
    }

    method Iterate() returns (out: seq<T>)
      requires Idle()
      modifies this
      ensures out == Where(iterable, pred) && Idle()
    {
      out := [];
      var i := 0;
      while i < |iterable|
        invariant 0 <= i <= |iterable|
        invariant index == i - 1
        invariant out == Where(iterable[..i], pred)
      {
        assert iterable[..i + 1][..i] == iterable[..i];
        index := index + 1;
        var element := iterable[i];
        var valid := pred(element, index);
        if valid {
          current := Some(element);
          out := out + [element];
        }
        i := i + 1;
      }
      assert iterable[..i] == iterable;
      Reset();
    }
  }

  /** SelectIterator: the selector applied to each element and its position. */
  class SelectIterator<T, U> {
    const iterable: seq<T>
    const selector: (T, int) -> U
    var index: int
    var current: Option<U>

    predicate Idle()
      reads this
    {
      index == -1 && current.None?
    }

    constructor (iterable: seq<T>, selector: (T, int) -> U)
      ensures this.iterable == iterable && this.selector == selector && Idle()
    {
      this.iterable, this.selector := iterable, selector;
      index, current := -1, None;
    }

    method Reset()
      modifies this
      ensures Idle()
    {
      index, current := -1, None;
    }

    method Iterate() returns (out: seq<U>)
      requires Idle()
      modifies this
      ensures out == Select(iterable, selector) && Idle()
    {
      out := [];
      var i := 0;
      while i < |iterable|
        invariant 0 <= i <= |iterable|
        invariant index == i - 1
        invariant out == Select(iterable[..i], selector)
      {
        assert iterable[..i + 1][..i] == iterable[..i];
        index := index + 1;
        current := Some(selector(iterable[i], index));
        out := out + [current.value];
        i := i + 1;
      }
      assert iterable[..i] == iterable;
      Reset();
    }
  }

  /** SelectManyIterator: the selector's sequences, flattened in upstream order. */
  class SelectManyIterator<T, U> {
    const iterable: seq<T>
    const selector: (T, int) -> seq<U>
    var index: int
    var current: Option<U>

    predicate Idle()
      reads this
    {
      index == -1 && current.None?
    }

    constructor (iterable: seq<T>, selector: (T, int) -> seq<U>)
      ensures this.iterable == iterable && this.selector == selector && Idle()
    {
      this.iterable, this.selector := iterable, selector;
      index, current := -1, None;
    }

    method Reset()
      modifies this
      ensures Idle()
    {
      index, current := -1, None;
    }

    method Iterate() returns (out: seq<U>)
      requires Idle()
      modifies this
      ensures out == SelectMany(iterable, selector) && Idle()
    {
      out := [];
      var i := 0;
      while i < |iterable|
        invariant 0 <= i <= |iterable|
        invariant index == i - 1
        invariant out == SelectMany(iterable[..i], selector)
      {
        assert iterable[..i + 1][..i] == iterable[..i];
        index := index + 1;
        var subElements := selector(iterable[i], index);
        ghost var before := out;
        var j := 0;
        while j < |subElements|
          invariant 0 <= j <= |subElements|
          invariant out == before + subElements[..j]
        {
          assert subElements[..j + 1] == subElements[..j] + [subElements[j]];
          out := out + [subElements[j]];
          j := j + 1;
        }
        assert subElements[..j] == subElements;
        i := i + 1;
      }
      assert iterable[..i] == iterable;
      Reset();
    }
  }

  /** SkipIterator: every position is counted; those below the count are passed over. */
  class SkipIterator<T> {
    const iterable: seq<T>
    const count: int
    var index: int
    var current: Option<T>

    predicate Idle()
      reads this
    {
      index == -1 && current.None?
    }

    constructor (iterable: seq<T>, count: int)
      ensures this.iterable == iterable && this.count == count && Idle()
    {
      this.iterable, this.count := iterable, count;
      index, current := -1, None;
    }

    method Reset()
      modifies this
      ensures Idle()
    {
      index, current := -1, None;
    }

    method Iterate() returns (out: seq<T>)
      requires Idle()
      modifies this
      ensures out == Skip(iterable, count) && Idle()
    {
      out := [];
      var i := 0;
      while i < |iterable|
        invariant 0 <= i <= |iterable|
        invariant index == i - 1
        invariant out == Skip(iterable[..i], count)
      {
        assert iterable[..i + 1][..i] == iterable[..i];
        index := index + 1;
        if index >= count {
          current := Some(iterable[i]);
          out := out + [iterable[i]];
        }
        i := i + 1;
      }
      assert iterable[..i] == iterable;
      Reset();
    }
  }

  /** TakeIterator: the pass breaks at the first position that reaches the count. */
  class TakeIterator<T> {
    const iterable: seq<T>
    const count: int
    var index: int
    var current: Option<T>

    predicate Idle()
      reads this
    {
      index == -1 && current.None?
    }

    constructor (iterable: seq<T>, count: int)
      ensures this.iterable == iterable && this.count == count && Idle()
    {
      this.iterable, this.count := iterable, count;
      index, current := -1, None;
    }

    method Reset()
      modifies this
      ensures Idle()
    {
      index, current := -1, None;
    }

    method Iterate() returns (out: seq<T>)
      requires Idle()
      modifies this
      ensures out == Take(iterable, count) && Idle()
    {
      out := [];
      var i := 0;
      while i < |iterable|
        invariant 0 <= i <= |iterable|
        invariant index == i - 1
        invariant out == iterable[..i]
        invariant i == 0 || i <= count
      {
        index := index + 1;
        if index >= count {
          break;
        }
        assert iterable[..i + 1] == iterable[..i] + [iterable[i]];
        current := Some(iterable[i]);
        out := out + [iterable[i]];
        i := i + 1;
      }
      var below := (x: T, j: int) => j < count;
      assert forall j :: 0 <= j < i ==> below(iterable[j], j);
      PrefixLengthUnique(iterable, below, i);
      Reset();
    }
  }

  /** TakeWhileIterator: the pass breaks at the first element the predicate rejects. */
  class TakeWhileIterator<T> {
    const iterable: seq<T>
    const pred: (T, int) -> bool
    var index: int
    var current: Option<T>

    predicate Idle()
      reads this
    {
      index == -1 && current.None?
    }

    constructor (iterable: seq<T>, pred: (T, int) -> bool)
      ensures this.iterable == iterable && this.pred == pred && Idle()
    {
      this.iterable, this.pred := iterable, pred;
      index, current := -1, None;
    }

    method Reset()
      modifies this
      ensures Idle()
    {
      index, current := -1, None;
    }

    method Iterate() returns (out: seq<T>)
      requires Idle()
      modifies this
      ensures out == TakeWhile(iterable, pred) && Idle()
    {
      out := [];
      var i := 0;
      while i < |iterable|
        invariant 0 <= i <= |iterable|
        invariant index == i - 1
        invariant out == iterable[..i]
        invariant forall j :: 0 <= j < i ==> pred(iterable[j], j)
      {
        index := index + 1;
        if !pred(iterable[i], index) {
          break;
        }
        assert iterable[..i + 1] == iterable[..i] + [iterable[i]];
        current := Some(iterable[i]);
        out := out + [iterable[i]];
        i := i + 1;
      }
      PrefixLengthUnique(iterable, pred, i);
      Reset();
    }
  }

  /** SkipWhileIterator: while the `skip` latch is set, accepted elements are
      dropped; the first rejected element clears the latch for good, since
      `reset()` leaves it alone, and the predicate is not consulted again. */
  class SkipWhileIterator<T> {
    const iterable: seq<T>
    const pred: (T, int) -> bool
    var skip: bool
    var index: int
    var current: Option<T>

    predicate Idle()
      reads this
    {
      index == -1 && current.None?
    }

    constructor (iterable: seq<T>, pred: (T, int) -> bool)
      ensures this.iterable == iterable && this.pred == pred && skip && Idle()
    {
      this.iterable, this.pred := iterable, pred;
      skip := true;
      index, current := -1, None;
    }

    method Reset()
      modifies this
      ensures Idle() && skip == old(skip)
    {
      index, current := -1, None;
    }

    /** `consulted` counts the predicate calls: the accepted prefix and the
        first rejection, and none at all once the latch is clear. */
    method Iterate() returns (out: seq<T>, ghost consulted: nat)
      requires Idle()
      modifies this
      ensures out == SkipWhile(iterable, pred, old(skip))
      ensures skip == (old(skip) && PrefixLength(iterable, pred) == |iterable|)
      ensures consulted == (if old(skip) then Min(PrefixLength(iterable, pred) + 1, |iterable|) else 0)
      ensures Idle()
    {
      ghost var skipping := skip;
      out := [];
      consulted := 0;
      var i := 0;
      while i < |iterable|
        invariant 0 <= i <= |iterable|
        invariant index == i - 1
        invariant skipping && skip ==> out == [] && consulted == i && forall j :: 0 <= j < i ==> pred(iterable[j], j)
        invariant skipping && !skip ==> PrefixLength(iterable, pred) < i
                                        && out == iterable[PrefixLength(iterable, pred)..i]
                                        && consulted == PrefixLength(iterable, pred) + 1
        invariant !skipping ==> !skip && out == iterable[..i] && consulted == 0
      {
        index := index + 1;
        var element := iterable[i];
        if skip {
          consulted := consulted + 1;
          if pred(element, index) {
            i := i + 1;
            continue;
          }
          PrefixLengthUnique(iterable, pred, i);
          skip := false;
        }
        assert iterable[..i + 1] == iterable[..i] + [element];
        current := Some(element);
        out := out + [element];
        i := i + 1;
      }
      if skipping && skip {
        PrefixLengthUnique(iterable, pred, i);
      }
      Reset();
    }
  }

  /** ReverseIterator: the materialised upstream, back to front. */
  class ReverseIterator<T> {
    const iterable: seq<T>
    var index: int
    var current: Option<T>

    predicate Idle()
      reads this
    {
      index == -1 && current.None?
    }

    constructor (iterable: seq<T>)
      ensures this.iterable == iterable && Idle()
    {
      this.iterable := iterable;
      index, current := -1, None;
    }

    method Reset()
      modifies this
      ensures Idle()
    {
      index, current := -1, None;
    }

    method Iterate() returns (out: seq<T>)
      requires Idle()
      modifies this
      ensures out == Reversed(iterable) && Idle()
    {
      // [...this.iterable].reverse()
      var reversed: seq<T> := [];
      var i := 0;
      while i < |iterable|
        invariant 0 <= i <= |iterable|
        invariant reversed == Reversed(iterable[..i])
      {
        assert iterable[..i + 1][..i] == iterable[..i];
        reversed := [iterable[i]] + reversed;
        i := i + 1;
      }
      assert iterable[..i] == iterable;
      out := [];
      var j := 0;
      while j < |reversed|
        invariant 0 <= j <= |reversed|
        invariant index == j - 1
        invariant out == reversed[..j]
      {
        assert reversed[..j + 1] == reversed[..j] + [reversed[j]];
        index := index + 1;
        current := Some(reversed[j]);
        out := out + [reversed[j]];
        j := j + 1;
      }
      assert reversed[..j] == reversed;
      Reset();
    }
  }

  /** ZipIterator: the second sequence drives the outer loop and the source the
      inner one, so every pair is combined. */
  class ZipIterator<A, B, R> {
    const iterable: seq<A>
    const sequence: seq<B>
    const resultSelector: (A, B) -> R
    var index: int
    var current: Option<R>

    predicate Idle()
      reads this
    {
      index == -1 && current.None?
    }

    constructor (iterable: seq<A>, sequence: seq<B>, resultSelector: (A, B) -> R)
      ensures this.iterable == iterable && this.sequence == sequence
      ensures this.resultSelector == resultSelector && Idle()
    {
      this.iterable, this.sequence, this.resultSelector := iterable, sequence, resultSelector;
      index, current := -1, None;
    }

    method Reset()
      modifies this
      ensures Idle()
    {
      index, current := -1, None;
    }

    /** The inner loop: every source element against one element of the sequence. */
    method Row(otherElement: B) returns (row: seq<R>)
      ensures row == ZipRow(iterable, otherElement, resultSelector)
    {
      row := [];
      var j := 0;
      while j < |iterable|
        invariant 0 <= j <= |iterable|
        invariant row == ZipRow(iterable[..j], otherElement, resultSelector)
      {
        assert iterable[..j + 1][..j] == iterable[..j];
        var resultElement := resultSelector(iterable[j], otherElement);
        row := row + [resultElement];
        j := j + 1;
      }
      assert iterable[..j] == iterable;
    }

    /** The outer loop: one row per element of the sequence. */
    method Rows() returns (out: seq<R>)
      ensures out == Zip(iterable, sequence, resultSelector)
    {
      out := [];
      var i := 0;
      while i < |sequence|
        invariant 0 <= i <= |sequence|
        invariant out == Zip(iterable, sequence[..i], resultSelector)
      {
        assert sequence[..i + 1][..i] == sequence[..i];
        var row := Row(sequence[i]);
        out := out + row;
        i := i + 1;
      }
      assert sequence[..i] == sequence;
    }

    method Iterate() returns (out: seq<R>)
      requires Idle()
      modifies this
      ensures out == Zip(iterable, sequence, resultSelector) && Idle()
    {
      out := Rows();
      Reset();
    }
  }
}
