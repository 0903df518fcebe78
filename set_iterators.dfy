/** The set-like stage iterators of src/Iterators.ts. DistinctIterator and
    UnionIterator remember what they have yielded in a field initialised by
    the constructor, which `reset()` does not clear, so it carries over from
    one pass to the next. Elements are compared with `===`, modelled as `==`. */
module SetIterators {
  import opened Wrappers
  import opened Stages

  /** DistinctIterator: each element not yet in `values`, which then records it. */
  class DistinctIterator<T(==)> {
    const iterable: seq<T>
    var values: set<T>
    var index: int
    var current: Option<T>

    predicate Idle()
      reads this
    {
      index == -1 && current.None?
    }

    constructor (iterable: seq<T>)
      ensures this.iterable == iterable && values == {} && Idle()
    {
      this.iterable := iterable;
      values := {};
      index, current := -1, None;
    }

    method Reset()
      modifies this
      ensures Idle() && values == old(values)
    {
      index, current := -1, None;
    }

    method Iterate() returns (out: seq<T>)
      requires Idle()
      modifies this
      ensures out == DistinctFrom(iterable, old(values))
      ensures values == old(values) + Elements(iterable)
      ensures Idle()
    {
      out := [];
      var i := 0;
      while i < |iterable|
        invariant 0 <= i <= |iterable|
        invariant out == DistinctFrom(iterable[..i], old(values))
        invariant values == old(values) + Elements(iterable[..i])
        invariant index == |out| - 1
      {
        assert iterable[..i + 1][..i] == iterable[..i];
        assert Elements(iterable[..i + 1]) == Elements(iterable[..i]) + {iterable[i]};
        var element := iterable[i];
        if element !in values {
          values := values + {element};
          index := index + 1;
          current := Some(element);
          out := out + [element];
        }
        i := i + 1;
      }
      assert iterable[..i] == iterable;
      Reset();
    }
  }

  /** ExceptIterator: the source elements that do not occur in the other sequence. */
  class ExceptIterator<T(==)> {
    const iterable: seq<T>
    const other: seq<T>
    var index: int
    var current: Option<T>

    predicate Idle()
      reads this
    {
      index == -1 && current.None?
    }

    constructor (iterable: seq<T>, other: seq<T>)
      ensures this.iterable == iterable && this.other == other && Idle()
    {
      this.iterable, this.other := iterable, other;
      index, current := -1, None;
    }

    method Reset()
      modifies this
      ensures Idle()
    {
      index, current := -1, None;
    }

    method Iterate() returns (out: seq<T>)
      requires Idle()
      modifies this
      ensures out == Except(iterable, other) && Idle()
    {
      var otherArray := other;
      out := [];
      var i := 0;
      while i < |iterable|
        invariant 0 <= i <= |iterable|
        invariant out == Except(iterable[..i], other)
        invariant index == |out| - 1
      {
        assert iterable[..i + 1][..i] == iterable[..i];
        var element := iterable[i];
        if IndexOf(otherArray, element) < 0 {
          index := index + 1;
          current := Some(element);
          out := out + [element];
        }
        i := i + 1;
      }
      assert iterable[..i] == iterable;
      Reset();
    }
  }

  /** IntersectIterator: the source elements that occur in the other sequence. */
  class IntersectIterator<T(==)> {
    const iterable: seq<T>
    const other: seq<T>
    var index: int
    var current: Option<T>

    predicate Idle()
      reads this
    {
      index == -1 && current.None?
    }

    constructor (iterable: seq<T>, other: seq<T>)
      ensures this.iterable == iterable && this.other == other && Idle()
    {
      this.iterable, this.other := iterable, other;
      index, current := -1, None;
    }

    method Reset()
      modifies this
      ensures Idle()
    {
      index, current := -1, None;
    }

    method Iterate() returns (out: seq<T>)
      requires Idle()
      modifies this
      ensures out == Intersect(iterable, other) && Idle()
    {
      var otherArray := other;
      out := [];
      var i := 0;
      while i < |iterable|
        invariant 0 <= i <= |iterable|
        invariant out == Intersect(iterable[..i], other)
        invariant index == |out| - 1
      {
        assert iterable[..i + 1][..i] == iterable[..i];
        var element := iterable[i];
        if IndexOf(otherArray, element) >= 0 {
          index := index + 1;
          current := Some(element);
          out := out + [element];
        }
        i := i + 1;
      }
      assert iterable[..i] == iterable;
      Reset();
    }
  }

  /** One step of union's second loop, whose seen-list is `base` followed by
      what the loop yielded so far: the next element of `other` is in the
      seen-list exactly when it was seen before or met earlier in `other`, and
      is yielded exactly when it is not. */
  lemma UnseenStep<T>(base: seq<T>, other: seq<T>, j: nat, seen: set<T>)
    requires j < |other|
    requires Elements(base) == seen
    ensures var out := DistinctFrom(other[..j], seen);
      (other[j] in base + out <==> other[j] in seen || other[j] in other[..j])
      && DistinctFrom(other[..j + 1], seen) == if other[j] in base + out then out else out + [other[j]]
  {
    var out := DistinctFrom(other[..j], seen);
    DistinctFromMembers(other[..j], seen);
    DistinctFromStep(other, j, seen);
    assert other[j] in base + out <==> other[j] in base || other[j] in out;
    assert other[j] in base <==> other[j] in Elements(base);
  }

  /** UnionIterator: every source element, recorded in `values`; then each
      element of the other sequence not found in `values`, which records it. */
  class UnionIterator<T(==)> {
    const iterable: seq<T>
    const other: seq<T>
    var values: seq<T>
    var index: int
    var current: Option<T>

    predicate Idle()
      reads this
    {
      index == -1 && current.None?
    }

    constructor (iterable: seq<T>, other: seq<T>)
      ensures this.iterable == iterable && this.other == other && values == [] && Idle()
    {
      this.iterable, this.other := iterable, other;
      values := [];
      index, current := -1, None;
    }

    method Reset()
      modifies this
      ensures Idle() && values == old(values)
    {
      index, current := -1, None;
    }

    /** The first loop of a pass: every source element, recorded and yielded. */
    method YieldSource() returns (out: seq<T>)
      modifies this
      ensures out == iterable && values == old(values) + iterable
      ensures index == old(index) + |iterable|
    {
      out := [];
      var i := 0;
      while i < |iterable|
        invariant 0 <= i <= |iterable|
        invariant out == iterable[..i]
        invariant values == old(values) + out
        invariant index == old(index) + i
      {
        assert iterable[..i + 1] == iterable[..i] + [iterable[i]];
        var element := iterable[i];
        values := values + [element];
        index := index + 1;
        current := Some(element);
        out := out + [element];
        i := i + 1;
      }
      assert iterable[..i] == iterable;
    }

    /** The second loop of a pass: each element of `other` not yet in the
        seen-list, recorded and yielded. */
    method YieldUnseen(ghost seen: set<T>) returns (out: seq<T>)
      requires Elements(values) == seen
      modifies this
      ensures out == DistinctFrom(other, seen)
      ensures values == old(values) + out
      ensures index == old(index) + |out|
    {
      ghost var base := values;
      out := [];
      var j := 0;
      while j < |other|
        invariant 0 <= j <= |other|
        invariant out == DistinctFrom(other[..j], seen)
        invariant values == base + out
        invariant index == old(index) + |out|
      {
        var element := other[j];
        UnseenStep(base, other, j, seen);
        if IndexOf(values, element) < 0 {
          assert values + [element] == base + (out + [element]);
          values := values + [element];
          index := index + 1;
          current := Some(element);
          out := out + [element];
        }
        j := j + 1;
      }
      assert other[..j] == other;
    }

    method Iterate() returns (out: seq<T>)
      requires Idle()
      modifies this
      ensures out == Union(iterable, other, Elements(old(values)))
      ensures values == old(values) + out
      ensures Elements(iterable) + Elements(other) <= Elements(values)
      ensures Idle()
    {
      var first := YieldSource();
      ghost var seen := Elements(old(values)) + Elements(iterable);
      assert Elements(values) == seen;
      var rest := YieldUnseen(seen);
      DistinctFromMembers(other, seen);
      out := first + rest;
      Reset();
    }
  }
}
