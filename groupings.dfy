/** `Grouping` (src/Grouping.ts): a key together with the elements filed under it. */
module Groupings {
  import opened Wrappers
  import opened Functions

  /** A group of the lookup engine. Its elements are the array the lookup built
      for its key, so counting takes the array shortcuts of `countIterable`. */
  class Grouping<K, E> {
    const key: K
    const elements: seq<E>

    constructor (key: K, elements: seq<E>)
      ensures this.key == key && this.elements == elements
    {
      this.key := key;
      this.elements := elements;
    }

    /** One pass over the group: its elements, unchanged and in order. */
    method Iterate() returns (out: seq<E>)
      ensures out == elements
    {
      out := [];
      var i := 0;
      while i < |elements|
        invariant 0 <= i <= |elements|
        invariant out == elements[..i]
      {
        assert elements[..i + 1] == elements[..i] + [elements[i]];
        out := out + [elements[i]];
        i := i + 1;
      }
    }

    /** count(predicate?): the number of elements, or of those the predicate
        accepts; the predicate receives each element's position, as
        `Array.prototype.filter` passes it. */
    method Count(pred: Option<(E, Option<int>) -> bool>) returns (n: nat)
      ensures pred.None? ==> n == |elements|
      ensures pred.Some? ==> n == Matching(elements, pred.value, true) && n <= |elements|
    {
      n := CountIterable(ArraySource, elements, pred);
    }
  }
}
