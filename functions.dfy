/** `countIterable` (src/Functions.ts): the element count shared by `Grouping.count`
    and `GroupedEnumerable.count`. */
module Functions {
  import opened Wrappers

  /** The runtime kind of an iterable, as `instanceof` tells it apart. The
      entries of a Set or a Map are given in their iteration order. */
  datatype SourceKind = ArraySource | SetSource | MapSource | OtherSource

  /** The number of elements of `s` that `p` accepts. When `indexed` holds, `p`
      receives each element's position, as `Array.prototype.filter` passes it;
      otherwise it receives `undefined` for the position. */
  function Matching<T>(s: seq<T>, p: (T, Option<int>) -> bool, indexed: bool): (n: nat)
    ensures n <= |s|
  {
    if s == [] then 0
    else
      var last := |s| - 1;
      Matching(s[..last], p, indexed) + (if p(s[last], if indexed then Some(last) else None) then 1 else 0)
  }

  /** countIterable(source, predicate?): the size shortcuts for arrays, sets and
      maps, `filter(...).length` for arrays with a predicate, and a counting loop
      for every other iterable. */
  method CountIterable<T>(kind: SourceKind, source: seq<T>, pred: Option<(T, Option<int>) -> bool>)
    returns (count: nat)
    ensures pred.None? ==> count == |source|
    ensures pred.Some? ==> count == Matching(source, pred.value, kind == ArraySource)
  {
    if pred.None? {
      if kind != OtherSource {
        // source.length or source.size
        return |source|;
      }
      count := 0;
      var i := 0;
      while i < |source|
        invariant 0 <= i <= |source|
        invariant count == i
      {
        count := count + 1;
        i := i + 1;
      }
    } else {
      var p := pred.value;
      if kind == ArraySource {
        // source.filter(predicate).length
        return Matching(source, p, true);
      }
      count := 0;
      var i := 0;
      while i < |source|
        invariant 0 <= i <= |source|
        invariant count == Matching(source[..i], p, false)
      {
        assert source[..i + 1][..i] == source[..i];
        if p(source[i], None) {
          count := count + 1;
        }
        i := i + 1;
      }
      assert source[..i] == source;
    }
  }

  /** A predicate that accepts everything counts every element. */
  lemma {:induction false} MatchingAll<T>(s: seq<T>, p: (T, Option<int>) -> bool, indexed: bool)
    requires forall x, i :: p(x, i)
    ensures Matching(s, p, indexed) == |s|
  {
    if s != [] {
      MatchingAll(s[..|s| - 1], p, indexed);
    }
  }

  /** The elements a predicate accepts and those it rejects add up to the whole. */
  lemma {:induction false} MatchingComplement<T>(s: seq<T>, p: (T, Option<int>) -> bool, indexed: bool)
    ensures Matching(s, p, indexed) + Matching(s, (x, i) => !p(x, i), indexed) == |s|
  {
    if s != [] {
      MatchingComplement(s[..|s| - 1], p, indexed);
    }
  }

  /** A predicate that ignores the position counts the same with or without it. */
  lemma {:induction false} MatchingIgnoresIndex<T>(s: seq<T>, p: (T, Option<int>) -> bool)
    requires forall x, i, j :: p(x, i) == p(x, j)
    ensures Matching(s, p, true) == Matching(s, p, false)
  {
    if s != [] {
      var last := |s| - 1;
      MatchingIgnoresIndex(s[..last], p);
      assert p(s[last], Some(last)) == p(s[last], None);
    }
  }
}
