/** What one enumeration pass of each stage iterator of src/Iterators.ts yields,
    as a function of what its upstream yields in that pass. The classes in
    iterators.dfy, window_iterators.dfy, set_iterators.dfy and group_iterators.dfy
    are proved to produce exactly these sequences. Every definition recurses on
    the last element, so that it follows a left-to-right loop step by step. */
module Stages {
  import opened Wrappers

  function Last<T>(s: seq<T>): T
    requires s != []
  {
    s[|s| - 1]
  }

  function Init<T>(s: seq<T>): seq<T>
    requires s != []
  {
    s[..|s| - 1]
  }

  function Elements<T>(s: seq<T>): set<T>
  {
    set x | x in s
  }

  lemma ElementsAppend<T>(s: seq<T>, x: T)
    ensures Elements(s + [x]) == Elements(s) + {x}
  {
    assert forall y :: y in s + [x] <==> y in s || y == x;
  }

  function Min(a: int, b: int): int
  {
    if a <= b then a else b
  }

  /** A count clamped to the positions 0..n. */
  function Clamp(c: int, n: nat): (k: nat)
  {
    if c <= 0 then 0 else if c >= n then n else c
  }

  // ---------------------------------------------------------------------------
  // where, and the filters built on it
  // ---------------------------------------------------------------------------

  /** WhereIterator: the upstream elements whose (element, upstream position)
      the predicate accepts, in upstream order. */
  function Where<T>(s: seq<T>, p: (T, int) -> bool): (r: seq<T>)
    ensures |r| <= |s|
    ensures forall x :: x in r ==> x in s
    ensures forall i :: 0 <= i < |s| && p(s[i], i) ==> s[i] in r
  {
    if s == [] then []
    else
      var r := Where(Init(s), p);
      if p(Last(s), |s| - 1) then r + [Last(s)] else r
  }

  /** The upstream positions that `Where` keeps, in increasing order. */
  ghost function KeptPositions<T>(s: seq<T>, p: (T, int) -> bool): (ix: seq<int>)
    ensures |ix| == |Where(s, p)|
    ensures forall k :: 0 <= k < |ix| ==> 0 <= ix[k] < |s|
    ensures forall a, b :: 0 <= a < b < |ix| ==> ix[a] < ix[b]
  {
    if s == [] then []
    else
      var ix := KeptPositions(Init(s), p);
      if p(Last(s), |s| - 1) then ix + [|s| - 1] else ix
  }

  /** The k-th element `Where` yields is the upstream element at the k-th kept position. */
  lemma {:induction false} WhereAtKept<T>(s: seq<T>, p: (T, int) -> bool)
    ensures forall k :: 0 <= k < |Where(s, p)| ==> Where(s, p)[k] == s[KeptPositions(s, p)[k]]
  {
    if s != [] {
      WhereAtKept(Init(s), p);
      assert forall i :: 0 <= i < |s| - 1 ==> Init(s)[i] == s[i];
    }
  }

  /** The kept positions are exactly those whose (element, position) the predicate accepts. */
  lemma {:induction false} KeptExactly<T>(s: seq<T>, p: (T, int) -> bool)
    ensures forall i :: 0 <= i < |s| ==> (i in KeptPositions(s, p) <==> p(s[i], i))
  {
    if s != [] {
      var n := |s| - 1;
      KeptExactly(Init(s), p);
      var ix := KeptPositions(Init(s), p);
      assert forall i :: 0 <= i < n ==> Init(s)[i] == s[i];
      assert n !in ix;
    }
  }

  /** A filter on the element alone (the set operations, `count(p)`, `single(p)`). */
  function Filter<T>(s: seq<T>, p: T -> bool): (r: seq<T>)
    ensures |r| <= |s|
    ensures forall x :: x in r ==> x in s
    ensures forall i :: 0 <= i < |s| && p(s[i]) ==> s[i] in r
  {
    Where(s, (x, i) => p(x))
  }

  /** An element is kept by `Filter` exactly when it occurs and is accepted. */
  lemma FilterMembers<T>(s: seq<T>, p: T -> bool)
    ensures forall x :: x in Filter(s, p) <==> x in s && p(x)
  {
    WhereAtKept(s, (x, i) => p(x));
    KeptExactly(s, (x, i) => p(x));
    var r, ix := Filter(s, p), KeptPositions(s, (x, i) => p(x));
    forall x | x in r
      ensures p(x)
    {
      var k :| 0 <= k < |r| && r[k] == x;
      assert ix[k] in ix;
    }
  }

  /** Filtering by a predicate and by its negation splits the upstream in two. */
  lemma {:induction false} FilterPartition<T>(s: seq<T>, p: T -> bool)
    ensures multiset(Filter(s, p)) + multiset(Filter(s, x => !p(x))) == multiset(s)
  {
    if s != [] {
      FilterPartition(Init(s), p);
      assert s == Init(s) + [Last(s)];
    }
  }

  /** A filter that accepts everything keeps the whole upstream. */
  lemma {:induction false} FilterAll<T>(s: seq<T>, p: T -> bool)
    requires forall x :: x in s ==> p(x)
    ensures Filter(s, p) == s
  {
    if s != [] {
      FilterAll(Init(s), p);
      assert s == Init(s) + [Last(s)];
    }
  }

  // ---------------------------------------------------------------------------
  // select, selectMany
  // ---------------------------------------------------------------------------

  /** SelectIterator: the selector applied to every (element, position). */
  function Select<T, U>(s: seq<T>, f: (T, int) -> U): (r: seq<U>)
    ensures |r| == |s|
    ensures forall i :: 0 <= i < |s| ==> r[i] == f(s[i], i)
  {
    if s == [] then [] else Select(Init(s), f) + [f(Last(s), |s| - 1)]
  }

  /** SelectManyIterator: the selector's sequences, concatenated in upstream order. */
  function SelectMany<T, U>(s: seq<T>, f: (T, int) -> seq<U>): (r: seq<U>)
    ensures forall i, y :: 0 <= i < |s| && y in f(s[i], i) ==> y in r
  {
    if s == [] then []
    else
      assert forall i :: 0 <= i < |s| - 1 ==> Init(s)[i] == s[i];
      SelectMany(Init(s), f) + f(Last(s), |s| - 1)
  }

  /** selectMany with one-element results is select. */
  lemma {:induction false} SelectManySingletons<T, U>(s: seq<T>, f: (T, int) -> U)
    ensures SelectMany(s, (x, i) => [f(x, i)]) == Select(s, f)
  {
    if s != [] {
      SelectManySingletons(Init(s), f);
    }
  }

  /** where is selectMany with zero- or one-element results. */
  lemma {:induction false} WhereIsSelectMany<T>(s: seq<T>, p: (T, int) -> bool)
    ensures Where(s, p) == SelectMany(s, (x, i) => if p(x, i) then [x] else [])
  {
    if s != [] {
      WhereIsSelectMany(Init(s), p);
    }
  }

  /** Filtering then projecting, element for element. */
  lemma {:induction false} WhereThenSelect<T, U>(s: seq<T>, p: T -> bool, f: T -> U)
    ensures Select(Filter(s, p), (x, i) => f(x)) ==
            SelectMany(s, (x, i) => if p(x) then [f(x)] else [])
  {
    if s != [] {
      WhereThenSelect(Init(s), p, f);
    }
  }

  // ---------------------------------------------------------------------------
  // skip, take, skipWhile, takeWhile
  // ---------------------------------------------------------------------------

  /** SkipIterator: an element is passed over while its position is below the count. */
  function Skip<T>(s: seq<T>, count: int): (r: seq<T>)
    ensures |r| <= |s|
    ensures forall x :: x in r ==> x in s
    ensures forall i :: 0 <= i < |s| && i >= count ==> s[i] in r
  {
    Where(s, (x, i) => i >= count)
  }

  /** skip(n) is the suffix from position n: everything for n <= 0, nothing for n >= |s|. */
  lemma {:induction false} SkipIsSuffix<T>(s: seq<T>, count: int)
    ensures Skip(s, count) == s[Clamp(count, |s|)..]
  {
    if s != [] {
      var n := |s| - 1;
      var k := Clamp(count, n);
      SkipIsSuffix(Init(s), count);
      assert Skip(s, count) == Init(s)[k..] + (if n >= count then [Last(s)] else []);
      if n >= count {
        assert Clamp(count, |s|) == k;
        assert s[k..] == Init(s)[k..] + [Last(s)];
      } else {
        assert k == n && Clamp(count, |s|) == |s|;
      }
    }
  }

  /** The length of the longest prefix whose every (element, position) satisfies `p`. */
  function PrefixLength<T>(s: seq<T>, p: (T, int) -> bool): (n: nat)
    ensures n <= |s|
    ensures forall i :: 0 <= i < n ==> p(s[i], i)
    ensures n < |s| ==> !p(s[n], n)
  {
    if s == [] then 0
    else
      var m := PrefixLength(Init(s), p);
      if m == |s| - 1 && p(Last(s), |s| - 1) then |s| else m
  }

  /** TakeWhileIterator: the longest prefix the predicate accepts. */
  function TakeWhile<T>(s: seq<T>, p: (T, int) -> bool): (r: seq<T>)
    ensures |r| <= |s| && r == s[..|r|]
    ensures forall i :: 0 <= i < |r| ==> p(s[i], i)
    ensures |r| < |s| ==> !p(s[|r|], |r|)
  {
    s[..PrefixLength(s, p)]
  }

  /** SkipWhileIterator: while its latch `skipping` is set, it drops that prefix. */
  function SkipWhile<T>(s: seq<T>, p: (T, int) -> bool, skipping: bool): (r: seq<T>)
    ensures !skipping ==> r == s
    ensures skipping ==> |r| <= |s| && r == s[|s| - |r|..]
    ensures skipping ==> forall i :: 0 <= i < |s| - |r| ==> p(s[i], i)
    ensures skipping && r != [] ==> !p(r[0], |s| - |r|)
  {
    if skipping then s[PrefixLength(s, p)..] else s
  }

  /** TakeIterator: a pass stops at the first position that reaches the count. */
  function Take<T>(s: seq<T>, count: int): (r: seq<T>)
    ensures |r| <= |s| && r == s[..|r|]
    ensures r == [] || |r| <= count
    ensures |r| < |s| ==> |r| >= count
  {
    var p := (x: T, i: int) => i < count;
    var r := TakeWhile(s, p);
    assert r != [] ==> p(s[|r| - 1], |r| - 1);
    assert |r| < |s| ==> !p(s[|r|], |r|);
    r
  }

  /** `PrefixLength` is the only length whose prefix passes and whose next element fails. */
  lemma PrefixLengthUnique<T>(s: seq<T>, p: (T, int) -> bool, n: nat)
    requires n <= |s|
    requires forall i :: 0 <= i < n ==> p(s[i], i)
    requires n < |s| ==> !p(s[n], n)
    ensures PrefixLength(s, p) == n
  {
  }

  /** take(n) is the prefix of length min(n, |s|), and empty for n <= 0. */
  lemma TakeIsPrefix<T>(s: seq<T>, count: int)
    ensures Take(s, count) == s[..Clamp(count, |s|)]
  {
    PrefixLengthUnique(s, (x: T, i: int) => i < count, Clamp(count, |s|));
  }

  /** takeWhile and skipWhile of a fresh latch split the upstream. */
  lemma TakeWhileSkipWhile<T>(s: seq<T>, p: (T, int) -> bool)
    ensures TakeWhile(s, p) + SkipWhile(s, p, true) == s
  {
  }

  // ---------------------------------------------------------------------------
  // skipLast, takeLast
  // ---------------------------------------------------------------------------

  /** Every element wrapped as a present value. */
  function Somes<T>(s: seq<T>): (r: seq<Option<T>>)
    ensures |r| == |s| && forall i :: 0 <= i < |s| ==> r[i] == Some(s[i])
  {
    seq(|s|, i requires 0 <= i < |s| => Some(s[i]))
  }

  /** SkipLastIterator: for a count c >= 1 everything but the last c elements;
      for c = 0 the first dequeue reads an empty queue (`undefined`) and the last
      element is never released; for c < 0 the queue never reaches the count. */
  function SkipLast<T>(s: seq<T>, count: int): (r: seq<Option<T>>)
    ensures count < 0 ==> r == []
    ensures count == 0 && s != [] ==>
      |r| == |s| && r[0] == None && forall i :: 0 < i < |s| ==> r[i] == Some(s[i - 1])
    ensures count >= 1 ==>
      |r| == |s| - Min(count, |s|) && forall i :: 0 <= i < |r| ==> r[i] == Some(s[i])
  {
    if count < 0 || s == [] then []
    else if count == 0 then [None] + Somes(Init(s))
    else Somes(s[..|s| - Min(count, |s|)])
  }

  /** TakeLastIterator: for a count c >= 1 the last min(c, |s|) elements in source
      order; an empty source yields nothing; for c <= 0 and a non-empty source the
      queue-length check throws an unnamed Error before anything is yielded. */
  function TakeLast<T>(s: seq<T>, count: int): (r: Result<seq<T>>)
    ensures r.Err? <==> s != [] && count <= 0
    ensures r.Err? ==> r.error == Unnamed
    ensures r.Ok? ==> |r.value| == Min(Clamp(count, |s|), |s|) && r.value == s[|s| - |r.value|..]
  {
    if s == [] then Ok([])
    else if count <= 0 then Err(Unnamed)
    else Ok(s[|s| - Min(count, |s|)..])
  }

  /** For a count of at least one, skipLast and takeLast put the source back together. */
  lemma SkipLastTakeLast<T>(s: seq<T>, count: int)
    requires count >= 1
    ensures TakeLast(s, count).Ok?
    ensures SkipLast(s, count) + Somes(TakeLast(s, count).value) == Somes(s)
  {
  }

  // ---------------------------------------------------------------------------
  // distinct, union, except, intersect
  // ---------------------------------------------------------------------------

  /** The position of the first occurrence of `x`. */
  function FirstIndex<T(==)>(s: seq<T>, x: T): (k: nat)
    requires x in s
    ensures k < |s| && s[k] == x && forall j :: 0 <= j < k ==> s[j] != x
  {
    if x in Init(s) then FirstIndex(Init(s), x) else |s| - 1
  }

  /** Array.prototype.indexOf: the first position of `x`, or -1. */
  function IndexOf<T(==)>(s: seq<T>, x: T): (k: int)
    ensures k < 0 <==> x !in s
    ensures k >= 0 ==> k < |s| && s[k] == x && forall j :: 0 <= j < k ==> s[j] != x
  {
    if x in s then FirstIndex(s, x) else -1
  }

  /** DistinctIterator with seen-set `seen`: each element not in `seen`, at its
      first occurrence. */
  function DistinctFrom<T(==)>(s: seq<T>, seen: set<T>): (r: seq<T>)
    ensures forall x :: x in r ==> x in s && x !in seen
  {
    if s == [] then []
    else
      var r := DistinctFrom(Init(s), seen);
      if Last(s) in seen || Last(s) in Init(s) then r else r + [Last(s)]
  }

  /** No element twice, and every unseen element of the upstream. */
  lemma {:induction false} DistinctFromMembers<T>(s: seq<T>, seen: set<T>)
    ensures var r := DistinctFrom(s, seen);
      (forall i, j :: 0 <= i < j < |r| ==> r[i] != r[j])
      && (forall x :: x in r <==> x in s && x !in seen)
  {
    if s != [] {
      DistinctFromMembers(Init(s), seen);
      assert s == Init(s) + [Last(s)];
    }
  }

  /** One more upstream element: kept exactly when neither seen nor met before. */
  lemma DistinctFromStep<T>(s: seq<T>, j: nat, seen: set<T>)
    requires j < |s|
    ensures DistinctFrom(s[..j + 1], seen)
            == if s[j] in seen || s[j] in s[..j] then DistinctFrom(s[..j], seen) else DistinctFrom(s[..j], seen) + [s[j]]
  {
    assert Init(s[..j + 1]) == s[..j];
  }

  /** `DistinctFrom` keeps first occurrences in the order they occur. */
  lemma {:induction false} DistinctFirstSeenOrder<T>(s: seq<T>, seen: set<T>)
    ensures forall a, b :: 0 <= a < b < |DistinctFrom(s, seen)| ==>
      FirstIndex(s, DistinctFrom(s, seen)[a]) < FirstIndex(s, DistinctFrom(s, seen)[b])
  {
    if s != [] {
      DistinctFirstSeenOrder(Init(s), seen);
      var r := DistinctFrom(Init(s), seen);
      forall y | y in r
        ensures FirstIndex(s, y) == FirstIndex(Init(s), y) < |s| - 1
      {
      }
    }
  }

  /** A pass over an upstream whose every element is already seen yields nothing:
      a second pass of distinct over the same upstream is empty. */
  lemma {:induction false} DistinctAllSeen<T>(s: seq<T>, seen: set<T>)
    requires Elements(s) <= seen
    ensures DistinctFrom(s, seen) == []
  {
    if s != [] {
      assert Elements(Init(s)) <= Elements(s);
      DistinctAllSeen(Init(s), seen);
    }
  }

  /** UnionIterator with seen-list contents `seen`: all of the source, duplicates
      kept, then the first occurrences in `other` of what was not seen. */
  function Union<T(==)>(s: seq<T>, other: seq<T>, seen: set<T>): (r: seq<T>)
    ensures |s| <= |r| && r[..|s|] == s
    ensures forall x :: x in r[|s|..] ==> x in other && x !in seen && x !in s
  {
    s + DistinctFrom(other, seen + Elements(s))
  }

  /** A second pass of union, with both sequences already in its seen-list, yields the source alone. */
  lemma UnionSecondPass<T>(s: seq<T>, other: seq<T>, seen: set<T>)
    requires Elements(s) + Elements(other) <= seen
    ensures Union(s, other, seen) == s
  {
    DistinctAllSeen(other, seen + Elements(s));
  }

  /** ExceptIterator: the source elements, duplicates included, absent from `other`. */
  function Except<T(==)>(s: seq<T>, other: seq<T>): (r: seq<T>)
    ensures |r| <= |s|
    ensures forall x :: x in r ==> x in s && x !in other
  {
    FilterMembers(s, x => x !in other);
    Filter(s, x => x !in other)
  }

  /** IntersectIterator: the source elements, duplicates included, present in `other`. */
  function Intersect<T(==)>(s: seq<T>, other: seq<T>): (r: seq<T>)
    ensures |r| <= |s|
    ensures forall x :: x in r ==> x in s && x in other
  {
    FilterMembers(s, x => x in other);
    Filter(s, x => x in other)
  }

  /** except and intersect split the source: together they hold every element once. */
  lemma {:induction false} ExceptIntersectPartition<T>(s: seq<T>, other: seq<T>)
    ensures multiset(Except(s, other)) + multiset(Intersect(s, other)) == multiset(s)
  {
    if s != [] {
      ExceptIntersectPartition(Init(s), other);
      assert s == Init(s) + [Last(s)];
    }
  }

  /** Membership in except and intersect. */
  lemma ExceptIntersectMembers<T>(s: seq<T>, other: seq<T>)
    ensures forall x :: x in Except(s, other) <==> x in s && x !in other
    ensures forall x :: x in Intersect(s, other) <==> x in s && x in other
  {
    FilterMembers(s, x => x !in other);
    FilterMembers(s, x => x in other);
  }

  // ---------------------------------------------------------------------------
  // reverse, zip
  // ---------------------------------------------------------------------------

  /** ReverseIterator: the materialised upstream, back to front. */
  function Reversed<T>(s: seq<T>): (r: seq<T>)
    ensures |r| == |s|
    ensures forall k :: 0 <= k < |s| ==> r[k] == s[|s| - 1 - k]
  {
    if s == [] then [] else [Last(s)] + Reversed(Init(s))
  }

  /** One round of zip's outer loop: the selector applied to every source
      element and the same element `b` of the second sequence. */
  function ZipRow<A, B, R>(s: seq<A>, b: B, f: (A, B) -> R): (r: seq<R>)
    ensures |r| == |s|
    ensures forall j :: 0 <= j < |s| ==> r[j] == f(s[j], b)
  {
    if s == [] then [] else ZipRow(Init(s), b, f) + [f(Last(s), b)]
  }

  /** ZipIterator as written: for each element of the second sequence (outer
      loop), the selector applied to every element of the source (inner loop). */
  function Zip<A, B, R>(s: seq<A>, other: seq<B>, f: (A, B) -> R): (r: seq<R>)
    ensures |r| == |s| * |other|
  {
    if other == [] then []
    else
      var r := Zip(s, Init(other), f);
      assert |other| * |s| == (|other| - 1) * |s| + |s|;
      r + ZipRow(s, Last(other), f)
  }

  /** Result (i, j) of zip pairs the j-th source element with the i-th element of
      the second sequence: |s| * |other| results, not |s| and |other|'s minimum. */
  lemma {:induction false} ZipAt<A, B, R>(s: seq<A>, other: seq<B>, f: (A, B) -> R, i: nat, j: nat)
    requires i < |other| && j < |s|
    ensures i * |s| + j < |Zip(s, other, f)|
    ensures Zip(s, other, f)[i * |s| + j] == f(s[j], other[i])
  {
    var n := |other| - 1;
    var m := |s|;
    var prefix := Zip(s, Init(other), f);
    var row := ZipRow(s, Last(other), f);
    var k := i * m + j;
    assert |prefix| == n * m;
    assert Zip(s, other, f) == prefix + row;
    if i < n {
      ZipAt(s, Init(other), f, i, j);
      RowBefore(i, n, m, j);
      assert Zip(s, other, f)[k] == prefix[k];
    } else {
      assert k == |prefix| + j;
      assert Zip(s, other, f)[k] == row[j];
    }
  }

  /** Position (i, j) of a table with rows of length m lies before row n. */
  lemma RowBefore(i: nat, n: nat, m: nat, j: nat)
    requires i < n && j < m
    ensures i * m + j < n * m
  {
    assert (i + 1) * m <= n * m;
  }
}
