/** Ordering (src/Iterators.ts, OrderedIterator and its subclasses): key-based
    three-way comparers, their composition for then-by, and the stable sort
    of `Array.prototype.sort` that an ordered pass applies to its upstream.
    Keys are integers. */
module Ordering {
  import opened Wrappers

  /** A comparer returns a negative number, zero or a positive number. */
  type Comparer<!T> = (T, T) -> int

  function Sign(n: int): int
  {
    if n < 0 then -1 else if n > 0 then 1 else 0
  }

  /** The comparers a sort can rely on: swapping the arguments flips the sign,
      and "not after" is transitive. */
  ghost predicate ValidComparer<T(!new)>(c: Comparer<T>)
  {
    (forall a, b :: Sign(c(a, b)) == -Sign(c(b, a)))
    && (forall a, b, d {:trigger c(a, b), c(b, d), c(a, d)} :: c(a, b) <= 0 && c(b, d) <= 0 ==> c(a, d) <= 0)
  }

  /** The three-way comparison of createComparer, on two keys. */
  function ThreeWay(aKey: int, bKey: int, descending: bool): int
  {
    if aKey > bKey then (if descending then -1 else 1)
    else if aKey < bKey then (if descending then 1 else -1)
    else 0
  }

  /** createComparer(keySelector, descending): -1, 0 or 1 by key, the sign
      flipped when descending. */
  function CreateComparer<T(!new)>(keySelector: T -> int, descending: bool): (c: Comparer<T>)
    ensures forall a, b :: c(a, b) == 0 <==> keySelector(a) == keySelector(b)
    ensures forall a, b :: c(a, b) < 0 <==> (if descending then keySelector(a) > keySelector(b) else keySelector(a) < keySelector(b))
    ensures forall a, b :: -1 <= c(a, b) <= 1
  {
    (a, b) => ThreeWay(keySelector(a), keySelector(b), descending)
  }

  /** composeComparers(first, second): `first(a, b) || second(a, b)`, the first
      comparer's verdict unless it is zero, when the second one decides. */
  function ComposeComparers<T(!new)>(first: Comparer<T>, second: Comparer<T>): (c: Comparer<T>)
    ensures forall a, b :: first(a, b) != 0 ==> c(a, b) == first(a, b)
    ensures forall a, b :: first(a, b) == 0 ==> c(a, b) == second(a, b)
  {
    (a, b) => if first(a, b) != 0 then first(a, b) else second(a, b)
  }

  /** Any comparer that is a three-way comparison of integer keys is valid. */
  lemma KeyedComparerValid<T(!new)>(c: Comparer<T>, key: T -> int, descending: bool)
    requires forall a, b :: c(a, b) == ThreeWay(key(a), key(b), descending)
    ensures ValidComparer(c)
  {
    forall a, b, d | c(a, b) <= 0 && c(b, d) <= 0
      ensures c(a, d) <= 0
    {
      assert ThreeWay(key(a), key(b), descending) <= 0;
      assert ThreeWay(key(b), key(d), descending) <= 0;
    }
  }

  /** createComparer always yields a valid comparer. */
  lemma CreateComparerValid<T(!new)>(keySelector: T -> int, descending: bool)
    ensures ValidComparer(CreateComparer(keySelector, descending))
  {
    KeyedComparerValid(CreateComparer(keySelector, descending), keySelector, descending);
  }

  /** Composing two valid comparers yields a valid comparer: the
      lexicographic order of the two. */
  lemma ComposeComparersValid<T(!new)>(first: Comparer<T>, second: Comparer<T>)
    requires ValidComparer(first) && ValidComparer(second)
    ensures ValidComparer(ComposeComparers(first, second))
  {
    var c := ComposeComparers(first, second);
    forall a, b
      ensures Sign(c(a, b)) == -Sign(c(b, a))
    {
      assert Sign(first(a, b)) == -Sign(first(b, a));
    }
    forall a, b, d | c(a, b) <= 0 && c(b, d) <= 0
      ensures c(a, d) <= 0
    {
      assert Sign(first(a, b)) == -Sign(first(b, a));
      assert Sign(first(b, d)) == -Sign(first(d, b));
      assert Sign(first(a, d)) == -Sign(first(d, a));
      assert first(a, b) <= 0 && first(b, d) <= 0;
      if first(a, d) == 0 {
        assert first(d, a) <= 0;
        assert first(a, b) == 0 by {
          assert first(d, b) <= 0;
        }
        assert first(b, d) == 0;
      }
    }
  }

  // ---------------------------------------------------------------------------
  // The stable sort
  // ---------------------------------------------------------------------------

  /** Every earlier element compares not after every later one. */
  ghost predicate Sorted<T>(t: seq<T>, c: Comparer<T>)
  {
    forall i, j :: 0 <= i < j < |t| ==> c(t[i], t[j]) <= 0
  }

  /** Places `x` before the first element it does not compare after, so it
      stays ahead of the elements it ties with. */
  function InsertFront<T>(x: T, t: seq<T>, c: Comparer<T>): (r: seq<T>)
    ensures multiset(r) == multiset(t) + multiset{x}
    ensures |r| == |t| + 1
  {
    if t == [] then [x]
    else if c(x, t[0]) <= 0 then [x] + t
    else
      assert t == [t[0]] + t[1..];
      [t[0]] + InsertFront(x, t[1..], c)
  }

  /** The stable sort of `Array.prototype.sort`: each element is inserted,
      from the back, ahead of the elements it ties with. */
  function Sort<T>(s: seq<T>, c: Comparer<T>): (r: seq<T>)
    ensures multiset(r) == multiset(s)
    ensures |r| == |s|
  {
    if s == [] then []
    else
      assert s == [s[0]] + s[1..];
      InsertFront(s[0], Sort(s[1..], c), c)
  }

  /** The elements of `t` that tie with `y`, in their order in `t`. */
  function Ties<T>(t: seq<T>, y: T, c: Comparer<T>): seq<T>
  {
    if t == [] then [] else (if c(t[0], y) == 0 then [t[0]] else []) + Ties(t[1..], y, c)
  }

  /** A head that compares not after anything in a sorted tail keeps it sorted. */
  lemma SortedCons<T>(h: T, t: seq<T>, c: Comparer<T>)
    requires Sorted(t, c)
    requires forall k :: 0 <= k < |t| ==> c(h, t[k]) <= 0
    ensures Sorted([h] + t, c)
  {
    var r := [h] + t;
    forall i, j | 0 <= i < j < |r|
      ensures c(r[i], r[j]) <= 0
    {
      assert r[j] == t[j - 1];
      if i > 0 {
        assert r[i] == t[i - 1];
      }
    }
  }

  lemma {:induction false} InsertFrontSorted<T(!new)>(x: T, t: seq<T>, c: Comparer<T>)
    requires ValidComparer(c) && Sorted(t, c)
    ensures Sorted(InsertFront(x, t, c), c)
  {
    if t == [] {
    } else if c(x, t[0]) <= 0 {
      forall k | 0 <= k < |t|
        ensures c(x, t[k]) <= 0
      {
        if k > 0 {
          assert c(t[0], t[k]) <= 0;
        }
      }
      SortedCons(x, t, c);
    } else {
      var rest := InsertFront(x, t[1..], c);
      InsertFrontSorted(x, t[1..], c);
      assert Sign(c(x, t[0])) == -Sign(c(t[0], x));
      forall k | 0 <= k < |rest|
        ensures c(t[0], rest[k]) <= 0
      {
        assert rest[k] in multiset(rest);
        if rest[k] != x {
          assert rest[k] in multiset(t[1..]);
          var m :| 0 <= m < |t[1..]| && t[1..][m] == rest[k];
          assert t[m + 1] == rest[k];
        }
      }
      SortedCons(t[0], rest, c);
    }
  }

  /** Ties of a sequence with a known head. */
  lemma TiesCons<T>(h: T, t: seq<T>, y: T, c: Comparer<T>)
    ensures Ties([h] + t, y, c) == (if c(h, y) == 0 then [h] else []) + Ties(t, y, c)
  {
    assert ([h] + t)[1..] == t;
  }

  /** An element that `x` compares after cannot tie with a tie of `x`. */
  lemma NotTiedBefore<T(!new)>(x: T, h: T, y: T, c: Comparer<T>)
    requires ValidComparer(c)
    requires c(x, y) == 0 && c(x, h) > 0
    ensures c(h, y) != 0
  {
    assert Sign(c(h, y)) == -Sign(c(y, h));
    assert c(h, y) == 0 ==> c(y, h) <= 0;
    assert c(x, y) <= 0 && c(y, h) <= 0 ==> c(x, h) <= 0;
  }

  /** Inserting `x` adds it to its tie class ahead of the others, and leaves
      every other tie class alone. */
  lemma {:induction false} InsertFrontTies<T(!new)>(x: T, t: seq<T>, y: T, c: Comparer<T>)
    requires ValidComparer(c)
    ensures Ties(InsertFront(x, t, c), y, c) == (if c(x, y) == 0 then [x] else []) + Ties(t, y, c)
  {
    if t == [] {
    } else if c(x, t[0]) <= 0 {
      TiesCons(x, t, y, c);
    } else {
      var rest := InsertFront(x, t[1..], c);
      var tail := Ties(t[1..], y, c);
      InsertFrontTies(x, t[1..], y, c);
      TiesCons(t[0], rest, y, c);
      assert InsertFront(x, t, c) == [t[0]] + rest;
      assert Ties(t, y, c) == (if c(t[0], y) == 0 then [t[0]] else []) + tail;
      if c(x, y) == 0 {
        NotTiedBefore(x, t[0], y, c);
        assert Ties(rest, y, c) == [x] + tail;
        assert Ties(t, y, c) == tail;
      } else {
        assert Ties(rest, y, c) == tail;
      }
    }
  }

  /** The sort is a permutation whose result is sorted by a valid comparer. */
  lemma {:induction false} SortSorted<T(!new)>(s: seq<T>, c: Comparer<T>)
    requires ValidComparer(c)
    ensures Sorted(Sort(s, c), c)
  {
    if s != [] {
      SortSorted(s[1..], c);
      InsertFrontSorted(s[0], Sort(s[1..], c), c);
    }
  }

  /** The sort is stable: elements that tie keep their source order. */
  lemma {:induction false} SortStable<T(!new)>(s: seq<T>, y: T, c: Comparer<T>)
    requires ValidComparer(c)
    ensures Ties(Sort(s, c), y, c) == Ties(s, y, c)
  {
    if s != [] {
      SortStable(s[1..], y, c);
      InsertFrontTies(s[0], Sort(s[1..], c), y, c);
    }
  }

  /** OrderedIterator: `[...iterable].sort(comparer)`, yielded in full. Neither
      the upstream nor the cursor changes, and there is no reset. An
      OrderByIterator is built with `OrderBy`, a ThenByIterator with `ThenBy`. */
  class OrderedIterator<T(!new)> {
    const iterable: seq<T>
    const comparer: Comparer<T>
    var index: int
    var current: Option<T>

    /** OrderByIterator: the order of one key. */
    constructor OrderBy(iterable: seq<T>, keySelector: T -> int, descending: bool)
      ensures this.iterable == iterable && comparer == CreateComparer(keySelector, descending)
      ensures ValidComparer(comparer)
      ensures index == -1 && current == None
    {
      this.iterable := iterable;
      comparer := CreateComparer(keySelector, descending);
      index, current := -1, None;
      CreateComparerValid(keySelector, descending);
    }

    /** ThenByIterator: its upstream is the ordered iterable it refines, whose
        passes yield that iterable's sorted copy; ties of the upstream's
        comparer are broken by the new key. */
    constructor ThenBy(upstream: OrderedIterator<T>, keySelector: T -> int, descending: bool)
      requires ValidComparer(upstream.comparer)
      ensures iterable == Sort(upstream.iterable, upstream.comparer)
      ensures comparer == ComposeComparers(upstream.comparer, CreateComparer(keySelector, descending))
      ensures ValidComparer(comparer)
      ensures index == -1 && current == None
    {
      iterable := Sort(upstream.iterable, upstream.comparer);
      comparer := ComposeComparers(upstream.comparer, CreateComparer(keySelector, descending));
      index, current := -1, None;
      CreateComparerValid(keySelector, descending);
      ComposeComparersValid(upstream.comparer, CreateComparer(keySelector, descending));
    }

    /** One pass: a sorted permutation of the upstream, ties in upstream order. */
    method Iterate() returns (out: seq<T>)
      requires ValidComparer(comparer)
      ensures out == Sort(iterable, comparer)
      ensures multiset(out) == multiset(iterable)
      ensures Sorted(out, comparer)
      ensures forall y :: Ties(out, y, comparer) == Ties(iterable, y, comparer)
    {
      var orderedSource := Sort(iterable, comparer);
      SortSorted(iterable, comparer);
      forall y
        ensures Ties(orderedSource, y, comparer) == Ties(iterable, y, comparer)
      {
        SortStable(iterable, y, comparer);
      }
      out := [];
      var i := 0;
      while i < |orderedSource|
        invariant 0 <= i <= |orderedSource|
        invariant out == orderedSource[..i]
      {
        assert orderedSource[..i + 1] == orderedSource[..i] + [orderedSource[i]];
        out := out + [orderedSource[i]];
        i := i + 1;
      }
      assert orderedSource[..i] == orderedSource;
    }
  }
}
