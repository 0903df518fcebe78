/** The grouping and joining stage iterators of src/Iterators.ts. The group
    iterators make the same single grouping pass as `mapAsGroups`, with a Map
    of their own, then yield one result per key in insertion order; the join
    iterators build a lookup of the inner sequence with `createForJoin` and
    consult it with `item` for each outer element. */
module GroupIterators {
  import opened Wrappers
  import opened Stages
  import opened Groupings
  import opened Lookups

  /** GroupIterator: one new Grouping per key, over the raw elements. */
  class GroupIterator<T, K(==)> {
    const iterable: seq<T>
    const keySelector: (T, int) -> K
    var index: int
    var current: Option<Grouping<K, T>>

    predicate Idle()
      reads this
    {
      index == -1 && current.None?
    }

    constructor (iterable: seq<T>, keySelector: (T, int) -> K)
      ensures this.iterable == iterable && this.keySelector == keySelector && Idle()
    {
      this.iterable, this.keySelector := iterable, keySelector;
      index, current := -1, None;
    }

    method Reset()
      modifies this
      ensures Idle()
    {
      index, current := -1, None;
    }

    /** The grouping loop of a pass: one Map entry per key, in first-seen order. */
    method Collect() returns (keys: seq<K>, lists: map<K, seq<T>>)
      requires Idle()
      modifies this
      ensures Groups(keys, lists) == GroupsOf(iterable, keySelector, Identity)
      ensures index == |iterable| - 1 && current.None?
    {
      keys, lists := [], map[];
      var i := 0;
      while i < |iterable|
        invariant 0 <= i <= |iterable|
        invariant index == i - 1 && current.None?
        invariant Groups(keys, lists) == GroupsOf(iterable[..i], keySelector, Identity)
      {
        assert iterable[..i + 1][..i] == iterable[..i];
        var item := iterable[i];
        index := index + 1;
        var key := keySelector(item, index);
        if key in lists {
          lists := lists[key := lists[key] + [item]];
        } else {
          keys := keys + [key];
          lists := lists[key := [item]];
        }
        i := i + 1;
      }
      assert iterable[..i] == iterable;
    }

    method Iterate() returns (out: seq<Grouping<K, T>>)
      requires Idle()
      modifies this
      ensures var g := GroupsOf(iterable, keySelector, Identity);
        |out| == |g.keys| &&
        forall i :: 0 <= i < |out| ==> out[i].key == g.keys[i] && out[i].elements == g.lists[g.keys[i]]
      ensures forall x :: x in out ==> fresh(x)
      ensures Idle()
    {
      var keys, lists := Collect();
      out := [];
      var j := 0;
      while j < |keys|
        invariant 0 <= j <= |keys|
        invariant |out| == j
        invariant forall m :: 0 <= m < j ==> out[m].key == keys[m] && out[m].elements == lists[keys[m]]
        invariant forall x :: x in out ==> fresh(x)
      {
        var g := new Grouping(keys[j], lists[keys[j]]);
        current := Some(g);
        out := out + [g];
        j := j + 1;
      }
      Reset();
    }
  }

  /** GroupElementIterator: one new Grouping per key, over the selected elements. */
  class GroupElementIterator<T, K(==), E> {
    const iterable: seq<T>
    const keySelector: (T, int) -> K
    const elementSelector: (T, int) -> E
    var index: int
    var current: Option<Grouping<K, E>>

    predicate Idle()
      reads this
    {
      index == -1 && current.None?
    }

    constructor (iterable: seq<T>, keySelector: (T, int) -> K, elementSelector: (T, int) -> E)
      ensures this.iterable == iterable && this.keySelector == keySelector
      ensures this.elementSelector == elementSelector && Idle()
    {
      this.iterable, this.keySelector, this.elementSelector := iterable, keySelector, elementSelector;
      index, current := -1, None;
    }

    method Reset()
      modifies this
      ensures Idle()
    {
      index, current := -1, None;
    }

    /** The grouping loop of a pass: one Map entry per key, in first-seen order. */
    method Collect() returns (keys: seq<K>, lists: map<K, seq<E>>)
      requires Idle()
      modifies this
      ensures Groups(keys, lists) == GroupsOf(iterable, keySelector, elementSelector)
      ensures index == |iterable| - 1 && current.None?
    {
      keys, lists := [], map[];
      var i := 0;
      while i < |iterable|
        invariant 0 <= i <= |iterable|
        invariant index == i - 1 && current.None?
        invariant Groups(keys, lists) == GroupsOf(iterable[..i], keySelector, elementSelector)
      {
        assert iterable[..i + 1][..i] == iterable[..i];
        var item := iterable[i];
        index := index + 1;
        var key := keySelector(item, index);
        var element := elementSelector(item, index);
        if key in lists {
          lists := lists[key := lists[key] + [element]];
        } else {
          keys := keys + [key];
          lists := lists[key := [element]];
        }
        i := i + 1;
      }
      assert iterable[..i] == iterable;
    }

    method Iterate() returns (out: seq<Grouping<K, E>>)
      requires Idle()
      modifies this
      ensures var g := GroupsOf(iterable, keySelector, elementSelector);
        |out| == |g.keys| &&
        forall i :: 0 <= i < |out| ==> out[i].key == g.keys[i] && out[i].elements == g.lists[g.keys[i]]
      ensures forall x :: x in out ==> fresh(x)
      ensures Idle()
    {
      var keys, lists := Collect();
      out := [];
      var j := 0;
      while j < |keys|
        invariant 0 <= j <= |keys|
        invariant |out| == j
        invariant forall m :: 0 <= m < j ==> out[m].key == keys[m] && out[m].elements == lists[keys[m]]
        invariant forall x :: x in out ==> fresh(x)
      {
        var group := new Grouping(keys[j], lists[keys[j]]);
        current := Some(group);
        out := out + [group];
        j := j + 1;
      }
      Reset();
    }
  }

  /** GroupResultIterator: the result selector applied to each key and its list. */
  class GroupResultIterator<T, K(==), E, R> {
    const iterable: seq<T>
    const keySelector: (T, int) -> K
    const elementSelector: (T, int) -> E
    const resultSelector: (K, seq<E>) -> R
    var index: int
    var current: Option<R>

    predicate Idle()
      reads this
    {
      index == -1 && current.None?
    }

    constructor (iterable: seq<T>, keySelector: (T, int) -> K, elementSelector: (T, int) -> E,
                 resultSelector: (K, seq<E>) -> R)
      ensures this.iterable == iterable && this.keySelector == keySelector
      ensures this.elementSelector == elementSelector && this.resultSelector == resultSelector
      ensures Idle()
    {
      this.iterable, this.keySelector := iterable, keySelector;
      this.elementSelector, this.resultSelector := elementSelector, resultSelector;
      index, current := -1, None;
    }

    method Reset()
      modifies this
      ensures Idle()
    {
      index, current := -1, None;
    }

    /** The grouping loop of a pass: one Map entry per key, in first-seen order. */
    method Collect() returns (keys: seq<K>, lists: map<K, seq<E>>)
      requires Idle()
      modifies this
      ensures Groups(keys, lists) == GroupsOf(iterable, keySelector, elementSelector)
      ensures index == |iterable| - 1 && current.None?
    {
      keys, lists := [], map[];
      var i := 0;
      while i < |iterable|
        invariant 0 <= i <= |iterable|
        invariant index == i - 1 && current.None?
        invariant Groups(keys, lists) == GroupsOf(iterable[..i], keySelector, elementSelector)
      {
        assert iterable[..i + 1][..i] == iterable[..i];
        var item := iterable[i];
        index := index + 1;
        var key := keySelector(item, index);
        var element := elementSelector(item, index);
        if key in lists {
          lists := lists[key := lists[key] + [element]];
        } else {
          keys := keys + [key];
          lists := lists[key := [element]];
        }
        i := i + 1;
      }
      assert iterable[..i] == iterable;
    }

    method Iterate() returns (out: seq<R>)
      requires Idle()
      modifies this
      ensures var g := GroupsOf(iterable, keySelector, elementSelector);
        |out| == |g.keys| &&
        forall i :: 0 <= i < |out| ==> out[i] == resultSelector(g.keys[i], g.lists[g.keys[i]])
      ensures Idle()
    {
      var keys, lists := Collect();
      out := Results(keys, lists);
      Reset();
    }

    /** The second loop of a pass: the result selector on each key and its list. */
    method Results(keys: seq<K>, lists: map<K, seq<E>>) returns (out: seq<R>)
      requires forall k :: k in keys ==> k in lists
      ensures |out| == |keys|
      ensures forall m :: 0 <= m < |keys| ==> out[m] == resultSelector(keys[m], lists[keys[m]])
    {
      out := [];
      var j := 0;
      while j < |keys|
        invariant 0 <= j <= |keys|
        invariant |out| == j
        invariant forall m :: 0 <= m < j ==> out[m] == resultSelector(keys[m], lists[keys[m]])
      {
        var result := resultSelector(keys[j], lists[keys[j]]);
        out := out + [result];
        j := j + 1;
      }
    }
  }

  // ---------------------------------------------------------------------------
  // join, groupJoin
  // ---------------------------------------------------------------------------

  /** What `lookup.item(k)` yields: the key's list, or nothing (`undefined`). */
  function MatchOf<K, I>(lists: map<K, seq<I>>, k: K): (m: Option<seq<I>>)
    ensures m.Some? <==> k in lists
    ensures m.Some? ==> m.value == lists[k]
  {
    if k in lists then Some(lists[k]) else None
  }

  /** GroupJoinIterator's pass: one result per outer element, from the element
      and what the inner lookup holds under its key. */
  function GroupJoined<T, K, I, R>(s: seq<T>, outerKey: T -> K, lists: map<K, seq<I>>,
                                   sel: (T, Option<seq<I>>) -> R): (r: seq<R>)
    ensures |r| == |s|
  {
    if s == [] then []
    else GroupJoined(Init(s), outerKey, lists, sel) + [sel(Last(s), MatchOf(lists, outerKey(Last(s))))]
  }

  /** The results of one outer element against its inner group, in group order. */
  function JoinRow<T, I, R>(x: T, group: seq<I>, sel: (T, I) -> R): (r: seq<R>)
    ensures |r| == |group|
    ensures forall j :: 0 <= j < |group| ==> r[j] == sel(x, group[j])
  {
    if group == [] then [] else JoinRow(x, Init(group), sel) + [sel(x, Last(group))]
  }

  /** JoinIterator's pass: for each outer element in order, one result per
      element of its inner group; an outer key without a group makes the pass
      iterate `undefined`, which throws a TypeError after the earlier results. */
  function Joined<T, K, I, R>(s: seq<T>, outerKey: T -> K, lists: map<K, seq<I>>, sel: (T, I) -> R): (r: Pass<R>)
    ensures r.failure.None? || r.failure == Some(TypeError)
  {
    if s == [] then Pass([], None)
    else
      var p := Joined(Init(s), outerKey, lists, sel);
      if p.failure.Some? then p
      else if outerKey(Last(s)) in lists then Pass(p.items + JoinRow(Last(s), lists[outerKey(Last(s))], sel), None)
      else Pass(p.items, Some(TypeError))
  }

  /** groupJoin yields exactly one result per outer element, built from that element. */
  lemma {:induction false} GroupJoinAt<T, K, I, R>(s: seq<T>, outerKey: T -> K, lists: map<K, seq<I>>,
                                                 sel: (T, Option<seq<I>>) -> R, i: nat)
    requires i < |s|
    ensures GroupJoined(s, outerKey, lists, sel)[i] == sel(s[i], MatchOf(lists, outerKey(s[i])))
  {
    if i < |s| - 1 {
      GroupJoinAt(Init(s), outerKey, lists, sel, i);
    }
  }

  /** join completes exactly when every outer key has an inner group. */
  lemma {:induction false} JoinCompletes<T, K, I, R>(s: seq<T>, outerKey: T -> K, lists: map<K, seq<I>>, sel: (T, I) -> R)
    ensures Joined(s, outerKey, lists, sel).failure.None? <==> forall i :: 0 <= i < |s| ==> outerKey(s[i]) in lists
  {
    if s != [] {
      JoinCompletes(Init(s), outerKey, lists, sel);
      assert forall i :: 0 <= i < |s| - 1 ==> Init(s)[i] == s[i];
    }
  }

  /** A join pass that fails stays failed: nothing after the failing outer element counts. */
  lemma {:induction false} JoinFailureSticks<T, K, I, R>(s: seq<T>, n: nat, outerKey: T -> K,
                                                       lists: map<K, seq<I>>, sel: (T, I) -> R)
    requires n <= |s|
    requires Joined(s[..n], outerKey, lists, sel).failure.Some?
    ensures Joined(s, outerKey, lists, sel) == Joined(s[..n], outerKey, lists, sel)
  {
    if n < |s| {
      assert Init(s)[..n] == s[..n];
      JoinFailureSticks(Init(s), n, outerKey, lists, sel);
    } else {
      assert s[..n] == s;
    }
  }

  /** The results join yields are those of groupJoin's groups, flattened: for an
      outer element with group g, the selector paired with each element of g. */
  lemma {:induction false} JoinFlattensGroupJoin<T, K, I, R>(s: seq<T>, outerKey: T -> K, lists: map<K, seq<I>>,
                                                           sel: (T, I) -> R)
    requires forall i :: 0 <= i < |s| ==> outerKey(s[i]) in lists
    ensures Joined(s, outerKey, lists, sel).items ==
            Flatten(GroupJoined(s, outerKey, lists, (x, m: Option<seq<I>>) => if m.Some? then JoinRow(x, m.value, sel) else []))
  {
    if s != [] {
      JoinFlattensGroupJoin(Init(s), outerKey, lists, sel);
      JoinCompletes(Init(s), outerKey, lists, sel);
    }
  }

  /** The concatenation of a sequence of sequences. */
  function Flatten<R>(ss: seq<seq<R>>): (r: seq<R>)
    ensures forall i, x :: 0 <= i < |ss| && x in ss[i] ==> x in r
    ensures (forall i :: 0 <= i < |ss| ==> ss[i] == []) ==> r == []
  {
    if ss == [] then []
    else
      assert forall i :: 0 <= i < |ss| - 1 ==> Init(ss)[i] == ss[i];
      Flatten(Init(ss)) + Last(ss)
  }

  /** GroupJoinIterator: the outer key selector receives the element alone; the
      result selector receives the element and `lookup.item(key)`, modelled as
      the elements of the grouping, or nothing for a key without one. */
  class GroupJoinIterator<T, K(==), I, R> {
    const iterable: seq<T>
    const keySelector: T -> K
    const innerSequence: seq<I>
    const innerKeySelector: (I, int) -> K
    const resultSelector: (T, Option<seq<I>>) -> R
    var index: int
    var current: Option<R>

    predicate Idle()
      reads this
    {
      index == -1 && current.None?
    }

    constructor (iterable: seq<T>, keySelector: T -> K, innerSequence: seq<I>,
                 innerKeySelector: (I, int) -> K, resultSelector: (T, Option<seq<I>>) -> R)
      ensures this.iterable == iterable && this.keySelector == keySelector
      ensures this.innerSequence == innerSequence && this.innerKeySelector == innerKeySelector
      ensures this.resultSelector == resultSelector && Idle()
    {
      this.iterable, this.keySelector, this.innerSequence := iterable, keySelector, innerSequence;
      this.innerKeySelector, this.resultSelector := innerKeySelector, resultSelector;
      index, current := -1, None;
    }

    method Reset()
      modifies this
      ensures Idle()
    {
      index, current := -1, None;
    }

    /** The outer loop of a pass: each outer element with `lookup.item` of its key. */
    method Match(lookup: Lookup<K, I>) returns (out: seq<R>)
      requires lookup.Valid()
      modifies lookup
      ensures out == GroupJoined(iterable, keySelector, lookup.mappedArrays, resultSelector)
    {
      out := [];
      var i := 0;
      while i < |iterable|
        invariant 0 <= i <= |iterable|
        invariant lookup.Valid()
        invariant out == GroupJoined(iterable[..i], keySelector, lookup.mappedArrays, resultSelector)
      {
        assert iterable[..i + 1][..i] == iterable[..i];
        var item := iterable[i];
        var key := keySelector(item);
        var grouping := lookup.Item(key);
        var inner := if grouping.Some? then Some(grouping.value.elements) else None;
        out := out + [resultSelector(item, inner)];
        i := i + 1;
      }
      assert iterable[..i] == iterable;
    }

    method Iterate() returns (out: seq<R>)
      requires Idle()
      modifies this
      ensures out == GroupJoined(iterable, keySelector, GroupsOf(innerSequence, innerKeySelector, Identity).lists, resultSelector)
      ensures Idle()
    {
      var lookup := Lookup.CreateForJoin(innerSequence, innerKeySelector);
      out := Match(lookup);
      Reset();
    }
  }

  /** JoinIterator: the outer key selector receives the element alone; each
      outer element is paired with every element of its inner grouping. */
  class JoinIterator<T, I, K(==), R> {
    const iterable: seq<T>
    const innerSequence: seq<I>
    const keySelector: T -> K
    const innerKeySelector: (I, int) -> K
    const resultSelector: (T, I) -> R
    var index: int
    var current: Option<R>

    predicate Idle()
      reads this
    {
      index == -1 && current.None?
    }

    constructor (iterable: seq<T>, innerSequence: seq<I>, keySelector: T -> K,
                 innerKeySelector: (I, int) -> K, resultSelector: (T, I) -> R)
      ensures this.iterable == iterable && this.keySelector == keySelector
      ensures this.innerSequence == innerSequence && this.innerKeySelector == innerKeySelector
      ensures this.resultSelector == resultSelector && Idle()
    {
      this.iterable, this.innerSequence, this.keySelector := iterable, innerSequence, keySelector;
      this.innerKeySelector, this.resultSelector := innerKeySelector, resultSelector;
      index, current := -1, None;
    }

    method Reset()
      modifies this
      ensures Idle()
    {
      index, current := -1, None;
    }

    /** The inner loop of a pass: the outer element against every element of its group. */
    method Pair(item: T, groupItems: seq<I>) returns (row: seq<R>)
      ensures row == JoinRow(item, groupItems, resultSelector)
    {
      row := [];
      var j := 0;
      while j < |groupItems|
        invariant 0 <= j <= |groupItems|
        invariant row == JoinRow(item, groupItems[..j], resultSelector)
      {
        assert groupItems[..j + 1][..j] == groupItems[..j];
        row := row + [resultSelector(item, groupItems[j])];
        j := j + 1;
      }
      assert groupItems[..j] == groupItems;
    }

    method Iterate() returns (out: Pass<R>)
      requires Idle()
      modifies this
      ensures out == Joined(iterable, keySelector, GroupsOf(innerSequence, innerKeySelector, Identity).lists, resultSelector)
      ensures Idle()
    {
      var lookup := Lookup.CreateForJoin(innerSequence, innerKeySelector);
      var items: seq<R> := [];
      var i := 0;
      while i < |iterable|
        invariant 0 <= i <= |iterable|
        invariant fresh(lookup) && lookup.Valid()
        invariant lookup.mappedArrays == GroupsOf(innerSequence, innerKeySelector, Identity).lists
        invariant Joined(iterable[..i], keySelector, lookup.mappedArrays, resultSelector) == Pass(items, None)
        invariant Idle()
      {
        assert iterable[..i + 1][..i] == iterable[..i];
        var item := iterable[i];
        var key := keySelector(item);
        var grouping := lookup.Item(key);
        if grouping.None? {
          // for (let groupItem of undefined) throws
          JoinFailureSticks(iterable, i + 1, keySelector, lookup.mappedArrays, resultSelector);
          return Pass(items, Some(TypeError));
        }
        var groupItems := grouping.value.Iterate();
        var row := Pair(item, groupItems);
        items := items + row;
        assert Joined(iterable[..i + 1], keySelector, lookup.mappedArrays, resultSelector) == Pass(items, None);
        i := i + 1;
      }
      assert iterable[..i] == iterable;
      Reset();
      out := Pass(items, None);
    }
  }
}
