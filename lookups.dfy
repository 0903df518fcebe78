/** The lookup engine of src/Lookup.ts: one pass over a source files every
    element under its key, in an insertion-ordered map from keys to lists;
    a `Lookup` then hands out one memoised `Grouping` per key. */
module Lookups {
  import opened Wrappers
  import opened Stages
  import opened Groupings

  /** A JavaScript `Map<K, E[]>`: its keys in insertion order and the list filed
      under each one. */
  datatype Groups<K(==), E> = Groups(keys: seq<K>, lists: map<K, seq<E>>)

  /** What every such map satisfies: each key once, the key order and the map
      agree, and no list is empty (a key is only ever inserted with an element). */
  ghost predicate WellFormed<K, E>(g: Groups<K, E>)
  {
    (forall i, j :: 0 <= i < j < |g.keys| ==> g.keys[i] != g.keys[j])
    && (forall k :: k in g.lists ==> k in g.keys)
    && (forall i :: 0 <= i < |g.keys| ==> g.keys[i] in g.lists && g.lists[g.keys[i]] != [])
  }

  /** One step of `mapAsGroups`: push onto the key's list, or insert a new key. */
  function AddToGroups<K(==), E>(g: Groups<K, E>, k: K, e: E): Groups<K, E>
  {
    if k in g.lists then Groups(g.keys, g.lists[k := g.lists[k] + [e]])
    else Groups(g.keys + [k], g.lists[k := [e]])
  }

  /** The map `mapAsGroups(s, key, elem)` builds: element i goes, as
      `elem(s[i], i)`, into the list of `key(s[i], i)`. */
  function GroupsOf<T, K(==), E>(s: seq<T>, key: (T, int) -> K, elem: (T, int) -> E): (g: Groups<K, E>)
    ensures WellFormed(g)
  {
    if s == [] then Groups([], map[])
    else
      var n := |s| - 1;
      AddToGroups(GroupsOf(Init(s), key, elem), key(s[n], n), elem(s[n], n))
  }

  /** The reference definition of one group: the selected elements of the
      positions whose key is `k`, in source order. */
  function Members<T, K(==), E>(s: seq<T>, key: (T, int) -> K, elem: (T, int) -> E, k: K): seq<E>
  {
    if s == [] then []
    else
      var n := |s| - 1;
      Members(Init(s), key, elem, k) + (if key(s[n], n) == k then [elem(s[n], n)] else [])
  }

  /** The element selector `createForJoin` implies: the element itself. */
  function Identity<T>(x: T, i: int): T
  {
    x
  }

  /** mapAsGroups(source, keySelector, elementSelector): the single grouping pass.
      A call without an element selector is a call with `Identity`. */
  method MapAsGroups<T, K(==), E>(source: seq<T>, keySelector: (T, int) -> K, elementSelector: (T, int) -> E)
    returns (result: Groups<K, E>)
    ensures result == GroupsOf(source, keySelector, elementSelector)
  {
    var lists: map<K, seq<E>> := map[];
    var keys: seq<K> := [];
    var index := 0;
    while index < |source|
      invariant 0 <= index <= |source|
      invariant Groups(keys, lists) == GroupsOf(source[..index], keySelector, elementSelector)
    {
      assert source[..index + 1][..index] == source[..index];
      var element := source[index];
      var key := keySelector(element, index);
      var groupedElement := elementSelector(element, index);
      if key in lists {
        lists := lists[key := lists[key] + [groupedElement]];
      } else {
        keys := keys + [key];
        lists := lists[key := [groupedElement]];
      }
      index := index + 1;
    }
    assert source[..index] == source;
    result := Groups(keys, lists);
  }

  // ---------------------------------------------------------------------------
  // What the grouping pass computes
  // ---------------------------------------------------------------------------

  /** A key is in the map exactly when some element's key equals it. */
  lemma {:induction false} GroupsOfContains<T, K, E>(s: seq<T>, key: (T, int) -> K, elem: (T, int) -> E, k: K)
    ensures k in GroupsOf(s, key, elem).lists <==> exists i :: 0 <= i < |s| && key(s[i], i) == k
  {
    if s != [] {
      var n := |s| - 1;
      GroupsOfContains(Init(s), key, elem, k);
      assert forall i :: 0 <= i < n ==> Init(s)[i] == s[i];
      if k in GroupsOf(Init(s), key, elem).lists {
        var i :| 0 <= i < n && key(Init(s)[i], i) == k;
        assert key(s[i], i) == k;
      }
    }
  }

  /** Keys come in first-seen order: the key sequence is the distinct keys of
      the source, each at its first occurrence. */
  lemma {:induction false} GroupsOfKeyOrder<T, K, E>(s: seq<T>, key: (T, int) -> K, elem: (T, int) -> E)
    ensures GroupsOf(s, key, elem).keys == DistinctFrom(Select(s, key), {})
  {
    if s != [] {
      var n := |s| - 1;
      var k := key(s[n], n);
      GroupsOfKeyOrder(Init(s), key, elem);
      var ks := Select(s, key);
      assert Init(ks) == Select(Init(s), key);
      assert Last(ks) == k;
      GroupsOfContains(Init(s), key, elem, k);
      if k in Init(ks) {
        var i :| 0 <= i < n && Init(ks)[i] == k;
        assert key(Init(s)[i], i) == k;
      }
    }
  }

  /** Each list holds its key's selected elements in source order, and a key
      without elements has no list. */
  lemma {:induction false} GroupsOfLists<T, K, E>(s: seq<T>, key: (T, int) -> K, elem: (T, int) -> E)
    ensures forall k :: k in GroupsOf(s, key, elem).lists ==> GroupsOf(s, key, elem).lists[k] == Members(s, key, elem, k)
    ensures forall k :: k !in GroupsOf(s, key, elem).lists ==> Members(s, key, elem, k) == []
  {
    if s != [] {
      var n := |s| - 1;
      GroupsOfLists(Init(s), key, elem);
      var g, g' := GroupsOf(Init(s), key, elem), GroupsOf(s, key, elem);
      assert g' == AddToGroups(g, key(s[n], n), elem(s[n], n));
      forall k | k in g'.lists
        ensures g'.lists[k] == Members(s, key, elem, k)
      {
        assert Members(s, key, elem, k) ==
          Members(Init(s), key, elem, k) + (if key(s[n], n) == k then [elem(s[n], n)] else []);
      }
    }
  }

  /** The sum of the list lengths, over a sequence of keys. */
  function SizeSum<K(==), E>(lists: map<K, seq<E>>, ks: seq<K>): nat
  {
    if ks == [] then 0
    else SizeSum(lists, Init(ks)) + (if Last(ks) in lists then |lists[Last(ks)]| else 0)
  }

  /** Updating a key outside `ks` leaves the sum over `ks` alone. */
  lemma {:induction false} SizeSumOutside<K, E>(lists: map<K, seq<E>>, ks: seq<K>, k: K, v: seq<E>)
    requires k !in ks
    ensures SizeSum(lists[k := v], ks) == SizeSum(lists, ks)
  {
    if ks != [] {
      SizeSumOutside(lists, Init(ks), k, v);
    }
  }

  /** Updating a key that occurs once in `ks` changes the sum by the change in its length. */
  lemma {:induction false} SizeSumInside<K, E>(lists: map<K, seq<E>>, ks: seq<K>, k: K, v: seq<E>)
    requires forall i, j :: 0 <= i < j < |ks| ==> ks[i] != ks[j]
    requires k in ks && k in lists
    ensures SizeSum(lists[k := v], ks) + |lists[k]| == SizeSum(lists, ks) + |v|
  {
    if Last(ks) == k {
      assert k !in Init(ks);
      SizeSumOutside(lists, Init(ks), k, v);
    } else {
      assert k in Init(ks);
      SizeSumInside(lists, Init(ks), k, v);
    }
  }

  /** Every element lands in exactly one group: the group sizes add up to |s|. */
  lemma {:induction false} GroupSizesAddUp<T, K, E>(s: seq<T>, key: (T, int) -> K, elem: (T, int) -> E)
    ensures SizeSum(GroupsOf(s, key, elem).lists, GroupsOf(s, key, elem).keys) == |s|
  {
    if s != [] {
      var n := |s| - 1;
      var g := GroupsOf(Init(s), key, elem);
      var k, e := key(s[n], n), elem(s[n], n);
      GroupSizesAddUp(Init(s), key, elem);
      if k in g.lists {
        SizeSumInside(g.lists, g.keys, k, g.lists[k] + [e]);
      } else {
        assert k !in g.keys;
        SizeSumOutside(g.lists, g.keys, k, [e]);
        assert Init(g.keys + [k]) == g.keys;
      }
    }
  }

  /** A sequence without repetitions has as many elements as its set. */
  lemma {:induction false} DistinctCard<K>(ks: seq<K>)
    requires forall i, j :: 0 <= i < j < |ks| ==> ks[i] != ks[j]
    ensures |Elements(ks)| == |ks|
  {
    if ks != [] {
      DistinctCard(Init(ks));
      assert Elements(ks) == Elements(Init(ks)) + {Last(ks)};
      assert Last(ks) !in Elements(Init(ks));
    }
  }

  /** In a well-formed map the number of entries is the number of keys in order. */
  lemma KeyCount<K, E>(g: Groups<K, E>)
    requires WellFormed(g)
    ensures |g.lists| == |g.keys|
  {
    DistinctCard(g.keys);
    assert g.lists.Keys == Elements(g.keys);
  }

  // ---------------------------------------------------------------------------
  // class Lookup
  // ---------------------------------------------------------------------------

  /** A Lookup: the grouped map and the cache of the `Grouping`s handed out so far. */
  class Lookup<K(==), E> {
    const keys: seq<K>
    const mappedArrays: map<K, seq<E>>
    var cache: map<K, Grouping<K, E>>

    /** The grouped map is well formed, and every cached grouping belongs to its
        key and holds that key's list. */
    ghost predicate Valid()
      reads this
    {
      WellFormed(Groups(keys, mappedArrays))
      && forall k :: k in cache ==> k in mappedArrays && cache[k].key == k && cache[k].elements == mappedArrays[k]
    }

    constructor (map_: Groups<K, E>)
      requires WellFormed(map_)
      ensures keys == map_.keys && mappedArrays == map_.lists && cache == map[]
      ensures Valid()
    {
      keys := map_.keys;
      mappedArrays := map_.lists;
      cache := map[];
    }

    /** count: the number of distinct keys. */
    function Count(): (n: nat)
      requires WellFormed(Groups(keys, mappedArrays))
      ensures n == |keys|
    {
      KeyCount(Groups(keys, mappedArrays));
      |mappedArrays|
    }

    /** contains(key): whether the key has a group. */
    function Contains(k: K): (b: bool)
      requires WellFormed(Groups(keys, mappedArrays))
      ensures b <==> k in keys
    {
      k in mappedArrays
    }

    /** item(key): the cached grouping of the key; on a first request for a key
        with a group, a new grouping over its list, which is cached; nothing
        (`undefined`) for a key without a group. */
    method Item(k: K) returns (r: Option<Grouping<K, E>>)
      requires Valid()
      modifies this
      ensures Valid()
      ensures r.Some? <==> k in mappedArrays
      ensures r.Some? ==> r.value.key == k && r.value.elements == mappedArrays[k]
      ensures k in old(cache) ==> r == Some(old(cache)[k]) && cache == old(cache)
      ensures k !in old(cache) && k in mappedArrays ==> fresh(r.value) && cache == old(cache)[k := r.value]
      ensures k !in mappedArrays ==> cache == old(cache)
    {
      if k in cache {
        r := Some(cache[k]);
      } else if k in mappedArrays {
        var grouping := new Grouping(k, mappedArrays[k]);
        cache := cache[k := grouping];
        r := Some(grouping);
      } else {
        r := None;
      }
    }

    /** One pass over the lookup: `item(k)` for every key, in insertion order.
        Groupings handed out before stay cached and are handed out again. */
    method Iterate() returns (out: seq<Grouping<K, E>>)
      requires Valid()
      modifies this
      ensures Valid()
      ensures |out| == |keys|
      ensures forall i :: 0 <= i < |out| ==> out[i].key == keys[i] && out[i].elements == mappedArrays[keys[i]]
      ensures forall i :: 0 <= i < |out| ==> keys[i] in cache && out[i] == cache[keys[i]]
      ensures forall k :: k in old(cache) ==> k in cache && cache[k] == old(cache)[k]
    {
      out := [];
      var i := 0;
      while i < |keys|
        invariant 0 <= i <= |keys|
        invariant Valid()
        invariant |out| == i
        invariant forall j :: 0 <= j < i ==> keys[j] in cache && out[j] == cache[keys[j]]
        invariant forall k :: k in old(cache) ==> k in cache && cache[k] == old(cache)[k]
      {
        var g := Item(keys[i]);
        out := out + [g.value];
        i := i + 1;
      }
    }

    /** create(source, keySelector, elementSelector): asserts that both selectors
        are present, then groups the source with them. */
    static method Create<T>(source: seq<T>, keySelector: Option<(T, int) -> K>,
                            elementSelector: Option<(T, int) -> E>)
      returns (r: Result<Lookup<K, E>>)
      ensures keySelector.None? || elementSelector.None? ==> r == Err(AssertFail)
      ensures keySelector.Some? && elementSelector.Some? ==>
        r.Ok? && fresh(r.value) && r.value.Valid() && r.value.cache == map[] &&
        Groups(r.value.keys, r.value.mappedArrays) == GroupsOf(source, keySelector.value, elementSelector.value)
    {
      if keySelector.None? || elementSelector.None? {
        return Err(AssertFail);
      }
      var mappedGroups := MapAsGroups(source, keySelector.value, elementSelector.value);
      var lookup := new Lookup(mappedGroups);
      r := Ok(lookup);
    }

    /** createForJoin(source, keySelector): groups the raw elements. */
    static method CreateForJoin(source: seq<E>, keySelector: (E, int) -> K) returns (lookup: Lookup<K, E>)
      ensures fresh(lookup) && lookup.Valid() && lookup.cache == map[]
      ensures Groups(lookup.keys, lookup.mappedArrays) == GroupsOf(source, keySelector, Identity)
    {
      var mappedGroups := MapAsGroups(source, keySelector, Identity);
      lookup := new Lookup(mappedGroups);
    }
  }
}
