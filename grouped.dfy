/** GroupedEnumerable and GroupedResultEnumerable (src/Grouping.ts): the
    enumerables behind `groupBy`. Each checks its key selector when built and
    groups its source into a `Lookup` on first use, keeping that lookup for
    every later pass. */
module GroupedEnumerables {
  import opened Wrappers
  import opened Functions
  import opened Groupings
  import opened Lookups

  /** The result selector applied to each key and its list, in key order. */
  function GroupResults<K, E, R>(keys: seq<K>, lists: map<K, seq<E>>, resultSelector: (K, seq<E>) -> R): (r: seq<R>)
    requires forall k :: k in keys ==> k in lists
    ensures |r| == |keys|
    ensures forall i :: 0 <= i < |keys| ==> r[i] == resultSelector(keys[i], lists[keys[i]])
  {
    if keys == [] then [] else [resultSelector(keys[0], lists[keys[0]])] + GroupResults(keys[1..], lists, resultSelector)
  }

  /** groupBy(keySelector, elementSelector?) without a result selector. */
  class GroupedEnumerable<T, K(==), E> {
    const source: seq<T>
    const keySelector: (T, int) -> K
    const elementSelector: Option<(T, int) -> E>
    var lookup: Option<Lookup<K, E>>
    /** How many times the source has been grouped. */
    ghost var lookupsCreated: nat

    function Footprint(): set<object>
      reads this
    {
      if lookup.Some? then {lookup.value} else {}
    }

    /** A lookup is present only once the source has been grouped, by the
        selectors given, exactly once. */
    ghost predicate Valid()
      reads this, Footprint()
    {
      lookupsCreated == (if lookup.Some? then 1 else 0)
      && (lookup.Some? ==>
            elementSelector.Some? && lookup.value.Valid()
            && Groups(lookup.value.keys, lookup.value.mappedArrays) == GroupsOf(source, keySelector, elementSelector.value))
    }

    constructor Init(source: seq<T>, keySelector: (T, int) -> K, elementSelector: Option<(T, int) -> E>)
      ensures this.source == source && this.keySelector == keySelector && this.elementSelector == elementSelector
      ensures lookup == None && Valid()
    {
      this.source, this.keySelector, this.elementSelector := source, keySelector, elementSelector;
      lookup := None;
      lookupsCreated := 0;
    }

    /** The constructor: asserts that the key selector is a function (twice;
        the element selector is never checked here). */
    static method Create(source: seq<T>, keySelector: Option<(T, int) -> K>, elementSelector: Option<(T, int) -> E>)
      returns (r: Result<GroupedEnumerable<T, K, E>>)
      ensures keySelector.None? ==> r == Err(AssertFail)
      ensures keySelector.Some? ==>
        r.Ok? && fresh(r.value) && r.value.Valid() && r.value.lookup == None
        && r.value.source == source && r.value.keySelector == keySelector.value && r.value.elementSelector == elementSelector
    {
      if keySelector.None? {
        return Err(AssertFail);
      }
      var e := new GroupedEnumerable.Init(source, keySelector.value, elementSelector);
      r := Ok(e);
    }

    /** _getOrCreateLookup: the kept lookup, or a new one built by
        `Lookup.create`, which throws when the element selector is missing. */
    method GetOrCreateLookup() returns (r: Result<Lookup<K, E>>)
      requires Valid()
      modifies this
      ensures Valid()
      ensures elementSelector.None? ==> r == Err(AssertFail) && lookup == None
      ensures elementSelector.Some? ==> r.Ok? && lookup == Some(r.value)
      ensures old(lookup).Some? ==> lookup == old(lookup)
      ensures old(lookup).None? && r.Ok? ==> fresh(r.value) && r.value.cache == map[]
    {
      if lookup.None? {
        r := Lookup.Create(source, Some(keySelector), elementSelector);
        if r.Ok? {
          lookup := Some(r.value);
          lookupsCreated := lookupsCreated + 1;
        }
      } else {
        r := Ok(lookup.value);
      }
    }

    /** One pass: the lookup's groupings, one per distinct key in order of
        first appearance, each holding that key's elements. A later pass
        hands out the same grouping objects again. */
    method Iterate() returns (r: Result<seq<Grouping<K, E>>>)
      requires Valid()
      modifies this, Footprint()
      ensures Valid()
      ensures elementSelector.None? ==> r == Err(AssertFail)
      ensures elementSelector.Some? ==>
        r.Ok? && lookup.Some?
        && var g := GroupsOf(source, keySelector, elementSelector.value);
           |r.value| == |g.keys|
           && forall i :: 0 <= i < |r.value| ==>
                r.value[i].key == g.keys[i] && r.value[i].elements == g.lists[g.keys[i]]
                && g.keys[i] in lookup.value.cache && r.value[i] == lookup.value.cache[g.keys[i]]
      ensures old(lookup).Some? ==>
        lookup == old(lookup)
        && forall k :: k in old(lookup.value.cache) ==> k in lookup.value.cache && lookup.value.cache[k] == old(lookup.value.cache[k])
    {
      var lk := GetOrCreateLookup();
      if lk.Err? {
        return Err(AssertFail);
      }
      var groups := lk.value.Iterate();
      r := Ok(groups);
    }

    /** count(predicate?): `countIterable` over the lookup, which is neither an
        array, a set nor a map, so every grouping is visited and the predicate
        receives no index. `groups` are the groupings visited. */
    method Count(pred: Option<(Grouping<K, E>, Option<int>) -> bool>) returns (r: Result<nat>, ghost groups: seq<Grouping<K, E>>)
      requires Valid()
      modifies this, Footprint()
      ensures Valid()
      ensures elementSelector.None? ==> r == Err(AssertFail)
      ensures elementSelector.Some? ==>
        var g := GroupsOf(source, keySelector, elementSelector.value);
        |groups| == |g.keys|
        && (forall i :: 0 <= i < |groups| ==> groups[i].key == g.keys[i] && groups[i].elements == g.lists[g.keys[i]])
        && r == Ok(if pred.None? then |g.keys| else Matching(groups, pred.value, false))
      ensures elementSelector.Some? ==> lookup.Some?
      ensures old(lookup).Some? ==> lookup == old(lookup)
      ensures old(lookup).None? && lookup.Some? ==> fresh(lookup.value)
    {
      var lk := GetOrCreateLookup();
      if lk.Err? {
        return Err(AssertFail), [];
      }
      var gs := lk.value.Iterate();
      groups := gs;
      var n := CountIterable(OtherSource, gs, pred);
      r := Ok(n);
    }
  }

  /** count() followed by a pass: the pass reuses the lookup that count built
      (or found), so the source is grouped once across both calls, and the
      pass hands out the same groupings that count visited. */
  method CountThenIterate<T, K(==), E>(e: GroupedEnumerable<T, K, E>)
    returns (n: Result<nat>, r: Result<seq<Grouping<K, E>>>)
    requires e.Valid()
    modifies e, e.Footprint()
    ensures e.Valid()
    ensures e.lookupsCreated == (if e.elementSelector.Some? then 1 else 0)
    ensures old(e.lookup).Some? ==> e.lookup == old(e.lookup)
    ensures e.elementSelector.Some? ==>
      var g := GroupsOf(e.source, e.keySelector, e.elementSelector.value);
      n == Ok(|g.keys|) && r.Ok? && |r.value| == |g.keys|
    ensures e.elementSelector.None? ==> n == Err(AssertFail) && r == Err(AssertFail)
  {
    ghost var visited;
    n, visited := e.Count(None);
    ghost var built := e.lookup;
    r := e.Iterate();
    assert e.lookup == built;
  }

  /** groupBy(keySelector, elementSelector, resultSelector): one result per group. */
  class GroupedResultEnumerable<T, K(==), E, R> {
    const source: seq<T>
    const keySelector: (T, int) -> K
    const elementSelector: Option<(T, int) -> E>
    const resultSelector: (K, seq<E>) -> R
    var lookup: Option<Lookup<K, E>>
    /** How many times the source has been grouped. */
    ghost var lookupsCreated: nat

    function Footprint(): set<object>
      reads this
    {
      if lookup.Some? then {lookup.value} else {}
    }

    ghost predicate Valid()
      reads this, Footprint()
    {
      lookupsCreated == (if lookup.Some? then 1 else 0)
      && (lookup.Some? ==>
            elementSelector.Some? && lookup.value.Valid()
            && Groups(lookup.value.keys, lookup.value.mappedArrays) == GroupsOf(source, keySelector, elementSelector.value))
    }

    constructor Init(source: seq<T>, keySelector: (T, int) -> K, elementSelector: Option<(T, int) -> E>,
                     resultSelector: (K, seq<E>) -> R)
      ensures this.source == source && this.keySelector == keySelector && this.elementSelector == elementSelector
      ensures this.resultSelector == resultSelector
      ensures lookup == None && Valid()
    {
      this.source, this.keySelector, this.elementSelector := source, keySelector, elementSelector;
      this.resultSelector := resultSelector;
      lookup := None;
      lookupsCreated := 0;
    }

    /** The constructor: asserts that the key selector is a function (twice). */
    static method Create(source: seq<T>, keySelector: Option<(T, int) -> K>, elementSelector: Option<(T, int) -> E>,
                         resultSelector: (K, seq<E>) -> R)
      returns (r: Result<GroupedResultEnumerable<T, K, E, R>>)
      ensures keySelector.None? ==> r == Err(AssertFail)
      ensures keySelector.Some? ==>
        r.Ok? && fresh(r.value) && r.value.Valid() && r.value.lookup == None
        && r.value.source == source && r.value.keySelector == keySelector.value
        && r.value.elementSelector == elementSelector && r.value.resultSelector == resultSelector
    {
      if keySelector.None? {
        return Err(AssertFail);
      }
      var e := new GroupedResultEnumerable.Init(source, keySelector.value, elementSelector, resultSelector);
      r := Ok(e);
    }

    /** _getOrCreateLookup, as for GroupedEnumerable. */
    method GetOrCreateLookup() returns (r: Result<Lookup<K, E>>)
      requires Valid()
      modifies this
      ensures Valid()
      ensures elementSelector.None? ==> r == Err(AssertFail) && lookup == None
      ensures elementSelector.Some? ==> r.Ok? && lookup == Some(r.value)
      ensures old(lookup).Some? ==> lookup == old(lookup)
      ensures old(lookup).None? && r.Ok? ==> fresh(r.value) && r.value.cache == map[]
    {
      if lookup.None? {
        r := Lookup.Create(source, Some(keySelector), elementSelector);
        if r.Ok? {
          lookup := Some(r.value);
          lookupsCreated := lookupsCreated + 1;
        }
      } else {
        r := Ok(lookup.value);
      }
    }

    /** One pass: the result selector applied to each grouping's key and
        elements, in key order. */
    method Iterate() returns (r: Result<seq<R>>)
      requires Valid()
      modifies this, Footprint()
      ensures Valid()
      ensures elementSelector.None? ==> r == Err(AssertFail)
      ensures elementSelector.Some? ==>
        var g := GroupsOf(source, keySelector, elementSelector.value);
        r == Ok(GroupResults(g.keys, g.lists, resultSelector))
      ensures elementSelector.Some? ==> lookup.Some?
      ensures old(lookup).Some? ==> lookup == old(lookup)
    {
      var lk := GetOrCreateLookup();
      if lk.Err? {
        return Err(AssertFail);
      }
      var groups := lk.value.Iterate();
      ghost var g := GroupsOf(source, keySelector, elementSelector.value);
      var out := ApplyResultSelector(groups, g.keys, g.lists);
      r := Ok(out);
    }

    /** The yield loop of a pass: one result per grouping, each grouping being
        the key and list at its position. */
    method ApplyResultSelector(groups: seq<Grouping<K, E>>, ghost keys: seq<K>, ghost lists: map<K, seq<E>>)
      returns (out: seq<R>)
      requires |groups| == |keys| && forall k :: k in keys ==> k in lists
      requires forall i :: 0 <= i < |groups| ==> groups[i].key == keys[i] && groups[i].elements == lists[keys[i]]
      ensures out == GroupResults(keys, lists, resultSelector)
    {
      out := [];
      var i := 0;
      while i < |groups|
        invariant 0 <= i <= |groups|
        invariant out == GroupResults(keys[..i], lists, resultSelector)
      {
        assert keys[..i + 1] == keys[..i] + [keys[i]];
        GroupResultsAppend(keys[..i], keys[i], lists, resultSelector);
        out := out + [resultSelector(groups[i].key, groups[i].elements)];
        i := i + 1;
      }
      assert keys[..i] == keys;
    }

    /** count(predicate?): `countIterable(this, predicate)`, which runs a whole
        pass of this enumerable and gives the predicate no index. */
    method Count(pred: Option<(R, Option<int>) -> bool>) returns (r: Result<nat>)
      requires Valid()
      modifies this, Footprint()
      ensures Valid()
      ensures elementSelector.None? ==> r == Err(AssertFail)
      ensures elementSelector.Some? ==>
        var g := GroupsOf(source, keySelector, elementSelector.value);
        r == Ok(if pred.None? then |g.keys| else Matching(GroupResults(g.keys, g.lists, resultSelector), pred.value, false))
      ensures elementSelector.Some? ==> lookup.Some?
      ensures old(lookup).Some? ==> lookup == old(lookup)
    {
      var results := Iterate();
      if results.Err? {
        return Err(AssertFail);
      }
      var n := CountIterable(OtherSource, results.value, pred);
      r := Ok(n);
    }
  }

  lemma {:induction false} GroupResultsAppend<K, E, R>(keys: seq<K>, k: K, lists: map<K, seq<E>>, resultSelector: (K, seq<E>) -> R)
    requires forall x :: x in keys ==> x in lists
    requires k in lists
    ensures GroupResults(keys + [k], lists, resultSelector) == GroupResults(keys, lists, resultSelector) + [resultSelector(k, lists[k])]
  {
  }
}
