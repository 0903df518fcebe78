/** The generators of src/Generators.ts. Each keeps the `index`/`current`
    cursor of `Generator`, which `reset()` puts back to -1 and null; `Iterate`
    is one complete pass. A callback result of `None` is `undefined`, the only
    result UserGenerator skips; a `null` result is an ordinary value of `V`. */
module Generators {
  import opened Wrappers
  import opened Stages

  // ---------------------------------------------------------------------------
  // UserGenerator
  // ---------------------------------------------------------------------------

  /** The results of `callback(i, userData)` other than `undefined`, for
      i = 0 .. n-1, in order. */
  function Generated<D, V>(callback: (int, D) -> Option<V>, userData: D, n: int): (r: seq<V>)
    ensures |r| <= (if n < 0 then 0 else n)
    decreases n
  {
    if n <= 0 then []
    else
      Generated(callback, userData, n - 1)
      + (match callback(n - 1, userData) case Some(v) => [v] case None => [])
  }

  /** A value is generated exactly when some call below the count returns it. */
  lemma {:induction false} GeneratedContains<D, V>(callback: (int, D) -> Option<V>, userData: D, n: int, v: V)
    ensures v in Generated(callback, userData, n) <==> exists i :: 0 <= i < n && callback(i, userData) == Some(v)
    decreases n
  {
    if n > 0 {
      GeneratedContains(callback, userData, n - 1, v);
      if callback(n - 1, userData) == Some(v) {
        assert 0 <= n - 1 < n;
      }
    }
  }

  /** Exactly `count` values when every call is defined, the i-th being the
      result of call i; none when every call returns `undefined`. */
  lemma {:induction false} GeneratedLength<D, V>(callback: (int, D) -> Option<V>, userData: D, n: int)
    ensures (forall i :: 0 <= i < n ==> callback(i, userData).None?) ==> Generated(callback, userData, n) == []
    ensures 0 <= n && (forall i :: 0 <= i < n ==> callback(i, userData).Some?) ==>
              |Generated(callback, userData, n)| == n
              && forall i :: 0 <= i < n ==> Generated(callback, userData, n)[i] == callback(i, userData).value
    decreases n
  {
    if n > 0 {
      GeneratedLength(callback, userData, n - 1);
    }
  }

  /** UserGenerator(callback, count, userData): calls the callback with the
      new index for each of `count` steps and yields every result that is not
      `undefined` (a `null` result included). */
  class UserGenerator<D, V> {
    const callback: (int, D) -> Option<V>
    const count: int
    const userData: D
    var index: int
    var current: Option<V>

    predicate Idle()
      reads this
    {
      index == -1 && current.None?
    }

    constructor (callback: (int, D) -> Option<V>, count: int, userData: D)
      ensures this.callback == callback && this.count == count && this.userData == userData
      ensures Idle()
    {
      this.callback, this.count, this.userData := callback, count, userData;
      index, current := -1, None;
    }

    /** Generator.reset */
    method Reset()
      modifies this
      ensures Idle()
    {
      index, current := -1, None;
    }

    method Iterate() returns (out: seq<V>)
      requires Idle()
      modifies this
      ensures out == Generated(callback, userData, count)
      ensures Idle()
    {
      out := [];
      var i := 0;
      while i < count
        invariant 0 <= i <= (if count < 0 then 0 else count)
        invariant index == i - 1
        invariant out == Generated(callback, userData, i)
      {
        index := index + 1;
        var result := callback(index, userData);
        if result.Some? {
          current := result;
          out := out + [result.value];
        }
        i := i + 1;
      }
      Reset();
    }
  }

  // ---------------------------------------------------------------------------
  // NumberGenerator
  // ---------------------------------------------------------------------------

  /** `step || 1`: a missing or zero step counts as one. */
  function StepOrOne(step: Option<int>): (s: int)
    ensures s != 0
    ensures step.Some? && step.value != 0 ==> s == step.value
  {
    if step.None? || step.value == 0 then 1 else step.value
  }

  /** start, start+step, ... while below `end`. */
  function NumberRange(start: int, end: int, step: int): (r: seq<int>)
    requires step > 0 || end <= start
    ensures forall x :: x in r ==> start <= x < end
    decreases end - start
  {
    if start >= end then [] else [start] + NumberRange(start + step, end, step)
  }

  /** The half-open range: the k-th value is start + k*step, each one at least
      `start` and below `end`. */
  lemma {:induction false} NumberRangeAt(start: int, end: int, step: int)
    requires step > 0 || end <= start
    ensures forall k :: 0 <= k < |NumberRange(start, end, step)| ==>
              NumberRange(start, end, step)[k] == start + k * step
              && start <= NumberRange(start, end, step)[k] < end
    decreases end - start
  {
    if start < end {
      NumberRangeAt(start + step, end, step);
      var r := NumberRange(start, end, step);
      var rest := NumberRange(start + step, end, step);
      forall k | 0 < k < |r|
        ensures r[k] == start + k * step
      {
        assert r[k] == rest[k - 1];
        assert start + step + (k - 1) * step == start + k * step;
      }
    }
  }

  /** ceil((end-start)/step) values for a positive step: the count k with
      (k-1)*step < end-start <= k*step. None when end <= start. */
  lemma {:induction false} NumberRangeLength(start: int, end: int, step: int)
    requires step > 0 || end <= start
    ensures end <= start ==> |NumberRange(start, end, step)| == 0
    ensures end > start ==>
              (|NumberRange(start, end, step)| - 1) * step < end - start <= |NumberRange(start, end, step)| * step
    decreases end - start
  {
    if start < end {
      NumberRangeLength(start + step, end, step);
      var m := |NumberRange(start + step, end, step)|;
      assert |NumberRange(start, end, step)| == m + 1;
      assert (m + 1) * step == m * step + step;
    }
  }

  /** NumberGenerator(start, end, step). The constructor leaves `current` one
      step before `start`. */
  class NumberGenerator {
    const start: int
    const end: int
    const step: int
    var index: int
    var current: Option<int>

    predicate Idle()
      reads this
    {
      index == -1 && current.None?
    }

    constructor (start: int, end: int, step: Option<int>)
      ensures this.start == start && this.end == end && this.step == StepOrOne(step)
      ensures index == -1 && current == Some(start - StepOrOne(step))
    {
      this.start, this.end := start, end;
      this.step := StepOrOne(step);
      index := -1;
      current := Some(start - StepOrOne(step));
    }

    /** Generator.reset */
    method Reset()
      modifies this
      ensures Idle()
    {
      index, current := -1, None;
    }

    /** One pass: the offsets 0, step, 2*step, ... below end - start, each
        yielded as start + offset. A negative step with end > start loops
        forever in the source and is excluded. */
    method Iterate() returns (out: seq<int>)
      requires step > 0 || end <= start
      modifies this
      ensures out == NumberRange(start, end, step)
      ensures Idle()
    {
      var count := end - start;
      out := [];
      var i := 0;
      while i < count
        invariant i >= 0
        invariant out + NumberRange(start + i, end, step) == NumberRange(start, end, step)
        decreases count - i
      {
        index := i;
        current := Some(start + i);
        assert NumberRange(start + i, end, step) == [start + i] + NumberRange(start + i + step, end, step);
        out := out + [start + i];
        i := i + step;
      }
      assert NumberRange(start + i, end, step) == [];
      Reset();
    }
  }

  // ---------------------------------------------------------------------------
  // KeyValueGenerator
  // ---------------------------------------------------------------------------

  datatype KeyValue<K, V> = KeyValue(key: K, value: V)

  /** The pairs of one pass whose first index is `base`: key and value of each
      element computed at its running index. */
  function KeyValues<T, K>(s: seq<T>, keySelector: (T, int) -> K, valueSelector: Option<(T, int) -> T>, base: int)
    : (r: seq<KeyValue<K, T>>)
    ensures |r| == |s|
  {
    if s == [] then []
    else
      var i := base + |s| - 1;
      KeyValues(Init(s), keySelector, valueSelector, base)
      + [KeyValue(keySelector(Last(s), i), if valueSelector.Some? then valueSelector.value(Last(s), i) else Last(s))]
  }

  /** The i-th pair holds the key and value of the i-th element at index base + i. */
  lemma {:induction false} KeyValuesAt<T, K>(s: seq<T>, keySelector: (T, int) -> K, valueSelector: Option<(T, int) -> T>, base: int)
    ensures forall i :: 0 <= i < |s| ==>
              KeyValues(s, keySelector, valueSelector, base)[i]
              == KeyValue(keySelector(s[i], base + i), if valueSelector.Some? then valueSelector.value(s[i], base + i) else s[i])
  {
    if s != [] {
      KeyValuesAt(Init(s), keySelector, valueSelector, base);
    }
  }

  /** The values of a sequence of pairs. */
  function Values<K, V>(kv: seq<KeyValue<K, V>>): (r: seq<V>)
    ensures |r| == |kv|
    ensures forall i :: 0 <= i < |kv| ==> r[i] == kv[i].value
  {
    if kv == [] then [] else [kv[0].value] + Values(kv[1..])
  }

  /** Without a value selector the values are the elements themselves. */
  lemma ValuesOfKeyValues<T, K>(s: seq<T>, keySelector: (T, int) -> K, base: int)
    ensures Values(KeyValues(s, keySelector, None, base)) == s
  {
    KeyValuesAt(s, keySelector, None, base);
  }

  /** KeyValueGenerator(iterable, keySelector, valueSelector?). The running
      index is never reset, so a later pass numbers on from the previous one;
      `current` is never set. */
  class KeyValueGenerator<T, K> {
    const iterable: seq<T>
    const keySelector: (T, int) -> K
    const valueSelector: Option<(T, int) -> T>
    var index: int
    var current: Option<KeyValue<K, T>>

    constructor (iterable: seq<T>, keySelector: (T, int) -> K, valueSelector: Option<(T, int) -> T>)
      ensures this.iterable == iterable && this.keySelector == keySelector && this.valueSelector == valueSelector
      ensures index == -1 && current == None
    {
      this.iterable, this.keySelector, this.valueSelector := iterable, keySelector, valueSelector;
      index, current := -1, None;
    }

    /** Generator.reset */
    method Reset()
      modifies this
      ensures index == -1 && current == None
    {
      index, current := -1, None;
    }

    method Iterate() returns (out: seq<KeyValue<K, T>>)
      modifies this
      ensures out == KeyValues(iterable, keySelector, valueSelector, old(index) + 1)
      ensures index == old(index) + |iterable| && current == old(current)
    {
      ghost var base := index + 1;
      out := [];
      var i := 0;
      while i < |iterable|
        invariant 0 <= i <= |iterable|
        invariant index == base + i - 1
        invariant out == KeyValues(iterable[..i], keySelector, valueSelector, base)
        invariant current == old(current)
      {
        var element := iterable[i];
        index := index + 1;
        var key := keySelector(element, index);
        var value;
        if valueSelector.Some? {
          value := valueSelector.value(element, index);
        } else {
          value := element;
        }
        assert iterable[..i + 1][..i] == iterable[..i];
        out := out + [KeyValue(key, value)];
        i := i + 1;
      }
      assert iterable[..i] == iterable;
    }
  }
}
