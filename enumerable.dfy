/** The terminal operators of `EnumerableExtensions` (src/Enumerable.ts), the
    generator-backed factories `range`, `repeat` and `repeatElement`, the
    key-sorted `orderBy`/`orderByDescending`, and the overload resolution of
    `IterableEnumerable.aggregate`. A source is given as the sequence one pass
    of it yields, with its runtime kind where `instanceof Array` matters; a
    thrown error is an `Err`, and `null`/`undefined` results are `None`. */
module EnumerableExtensions {
  import opened Wrappers
  import opened Functions
  import opened Stages
  import opened Lookups
  import opened Ordering
  import opened Generators

  /** Whether an optional predicate accepts an element passed alone, as the
      `for ... of` branches call it: no predicate accepts everything. */
  function Accepts<T>(pred: Option<(T, Option<int>) -> bool>, x: T): bool
  {
    pred.None? || pred.value(x, None)
  }

  /** A predicate called with the element alone, as `v => predicate(v)`. */
  function Unindexed<T>(pred: (T, Option<int>) -> bool): T -> bool
  {
    x => pred(x, None)
  }

  // ---------------------------------------------------------------------------
  // tryGetFirst, tryGetLast, first, last and their OrDefault forms
  // ---------------------------------------------------------------------------

  /** The first element the predicate accepts. */
  function FindFirst<T>(s: seq<T>, pred: Option<(T, Option<int>) -> bool>): (r: Option<T>)
    ensures r.None? <==> forall i :: 0 <= i < |s| ==> !Accepts(pred, s[i])
    ensures r.Some? ==> r.value in s && Accepts(pred, r.value)
  {
    var n := PrefixLength(s, (x, i) => !Accepts(pred, x));
    if n == |s| then None else Some(s[n])
  }

  /** FindFirst picks the accepted element that has no accepted one before it. */
  lemma FindFirstIsFirst<T>(s: seq<T>, pred: Option<(T, Option<int>) -> bool>, i: int)
    requires 0 <= i < |s| && Accepts(pred, s[i])
    requires forall j :: 0 <= j < i ==> !Accepts(pred, s[j])
    ensures FindFirst(s, pred) == Some(s[i])
  {
    PrefixLengthUnique(s, (x, k) => !Accepts(pred, x), i);
  }

  /** The last element the predicate accepts. */
  function FindLast<T>(s: seq<T>, pred: Option<(T, Option<int>) -> bool>): (r: Option<T>)
    ensures r.None? <==> forall i :: 0 <= i < |s| ==> !Accepts(pred, s[i])
    ensures r.Some? ==> r.value in s && Accepts(pred, r.value)
  {
    if s == [] then None
    else if Accepts(pred, Last(s)) then Some(Last(s))
    else
      var r := FindLast(Init(s), pred);
      assert forall i :: 0 <= i < |s| - 1 ==> Init(s)[i] == s[i];
      r
  }

  /** FindLast picks the accepted element that has no accepted one after it. */
  lemma {:induction false} FindLastIsLast<T>(s: seq<T>, pred: Option<(T, Option<int>) -> bool>, i: int)
    requires 0 <= i < |s| && Accepts(pred, s[i])
    requires forall j :: i < j < |s| ==> !Accepts(pred, s[j])
    ensures FindLast(s, pred) == Some(s[i])
  {
    if i < |s| - 1 {
      FindLastIsLast(Init(s), pred, i);
    }
  }

  /** tryGetFirst(source, predicate, result): whether an element was found, and
      the value written to `result.value`. An array without a predicate is read
      by index; otherwise the source is scanned until the first match. */
  method TryGetFirst<T>(kind: SourceKind, source: seq<T>, pred: Option<(T, Option<int>) -> bool>)
    returns (found: bool, value: Option<T>)
    ensures value == FindFirst(source, pred)
    ensures found <==> value.Some?
  {
    if kind == ArraySource && pred.None? {
      if |source| == 0 {
        return false, None;
      }
      FindFirstIsFirst(source, pred, 0);
      return true, Some(source[0]);
    }
    var i := 0;
    while i < |source|
      invariant 0 <= i <= |source|
      invariant forall j :: 0 <= j < i ==> !Accepts(pred, source[j])
    {
      var item := source[i];
      if pred.Some? {
        if pred.value(item, None) {
          FindFirstIsFirst(source, pred, i);
          return true, Some(item);
        }
      } else {
        FindFirstIsFirst(source, pred, i);
        return true, Some(item);
      }
      i := i + 1;
    }
    return false, None;
  }

  /** tryGetLast(source, predicate, result): as tryGetFirst, keeping the last
      match of a full scan. */
  method TryGetLast<T>(kind: SourceKind, source: seq<T>, pred: Option<(T, Option<int>) -> bool>)
    returns (found: bool, value: Option<T>)
    ensures value == FindLast(source, pred)
    ensures found <==> value.Some?
  {
    if kind == ArraySource && pred.None? {
      if |source| == 0 {
        return false, None;
      }
      return true, Some(source[|source| - 1]);
    }
    var last: Option<T> := None;
    found := false;
    var i := 0;
    while i < |source|
      invariant 0 <= i <= |source|
      invariant last == FindLast(source[..i], pred)
      invariant found <==> last.Some?
    {
      assert source[..i + 1][..i] == source[..i];
      var item := source[i];
      if pred.Some? {
        if pred.value(item, None) {
          last := Some(item);
          found := true;
        }
      } else {
        last := Some(item);
        found := true;
      }
      i := i + 1;
    }
    assert source[..i] == source;
    value := last;
  }

  /** first(predicate?): the first match, or an unnamed error. */
  method First<T>(kind: SourceKind, source: seq<T>, pred: Option<(T, Option<int>) -> bool>) returns (r: Result<T>)
    ensures FindFirst(source, pred).Some? ==> r == Ok(FindFirst(source, pred).value)
    ensures FindFirst(source, pred).None? ==> r == Err(Unnamed)
  {
    var found, value := TryGetFirst(kind, source, pred);
    if found {
      return Ok(value.value);
    }
    return Err(Unnamed);
  }

  /** firstOrDefault(predicate?): the first match; with none it executes
      `throw null` rather than returning a default. */
  method FirstOrDefault<T>(kind: SourceKind, source: seq<T>, pred: Option<(T, Option<int>) -> bool>) returns (r: Result<T>)
    ensures FindFirst(source, pred).Some? ==> r == Ok(FindFirst(source, pred).value)
    ensures FindFirst(source, pred).None? ==> r == Err(NullThrown)
  {
    var found, value := TryGetFirst(kind, source, pred);
    if found {
      return Ok(value.value);
    }
    return Err(NullThrown);
  }

  /** last(predicate?): the last match, or an unnamed error. */
  method LastOf<T>(kind: SourceKind, source: seq<T>, pred: Option<(T, Option<int>) -> bool>) returns (r: Result<T>)
    ensures FindLast(source, pred).Some? ==> r == Ok(FindLast(source, pred).value)
    ensures FindLast(source, pred).None? ==> r == Err(Unnamed)
  {
    var found, value := TryGetLast(kind, source, pred);
    if found {
      return Ok(value.value);
    }
    return Err(Unnamed);
  }

  /** lastOrDefault(predicate?): the last match; with none, `throw null`. */
  method LastOrDefault<T>(kind: SourceKind, source: seq<T>, pred: Option<(T, Option<int>) -> bool>) returns (r: Result<T>)
    ensures FindLast(source, pred).Some? ==> r == Ok(FindLast(source, pred).value)
    ensures FindLast(source, pred).None? ==> r == Err(NullThrown)
  {
    var found, value := TryGetLast(kind, source, pred);
    if found {
      return Ok(value.value);
    }
    return Err(NullThrown);
  }

  // ---------------------------------------------------------------------------
  // aggregate
  // ---------------------------------------------------------------------------

  /** The left fold of the accumulator over the source, from the seed: the
      first element is combined with the seed, and the rest fold from there. */
  function Fold<T, A>(func: (Option<A>, T) -> Option<A>, seed: Option<A>, s: seq<T>): (r: Option<A>)
    ensures s == [] ==> r == seed
    ensures s != [] ==> r == Fold(func, func(seed, s[0]), s[1..])
    decreases |s|
  {
    if s == [] then seed
    else
      assert |s| > 1 ==> Init(s[1..]) == Init(s)[1..] && Init(s)[0] == s[0];
      func(Fold(func, seed, Init(s)), Last(s))
  }

  /** Folding a concatenation is folding the second part from the first's result. */
  lemma {:induction false} FoldAppend<T, A>(func: (Option<A>, T) -> Option<A>, seed: Option<A>, s: seq<T>, t: seq<T>)
    ensures Fold(func, seed, s + t) == Fold(func, Fold(func, seed, s), t)
  {
    if t != [] {
      FoldAppend(func, seed, s, Init(t));
      assert Init(s + t) == s + Init(t);
    } else {
      assert s + t == s;
    }
  }

  /** What aggregate returns: the accumulator itself, or the result selector's
      value on it. */
  datatype Outcome<A, R> = Accumulated(acc: Option<A>) | Selected(result: R)

  function Finish<A, R>(resultSelector: Option<Option<A> -> R>, acc: Option<A>): Outcome<A, R>
  {
    if resultSelector.Some? then Selected(resultSelector.value(acc)) else Accumulated(acc)
  }

  /** aggregate(source, seed, func, resultSelector?): the fold, finished by the
      result selector when one is given; an empty source with a `null` seed
      throws "no elements". The test is `seed === null`, so `None` is `null`
      here and an `undefined` seed is an ordinary value of `A`, returned as
      the accumulator of an empty source. */
  method Aggregate<T, A, R>(source: seq<T>, seed: Option<A>, func: (Option<A>, T) -> Option<A>,
                            resultSelector: Option<Option<A> -> R>)
    returns (r: Result<Outcome<A, R>>)
    ensures source == [] && seed.None? ==> r == Err(NoElements)
    ensures source != [] || seed.Some? ==> r == Ok(Finish(resultSelector, Fold(func, seed, source)))
  {
    var firstDone := false;
    var current := seed;
    var i := 0;
    while i < |source|
      invariant 0 <= i <= |source|
      invariant current == Fold(func, seed, source[..i])
      invariant firstDone <==> i > 0
    {
      assert source[..i + 1][..i] == source[..i];
      current := func(current, source[i]);
      firstDone := true;
      i := i + 1;
    }
    assert source[..i] == source;
    if !firstDone && seed.None? {
      return Err(NoElements);
    }
    if resultSelector.Some? {
      r := Ok(Selected(resultSelector.value(current)));
    } else {
      r := Ok(Accumulated(current));
    }
  }

  /** The argument lists of `IterableEnumerable.aggregate`: a function in first
      place is the accumulator (and the second argument the result selector);
      anything else is the seed, followed by the accumulator and the result
      selector. */
  datatype AggregateArguments<!T, !A, R> =
    | FuncFirst(func: (Option<A>, T) -> Option<A>, second: Option<Option<A> -> R>)
    | SeedFirst(seed: Option<A>, accumulator: Option<(Option<A>, T) -> Option<A>>, resultSelector: Option<Option<A> -> R>)

  /** IterableEnumerable.aggregate: the unseeded form folds from a null seed;
      the seeded form throws "null func" without an accumulator. */
  method AggregateOverloads<T, A, R>(source: seq<T>, args: AggregateArguments<T, A, R>) returns (r: Result<Outcome<A, R>>)
    ensures args.FuncFirst? ==>
      r == (if source == [] then Err(NoElements) else Ok(Finish(args.second, Fold(args.func, None, source))))
    ensures args.SeedFirst? && args.accumulator.None? ==> r == Err(NullFunc)
    ensures args.SeedFirst? && args.accumulator.Some? ==>
      r == (if source == [] && args.seed.None? then Err(NoElements)
            else Ok(Finish(args.resultSelector, Fold(args.accumulator.value, args.seed, source))))
  {
    match args
    case FuncFirst(func, second) =>
      r := Aggregate(source, None, func, second);
    case SeedFirst(seed, accumulator, resultSelector) =>
      if accumulator.None? {
        return Err(NullFunc);
      }
      r := Aggregate(source, seed, accumulator.value, resultSelector);
  }

  // ---------------------------------------------------------------------------
  // all, any, contains, count
  // ---------------------------------------------------------------------------

  /** all(predicate): `every` on an array (the predicate sees each index), a
      scan stopping at the first rejection otherwise. */
  method All<T>(kind: SourceKind, source: seq<T>, pred: (T, Option<int>) -> bool) returns (b: bool)
    ensures b <==> forall i :: 0 <= i < |source| ==> pred(source[i], if kind == ArraySource then Some(i) else None)
  {
    if kind == ArraySource {
      return forall i | 0 <= i < |source| :: pred(source[i], Some(i));
    }
    var i := 0;
    while i < |source|
      invariant 0 <= i <= |source|
      invariant forall j :: 0 <= j < i ==> pred(source[j], None)
    {
      if !pred(source[i], None) {
        return false;
      }
      i := i + 1;
    }
    return true;
  }

  /** IterableEnumerable.all(predicate): "null predicate" without a predicate;
      otherwise the static `all` on the enumerable itself, which is not an
      array, so the scan. */
  method EnumerableAll<T>(source: seq<T>, pred: Option<(T, Option<int>) -> bool>) returns (r: Result<bool>)
    ensures pred.None? ==> r == Err(NullPredicate)
    ensures pred.Some? ==> r == Ok(forall i :: 0 <= i < |source| ==> pred.value(source[i], None))
  {
    if pred.None? {
      return Err(NullPredicate);
    }
    var b := All(OtherSource, source, pred.value);
    return Ok(b);
  }

  /** IterableEnumerable.any(predicate?): "null predicate" for a `null`
      predicate only; an omitted one reaches the static `any`, whose scan then
      accepts any element at all. */
  method EnumerableAny<T>(source: seq<T>, pred: Argument<(T, Option<int>) -> bool>) returns (r: Result<bool>)
    ensures pred.Null? ==> r == Err(NullPredicate)
    ensures pred.Undefined? ==> r == Ok(source != [])
    ensures pred.Given? ==> r == Ok(exists i :: 0 <= i < |source| && pred.value(source[i], None))
  {
    match pred
    case Null =>
      return Err(NullPredicate);
    case Undefined =>
      r := Any(OtherSource, source, None);
      assert source != [] ==> Accepts(None, source[0]);
    case Given(p) =>
      r := Any(OtherSource, source, Some(p));
  }

  /** any(predicate?): `some` on an array, which throws a TypeError when the
      predicate is missing; otherwise a scan where no predicate means "any
      element at all". */
  method Any<T>(kind: SourceKind, source: seq<T>, pred: Option<(T, Option<int>) -> bool>) returns (r: Result<bool>)
    ensures kind == ArraySource && pred.None? ==> r == Err(TypeError)
    ensures kind == ArraySource && pred.Some? ==>
      r == Ok(exists i :: 0 <= i < |source| && pred.value(source[i], Some(i)))
    ensures kind != ArraySource ==> r == Ok(exists i :: 0 <= i < |source| && Accepts(pred, source[i]))
  {
    if kind == ArraySource {
      if pred.None? {
        return Err(TypeError);
      }
      return Ok(exists i | 0 <= i < |source| :: pred.value(source[i], Some(i)));
    }
    var i := 0;
    while i < |source|
      invariant 0 <= i <= |source|
      invariant forall j :: 0 <= j < i ==> !Accepts(pred, source[j])
    {
      if Accepts(pred, source[i]) {
        return Ok(true);
      }
      i := i + 1;
    }
    return Ok(false);
  }

  /** Element equality under an optional comparer; `===` without one. */
  function Same<T(==)>(comparer: Option<(T, T) -> bool>, a: T, b: T): bool
  {
    if comparer.Some? then comparer.value(a, b) else a == b
  }

  /** contains(value, comparer?): `indexOf` on an array without a comparer, a
      scan otherwise, calling `comparer(element, value)`. */
  method Contains<T(==)>(kind: SourceKind, source: seq<T>, value: T, comparer: Option<(T, T) -> bool>) returns (b: bool)
    ensures b <==> exists i :: 0 <= i < |source| && Same(comparer, source[i], value)
  {
    if comparer.None? && kind == ArraySource {
      return IndexOf(source, value) >= 0;
    }
    var i := 0;
    while i < |source|
      invariant 0 <= i <= |source|
      invariant forall j :: 0 <= j < i ==> !Same(comparer, source[j], value)
    {
      if Same(comparer, source[i], value) {
        return true;
      }
      i := i + 1;
    }
    return false;
  }

  /** count(predicate?): the length (after spreading a non-array), or a scan
      that calls the predicate with the element alone, arrays included. The
      array and non-array branches give the same value (`source.length` is
      the length of `[...source]`), so `kind` takes no part in the result. */
  method Count<T>(kind: SourceKind, source: seq<T>, pred: Option<(T, Option<int>) -> bool>) returns (n: nat)
    ensures pred.None? ==> n == |source|
    ensures pred.Some? ==> n == Matching(source, pred.value, false)
  {
    if pred.None? {
      return |source|;
    }
    n := 0;
    var i := 0;
    while i < |source|
      invariant 0 <= i <= |source|
      invariant n == Matching(source[..i], pred.value, false)
    {
      assert source[..i + 1][..i] == source[..i];
      if pred.value(source[i], None) {
        n := n + 1;
      }
      i := i + 1;
    }
    assert source[..i] == source;
  }

  // ---------------------------------------------------------------------------
  // elementAt, elementAtOrDefault
  // ---------------------------------------------------------------------------

  /** elementAt(index): the element at the index, or "invalid index". */
  method ElementAt<T>(kind: SourceKind, source: seq<T>, index: int) returns (r: Result<T>)
    ensures 0 <= index < |source| ==> r == Ok(source[index])
    ensures !(0 <= index < |source|) ==> r == Err(InvalidIndex)
  {
    if kind == ArraySource {
      if index < 0 || index >= |source| {
        return Err(InvalidIndex);
      }
      return Ok(source[index]);
    }
    var elementIndex := 0;
    while elementIndex < |source|
      invariant 0 <= elementIndex <= |source|
      invariant elementIndex <= index || index < 0
    {
      if elementIndex == index {
        return Ok(source[elementIndex]);
      }
      elementIndex := elementIndex + 1;
    }
    return Err(InvalidIndex);
  }

  /** elementAtOrDefault(index): the element at the index; past either end,
      `undefined` from an array (reading `source[index]`) and `null` from any
      other source (the value returned after the scan). */
  method ElementAtOrDefault<T>(kind: SourceKind, source: seq<T>, index: int) returns (r: Argument<T>)
    ensures 0 <= index < |source| ==> r == Given(source[index])
    ensures !(0 <= index < |source|) && kind == ArraySource ==> r == Undefined
    ensures !(0 <= index < |source|) && kind != ArraySource ==> r == Null
  {
    if kind == ArraySource {
      return if 0 <= index < |source| then Given(source[index]) else Undefined;
    }
    var elementIndex := 0;
    while elementIndex < |source|
      invariant 0 <= elementIndex <= |source|
      invariant elementIndex <= index || index < 0
    {
      if elementIndex == index {
        return Given(source[elementIndex]);
      }
      elementIndex := elementIndex + 1;
    }
    return Null;
  }

  // ---------------------------------------------------------------------------
  // sequenceEqual
  // ---------------------------------------------------------------------------

  /** The number of leading positions where both sequences have equal elements. */
  function EqualPrefix<T(==)>(s: seq<T>, other: seq<T>, comparer: Option<(T, T) -> bool>): (n: nat)
    ensures n <= |s| && n <= |other|
    ensures forall i :: 0 <= i < n ==> Same(comparer, s[i], other[i])
    ensures n < |s| && n < |other| ==> !Same(comparer, s[n], other[n])
  {
    if s == [] || other == [] || !Same(comparer, s[0], other[0]) then 0
    else
      var n := EqualPrefix(s[1..], other[1..], comparer);
      assert forall i :: 1 <= i < n + 1 ==> s[i] == s[1..][i - 1] && other[i] == other[1..][i - 1];
      n + 1
  }

  /** sequenceEqual(other, comparer?): walks both sources in step and answers
      false at the first pair that differs or the first point where one ends
      before the other; two arrays of different lengths are rejected at once.
      `compared` is the number of pairs compared. */
  method SequenceEqual<T(==)>(kind: SourceKind, source: seq<T>, otherKind: SourceKind, other: seq<T>,
                              comparer: Option<(T, T) -> bool>)
    returns (b: bool, ghost compared: nat)
    ensures b <==> |source| == |other| && forall i :: 0 <= i < |source| ==> Same(comparer, source[i], other[i])
    ensures kind == ArraySource && otherKind == ArraySource && |source| != |other| ==> compared == 0
    ensures !(kind == ArraySource && otherKind == ArraySource && |source| != |other|) ==>
      compared == Min(EqualPrefix(source, other, comparer) + 1, Min(|source|, |other|))
  {
    if kind == ArraySource && otherKind == ArraySource {
      if |source| != |other| {
        return false, 0;
      }
    }
    var n := EqualPrefix(source, other, comparer);
    var i := 0;
    compared := 0;
    while true
      invariant 0 <= i <= n
      invariant compared == i
      decreases |source| - i
    {
      var sourceDone := i >= |source|;
      var otherDone := i >= |other|;
      if sourceDone && otherDone {
        break;
      }
      if sourceDone != otherDone {
        return false, compared;
      }
      compared := compared + 1;
      if !Same(comparer, source[i], other[i]) {
        return false, compared;
      }
      i := i + 1;
    }
    return true, compared;
  }

  // ---------------------------------------------------------------------------
  // single, singleOrDefault
  // ---------------------------------------------------------------------------

  /** The count of matches is the length of the filtered list. */
  lemma {:induction false} MatchingIsFilterLength<T>(s: seq<T>, pred: (T, Option<int>) -> bool)
    ensures Matching(s, pred, false) == |Filter(s, Unindexed(pred))|
  {
    if s != [] {
      MatchingIsFilterLength(Init(s), pred);
    }
  }

  /** No matches exactly when the predicate rejects every element. */
  lemma {:induction false} MatchingNone<T>(s: seq<T>, pred: (T, Option<int>) -> bool)
    ensures Matching(s, pred, false) == 0 <==> forall i :: 0 <= i < |s| ==> !pred(s[i], None)
  {
    if s != [] {
      MatchingNone(Init(s), pred);
      assert forall i :: 0 <= i < |s| - 1 ==> Init(s)[i] == s[i];
    }
  }

  /** single(predicate?): the one match; "no elements" with none and "more
      than one element" with several. Without a predicate the filter calls
      `undefined` on the first element, a TypeError; an empty source never
      calls it and has no elements. */
  function Single<T>(s: seq<T>, pred: Option<(T, Option<int>) -> bool>): (r: Result<T>)
    ensures pred.None? ==> r == if s == [] then Err(NoElements) else Err(TypeError)
    ensures pred.Some? ==> (r.Ok? <==> Matching(s, pred.value, false) == 1)
    ensures pred.Some? ==> (r == Err(NoElements) <==> forall i :: 0 <= i < |s| ==> !pred.value(s[i], None))
    ensures pred.Some? ==> (r == Err(MoreThanOneElement) <==> Matching(s, pred.value, false) > 1)
    ensures r.Ok? ==> pred.Some? && r.value in s && pred.value(r.value, None)
  {
    if pred.None? then
      if s == [] then Err(NoElements) else Err(TypeError)
    else
      var resultList := Filter(s, Unindexed(pred.value));
      MatchingIsFilterLength(s, pred.value);
      MatchingNone(s, pred.value);
      FilterMembers(s, Unindexed(pred.value));
      if |resultList| == 1 then
        assert resultList[0] in resultList;
        Ok(resultList[0])
      else if |resultList| < 1 then Err(NoElements)
      else Err(MoreThanOneElement)
  }

  /** singleOrDefault(predicate): the one match, or `null` unless there is
      exactly one. */
  function SingleOrDefault<T>(s: seq<T>, pred: (T, Option<int>) -> bool): (r: Option<T>)
    ensures r.Some? <==> Matching(s, pred, false) == 1
    ensures r.Some? ==> r.value in s && pred(r.value, None)
  {
    var resultList := Filter(s, Unindexed(pred));
    MatchingIsFilterLength(s, pred);
    FilterMembers(s, Unindexed(pred));
    if |resultList| == 1 then
      assert resultList[0] in resultList;
      Some(resultList[0])
    else None
  }

  // ---------------------------------------------------------------------------
  // toDictionary, toLookup
  // ---------------------------------------------------------------------------

  /** A JavaScript `Map`: its keys in insertion order and its entries. */
  datatype Dictionary<K, V> = Dictionary(order: seq<K>, entries: map<K, V>)

  /** The key of element i. */
  function KeyAt<T, K>(s: seq<T>, keySelector: (T, int) -> K, i: int): K
    requires 0 <= i < |s|
  {
    keySelector(s[i], i)
  }

  /** The value stored for element i: the element selector's, or the element. */
  function ValueAt<T>(s: seq<T>, elementSelector: Option<(T, int) -> T>, i: int): T
    requires 0 <= i < |s|
  {
    if elementSelector.Some? then elementSelector.value(s[i], i) else s[i]
  }

  /** Each key is in the order once, and the order holds exactly the keys of the entries. */
  ghost predicate Consistent<K, V>(d: Dictionary<K, V>)
  {
    (forall i, j :: 0 <= i < j < |d.order| ==> d.order[i] != d.order[j])
    && Elements(d.order) == d.entries.Keys
  }

  /** One step of toDictionary: with a comparer, a key the comparer finds
      equal to one already added throws "duplicated key"; otherwise the value
      is set, a new key entering the order. */
  function AddEntry<K(==), V>(d: Dictionary<K, V>, key: K, value: V, comparer: Option<(K, K) -> bool>)
    : (r: Result<Dictionary<K, V>>)
    requires Consistent(d)
    ensures r.Ok? ==> Consistent(r.value) && r.value.entries == d.entries[key := value]
    ensures r.Err? <==> comparer.Some? && exists k :: k in d.entries && comparer.value(k, key)
  {
    if comparer.Some? && exists k :: k in d.order && comparer.value(k, key) then Err(DuplicatedKey)
    else
      assert key !in d.entries ==> key !in d.order;
      Ok(Dictionary(if key in d.entries then d.order else d.order + [key], d.entries[key := value]))
  }

  /** What toDictionary builds: each element's value set under its key, in
      source order. */
  function DictionaryOf<T, K(==)>(s: seq<T>, keySelector: (T, int) -> K, elementSelector: Option<(T, int) -> T>,
                                  comparer: Option<(K, K) -> bool>): (r: Result<Dictionary<K, T>>)
    ensures r.Err? ==> r == Err(DuplicatedKey) && comparer.Some?
    ensures r.Ok? ==> Consistent(r.value)
  {
    if s == [] then Ok(Dictionary([], map[]))
    else
      match DictionaryOf(Init(s), keySelector, elementSelector, comparer)
      case Err(e) => Err(e)
      case Ok(d) => AddEntry(d, KeyAt(s, keySelector, |s| - 1), ValueAt(s, elementSelector, |s| - 1), comparer)
  }

  /** Keys and values of the elements before the last are those of `Init(s)`. */
  lemma InitKeysValues<T, K>(s: seq<T>, keySelector: (T, int) -> K, elementSelector: Option<(T, int) -> T>)
    requires s != []
    ensures forall j :: 0 <= j < |s| - 1 ==>
              KeyAt(Init(s), keySelector, j) == KeyAt(s, keySelector, j)
              && ValueAt(Init(s), elementSelector, j) == ValueAt(s, elementSelector, j)
  {
    assert forall j :: 0 <= j < |s| - 1 ==> Init(s)[j] == s[j];
  }

  /** The dictionary's keys are exactly the selected keys. */
  lemma {:induction false} DictionaryKeys<T, K>(s: seq<T>, keySelector: (T, int) -> K, elementSelector: Option<(T, int) -> T>,
                                               comparer: Option<(K, K) -> bool>)
    requires DictionaryOf(s, keySelector, elementSelector, comparer).Ok?
    ensures DictionaryOf(s, keySelector, elementSelector, comparer).value.entries.Keys == Elements(Select(s, keySelector))
  {
    if s != [] {
      DictionaryKeys(Init(s), keySelector, elementSelector, comparer);
      var key := keySelector(Last(s), |s| - 1);
      assert KeyAt(s, keySelector, |s| - 1) == key;
      assert Select(s, keySelector) == Select(Init(s), keySelector) + [key];
      assert Elements(Select(s, keySelector)) == Elements(Select(Init(s), keySelector)) + {key};
    }
  }

  /** Without a comparer toDictionary never throws, and each key keeps the
      value of its last element: a later value overwrites an earlier one. */
  lemma {:induction false} DictionaryLastWins<T, K>(s: seq<T>, keySelector: (T, int) -> K, elementSelector: Option<(T, int) -> T>)
    ensures DictionaryOf(s, keySelector, elementSelector, None).Ok?
    ensures forall i :: 0 <= i < |s| && (forall j :: i < j < |s| ==> KeyAt(s, keySelector, j) != KeyAt(s, keySelector, i)) ==>
              KeyAt(s, keySelector, i) in DictionaryOf(s, keySelector, elementSelector, None).value.entries
              && DictionaryOf(s, keySelector, elementSelector, None).value.entries[KeyAt(s, keySelector, i)] == ValueAt(s, elementSelector, i)
  {
    if s != [] {
      var n := |s| - 1;
      DictionaryLastWins(Init(s), keySelector, elementSelector);
      InitKeysValues(s, keySelector, elementSelector);
      var d := DictionaryOf(Init(s), keySelector, elementSelector, None).value;
      var entries := DictionaryOf(s, keySelector, elementSelector, None).value.entries;
      assert entries == d.entries[KeyAt(s, keySelector, n) := ValueAt(s, elementSelector, n)];
      forall i | 0 <= i < n && (forall j :: i < j < |s| ==> KeyAt(s, keySelector, j) != KeyAt(s, keySelector, i))
        ensures KeyAt(s, keySelector, i) in entries && entries[KeyAt(s, keySelector, i)] == ValueAt(s, elementSelector, i)
      {
        assert KeyAt(s, keySelector, n) != KeyAt(s, keySelector, i);
        assert forall j :: i < j < n ==> KeyAt(Init(s), keySelector, j) != KeyAt(Init(s), keySelector, i);
      }
    }
  }

  /** After a prefix that does not throw, the last element throws exactly when
      its key is equal, by the comparer, to an earlier element's key. */
  lemma DuplicatesOfLast<T, K>(s: seq<T>, keySelector: (T, int) -> K, elementSelector: Option<(T, int) -> T>,
                               comparer: (K, K) -> bool)
    requires s != []
    requires DictionaryOf(Init(s), keySelector, elementSelector, Some(comparer)).Ok?
    ensures DictionaryOf(s, keySelector, elementSelector, Some(comparer)).Err?
            <==> exists i :: 0 <= i < |s| - 1 && comparer(KeyAt(s, keySelector, i), KeyAt(s, keySelector, |s| - 1))
  {
    var n := |s| - 1;
    var d := DictionaryOf(Init(s), keySelector, elementSelector, Some(comparer)).value;
    var key := KeyAt(s, keySelector, n);
    var earlier := Select(Init(s), keySelector);
    DictionaryKeys(Init(s), keySelector, elementSelector, Some(comparer));
    InitKeysValues(s, keySelector, elementSelector);
    if exists k :: k in d.entries && comparer(k, key) {
      var k :| k in d.entries && comparer(k, key);
      assert k in earlier;
      var i :| 0 <= i < n && earlier[i] == k;
      assert comparer(KeyAt(s, keySelector, i), key);
    } else {
      forall i | 0 <= i < n
        ensures !comparer(KeyAt(s, keySelector, i), key)
      {
        assert earlier[i] in d.entries;
      }
    }
  }

  /** A pair of positions lies before the last one, or ends at it. */
  lemma SplitPairs<T, K>(s: seq<T>, keySelector: (T, int) -> K, comparer: (K, K) -> bool)
    requires s != []
    ensures (exists i, j :: 0 <= i < j < |s| && comparer(KeyAt(s, keySelector, i), KeyAt(s, keySelector, j)))
            <==> (exists i, j :: 0 <= i < j < |s| - 1 && comparer(KeyAt(Init(s), keySelector, i), KeyAt(Init(s), keySelector, j)))
                 || (exists i :: 0 <= i < |s| - 1 && comparer(KeyAt(s, keySelector, i), KeyAt(s, keySelector, |s| - 1)))
  {
    InitKeysValues(s, keySelector, None);
    if exists i, j :: 0 <= i < j < |s| && comparer(KeyAt(s, keySelector, i), KeyAt(s, keySelector, j)) {
      var i, j :| 0 <= i < j < |s| && comparer(KeyAt(s, keySelector, i), KeyAt(s, keySelector, j));
      if j < |s| - 1 {
        assert comparer(KeyAt(Init(s), keySelector, i), KeyAt(Init(s), keySelector, j));
      }
    }
    if exists i, j :: 0 <= i < j < |s| - 1 && comparer(KeyAt(Init(s), keySelector, i), KeyAt(Init(s), keySelector, j)) {
      var i, j :| 0 <= i < j < |s| - 1 && comparer(KeyAt(Init(s), keySelector, i), KeyAt(Init(s), keySelector, j));
      assert comparer(KeyAt(s, keySelector, i), KeyAt(s, keySelector, j));
    }
  }

  /** With a comparer toDictionary throws "duplicated key" exactly when some
      element's key is equal, by the comparer, to the key of an earlier one. */
  lemma {:induction false} DictionaryDuplicates<T, K>(s: seq<T>, keySelector: (T, int) -> K, elementSelector: Option<(T, int) -> T>,
                                                     comparer: (K, K) -> bool)
    ensures DictionaryOf(s, keySelector, elementSelector, Some(comparer)).Err?
            <==> exists i, j :: 0 <= i < j < |s| && comparer(KeyAt(s, keySelector, i), KeyAt(s, keySelector, j))
  {
    if s != [] {
      DictionaryDuplicates(Init(s), keySelector, elementSelector, comparer);
      SplitPairs(s, keySelector, comparer);
      if DictionaryOf(Init(s), keySelector, elementSelector, Some(comparer)).Ok? {
        DuplicatesOfLast(s, keySelector, elementSelector, comparer);
      }
    }
  }

  /** One entry per distinct key. */
  lemma DictionarySize<T, K>(s: seq<T>, keySelector: (T, int) -> K, elementSelector: Option<(T, int) -> T>,
                             comparer: Option<(K, K) -> bool>)
    requires DictionaryOf(s, keySelector, elementSelector, comparer).Ok?
    ensures |DictionaryOf(s, keySelector, elementSelector, comparer).value.entries|
            == |DictionaryOf(s, keySelector, elementSelector, comparer).value.order|
  {
    DistinctCard(DictionaryOf(s, keySelector, elementSelector, comparer).value.order);
  }

  /** Extending the source by one element adds that element's entry. */
  lemma DictionaryStep<T, K>(s: seq<T>, n: nat, keySelector: (T, int) -> K, elementSelector: Option<(T, int) -> T>,
                             comparer: Option<(K, K) -> bool>)
    requires n < |s|
    requires DictionaryOf(s[..n], keySelector, elementSelector, comparer).Ok?
    ensures DictionaryOf(s[..n + 1], keySelector, elementSelector, comparer)
            == AddEntry(DictionaryOf(s[..n], keySelector, elementSelector, comparer).value,
                        keySelector(s[n], n), ValueAt(s, elementSelector, n), comparer)
  {
    assert Init(s[..n + 1]) == s[..n];
    assert KeyAt(s[..n + 1], keySelector, n) == keySelector(s[n], n);
    assert ValueAt(s[..n + 1], elementSelector, n) == ValueAt(s, elementSelector, n);
  }

  /** A failure of toDictionary over a prefix is its failure over the whole source. */
  lemma {:induction false} DictionaryErrSticky<T, K>(s: seq<T>, n: nat, keySelector: (T, int) -> K, elementSelector: Option<(T, int) -> T>,
                                                    comparer: Option<(K, K) -> bool>)
    requires n <= |s|
    requires DictionaryOf(s[..n], keySelector, elementSelector, comparer).Err?
    ensures DictionaryOf(s, keySelector, elementSelector, comparer) == Err(DuplicatedKey)
    decreases |s| - n
  {
    if n < |s| {
      assert Init(s[..n + 1]) == s[..n];
      DictionaryErrSticky(s, n + 1, keySelector, elementSelector, comparer);
    } else {
      assert s[..n] == s;
    }
  }

  /** A step of toDictionary whose key the comparer finds equal to no earlier
      key sets the value, a new key entering the order. */
  lemma DictionaryStepOk<T, K>(s: seq<T>, n: nat, keySelector: (T, int) -> K, elementSelector: Option<(T, int) -> T>,
                               comparer: Option<(K, K) -> bool>, keys: seq<K>, result: map<K, T>)
    requires n < |s|
    requires DictionaryOf(s[..n], keySelector, elementSelector, comparer) == Ok(Dictionary(keys, result))
    requires comparer.Some? ==> forall i :: 0 <= i < |keys| ==> !comparer.value(keys[i], keySelector(s[n], n))
    ensures var key := keySelector(s[n], n);
      DictionaryOf(s[..n + 1], keySelector, elementSelector, comparer)
      == Ok(Dictionary(if key in result then keys else keys + [key], result[key := ValueAt(s, elementSelector, n)]))
  {
    DictionaryStep(s, n, keySelector, elementSelector, comparer);
    assert forall k :: k in result ==> k in keys;
  }

  /** A step of toDictionary whose key the comparer finds equal to an earlier
      one throws, and so does the whole pass. */
  lemma DictionaryStepErr<T, K>(s: seq<T>, n: nat, keySelector: (T, int) -> K, elementSelector: Option<(T, int) -> T>,
                                comparer: (K, K) -> bool, keys: seq<K>, result: map<K, T>, i: nat)
    requires n < |s|
    requires DictionaryOf(s[..n], keySelector, elementSelector, Some(comparer)) == Ok(Dictionary(keys, result))
    requires i < |keys| && comparer(keys[i], keySelector(s[n], n))
    ensures DictionaryOf(s, keySelector, elementSelector, Some(comparer)) == Err(DuplicatedKey)
  {
    DictionaryStep(s, n, keySelector, elementSelector, Some(comparer));
    assert keys[i] in result;
    DictionaryErrSticky(s, n + 1, keySelector, elementSelector, Some(comparer));
  }

  /** toDictionary(keySelector, elementSelector, comparer): one pass filling a
      `Map` of values and a `Set` of keys; with a comparer each new key is
      first looked up in that set through `contains(key, comparer)`, which
      calls `comparer(earlierKey, key)`. */
  method ToDictionary<T, K(==)>(source: seq<T>, keySelector: (T, int) -> K, elementSelector: Option<(T, int) -> T>,
                                comparer: Option<(K, K) -> bool>)
    returns (r: Result<Dictionary<K, T>>)
    ensures r == DictionaryOf(source, keySelector, elementSelector, comparer)
  {
    var result: map<K, T> := map[];
    var keys: seq<K> := [];
    var index := 0;
    while index < |source|
      invariant 0 <= index <= |source|
      invariant DictionaryOf(source[..index], keySelector, elementSelector, comparer) == Ok(Dictionary(keys, result))
    {
      var element := source[index];
      var key := keySelector(element, index);
      if comparer.Some? {
        var duplicated := Contains(SetSource, keys, key, comparer);
        if duplicated {
          var i :| 0 <= i < |keys| && comparer.value(keys[i], key);
          DictionaryStepErr(source, index, keySelector, elementSelector, comparer.value, keys, result, i);
          return Err(DuplicatedKey);
        }
      }
      var selectedElement;
      if elementSelector.Some? {
        selectedElement := elementSelector.value(element, index);
      } else {
        selectedElement := element;
      }
      DictionaryStepOk(source, index, keySelector, elementSelector, comparer, keys, result);
      if key !in result {
        keys := keys + [key];
      }
      result := result[key := selectedElement];
      index := index + 1;
    }
    assert source[..index] == source;
    r := Ok(Dictionary(keys, result));
  }

  /** toLookup(keySelector, elementSelector?): checks both selectors, then
      `Lookup.create`. */
  method ToLookup<T, K(==), E>(source: seq<T>, keySelector: Option<(T, int) -> K>, elementSelector: Option<(T, int) -> E>)
    returns (r: Result<Lookup<K, E>>)
    ensures keySelector.None? ==> r == Err(NullArgument("keySelector"))
    ensures keySelector.Some? && elementSelector.None? ==> r == Err(NullArgument("elementSelector"))
    ensures keySelector.Some? && elementSelector.Some? ==>
      r.Ok? && fresh(r.value) && r.value.Valid() && r.value.cache == map[]
      && Groups(r.value.keys, r.value.mappedArrays) == GroupsOf(source, keySelector.value, elementSelector.value)
  {
    if keySelector.None? {
      return Err(NullArgument("keySelector"));
    }
    if elementSelector.None? {
      return Err(NullArgument("elementSelector"));
    }
    r := Lookup.Create(source, keySelector, elementSelector);
  }

  // ---------------------------------------------------------------------------
  // orderBy, orderByDescending
  // ---------------------------------------------------------------------------

  /** The comparer of orderBy (`a.key < b.key` first) or orderByDescending on
      key/value pairs; it agrees with createComparer on the keys. */
  function KeyOrder<T(!new)>(descending: bool): (c: Comparer<KeyValue<int, T>>)
    ensures forall a, b :: c(a, b) == ThreeWay(a.key, b.key, descending)
  {
    if descending then
      (a: KeyValue<int, T>, b: KeyValue<int, T>) => if a.key < b.key then 1 else if a.key > b.key then -1 else 0
    else
      (a: KeyValue<int, T>, b: KeyValue<int, T>) => if a.key < b.key then -1 else if a.key > b.key then 1 else 0
  }

  lemma ValuesCons<K, V>(h: KeyValue<K, V>, t: seq<KeyValue<K, V>>)
    ensures Values([h] + t) == [h.value] + Values(t)
  {
    assert ([h] + t)[1..] == t;
  }

  lemma {:induction false} ValuesInsertFront<T>(x: KeyValue<int, T>, t: seq<KeyValue<int, T>>, c: Comparer<KeyValue<int, T>>)
    ensures multiset(Values(InsertFront(x, t, c))) == multiset{x.value} + multiset(Values(t))
  {
    if t == [] {
      assert InsertFront(x, t, c) == [x];
    } else if c(x, t[0]) <= 0 {
      assert InsertFront(x, t, c) == [x] + t;
      ValuesCons(x, t);
    } else {
      var rest := InsertFront(x, t[1..], c);
      ValuesInsertFront(x, t[1..], c);
      assert InsertFront(x, t, c) == [t[0]] + rest;
      ValuesCons(t[0], rest);
      assert t == [t[0]] + t[1..];
      ValuesCons(t[0], t[1..]);
      assert multiset(Values(InsertFront(x, t, c))) == multiset{t[0].value} + multiset(Values(rest));
    }
  }

  /** Sorting pairs permutes their values. */
  lemma {:induction false} ValuesSort<T>(t: seq<KeyValue<int, T>>, c: Comparer<KeyValue<int, T>>)
    ensures multiset(Values(Sort(t, c))) == multiset(Values(t))
  {
    if t != [] {
      var rest := Sort(t[1..], c);
      ValuesSort(t[1..], c);
      ValuesInsertFront(t[0], rest, c);
      assert Sort(t, c) == InsertFront(t[0], rest, c);
      assert Values(t) == [t[0].value] + Values(t[1..]);
    }
  }

  /** orderBy / orderByDescending(keySelector): the key/value pairs of a fresh
      KeyValueGenerator sorted stably by key, then their values. `sorted` is
      the sorted array of pairs: a permutation of the source's pairs, ordered
      by key, with equal keys in source order. */
  method OrderBy<T(!new)>(source: seq<T>, keySelector: (T, int) -> int, descending: bool)
    returns (out: seq<T>, ghost sorted: seq<KeyValue<int, T>>)
    ensures multiset(out) == multiset(source)
    ensures out == Values(sorted)
    ensures multiset(sorted) == multiset(KeyValues(source, keySelector, None, 0))
    ensures forall i, j :: 0 <= i < j < |sorted| ==>
              if descending then sorted[i].key >= sorted[j].key else sorted[i].key <= sorted[j].key
    ensures forall y :: Ties(sorted, y, KeyOrder(descending)) == Ties(KeyValues(source, keySelector, None, 0), y, KeyOrder(descending))
  {
    var keyValueIterator := new KeyValueGenerator(source, keySelector, None);
    var pairs := keyValueIterator.Iterate();
    var c := KeyOrder(descending);
    KeyedComparerValid(c, (p: KeyValue<int, T>) => p.key, descending);
    var sortedPairs := Sort(pairs, c);
    sorted := sortedPairs;
    SortSorted(pairs, c);
    forall y
      ensures Ties(sorted, y, c) == Ties(pairs, y, c)
    {
      SortStable(pairs, y, c);
    }
    forall i, j | 0 <= i < j < |sorted|
      ensures if descending then sorted[i].key >= sorted[j].key else sorted[i].key <= sorted[j].key
    {
      assert c(sorted[i], sorted[j]) <= 0;
    }
    out := Values(sortedPairs);
    ValuesSort(pairs, c);
    ValuesOfKeyValues(source, keySelector, 0);
  }

  // ---------------------------------------------------------------------------
  // range, repeat, repeatElement
  // ---------------------------------------------------------------------------

  /** range(start, end, step?): a pass of a new NumberGenerator. */
  method Range(start: int, end: int, step: Option<int>) returns (out: seq<int>)
    requires StepOrOne(step) > 0 || end <= start
    ensures out == NumberRange(start, end, StepOrOne(step))
  {
    var generator := new NumberGenerator(start, end, step);
    out := generator.Iterate();
  }

  /** repeat(element, count): a UserGenerator whose callback always returns the
      element, so exactly `count` copies of it (none for a negative count). The
      generator skips `undefined` results, so an `undefined` element (`None`)
      yields nothing; `null` is an ordinary value of `T` and is repeated. */
  method Repeat<T>(element: Option<T>, count: int) returns (out: seq<T>)
    ensures element.None? ==> out == []
    ensures element.Some? ==> |out| == (if count < 0 then 0 else count)
    ensures element.Some? ==> forall i :: 0 <= i < |out| ==> out[i] == element.value
  {
    var callback := (index: int, userData: Option<int>) => element;
    var generator := new UserGenerator(callback, count, None);
    out := generator.Iterate();
    GeneratedLength(callback, None, count);
  }

  /** repeatElement(callback, count, userData?): a pass of a UserGenerator. */
  method RepeatElement<D, V>(callback: (int, D) -> Option<V>, count: int, userData: D) returns (out: seq<V>)
    ensures out == Generated(callback, userData, count)
  {
    var generator := new UserGenerator(callback, count, userData);
    out := generator.Iterate();
  }
}
