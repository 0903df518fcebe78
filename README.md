# linq-g query engine in Dafny

linq-g is a TypeScript library of lazy, LINQ-style queries over iterables.
This project models its query engine and proves properties of the model:

- the stage iterators of `src/Iterators.ts`, one class per operator, each
  with its `_index`/`_current` cursor, its `reset()` and any state it keeps
  between passes (the seen-set of distinct, the seen-list of union, the
  latch of skipWhile); the queues of skipLast and takeLast are local to each pass;
- the ordering comparers (`createComparer`, `composeComparers`) and the
  ordered iterators, with the sort as a stable insertion sort;
- the lookup engine of `src/Lookup.ts` and `src/Grouping.ts`: the
  insertion-ordered key → list map of `mapAsGroups`, the memoised
  groupings of `Lookup.item`, and the memoised lookup of the grouped
  enumerables;
- the terminal operators of `EnumerableExtensions` (`src/Enumerable.ts`),
  the overload resolution of `IterableEnumerable.aggregate`, and the
  generators of `src/Generators.ts`;
- `countIterable` of `src/Functions.ts`.

An upstream iterable is a `seq<T>`: what one pass over it yields. A callback
is a Dafny function value. An absent value is `Option.None`: `undefined`, or
`null` where the code treats the two alike. Where the code tells them
apart, `None` is the one it tests and the other is an ordinary value of the
element type: `undefined` for a UserGenerator callback's result and for
`repeat`'s element, `null` for `aggregate`'s seed. The `predicate` of
`IterableEnumerable.any` and the result of `elementAtOrDefault` take all
three cases, as an `Argument`. A thrown error is `Result.Err`, with one
`Error` constructor per message. A pass that yields some items and then throws is a
`Pass(items, Some(error))`. Array-versus-other dispatch (`instanceof Array`,
`Set`, `Map`) is a `SourceKind` parameter.

Each operator has a pure specification function in `Stages`, `Lookups`,
`Ordering`, `Generators` or `EnumerableExtensions`. The class method that
mirrors the source's loop is proved to compute it. Lemmas then prove what
the library promises about that function.

Modules, in dependency order:

| module | file | contents |
|---|---|---|
| `Wrappers` | wrappers.dfy | `Option`, `Argument`, `Result`, `Error`, `Pass` |
| `Functions` | functions.dfy | `countIterable` |
| `Stages` | stages.dfy | what one pass of each stage iterator yields |
| `Groupings` | groupings.dfy | `Grouping` |
| `Lookups` | lookups.dfy | `mapAsGroups`, `Lookup` |
| `Iterators` | iterators.dfy | simple, append, prepend, concat, defaultIfEmpty, where, select, selectMany, skip, take, takeWhile, skipWhile, reverse, zip |
| `WindowIterators` | window_iterators.dfy | skipLast, takeLast |
| `SetIterators` | set_iterators.dfy | distinct, except, intersect, union |
| `GroupIterators` | group_iterators.dfy | group, groupElement, groupResult, groupJoin, join |
| `Ordering` | ordering.dfy | comparers, stable sort, ordered iterators |
| `Generators` | generators.dfy | `UserGenerator`, `NumberGenerator`, `KeyValueGenerator` |
| `GroupedEnumerables` | grouped.dfy | `GroupedEnumerable`, `GroupedResultEnumerable` |
| `EnumerableExtensions` | enumerable.dfy | terminal operators, toDictionary, toLookup, orderBy, range, repeat |

### Where the code departs from the semantics of .NET LINQ (System.Linq.Enumerable)

- **join with an unmatched key.** `JoinIterator` iterates the `undefined`
  returned by `lookup.item` for an outer key with no inner group. That throws
  a TypeError after the rows already yielded. It does not skip the element.
- **zip is a cartesian product.** `ZipIterator` is two nested loops: every
  element of the second sequence (outer) with every element of the source
  (inner). It is not a positional pairing.
- **Unseeded aggregate.** `aggregate(func)` calls the static aggregate with
  a `null` seed, so `func` first receives `null`. It does not start from the
  first element.
- **firstOrDefault / lastOrDefault.** With no match they execute
  `throw null`. They do not return a default.
- **groupBy without an element selector.** The grouped enumerables' constructors
  check only the key selector (twice). `Lookup.create` then asserts that an
  element selector is present. So such a `groupBy` builds without complaint
  and fails on its first enumeration or count.

## Model

| member | source | states |
|---|---|---|
| Functions.Matching | src/Functions.ts:32-45 | the number of elements a predicate accepts is at most the number of elements |
| Functions.CountIterable | src/Functions.ts:12-46 | no predicate: the element count, whichever size shortcut applies; a predicate: the number of elements it accepts, with the index passed only for arrays |
| Functions.MatchingAll | src/Functions.ts:12-46 | an always-true predicate counts every element, as no predicate does |
| Functions.MatchingComplement | src/Functions.ts:32-45 | the counts of a predicate and its negation add up to the element count |
| Functions.MatchingIgnoresIndex | src/Functions.ts:33-41 | a predicate that ignores the index counts the same on arrays and on other iterables |
| Stages.Where | src/Iterators.ts:783-793 | where yields at most the upstream's elements, only upstream elements, and every element whose (element, index) the predicate accepts |
| Stages.KeptPositions | src/Iterators.ts:783-793 | the positions where yields come from are strictly increasing upstream positions, one per yielded element |
| Stages.WhereAtKept | src/Iterators.ts:783-793 | the k-th yielded element is the upstream element at the k-th kept position, so order is preserved |
| Stages.KeptExactly | src/Iterators.ts:783-793 | a position is kept exactly when the predicate accepts its element and index |
| Stages.Filter | src/Enumerable.ts:613-632 | the filtered list is no longer than the source, holds only source elements, and holds every element the predicate accepts |
| Stages.FilterMembers | src/Enumerable.ts:613-632 | filtering keeps exactly the elements the predicate accepts |
| Stages.FilterPartition | src/Enumerable.ts:613-632 | a filter and the filter of the negation together are a permutation of the source |
| Stages.FilterAll | src/Enumerable.ts:613-632 | a filter that accepts every element returns the source unchanged |
| Stages.Select | src/Iterators.ts:527-534 | select preserves length and yields selector(s[i], i) at position i |
| Stages.SelectMany | src/Iterators.ts:546-555 | every value of every selector result occurs in what selectMany yields |
| Stages.SelectManySingletons | src/Iterators.ts:546-555 | selectMany over singleton results is select |
| Stages.WhereIsSelectMany | src/Iterators.ts:546-555 | where is selectMany over an empty or singleton result per element |
| Stages.WhereThenSelect | src/Iterators.ts:527-555 | select after filter equals one selectMany that maps accepted elements and drops the rest |
| Stages.Skip | src/Iterators.ts:567-577 | skip yields only source elements, no more of them than the source has, and every element at a position at or past the count |
| Stages.SkipIsSuffix | src/Iterators.ts:567-577 | skip(n) yields the suffix from position n: everything for n <= 0, nothing for n >= length |
| Stages.PrefixLength | src/Iterators.ts:731-741 | the longest prefix whose every element and index the predicate accepts; the next element is rejected |
| Stages.TakeWhile | src/Iterators.ts:731-741 | takeWhile yields a prefix of the upstream whose every element and index the predicate accepts, stopping only at the end or at a rejected element |
| Stages.SkipWhile | src/Iterators.ts:628-641 | with the latch set, skipWhile yields a suffix whose dropped prefix the predicate accepts throughout and whose first element it rejects; with the latch cleared, the whole upstream |
| Stages.Take | src/Iterators.ts:653-663 | take yields a prefix of the upstream of at most the count elements, shorter than the upstream only when it reaches the count |
| Stages.PrefixLengthUnique | src/Iterators.ts:731-741 | that length is the only one with an accepted prefix followed by a rejection |
| Stages.TakeIsPrefix | src/Iterators.ts:653-663 | take(n) yields the prefix of length min(n, length), empty for n <= 0 |
| Stages.TakeWhileSkipWhile | src/Iterators.ts:628-641 | takeWhile and skipWhile of a fresh latch split the upstream into two parts |
| Stages.SkipLast | src/Iterators.ts:589-615 | a negative count yields nothing; a count of 0 yields `undefined` first and then every element but the last; a count c >= 1 yields all but the last min(c, length) elements, in order |
| Stages.TakeLast | src/Iterators.ts:675-719 | an unnamed error exactly for a non-empty source with a count <= 0; otherwise the last min(count, length) elements in source order, none for a count <= 0 |
| Stages.Somes | src/Iterators.ts:589-615 | the yielded elements of a queue that never dequeues empty: each element wrapped, in order |
| Stages.SkipLastTakeLast | src/Iterators.ts:589-615 | for a count of at least one, takeLast succeeds, and skipLast followed by takeLast is the whole upstream |
| Stages.FirstIndex | src/Iterators.ts:755-771 | the first position of a member value |
| Stages.IndexOf | src/Iterators.ts:763 | `indexOf`: negative exactly when absent, otherwise the first position of the value |
| Stages.DistinctFrom | src/Iterators.ts:201-211 | the first occurrences of the values not seen before, all drawn from the source and unseen |
| Stages.DistinctFromMembers | src/Iterators.ts:201-211 | the yielded values are pairwise distinct and are exactly the source values not seen before |
| Stages.DistinctFirstSeenOrder | src/Iterators.ts:201-211 | distinct keeps the order of first occurrence |
| Stages.DistinctAllSeen | src/Iterators.ts:201-211 | once every value is in the seen-set, a pass yields nothing, since the set persists across passes |
| Stages.Union | src/Iterators.ts:755-771 | union yields the whole source first, then only values of the other sequence that are neither in the seen-list nor in the source |
| Stages.UnionSecondPass | src/Iterators.ts:755-771 | once both sequences are in the seen-list, a union pass yields only the source |
| Stages.Except | src/Iterators.ts:223-233 | except yields at most the source's elements, each a source element absent from the other sequence |
| Stages.Intersect | src/Iterators.ts:403-413 | intersect yields at most the source's elements, each a source element present in the other sequence |
| Stages.ExceptIntersectPartition | src/Iterators.ts:223-233 | every source element, counted as often as it occurs, is yielded by exactly one of the two operators: by the difference when absent from the other sequence, by the intersection when present in it |
| Stages.ExceptIntersectMembers | src/Iterators.ts:403-413 | except keeps exactly the source values absent from the other sequence; intersect those present in it |
| Stages.Reversed | src/Iterators.ts:506-515 | reverse preserves length and yields s[n-1-k] at position k |
| Stages.ZipRow | src/Iterators.ts:809-812 | one pass of the inner loop: resultSelector(a_j, b) for every source element, in order |
| Stages.Zip | src/Iterators.ts:807-815 | zip yields \|source\| × \|other\| results |
| Stages.ZipAt | src/Iterators.ts:807-815 | result i·\|source\| + j is resultSelector(source[j], other[i]): the second sequence is the outer loop |
| Groupings.Grouping.constructor | src/Grouping.ts:18-22 | a grouping keeps its key and its element list |
| Groupings.Grouping.Iterate | src/Grouping.ts:30-35 | a grouping yields its elements unchanged and in order |
| Groupings.Grouping.Count | src/Grouping.ts:26-28 | count without a predicate is the group size; with one, the number accepted, never more than the size |
| Lookups.GroupsOf | src/Lookup.ts:18-49 | the grouped map is well formed: the keys are distinct and are exactly the map's keys |
| Lookups.MapAsGroups | src/Lookup.ts:18-49 | the single pass builds exactly GroupsOf of the source |
| Lookups.GroupsOfContains | src/Lookup.ts:38-44 | a key has a group exactly when some element's key selector returns it |
| Lookups.GroupsOfKeyOrder | src/Lookup.ts:29-46 | the keys are the distinct selected keys, in first-seen order |
| Lookups.GroupsOfLists | src/Lookup.ts:33-42 | each group holds, in source order, the projections of exactly the elements with its key |
| Lookups.GroupSizesAddUp | src/Lookup.ts:29-46 | the group sizes sum to the source length |
| Lookups.KeyCount | src/Lookup.ts:89-91 | a well-formed map has as many entries as distinct keys |
| Lookups.Lookup.constructor | src/Lookup.ts:84-87 | a lookup holds the given grouped map and an empty grouping cache |
| Lookups.Lookup.Count | src/Lookup.ts:89-91 | count is the number of distinct keys |
| Lookups.Lookup.Contains | src/Lookup.ts:103-105 | contains(k) holds exactly when k is a key |
| Lookups.Lookup.Item | src/Lookup.ts:93-101 | a key with a group gives a grouping over its list, created and cached on first request and the same cached object afterwards; a key without a group gives nothing and leaves the cache alone |
| Lookups.Lookup.Iterate | src/Lookup.ts:107-112 | one grouping per key in key order, each cached, with groupings cached earlier kept and reused |
| Lookups.Lookup.Create | src/Lookup.ts:51-65 | a missing key or element selector fails the assertion; otherwise a fresh lookup built from GroupsOf |
| Lookups.Lookup.CreateForJoin | src/Lookup.ts:67-78 | a fresh lookup of the raw elements |
| Iterators.SimpleIterator.constructor | src/Iterators.ts:64-67 | keeps the upstream; the cursor starts idle |
| Iterators.SimpleIterator.Reset | src/Iterators.ts:25-28 | reset restores index -1 and current null |
| Iterators.SimpleIterator.Iterate | src/Iterators.ts:69-76 | a pass yields the upstream and ends idle |
| Iterators.AppendIterator.constructor | src/Iterators.ts:83-86 | keeps the upstream and the item; the cursor starts idle |
| Iterators.AppendIterator.Reset | src/Iterators.ts:25-28 | reset restores index -1 and current null |
| Iterators.AppendIterator.Iterate | src/Iterators.ts:88-99 | a pass yields the upstream followed by the item |
| Iterators.PrependIterator.constructor | src/Iterators.ts:482-485 | keeps the upstream and the item; the cursor starts idle |
| Iterators.PrependIterator.Reset | src/Iterators.ts:25-28 | reset restores index -1 and current null |
| Iterators.PrependIterator.Iterate | src/Iterators.ts:487-497 | a pass yields the item followed by the upstream |
| Iterators.ConcatIterator.constructor | src/Iterators.ts:106-109 | keeps both sequences; the cursor starts idle |
| Iterators.ConcatIterator.Reset | src/Iterators.ts:25-28 | reset restores index -1 and current null |
| Iterators.ConcatIterator.Iterate | src/Iterators.ts:111-123 | a pass yields the upstream followed by the other sequence |
| Iterators.DefaultIfEmptyIterator.constructor | src/Iterators.ts:172-175 | keeps the upstream and the default; the cursor starts idle |
| Iterators.DefaultIfEmptyIterator.Reset | src/Iterators.ts:25-28 | reset restores index -1 and current null |
| Iterators.DefaultIfEmptyIterator.Iterate | src/Iterators.ts:177-189 | a non-empty upstream is yielded unchanged; an empty one yields just the default |
| Iterators.WhereIterator.constructor | src/Iterators.ts:778-781 | keeps the upstream and the predicate; the cursor starts idle |
| Iterators.WhereIterator.Reset | src/Iterators.ts:25-28 | reset restores index -1 and current null |
| Iterators.WhereIterator.Iterate | src/Iterators.ts:783-793 | a pass yields Where of the upstream, the predicate seeing each upstream index |
| Iterators.SelectIterator.constructor | src/Iterators.ts:522-525 | keeps the upstream and the selector; the cursor starts idle |
| Iterators.SelectIterator.Reset | src/Iterators.ts:53-56 | reset restores index -1 and current null |
| Iterators.SelectIterator.Iterate | src/Iterators.ts:527-534 | a pass yields Select of the upstream |
| Iterators.SelectManyIterator.constructor | src/Iterators.ts:541-544 | keeps the upstream and the selector; the cursor starts idle |
| Iterators.SelectManyIterator.Reset | src/Iterators.ts:53-56 | reset restores index -1 and current null |
| Iterators.SelectManyIterator.Iterate | src/Iterators.ts:546-555 | a pass yields the concatenation of selector(s[i], i) over the upstream |
| Iterators.SkipIterator.constructor | src/Iterators.ts:562-565 | keeps the upstream and the count; the cursor starts idle |
| Iterators.SkipIterator.Reset | src/Iterators.ts:25-28 | reset restores index -1 and current null |
| Iterators.SkipIterator.Iterate | src/Iterators.ts:567-577 | a pass yields Skip of the upstream |
| Iterators.TakeIterator.constructor | src/Iterators.ts:648-651 | keeps the upstream and the count; the cursor starts idle |
| Iterators.TakeIterator.Reset | src/Iterators.ts:25-28 | reset restores index -1 and current null |
| Iterators.TakeIterator.Iterate | src/Iterators.ts:653-663 | a pass yields Take of the upstream, stopping at the first position that reaches the count |
| Iterators.TakeWhileIterator.constructor | src/Iterators.ts:726-729 | keeps the upstream and the predicate; the cursor starts idle |
| Iterators.TakeWhileIterator.Reset | src/Iterators.ts:25-28 | reset restores index -1 and current null |
| Iterators.TakeWhileIterator.Iterate | src/Iterators.ts:731-741 | a pass yields the longest accepted prefix |
| Iterators.SkipWhileIterator.constructor | src/Iterators.ts:623-626 | keeps the upstream and the predicate and sets the latch; the cursor starts idle |
| Iterators.SkipWhileIterator.Reset | src/Iterators.ts:25-28 | reset restores the cursor and leaves the latch as it is |
| Iterators.SkipWhileIterator.Iterate | src/Iterators.ts:628-641 | with the latch set, a pass drops the accepted prefix and yields the rest, consulting the predicate only up to the first rejection, which clears the latch; with the latch clear, it yields everything and consults nothing |
| Iterators.ReverseIterator.constructor | src/Iterators.ts:502-504 | keeps the upstream; the cursor starts idle |
| Iterators.ReverseIterator.Reset | src/Iterators.ts:25-28 | reset restores index -1 and current null |
| Iterators.ReverseIterator.Iterate | src/Iterators.ts:506-515 | a pass yields the upstream back to front |
| Iterators.ZipIterator.constructor | src/Iterators.ts:801-805 | keeps both sequences and the result selector; the cursor starts idle |
| Iterators.ZipIterator.Reset | src/Iterators.ts:53-56 | reset restores index -1 and current null |
| Iterators.ZipIterator.Row | src/Iterators.ts:809-812 | the inner loop for one element of the second sequence computes ZipRow |
| Iterators.ZipIterator.Rows | src/Iterators.ts:807-815 | the two nested loops compute Zip |
| Iterators.ZipIterator.Iterate | src/Iterators.ts:807-815 | a pass yields Zip of the two sequences |
| WindowIterators.SkipLastIterator.constructor | src/Iterators.ts:584-587 | keeps the upstream and the count; the cursor starts idle |
| WindowIterators.SkipLastIterator.Reset | src/Iterators.ts:25-28 | reset restores index -1 and current null |
| WindowIterators.SkipLastIterator.Pass | src/Iterators.ts:591-612 | the queue loops yield SkipLast, and the queue never holds more than a positive count |
| WindowIterators.SkipLastIterator.Iterate | src/Iterators.ts:589-615 | a pass yields SkipLast: for a count c >= 1 every element but the last c, in order; for c = 0 first `undefined` and then every element but the last |
| WindowIterators.TakeLastIterator.constructor | src/Iterators.ts:670-673 | keeps the upstream and the count; the cursor starts idle |
| WindowIterators.TakeLastIterator.Reset | src/Iterators.ts:25-28 | reset restores index -1 and current null |
| WindowIterators.TakeLastIterator.Window | src/Iterators.ts:686-706 | the filling loop leaves the last min(count, length) elements in the queue, or the last one alone for a count below one; the queue never holds more than a positive count |
| WindowIterators.TakeLastIterator.Slide | src/Iterators.ts:697-703 | the sliding loop keeps the queue's length and ends on the last elements of the upstream |
| WindowIterators.TakeLastIterator.Iterate | src/Iterators.ts:675-719 | a pass yields TakeLast: nothing for an empty upstream, the last min(c, length) elements in order for c >= 1, and the queue-length error for c < 1 on a non-empty upstream |
| SetIterators.DistinctIterator.constructor | src/Iterators.ts:196-199 | keeps the upstream; the seen-set starts empty; the cursor starts idle |
| SetIterators.DistinctIterator.Reset | src/Iterators.ts:25-28 | reset restores the cursor and keeps the seen-set |
| SetIterators.DistinctIterator.Iterate | src/Iterators.ts:201-211 | a pass yields the first occurrences of values not yet seen, and adds every upstream value to the seen-set |
| SetIterators.ExceptIterator.constructor | src/Iterators.ts:218-221 | keeps both sequences; the cursor starts idle |
| SetIterators.ExceptIterator.Reset | src/Iterators.ts:25-28 | reset restores index -1 and current null |
| SetIterators.ExceptIterator.Iterate | src/Iterators.ts:223-233 | a pass yields the upstream elements absent from the other sequence, duplicates kept |
| SetIterators.IntersectIterator.constructor | src/Iterators.ts:398-401 | keeps both sequences; the cursor starts idle |
| SetIterators.IntersectIterator.Reset | src/Iterators.ts:25-28 | reset restores index -1 and current null |
| SetIterators.IntersectIterator.Iterate | src/Iterators.ts:403-413 | a pass yields the upstream elements present in the other sequence, duplicates kept |
| SetIterators.UnionIterator.constructor | src/Iterators.ts:749-753 | keeps both sequences; the seen-list starts empty; the cursor starts idle |
| SetIterators.UnionIterator.Reset | src/Iterators.ts:25-28 | reset restores the cursor and keeps the seen-list |
| SetIterators.UnionIterator.YieldSource | src/Iterators.ts:756-761 | the first loop yields the whole source and records it in the seen-list |
| SetIterators.UnionIterator.YieldUnseen | src/Iterators.ts:762-769 | the second loop yields the first occurrences in the other sequence of values not yet seen, and records them |
| SetIterators.UnionIterator.Iterate | src/Iterators.ts:755-771 | a pass yields the source, then the unseen values of the other sequence; afterwards both sequences are in the seen-list |
| GroupIterators.GroupIterator.constructor | src/Iterators.ts:241-247 | keeps the upstream and the key selector; the cursor starts idle |
| GroupIterators.GroupIterator.Reset | src/Iterators.ts:53-56 | reset restores index -1 and current null |
| GroupIterators.GroupIterator.Collect | src/Iterators.ts:253-264 | the collecting loop builds GroupsOf the elements themselves |
| GroupIterators.GroupIterator.Iterate | src/Iterators.ts:249-273 | a pass yields one fresh grouping per distinct key, in first-seen order, holding that key's elements |
| GroupIterators.GroupElementIterator.constructor | src/Iterators.ts:282-290 | keeps the upstream and both selectors; the cursor starts idle |
| GroupIterators.GroupElementIterator.Reset | src/Iterators.ts:53-56 | reset restores index -1 and current null |
| GroupIterators.GroupElementIterator.Collect | src/Iterators.ts:294-306 | the collecting loop builds GroupsOf with the element selector |
| GroupIterators.GroupElementIterator.Iterate | src/Iterators.ts:292-315 | a pass yields one fresh grouping per distinct key, holding the selected elements |
| GroupIterators.GroupResultIterator.constructor | src/Iterators.ts:325-335 | keeps the upstream and the three selectors; the cursor starts idle |
| GroupIterators.GroupResultIterator.Reset | src/Iterators.ts:53-56 | reset restores index -1 and current null |
| GroupIterators.GroupResultIterator.Collect | src/Iterators.ts:339-351 | the collecting loop builds GroupsOf with the element selector |
| GroupIterators.GroupResultIterator.Results | src/Iterators.ts:353-356 | the yielding loop applies the result selector to each key and its list, in key order |
| GroupIterators.GroupResultIterator.Iterate | src/Iterators.ts:337-359 | a pass yields resultSelector(key, list) once per distinct key, in first-seen order |
| GroupIterators.MatchOf | src/Lookup.ts:93-101 | what `item` hands the result selector: the key's list, or nothing for a key without a group |
| GroupIterators.GroupJoined | src/Iterators.ts:384-391 | groupJoin yields exactly one result per outer element |
| GroupIterators.GroupJoinAt | src/Iterators.ts:384-391 | result i is resultSelector(outer[i], the inner group of its key or nothing) |
| GroupIterators.JoinRow | src/Iterators.ts:448-450 | the inner loop of join: one result per element of the group, in group order |
| GroupIterators.JoinCompletes | src/Iterators.ts:443-453 | a join pass ends without error exactly when every outer key has an inner group |
| GroupIterators.JoinFailureSticks | src/Iterators.ts:443-453 | once an outer element without a group is reached, the rest of the outer sequence changes nothing |
| GroupIterators.Joined | src/Iterators.ts:443-453 | a join pass fails, if at all, only with a TypeError |
| GroupIterators.Flatten | src/Iterators.ts:443-453 | every value of every inner sequence occurs in the concatenation, which is empty when every inner sequence is |
| GroupIterators.JoinFlattensGroupJoin | src/Iterators.ts:443-453 | when every outer key matches, join's items are outer order then inner-group order, the flattened groupJoin rows |
| GroupIterators.GroupJoinIterator.constructor | src/Iterators.ts:370-382 | keeps the sequences and selectors; the cursor starts idle |
| GroupIterators.GroupJoinIterator.Reset | src/Iterators.ts:53-56 | reset restores index -1 and current null |
| GroupIterators.GroupJoinIterator.Match | src/Iterators.ts:386-389 | the outer loop pairs each element with `lookup.item` of its key |
| GroupIterators.GroupJoinIterator.Iterate | src/Iterators.ts:384-391 | a pass yields GroupJoined against createForJoin of the inner sequence |
| GroupIterators.JoinIterator.constructor | src/Iterators.ts:426-441 | keeps the sequences and selectors; the cursor starts idle |
| GroupIterators.JoinIterator.Reset | src/Iterators.ts:53-56 | reset restores index -1 and current null |
| GroupIterators.JoinIterator.Pair | src/Iterators.ts:448-450 | the inner loop computes JoinRow |
| GroupIterators.JoinIterator.Iterate | src/Iterators.ts:443-453 | a pass yields Joined against createForJoin of the inner sequence, failing with a TypeError at the first outer key without a group |
| Ordering.CreateComparer | src/Iterators.ts:913-921 | the comparer is 0 exactly for equal keys, negative exactly when a's key sorts first (ascending) or last (descending), and always in -1..1 |
| Ordering.ComposeComparers | src/Iterators.ts:943-948 | the first comparer decides unless it ties; then the second decides |
| Ordering.KeyedComparerValid | src/Enumerable.ts:520-540 | any three-way comparison of integer keys is a valid total preorder |
| Ordering.CreateComparerValid | src/Iterators.ts:913-921 | createComparer is a valid total preorder |
| Ordering.ComposeComparersValid | src/Iterators.ts:943-948 | composing two valid comparers gives a valid comparer |
| Ordering.InsertFront | src/Iterators.ts:930-933 | one insertion step of the sort adds exactly the inserted element |
| Ordering.Sort | src/Iterators.ts:930-933 | the sorted copy is a permutation of the source |
| Ordering.InsertFrontSorted | src/Iterators.ts:930-933 | inserting into a sorted list keeps it sorted |
| Ordering.InsertFrontTies | src/Iterators.ts:930-933 | inserting puts the element before the elements it ties with |
| Ordering.SortSorted | src/Iterators.ts:930-933 | the copy is sorted by the comparer |
| Ordering.SortStable | src/Iterators.ts:930-933 | elements that tie keep their source order |
| Ordering.OrderedIterator.OrderBy | src/Iterators.ts:936-941 | orderBy's iterator sorts by createComparer of its key, a valid comparer |
| Ordering.OrderedIterator.ThenBy | src/Iterators.ts:950-961 | thenBy's iterator takes the sorted upstream and composes the upstream comparer with the new key's |
| Ordering.OrderedIterator.Iterate | src/Iterators.ts:930-933 | a pass yields a sorted, stable permutation of the upstream |
| Generators.Generated | src/Generators.ts:39-49 | a UserGenerator pass yields at most count values, none for a count <= 0 |
| Generators.GeneratedContains | src/Generators.ts:39-49 | a value is yielded exactly when some call below the count returns it |
| Generators.GeneratedLength | src/Generators.ts:39-49 | nothing when every call returns `undefined`; exactly count values, the i-th from call i, when no call does |
| Generators.UserGenerator.constructor | src/Generators.ts:32-37 | keeps the callback, count and user data; the cursor starts idle |
| Generators.UserGenerator.Reset | src/Generators.ts:18-21 | reset restores index -1 and current null |
| Generators.UserGenerator.Iterate | src/Generators.ts:39-49 | a pass yields the callback results other than `undefined` (a `null` one included) for indices 0..count-1, in order, and ends reset |
| Generators.StepOrOne | src/Generators.ts:59-65 | a missing or zero step is one; any other step is kept |
| Generators.NumberRange | src/Generators.ts:67-75 | every value of the range is at least start and below end |
| Generators.NumberRangeAt | src/Generators.ts:67-75 | the k-th value is start + k·step, at least start and below end |
| Generators.NumberRangeLength | src/Generators.ts:67-75 | no values when end <= start; otherwise ⌈(end − start)/step⌉ values for a positive step |
| Generators.NumberGenerator.constructor | src/Generators.ts:59-65 | keeps start and end and the defaulted step; current starts one step before start |
| Generators.NumberGenerator.Reset | src/Generators.ts:18-21 | reset restores index -1 and current null |
| Generators.NumberGenerator.Iterate | src/Generators.ts:67-75 | a pass yields the half-open range from start by step, and ends reset |
| Generators.KeyValues | src/Generators.ts:91-103 | one pair per source element |
| Generators.KeyValuesAt | src/Generators.ts:91-103 | pair i holds the key and the value (selected, or the element itself) of element i at running index base + i |
| Generators.Values | src/Enumerable.ts:520-529 | the values of the pairs, in order |
| Generators.ValuesOfKeyValues | src/Generators.ts:96-100 | without a value selector the values are the source elements |
| Generators.KeyValueGenerator.constructor | src/Generators.ts:84-89 | keeps the source and selectors; index starts at -1 |
| Generators.KeyValueGenerator.Reset | src/Generators.ts:18-21 | reset restores index -1 and current null |
| Generators.KeyValueGenerator.Iterate | src/Generators.ts:91-103 | a pass yields the pairs numbered on from the previous pass's last index, since the index is never reset |
| GroupedEnumerables.GroupResults | src/Grouping.ts:115-119 | one result selector call per key, in key order |
| GroupedEnumerables.GroupedEnumerable.Init | src/Grouping.ts:48-59 | the enumerable keeps its arguments and has no lookup yet |
| GroupedEnumerables.GroupedEnumerable.Create | src/Grouping.ts:48-59 | construction fails only for a missing key selector, and does not group the source |
| GroupedEnumerables.GroupedEnumerable.GetOrCreateLookup | src/Grouping.ts:61-66 | the first call builds the lookup, later calls return the same one; the source is grouped at most once; without an element selector it fails the lookup's assertion |
| GroupedEnumerables.GroupedEnumerable.Iterate | src/Grouping.ts:72-76 | a pass yields the lookup's groupings, one per key in first-seen order, reusing the kept lookup and its cached groupings |
| GroupedEnumerables.GroupedEnumerable.Count | src/Grouping.ts:68-70 | the number of groups, or of groups the predicate accepts; with an element selector it leaves a lookup in place, and an existing lookup is kept |
| GroupedEnumerables.CountThenIterate | src/Grouping.ts:61-76 | count followed by a pass groups the source once: the pass reuses the lookup count left, and yields one grouping per counted group |
| GroupedEnumerables.GroupedResultEnumerable.Init | src/Grouping.ts:90-102 | the enumerable keeps its arguments and has no lookup yet |
| GroupedEnumerables.GroupedResultEnumerable.Create | src/Grouping.ts:90-102 | construction fails only for a missing key selector, and does not group the source |
| GroupedEnumerables.GroupedResultEnumerable.GetOrCreateLookup | src/Grouping.ts:104-109 | built once and reused, as for GroupedEnumerable |
| GroupedEnumerables.GroupedResultEnumerable.ApplyResultSelector | src/Grouping.ts:116-118 | the yielding loop computes GroupResults |
| GroupedEnumerables.GroupedResultEnumerable.Iterate | src/Grouping.ts:115-119 | a pass yields resultSelector(key, group) once per distinct key, in first-seen order; with an element selector it leaves a lookup in place, and an existing lookup is kept |
| GroupedEnumerables.GroupedResultEnumerable.Count | src/Grouping.ts:111-113 | the number of results, or of results the predicate accepts; with an element selector it leaves a lookup in place, and an existing lookup is kept |
| EnumerableExtensions.FindFirst | src/Enumerable.ts:134-158 | nothing exactly when no element is accepted; otherwise an accepted source element |
| EnumerableExtensions.FindFirstIsFirst | src/Enumerable.ts:134-158 | the element found is the accepted one with no accepted element before it |
| EnumerableExtensions.FindLast | src/Enumerable.ts:160-186 | nothing exactly when no element is accepted; otherwise an accepted source element |
| EnumerableExtensions.FindLastIsLast | src/Enumerable.ts:160-186 | the element found is the accepted one with no accepted element after it |
| EnumerableExtensions.TryGetFirst | src/Enumerable.ts:134-158 | found exactly when there is a first accepted element, which is the value written |
| EnumerableExtensions.TryGetLast | src/Enumerable.ts:160-186 | found exactly when there is a last accepted element, which is the value written |
| EnumerableExtensions.First | src/Enumerable.ts:369-374 | the first accepted element, or the unnamed error |
| EnumerableExtensions.FirstOrDefault | src/Enumerable.ts:376-381 | the first accepted element, or `throw null` |
| EnumerableExtensions.LastOf | src/Enumerable.ts:459-464 | the last accepted element, or the unnamed error |
| EnumerableExtensions.LastOrDefault | src/Enumerable.ts:466-471 | the last accepted element, or `throw null` |
| EnumerableExtensions.Fold | src/Enumerable.ts:195-200 | the fold of an empty source is the seed; otherwise the first element is combined with the seed and the rest fold from that value, as the loop runs |
| EnumerableExtensions.FoldAppend | src/Enumerable.ts:189-211 | folding a concatenation folds the second part from the first part's result |
| EnumerableExtensions.Aggregate | src/Enumerable.ts:189-211 | "no elements" for an empty source with a `null` seed (an `undefined` seed is a value and is returned); otherwise the left fold from the seed, finished by the result selector if it is a function |
| EnumerableExtensions.AggregateOverloads | src/Enumerable.ts:777-801 | a function first folds from a null seed; a seed first with a null func throws "null func"; otherwise it folds from the seed |
| EnumerableExtensions.All | src/Enumerable.ts:213-223 | true exactly when the predicate accepts every element, with the index passed only for arrays |
| EnumerableExtensions.Any | src/Enumerable.ts:225-240 | on arrays, `some`, which throws a TypeError without a predicate; otherwise whether some element is accepted, any element when no predicate is given |
| EnumerableExtensions.EnumerableAll | src/Enumerable.ts:803-808 | "null predicate" without a predicate; otherwise true exactly when the predicate accepts every element, called without an index |
| EnumerableExtensions.EnumerableAny | src/Enumerable.ts:810-815 | "null predicate" for a `null` predicate; an omitted one answers whether there is any element; otherwise whether the predicate accepts some element |
| EnumerableExtensions.Contains | src/Enumerable.ts:280-299 | true exactly when some element equals the value, by the comparer or `===` |
| EnumerableExtensions.Count | src/Enumerable.ts:301-316 | no predicate: the length; a predicate: the number of elements it accepts |
| EnumerableExtensions.ElementAt | src/Enumerable.ts:328-343 | the element at an index within range, otherwise "invalid index" |
| EnumerableExtensions.ElementAtOrDefault | src/Enumerable.ts:345-358 | the element at an index within range; outside it, `undefined` from an array and `null` from any other source |
| EnumerableExtensions.EqualPrefix | src/Enumerable.ts:590-608 | the number of leading positions where both sequences agree; they disagree at the next one |
| EnumerableExtensions.SequenceEqual | src/Enumerable.ts:577-611 | true exactly when the lengths agree and every pair agrees; it stops after the first mismatch, and compares nothing for two arrays of different lengths |
| EnumerableExtensions.MatchingIsFilterLength | src/Enumerable.ts:613-632 | the count of matches is the length of the filtered list |
| EnumerableExtensions.MatchingNone | src/Enumerable.ts:613-623 | no matches exactly when the predicate rejects every element |
| EnumerableExtensions.Single | src/Enumerable.ts:613-623 | with a predicate: succeeds exactly with one match, returning it; "no elements" exactly with none; "more than one element" exactly with several. Without one: "no elements" for an empty source, a TypeError otherwise |
| EnumerableExtensions.SingleOrDefault | src/Enumerable.ts:625-632 | a value exactly when there is one match, which is returned |
| EnumerableExtensions.AddEntry | src/Enumerable.ts:708-723 | with a comparer, "duplicated key" exactly when the comparer finds an earlier key equal; otherwise the map with the key set to the value |
| EnumerableExtensions.DictionaryOf | src/Enumerable.ts:692-729 | it throws only "duplicated key" and only with a comparer; a built map is consistent |
| EnumerableExtensions.DictionaryKeys | src/Enumerable.ts:692-729 | the map's keys are exactly the selected keys |
| EnumerableExtensions.DictionaryLastWins | src/Enumerable.ts:692-729 | without a comparer it never throws, and each key holds the value of its last occurrence |
| EnumerableExtensions.DuplicatesOfLast | src/Enumerable.ts:708-713 | after a prefix that builds, the next element throws exactly when the comparer matches its key with an earlier one |
| EnumerableExtensions.DictionaryDuplicates | src/Enumerable.ts:692-729 | with a comparer it throws exactly when some pair of positions i < j has comparer(key_i, key_j) |
| EnumerableExtensions.DictionarySize | src/Enumerable.ts:692-729 | one entry per distinct key |
| EnumerableExtensions.DictionaryErrSticky | src/Enumerable.ts:706-726 | a failure on a prefix is the failure of the whole call |
| EnumerableExtensions.ToDictionary | src/Enumerable.ts:692-729 | the loop builds DictionaryOf the source |
| EnumerableExtensions.ToLookup | src/Enumerable.ts:731-749 | "null argument" for a missing key or element selector, otherwise a fresh lookup of GroupsOf |
| EnumerableExtensions.KeyOrder | src/Enumerable.ts:520-540 | the comparer of orderBy and orderByDescending compares pair keys three-way |
| EnumerableExtensions.ValuesSort | src/Enumerable.ts:520-529 | sorting pairs permutes their values |
| EnumerableExtensions.OrderBy | src/Enumerable.ts:520-540 | a permutation of the source whose keys are non-decreasing (non-increasing when descending), with equal keys in source order |
| EnumerableExtensions.Range | src/Enumerable.ts:547-550 | a pass of a NumberGenerator: the half-open range with the defaulted step |
| EnumerableExtensions.Repeat | src/Enumerable.ts:552-555 | max(count, 0) copies of the element; nothing for an `undefined` element, which the generator skips |
| EnumerableExtensions.RepeatElement | src/Enumerable.ts:557-560 | a pass of a UserGenerator over the callback |

## Left out

- `XPathResultIterator`: a browser DOM adapter over `XPathResult`, which is host-specific.
- `OfTypeIterator`: it needs reflection on runtime constructors, which Dafny values do not have.
- `CountIterator`: nothing uses it, and `countIterable` already covers counting.
- `average`, `sum`, `min`, `max`: floating-point arithmetic with runtime `typeof` checks.
- The other methods of `IterableEnumerable` and the `Enumerable` wrapper class: each passes its arguments on to the static method unchanged. The argument checks that some of them make first are modelled: `aggregate`'s overload resolution and "null func" (src/Enumerable.ts:777-801), and the "null predicate" checks of `all` and `any` (803-815). The argument dispatch of `average`, `sum`, `min` and `max` goes with those operators.
- The other iterator factories of `EnumerableExtensions` (`append`, `where`, `join`, …): each only constructs one of the modelled iterators. `groupBy` first picks which: a `GroupedResultEnumerable` when `resultSelector` is a function, a `GroupedEnumerable` otherwise (src/Enumerable.ts:422-426).
- Laziness and generator suspension. A pass is modelled whole, from the idle cursor to the end. A pass abandoned halfway, which leaves the cursor off its idle state, is not modelled. So every `Iterate` requires the idle state. Interleaved pulls from two passes are not modelled either.
- The per-element values of `_index` and `_current` while a pass is suspended. The model updates them as the source does, but only their final state is stated.
- An exception thrown from a caller's callback. Callbacks are total Dafny functions, so a callback that throws or does not terminate is not modelled.
- Object identity and JavaScript's `===` on objects: equality is Dafny value equality.
- Mixed-type keys and JavaScript's `<`/`>` between them: ordering keys are `int`.
- The `source === null` check of `toLookup` and the `source != null` assertions of `Lookup.create` and the grouped enumerables: a `seq` cannot be null.
- `null` and `undefined` are told apart where the code tests one of them alone (the UserGenerator callback's result, `repeat`'s element, `aggregate`'s seed, the predicate of `any`) and where one operator returns either, depending on the branch (`elementAtOrDefault`: `undefined` from an array, `null` otherwise, as an `Argument`). Elsewhere an absent value is `None` whichever of the two it is: where the code tests for absence it accepts both (`typeof … === "function"`, `=== undefined || === null`), and where it produces one (`singleOrDefault`'s `null`, the `undefined` that `skipLast(0)` dequeues) the member's comment names it.
- JavaScript numbers are modelled as unbounded integers. Fractional values and `NaN` are not modelled. The members below lose behaviour through this.
- Generators.NumberGenerator.Iterate: the start, end and step are integers, so a fractional step such as `range(0, 1, 0.25)` is not modelled.
- EnumerableExtensions.Range: the same integer start, end and step as in `NumberGenerator`.
- Generators.UserGenerator.Iterate: the count is an integer. A fractional count, which runs one more call than its floor, is not modelled.
- Iterators.SkipIterator.Iterate: the count is an integer, so a fractional count is not modelled.
- Iterators.TakeIterator.Iterate: the count is an integer, so a fractional count is not modelled.
- WindowIterators.SkipLastIterator.Iterate: the count is an integer, so a fractional count (which the queue-length test never meets exactly) is not modelled.
- WindowIterators.TakeLastIterator.Iterate: the count is an integer, so a fractional count is not modelled.
- EnumerableExtensions.ElementAt: the index is an integer. A fractional index inside the bounds passes the array branch's check and returns `undefined` in the source; that case is not modelled.
- EnumerableExtensions.ElementAtOrDefault: the index is an integer, for the same reason.
- GroupIterators.GroupJoinIterator.Iterate: the result selector receives the inner group's element list, or `None` for a key without a group. The source hands it the `Grouping` object that `lookup.item` returns, or `undefined`. The list is what that `Grouping` holds and yields; the object's identity and its own methods are not passed on.
- GroupIterators.GroupJoinIterator.Match: the same element list, or `None`, in place of the `Grouping` or `undefined`.
- GroupIterators.GroupJoined: the same element list, or `None`, in place of the `Grouping` or `undefined`.
- The equality comparers that `groupBy`, `groupJoin`, `join` and `toLookup` accept. The source ignores them (they are commented out), so they are not parameters here.
- The default result selectors of `GroupJoinIterator` and `JoinIterator` (`(key, inner) => inner`). The model always takes a result selector.
- EnumerableExtensions.ToDictionary: values have the source element type. The element selector of `toDictionary` (and the value selector of `KeyValueGenerator`) may return any type in the source.
- Generators.NumberGenerator.Iterate: requires a positive step or `end <= start`. A negative step with `end > start` makes the source loop forever.
- EnumerableExtensions.Range: requires a positive step or `end <= start`, for the same reason, since it is one pass of a `NumberGenerator`.
- Ordering.OrderedIterator.Iterate: the sort is a stable insertion sort on a `seq`. The source uses the engine's `Array.prototype.sort`. The model states only what that sort promises: a sorted, stable permutation.
- Ordering.OrderedIterator.ThenBy: its upstream is taken as already sorted by its own comparer, which is what iterating an `OrderedIterator` yields.
- GroupedEnumerables.GroupedResultEnumerable.Iterate: the result selector receives the group's element list, which is what the `Grouping` handed to it in the source holds and yields.
- Iterators.SelectManyIterator.Iterate: the iterables returned by the selector are taken to be finite sequences.
- Array fast paths (`instanceof Array`): every static method that tests it takes a `SourceKind` and models both branches: `tryGetFirst` and `tryGetLast` (and `first`, `last` and their `OrDefault` forms through them), `all`, `any`, `contains`, `count`, `elementAt`, `elementAtOrDefault`, `sequenceEqual` and `countIterable`. The branches differ in what is observable only in `all` and `countIterable` (the predicate receives the index), `any` (a TypeError without a predicate), `sequenceEqual` (no pair is compared for two arrays of different lengths) and `elementAtOrDefault` (`undefined` past either end of an array, `null` otherwise). In the others both branches give the same result, and in `count` the two coincide outright. Only the `countIterable` branch can be reached through the library's API, by `Grouping.count` on its element array. `EnumerableExtensions` is not exported (src/Enumerable.ts:132), and every method of `IterableEnumerable` passes itself, never an array, so the array branches of the static methods are reachable only inside the module. The `SourceKind` parameter models those static methods as written; `EnumerableAll` and `EnumerableAny` pass the non-array kind, as the API does.
