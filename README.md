# Speedment configuration documents, int predicates and sorted actions in Dafny

This project models three small pieces of Speedment's configuration-document and query layer. Each piece has a declarative description of itself that must agree with what it does:

- `ImmutableDocument` (module `Documents`, `immutable_document.dfy`) is a read-only node of the configuration tree. Its data map is wrapped in a read-only view and every `put` fails. The children under a key are built on the first `children` request: each map of the stored list is wrapped read-only and handed to an instantiator. The result is kept in a per-key cache, so later requests return the cached children and never call an instantiator again. It is a class: `cache` is a field that `Children` updates in place. The ghost field `instantiations` counts instantiator calls. The ghost field `builders` records which instantiator built each cache entry, and the object invariant `Valid()` ties every cache entry to what its first request built from the data.
- `IntGreaterOrEqualPredicate` (module `IntPredicates`, `int_greater_or_equal_predicate.dfy`) is a filter on an `int` field. It carries the tag `GREATER_OR_EQUAL` and an operand for push-down, plus a test closure for filtering in memory. The entity field is a function `Entity -> int32`. `Holds` gives a tag's meaning to a reader of the metadata alone. The lemmas show that the closure and the metadata agree on every entity and on every sequence of entities.
- `SortedComparatorAction` (module `SortedComparatorActions`, `sorted_comparator_action.dfy`) is a stream stage. Its metadata is the tag `SORTED` and the captured comparator, which may be null. Its transformation is `Stream.sorted(requireNonNull(comparator))`. The sort itself (module `StableSort`, `stable_sort.dfy`) is a stable insertion sort over sequences, and is proved to return a permutation that is ordered and stable. Ordered and stable together determine the output, so any stable sort by the comparator gives the same result. `TotalPreorder` states the contract of `java.util.Comparator`: the signs of `compare(x, y)` and `compare(y, x)` are opposite, and `compare(x, y) <= 0` is transitive.

`Wrappers` (`wrappers.dfy`) holds `Option`, `Result` and `Outcome`. A Java exception becomes a `Fail` or `Failure` value. The one nullable argument the model represents as an `Option` is the comparator of `SortedComparatorAction`; a document's parent is a nullable Dafny reference.

Two behaviours of the code are easy to misread:

- `children` never sets a parent on the children it builds. The instantiator receives only the read-only map (ImmutableDocument.java:65-67).
- `from` does not take a copy of the source document's data. It wraps `document.getData()` in a read-only view (ImmutableDocument.java:75).

## Model

| member | source | states |
|---|---|---|
| `Documents.ReadOnlyMap.Get` | src/main/java/com/speedment/config/ImmutableDocument.java:60 | the lookup `get(k)` is present exactly when the key is in the data, and then holds the stored value |
| `Documents.Instantiate` | src/main/java/com/speedment/config/ImmutableDocument.java:65-69 | mapping a list through the read-only wrapper and the instantiator gives one child per list element, child `i` being the instantiator applied to the read-only view of element `i` |
| `Documents.Materialize` | src/main/java/com/speedment/config/ImmutableDocument.java:59-70 | what a first request builds: an empty sequence for an absent key, otherwise one child per list element in list order |
| `Documents.ImmutableDocument.constructor` | src/main/java/com/speedment/config/ImmutableDocument.java:36-39 | a new document has no parent, an empty cache, no instantiator calls, and `GetData()` is the read-only view of the given map |
| `Documents.ImmutableDocument.WithParent` | src/main/java/com/speedment/config/ImmutableDocument.java:41-44 | the same as the constructor, with the given parent |
| `Documents.ImmutableDocument.GetData` | src/main/java/com/speedment/config/ImmutableDocument.java:46-49 | `getData` returns the read-only view set at construction; its contract is the `GetData() == ReadOnly(source)` clause of the constructors' and `From`'s `ensures` |
| `Documents.ImmutableDocument.Put` | src/main/java/com/speedment/config/ImmutableDocument.java:51-54 | every `put` fails with the UnsupportedOperation kind; the method may modify nothing, so data and cache are unchanged |
| `Documents.ImmutableDocument.Children` | src/main/java/com/speedment/config/ImmutableDocument.java:57-72 | a cached key returns its cached sequence and calls no instantiator, whatever instantiator is passed; an uncached key returns `Materialize` of the data (empty when absent), calls the instantiator once per child and caches the result; no other cache entry changes; data is a constant; the cache invariant is preserved |
| `Documents.ImmutableDocument.From` | src/main/java/com/speedment/config/ImmutableDocument.java:74-76 | `from` builds a fresh parentless document whose data is a read-only view of the given document's data, with an empty cache |
| `Documents.ChildrenTwice` | src/main/java/com/speedment/config/ImmutableDocument.java:58-71 | on a document built by `From`, two requests for one key with different instantiators return the same sequence, built by the first instantiator, and only the first request calls one (once per child) |
| `Documents.ColumnsInOrder` | src/main/java/com/speedment/config/ImmutableDocument.java:64-69 | a table with columns `{name: id}` and `{name: total}` yields, under `columns`, exactly two children, the read-only views of the two column maps in list order, named `id` and `total` |
| `IntPredicates.NewIntGreaterOrEqualPredicate` | runtime-parent/runtime-field/src/main/java/com/speedment/runtime/field/internal/predicate/ints/IntGreaterOrEqualPredicate.java:37-40 | the predicate is tagged `GREATER_OR_EQUAL`, keeps the field and the operand it was given (`get0`), and its test passes exactly when `field.getAsInt(e) >= value` |
| `IntPredicates.IntGreaterOrEqualPredicate.Get0` | runtime-parent/runtime-field/src/main/java/com/speedment/runtime/field/internal/predicate/ints/IntGreaterOrEqualPredicate.java:42-45 | `get0` returns the operand passed to the constructor; its contract is the `p.Get0() == value` clause of `NewIntGreaterOrEqualPredicate`'s `ensures` |
| `IntPredicates.MetadataAgreesWithTest` | runtime-parent/runtime-field/src/main/java/com/speedment/runtime/field/internal/predicate/ints/IntGreaterOrEqualPredicate.java:37-45 | for every entity, the test closure gives what the tag's meaning gives for the field value and the operand `get0()` |
| `IntPredicates.PushDownAgrees` | runtime-parent/runtime-field/src/main/java/com/speedment/runtime/field/internal/predicate/ints/IntGreaterOrEqualPredicate.java:38 | over any sequence of entities, evaluating the closure and evaluating the pushed-down metadata (tag, field, operand) give the same results |
| `IntPredicates.MonotonicInOperand` | runtime-parent/runtime-field/src/main/java/com/speedment/runtime/field/internal/predicate/ints/IntGreaterOrEqualPredicate.java:38 | an entity that passes with an operand passes with every smaller operand |
| `IntPredicates.AgeBoundary` | runtime-parent/runtime-field/src/main/java/com/speedment/runtime/field/internal/predicate/ints/IntGreaterOrEqualPredicate.java:38 | with operand 18, ages 17, 18 and 30 give false, true, true, both directly and pushed down |
| `StableSort.Insert` | src/main/java/com/speedment/internal/core/stream/builder/action/reference/SortedComparatorAction.java:36 | inserting adds exactly one element: the result is the input with `x` added, as a multiset |
| `StableSort.Sort` | src/main/java/com/speedment/internal/core/stream/builder/action/reference/SortedComparatorAction.java:36 | the sorted output is a permutation of the input: the same length and the same multiset |
| `StableSort.InsertSorted` | src/main/java/com/speedment/internal/core/stream/builder/action/reference/SortedComparatorAction.java:36 | inserting into an ordered sequence keeps it ordered |
| `StableSort.SortIsOrdered` | src/main/java/com/speedment/internal/core/stream/builder/action/reference/SortedComparatorAction.java:36 | for a comparator obeying the contract, `compare(out[i], out[j]) <= 0` for every `i < j` |
| `StableSort.EqClassInsert` | src/main/java/com/speedment/internal/core/stream/builder/action/reference/SortedComparatorAction.java:36 | an inserted element joins the class of equal elements at its front, and leaves every other class unchanged |
| `StableSort.SortIsStable` | src/main/java/com/speedment/internal/core/stream/builder/action/reference/SortedComparatorAction.java:36 | elements that compare equal appear in the output in the same relative order as in the input |
| `StableSort.SortOfSorted` | src/main/java/com/speedment/internal/core/stream/builder/action/reference/SortedComparatorAction.java:36 | an input that is already ordered is returned unchanged |
| `StableSort.SortIdempotent` | src/main/java/com/speedment/internal/core/stream/builder/action/reference/SortedComparatorAction.java:36 | sorting sorted output returns it unchanged |
| `StableSort.SortedEqClassesDetermine` | src/main/java/com/speedment/internal/core/stream/builder/action/reference/SortedComparatorAction.java:36 | two ordered sequences with the same classes of equal elements, each in the same order, are equal |
| `StableSort.SortIsUnique` | src/main/java/com/speedment/internal/core/stream/builder/action/reference/SortedComparatorAction.java:36 | every ordered and stable rearrangement of the input is the output of `Sort`, so the model's sort is the one `Stream.sorted` promises |
| `SortedComparatorActions.NewSortedComparatorAction` | src/main/java/com/speedment/internal/core/stream/builder/action/reference/SortedComparatorAction.java:35-43 | the stage is tagged `SORTED`; `getComparator` returns exactly the comparator given; construction never fails, even for a null comparator; applying the stage fails with a null-pointer error for a null comparator and otherwise yields the stable sort of the input |
| `SortedComparatorActions.SortedComparatorAction.GetComparator` | src/main/java/com/speedment/internal/core/stream/builder/action/reference/SortedComparatorAction.java:40-43 | `getComparator` returns exactly the comparator given to the constructor; its contract is the `a.GetComparator() == comparator` clause of `NewSortedComparatorAction`'s `ensures` |
| `SortedComparatorActions.SortedTransform` | src/main/java/com/speedment/internal/core/stream/builder/action/reference/SortedComparatorAction.java:36 | the transformation fails with a null-pointer error exactly when the comparator is null, and otherwise succeeds with a permutation of its input (same length, same multiset) |
| `SortedComparatorActions.AppliedIsStableSort` | src/main/java/com/speedment/internal/core/stream/builder/action/reference/SortedComparatorAction.java:36 | for a comparator obeying the contract, the stage's output is a permutation of its input, ordered and stable by the comparator that `getComparator` reports, and it is the only such sequence, so an optimiser reading only the tag and the comparator computes the same result |
| `SortedComparatorActions.ApplyIdempotent` | src/main/java/com/speedment/internal/core/stream/builder/action/reference/SortedComparatorAction.java:36 | applying the stage to its own output returns that output |

## Left out

- `Documents.ImmutableDocument.Children`: null arguments are not modelled. In Java a null key makes `ConcurrentHashMap.computeIfAbsent` throw `NullPointerException` (ImmutableDocument.java:58), and a null instantiator throws in `.map(instantiator)` when the key holds a list (line 67), while an absent key caches an empty list without touching it.
- `Documents.ImmutableDocument.constructor`: null data is not modelled; in Java `Collections.unmodifiableMap` throws `NullPointerException` for it (ImmutableDocument.java:37, and line 42 for `WithParent`).
- Concurrency of the `ConcurrentHashMap` cache: `computeIfAbsent` atomicity under concurrent first requests is not modelled, and `Children` is sequential.
- `Documents.ImmutableDocument.Children` requires `HoldsChildList`: a key that holds something other than a list of maps makes the Java cast throw `ClassCastException`, and that failure is excluded by precondition rather than modelled.
- `Documents.ImmutableDocument.Children`: each document has one child type `C`. Java's per-call type parameter `T`, the unchecked casts to `T` and `Document.class::cast` on the instantiator's result are not modelled.
- `Documents.ImmutableDocument.Children`: object identity of the cached children is modelled as equality of values, and the instantiator is a pure function (its side effects are not modelled).
- `Documents.ImmutableDocument.From`: maps are values here, so the aliasing between the read-only view and the source document's live map is not captured. In Java, later changes to the source map would show through the view.
- Nested maps inside values are not wrapped read-only on access; only the top-level data map and each child map are, as in the code.
- `BaseDocument`, `Document`, `AbstractFieldPredicate`, `HasIntValue`, `Action` and `StandardBasicAction` are not part of this model beyond what the core uses: the data map and `get`, the parent reference, the field accessor, the tag, the stored closure and the comparator.
- `SortedComparatorActions.NewSortedComparatorAction`: the stream is modelled as a finite ordered sequence. Laziness, unordered streams (for which Java does not promise stability) and the result-type argument `Stream.class` are not modelled.
- `SortedComparatorActions.NewSortedComparatorAction`: for a non-null comparator that breaks Java's `Comparator` contract (`TotalPreorder`), the model still returns `Success` with its insertion sort's output, whereas Java's sort may throw `IllegalArgumentException` or return another order; that failure is not modelled. Ordering, stability and uniqueness are proved only for comparators that obey the contract.
- runtime/src/main/java/com/speedment/runtime/internal/runtime/AbstractApplicationBuilder.java is not part of this model: it is dependency-injection bootstrap plumbing. Its `withConnectionUrl(dbmsName, connectionUrl)` at line 204 calls `setName` with the connection URL where `setConnectionUrl` is evidently meant.
- plugins/reactor/src/main/java/com/speedment/plugins/reactor/component/ReactorPluginInstaller.java is not part of this model: it is a one-line factory with no logic.
