/**
 * `SortedComparatorAction`: a stream stage that carries two descriptions of
 * itself. The metadata (the tag `SORTED` and the captured comparator) is what
 * an optimiser reads; the transformation (`Stream.sorted(comparator)`) is what
 * runs when the stage is applied directly. The lemmas here show that the two
 * agree.
 */
module SortedComparatorActions {
  import opened Wrappers
  import opened StableSort

  /** The tags of `StandardBasicAction`; only `SORTED` is used by this stage. */
  datatype StandardBasicAction = SORTED | OtherAction(name: string)

  /** The failure `requireNonNull` raises. */
  datatype Error = NullPointer

  /**
   * A stage of a stream pipeline over ordered streams of `T`. The
   * `comparator` is Java's nullable reference (`None` is `null`);
   * `transform` is the closure handed to the `Action` base class.
   */
  datatype SortedComparatorAction<!T> = SortedComparatorAction(
    transform: seq<T> -> Result<seq<T>, Error>,
    actionType: StandardBasicAction,
    comparator: Option<(T, T) -> int>)
  {
    /** The comparator the stage was built with (`getComparator`). */
    function GetComparator(): Option<(T, T) -> int> {
      comparator
    }

    /** Runs the stage's transformation on an ordered input stream. */
    function Apply(s: seq<T>): Result<seq<T>, Error> {
      transform(s)
    }
  }

  /** The transformation `s -> s.sorted(requireNonNull(comparator))`. */
  function SortedTransform<T(==)>(comparator: Option<(T, T) -> int>, s: seq<T>): (r: Result<seq<T>, Error>)
    ensures comparator.None? <==> r == Failure(NullPointer)
    ensures comparator.Some? ==> r.Success? && |r.value| == |s| && multiset(r.value) == multiset(s)
  {
    match comparator
    case None => Failure(NullPointer)
    case Some(cmp) => Success(Sort(cmp, s))
  }

  /**
   * The constructor. It never fails, not even for a null comparator: the
   * null check lives inside the transformation and fires only when the
   * stage is applied.
   */
  function NewSortedComparatorAction<T(==, !new)>(comparator: Option<(T, T) -> int>): (a: SortedComparatorAction<T>)
    ensures a.actionType == SORTED
    ensures a.GetComparator() == comparator
    ensures comparator.None? ==> forall s :: a.Apply(s) == Failure(NullPointer)
    ensures comparator.Some? ==> forall s :: a.Apply(s) == Success(Sort(comparator.value, s))
  {
    SortedComparatorAction(s => SortedTransform(comparator, s), SORTED, comparator)
  }

  /**
   * Metadata agrees with behaviour: a stage built from a comparator that
   * obeys Java's contract turns every input into the ordered, stable
   * permutation of it, and that output is exactly what a reader of the tag
   * and the comparator alone would produce by any stable sort.
   */
  lemma {:induction false} AppliedIsStableSort<T(!new)>(comparator: Option<(T, T) -> int>, s: seq<T>)
    requires comparator.Some? && TotalPreorder(comparator.value)
    ensures var a := NewSortedComparatorAction(comparator);
      && a.actionType == SORTED
      && a.Apply(s).Success?
      && var r := a.Apply(s).value;
      && |r| == |s| && multiset(r) == multiset(s)
      && Sorted(a.GetComparator().value, r)
      && Stable(a.GetComparator().value, s, r)
      && (forall r' :: Sorted(comparator.value, r') && Stable(comparator.value, s, r') ==> r' == r)
  {
    var cmp := comparator.value;
    SortIsOrdered(cmp, s);
    SortIsStable(cmp, s);
    forall r' | Sorted(cmp, r') && Stable(cmp, s, r') ensures r' == Sort(cmp, s) {
      SortIsUnique(cmp, s, r');
    }
  }

  /** Applying the stage to its own output changes nothing. */
  lemma {:induction false} ApplyIdempotent<T(!new)>(comparator: Option<(T, T) -> int>, s: seq<T>)
    requires comparator.Some? && TotalPreorder(comparator.value)
    ensures var a := NewSortedComparatorAction(comparator);
      a.Apply(s).Success? && a.Apply(a.Apply(s).value) == a.Apply(s)
  {
    SortIdempotent(comparator.value, s);
  }
}
