/**
 * The stable sort that `Stream.sorted(comparator)` performs on an ordered
 * stream, written as an insertion sort over sequences, together with the
 * properties Java promises of it: the result is a permutation of the input,
 * it is ordered by the comparator, and elements that compare equal keep
 * their relative input order. Ordered and stable together determine the
 * result, so `Sort` is the only function with these properties.
 */
module StableSort {

  /**
   * The contract of `java.util.Comparator.compare`: the signs of `cmp(x, y)`
   * and `cmp(y, x)` are opposite, and "compares at most" (`cmp(x, y) <= 0`)
   * is transitive. Together these make `cmp(x, y) <= 0` a total preorder.
   */
  ghost predicate TotalPreorder<T(!new)>(cmp: (T, T) -> int) {
    && (forall x, y :: cmp(x, y) < 0 <==> cmp(y, x) > 0)
    && (forall x, y, z :: cmp(x, y) <= 0 && cmp(y, z) <= 0 ==> cmp(x, z) <= 0)
  }

  /** Every element compares at most every later element. */
  ghost predicate Sorted<T>(cmp: (T, T) -> int, s: seq<T>) {
    forall i, j :: 0 <= i < j < |s| ==> cmp(s[i], s[j]) <= 0
  }

  /** The elements of `s` that compare equal to `x`, in the order in which they occur in `s`. */
  function EqClass<T>(cmp: (T, T) -> int, x: T, s: seq<T>): seq<T> {
    if s == [] then []
    else (if cmp(x, s[0]) == 0 then [s[0]] else []) + EqClass(cmp, x, s[1..])
  }

  /** `output` lists every class of equal elements of `input` in the same order as `input` does. */
  ghost predicate Stable<T(!new)>(cmp: (T, T) -> int, input: seq<T>, output: seq<T>) {
    forall x :: EqClass(cmp, x, output) == EqClass(cmp, x, input)
  }

  /**
   * Inserts `x` in front of the first element it compares at most, so that
   * it lands before every element that compares equal to it.
   */
  function Insert<T(==)>(cmp: (T, T) -> int, x: T, s: seq<T>): (r: seq<T>)
    ensures |r| == |s| + 1
    ensures multiset(r) == multiset(s) + multiset{x}
  {
    if s == [] || cmp(x, s[0]) <= 0 then [x] + s
    else
      assert s == [s[0]] + s[1..];
      [s[0]] + Insert(cmp, x, s[1..])
  }

  /** Stable insertion sort: sorts the tail, then inserts the head in front of its equals. */
  function Sort<T(==)>(cmp: (T, T) -> int, s: seq<T>): (r: seq<T>)
    ensures |r| == |s| && multiset(r) == multiset(s)
  {
    if s == [] then []
    else
      assert s == [s[0]] + s[1..];
      Insert(cmp, s[0], Sort(cmp, s[1..]))
  }

  /** Under the comparator contract every element compares equal to itself. */
  lemma Reflexive<T(!new)>(cmp: (T, T) -> int, x: T)
    requires TotalPreorder(cmp)
    ensures cmp(x, x) == 0
  {
  }

  /** Dropping the head keeps a sequence ordered. */
  lemma SortedTail<T>(cmp: (T, T) -> int, s: seq<T>)
    requires Sorted(cmp, s) && s != []
    ensures Sorted(cmp, s[1..])
  {
  }

  /** Prepending an element that compares at most every element keeps a sequence ordered. */
  lemma SortedCons<T>(cmp: (T, T) -> int, x: T, t: seq<T>)
    requires Sorted(cmp, t)
    requires forall j :: 0 <= j < |t| ==> cmp(x, t[j]) <= 0
    ensures Sorted(cmp, [x] + t)
  {
  }

  /** The head of an ordered sequence compares at most every element after it. */
  lemma HeadAtMost<T(!new)>(cmp: (T, T) -> int, x: T, s: seq<T>)
    requires TotalPreorder(cmp)
    requires Sorted(cmp, s) && s != [] && cmp(x, s[0]) <= 0
    ensures forall j :: 0 <= j < |s| ==> cmp(x, s[j]) <= 0
  {
  }

  /** Inserting into an ordered sequence keeps it ordered. */
  lemma {:induction false} InsertSorted<T(!new)>(cmp: (T, T) -> int, x: T, s: seq<T>)
    requires TotalPreorder(cmp)
    requires Sorted(cmp, s)
    ensures Sorted(cmp, Insert(cmp, x, s))
  {
    if s == [] || cmp(x, s[0]) <= 0 {
      if s != [] {
        HeadAtMost(cmp, x, s);
      }
      SortedCons(cmp, x, s);
    } else {
      var t := Insert(cmp, x, s[1..]);
      SortedTail(cmp, s);
      InsertSorted(cmp, x, s[1..]);
      forall j | 0 <= j < |t| ensures cmp(s[0], t[j]) <= 0 {
        assert t[j] in multiset(s[1..]) + multiset{x} by {
          assert t[j] in multiset(t);
        }
        if t[j] != x {
          var k :| 0 <= k < |s[1..]| && s[1..][k] == t[j];
          assert s[k + 1] == t[j];
        }
      }
      SortedCons(cmp, s[0], t);
    }
  }

  /** The output of `Sort` is ordered by the comparator. */
  lemma {:induction false} SortIsOrdered<T(!new)>(cmp: (T, T) -> int, s: seq<T>)
    requires TotalPreorder(cmp)
    ensures Sorted(cmp, Sort(cmp, s))
  {
    if s != [] {
      SortIsOrdered(cmp, s[1..]);
      InsertSorted(cmp, s[0], Sort(cmp, s[1..]));
    }
  }

  /**
   * Inserting `y` adds it to the class of `x` exactly when `y` equals `x`,
   * and then in front of the class: no element that `Insert` passes over
   * compares equal to `y`.
   */
  lemma {:induction false} EqClassInsert<T(!new)>(cmp: (T, T) -> int, x: T, y: T, s: seq<T>)
    requires TotalPreorder(cmp)
    ensures EqClass(cmp, x, Insert(cmp, y, s)) ==
            (if cmp(x, y) == 0 then [y] else []) + EqClass(cmp, x, s)
  {
    if s == [] || cmp(y, s[0]) <= 0 {
      assert ([y] + s)[1..] == s;
    } else {
      var t := Insert(cmp, y, s[1..]);
      assert ([s[0]] + t)[1..] == t;
      EqClassInsert(cmp, x, y, s[1..]);
    }
  }

  /** `Sort` is stable: every class of equal elements keeps its input order. */
  lemma {:induction false} SortIsStable<T(!new)>(cmp: (T, T) -> int, s: seq<T>)
    requires TotalPreorder(cmp)
    ensures Stable(cmp, s, Sort(cmp, s))
  {
    if s != [] {
      SortIsStable(cmp, s[1..]);
      forall x ensures EqClass(cmp, x, Sort(cmp, s)) == EqClass(cmp, x, s) {
        EqClassInsert(cmp, x, s[0], Sort(cmp, s[1..]));
      }
    }
  }

  /** An input that is already ordered is returned unchanged. */
  lemma {:induction false} SortOfSorted<T(!new)>(cmp: (T, T) -> int, s: seq<T>)
    requires TotalPreorder(cmp)
    requires Sorted(cmp, s)
    ensures Sort(cmp, s) == s
  {
    if s != [] {
      SortedTail(cmp, s);
      SortOfSorted(cmp, s[1..]);
      if |s| > 1 {
        assert cmp(s[0], s[1]) <= 0;
      }
    }
  }

  /** Sorting twice gives the same result as sorting once. */
  lemma SortIdempotent<T(!new)>(cmp: (T, T) -> int, s: seq<T>)
    requires TotalPreorder(cmp)
    ensures Sort(cmp, Sort(cmp, s)) == Sort(cmp, s)
  {
    SortIsOrdered(cmp, s);
    SortOfSorted(cmp, Sort(cmp, s));
  }

  /** Every member of the class of `x` in `s` occurs in `s` and compares equal to `x`. */
  lemma {:induction false} EqClassElements<T>(cmp: (T, T) -> int, x: T, s: seq<T>, k: nat)
    requires k < |EqClass(cmp, x, s)|
    ensures EqClass(cmp, x, s)[k] in s
    ensures cmp(x, EqClass(cmp, x, s)[k]) == 0
  {
    if cmp(x, s[0]) == 0 {
      if k > 0 {
        EqClassElements(cmp, x, s[1..], k - 1);
      }
    } else {
      EqClassElements(cmp, x, s[1..], k);
    }
  }

  /** The head of an ordered sequence compares at most each of its elements. */
  lemma HeadAtMostMember<T(!new)>(cmp: (T, T) -> int, s: seq<T>, e: T)
    requires TotalPreorder(cmp)
    requires Sorted(cmp, s) && e in s
    ensures cmp(s[0], e) <= 0
  {
  }

  /** The head of an ordered sequence heads its own class in every sequence with the same classes. */
  lemma HeadOccursLater<T(!new)>(cmp: (T, T) -> int, a: seq<T>, b: seq<T>)
    requires TotalPreorder(cmp)
    requires Sorted(cmp, b) && a != []
    requires EqClass(cmp, a[0], a) == EqClass(cmp, a[0], b)
    ensures b != [] && cmp(b[0], a[0]) <= 0 && EqClass(cmp, a[0], b)[0] == a[0]
  {
    Reflexive(cmp, a[0]);
    assert EqClass(cmp, a[0], a)[0] == a[0];
    EqClassElements(cmp, a[0], b, 0);
    HeadAtMostMember(cmp, b, a[0]);
  }

  /** Two ordered sequences that agree on every class of equal elements are equal. */
  lemma {:induction false} SortedEqClassesDetermine<T(!new)>(cmp: (T, T) -> int, a: seq<T>, b: seq<T>)
    requires TotalPreorder(cmp)
    requires Sorted(cmp, a) && Sorted(cmp, b)
    requires forall x :: EqClass(cmp, x, a) == EqClass(cmp, x, b)
    ensures a == b
  {
    if a != [] {
      HeadOccursLater(cmp, a, b);
    } else if b != [] {
      HeadOccursLater(cmp, b, a);
    }
    if a != [] && b != [] {
      var x, y := a[0], b[0];
      HeadOccursLater(cmp, b, a);
      // x and y compare equal, so y heads the class of x in b
      assert cmp(x, y) == 0;
      assert x == y;
      forall z ensures EqClass(cmp, z, a[1..]) == EqClass(cmp, z, b[1..]) {
        var p := if cmp(z, x) == 0 then [x] else [];
        assert EqClass(cmp, z, a) == p + EqClass(cmp, z, a[1..]);
        assert EqClass(cmp, z, b) == p + EqClass(cmp, z, b[1..]);
        assert EqClass(cmp, z, a[1..]) == EqClass(cmp, z, a)[|p|..];
        assert EqClass(cmp, z, b[1..]) == EqClass(cmp, z, b)[|p|..];
      }
      SortedTail(cmp, a);
      SortedTail(cmp, b);
      SortedEqClassesDetermine(cmp, a[1..], b[1..]);
      assert a == [x] + a[1..] && b == [y] + b[1..];
    }
  }

  /**
   * `Sort` is the only stable sort: any ordered output that keeps every class
   * of equal elements in input order is `Sort`'s output.
   */
  lemma SortIsUnique<T(!new)>(cmp: (T, T) -> int, s: seq<T>, r: seq<T>)
    requires TotalPreorder(cmp)
    requires Sorted(cmp, r) && Stable(cmp, s, r)
    ensures r == Sort(cmp, s)
  {
    SortIsOrdered(cmp, s);
    SortIsStable(cmp, s);
    SortedEqClassesDetermine(cmp, r, Sort(cmp, s));
  }
}
