/** Sorted, duplicate-free sequences: what `sorted(np.unique(...))`, the key
    order of `groupby` and the index order of `crosstab` produce. */
module Ordering {

  ghost predicate IsStrictTotalOrder<T(!new)>(lt: (T, T) -> bool) {
    && (forall x :: !lt(x, x))
    && (forall x, y, z :: lt(x, y) && lt(y, z) ==> lt(x, z))
    && (forall x, y :: x != y ==> lt(x, y) || lt(y, x))
  }

  predicate StrictlySorted<T>(s: seq<T>, lt: (T, T) -> bool) {
    forall i, j :: 0 <= i < j < |s| ==> lt(s[i], s[j])
  }

  /** Inserts `x` at its place in the sorted `s`, unless it is already there. */
  function InsertUnique<T(==)>(x: T, s: seq<T>, lt: (T, T) -> bool): (r: seq<T>)
    ensures |r| <= |s| + 1
  {
    if s == [] then [x]
    else if x == s[0] then s
    else if lt(x, s[0]) then [x] + s
    else [s[0]] + InsertUnique(x, s[1..], lt)
  }

  /** The distinct elements of `xs` in increasing order. */
  function SortedUnique<T(==)>(xs: seq<T>, lt: (T, T) -> bool): (r: seq<T>)
    ensures |r| <= |xs|
  {
    if xs == [] then [] else InsertUnique(xs[|xs| - 1], SortedUnique(xs[..|xs| - 1], lt), lt)
  }

  lemma {:induction false} InsertUniqueCorrect<T(!new)>(x: T, s: seq<T>, lt: (T, T) -> bool)
    requires IsStrictTotalOrder(lt) && StrictlySorted(s, lt)
    ensures StrictlySorted(InsertUnique(x, s, lt), lt)
    ensures forall y :: y in InsertUnique(x, s, lt) <==> y == x || y in s
  {
    if s != [] && x != s[0] && !lt(x, s[0]) {
      assert StrictlySorted(s[1..], lt);
      InsertUniqueCorrect(x, s[1..], lt);
      var rest := InsertUnique(x, s[1..], lt);
      assert s == [s[0]] + s[1..];
      assert lt(s[0], x);
      forall y | y in rest ensures lt(s[0], y) {
        if y != x {
          var k :| 0 <= k < |s[1..]| && s[1..][k] == y;
          assert s[k + 1] == y;
        }
      }
    }
  }

  /** The result is strictly increasing and holds exactly the elements of `xs`. */
  lemma {:induction false} SortedUniqueCorrect<T(!new)>(xs: seq<T>, lt: (T, T) -> bool)
    requires IsStrictTotalOrder(lt)
    ensures StrictlySorted(SortedUnique(xs, lt), lt)
    ensures forall y :: y in SortedUnique(xs, lt) <==> y in xs
  {
    if xs != [] {
      var init := xs[..|xs| - 1];
      SortedUniqueCorrect(init, lt);
      InsertUniqueCorrect(xs[|xs| - 1], SortedUnique(init, lt), lt);
      assert xs == init + [xs[|xs| - 1]];
    }
  }

  /** A strictly sorted sequence has no repeated element. */
  lemma StrictlySortedDistinct<T(!new)>(s: seq<T>, lt: (T, T) -> bool)
    requires IsStrictTotalOrder(lt) && StrictlySorted(s, lt)
    ensures forall i, j :: 0 <= i < |s| && 0 <= j < |s| && i != j ==> s[i] != s[j]
  {
    forall i, j | 0 <= i < |s| && 0 <= j < |s| && i != j ensures s[i] != s[j] {
      if i < j {
        assert lt(s[i], s[j]);
      } else {
        assert lt(s[j], s[i]);
      }
    }
  }
}
