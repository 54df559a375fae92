/**
 * Membership predicates over sequences (Foundations/Extensions/EnumerableExtensions.cs).
 * Both are LINQ `All`/`Contains` expressions over the first collection.
 */
module EnumerableExtensions {

  /** `instance.All(set.Contains)`: every element of `instance` occurs in `other`. */
  function IsSubsetOf<T(==)>(instance: seq<T>, other: seq<T>): (r: bool)
    ensures r <==> forall x :: x in instance ==> x in other
  {
    if |instance| == 0 then true
    else instance[0] in other && IsSubsetOf(instance[1..], other)
  }

  /**
   * `!instance.All(set.Contains)`: despite its name, true exactly when some element of
   * `instance` is missing from `other`.
   */
  function IntersectIsEmptySet<T(==)>(instance: seq<T>, other: seq<T>): (r: bool)
    ensures r <==> exists x :: x in instance && x !in other
  {
    !IsSubsetOf(instance, other)
  }

  /** What the name and doc comment of IntersectIsEmptySet promise: no element is shared. */
  function IntersectionIsEmpty<T(==)>(instance: seq<T>, other: seq<T>): (r: bool)
    ensures r <==> forall x :: x in instance ==> x !in other
  {
    if |instance| == 0 then true
    else instance[0] !in other && IntersectionIsEmpty(instance[1..], other)
  }

  /** The empty collection is a subset of anything, and every collection of itself. */
  lemma IsSubsetOfEmptyAndReflexive<T>(a: seq<T>, b: seq<T>)
    ensures IsSubsetOf([], b)
    ensures IsSubsetOf(a, a)
  {
  }

  /** Only membership matters: reordering or duplicating elements changes nothing. */
  lemma IsSubsetOfDependsOnlyOnMembership<T>(a: seq<T>, a': seq<T>, b: seq<T>, b': seq<T>)
    requires forall x :: x in a <==> x in a'
    requires forall x :: x in b <==> x in b'
    ensures IsSubsetOf(a, b) == IsSubsetOf(a', b')
  {
  }

  /** IsSubsetOf is transitive. */
  lemma IsSubsetOfTransitive<T>(a: seq<T>, b: seq<T>, c: seq<T>)
    requires IsSubsetOf(a, b) && IsSubsetOf(b, c)
    ensures IsSubsetOf(a, c)
  {
  }

  /** IntersectIsEmptySet is exactly the negation of IsSubsetOf. */
  lemma IntersectIsEmptySetIsNotSubset<T>(a: seq<T>, b: seq<T>)
    ensures IntersectIsEmptySet(a, b) == !IsSubsetOf(a, b)
  {
  }

  /**
   * IntersectIsEmptySet disagrees with its documented meaning in both directions:
   * it reports an empty intersection for [1, 2] and [1], which share 1, and a
   * non-empty one for [] and [3], which share nothing.
   */
  lemma IntersectIsEmptySetMisreports()
    ensures IntersectIsEmptySet([1, 2], [1]) && !IntersectionIsEmpty([1, 2], [1])
    ensures !IntersectIsEmptySet([], [3]) && IntersectionIsEmpty([], [3])
  {
    assert 2 in [1, 2] && 2 !in [1];
    assert 1 in [1, 2] && 1 in [1];
  }
}
