/**
 * `AddUnique` (Foundations/Extensions/ListExtensions.cs): appends to a list, in place,
 * the distinct items of another list that it does not already hold.
 */
module ListExtensions {

  /** A .NET `List<T>`: a reference to a mutable sequence. */
  class List<T> {
    var items: seq<T>

    constructor (items: seq<T>)
      ensures this.items == items
    {
      this.items := items;
    }
  }

  /** How AddUnique ends: normally, or with the exception it raises. */
  datatype Outcome = Done | NullReference | ArgumentNull

  /** No element occurs twice. */
  ghost predicate NoDuplicates<T>(s: seq<T>) {
    forall i, j :: 0 <= i < j < |s| ==> s[i] != s[j]
  }

  /** LINQ `Distinct`: the first occurrence of every element, in order. */
  function Distinct<T(==)>(s: seq<T>): (r: seq<T>)
    ensures forall x :: x in r ==> x in s
    ensures forall x :: x in s ==> x in r
    ensures NoDuplicates(r)
  {
    if |s| == 0 then []
    else
      var d := Distinct(s[..|s| - 1]);
      if s[|s| - 1] in d then d else d + [s[|s| - 1]]
  }

  /** LINQ `Where(i => !existing.Contains(i))`: the elements of `s` not in `existing`, in order. */
  function Without<T(==)>(s: seq<T>, existing: seq<T>): (r: seq<T>)
    ensures forall x :: x in r ==> x in s && x !in existing
    ensures forall x :: x in s && x !in existing ==> x in r
    ensures NoDuplicates(s) ==> NoDuplicates(r)
  {
    if |s| == 0 then []
    else
      var w := Without(s[..|s| - 1], existing);
      if s[|s| - 1] in existing then w else w + [s[|s| - 1]]
  }

  /**
   * The items AddUnique appends to a list holding `existing` (lines 24-26): each item of
   * `itemsToAdd` that the list lacks, once.
   */
  function UniqueNewItems<T(==)>(existing: seq<T>, itemsToAdd: seq<T>): (r: seq<T>)
    ensures forall x :: x in r ==> x in itemsToAdd && x !in existing
    ensures forall x :: x in itemsToAdd && x !in existing ==> x in r
    ensures NoDuplicates(r)
  {
    Without(Distinct(itemsToAdd), existing)
  }

  /**
   * AddUnique. `AddRange` enumerates the lazy filter, so each item is tested against the
   * list as it grows. Every item Distinct has already yielded is by then in the list, so
   * one membership test on the growing list decides both filters.
   */
  method AddUnique<T(==)>(instance: List?<T>, itemsToAdd: List?<T>) returns (outcome: Outcome)
    modifies instance
    ensures instance == null ==> outcome == NullReference
    ensures instance != null && itemsToAdd == null ==>
      outcome == ArgumentNull && instance.items == old(instance.items)
    ensures instance != null && itemsToAdd != null ==>
      outcome == Done && instance.items == old(instance.items) + UniqueNewItems(old(instance.items), old(itemsToAdd.items))
  {
    if instance == null {
      return NullReference;
    }
    if itemsToAdd == null {
      return ArgumentNull;
    }
    var source := itemsToAdd.items;
    var existing := instance.items;
    var items := existing;
    for i := 0 to |source|
      invariant items == AddRangeFiltered(existing, source[..i])
    {
      var item := source[i];
      assert source[..i + 1] == source[..i] + [item];
      if item !in items {
        items := items + [item];
      }
    }
    assert source[..|source|] == source;
    AddRangeFilteredIsUnique(existing, source);
    instance.items := items;
    return Done;
  }

  /**
   * The list after `AddRange` has enumerated the filter over `s` item by item, each item
   * tested against the list as it has grown so far.
   */
  function AddRangeFiltered<T(==)>(list: seq<T>, s: seq<T>): seq<T> {
    if |s| == 0 then list
    else
      var grown := AddRangeFiltered(list, s[..|s| - 1]);
      if s[|s| - 1] in grown then grown else grown + [s[|s| - 1]]
  }

  /** Testing against the growing list appends the same items as Distinct, then Where on the old list. */
  lemma {:induction false} AddRangeFilteredIsUnique<T>(existing: seq<T>, s: seq<T>)
    ensures AddRangeFiltered(existing, s) == existing + UniqueNewItems(existing, s)
  {
    if |s| > 0 {
      var seen, item := s[..|s| - 1], s[|s| - 1];
      assert s == seen + [item];
      AddRangeFilteredIsUnique(existing, seen);
      AddUniqueStep(existing, seen, item);
    }
  }

  /** One item of the enumeration: it is appended exactly when the list does not hold it yet. */
  lemma AddUniqueStep<T>(existing: seq<T>, seen: seq<T>, item: T)
    ensures var added := Without(Distinct(seen), existing);
      Without(Distinct(seen + [item]), existing)
      == if item in existing + added then added else added + [item]
  {
    DistinctSnoc(seen, item);
    if item !in seen {
      WithoutSnoc(Distinct(seen), item, existing);
    }
  }

  lemma DistinctSnoc<T>(s: seq<T>, x: T)
    ensures Distinct(s + [x]) == if x in s then Distinct(s) else Distinct(s) + [x]
  {
    assert (s + [x])[..|s|] == s;
  }

  lemma WithoutSnoc<T>(s: seq<T>, x: T, existing: seq<T>)
    ensures Without(s + [x], existing) == if x in existing then Without(s, existing) else Without(s, existing) + [x]
  {
    assert (s + [x])[..|s|] == s;
  }

  /** After the call every item of `itemsToAdd` is in the list. */
  lemma AllItemsPresentAfter<T>(existing: seq<T>, itemsToAdd: seq<T>)
    ensures forall x :: x in itemsToAdd ==> x in existing + UniqueNewItems(existing, itemsToAdd)
  {
  }

  /** A list without duplicates keeps none. */
  lemma NoDuplicatesPreserved<T>(existing: seq<T>, itemsToAdd: seq<T>)
    requires NoDuplicates(existing)
    ensures NoDuplicates(existing + UniqueNewItems(existing, itemsToAdd))
  {
    var added := UniqueNewItems(existing, itemsToAdd);
    var all := existing + added;
    forall i, j | 0 <= i < j < |all|
      ensures all[i] != all[j]
    {
      if j >= |existing| && i < |existing| {
        assert all[j] in added;
      }
    }
  }

  /** Elements all present in `existing` leave nothing to append. */
  lemma {:induction false} WithoutPresent<T>(s: seq<T>, existing: seq<T>)
    requires forall x :: x in s ==> x in existing
    ensures Without(s, existing) == []
  {
    if |s| > 0 {
      WithoutPresent(s[..|s| - 1], existing);
    }
  }

  /** A second call with the same items appends nothing: AddUnique is idempotent. */
  lemma AddUniqueIdempotent<T>(existing: seq<T>, itemsToAdd: seq<T>)
    ensures UniqueNewItems(existing + UniqueNewItems(existing, itemsToAdd), itemsToAdd) == []
  {
    WithoutPresent(Distinct(itemsToAdd), existing + UniqueNewItems(existing, itemsToAdd));
  }
}
