/** `sort.SliceStable`, as a function and as what it promises. `sort.Slice` gives the same
    sequence whenever the order tells any two elements apart (`SortedPermutationUnique`). */
module Sorting {

  /** The orders Go's sort package accepts. */
  ghost predicate StrictWeak<T(!new)>(less: (T, T) -> bool) {
    && (forall x, y :: less(x, y) ==> !less(y, x))
    && (forall x, y, z :: less(x, z) ==> less(x, y) || less(y, z))
  }

  ghost predicate Sorted<T>(s: seq<T>, less: (T, T) -> bool) {
    forall i, j :: 0 <= i < j < |s| ==> !less(s[j], s[i])
  }

  /** In a sorted sequence the smaller of two elements comes first. */
  lemma SortedPlaces<T>(s: seq<T>, less: (T, T) -> bool, p: nat, q: nat)
    requires Sorted(s, less) && p < |s| && q < |s| && less(s[p], s[q]) && !less(s[q], s[p])
    ensures p < q
  {
  }

  function Insert<T>(x: T, s: seq<T>, less: (T, T) -> bool): seq<T> {
    if s == [] || !less(s[0], x) then [x] + s else [s[0]] + Insert(x, s[1..], less)
  }

  function StableSort<T>(s: seq<T>, less: (T, T) -> bool): seq<T> {
    if s == [] then [] else Insert(s[0], StableSort(s[1..], less), less)
  }

  lemma {:induction false} InsertKeeps<T>(x: T, s: seq<T>, less: (T, T) -> bool)
    ensures multiset(Insert(x, s, less)) == multiset([x] + s)
    ensures |Insert(x, s, less)| == |s| + 1
  {
    if s != [] && less(s[0], x) {
      InsertKeeps(x, s[1..], less);
      assert s == [s[0]] + s[1..];
    }
  }

  lemma {:induction false} InsertSorted<T(!new)>(x: T, s: seq<T>, less: (T, T) -> bool)
    requires StrictWeak(less) && Sorted(s, less)
    ensures Sorted(Insert(x, s, less), less)
  {
    if s != [] && less(s[0], x) {
      InsertSorted(x, s[1..], less);
      InsertKeeps(x, s[1..], less);
      var r := Insert(x, s[1..], less);
      forall j | 0 <= j < |r| ensures !less(r[j], s[0]) {
        assert r[j] in multiset([x] + s[1..]);
      }
    }
  }

  lemma {:induction false} StableSortKeeps<T>(s: seq<T>, less: (T, T) -> bool)
    ensures multiset(StableSort(s, less)) == multiset(s)
    ensures |StableSort(s, less)| == |s|
  {
    if s != [] {
      StableSortKeeps(s[1..], less);
      InsertKeeps(s[0], StableSort(s[1..], less), less);
      assert s == [s[0]] + s[1..];
    }
  }

  lemma StableSortMembers<T>(s: seq<T>, less: (T, T) -> bool)
    ensures forall x :: x in StableSort(s, less) <==> x in s
  {
    StableSortKeeps(s, less);
    forall x ensures x in StableSort(s, less) <==> x in s {
      assert x in StableSort(s, less) <==> x in multiset(StableSort(s, less));
      assert x in s <==> x in multiset(s);
    }
  }

  lemma {:induction false} StableSortSorts<T(!new)>(s: seq<T>, less: (T, T) -> bool)
    requires StrictWeak(less)
    ensures Sorted(StableSort(s, less), less)
  {
    if s != [] {
      StableSortSorts(s[1..], less);
      InsertSorted(s[0], StableSort(s[1..], less), less);
    }
  }

  /** A sorted sequence is left as it is. */
  lemma {:induction false} StableSortFixes<T>(s: seq<T>, less: (T, T) -> bool)
    requires Sorted(s, less)
    ensures StableSort(s, less) == s
  {
    if s != [] {
      StableSortFixes(s[1..], less);
    }
  }

  /** The elements of `s` that the order cannot tell from `x`, in the order they occur. */
  function Peers<T>(s: seq<T>, x: T, less: (T, T) -> bool): seq<T> {
    if s == [] then []
    else (if !less(s[0], x) && !less(x, s[0]) then [s[0]] else []) + Peers(s[1..], x, less)
  }

  lemma {:induction false} InsertStable<T(!new)>(e: T, s: seq<T>, x: T, less: (T, T) -> bool)
    requires StrictWeak(less)
    ensures Peers(Insert(e, s, less), x, less) == Peers([e] + s, x, less)
  {
    if s != [] && less(s[0], e) {
      InsertStable(e, s[1..], x, less);
      assert ([e] + s)[1..] == s;
      assert ([e] + s[1..])[1..] == s[1..];
      assert Insert(e, s, less)[1..] == Insert(e, s[1..], less);
    }
  }

  /** Elements the order cannot tell apart keep their order. */
  lemma {:induction false} StableSortStable<T(!new)>(s: seq<T>, x: T, less: (T, T) -> bool)
    requires StrictWeak(less)
    ensures Peers(StableSort(s, less), x, less) == Peers(s, x, less)
  {
    if s != [] {
      StableSortStable(s[1..], x, less);
      InsertStable(s[0], StableSort(s[1..], less), x, less);
      var r := [s[0]] + StableSort(s[1..], less);
      assert r[1..] == StableSort(s[1..], less);
    }
  }

  /** The order tells any two different elements of `s` apart. */
  ghost predicate Separates<T>(less: (T, T) -> bool, s: seq<T>) {
    forall i, j :: 0 <= i < |s| && 0 <= j < |s| && s[i] != s[j] ==> less(s[i], s[j]) || less(s[j], s[i])
  }

  lemma SortedHeadUnique<T>(s: seq<T>, t: seq<T>, less: (T, T) -> bool)
    requires Sorted(s, less) && Sorted(t, less) && multiset(s) == multiset(t)
    requires Separates(less, s)
    requires s != [] && t != []
    ensures s[0] == t[0]
  {
    assert s[0] in multiset(t) && t[0] in multiset(s);
    var i :| 0 <= i < |t| && t[i] == s[0];
    var j :| 0 <= j < |s| && s[j] == t[0];
    assert j > 0 ==> !less(s[j], s[0]);
    assert i > 0 ==> !less(t[i], t[0]);
  }

  /** Two sorted permutations agree when the order tells distinct elements apart. */
  lemma {:induction false} SortedPermutationUnique<T>(s: seq<T>, t: seq<T>, less: (T, T) -> bool)
    requires Sorted(s, less) && Sorted(t, less) && multiset(s) == multiset(t)
    requires Separates(less, s)
    ensures s == t
  {
    assert |s| == |multiset(s)| == |multiset(t)| == |t|;
    if s != [] {
      SortedHeadUnique(s, t, less);
      TailsPermute(s, t);
      SortedPermutationUnique(s[1..], t[1..], less);
      assert s == [s[0]] + s[1..] && t == [t[0]] + t[1..];
    }
  }

  lemma TailsPermute<T>(s: seq<T>, t: seq<T>)
    requires s != [] && t != [] && s[0] == t[0] && multiset(s) == multiset(t)
    ensures multiset(s[1..]) == multiset(t[1..])
  {
    assert s == [s[0]] + s[1..] && t == [t[0]] + t[1..];
    assert multiset(s[1..]) == multiset(s) - multiset{s[0]} == multiset(t[1..]);
  }

  lemma SeparatesPermutation<T>(less: (T, T) -> bool, s: seq<T>, t: seq<T>)
    requires Separates(less, s) && multiset(s) == multiset(t)
    ensures Separates(less, t)
  {
    forall i, j | 0 <= i < |t| && 0 <= j < |t| && t[i] != t[j]
      ensures less(t[i], t[j]) || less(t[j], t[i])
    {
      assert t[i] in multiset(s) && t[j] in multiset(s);
      var k :| 0 <= k < |s| && s[k] == t[i];
      var l :| 0 <= l < |s| && s[l] == t[j];
      assert less(s[k], s[l]) || less(s[l], s[k]);
    }
  }

  /** The order of the input does not matter when the order tells its elements apart. */
  lemma StableSortIgnoresInputOrder<T(!new)>(s: seq<T>, t: seq<T>, less: (T, T) -> bool)
    requires StrictWeak(less) && multiset(s) == multiset(t)
    requires Separates(less, s)
    ensures StableSort(s, less) == StableSort(t, less)
  {
    StableSortKeeps(s, less);
    StableSortKeeps(t, less);
    StableSortSorts(s, less);
    StableSortSorts(t, less);
    SeparatesPermutation(less, s, StableSort(s, less));
    SortedPermutationUnique(StableSort(s, less), StableSort(t, less), less);
  }
}
