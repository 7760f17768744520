/** Counting facts about finite sequences and sets. */
module Finite {

  /** A sequence longer than the set its elements come from repeats one. */
  lemma {:induction false} Repeats<T>(s: seq<T>, values: set<T>) returns (i: nat, j: nat)
    requires (forall x | x in s :: x in values) && |s| > |values|
    ensures i < j < |s| && s[i] == s[j]
    decreases |s|
  {
    var n := |s| - 1;
    if s[n] in s[..n] {
      i, j :| 0 <= i < n && s[i] == s[n] && j == n;
    } else {
      assert forall x | x in s[..n] :: x in values - {s[n]};
      i, j := Repeats(s[..n], values - {s[n]});
    }
  }

  /** A permutation of a sequence without repetition has none either. */
  lemma PermutationDistinct<T>(s: seq<T>, t: seq<T>)
    requires multiset(s) == multiset(t) && forall p, q :: 0 <= p < q < |s| ==> s[p] != s[q]
    ensures forall p, q :: 0 <= p < q < |t| ==> t[p] != t[q]
  {
    forall p, q | 0 <= p < q < |t| ensures t[p] != t[q] {
      AtMostOnce(s, t[p]);
      assert t == t[..p] + [t[p]] + t[p + 1..q] + [t[q]] + t[q + 1..];
    }
  }

  lemma {:induction false} AtMostOnce<T>(s: seq<T>, x: T)
    requires forall p, q :: 0 <= p < q < |s| ==> s[p] != s[q]
    ensures multiset(s)[x] <= 1
  {
    if s != [] {
      AtMostOnce(s[1..], x);
      assert s == [s[0]] + s[1..];
      if x == s[0] {
        assert x !in s[1..];
      }
    }
  }

  /** Two sequences without repetition that have the same elements are permutations. */
  lemma SameElementsPermute<T>(s: seq<T>, t: seq<T>)
    requires forall p, q :: 0 <= p < q < |s| ==> s[p] != s[q]
    requires forall p, q :: 0 <= p < q < |t| ==> t[p] != t[q]
    requires forall x :: x in s <==> x in t
    ensures multiset(s) == multiset(t)
  {
    forall x ensures multiset(s)[x] == multiset(t)[x] {
      AtMostOnce(s, x);
      AtMostOnce(t, x);
      assert x in multiset(s) <==> x in s;
      assert x in multiset(t) <==> x in t;
    }
  }
}
