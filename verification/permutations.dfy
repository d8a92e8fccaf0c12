/** Sequences with an element taken out, and sequences that are permutations of each other. */
module Permutations {
  /** s without its element at i. */
  function Without<T>(s: seq<T>, i: nat): seq<T>
    requires i < |s|
  {
    s[..i] + s[i + 1..]
  }

  lemma MultisetWithout<T>(s: seq<T>, i: nat)
    requires i < |s|
    ensures multiset(s) == multiset(Without(s, i)) + multiset{s[i]}
  {
    assert s == s[..i] + [s[i]] + s[i + 1..];
  }

  lemma WithoutIsDifference<T>(s: seq<T>, i: nat)
    requires i < |s|
    ensures multiset(Without(s, i)) == multiset(s) - multiset{s[i]}
  {
    MultisetWithout(s, i);
  }

  /** Taking out an element but the last one leaves the last one last. */
  lemma WithoutLast<T>(s: seq<T>, i: nat)
    requires i < |s|
    ensures var n, rest := |s| - 1, Without(s, i);
            if i == n then rest == s[..n]
            else rest[..|rest| - 1] == Without(s[..n], i) && rest[|rest| - 1] == s[n]
  {
  }

  /** Members of a permutation are members. */
  lemma SameMembers<T>(a: seq<T>, b: seq<T>)
    requires multiset(a) == multiset(b)
    ensures |a| == |b|
    ensures forall x :: x in a <==> x in b
  {
    assert |a| == |multiset(a)| == |multiset(b)| == |b|;
    forall x ensures x in a <==> x in b {
      assert x in a <==> x in multiset(a);
      assert x in b <==> x in multiset(b);
    }
  }

  /** The last element of a within b that holds all of a: without it, b holds the rest of a. */
  lemma LastFound<T>(a: seq<T>, b: seq<T>) returns (i: nat)
    requires multiset(a) <= multiset(b) && a != []
    ensures i < |b| && b[i] == a[|a| - 1]
    ensures multiset(a[..|a| - 1]) <= multiset(Without(b, i))
  {
    var n := |a| - 1;
    assert a[n] in multiset(a);
    assert a[n] in multiset(b);
    i :| 0 <= i < |b| && b[i] == a[n];
    WithoutIsDifference(b, i);
    WithoutIsDifference(a, n);
    WithoutLast(a, n);
  }

  /** The last element of a within a permutation of it; without it the two are still permutations. */
  lemma LastMatched<T>(a: seq<T>, b: seq<T>) returns (i: nat)
    requires multiset(a) == multiset(b) && a != []
    ensures i < |b| && b[i] == a[|a| - 1]
    ensures multiset(a[..|a| - 1]) == multiset(Without(b, i))
  {
    i := LastFound(a, b);
    WithoutIsDifference(b, i);
    WithoutIsDifference(a, |a| - 1);
    WithoutLast(a, |a| - 1);
  }
}
