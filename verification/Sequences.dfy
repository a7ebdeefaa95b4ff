/** Facts about sequences and the multisets of their elements. */
module Sequences {

  lemma Membership<T>(s: seq<T>)
    ensures forall x :: x in s <==> x in multiset(s)
    ensures |s| == |multiset(s)|
  {}

  /** s without the element at i. */
  function Without<T>(s: seq<T>, i: nat): seq<T>
    requires i < |s|
  {
    s[..i] + s[i + 1..]
  }

  lemma WithoutMultiset<T>(s: seq<T>, i: nat)
    requires i < |s|
    ensures multiset(s) == multiset(Without(s, i)) + multiset{s[i]}
  {
    assert s == s[..i] + [s[i]] + s[i + 1..];
  }

  lemma WithoutLast<T>(s: seq<T>)
    requires s != []
    ensures Without(s, |s| - 1) == s[..|s| - 1]
  {}

  lemma WithoutButLast<T>(s: seq<T>, i: nat)
    requires i < |s| - 1
    ensures |Without(s, i)| == |s| - 1
    ensures Without(s, i)[..|s| - 2] == Without(s[..|s| - 1], i)
    ensures Without(s, i)[|s| - 2] == s[|s| - 1]
  {}

  lemma ButLastMultiset<T>(s: seq<T>)
    requires s != []
    ensures multiset(s) == multiset(s[..|s| - 1]) + multiset{s[|s| - 1]}
    ensures multiset(s[..|s| - 1]) == multiset(s) - multiset{s[|s| - 1]}
  {
    WithoutMultiset(s, |s| - 1);
    assert Without(s, |s| - 1) == s[..|s| - 1];
  }

  /** Two arrangements of the same elements: the last of a is somewhere in b, and the rests agree. */
  lemma MatchLast<T>(a: seq<T>, b: seq<T>) returns (i: nat)
    requires a != [] && multiset(a) == multiset(b)
    ensures i < |b| && b[i] == a[|a| - 1]
    ensures multiset(a[..|a| - 1]) == multiset(Without(b, i))
  {
    var n := |a| - 1;
    ButLastMultiset(a);
    assert a[n] in multiset(b);
    i :| 0 <= i < |b| && b[i] == a[n];
    WithoutMultiset(b, i);
  }
}
