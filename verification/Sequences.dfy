/** Small facts about sequences and the multisets of their elements. */
module Sequences {
  lemma WithoutFirst<T>(a: seq<T>)
    requires a != []
    ensures multiset(a[1..]) == multiset(a) - multiset{a[0]}
  {
    assert a == [a[0]] + a[1..];
  }

  function Without<T>(a: seq<T>, k: nat): (r: seq<T>)
    requires k < |a|
  {
    a[..k] + a[k + 1..]
  }

  lemma WithoutAt<T>(a: seq<T>, k: nat)
    requires k < |a|
    ensures a == a[..k] + ([a[k]] + a[k + 1..])
    ensures multiset(Without(a, k)) == multiset(a) - multiset{a[k]} && |Without(a, k)| == |a| - 1
  {
    var front, back := a[..k], a[k + 1..];
    assert a == front + ([a[k]] + back);
    assert multiset(a) == multiset(front) + (multiset{a[k]} + multiset(back));
  }

  lemma SameLength<T>(a: seq<T>, b: seq<T>)
    ensures multiset(a) == multiset(b) ==> |a| == |b|
  {
    assert |multiset(a)| == |a| && |multiset(b)| == |b|;
  }

  lemma Slices<T>(a: seq<T>, b: seq<T>)
    ensures (a + b)[..|a|] == a && (a + b)[|a|..] == b
  {
  }

  lemma Append<T>(a: seq<T>, x: T)
    ensures (a + [x])[..|a|] == a && (a + [x])[|a|] == x && |a + [x]| == |a| + 1
  {
  }
}
