/** Facts about sequences of any kind. */
module Sequences {
  lemma Regroup<T>(a: seq<T>, b: seq<T>, c: seq<T>)
    ensures (a + b) + c == a + (b + c)
  {
  }

  predicate NoRepeats<T(==)>(xs: seq<T>)
  {
    forall i, j :: 0 <= i < j < |xs| ==> xs[i] != xs[j]
  }

  function Map<T, U>(f: T -> U, xs: seq<T>): seq<U>
  {
    seq(|xs|, i requires 0 <= i < |xs| => f(xs[i]))
  }

  lemma MapConcat<T, U>(f: T -> U, a: seq<T>, b: seq<T>)
    ensures Map(f, a + b) == Map(f, a) + Map(f, b)
    ensures multiset(Map(f, a + b)) == multiset(Map(f, a)) + multiset(Map(f, b))
  {
    assert Map(f, a + b) == Map(f, a) + Map(f, b);
  }

  lemma TakeOut<T>(b: seq<T>, i: nat)
    requires i < |b|
    ensures multiset(b) == multiset(b[..i] + b[i + 1..]) + multiset{b[i]}
  {
    assert b == b[..i] + [b[i]] + b[i + 1..];
  }

  lemma LastInOther<T>(a: seq<T>, b: seq<T>) returns (i: nat)
    requires a != [] && multiset(a) == multiset(b)
    ensures i < |b| && b[i] == a[|a| - 1]
    ensures multiset(a[..|a| - 1]) == multiset(b[..i] + b[i + 1..])
  {
    var n := |a| - 1;
    assert a == a[..n] + [a[n]];
    assert a[n] in multiset(b);
    i :| 0 <= i < |b| && b[i] == a[n];
    TakeOut(b, i);
    assert multiset(a[..n]) == multiset(a) - multiset{a[n]};
  }

  /** One element more at the end of a and in the middle of b. */
  lemma MapOneMore<T, U>(f: T -> U, a: seq<T>, x: T, b: seq<T>, b': seq<T>)
    requires multiset(Map(f, a)) == multiset(Map(f, b + b'))
    ensures multiset(Map(f, a + [x])) == multiset(Map(f, b + [x] + b'))
  {
    MapConcat(f, a, [x]);
    MapConcat(f, b, b');
    MapConcat(f, b, [x]);
    MapConcat(f, b + [x], b');
  }

  /** What a function makes of the elements depends only on which there are, and how often. */
  lemma {:induction false} MapOfMultiset<T, U>(f: T -> U, a: seq<T>, b: seq<T>)
    requires multiset(a) == multiset(b)
    ensures multiset(Map(f, a)) == multiset(Map(f, b))
    decreases |a|
  {
    if a == [] {
      assert |multiset(b)| == |b|;
    } else {
      var n := |a| - 1;
      var i := LastInOther(a, b);
      MapOfMultiset(f, a[..n], b[..i] + b[i + 1..]);
      MapOneMore(f, a[..n], a[n], b[..i], b[i + 1..]);
      assert a == a[..n] + [a[n]];
      assert b == b[..i] + [b[i]] + b[i + 1..];
    }
  }
}
