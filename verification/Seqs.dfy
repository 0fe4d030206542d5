/** Small facts about sequences used by several modules. */
module Seqs {

  ghost predicate NoDup<T>(xs: seq<T>) {
    forall i, j :: 0 <= i < j < |xs| ==> xs[i] != xs[j]
  }

  function Index<T(==)>(xs: seq<T>, x: T): (i: nat)
    requires x in xs
    ensures i < |xs| && xs[i] == x
  {
    if xs[0] == x then 0 else 1 + Index(xs[1..], x)
  }

  /** xs with the first occurrence of x cut out. */
  function Without<T(==)>(xs: seq<T>, x: T): seq<T>
    requires x in xs
  {
    var i := Index(xs, x);
    xs[..i] + xs[i + 1..]
  }

  lemma WithoutMembers<T>(xs: seq<T>, x: T)
    requires NoDup(xs) && x in xs
    ensures NoDup(Without(xs, x))
    ensures |Without(xs, x)| == |xs| - 1
    ensures forall y :: y in Without(xs, x) <==> y in xs && y != x
  {
    var i := Index(xs, x);
    var ys := Without(xs, x);
    forall y | y in xs && y != x ensures y in ys {
      var j := Index(xs, y);
      assert ys[if j < i then j else j - 1] == y;
    }
  }

  lemma NoDupPrepend<T>(x: T, xs: seq<T>)
    requires NoDup(xs) && x !in xs
    ensures NoDup([x] + xs)
  {
  }

  lemma NoDupTail<T>(xs: seq<T>)
    requires NoDup(xs) && xs != []
    ensures NoDup(xs[1..]) && forall y :: y in xs[1..] <==> y in xs && y != xs[0]
  {
    forall y | y in xs && y != xs[0] ensures y in xs[1..] {
      var j := Index(xs, y);
      assert xs[1..][j - 1] == y;
    }
  }

  lemma SetSize<T>(xs: seq<T>)
    requires NoDup(xs)
    ensures |set x | x in xs| == |xs|
  {
    if xs == [] {
    } else {
      NoDupTail(xs);
      SetSize(xs[1..]);
      assert (set x | x in xs) == {xs[0]} + (set x | x in xs[1..]);
    }
  }

  function Below(n: nat): (s: set<nat>)
    ensures |s| == n
    ensures forall i: nat :: i in s <==> i < n
  {
    if n == 0 then {} else Below(n - 1) + {n - 1}
  }

  /** Distinct numbers below n are at most n, and n of them are all of them. */
  lemma Pigeonhole(xs: seq<nat>, n: nat)
    requires NoDup(xs) && forall x :: x in xs ==> x < n
    ensures |xs| <= n
    ensures |xs| == n ==> forall i: nat :: i < n ==> i in xs
  {
    SetSize(xs);
    var s := set x | x in xs;
    var r := Below(n);
    assert s <= r;
    SubsetSize(s, r);
    if |xs| == n {
      forall i: nat | i < n ensures i in xs { assert i in r; }
    }
  }

  lemma SubsetSize<T>(s: set<T>, r: set<T>)
    requires s <= r
    ensures |s| <= |r| && (|s| == |r| ==> s == r)
  {
    var d := r - s;
    assert r == s + d && |r| == |s| + |d|;
  }
}
