/** Sums of an integer-valued function over a sequence, and how they react to appending, updating and permuting. */
module Sums {

  function SumBy<T>(s: seq<T>, f: T -> int): int {
    if s == [] then 0 else SumBy(s[..|s| - 1], f) + f(s[|s| - 1])
  }

  lemma {:induction false} SumAppend<T>(a: seq<T>, b: seq<T>, f: T -> int)
    ensures SumBy(a + b, f) == SumBy(a, f) + SumBy(b, f)
    decreases |b|
  {
    if b == [] {
      assert a + b == a;
    } else {
      assert (a + b)[..|a + b| - 1] == a + b[..|b| - 1];
      SumAppend(a, b[..|b| - 1], f);
    }
  }

  /** Counts the occurrences of x, when summed over a sequence. */
  function CountIn<T(==)>(x: T): T -> int { (y: T) => if x == y then 1 else 0 }

  lemma Regroup<T>(a: seq<T>, b: seq<T>, c: seq<T>)
    ensures a + (b + c) == a + b + c
  {
  }

  lemma SumSnoc<T>(a: seq<T>, x: T, f: T -> int)
    ensures SumBy(a + [x], f) == SumBy(a, f) + f(x)
  {
    assert (a + [x])[..|a|] == a;
  }

  lemma SumSplit<T>(s: seq<T>, i: nat, f: T -> int)
    requires i < |s|
    ensures SumBy(s, f) == SumBy(s[..i], f) + f(s[i]) + SumBy(s[i + 1..], f)
  {
    assert s == (s[..i] + [s[i]]) + s[i + 1..];
    SumAppend(s[..i] + [s[i]], s[i + 1..], f);
    SumSnoc(s[..i], s[i], f);
  }

  lemma SumCons<T>(s: seq<T>, f: T -> int)
    requires s != []
    ensures SumBy(s, f) == f(s[0]) + SumBy(s[1..], f)
  {
    SumSplit(s, 0, f);
    assert s[..0] == [];
  }

  lemma SumUpdate<T>(s: seq<T>, i: nat, x: T, f: T -> int)
    requires i < |s|
    ensures SumBy(s[i := x], f) == SumBy(s, f) - f(s[i]) + f(x)
  {
    SumSplit(s, i, f);
    SumSplit(s[i := x], i, f);
    assert s[i := x][..i] == s[..i] && s[i := x][i + 1..] == s[i + 1..];
  }

  lemma {:induction false} SumNonNegative<T>(s: seq<T>, f: T -> int)
    requires forall x :: x in s ==> f(x) >= 0
    ensures SumBy(s, f) >= 0
  {
    if s != [] {
      SumNonNegative(s[..|s| - 1], f);
    }
  }

  /** Only one place counts. */
  lemma SumOnly<T>(s: seq<T>, i: nat, f: T -> int)
    requires i < |s| && forall j :: 0 <= j < |s| && j != i ==> f(s[j]) == 0
    ensures SumBy(s, f) == f(s[i])
  {
    SumSplit(s, i, f);
    SumZero(s[..i], f);
    SumZero(s[i + 1..], f);
  }

  /** One element counts for at most the whole sum, ... */
  lemma {:induction false} SumMember<T>(s: seq<T>, f: T -> int, x: T)
    requires x in s && forall y :: y in s ==> f(y) >= 0
    ensures f(x) <= SumBy(s, f)
  {
    var front := s[..|s| - 1];
    SumNonNegative(front, f);
    if x in front { SumMember(front, f, x); }
  }

  /** ... and some element for a positive one. */
  lemma {:induction false} SumPositive<T>(s: seq<T>, f: T -> int) returns (x: T)
    requires SumBy(s, f) > 0
    ensures x in s && f(x) > 0
  {
    var n := |s| - 1;
    if f(s[n]) > 0 {
      x := s[n];
    } else {
      x := SumPositive(s[..n], f);
    }
  }

  lemma {:induction false} SumZero<T>(s: seq<T>, f: T -> int)
    requires forall x :: x in s ==> f(x) == 0
    ensures SumBy(s, f) == 0
  {
    if s != [] {
      SumZero(s[..|s| - 1], f);
    }
  }

  /** A sum is bounded, in absolute value, by any pointwise bound on the absolute values. */
  lemma {:induction false} SumAbs<T>(s: seq<T>, f: T -> int, g: T -> int)
    requires forall x :: x in s ==> -g(x) <= f(x) <= g(x)
    ensures -SumBy(s, g) <= SumBy(s, f) <= SumBy(s, g)
  {
    if s != [] {
      SumAbs(s[..|s| - 1], f, g);
    }
  }

  /** Summing one value per element equals mapping first and summing afterwards. */
  lemma {:induction false} SumMap<T, U>(s: seq<T>, t: seq<U>, f: T -> int, g: U -> int)
    requires |s| == |t|
    requires forall i :: 0 <= i < |s| ==> f(s[i]) == g(t[i])
    ensures SumBy(s, f) == SumBy(t, g)
  {
    if s != [] {
      SumMap(s[..|s| - 1], t[..|t| - 1], f, g);
    }
  }

  lemma {:induction false} SumPermutation<T>(a: seq<T>, b: seq<T>, f: T -> int)
    requires multiset(a) == multiset(b)
    ensures SumBy(a, f) == SumBy(b, f)
    decreases |a|
  {
    assert |multiset(a)| == |a| && |multiset(b)| == |b|;
    if a != [] {
      var x := a[|a| - 1];
      assert a == a[..|a| - 1] + [x];
      assert x in multiset(b);
      var i :| 0 <= i < |b| && b[i] == x;
      var rest := b[..i] + b[i + 1..];
      assert b == b[..i] + [x] + b[i + 1..];
      assert multiset(rest) == multiset(b) - multiset{x};
      assert multiset(a[..|a| - 1]) == multiset(a) - multiset{x};
      SumPermutation(a[..|a| - 1], rest, f);
      SumSplit(b, i, f);
      SumAppend(b[..i], b[i + 1..], f);
    }
  }
}
