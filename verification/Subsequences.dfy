/** Subsequences: what is left of a sequence when some of its elements are taken out. */
module Subsequences {

  predicate Subsequence<T(==)>(a: seq<T>, b: seq<T>) {
    if a == [] then true
    else if b == [] then false
    else (a[0] == b[0] && Subsequence(a[1..], b[1..])) || Subsequence(a, b[1..])
  }

  lemma {:induction false} IsNoLonger<T>(a: seq<T>, b: seq<T>)
    requires Subsequence(a, b)
    ensures |a| <= |b|
    ensures |a| == |b| ==> a == b
    decreases |b|
  {
    if a != [] {
      if a[0] == b[0] && Subsequence(a[1..], b[1..]) {
        IsNoLonger(a[1..], b[1..]);
        assert a == [a[0]] + a[1..] && b == [b[0]] + b[1..];
      } else {
        IsNoLonger(a, b[1..]);
      }
    }
  }

  lemma {:induction false} IsReflexive<T>(a: seq<T>)
    ensures Subsequence(a, a)
  {
    if a != [] {
      IsReflexive(a[1..]);
    }
  }

  lemma {:induction false} Prepends<T>(x: seq<T>, a: seq<T>, b: seq<T>)
    requires Subsequence(a, b)
    ensures Subsequence(a, x + b)
    decreases |x|
  {
    if x == [] {
      assert x + b == b;
    } else {
      assert (x + b)[1..] == x[1..] + b;
      Prepends(x[1..], a, b);
    }
  }

  lemma {:induction false} Concatenates<T>(a: seq<T>, b: seq<T>, c: seq<T>, d: seq<T>)
    requires Subsequence(a, b) && Subsequence(c, d)
    ensures Subsequence(a + c, b + d)
    decreases |b|
  {
    if a == [] {
      assert a + c == c;
      Prepends(b, c, d);
    } else {
      assert (b + d)[1..] == b[1..] + d && (a + c)[1..] == a[1..] + c;
      if a[0] == b[0] && Subsequence(a[1..], b[1..]) {
        Concatenates(a[1..], b[1..], c, d);
      } else {
        Concatenates(a, b[1..], c, d);
      }
    }
  }
}
