/** Order-preserving selections from a sequence, as `Array.prototype.filter` and `slice` make. */
module Subsequences {

  /** `a` is `b` with some elements left out, the others in their order. */
  predicate IsSubsequence<T(==)>(a: seq<T>, b: seq<T>)
    decreases |b|
  {
    if a == [] then true
    else if b == [] then false
    else (a[0] == b[0] && IsSubsequence(a[1..], b[1..])) || IsSubsequence(a, b[1..])
  }

  lemma {:induction false} PrefixIsSubsequence<T>(a: seq<T>, n: nat)
    requires n <= |a|
    ensures IsSubsequence(a[..n], a)
    decreases |a|
  {
    if n == |a| {
      SubsequenceReflexive(a);
      assert a[..n] == a;
    } else {
      PrefixIsSubsequence(a[..|a| - 1], n);
      assert a[..|a| - 1][..n] == a[..n];
      SubsequenceOfInit(a[..n], a);
    }
  }

  lemma {:induction false} SubsequenceReflexive<T>(a: seq<T>)
    ensures IsSubsequence(a, a)
    decreases |a|
  {
    if a != [] {
      SubsequenceReflexive(a[1..]);
    }
  }

  /** A subsequence of all but the last element is a subsequence of the whole. */
  lemma {:induction false} SubsequenceOfInit<T>(x: seq<T>, a: seq<T>)
    requires a != [] && IsSubsequence(x, a[..|a| - 1])
    ensures IsSubsequence(x, a)
    decreases |a|
  {
    var init := a[..|a| - 1];
    if x != [] && init != [] {
      assert init[1..] == a[1..][..|a[1..]| - 1];
      if x[0] == init[0] && IsSubsequence(x[1..], init[1..]) {
        SubsequenceOfInit(x[1..], a[1..]);
      } else {
        SubsequenceOfInit(x, a[1..]);
      }
    }
  }

  lemma {:induction false} SubsequenceTransitive<T>(a: seq<T>, b: seq<T>, c: seq<T>)
    requires IsSubsequence(a, b) && IsSubsequence(b, c)
    ensures IsSubsequence(a, c)
    decreases |c|
  {
    if a != [] {
      assert b != [] && c != [];
      if b[0] == c[0] && IsSubsequence(b[1..], c[1..]) {
        if a[0] == b[0] && IsSubsequence(a[1..], b[1..]) {
          SubsequenceTransitive(a[1..], b[1..], c[1..]);
        } else {
          SubsequenceTransitive(a, b[1..], c[1..]);
        }
      } else {
        SubsequenceTransitive(a, b, c[1..]);
      }
    }
  }

  /** Every element of a subsequence is an element of the whole. */
  lemma {:induction false} SubsequenceElements<T>(a: seq<T>, b: seq<T>)
    requires IsSubsequence(a, b)
    ensures forall x :: x in a ==> x in b
    decreases |b|
  {
    if a != [] {
      if a[0] == b[0] && IsSubsequence(a[1..], b[1..]) {
        SubsequenceElements(a[1..], b[1..]);
        assert forall x :: x in a ==> x == a[0] || x in a[1..];
      } else {
        SubsequenceElements(a, b[1..]);
      }
    }
  }

}
