/** Sequence facts shared by the table, the loader and the node ordering. */
module Seqs {

  /** No element appears twice. */
  predicate Distinct<T(==)>(s: seq<T>)
  {
    forall i, j :: 0 <= i < j < |s| ==> s[i] != s[j]
  }

  /** Position of the first occurrence of `x` in `s`. */
  function IndexOf<T(==)>(s: seq<T>, x: T): (i: nat)
    requires x in s
    ensures i < |s| && s[i] == x
  {
    if s[0] == x then 0 else 1 + IndexOf(s[1..], x)
  }

  /** `IndexOf` finds the first occurrence: no later one than any other. */
  lemma {:induction false} IndexOfIsFirst<T>(s: seq<T>, x: T, j: nat)
    requires j < |s| && s[j] == x
    ensures IndexOf(s, x) <= j
  {
    if s[0] != x {
      IndexOfIsFirst(s[1..], x, j - 1);
    }
  }

  /** Every element of `r` occurs in `s`, and `r` lists them in the order
      of their first occurrences in `s`. */
  predicate InOrderOf<T(==)>(r: seq<T>, s: seq<T>)
  {
    && (forall i :: 0 <= i < |r| ==> r[i] in s)
    && (forall i, j :: 0 <= i < j < |r| ==> IndexOf(s, r[i]) < IndexOf(s, r[j]))
  }

  /** The elements of `s` that satisfy `keep`, in their order in `s`
      (a Python list comprehension with an `if`). The contract speaks of
      membership only, not of how often an element is kept; every list the
      loader filters (the header, the known categories, the unique nodes)
      is duplicate-free, where membership determines the result together
      with `FilterInOrder`. */
  function Filter<T(!new)>(s: seq<T>, keep: T -> bool): (r: seq<T>)
    ensures |r| <= |s|
    ensures forall x :: x in r <==> x in s && keep(x)
  {
    if s == [] then []
    else if keep(s[0]) then [s[0]] + Filter(s[1..], keep)
    else Filter(s[1..], keep)
  }

  /** A duplicate-free sequence is in its own order. */
  lemma DistinctInOwnOrder<T>(s: seq<T>)
    requires Distinct(s)
    ensures InOrderOf(s, s)
  {
    forall i | 0 <= i < |s| ensures IndexOf(s, s[i]) == i {
      IndexOfIsFirst(s, s[i], i);
    }
  }

  /** A sequence listed in first-occurrence order repeats nothing. */
  lemma InOrderIsDistinct<T>(r: seq<T>, s: seq<T>)
    requires InOrderOf(r, s)
    ensures Distinct(r)
  {
    forall i, j | 0 <= i < j < |r| ensures r[i] != r[j] {
      assert IndexOf(s, r[i]) < IndexOf(s, r[j]);
    }
  }

  /** Dropping the head keeps the order of the rest. */
  lemma InOrderTail<T>(xs: seq<T>, s: seq<T>)
    requires xs != [] && InOrderOf(xs, s)
    ensures InOrderOf(xs[1..], s)
  {
    var rest := xs[1..];
    forall i, j | 0 <= i < j < |rest| ensures IndexOf(s, rest[i]) < IndexOf(s, rest[j]) {
      assert rest[i] == xs[i + 1] && rest[j] == xs[j + 1];
    }
  }

  /** Two duplicate-free sequences with no element in common concatenate to
      a duplicate-free sequence. */
  lemma DistinctConcat<T>(a: seq<T>, b: seq<T>)
    requires Distinct(a) && Distinct(b)
    requires forall x :: x in a ==> x !in b
    ensures Distinct(a + b)
  {
    var ab := a + b;
    forall i, j | 0 <= i < j < |ab| ensures ab[i] != ab[j] {
      if j < |a| {
        assert ab[i] == a[i] && ab[j] == a[j];
      } else if i >= |a| {
        assert ab[i] == b[i - |a|] && ab[j] == b[j - |a|];
      } else {
        assert ab[i] == a[i] && a[i] in a && ab[j] == b[j - |a|];
      }
    }
  }

  /** The head of an ordered sequence comes before everything in its tail. */
  lemma HeadFirst<T>(xs: seq<T>, s: seq<T>, y: T)
    requires xs != [] && InOrderOf(xs, s) && y in xs[1..]
    ensures IndexOf(s, xs[0]) < IndexOf(s, y)
  {
    var k :| 0 <= k < |xs[1..]| && xs[1..][k] == y;
    assert xs[k + 1] == y;
  }

  /** Putting an element in front of an ordered sequence whose elements all
      come after it keeps the order. */
  lemma ConsInOrder<T>(x: T, tail: seq<T>, s: seq<T>)
    requires x in s && InOrderOf(tail, s)
    requires forall y :: y in tail ==> IndexOf(s, x) < IndexOf(s, y)
    ensures InOrderOf([x] + tail, s)
  {
    var r := [x] + tail;
    forall i, j | 0 <= i < j < |r| ensures IndexOf(s, r[i]) < IndexOf(s, r[j]) {
      assert r[j] == tail[j - 1];
      if i > 0 { assert r[i] == tail[i - 1]; }
    }
  }

  /** Filtering keeps the order of what it keeps. `InOrderOf(xs, s)` implies
      that `xs` has no repeats, so this covers duplicate-free input only. */
  lemma {:induction false} FilterInOrder<T(!new)>(xs: seq<T>, keep: T -> bool, s: seq<T>)
    requires InOrderOf(xs, s)
    ensures InOrderOf(Filter(xs, keep), s)
  {
    if xs != [] {
      InOrderTail(xs, s);
      FilterInOrder(xs[1..], keep, s);
      if keep(xs[0]) {
        forall y | y in Filter(xs[1..], keep) ensures IndexOf(s, xs[0]) < IndexOf(s, y) {
          HeadFirst(xs, s, y);
        }
        ConsInOrder(xs[0], Filter(xs[1..], keep), s);
      }
    }
  }

  /** The first occurrence of an element of a prefix is the same in the whole sequence. */
  lemma IndexOfPrefix<T>(s: seq<T>, n: nat, x: T)
    requires n <= |s| && x in s[..n]
    ensures IndexOf(s, x) == IndexOf(s[..n], x)
  {
    var i, j := IndexOf(s[..n], x), IndexOf(s, x);
    assert s[i] == s[..n][i];
    IndexOfIsFirst(s, x, i);
    assert s[..n][j] == s[j];
    IndexOfIsFirst(s[..n], x, j);
  }

  /** No step of a chain of first-occurrence orders reverses two elements. */
  lemma InOrderTransitive<T>(r: seq<T>, m: seq<T>, s: seq<T>)
    requires InOrderOf(r, m) && InOrderOf(m, s)
    ensures InOrderOf(r, s)
  {
    forall i, j | 0 <= i < j < |r| ensures IndexOf(s, r[i]) < IndexOf(s, r[j]) {
      var p, q := IndexOf(m, r[i]), IndexOf(m, r[j]);
      assert m[p] == r[i] && m[q] == r[j];
    }
  }

}
