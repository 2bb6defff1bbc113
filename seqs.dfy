/**
 * The JavaScript array operations the component builds its new lists with:
 * `map`, `filter` and `filter(...).length`, and what "order-preserving
 * subsequence" and "no duplicates" mean.
 */
module Seqs {

  /** `s.map(f)`: one result per element, in the same order. */
  function Map<T, U>(s: seq<T>, f: T -> U): (r: seq<U>)
    ensures |r| == |s|
    ensures forall i :: 0 <= i < |s| ==> r[i] == f(s[i])
  {
    if s == [] then [] else [f(s[0])] + Map(s[1..], f)
  }

  /** `s.filter(p)` */
  function Filter<T>(s: seq<T>, p: T -> bool): (r: seq<T>)
    ensures |r| <= |s|
    ensures forall i :: 0 <= i < |r| ==> p(r[i])
  {
    if s == [] then []
    else if p(s[0]) then [s[0]] + Filter(s[1..], p)
    else Filter(s[1..], p)
  }

  /** The number of elements of `s` that satisfy `p`. */
  function Count<T>(s: seq<T>, p: T -> bool): (r: nat)
    ensures r <= |s|
  {
    if s == [] then 0 else (if p(s[0]) then 1 else 0) + Count(s[1..], p)
  }

  /** `a` is obtained from `b` by deleting elements, keeping the order of the rest. */
  predicate IsSubsequence<T(==)>(a: seq<T>, b: seq<T>)
    decreases |b|
  {
    a == [] || (b != [] && ((a[0] == b[0] && IsSubsequence(a[1..], b[1..])) || IsSubsequence(a, b[1..])))
  }

  predicate NoDuplicates<T(==)>(s: seq<T>) {
    forall i, j :: 0 <= i < j < |s| ==> s[i] != s[j]
  }

  lemma {:induction false} FilterLength<T>(s: seq<T>, p: T -> bool)
    ensures |Filter(s, p)| == Count(s, p)
  {
    if s != [] {
      FilterLength(s[1..], p);
    }
  }

  /** Every element is counted on exactly one side of a predicate and its negation. */
  lemma {:induction false} CountSplit<T>(s: seq<T>, p: T -> bool, q: T -> bool)
    requires forall x :: q(x) <==> !p(x)
    ensures Count(s, p) + Count(s, q) == |s|
  {
    if s != [] {
      CountSplit(s[1..], p, q);
    }
  }

  lemma {:induction false} FilterIsSubsequence<T>(s: seq<T>, p: T -> bool)
    ensures IsSubsequence(Filter(s, p), s)
  {
    if s != [] {
      FilterIsSubsequence(s[1..], p);
      if !p(s[0]) {
        SubsequenceOfTail(Filter(s[1..], p), s);
      }
    }
  }

  lemma SubsequenceOfTail<T>(a: seq<T>, b: seq<T>)
    requires b != [] && IsSubsequence(a, b[1..])
    ensures IsSubsequence(a, b)
  {
  }

  /** An order-preserving subsequence all of whose elements satisfy `p` has at most `Count(s, p)` elements. */
  lemma {:induction false} SubsequenceCountBound<T>(r: seq<T>, s: seq<T>, p: T -> bool)
    requires IsSubsequence(r, s)
    requires forall i :: 0 <= i < |r| ==> p(r[i])
    ensures |r| <= Count(s, p)
    decreases |s|
  {
    if r != [] {
      if r[0] == s[0] && IsSubsequence(r[1..], s[1..]) {
        SubsequenceCountBound(r[1..], s[1..], p);
      } else {
        SubsequenceCountBound(r, s[1..], p);
      }
    }
  }

  /**
   * `Filter(s, p)` is the one order-preserving subsequence of `s` that holds
   * only elements satisfying `p` and holds all `Count(s, p)` of them.
   */
  lemma {:induction false} FilterIsTheMatchingSubsequence<T>(s: seq<T>, p: T -> bool, r: seq<T>)
    ensures IsSubsequence(Filter(s, p), s) && |Filter(s, p)| == Count(s, p)
    ensures IsSubsequence(r, s) && (forall i :: 0 <= i < |r| ==> p(r[i])) && |r| == Count(s, p)
            <==> r == Filter(s, p)
    decreases |s|
  {
    FilterIsSubsequence(s, p);
    FilterLength(s, p);
    if IsSubsequence(r, s) && (forall i :: 0 <= i < |r| ==> p(r[i])) && |r| == Count(s, p) {
      if s != [] && r != [] {
        if p(s[0]) {
          if r[0] == s[0] && IsSubsequence(r[1..], s[1..]) {
            FilterIsTheMatchingSubsequence(s[1..], p, r[1..]);
          } else {
            SubsequenceCountBound(r, s[1..], p);
          }
        } else {
          FilterIsTheMatchingSubsequence(s[1..], p, r);
        }
      }
    }
  }

  /** `filter` on a list with one more element at the end. */
  lemma {:induction false} FilterAppend<T>(s: seq<T>, x: T, p: T -> bool)
    ensures Filter(s + [x], p) == Filter(s, p) + (if p(x) then [x] else [])
  {
    if s != [] {
      assert (s + [x])[1..] == s[1..] + [x];
      FilterAppend(s[1..], x, p);
    } else {
      assert (s + [x])[1..] == [];
    }
  }

  /** `filter` with a predicate every element satisfies returns the list itself. */
  lemma {:induction false} FilterKeepsAll<T>(s: seq<T>, p: T -> bool)
    requires forall i :: 0 <= i < |s| ==> p(s[i])
    ensures Filter(s, p) == s
  {
    if s != [] {
      FilterKeepsAll(s[1..], p);
    }
  }

  /** `filter` drops no element that satisfies the predicate. */
  lemma {:induction false} FilterKeepsMatches<T>(s: seq<T>, p: T -> bool, x: T)
    requires x in s && p(x)
    ensures x in Filter(s, p)
  {
    if s[0] != x {
      FilterKeepsMatches(s[1..], p, x);
    }
  }

  /** Every element of a subsequence is an element of the sequence. */
  lemma {:induction false} SubsequenceElements<T>(a: seq<T>, b: seq<T>, x: T)
    requires IsSubsequence(a, b) && x in a
    ensures x in b
    decreases |b|
  {
    if a[0] == b[0] && IsSubsequence(a[1..], b[1..]) {
      if x != a[0] {
        SubsequenceElements(a[1..], b[1..], x);
      }
    } else {
      SubsequenceElements(a, b[1..], x);
    }
  }
}
