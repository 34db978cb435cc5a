/** Order-preserving filtering of sequences, the `Array.prototype.filter` of the views. */
module Seqs {

  predicate Distinct<T(==)>(s: seq<T>)
  {
    forall i, j :: 0 <= i < j < |s| ==> s[i] != s[j]
  }

  /** The elements of s that satisfy p, in their original order. */
  function Filter<T>(s: seq<T>, p: T -> bool): (r: seq<T>)
    ensures |r| <= |s|
    ensures forall i :: 0 <= i < |r| ==> p(r[i])
    ensures forall x :: x in r ==> x in s
  {
    if s == [] then []
    else Filter(s[..|s| - 1], p) + (if p(s[|s| - 1]) then [s[|s| - 1]] else [])
  }

  /** idx lists, in increasing order, positions of b that spell out a. */
  ghost predicate Embedding<T>(a: seq<T>, b: seq<T>, idx: seq<int>)
  {
    && |idx| == |a|
    && (forall i :: 0 <= i < |idx| ==> 0 <= idx[i] < |b| && a[i] == b[idx[i]])
    && (forall i, j :: 0 <= i < j < |idx| ==> idx[i] < idx[j])
  }

  /**
   * Filter(s, p) is the subsequence of s made of exactly the positions whose
   * element satisfies p: the result keeps the input order and skips nothing.
   */
  lemma {:induction false} FilterPositions<T>(s: seq<T>, p: T -> bool) returns (idx: seq<int>)
    ensures Embedding(Filter(s, p), s, idx)
    ensures forall j :: 0 <= j < |s| && p(s[j]) ==> j in idx
  {
    if s == [] {
      idx := [];
    } else {
      var s' := s[..|s| - 1];
      idx := FilterPositions(s', p);
      if p(s[|s| - 1]) {
        idx := idx + [|s| - 1];
      }
    }
  }

  /** Each value occurs in the filtered sequence as often as in s if it satisfies p, else never. */
  lemma {:induction false} FilterCount<T>(s: seq<T>, p: T -> bool, x: T)
    ensures multiset(Filter(s, p))[x] == if p(x) then multiset(s)[x] else 0
  {
    if s != [] {
      var s' := s[..|s| - 1];
      assert s == s' + [s[|s| - 1]];
      FilterCount(s', p, x);
    }
  }

  /** The filtered sequence is empty exactly when no element satisfies p. */
  lemma FilterEmpty<T>(s: seq<T>, p: T -> bool)
    ensures Filter(s, p) == [] <==> forall x :: x in s ==> !p(x)
  {
    if Filter(s, p) == [] {
      forall x | x in s
        ensures !p(x)
      {
        FilterCount(s, p, x);
      }
    }
  }
}
