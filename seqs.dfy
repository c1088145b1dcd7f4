/** The array operations the reducers and form handlers use: `filter`,
    `findIndex`, `includes`, and what it means for one list to keep the order
    of another. */
module Seqs {

  /** `r` is `s` with some elements dropped and the rest left in order. */
  predicate IsSubsequence<T(==)>(r: seq<T>, s: seq<T>)
    decreases |s|
  {
    if r == [] then true
    else if s == [] then false
    else if r[0] == s[0] then IsSubsequence(r[1..], s[1..])
    else IsSubsequence(r, s[1..])
  }

  /** `s.filter(p)`: exactly the elements satisfying `p`, each as often as in
      `s`, in their original order. */
  function Filter<T(==,!new)>(s: seq<T>, p: T -> bool): (r: seq<T>)
    ensures |r| <= |s|
    ensures forall x :: x in r <==> x in s && p(x)
    ensures IsSubsequence(r, s)
  {
    if s == [] then []
    else
      var rest := Filter(s[1..], p);
      assert s == [s[0]] + s[1..];
      if p(s[0]) then [s[0]] + rest else rest
  }

  /** Each element that passes the test is kept as often as it occurs; the
      others are gone. */
  lemma {:induction false} FilterCount<T(!new)>(s: seq<T>, p: T -> bool, x: T)
    ensures multiset(Filter(s, p))[x] == if p(x) then multiset(s)[x] else 0
    decreases |s|
  {
    if s != [] {
      assert s == [s[0]] + s[1..];
      FilterCount(s[1..], p, x);
    }
  }

  /** Filtering distributes over concatenation, which is what makes it keep
      the order of the elements it keeps. */
  lemma {:induction false} FilterAppend<T(!new)>(s: seq<T>, t: seq<T>, p: T -> bool)
    ensures Filter(s + t, p) == Filter(s, p) + Filter(t, p)
    decreases |s|
  {
    if s == [] {
      assert s + t == t;
    } else {
      var u := s + t;
      assert u[0] == s[0] && u[1..] == s[1..] + t;
      FilterAppend(s[1..], t, p);
    }
  }

  /** A list whose every element passes the test is left unchanged. */
  lemma {:induction false} FilterAllPass<T(!new)>(s: seq<T>, p: T -> bool)
    requires forall i :: 0 <= i < |s| ==> p(s[i])
    ensures Filter(s, p) == s
    decreases |s|
  {
    if s != [] {
      FilterAllPass(s[1..], p);
    }
  }

  /** `s.findIndex(p)`: the first index whose element satisfies `p`, or -1. */
  function FindIndex<T>(s: seq<T>, p: T -> bool): (r: int)
    ensures -1 <= r < |s|
    ensures r == -1 <==> forall i :: 0 <= i < |s| ==> !p(s[i])
    ensures r != -1 ==> p(s[r]) && forall i :: 0 <= i < r ==> !p(s[i])
  {
    if s == [] then -1
    else if p(s[0]) then 0
    else
      var k := FindIndex(s[1..], p);
      if k == -1 then -1 else k + 1
  }

  /** `s[s.findIndex(p)] = x` guarded by `index !== -1`: the first element
      satisfying `p` replaced by `x`, every other element kept in place, and
      nothing changed when no element satisfies `p`. */
  function ReplaceFirstWhere<T>(s: seq<T>, p: T -> bool, x: T): (r: seq<T>)
    ensures |r| == |s|
    ensures (forall i :: 0 <= i < |s| ==> !p(s[i])) ==> r == s
    ensures forall k :: 0 <= k < |s| && p(s[k]) && (forall i :: 0 <= i < k ==> !p(s[i])) ==>
              r == s[k := x]
  {
    var k := FindIndex(s, p);
    if k == -1 then s else s[k := x]
  }

  /** No element occurs twice. */
  predicate NoDuplicates<T(==)>(s: seq<T>) {
    forall i, j :: 0 <= i < j < |s| ==> s[i] != s[j]
  }

  /** A filtered list of distinct elements stays distinct. */
  lemma FilterKeepsNoDuplicates<T(!new)>(s: seq<T>, p: T -> bool)
    requires NoDuplicates(s)
    ensures NoDuplicates(Filter(s, p))
  {
    var r := Filter(s, p);
    forall x | x in r
      ensures multiset(r)[x] == 1
    {
      DistinctCount(s, x);
      FilterCount(s, p, x);
    }
    forall i, j | 0 <= i < j < |r|
      ensures r[i] != r[j]
    {
      if r[i] == r[j] {
        TwoOccurrences(r, i, j);
      }
    }
  }

  /** In a list without duplicates every element occurs once. */
  lemma {:induction false} DistinctCount<T>(s: seq<T>, x: T)
    requires NoDuplicates(s) && x in s
    ensures multiset(s)[x] == 1
    decreases |s|
  {
    assert s == [s[0]] + s[1..];
    if s[0] == x {
      assert x !in s[1..];
    } else {
      DistinctCount(s[1..], x);
    }
  }

  /** An element at two distinct positions occurs at least twice. */
  lemma {:induction false} TwoOccurrences<T>(s: seq<T>, i: nat, j: nat)
    requires i < j < |s| && s[i] == s[j]
    ensures multiset(s)[s[i]] >= 2
  {
    var x := s[i];
    assert s == s[..i] + [x] + s[i + 1..j] + [x] + s[j + 1..];
  }

  /** Concatenation is associative; stated once so that proofs with many
      other facts in scope need not search for it. */
  lemma ConcatAssoc<T>(a: seq<T>, b: seq<T>, c: seq<T>)
    ensures a + (b + c) == (a + b) + c
  {
  }
}
