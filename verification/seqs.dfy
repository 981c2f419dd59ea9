/** Order-preserving selection from a sequence: the shape of a Python list
    comprehension `[x for x in s if f(x)]`. */
module Seqs {

  /** The elements of `s` that satisfy `f`, in their original order. */
  function Filter<T(!new)>(s: seq<T>, f: T -> bool): (r: seq<T>)
    ensures |r| <= |s|
  {
    if s == [] then []
    else
      var init, last := s[..|s| - 1], s[|s| - 1];
      assert s == init + [last];
      if f(last) then Filter(init, f) + [last] else Filter(init, f)
  }

  /** Filtering one more element appends it when it satisfies `f`. */
  lemma FilterAppend<T(!new)>(s: seq<T>, x: T, f: T -> bool)
    ensures Filter(s + [x], f) == Filter(s, f) + if f(x) then [x] else []
  {
    assert (s + [x])[..|s|] == s;
  }

  /** A prefix one longer ends with the next element. */
  lemma TakeOneMore<T>(s: seq<T>, i: nat)
    requires i < |s|
    ensures s[..i + 1] == s[..i] + [s[i]]
  {
  }

  /** An element is kept exactly when it occurs in `s` and satisfies `f`. */
  lemma {:induction false} FilterMembership<T(!new)>(s: seq<T>, f: T -> bool)
    ensures forall x :: x in Filter(s, f) <==> x in s && f(x)
  {
    if s != [] {
      var init, last := s[..|s| - 1], s[|s| - 1];
      FilterMembership(init, f);
      assert s == init + [last];
    }
  }

  /** Each element that satisfies `f` is kept as often as it occurs in `s`;
      every other element is dropped. */
  lemma {:induction false} FilterKeepsMultiplicity<T(!new)>(s: seq<T>, f: T -> bool)
    ensures forall x :: multiset(Filter(s, f))[x] == if f(x) then multiset(s)[x] else 0
  {
    if s != [] {
      var init, last := s[..|s| - 1], s[|s| - 1];
      FilterKeepsMultiplicity(init, f);
      assert s == init + [last];
    }
  }

  /** The positions in `s` that `Filter(s, f)` keeps, in increasing order. */
  function KeptPositions<T(!new)>(s: seq<T>, f: T -> bool): (idx: seq<nat>)
    ensures |idx| == |Filter(s, f)|
  {
    if s == [] then []
    else
      var init, last := s[..|s| - 1], s[|s| - 1];
      if f(last) then KeptPositions(init, f) + [|s| - 1] else KeptPositions(init, f)
  }

  /** `Filter(s, f)` is the ordered subsequence of the elements satisfying `f`:
      the kept positions are strictly increasing, they are exactly the
      positions whose element satisfies `f`, and the k-th kept element is the
      element at the k-th kept position. */
  lemma {:induction false} FilterIsOrderedSubsequence<T(!new)>(s: seq<T>, f: T -> bool)
    ensures var idx := KeptPositions(s, f);
      && (forall k :: 0 <= k < |idx| ==> idx[k] < |s| && s[idx[k]] == Filter(s, f)[k])
      && (forall k, l :: 0 <= k < l < |idx| ==> idx[k] < idx[l])
      && (forall j :: 0 <= j < |s| ==> (f(s[j]) <==> j in idx))
  {
    if s != [] {
      var init, last := s[..|s| - 1], s[|s| - 1];
      FilterIsOrderedSubsequence(init, f);
      var before, idx := KeptPositions(init, f), KeptPositions(s, f);
      var kept, keptBefore := Filter(s, f), Filter(init, f);
      var tail := if f(last) then [|s| - 1] else [];
      assert kept == keptBefore + if f(last) then [last] else [];
      assert idx == before + tail;
      forall k | 0 <= k < |idx|
        ensures idx[k] < |s| && s[idx[k]] == kept[k]
      {
        if k < |before| {
          assert idx[k] == before[k] && kept[k] == keptBefore[k];
          assert s[before[k]] == init[before[k]];
        }
      }
      forall k, l | 0 <= k < l < |idx|
        ensures idx[k] < idx[l]
      {
        if l < |before| {
          assert idx[k] == before[k] && idx[l] == before[l];
        } else {
          assert idx[k] == before[k] < |init|;
        }
      }
      forall j | 0 <= j < |s|
        ensures f(s[j]) <==> j in idx
      {
        if j < |init| {
          assert s[j] == init[j];
          assert j !in tail;
          assert (j in idx) == (j in before);
        } else {
          assert j !in before by {
            forall k | 0 <= k < |before| ensures before[k] != j { }
          }
          assert (j in idx) == (j in tail);
        }
      }
    }
  }
}
