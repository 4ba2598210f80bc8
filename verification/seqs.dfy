/** Order-preserving filtering of sequences: the model of JavaScript's
    `Array.prototype.filter`, which every core query is built on. */
module Seqs {

  /** `a` can be obtained from `b` by deleting elements (greedy matching). */
  predicate IsSubsequence<T(==)>(a: seq<T>, b: seq<T>)
    decreases |b|
  {
    |a| == 0 ||
    (|b| > 0 &&
     if a[0] == b[0] then IsSubsequence(a[1..], b[1..]) else IsSubsequence(a, b[1..]))
  }

  /** The elements of `s` that satisfy `keep`, in their original order. */
  function Filter<T>(s: seq<T>, keep: T -> bool): (r: seq<T>)
    ensures |r| <= |s|
    ensures forall x :: x in r ==> x in s && keep(x)
  {
    if |s| == 0 then []
    else if keep(s[0]) then [s[0]] + Filter(s[1..], keep)
    else Filter(s[1..], keep)
  }

  /** `Filter` keeps every occurrence of a kept element, and keeps them in
      their original order. */
  lemma {:induction false} FilterSelects<T>(s: seq<T>, keep: T -> bool)
    ensures forall i :: 0 <= i < |s| && keep(s[i]) ==>
              multiset(Filter(s, keep))[s[i]] == multiset(s)[s[i]]
    ensures IsSubsequence(Filter(s, keep), s)
  {
    if |s| > 0 {
      FilterSelects(s[1..], keep);
      assert s == [s[0]] + s[1..];
      var r := Filter(s, keep);
      if keep(s[0]) {
        assert r == [s[0]] + Filter(s[1..], keep);
        assert r[1..] == Filter(s[1..], keep);
      }
      forall i | 0 <= i < |s| && keep(s[i])
        ensures multiset(r)[s[i]] == multiset(s)[s[i]]
      {
        if i > 0 {
          assert s[1..][i - 1] == s[i];
        }
      }
    }
  }

  /** Filtering a sequence none of whose elements is dropped returns it unchanged. */
  lemma {:induction false} FilterKeepsAll<T>(s: seq<T>, keep: T -> bool)
    requires forall i :: 0 <= i < |s| ==> keep(s[i])
    ensures Filter(s, keep) == s
  {
    if |s| > 0 {
      FilterKeepsAll(s[1..], keep);
    }
  }

  /** Filtering a sequence all of whose elements are dropped gives the empty sequence. */
  lemma {:induction false} FilterDropsAll<T>(s: seq<T>, keep: T -> bool)
    requires forall i :: 0 <= i < |s| ==> !keep(s[i])
    ensures Filter(s, keep) == []
  {
    if |s| > 0 {
      FilterDropsAll(s[1..], keep);
    }
  }

  /** Filtering keeps the whole sequence exactly when every element is kept,
      and keeps nothing exactly when no element is. */
  lemma {:induction false} FilterLengthExtremes<T>(s: seq<T>, keep: T -> bool)
    ensures |Filter(s, keep)| == |s| <==> forall i :: 0 <= i < |s| ==> keep(s[i])
    ensures |Filter(s, keep)| == 0 <==> forall i :: 0 <= i < |s| ==> !keep(s[i])
  {
    if |s| > 0 {
      FilterLengthExtremes(s[1..], keep);
      assert forall i :: 1 <= i < |s| ==> s[i] == s[1..][i - 1];
      if forall i :: 0 <= i < |s| ==> keep(s[i]) {
        assert forall i :: 0 <= i < |s[1..]| ==> keep(s[1..][i]);
      }
      if forall i :: 0 <= i < |s| ==> !keep(s[i]) {
        assert forall i :: 0 <= i < |s[1..]| ==> !keep(s[1..][i]);
      }
    }
  }

  /** The positions of `s` whose element `keep` holds of. */
  function KeptIndices<T>(s: seq<T>, keep: T -> bool): set<int> {
    set i | 0 <= i < |s| && keep(s[i])
  }

  /** `Filter` keeps one element per position that `keep` holds at. */
  lemma {:induction false} FilterLengthCountsIndices<T>(s: seq<T>, keep: T -> bool)
    ensures |Filter(s, keep)| == |KeptIndices(s, keep)|
  {
    if |s| == 0 {
      assert KeptIndices(s, keep) == {};
    } else {
      var n := |s| - 1;
      FilterLengthCountsIndices(s[..n], keep);
      FilterSnoc(s, keep);
      KeptIndicesSnoc(s, keep);
    }
  }

  /** Filtering a non-empty sequence is filtering all but its last element,
      then keeping or dropping the last. */
  lemma FilterSnoc<T>(s: seq<T>, keep: T -> bool)
    requires |s| > 0
    ensures Filter(s, keep) == Filter(s[..|s| - 1], keep) + (if keep(s[|s| - 1]) then [s[|s| - 1]] else [])
  {
    var n := |s| - 1;
    assert s == s[..n] + [s[n]];
    FilterConcat(s[..n], [s[n]], keep);
    assert [s[n]][1..] == [];
  }

  /** The kept positions of a non-empty sequence are those of all but its
      last element, plus the last position when it is kept. */
  lemma KeptIndicesSnoc<T>(s: seq<T>, keep: T -> bool)
    requires |s| > 0
    ensures var n := |s| - 1;
            KeptIndices(s, keep) == KeptIndices(s[..n], keep) + (if keep(s[n]) then {n} else {})
    ensures |s| - 1 !in KeptIndices(s[..|s| - 1], keep)
  {
    var n := |s| - 1;
    assert forall i :: 0 <= i < n ==> s[..n][i] == s[i];
  }

  /** Filtering distributes over concatenation. */
  lemma {:induction false} FilterConcat<T>(a: seq<T>, b: seq<T>, keep: T -> bool)
    ensures Filter(a + b, keep) == Filter(a, keep) + Filter(b, keep)
  {
    if |a| == 0 {
      assert a + b == b;
    } else {
      assert (a + b)[1..] == a[1..] + b;
      FilterConcat(a[1..], b, keep);
    }
  }

  /** When `keep` holds exactly at positions `lo` to `hi`, filtering yields that run. */
  lemma {:induction false} FilterOfRun<T>(s: seq<T>, keep: T -> bool, lo: nat, hi: nat)
    requires lo <= hi <= |s|
    requires forall i :: 0 <= i < |s| ==> (keep(s[i]) <==> lo <= i < hi)
    ensures Filter(s, keep) == s[lo..hi]
    decreases |s|
  {
    if hi == 0 {
      FilterDropsAll(s, keep);
    } else if lo > 0 {
      assert !keep(s[0]);
      FilterOfRun(s[1..], keep, lo - 1, hi - 1);
      assert s[1..][lo - 1..hi - 1] == s[lo..hi];
    } else {
      assert keep(s[0]);
      FilterOfRun(s[1..], keep, 0, hi - 1);
      assert s[..hi] == [s[0]] + s[1..][..hi - 1];
    }
  }

  /** Filtering twice with the same predicate is filtering once. */
  lemma FilterIdempotent<T>(s: seq<T>, keep: T -> bool)
    ensures Filter(Filter(s, keep), keep) == Filter(s, keep)
  {
    var r := Filter(s, keep);
    forall i | 0 <= i < |r|
      ensures keep(r[i])
    {
      assert r[i] in r;
    }
    FilterKeepsAll(r, keep);
  }

  /** The length of the longest non-empty prefix of `s`, of length at most
      `k`, that `accept` holds of; 0 when there is none. */
  function LongestPrefix<T>(s: seq<T>, k: nat, accept: seq<T> -> bool): (n: nat)
    requires k <= |s|
    ensures n <= k
    ensures n > 0 ==> accept(s[..n])
    ensures forall m :: n < m <= k ==> !accept(s[..m])
  {
    if k == 0 then 0
    else if accept(s[..k]) then k
    else LongestPrefix(s, k - 1, accept)
  }

  /** `LongestPrefix` finds any accepted prefix that no longer candidate beats. */
  lemma LongestPrefixIs<T>(s: seq<T>, k: nat, accept: seq<T> -> bool, n: nat)
    requires 0 < n <= k <= |s|
    requires accept(s[..n])
    requires forall m :: n < m <= k ==> !accept(s[..m])
    ensures LongestPrefix(s, k, accept) == n
  {
  }

  /** Filtering with two predicates that agree on every element of `s` gives the same result. */
  lemma {:induction false} FilterExtensional<T>(s: seq<T>, p: T -> bool, q: T -> bool)
    requires forall i :: 0 <= i < |s| ==> p(s[i]) == q(s[i])
    ensures Filter(s, p) == Filter(s, q)
  {
    if |s| > 0 {
      FilterExtensional(s[1..], p, q);
    }
  }

  /** Two predicates that never hold together split the elements their
      disjunction keeps. */
  lemma {:induction false} FilterDisjointLengths<T>(s: seq<T>, p: T -> bool, q: T -> bool, pq: T -> bool)
    requires forall i :: 0 <= i < |s| ==> !(p(s[i]) && q(s[i]))
    requires forall i :: 0 <= i < |s| ==> pq(s[i]) == (p(s[i]) || q(s[i]))
    ensures |Filter(s, p)| + |Filter(s, q)| == |Filter(s, pq)|
  {
    if |s| > 0 {
      FilterDisjointLengths(s[1..], p, q, pq);
    }
  }
}
