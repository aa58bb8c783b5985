/** Sequence helpers shared by the frontend and the backend model: the
    order-preserving `filter` of JavaScript arrays and SQL WHERE clauses, and
    the subsequence relation that such a filter establishes. */
module Seqs {

  /** The elements of `s` that satisfy `p`, in their original order. Defined
      from the end so that appending to `s` appends to the result. */
  function Filter<T>(s: seq<T>, p: T -> bool): (r: seq<T>)
    ensures |r| <= |s|
    ensures forall i :: 0 <= i < |r| ==> p(r[i])
  {
    if s == [] then []
    else Filter(s[..|s| - 1], p) + (if p(s[|s| - 1]) then [s[|s| - 1]] else [])
  }

  lemma {:induction false} FilterMembers<T>(s: seq<T>, p: T -> bool, x: T)
    ensures x in Filter(s, p) <==> x in s && p(x)
  {
    if s != [] {
      FilterMembers(s[..|s| - 1], p, x);
      assert s == s[..|s| - 1] + [s[|s| - 1]];
    }
  }

  lemma {:induction false} FilterAll<T>(s: seq<T>, p: T -> bool)
    requires forall i :: 0 <= i < |s| ==> p(s[i])
    ensures Filter(s, p) == s
  {
    if s != [] {
      FilterAll(s[..|s| - 1], p);
      assert s == s[..|s| - 1] + [s[|s| - 1]];
    }
  }

  lemma {:induction false} FilterNone<T>(s: seq<T>, p: T -> bool)
    requires forall i :: 0 <= i < |s| ==> !p(s[i])
    ensures Filter(s, p) == []
  {
    if s != [] {
      FilterNone(s[..|s| - 1], p);
    }
  }

  lemma {:induction false} FilterAppend<T>(s: seq<T>, t: seq<T>, p: T -> bool)
    ensures Filter(s + t, p) == Filter(s, p) + Filter(t, p)
    decreases |t|
  {
    if t == [] {
      assert s + t == s;
    } else {
      var t' := t[..|t| - 1];
      assert (s + t)[..|s + t| - 1] == s + t';
      FilterAppend(s, t', p);
    }
  }

  /** Two predicates that agree on every element filter alike. */
  lemma {:induction false} FilterCongruent<T>(s: seq<T>, p: T -> bool, q: T -> bool)
    requires forall i :: 0 <= i < |s| ==> p(s[i]) == q(s[i])
    ensures Filter(s, p) == Filter(s, q)
  {
    if s != [] {
      FilterCongruent(s[..|s| - 1], p, q);
    }
  }

  /** `a` can be obtained from `b` by deleting elements. */
  predicate IsSubsequence<T(==)>(a: seq<T>, b: seq<T>)
    decreases |b|
  {
    if a == [] then true
    else if b == [] then false
    else IsSubsequence(a, b[..|b| - 1])
         || (a[|a| - 1] == b[|b| - 1] && IsSubsequence(a[..|a| - 1], b[..|b| - 1]))
  }

  lemma {:induction false} SubsequenceExtend<T>(a: seq<T>, b: seq<T>, x: T)
    requires IsSubsequence(a, b)
    ensures IsSubsequence(a, b + [x])
  {
    assert (b + [x])[..|b|] == b;
  }

  lemma {:induction false} SubsequenceSnoc<T>(a: seq<T>, b: seq<T>, x: T)
    requires IsSubsequence(a, b)
    ensures IsSubsequence(a + [x], b + [x])
  {
    assert (a + [x])[..|a|] == a;
    assert (b + [x])[..|b|] == b;
  }

  lemma {:induction false} FilterIsSubsequence<T>(s: seq<T>, p: T -> bool)
    ensures IsSubsequence(Filter(s, p), s)
  {
    if s != [] {
      var s' := s[..|s| - 1];
      var x := s[|s| - 1];
      assert s == s' + [x];
      FilterIsSubsequence(s', p);
      if p(x) {
        assert Filter(s, p) == Filter(s', p) + [x];
        SubsequenceSnoc(Filter(s', p), s', x);
      } else {
        assert Filter(s, p) == Filter(s', p);
        SubsequenceExtend(Filter(s', p), s', x);
      }
    }
  }

  /** Number of elements of `s` that satisfy `p`. */
  function CountWhere<T>(s: seq<T>, p: T -> bool): nat
  {
    |Filter(s, p)|
  }

  /** The elements satisfying `p` and those satisfying `q` add up to all of `s`
      when every element satisfies exactly one of them. */
  lemma {:induction false} CountPartition<T>(s: seq<T>, p: T -> bool, q: T -> bool)
    requires forall i :: 0 <= i < |s| ==> p(s[i]) != q(s[i])
    ensures CountWhere(s, p) + CountWhere(s, q) == |s|
  {
    if s != [] {
      CountPartition(s[..|s| - 1], p, q);
    }
  }

  /** `s` read back to front. */
  function Reverse<T>(s: seq<T>): (r: seq<T>)
    ensures |r| == |s|
    ensures forall i :: 0 <= i < |s| ==> r[i] == s[|s| - 1 - i]
  {
    if s == [] then [] else [s[|s| - 1]] + Reverse(s[..|s| - 1])
  }

  /** The first `n` elements, or all of them when there are fewer (SQL LIMIT). */
  function Take<T>(s: seq<T>, n: nat): (r: seq<T>)
    ensures |r| == if |s| < n then |s| else n
    ensures r <= s
  {
    if |s| <= n then s else s[..n]
  }

  /** Every earlier element stands in `rel` to every later one. */
  predicate Pairwise<T>(s: seq<T>, rel: (T, T) -> bool)
  {
    forall i, j :: 0 <= i < j < |s| ==> rel(s[i], s[j])
  }

  /** Every element's key is below `bound`. */
  predicate Below<T>(s: seq<T>, key: T -> int, bound: int)
  {
    forall i :: 0 <= i < |s| ==> key(s[i]) < bound
  }

  lemma {:induction false} PairwiseFilter<T>(s: seq<T>, rel: (T, T) -> bool, p: T -> bool)
    requires Pairwise(s, rel)
    ensures Pairwise(Filter(s, p), rel)
  {
    if s != [] {
      var s' := s[..|s| - 1];
      var x := s[|s| - 1];
      PairwiseFilter(s', rel, p);
      var f := Filter(s', p);
      if p(x) {
        forall i | 0 <= i < |f| ensures rel(f[i], x) {
          FilterMembers(s', p, f[i]);
          var k :| 0 <= k < |s'| && s'[k] == f[i];
          assert s[k] == f[i];
        }
        assert Filter(s, p) == f + [x];
      }
    }
  }

  lemma BelowFilter<T>(s: seq<T>, key: T -> int, bound: int, p: T -> bool)
    requires Below(s, key, bound)
    ensures Below(Filter(s, p), key, bound)
  {
    var f := Filter(s, p);
    forall i | 0 <= i < |f| ensures key(f[i]) < bound {
      FilterMembers(s, p, f[i]);
    }
  }

  lemma PairwiseAppend<T>(s: seq<T>, rel: (T, T) -> bool, x: T)
    requires Pairwise(s, rel)
    requires forall i :: 0 <= i < |s| ==> rel(s[i], x)
    ensures Pairwise(s + [x], rel)
  {
  }

  lemma PairwiseConcat<T>(s: seq<T>, t: seq<T>, rel: (T, T) -> bool)
    requires Pairwise(s, rel) && Pairwise(t, rel)
    requires forall i, j :: 0 <= i < |s| && 0 <= j < |t| ==> rel(s[i], t[j])
    ensures Pairwise(s + t, rel)
  {
  }

  /** Keeping what satisfies `p` a second time changes nothing. */
  lemma FilterTwice<T>(s: seq<T>, p: T -> bool)
    ensures Filter(Filter(s, p), p) == Filter(s, p)
  {
    FilterAll(Filter(s, p), p);
  }

  /** Filtering by `p` first is harmless when `q` implies `p` on `s`. */
  lemma {:induction false} FilterFilter<T>(s: seq<T>, p: T -> bool, q: T -> bool)
    requires forall i :: 0 <= i < |s| && q(s[i]) ==> p(s[i])
    ensures Filter(Filter(s, p), q) == Filter(s, q)
  {
    if s != [] {
      var s' := s[..|s| - 1];
      var x := s[|s| - 1];
      assert s == s' + [x];
      assert forall i :: 0 <= i < |s'| ==> s'[i] == s[i];
      FilterFilter(s', p, q);
      if p(x) {
        assert Filter(s, p) == Filter(s', p) + [x];
        FilterAppend(Filter(s', p), [x], q);
        assert [x][..0] == [];
      } else {
        assert Filter(s, p) == Filter(s', p);
      }
    }
  }

  /** Two sequences that differ only at positions `p` rejects filter alike. */
  lemma {:induction false} FilterPointwise<T>(s: seq<T>, t: seq<T>, p: T -> bool)
    requires |s| == |t|
    requires forall i :: 0 <= i < |s| ==> p(s[i]) == p(t[i]) && (p(s[i]) ==> s[i] == t[i])
    ensures Filter(s, p) == Filter(t, p)
  {
    if s != [] {
      FilterPointwise(s[..|s| - 1], t[..|t| - 1], p);
    }
  }
}
