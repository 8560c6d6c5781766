/** Order-preserving filtering of sequences, and what it keeps. */
module Seqs {

  /** True when `rel` relates every element of `s` to every later one. */
  ghost predicate Pairwise<T(!new)>(s: seq<T>, rel: (T, T) -> bool) {
    forall i, j :: 0 <= i < j < |s| ==> rel(s[i], s[j])
  }

  /** The elements of `s` that satisfy `keep`, in their original order. */
  function Filter<T(!new)>(s: seq<T>, keep: T -> bool): (r: seq<T>)
    ensures |r| <= |s|
  {
    if s == [] then []
    else Filter(s[..|s| - 1], keep) + (if keep(s[|s| - 1]) then [s[|s| - 1]] else [])
  }

  /** Filtering one element more. */
  lemma FilterNext<T(!new)>(s: seq<T>, keep: T -> bool, i: nat)
    requires i < |s|
    ensures Filter(s[..i + 1], keep) == Filter(s[..i], keep) + if keep(s[i]) then [s[i]] else []
  {
    assert s[..i + 1][..i] == s[..i];
  }

  lemma {:induction false} FilterConcat<T(!new)>(a: seq<T>, b: seq<T>, keep: T -> bool)
    ensures Filter(a + b, keep) == Filter(a, keep) + Filter(b, keep)
  {
    if b == [] {
      assert a + b == a;
    } else {
      FilterConcat(a, b[..|b| - 1], keep);
      assert (a + b)[..|a + b| - 1] == a + b[..|b| - 1];
    }
  }

  lemma FilterNone<T(!new)>(s: seq<T>, keep: T -> bool)
    ensures Filter(s[..0], keep) == []
  {
  }

  /** The complement of a filter condition. */
  function Not<T(!new)>(keep: T -> bool): (r: T -> bool)
  {
    x => !keep(x)
  }

  /** A filter keeps exactly the elements that satisfy its condition. */
  lemma {:induction false} FilterMembers<T(!new)>(s: seq<T>, keep: T -> bool)
    ensures forall x :: x in Filter(s, keep) <==> x in s && keep(x)
  {
    if s != [] {
      FilterMembers(s[..|s| - 1], keep);
      assert s == s[..|s| - 1] + [s[|s| - 1]];
    }
  }

  lemma {:induction false} FilterPairwise<T(!new)>(s: seq<T>, keep: T -> bool, rel: (T, T) -> bool)
    requires Pairwise(s, rel)
    ensures Pairwise(Filter(s, keep), rel)
  {
    if s != [] {
      var init, last := s[..|s| - 1], s[|s| - 1];
      FilterPairwise(init, keep, rel);
      FilterMembers(init, keep);
      forall x | x in Filter(init, keep) ensures rel(x, last) {
        var i :| 0 <= i < |init| && init[i] == x;
        assert s[i] == x;
      }
    }
  }

  /** Two neighbours of a pairwise-ordered concatenation keep it when the right one is filtered. */
  lemma {:induction false} FilterTailPairwise<T(!new)>(a: seq<T>, s: seq<T>, keep: T -> bool, rel: (T, T) -> bool)
    requires Pairwise(a + s, rel)
    ensures Pairwise(a + Filter(s, keep), rel)
  {
    forall i, j | 0 <= i < j < |s| ensures rel(s[i], s[j]) {
      assert (a + s)[|a| + i] == s[i] && (a + s)[|a| + j] == s[j];
    }
    FilterPairwise(s, keep, rel);
    FilterMembers(s, keep);
    var f := Filter(s, keep);
    forall i, j | 0 <= i < j < |a + f| ensures rel((a + f)[i], (a + f)[j]) {
      if j < |a| {
        assert (a + s)[i] == a[i] && (a + s)[j] == a[j];
      } else if i < |a| {
        assert f[j - |a|] in s;
        var k :| 0 <= k < |s| && s[k] == f[j - |a|];
        assert (a + s)[i] == a[i] && (a + s)[|a| + k] == s[k];
      }
    }
  }

  /** Strictly increasing. */
  ghost predicate Increasing(at: seq<nat>) {
    forall i, j :: 0 <= i < j < |at| ==> at[i] < at[j]
  }

  /** `r` has the elements of `s` at the positions `at`, in that order. */
  ghost predicate Picked<T(!new)>(s: seq<T>, at: seq<nat>, r: seq<T>) {
    && |r| == |at| && Increasing(at)
    && forall k :: 0 <= k < |at| ==> at[k] < |s| && r[k] == s[at[k]]
  }

  lemma NothingPicked<T(!new)>(s: seq<T>)
    ensures Picked(s, [], [])
  {
  }

  lemma PickMore<T(!new)>(s: seq<T>, at: seq<nat>, r: seq<T>, i: nat)
    requires Picked(s, at, r) && i < |s| && forall j :: j in at ==> j < i
    ensures Picked(s, at + [i], r + [s[i]])
  {
    assert forall k :: 0 <= k < |at| ==> at[k] in at;
  }

  /** A filter picks exactly the positions that satisfy its condition, in order. */
  lemma FilterPicks<T(!new)>(s: seq<T>, keep: T -> bool) returns (at: seq<nat>)
    ensures Picked(s, at, Filter(s, keep))
    ensures forall i: nat :: i in at <==> i < |s| && keep(s[i])
  {
    hide Filter, Picked;
    at := [];
    FilterNone(s, keep);
    NothingPicked(s);
    for i := 0 to |s|
      invariant Picked(s, at, Filter(s[..i], keep))
      invariant forall j: nat :: j in at <==> j < i && keep(s[j])
    {
      FilterNext(s, keep, i);
      if keep(s[i]) {
        PickMore(s, at, Filter(s[..i], keep), i);
        at := at + [i];
      } else {
        assert Filter(s[..i], keep) + [] == Filter(s[..i], keep);
      }
    }
    assert s[..|s|] == s;
  }

  /** Picking from what was picked is picking from the whole. */
  lemma PickedTwice<T(!new)>(s: seq<T>, at: seq<nat>, r: seq<T>, again: seq<nat>, q: seq<T>) returns (both: seq<nat>)
    requires Picked(s, at, r) && Picked(r, again, q)
    ensures Picked(s, both, q)
    ensures forall i: nat :: i in both <==> exists k :: 0 <= k < |at| && at[k] == i && k in again
  {
    both := seq(|again|, k requires 0 <= k < |again| => at[again[k]]);
    forall i: nat ensures i in both <==> exists k :: 0 <= k < |at| && at[k] == i && k in again {
      if i in both {
        var k :| 0 <= k < |both| && both[k] == i;
        assert again[k] in again && at[again[k]] == i;
      }
      if exists k :: 0 <= k < |at| && at[k] == i && k in again {
        var k :| 0 <= k < |at| && at[k] == i && k in again;
        var m :| 0 <= m < |again| && again[m] == k;
        assert both[m] == i;
      }
    }
  }

  /** How often `x` occurs in `s`. */
  function Count<T(==)>(s: seq<T>, x: T): (r: nat) {
    if s == [] then 0 else Count(s[..|s| - 1], x) + (if s[|s| - 1] == x then 1 else 0)
  }

  lemma {:induction false} CountConcat<T>(a: seq<T>, b: seq<T>, x: T)
    ensures Count(a + b, x) == Count(a, x) + Count(b, x)
  {
    if b == [] {
      assert a + b == a;
    } else {
      CountConcat(a, b[..|b| - 1], x);
      assert (a + b)[..|a + b| - 1] == a + b[..|b| - 1];
    }
  }

  /** What a filter keeps and what it drops make up the whole. */
  lemma {:induction false} FilterSplits<T(!new)>(s: seq<T>, keep: T -> bool, x: T)
    ensures Count(Filter(s, keep), x) + Count(Filter(s, Not(keep)), x) == Count(s, x)
  {
    if s != [] {
      var init, last := s[..|s| - 1], s[|s| - 1];
      FilterSplits(init, keep, x);
      CountConcat(Filter(init, keep), if keep(last) then [last] else [], x);
      CountConcat(Filter(init, Not(keep)), if keep(last) then [] else [last], x);
    }
  }

  /** Once `keep` holds of an element of `s`, it holds of all later ones. */
  ghost predicate Upward<T(!new)>(s: seq<T>, keep: T -> bool) {
    forall i, j :: 0 <= i < j < |s| && keep(s[i]) ==> keep(s[j])
  }

  /** A filter that only rejects elements standing before all accepted ones drops a prefix. */
  lemma {:induction false} FilterIsSuffix<T(!new)>(s: seq<T>, keep: T -> bool) returns (k: nat)
    requires Upward(s, keep)
    ensures k <= |s| && Filter(s, keep) == s[k..]
    ensures forall i :: 0 <= i < |s| ==> (k <= i <==> keep(s[i]))
  {
    if s == [] {
      k := 0;
    } else {
      var last := |s| - 1;
      k := FilterIsSuffix(s[..last], keep);
      if keep(s[last]) {
        assert s[k..] == s[..last][k..] + [s[last]];
      } else {
        assert forall i :: 0 <= i < last ==> s[..last][i] == s[i];
        k := |s|;
      }
    }
  }
}
