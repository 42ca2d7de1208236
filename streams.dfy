/**
 * The three `java.util.stream` operations the service uses on lists:
 * `filter(p).collect(toList())`, `skip(n)` and `limit(n)`.
 */
module Streams {

  /** The elements of `s` that satisfy `p`, in their order in `s`. */
  function Filter<T>(s: seq<T>, p: T -> bool): (r: seq<T>)
    ensures |r| <= |s|
  {
    if s == [] then [] else (if p(s[0]) then [s[0]] else []) + Filter(s[1..], p)
  }

  /** Every element kept satisfies `p` and comes from `s`; every element of `s` that satisfies `p` is kept. */
  lemma {:induction false} FilterMembers<T>(s: seq<T>, p: T -> bool)
    ensures forall i :: 0 <= i < |Filter(s, p)| ==> Filter(s, p)[i] in s && p(Filter(s, p)[i])
    ensures forall j :: 0 <= j < |s| && p(s[j]) ==> s[j] in Filter(s, p)
  {
    if s != [] {
      FilterMembers(s[1..], p);
      FilterCons(s[0], s[1..], p);
      assert s == [s[0]] + s[1..];
    }
  }

  /** `idx` lists strictly increasing positions of `s` holding, in turn, the elements of `r`. */
  ghost predicate EmbedsAt<T>(r: seq<T>, s: seq<T>, idx: seq<int>) {
    && |idx| == |r|
    && (forall i :: 0 <= i < |idx| ==> 0 <= idx[i] < |s| && s[idx[i]] == r[i])
    && (forall i, j :: 0 <= i < j < |idx| ==> idx[i] < idx[j])
  }

  /**
   * Filtering keeps exactly the positions whose element satisfies `p`, in
   * increasing order: the result is an order-preserving subsequence of `s`
   * that drops nothing `p` accepts.
   */
  lemma {:induction false} FilterPositions<T>(s: seq<T>, p: T -> bool) returns (idx: seq<int>)
    ensures EmbedsAt(Filter(s, p), s, idx)
    ensures forall j :: 0 <= j < |s| && p(s[j]) ==> j in idx
  {
    if s == [] {
      idx := [];
    } else {
      var rest := FilterPositions(s[1..], p);
      var shifted := Shift(rest);
      EmbedsShifted(Filter(s[1..], p), s, rest);
      if p(s[0]) {
        idx := [0] + shifted;
        EmbedsCons(Filter(s[1..], p), s, shifted);
        assert Filter(s, p) == [s[0]] + Filter(s[1..], p);
      } else {
        idx := shifted;
        assert Filter(s, p) == Filter(s[1..], p);
      }
      forall j | 0 <= j < |s| && p(s[j]) ensures j in idx {
        if j > 0 {
          assert s[1..][j - 1] == s[j];
          assert j - 1 in rest;
          var k :| 0 <= k < |rest| && rest[k] == j - 1;
          assert shifted[k] == j;
          assert idx[|idx| - |shifted| + k] == j;
        } else {
          assert idx[0] == 0;
        }
      }
    }
  }

  /** Every position, moved one place right. */
  function Shift(idx: seq<int>): (r: seq<int>)
    ensures |r| == |idx| && forall i :: 0 <= i < |r| ==> r[i] == idx[i] + 1
  {
    seq(|idx|, i requires 0 <= i < |idx| => idx[i] + 1)
  }

  lemma EmbedsShifted<T>(r: seq<T>, s: seq<T>, idx: seq<int>)
    requires s != [] && EmbedsAt(r, s[1..], idx)
    ensures EmbedsAt(r, s, Shift(idx))
    ensures forall i :: 0 <= i < |idx| ==> Shift(idx)[i] > 0
  {
    forall i | 0 <= i < |idx| ensures s[Shift(idx)[i]] == r[i] {
      assert s[1..][idx[i]] == r[i];
    }
  }

  lemma EmbedsCons<T>(r: seq<T>, s: seq<T>, idx: seq<int>)
    requires s != [] && EmbedsAt(r, s, idx)
    requires forall i :: 0 <= i < |idx| ==> idx[i] > 0
    ensures EmbedsAt([s[0]] + r, s, [0] + idx)
  {
  }

  /** Filtering twice is filtering once by the conjunction of the two tests. */
  lemma {:induction false} FilterFilter<T>(s: seq<T>, p: T -> bool, q: T -> bool, both: T -> bool)
    requires forall x :: both(x) == (p(x) && q(x))
    ensures Filter(Filter(s, p), q) == Filter(s, both)
  {
    if s != [] {
      FilterFilter(s[1..], p, q, both);
      var head := if p(s[0]) then [s[0]] else [];
      assert Filter(s, p) == head + Filter(s[1..], p);
      FilterAppend(head, Filter(s[1..], p), q);
    }
  }

  /** Filtering a sequence with a given first element. */
  lemma FilterCons<T>(h: T, s: seq<T>, p: T -> bool)
    ensures Filter([h] + s, p) == (if p(h) then [h] else []) + Filter(s, p)
  {
    assert ([h] + s)[1..] == s;
  }

  /** Filtering distributes over concatenation. */
  lemma {:induction false} FilterAppend<T>(a: seq<T>, b: seq<T>, p: T -> bool)
    ensures Filter(a + b, p) == Filter(a, p) + Filter(b, p)
  {
    if a != [] {
      assert (a + b)[1..] == a[1..] + b;
      FilterAppend(a[1..], b, p);
    } else {
      assert a + b == b;
    }
  }

  /** A test that accepts every element leaves the sequence as it is. */
  lemma {:induction false} FilterKeepsAll<T>(s: seq<T>, p: T -> bool)
    requires forall x :: x in s ==> p(x)
    ensures Filter(s, p) == s
  {
    if s != [] {
      FilterKeepsAll(s[1..], p);
    }
  }

  /** `skip(n)`: drops the first `n` elements, or all of them when there are fewer. */
  function Skip<T>(s: seq<T>, n: nat): (r: seq<T>)
    ensures n >= |s| ==> r == []
    ensures n < |s| ==> |r| == |s| - n && forall i :: 0 <= i < |r| ==> r[i] == s[n + i]
  {
    if n <= |s| then s[n..] else []
  }

  /** `limit(n)`: keeps at most the first `n` elements. */
  function Limit<T>(s: seq<T>, n: nat): (r: seq<T>)
    ensures |r| == if n <= |s| then n else |s|
    ensures r <= s
  {
    if n <= |s| then s[..n] else s
  }
}
