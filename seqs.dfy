/** Order-preserving filtering of sequences, the model of a `WHERE` clause over a table. */
module Seqs {

  /** The elements of `s` that satisfy `f`, in their original order. */
  function Filter<T(!new)>(f: T -> bool, s: seq<T>): (r: seq<T>)
    ensures |r| <= |s|
    ensures forall x :: x in r <==> x in s && f(x)
    ensures forall i :: 0 <= i < |r| ==> f(r[i])
    decreases |s|
  {
    if s == [] then []
    else Filter(f, s[..|s| - 1]) + (if f(s[|s| - 1]) then [s[|s| - 1]] else [])
  }

  /** Filtering distributes over concatenation. */
  lemma {:induction false} FilterConcat<T(!new)>(f: T -> bool, a: seq<T>, b: seq<T>)
    ensures Filter(f, a + b) == Filter(f, a) + Filter(f, b)
    decreases |b|
  {
    if b == [] {
      assert a + b == a;
    } else {
      var b' := b[..|b| - 1];
      assert (a + b)[..|a + b| - 1] == a + b';
      FilterConcat(f, a, b');
    }
  }

  /** A sequence whose elements all pass the filter is its own filter. */
  lemma {:induction false} FilterKeepsAll<T(!new)>(f: T -> bool, s: seq<T>)
    requires forall i :: 0 <= i < |s| ==> f(s[i])
    ensures Filter(f, s) == s
    decreases |s|
  {
    if s != [] {
      FilterKeepsAll(f, s[..|s| - 1]);
    }
  }

  /** A sequence none of whose elements pass the filter filters to nothing. */
  lemma {:induction false} FilterDropsAll<T(!new)>(f: T -> bool, s: seq<T>)
    requires forall i :: 0 <= i < |s| ==> !f(s[i])
    ensures Filter(f, s) == []
    decreases |s|
  {
    if s != [] {
      FilterDropsAll(f, s[..|s| - 1]);
    }
  }

  /** Filters that agree on every element of `s` select the same subsequence. */
  lemma {:induction false} FilterCongruent<T(!new)>(f: T -> bool, g: T -> bool, s: seq<T>)
    requires forall i :: 0 <= i < |s| ==> f(s[i]) == g(s[i])
    ensures Filter(f, s) == Filter(g, s)
    decreases |s|
  {
    if s != [] {
      FilterCongruent(f, g, s[..|s| - 1]);
    }
  }

  /** Filtering twice selects what the conjunction of the two filters selects. */
  lemma {:induction false} FilterCompose<T(!new)>(f: T -> bool, g: T -> bool, h: T -> bool, s: seq<T>)
    requires forall i :: 0 <= i < |s| ==> h(s[i]) == (g(s[i]) && f(s[i]))
    ensures Filter(f, Filter(g, s)) == Filter(h, s)
    decreases |s|
  {
    if s != [] {
      var s' := s[..|s| - 1];
      var x := s[|s| - 1];
      FilterCompose(f, g, h, s');
      FilterConcat(f, Filter(g, s'), if g(x) then [x] else []);
    }
  }

  /** A filter and its complement split a sequence between them. */
  lemma {:induction false} FilterLengthSplit<T(!new)>(f: T -> bool, g: T -> bool, s: seq<T>)
    requires forall i :: 0 <= i < |s| ==> g(s[i]) == !f(s[i])
    ensures |Filter(f, s)| + |Filter(g, s)| == |s|
    decreases |s|
  {
    if s != [] {
      FilterLengthSplit(f, g, s[..|s| - 1]);
    }
  }
}
