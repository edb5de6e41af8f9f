/** Order-preserving filtering of sequences, the shape of `Array.prototype.filter`
    and of a SQL `WHERE` over a table kept in insertion order; and the same shape
    over the numbered positions 1..n of a record. */
module Seqs {

  /** The elements of `s` that satisfy `p`, in their original order. */
  function Filter<T(!new)>(s: seq<T>, p: T -> bool): (r: seq<T>)
    ensures |r| <= |s|
  {
    if s == [] then []
    else (if p(s[0]) then [s[0]] else []) + Filter(s[1..], p)
  }

  /** What is kept is exactly what passes. */
  lemma {:induction false} FilterMembers<T(!new)>(s: seq<T>, p: T -> bool)
    ensures forall x :: x in Filter(s, p) <==> x in s && p(x)
  {
    if s != [] {
      FilterMembers(s[1..], p);
      assert s == [s[0]] + s[1..];
    }
  }

  /** Filtering distributes over concatenation: relative order is kept. */
  lemma {:induction false} FilterConcat<T(!new)>(a: seq<T>, b: seq<T>, p: T -> bool)
    ensures Filter(a + b, p) == Filter(a, p) + Filter(b, p)
  {
    if a == [] {
      assert a + b == b;
    } else {
      var head := if p(a[0]) then [a[0]] else [];
      assert (a + b)[0] == a[0] && (a + b)[1..] == a[1..] + b;
      assert Filter(a + b, p) == head + Filter(a[1..] + b, p);
      FilterConcat(a[1..], b, p);
      assert Filter(a, p) == head + Filter(a[1..], p);
    }
  }

  /** A one-element sequence keeps its element exactly when it passes. */
  lemma {:induction false} FilterSingle<T(!new)>(x: T, p: T -> bool)
    ensures Filter([x], p) == if p(x) then [x] else []
  {
    assert [x][1..] == [];
  }

  /** A sequence whose every element passes is returned unchanged. */
  lemma {:induction false} FilterKeepsAll<T(!new)>(s: seq<T>, p: T -> bool)
    requires forall x :: x in s ==> p(x)
    ensures Filter(s, p) == s
  {
    if s != [] {
      FilterKeepsAll(s[1..], p);
    }
  }

  /** Filtering twice by the same predicate is filtering once. */
  lemma {:induction false} FilterIdempotent<T(!new)>(s: seq<T>, p: T -> bool)
    ensures Filter(Filter(s, p), p) == Filter(s, p)
  {
    FilterMembers(s, p);
    FilterKeepsAll(Filter(s, p), p);
  }

  /** Filtering by `p` and by its negation `q` splits `s` in two. */
  lemma {:induction false} FilterPartition<T(!new)>(s: seq<T>, p: T -> bool, q: T -> bool)
    requires forall x :: q(x) == !p(x)
    ensures |Filter(s, p)| + |Filter(s, q)| == |s|
  {
    if s != [] {
      FilterPartition(s[1..], p, q);
    }
  }

  /** The values `line(i)` of the positions `i` in 1..n that pass `keep`, in
      position order. */
  function Collect<T>(n: nat, keep: nat -> bool, line: nat -> T): (r: seq<T>)
    ensures |r| <= n
  {
    if n == 0 then [] else Collect(n - 1, keep, line) + (if keep(n) then [line(n)] else [])
  }

  /** The positions in 1..n that pass `keep`, ascending. */
  function Selected(n: nat, keep: nat -> bool): (r: seq<nat>)
    ensures forall i :: i in r <==> 1 <= i <= n && keep(i)
    ensures forall k :: 0 <= k < |r| ==> 1 <= r[k] <= n
    ensures forall j, k :: 0 <= j < k < |r| ==> r[j] < r[k]
  {
    if n == 0 then [] else Selected(n - 1, keep) + (if keep(n) then [n] else [])
  }

  /** Entry k of what is collected comes from the k-th selected position. */
  lemma {:induction false} CollectFollowsSelected<T>(n: nat, keep: nat -> bool, line: nat -> T)
    ensures |Collect(n, keep, line)| == |Selected(n, keep)|
    ensures forall k :: 0 <= k < |Selected(n, keep)| ==>
              Collect(n, keep, line)[k] == line(Selected(n, keep)[k])
  {
    if n > 0 {
      CollectFollowsSelected(n - 1, keep, line);
    }
  }
}
