/** `Array.prototype.filter` over sequences, with the facts the screens need:
    the result is an order-preserving subsequence, membership is exactly
    "in the input and kept", and two complementary filters can be
    interleaved back into the input. */
module Seqs {

  /** `s.filter(keep)`. */
  function Filter<T>(s: seq<T>, keep: T -> bool): (r: seq<T>)
    ensures |r| <= |s|
    ensures forall i :: 0 <= i < |r| ==> keep(r[i])
  {
    if s == [] then []
    else if keep(s[0]) then [s[0]] + Filter(s[1..], keep)
    else Filter(s[1..], keep)
  }

  /** `a` is obtained from `b` by deleting elements, keeping the order of the rest. */
  predicate IsSubsequence<T(==)>(a: seq<T>, b: seq<T>)
    decreases |b|
  {
    || a == []
    || (b != [] && ((a[0] == b[0] && IsSubsequence(a[1..], b[1..])) || IsSubsequence(a, b[1..])))
  }

  lemma {:induction false} FilterIsSubsequence<T>(s: seq<T>, keep: T -> bool)
    ensures IsSubsequence(Filter(s, keep), s)
  {
    if s != [] {
      FilterIsSubsequence(s[1..], keep);
      var r := Filter(s, keep);
      if keep(s[0]) {
        assert r[0] == s[0] && r[1..] == Filter(s[1..], keep);
      }
    }
  }

  lemma {:induction false} FilterMembership<T>(s: seq<T>, keep: T -> bool, x: T)
    ensures x in Filter(s, keep) <==> x in s && keep(x)
  {
    if s != [] {
      FilterMembership(s[1..], keep, x);
      assert x in s <==> x == s[0] || x in s[1..];
    }
  }

  /** A filter that keeps every element returns its input unchanged. */
  lemma {:induction false} FilterKeepsAll<T>(s: seq<T>, keep: T -> bool)
    requires forall i :: 0 <= i < |s| ==> keep(s[i])
    ensures Filter(s, keep) == s
  {
    if s != [] {
      FilterKeepsAll(s[1..], keep);
      assert s == [s[0]] + s[1..];
    }
  }

  lemma FilterIdempotent<T>(s: seq<T>, keep: T -> bool)
    ensures Filter(Filter(s, keep), keep) == Filter(s, keep)
  {
    FilterKeepsAll(Filter(s, keep), keep);
  }

  /** The verdict of `keep` on each element, in order. */
  function Flags<T>(s: seq<T>, keep: T -> bool): (r: seq<bool>)
    ensures |r| == |s|
    ensures forall i :: 0 <= i < |s| ==> r[i] == keep(s[i])
  {
    if s == [] then [] else [keep(s[0])] + Flags(s[1..], keep)
  }

  /** Rebuilds a sequence from two parts: position `i` takes the next element
      of `a` when `flags[i]` holds and the next element of `b` otherwise. */
  function Interleave<T>(flags: seq<bool>, a: seq<T>, b: seq<T>): seq<T> {
    if flags == [] then []
    else if flags[0] then (if a == [] then [] else [a[0]] + Interleave(flags[1..], a[1..], b))
    else (if b == [] then [] else [b[0]] + Interleave(flags[1..], a, b[1..]))
  }

  /** Two filters with opposite verdicts on every element split `s` into two
      parts that interleave back into `s` exactly, so their sizes add up. */
  lemma {:induction false} FilterPartition<T>(s: seq<T>, keep: T -> bool, other: T -> bool)
    requires forall i :: 0 <= i < |s| ==> keep(s[i]) != other(s[i])
    ensures Interleave(Flags(s, keep), Filter(s, keep), Filter(s, other)) == s
    ensures |Filter(s, keep)| + |Filter(s, other)| == |s|
  {
    if s != [] {
      FilterPartition(s[1..], keep, other);
      var a, b := Filter(s, keep), Filter(s, other);
      var flags := Flags(s, keep);
      assert flags[1..] == Flags(s[1..], keep);
      if keep(s[0]) {
        assert a[0] == s[0] && a[1..] == Filter(s[1..], keep);
      } else {
        assert b[0] == s[0] && b[1..] == Filter(s[1..], other);
      }
      assert s == [s[0]] + s[1..];
    }
  }
}
