/** The sequence primitives the board is built from: `filter`, `findIndex`
    and the `arrayMove` reorder of the drag-and-drop library. */
module Sequences {

  /** `r` is `s` with some elements deleted and the rest kept in order. */
  ghost predicate Subsequence<T>(r: seq<T>, s: seq<T>)
    decreases |s|
  {
    if r == [] then true
    else if s == [] then false
    else (r[0] == s[0] && Subsequence(r[1..], s[1..])) || Subsequence(r, s[1..])
  }

  /** `Array.prototype.filter`: the elements of `s` that satisfy `p`, in order.
      The multiplicity clause together with `Subsequence` pins the result
      down: every satisfying occurrence is kept, every other one dropped. */
  function Filter<T(!new)>(s: seq<T>, p: T -> bool): (r: seq<T>)
    ensures |r| <= |s|
    ensures forall x :: x in r <==> x in s && p(x)
    ensures forall x :: multiset(r)[x] == if p(x) then multiset(s)[x] else 0
    ensures Subsequence(r, s)
  {
    if s == [] then []
    else
      var rest := Filter(s[1..], p);
      assert s == [s[0]] + s[1..];
      if p(s[0]) then [s[0]] + rest else rest
  }

  /** Filtering a second time with the same test removes nothing more. */
  lemma {:induction false} FilterIdempotent<T(!new)>(s: seq<T>, p: T -> bool)
    ensures Filter(Filter(s, p), p) == Filter(s, p)
  {
    if s != [] {
      FilterIdempotent(s[1..], p);
    }
  }

  /** `Array.prototype.findIndex` on a key: the first index holding `x`, or -1. */
  function FirstIndex<T(==)>(s: seq<T>, x: T): (r: int)
    ensures -1 <= r < |s|
    ensures r == -1 <==> x !in s
    ensures 0 <= r ==> s[r] == x && forall j :: 0 <= j < r ==> s[j] != x
  {
    if s == [] then -1
    else if s[0] == x then 0
    else
      var k := FirstIndex(s[1..], x);
      if k < 0 then -1 else k + 1
  }

  /** Where `Move(s, from, to)` takes its element at position `i` from:
      the moved element lands at `to`, the ones it passes shift by one
      toward `from`, everything else stays. */
  function MovedFrom(from: nat, to: nat, i: nat): nat
  {
    if i == to then from
    else if from <= to && from <= i < to then i + 1
    else if to < from && to < i <= from then i - 1
    else i
  }

  /** `arrayMove(s, from, to)`: remove the element at `from`, then insert it
      at `to` in what is left. Both indices must be in range. */
  function Move<T>(s: seq<T>, from: nat, to: nat): (r: seq<T>)
    requires from < |s| && to < |s|
    ensures |r| == |s|
    ensures r[to] == s[from]
    ensures forall i :: 0 <= i < |s| ==> MovedFrom(from, to, i) < |s| && r[i] == s[MovedFrom(from, to, i)]
    ensures multiset(r) == multiset(s)
  {
    var rest := s[..from] + s[from + 1..];
    var r := rest[..to] + [s[from]] + rest[to..];
    MoveFacts(s, from, to, rest, r);
    r
  }

  /** The facts `Move` promises, proved on its two slicing steps. */
  lemma MoveFacts<T>(s: seq<T>, from: nat, to: nat, rest: seq<T>, r: seq<T>)
    requires from < |s| && to < |s|
    requires rest == s[..from] + s[from + 1..]
    requires r == rest[..to] + [s[from]] + rest[to..]
    ensures |r| == |s|
    ensures forall i :: 0 <= i < |s| ==> MovedFrom(from, to, i) < |s| && r[i] == s[MovedFrom(from, to, i)]
    ensures multiset(r) == multiset(s)
  {
    forall i | 0 <= i < |s|
      ensures MovedFrom(from, to, i) < |s| && r[i] == s[MovedFrom(from, to, i)]
    {
      if i < to {
        assert r[i] == rest[i];
      } else if i > to {
        assert r[i] == rest[i - 1];
      }
    }
    calc {
      multiset(r);
      multiset(rest[..to]) + multiset([s[from]]) + multiset(rest[to..]);
      { assert rest == rest[..to] + rest[to..]; }
      multiset(rest) + multiset([s[from]]);
      multiset(s[..from]) + multiset(s[from + 1..]) + multiset([s[from]]);
      { assert s == s[..from] + [s[from]] + s[from + 1..]; }
      multiset(s);
    }
  }

  /** Moving an element onto its own position is the identity. */
  lemma MoveInPlace<T>(s: seq<T>, i: nat)
    requires i < |s|
    ensures Move(s, i, i) == s
  {
  }

  /** The moved element is the only one whose position is `to`; the others
      are elements of `s` other than the one at `from`. */
  lemma MoveOthers<T>(s: seq<T>, from: nat, to: nat, i: nat)
    requires from < |s| && to < |s| && i < |s| && i != to
    ensures MovedFrom(from, to, i) != from
    ensures Move(s, from, to)[i] == s[MovedFrom(from, to, i)]
  {
  }
}
