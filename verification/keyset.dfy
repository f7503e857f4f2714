/**
 * Direction-aware lexicographic comparison of cursor tuples: the order in which
 * a batch iteration visits rows once it has forced `ORDER BY c1 d1, c2 d2, ...`.
 */
module Keyset {

  /** The sort direction of one cursor column (`:asc` / `:desc`). */
  datatype Direction = Asc | Desc

  /** Where a tuple sits relative to another one in the batch order. */
  datatype Ordering = Before | Same | After

  function Flip(o: Ordering): Ordering
  {
    match o
    case Before => After
    case Same => Same
    case After => Before
  }

  /** Position of `x` relative to `y` in a single column sorted in direction `d`. */
  function CompareValue(d: Direction, x: int, y: int): (o: Ordering)
    ensures o == Same <==> x == y
    ensures d == Asc ==> (o == Before <==> x < y) && (o == After <==> x > y)
    ensures d == Desc ==> (o == Before <==> x > y) && (o == After <==> x < y)
  {
    if x == y then Same
    else if (x < y) == (d == Asc) then Before
    else After
  }

  /**
   * Position of tuple `a` relative to tuple `b` when rows are sorted by the
   * columns in turn, each in its own direction. Only the common prefix of
   * the three sequences takes part: a shorter tuple compares as `Same` once
   * it runs out.
   */
  function Compare(dirs: seq<Direction>, a: seq<int>, b: seq<int>): (o: Ordering)
    ensures o == Same <==> forall i :: 0 <= i < |dirs| && i < |a| && i < |b| ==> a[i] == b[i]
    decreases |dirs|
  {
    if |dirs| == 0 || |a| == 0 || |b| == 0 then Same
    else
      match CompareValue(dirs[0], a[0], b[0])
      case Same => Compare(dirs[1..], a[1..], b[1..])
      case o => o
  }

  /** Swapping the operands flips the answer: `Before` one way is `After` the other. */
  lemma {:induction false} CompareSwap(dirs: seq<Direction>, a: seq<int>, b: seq<int>)
    ensures Compare(dirs, b, a) == Flip(Compare(dirs, a, b))
    decreases |dirs|
  {
    if |dirs| == 0 || |a| == 0 || |b| == 0 {
    } else if a[0] == b[0] {
      CompareSwap(dirs[1..], a[1..], b[1..]);
    }
  }

  /** A tuple is never strictly before or after itself. */
  lemma {:induction false} CompareSelf(dirs: seq<Direction>, a: seq<int>)
    ensures Compare(dirs, a, a) == Same
    decreases |dirs|
  {
    if |dirs| != 0 && |a| != 0 {
      CompareSelf(dirs[1..], a[1..]);
    }
  }

  /** On full-length tuples `Same` is exactly equality: the order is total and antisymmetric. */
  lemma {:induction false} CompareSameIsEqual(dirs: seq<Direction>, a: seq<int>, b: seq<int>)
    requires |a| == |dirs| && |b| == |dirs|
    ensures Compare(dirs, a, b) == Same <==> a == b
    decreases |dirs|
  {
    if |dirs| == 0 {
    } else {
      CompareSameIsEqual(dirs[1..], a[1..], b[1..]);
      if a[0] == b[0] && a[1..] == b[1..] {
        assert a == [a[0]] + a[1..] && b == [b[0]] + b[1..];
      }
    }
  }

  /** Every entry of `s` is the same value. */
  predicate Constant(s: seq<int>)
  {
    forall i :: 0 <= i < |s| ==> s[i] == s[0]
  }

  /**
   * When every column of both tuples carries one and the same value (several
   * cursor columns that all name one plucked column), comparing against the
   * one-element prefix of `b` gives the same answer as comparing against `b`.
   */
  lemma ConstantComparesOnFirst(dirs: seq<Direction>, a: seq<int>, b: seq<int>)
    requires |a| == |dirs| && |b| == |dirs| && |dirs| > 0
    requires Constant(a) && Constant(b)
    ensures Compare(dirs, a, b) == Compare(dirs, a, b[..1])
  {
    if a[0] == b[0] {
      assert a == b;
      CompareSelf(dirs, a);
      assert Compare(dirs[1..], a[1..], b[..1][1..]) == Same;
    }
  }
}
