/** Facts about sequences that the proofs name when they need them. */
module Sequences {

  lemma Associate<T>(a: seq<T>, b: seq<T>, c: seq<T>)
    ensures a + b + c == a + (b + c)
  {
  }

  lemma EmptyLeft<T>(s: seq<T>)
    ensures [] + s == s
  {
  }

  lemma EmptyRight<T>(s: seq<T>)
    ensures s + [] == s
  {
  }

  lemma TailOfCons<T>(x: T, xs: seq<T>)
    ensures ([x] + xs)[1..] == xs
  {
  }

  lemma WholePrefix<T>(xs: seq<T>)
    ensures xs[..|xs|] == xs
  {
  }

  /** A sequence has as many members as elements iff none is repeated. */
  lemma {:induction false} CardinalityIff<T>(xs: seq<T>)
    ensures |set x | x in xs| <= |xs|
    ensures |set x | x in xs| == |xs| <==> forall i, j | 0 <= i < j < |xs| :: xs[i] != xs[j]
  {
    if xs != [] {
      var rest := xs[1..];
      CardinalityIff(rest);
      var all, later := (set x | x in xs), (set x | x in rest);
      assert all == later + {xs[0]};
      assert forall i | 0 <= i < |rest| :: rest[i] == xs[i + 1];
      if xs[0] in rest {
        assert all == later;
        var j :| 0 <= j < |rest| && rest[j] == xs[0];
        assert xs[0] == xs[j + 1];
      } else {
        assert |all| == |later| + 1;
        assert forall j | 0 < j < |xs| :: xs[j] == rest[j - 1];
      }
    }
  }

  lemma SliceOfSlice<T>(s: seq<T>, from: nat, to: nat, a: nat, b: nat)
    requires from <= to <= |s| && a <= b <= to - from
    ensures s[from..to][a..b] == s[from + a..from + b]
  {
    forall k | 0 <= k < b - a ensures s[from..to][a..b][k] == s[from + a..from + b][k] {
    }
  }

  lemma SameHeadAndTail<T>(a: seq<T>, b: seq<T>)
    requires a != [] && b != [] && a[0] == b[0] && a[1..] == b[1..]
    ensures a == b
  {
    assert a == [a[0]] + a[1..] && b == [b[0]] + b[1..];
  }

  lemma SameMembersEmpty<T>(xs: seq<T>, ys: seq<T>)
    requires forall x :: x in xs <==> x in ys
    ensures xs == [] <==> ys == []
  {
    if xs != [] {
      assert xs[0] in ys;
    }
    if ys != [] {
      assert ys[0] in xs;
    }
  }
}
