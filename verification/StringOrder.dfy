/** The order in which Go compares strings. */
module StringOrder {
  import opened Sequences

  /** Go's `<` on strings. */
  predicate Less(a: string, b: string)
    decreases a
  {
    b != "" && (a == "" || a[0] < b[0] || (a[0] == b[0] && Less(a[1..], b[1..])))
  }

  lemma {:induction false} LessIsTotal(a: string, b: string)
    ensures a == b || Less(a, b) || Less(b, a)
    ensures !(Less(a, b) && Less(b, a)) && (a == b ==> !Less(a, b))
    decreases a
  {
    if a != "" && b != "" {
      LessIsTotal(a[1..], b[1..]);
      assert a == [a[0]] + a[1..] && b == [b[0]] + b[1..];
    }
  }

  lemma {:induction false} LessIsTransitive(a: string, b: string, c: string)
    requires Less(a, b) && Less(b, c)
    ensures Less(a, c)
    decreases a
  {
    if a != "" && a[0] == b[0] == c[0] {
      LessIsTransitive(a[1..], b[1..], c[1..]);
    }
  }

  /** At the first difference the smaller character decides; a proper prefix comes first. */
  ghost predicate FirstDifference(a: string, b: string, i: nat) {
    && i <= |a| && i < |b| && a[..i] == b[..i]
    && (i == |a| || a[i] < b[i])
  }

  lemma {:induction false} LessIsLexicographic(a: string, b: string)
    ensures Less(a, b) <==> exists i: nat :: FirstDifference(a, b, i)
    decreases a
  {
    if a != "" && b != "" && a[0] == b[0] {
      LessIsLexicographic(a[1..], b[1..]);
      if i: nat :| FirstDifference(a[1..], b[1..], i) {
        assert a[..i + 1] == [a[0]] + a[1..][..i] && b[..i + 1] == [b[0]] + b[1..][..i];
        assert FirstDifference(a, b, i + 1);
      }
      if i: nat :| FirstDifference(a, b, i) {
        assert i > 0;
        assert a[1..][..i - 1] == a[..i][1..] && b[1..][..i - 1] == b[..i][1..];
        assert FirstDifference(a[1..], b[1..], i - 1);
      }
    } else if Less(a, b) {
      assert FirstDifference(a, b, 0);
    } else {
      forall i: nat | FirstDifference(a, b, i) ensures i == 0 {
        StartsAlike(a, b, i);
      }
    }
  }

  lemma StartsAlike(a: string, b: string, i: nat)
    requires FirstDifference(a, b, i)
    ensures i > 0 ==> a != "" && a[0] == b[0]
  {
    if i > 0 { assert a[..i][0] == b[..i][0]; }
  }

  /** The next string after `a`. */
  function Successor(a: string): string { a + [0 as char] }

  lemma {:induction false} LessThanSuccessor(a: string)
    ensures Less(a, Successor(a))
    decreases a
  {
    if a != "" {
      assert Successor(a)[1..] == Successor(a[1..]);
      LessThanSuccessor(a[1..]);
    }
  }

  lemma {:induction false} NothingBelowSuccessor(a: string, t: string)
    ensures !(Less(a, t) && Less(t, Successor(a)))
    decreases a
  {
    if a != "" && t != "" {
      assert Successor(a)[1..] == Successor(a[1..]);
      NothingBelowSuccessor(a[1..], t[1..]);
    } else if a == "" && t != "" {
      assert Successor(a)[1..] == "";
    }
  }

  ghost predicate Sorted(xs: seq<string>) {
    forall i, j | 0 <= i < j < |xs| :: Less(xs[i], xs[j])
  }

  /** A set of strings has a least element. */
  lemma Least(s: set<string>) returns (x: string)
    requires s != {}
    ensures x in s && forall y | y in s && y != x :: Less(x, y)
  {
    x :| x in s;
    if s != {x} {
      var rest := Least(s - {x});
      LessIsTotal(x, rest);
      if Less(rest, x) {
        x := rest;
      } else {
        forall y | y in s && y != x ensures Less(x, y) {
          if y != rest {
            LessIsTransitive(x, rest, y);
          }
        }
      }
    }
  }

  /** A set of strings is listed in order in one way only. */
  lemma {:induction false} SortedIsUnique(xs: seq<string>, ys: seq<string>)
    requires Sorted(xs) && Sorted(ys) && forall x :: x in xs <==> x in ys
    ensures xs == ys
    decreases |xs|
  {
    SameMembersEmpty(xs, ys);
    if xs != [] {
      assert xs[0] in xs && ys[0] in ys;
      HeadIsLeast(xs, ys[0]);
      HeadIsLeast(ys, xs[0]);
      LessIsTotal(xs[0], ys[0]);
      forall z ensures z in xs[1..] <==> z in ys[1..] {
        LessIsTotal(xs[0], xs[0]);
        assert z in xs <==> z == xs[0] || z in xs[1..];
        assert z in ys <==> z == ys[0] || z in ys[1..];
      }
      SortedIsUnique(xs[1..], ys[1..]);
    }
  }

  lemma HeadIsLeast(xs: seq<string>, x: string)
    requires Sorted(xs) && x in xs
    ensures x == xs[0] || Less(xs[0], x)
  {
    var j :| 0 <= j < |xs| && xs[j] == x;
  }
}
