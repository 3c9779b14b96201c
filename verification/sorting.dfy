/**
 Sorting a column, the first step of every quantile. Insertion sort is used
 as the reference: it is short to define and its result is characterised by
 the two facts quantiles need, sortedness and being a permutation.
 */
module Sorting {
  import opened Columns

  predicate Sorted(s: seq<real>)
  {
    forall i, j :: 0 <= i < j < |s| ==> s[i] <= s[j]
  }

  /** Inserts `x` into the sorted sequence `s` at its place. */
  function Insert(s: seq<real>, x: real): (r: seq<real>)
    requires Sorted(s)
    ensures Sorted(r)
    ensures |r| == |s| + 1
    ensures r[0] == x || (|s| > 0 && r[0] == s[0])
  {
    if |s| == 0 then [x]
    else if x <= s[0] then [x] + s
    else
      assert s == [s[0]] + s[1..];
      [s[0]] + Insert(s[1..], x)
  }

  /** The values of the column in ascending order. */
  function Sort(xs: seq<real>): (r: seq<real>)
    ensures Sorted(r)
    ensures |r| == |xs|
  {
    if |xs| == 0 then []
    else
      assert xs == [xs[0]] + xs[1..];
      Insert(Sort(xs[1..]), xs[0])
  }

  lemma {:induction false} InsertPermutation(s: seq<real>, x: real)
    requires Sorted(s)
    ensures multiset(Insert(s, x)) == multiset(s) + multiset{x}
  {
    if |s| > 0 && x > s[0] {
      InsertPermutation(s[1..], x);
      assert s == [s[0]] + s[1..];
    }
  }

  /** Sorting only reorders the column: every value keeps its multiplicity. */
  lemma {:induction false} SortPermutation(xs: seq<real>)
    ensures multiset(Sort(xs)) == multiset(xs)
  {
    if |xs| > 0 {
      SortPermutation(xs[1..]);
      InsertPermutation(Sort(xs[1..]), xs[0]);
      assert xs == [xs[0]] + xs[1..];
    }
  }

  /**
   Two sorted sequences holding the same values with the same multiplicities
   are equal, so any sorting algorithm yields exactly `Sort`'s result.
   */
  lemma {:induction false} SortedPermutationUnique(a: seq<real>, b: seq<real>)
    requires Sorted(a) && Sorted(b)
    requires multiset(a) == multiset(b)
    ensures a == b
  {
    if |a| > 0 {
      SameLeast(a, b);
      assert a == [a[0]] + a[1..] && b == [b[0]] + b[1..];
      assert multiset(a) == multiset{a[0]} + multiset(a[1..]);
      assert multiset(b) == multiset{a[0]} + multiset(b[1..]);
      forall v ensures multiset(a[1..])[v] == multiset(b[1..])[v] {
        assert multiset(a)[v] == multiset(b)[v];
      }
      assert multiset(a[1..]) == multiset(b[1..]);
      SortedPermutationUnique(a[1..], b[1..]);
    }
  }

  /** Sorted sequences holding the same values start with the same least value. */
  lemma SameLeast(a: seq<real>, b: seq<real>)
    requires Sorted(a) && Sorted(b) && |a| > 0
    requires multiset(a) == multiset(b)
    ensures |b| > 0 && a[0] == b[0]
  {
    assert a[0] in multiset(b);
    SortedEnds(a);
    SortedEnds(b);
    var i :| 0 <= i < |b| && b[i] == a[0];
    assert b[0] in multiset(a);
    var j :| 0 <= j < |a| && a[j] == b[0];
  }

  /** Any sorted permutation of the column is its sorted order. */
  lemma SortUnique(xs: seq<real>, s: seq<real>)
    requires Sorted(s) && multiset(s) == multiset(xs)
    ensures s == Sort(xs)
  {
    SortPermutation(xs);
    SortedPermutationUnique(s, Sort(xs));
  }

  /** A column already in ascending order sorts to itself. */
  lemma {:induction false} SortOfSorted(xs: seq<real>)
    requires Sorted(xs)
    ensures Sort(xs) == xs
  {
    if |xs| > 0 {
      SortOfSorted(xs[1..]);
      assert xs == [xs[0]] + xs[1..];
    }
  }

  /** The first and last values of a sorted sequence bound all of it. */
  lemma SortedEnds(s: seq<real>)
    requires Sorted(s) && |s| > 0
    ensures forall k :: 0 <= k < |s| ==> s[0] <= s[k] <= s[|s| - 1]
  {
    forall k | 0 <= k < |s|
      ensures s[0] <= s[k] <= s[|s| - 1]
    {
      if 0 < k {
        assert s[0] <= s[k];
      }
      if k < |s| - 1 {
        assert s[k] <= s[|s| - 1];
      }
    }
  }

  /** The first and last sorted values are the minimum and maximum of the column. */
  lemma SortExtremes(xs: seq<real>)
    requires |xs| > 0
    ensures Sort(xs)[0] == Min(xs)
    ensures Sort(xs)[|xs| - 1] == Max(xs)
  {
    var s := Sort(xs);
    var n := |xs|;
    SortPermutation(xs);
    SortedEnds(s);
    forall k | 0 <= k < n
      ensures s[0] <= xs[k] <= s[n - 1]
    {
      assert xs[k] in multiset(s);
    }
    assert s[0] in multiset(xs) && s[n - 1] in multiset(xs);
    MinUnique(xs, s[0]);
    MaxUnique(xs, s[n - 1]);
  }

  /** Every value of a constant column sorts to the same value. */
  lemma SortConstant(xs: seq<real>)
    requires Constant(xs)
    ensures Constant(Sort(xs))
    ensures |xs| > 0 ==> Sort(xs)[0] == xs[0]
  {
    var s := Sort(xs);
    SortPermutation(xs);
    forall i | 0 <= i < |s|
      ensures s[i] == if |xs| > 0 then xs[0] else 0.0
    {
      assert s[i] in multiset(xs);
    }
  }

  lemma ShiftConcat(a: seq<real>, b: seq<real>, c: real)
    ensures Shift(a + b, c) == Shift(a, c) + Shift(b, c)
  {
  }

  lemma {:induction false} InsertShift(s: seq<real>, x: real, c: real)
    requires Sorted(s)
    ensures Sorted(Shift(s, c))
    ensures Insert(Shift(s, c), x + c) == Shift(Insert(s, x), c)
  {
    var t := Shift(s, c);
    if |s| == 0 {
      assert Shift([x], c) == [x + c];
    } else if x <= s[0] {
      ShiftConcat([x], s, c);
      assert Shift([x], c) == [x + c];
    } else {
      assert t[1..] == Shift(s[1..], c);
      InsertShift(s[1..], x, c);
      ShiftConcat([s[0]], Insert(s[1..], x), c);
      assert Shift([s[0]], c) == [t[0]];
    }
  }

  /** Sorting commutes with adding a constant to every value. */
  lemma {:induction false} SortShift(xs: seq<real>, c: real)
    ensures Sort(Shift(xs, c)) == Shift(Sort(xs), c)
  {
    if |xs| > 0 {
      var ys := Shift(xs, c);
      assert ys[1..] == Shift(xs[1..], c);
      calc {
        Sort(ys);
        Insert(Sort(ys[1..]), ys[0]);
        { SortShift(xs[1..], c); }
        Insert(Shift(Sort(xs[1..]), c), xs[0] + c);
        { InsertShift(Sort(xs[1..]), xs[0], c); }
        Shift(Insert(Sort(xs[1..]), xs[0]), c);
        Shift(Sort(xs), c);
      }
    }
  }
}
