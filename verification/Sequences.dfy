/** Sums of integer sequences, for counting arguments and progress measures, and sequences
    without duplicates. */
module Sequences {

  /** The sum of all elements of `s`. */
  ghost function Sum(s: seq<int>): int {
    if |s| == 0 then 0 else Sum(s[..|s| - 1]) + s[|s| - 1]
  }

  /** Changing one element changes the sum by the difference. */
  lemma {:induction false} SumUpdate(s: seq<int>, i: nat, x: int)
    requires i < |s|
    ensures Sum(s[i := x]) == Sum(s) - s[i] + x
  {
    var n := |s| - 1;
    if i == n {
      assert s[i := x][..n] == s[..n];
    } else {
      assert s[i := x][..n] == s[..n][i := x];
      SumUpdate(s[..n], i, x);
    }
  }

  lemma {:induction false} SumBounds(s: seq<int>, lo: int, hi: int)
    requires forall i :: 0 <= i < |s| ==> lo <= s[i] <= hi
    ensures lo * |s| <= Sum(s) <= hi * |s|
  {
    if |s| != 0 {
      SumBounds(s[..|s| - 1], lo, hi);
      assert lo * |s| == lo * (|s| - 1) + lo && hi * |s| == hi * (|s| - 1) + hi;
    }
  }

  /** A 0/1 sequence whose sum is its length is all ones. */
  lemma {:induction false} SumFull(s: seq<int>, i: nat)
    requires forall j :: 0 <= j < |s| ==> 0 <= s[j] <= 1
    requires Sum(s) == |s| && i < |s|
    ensures s[i] == 1
  {
    SumBounds(s[..|s| - 1], 0, 1);
    if i < |s| - 1 {
      SumFull(s[..|s| - 1], i);
    }
  }

  lemma {:induction false} SumNonnegative(s: seq<int>)
    requires forall j :: 0 <= j < |s| ==> 0 <= s[j]
    ensures 0 <= Sum(s)
  {
    if |s| != 0 {
      SumNonnegative(s[..|s| - 1]);
    }
  }

  predicate Distinct<T(==)>(s: seq<T>) {
    forall i, j :: 0 <= i < j < |s| ==> s[i] != s[j]
  }

  function Elements<T>(s: seq<T>): set<T> {
    set x | x in s
  }

  lemma {:induction false} DistinctElements<T>(s: seq<T>)
    requires Distinct(s)
    ensures |Elements(s)| == |s|
  {
    if |s| > 0 {
      var front, last := s[..|s| - 1], s[|s| - 1];
      DistinctElements(front);
      assert Elements(s) == Elements(front) + {last};
    }
  }

  lemma {:induction false} ElementsAtMost<T>(s: seq<T>)
    ensures |Elements(s)| <= |s|
  {
    if |s| > 0 {
      var front, last := s[..|s| - 1], s[|s| - 1];
      ElementsAtMost(front);
      assert Elements(s) == Elements(front) + {last};
    }
  }
}
