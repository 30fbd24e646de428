/** Totals over a table: the sum of a weight over the elements of a sequence. */
module Sums {

  ghost function Sum<T(!new)>(weight: T -> nat, s: seq<T>): nat {
    if s == [] then 0 else Sum(weight, s[..|s| - 1]) + weight(s[|s| - 1])
  }

  /** Appending one row adds its weight. */
  lemma SumAppend<T(!new)>(weight: T -> nat, s: seq<T>, x: T)
    ensures Sum(weight, s + [x]) == Sum(weight, s) + weight(x)
  {
    assert (s + [x])[..|s|] == s;
  }

  /** Overwriting one row exchanges its weight for the new one. */
  lemma {:induction false} SumUpdate<T(!new)>(weight: T -> nat, s: seq<T>, i: nat, x: T)
    requires i < |s|
    ensures Sum(weight, s[i := x]) + weight(s[i]) == Sum(weight, s) + weight(x)
  {
    var n := |s| - 1;
    if i == n {
      assert s[i := x][..n] == s[..n];
    } else {
      SumUpdate(weight, s[..n], i, x);
      assert s[i := x][..n] == s[..n][i := x];
    }
  }

  /** No row outweighs the total, and two different rows do not either. */
  lemma {:induction false} SumAtLeastTwo<T(!new)>(weight: T -> nat, s: seq<T>, i: nat, j: nat)
    requires i < j < |s|
    ensures Sum(weight, s) >= weight(s[i]) + weight(s[j])
  {
    var n := |s| - 1;
    if j == n {
      SumAtLeast(weight, s[..n], i);
    } else {
      SumAtLeastTwo(weight, s[..n], i, j);
    }
  }

  lemma {:induction false} SumAtLeast<T(!new)>(weight: T -> nat, s: seq<T>, i: nat)
    requires i < |s|
    ensures Sum(weight, s) >= weight(s[i])
  {
    var n := |s| - 1;
    if i < n {
      SumAtLeast(weight, s[..n], i);
    }
  }

  /** Pointwise comparison of two weights, the second scaled by a constant. */
  lemma {:induction false} SumScaled<T(!new)>(light: T -> nat, heavy: T -> nat, factor: nat, s: seq<T>)
    requires forall x :: x in s ==> light(x) <= factor * heavy(x)
    ensures Sum(light, s) <= factor * Sum(heavy, s)
  {
    if s != [] {
      var n := |s| - 1;
      SumScaled(light, heavy, factor, s[..n]);
      assert light(s[n]) <= factor * heavy(s[n]);
    }
  }

  /** One weight below the sum of two others. */
  lemma {:induction false} SumSplit<T(!new)>(whole: T -> nat, left: T -> nat, right: T -> nat, s: seq<T>)
    requires forall x :: x in s ==> whole(x) <= left(x) + right(x)
    ensures Sum(whole, s) <= Sum(left, s) + Sum(right, s)
  {
    if s != [] {
      var n := |s| - 1;
      SumSplit(whole, left, right, s[..n]);
      assert whole(s[n]) <= left(s[n]) + right(s[n]);
    }
  }
}
