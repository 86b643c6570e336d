/** Integer aggregates the admin views compute over score and time columns:
    the sum, `Math.round(sum / n)` on integers, and `Math.max(...xs)`. */
module Stats {

  function Sum(xs: seq<int>): int
  {
    if |xs| == 0 then 0 else Sum(xs[..|xs| - 1]) + xs[|xs| - 1]
  }

  lemma SumAppend(xs: seq<int>, x: int)
    ensures Sum(xs + [x]) == Sum(xs) + x
  {
    assert (xs + [x])[..|xs|] == xs;
  }

  /** `Math.round(num / den)` for a positive denominator: the integer nearest
      to the quotient, halves rounded up. */
  function RoundHalfUp(num: int, den: int): (r: int)
    requires den > 0
    ensures 2 * den * r <= 2 * num + den < 2 * den * (r + 1)
  {
    (2 * num + den) / (2 * den)
  }

  /** The rounded mean the statistic cards show, 0 for an empty column. */
  function Mean(xs: seq<int>): int
  {
    if |xs| == 0 then 0 else RoundHalfUp(Sum(xs), |xs|)
  }

  /** `xs.length > 0 ? Math.max(...xs) : 0`. */
  function Max(xs: seq<int>): (r: int)
    ensures |xs| == 0 ==> r == 0
    ensures |xs| > 0 ==> r in xs && forall i :: 0 <= i < |xs| ==> xs[i] <= r
  {
    if |xs| == 0 then 0
    else if |xs| == 1 then xs[0]
    else
      var m := Max(xs[..|xs| - 1]);
      assert forall i :: 0 <= i < |xs| - 1 ==> xs[i] == xs[..|xs| - 1][i];
      if xs[|xs| - 1] > m then xs[|xs| - 1] else m
  }

  /** A sum lies between `n` copies of any lower bound and `n` copies of any
      upper bound of its terms. */
  lemma {:induction false} SumBounds(xs: seq<int>, lo: int, hi: int)
    requires forall i :: 0 <= i < |xs| ==> lo <= xs[i] <= hi
    ensures |xs| * lo <= Sum(xs) <= |xs| * hi
  {
    if |xs| > 0 {
      var init := xs[..|xs| - 1];
      assert forall i :: 0 <= i < |init| ==> init[i] == xs[i];
      SumBounds(init, lo, hi);
      assert |xs| * lo == |init| * lo + lo;
      assert |xs| * hi == |init| * hi + hi;
    }
  }

  /** Rounding a quotient that lies between two integers stays between them. */
  lemma RoundBetween(num: int, den: int, lo: int, hi: int)
    requires den > 0 && den * lo <= num <= den * hi
    ensures lo <= RoundHalfUp(num, den) <= hi
  {
    var r := RoundHalfUp(num, den);
    var d2 := 2 * den;
    assert d2 * r < d2 * (hi + 1) by {
      assert 2 * num + den < d2 * hi + d2;
    }
    CancelLess(d2, r, hi + 1);
    assert d2 * lo < d2 * (r + 1) by {
      assert d2 * lo < 2 * num + den;
    }
    CancelLess(d2, lo, r + 1);
  }

  lemma CancelLess(a: int, x: int, y: int)
    requires a > 0 && a * x < a * y
    ensures x < y
  {
    assert a * y - a * x == a * (y - x);
  }

  /** The rounded mean of a non-empty column lies between any bounds of its
      entries; in particular between its minimum and its maximum. */
  lemma MeanBetween(xs: seq<int>, lo: int, hi: int)
    requires |xs| > 0 && forall i :: 0 <= i < |xs| ==> lo <= xs[i] <= hi
    ensures lo <= Mean(xs) <= hi
  {
    SumBounds(xs, lo, hi);
    RoundBetween(Sum(xs), |xs|, lo, hi);
  }

  /** The least entry of a non-empty column. */
  function Min(xs: seq<int>): (r: int)
    requires |xs| > 0
    ensures r in xs && forall i :: 0 <= i < |xs| ==> r <= xs[i]
  {
    if |xs| == 1 then xs[0]
    else
      var m := Min(xs[..|xs| - 1]);
      assert forall i :: 0 <= i < |xs| - 1 ==> xs[i] == xs[..|xs| - 1][i];
      if xs[|xs| - 1] < m then xs[|xs| - 1] else m
  }

  /** The rounded mean of a non-empty column lies between its least and its
      greatest entry. */
  lemma MeanBetweenMinMax(xs: seq<int>)
    requires |xs| > 0
    ensures Min(xs) <= Mean(xs) <= Max(xs)
  {
    MeanBetween(xs, Min(xs), Max(xs));
  }

  /** The top entry is never below the rounded mean. */
  lemma MeanAtMostMax(xs: seq<int>)
    ensures Mean(xs) <= Max(xs)
  {
    if |xs| > 0 {
      MeanBetweenMinMax(xs);
    }
  }

  /** The rounded mean of entries that are all equal is that value. */
  lemma MeanConstant(xs: seq<int>, v: int)
    requires |xs| > 0 && forall i :: 0 <= i < |xs| ==> xs[i] == v
    ensures Mean(xs) == v
  {
    MeanBetween(xs, v, v);
  }
}
