/** Sequence helpers shared by the quiz engine and the admin views:
    first-match search (`Array.prototype.find`), occurrence counting,
    first positions, and first-occurrence de-duplication (`[...new Set(xs)]`). */
module Seqs {
  import opened Wrappers

  /** The first element satisfying `p`, as `xs.find(p)` returns it. */
  function Find<T>(xs: seq<T>, p: T -> bool): (r: Option<T>)
    ensures r.None? <==> forall i :: 0 <= i < |xs| ==> !p(xs[i])
    ensures r.Some? ==> exists i :: 0 <= i < |xs| && xs[i] == r.value && p(xs[i])
                                   && forall j :: 0 <= j < i ==> !p(xs[j])
  {
    if |xs| == 0 then None
    else if p(xs[0]) then Some(xs[0])
    else
      var r := Find(xs[1..], p);
      assert forall i :: 1 <= i < |xs| ==> xs[i] == xs[1..][i - 1];
      r
  }

  /** When exactly one element satisfies `p`, `Find` returns it. */
  lemma FindUnique<T>(xs: seq<T>, p: T -> bool, i: int)
    requires 0 <= i < |xs| && p(xs[i])
    requires forall j :: 0 <= j < |xs| && p(xs[j]) ==> j == i
    ensures Find(xs, p) == Some(xs[i])
  {
  }

  /** Number of occurrences of `x` in `xs`. */
  function Occ<T(==)>(xs: seq<T>, x: T): nat
  {
    if |xs| == 0 then 0
    else (if xs[0] == x then 1 else 0) + Occ(xs[1..], x)
  }

  lemma {:induction false} OccPositive<T>(xs: seq<T>, x: T)
    ensures x in xs <==> Occ(xs, x) > 0
  {
    if |xs| > 0 {
      OccPositive(xs[1..], x);
      assert xs == [xs[0]] + xs[1..];
    }
  }

  lemma {:induction false} OccConcat<T>(a: seq<T>, b: seq<T>, c: T)
    ensures Occ(a + b, c) == Occ(a, c) + Occ(b, c)
  {
    if |a| > 0 {
      assert (a + b)[1..] == a[1..] + b;
      OccConcat(a[1..], b, c);
    } else {
      assert a + b == b;
    }
  }

  lemma OccAppend<T>(xs: seq<T>, y: T, x: T)
    ensures Occ(xs + [y], x) == Occ(xs, x) + (if y == x then 1 else 0)
  {
    OccConcat(xs, [y], x);
    assert [y][1..] == [];
  }

  /** `Occ` split off at the last element. */
  lemma OccLast<T>(xs: seq<T>, x: T)
    requires |xs| > 0
    ensures Occ(xs, x) == Occ(xs[..|xs| - 1], x) + (if xs[|xs| - 1] == x then 1 else 0)
  {
    var init := xs[..|xs| - 1];
    assert xs == init + [xs[|xs| - 1]];
    OccAppend(init, xs[|xs| - 1], x);
  }

  /** Index of the first occurrence of `x` in `xs`. */
  function FirstPos<T(==)>(xs: seq<T>, x: T): (i: nat)
    requires x in xs
    ensures i < |xs| && xs[i] == x
    ensures forall j :: 0 <= j < i ==> xs[j] != x
  {
    if xs[0] == x then 0 else 1 + FirstPos(xs[1..], x)
  }

  /** Appending never moves an element's first occurrence. */
  lemma FirstPosAppend<T>(xs: seq<T>, ys: seq<T>, x: T)
    requires x in xs
    ensures x in xs + ys && FirstPos(xs + ys, x) == FirstPos(xs, x)
  {
    var i := FirstPos(xs, x);
    assert (xs + ys)[i] == x;
    assert forall j :: 0 <= j < i ==> (xs + ys)[j] == xs[j];
  }

  /** No element appears twice. */
  predicate Distinct<T(==)>(xs: seq<T>)
  {
    forall i, j :: 0 <= i < j < |xs| ==> xs[i] != xs[j]
  }

  /** Keeps the first occurrence of every element, in order of first
      appearance: the iteration order of `new Set(xs)`. */
  function Dedup<T(==)>(xs: seq<T>): (d: seq<T>)
    ensures Distinct(d)
    ensures forall i :: 0 <= i < |d| ==> d[i] in xs
    ensures forall i :: 0 <= i < |xs| ==> xs[i] in d
    ensures |d| <= |xs|
  {
    if |xs| == 0 then []
    else
      var init := xs[..|xs| - 1];
      var last := xs[|xs| - 1];
      var d := Dedup(init);
      assert xs == init + [last];
      if last in d then d else d + [last]
  }

  /** Deduplication keeps exactly the elements. */
  lemma DedupMembers<T>(xs: seq<T>, x: T)
    ensures x in Dedup(xs) <==> x in xs
  {
    var d := Dedup(xs);
    if x in d {
      var i :| 0 <= i < |d| && d[i] == x;
    }
    if x in xs {
      var j :| 0 <= j < |xs| && xs[j] == x;
    }
  }

  /** Deduplication extended by one element: a new element goes last, a
      repeated one changes nothing. */
  lemma DedupLast<T>(xs: seq<T>)
    requires |xs| > 0
    ensures var init := xs[..|xs| - 1];
            Dedup(xs) == if xs[|xs| - 1] in init then Dedup(init) else Dedup(init) + [xs[|xs| - 1]]
  {
    DedupMembers(xs[..|xs| - 1], xs[|xs| - 1]);
  }

  /** `Dedup` lists the elements in the order of their first occurrence. */
  lemma {:induction false} DedupFirstOccurrenceOrder<T>(xs: seq<T>)
    ensures forall i, j :: 0 <= i < j < |Dedup(xs)| ==>
              FirstPos(xs, Dedup(xs)[i]) < FirstPos(xs, Dedup(xs)[j])
  {
    if |xs| > 0 {
      var init := xs[..|xs| - 1];
      var last := xs[|xs| - 1];
      DedupFirstOccurrenceOrder(init);
      DedupLast(xs);
      var d := Dedup(init);
      forall y | y in d
        ensures FirstPos(xs, y) == FirstPos(init, y) < |init|
      {
        DedupMembers(init, y);
        FirstPosInit(xs, y);
      }
      if last !in init {
        FirstPosLast(xs);
        var e := d + [last];
        forall i, j | 0 <= i < j < |e|
          ensures FirstPos(xs, e[i]) < FirstPos(xs, e[j])
        {
          assert e[i] == d[i];
          if j < |d| {
            assert e[j] == d[j];
          }
        }
      }
    }
  }

  /** An element of all but the last position is first found there. */
  lemma FirstPosInit<T>(xs: seq<T>, y: T)
    requires |xs| > 0 && y in xs[..|xs| - 1]
    ensures y in xs && FirstPos(xs, y) == FirstPos(xs[..|xs| - 1], y)
  {
    var init := xs[..|xs| - 1];
    assert xs == init + [xs[|xs| - 1]];
    FirstPosAppend(init, [xs[|xs| - 1]], y);
  }

  /** A last element seen nowhere before is first found at the end. */
  lemma FirstPosLast<T>(xs: seq<T>)
    requires |xs| > 0 && xs[|xs| - 1] !in xs[..|xs| - 1]
    ensures FirstPos(xs, xs[|xs| - 1]) == |xs| - 1
  {
    assert forall j :: 0 <= j < |xs| - 1 ==> xs[..|xs| - 1][j] == xs[j];
  }

  /** The elements satisfying `p`, in order (`xs.filter(p)`). */
  function Filter<T>(xs: seq<T>, p: T -> bool): (r: seq<T>)
    ensures |r| <= |xs|
    ensures forall i :: 0 <= i < |r| ==> r[i] in xs && p(r[i])
    ensures forall i :: 0 <= i < |xs| && p(xs[i]) ==> xs[i] in r
    ensures multiset(r) <= multiset(xs)
  {
    if |xs| == 0 then []
    else
      var init := xs[..|xs| - 1];
      var last := xs[|xs| - 1];
      assert xs == init + [last];
      var r := Filter(init, p);
      if p(last) then r + [last] else r
  }

  /** Every element satisfying `p` is kept as often as it occurs, every
      other element is dropped. */
  lemma {:induction false} FilterCounts<T>(xs: seq<T>, p: T -> bool, x: T)
    ensures multiset(Filter(xs, p))[x] == if p(x) then multiset(xs)[x] else 0
  {
    if |xs| > 0 {
      var init := xs[..|xs| - 1];
      var last := xs[|xs| - 1];
      FilterCounts(init, p, x);
      assert xs == init + [last];
      assert multiset(xs)[x] == multiset(init)[x] + multiset([last])[x];
    }
  }

  lemma FilterCountsAll<T>(xs: seq<T>, p: T -> bool)
    ensures forall i :: 0 <= i < |xs| ==>
              multiset(Filter(xs, p))[xs[i]] == if p(xs[i]) then multiset(xs)[xs[i]] else 0
  {
    forall i | 0 <= i < |xs|
      ensures multiset(Filter(xs, p))[xs[i]] == if p(xs[i]) then multiset(xs)[xs[i]] else 0
    {
      FilterCounts(xs, p, xs[i]);
    }
  }

  /** Filtering with predicates that agree everywhere gives the same list. */
  lemma {:induction false} FilterCongruent<T>(xs: seq<T>, p: T -> bool, q: T -> bool)
    requires forall x :: p(x) == q(x)
    ensures Filter(xs, p) == Filter(xs, q)
  {
    if |xs| > 0 {
      FilterCongruent(xs[..|xs| - 1], p, q);
    }
  }

  /** Filtering with a predicate every element satisfies keeps everything. */
  lemma {:induction false} FilterKeepsAll<T>(xs: seq<T>, p: T -> bool)
    requires forall i :: 0 <= i < |xs| ==> p(xs[i])
    ensures Filter(xs, p) == xs
  {
    if |xs| > 0 {
      var init := xs[..|xs| - 1];
      FilterKeepsAll(init, p);
      assert xs == init + [xs[|xs| - 1]];
    }
  }

  /** Filtering distributes over concatenation, so the kept elements stay in
      input order. */
  lemma FilterAppend<T>(xs: seq<T>, ys: seq<T>, p: T -> bool)
    ensures Filter(xs + ys, p) == Filter(xs, p) + Filter(ys, p)
    decreases |ys|
  {
    if |ys| == 0 {
      assert xs + ys == xs;
    } else {
      var ys' := ys[..|ys| - 1];
      assert (xs + ys)[..|xs + ys| - 1] == xs + ys';
      FilterAppend(xs, ys', p);
    }
  }
}
