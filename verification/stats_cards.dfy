/** The alternative summary cards over results that carry a completion time:
    participant count, rounded average score, rounded average time over the
    results with a recorded time, and top score. */
module StatsCards {
  import opened Wrappers
  import opened Seqs
  import opened Text
  import opened Stats
  import Timer

  /** The row shape these cards read. */
  datatype TimedResult = TimedResult(
    id: string,
    childName: string,
    logicalScore: nat,
    completionTimeSeconds: Option<nat>,
    careerPrediction: string)

  /** A completion time counts when it is present and not 0 (JavaScript
      truthiness of a nullable number). */
  predicate HasTime(r: TimedResult)
  {
    r.completionTimeSeconds.Some? && r.completionTimeSeconds.value != 0
  }

  function Scores(rs: seq<TimedResult>): (xs: seq<int>)
    ensures |xs| == |rs| && forall i :: 0 <= i < |rs| ==> xs[i] == rs[i].logicalScore
  {
    seq(|rs|, i requires 0 <= i < |rs| => rs[i].logicalScore)
  }

  /** `averageScore`: 0 without results; otherwise the integer nearest to
      the exact mean score, halves up, which lies between the lowest and the
      highest score. */
  function AverageScore(rs: seq<TimedResult>): (r: nat)
    ensures r == Mean(Scores(rs))
    ensures |rs| == 0 ==> r == 0
    ensures |rs| > 0 ==> 2 * |rs| * r <= 2 * Sum(Scores(rs)) + |rs| < 2 * |rs| * (r + 1)
    ensures |rs| > 0 ==> exists i :: 0 <= i < |rs| && rs[i].logicalScore <= r
    ensures |rs| > 0 ==> exists i :: 0 <= i < |rs| && r <= rs[i].logicalScore
  {
    var xs := Scores(rs);
    if |rs| == 0 then 0
    else
      MeanBetweenMinMax(xs);
      assert xs[FirstPos(xs, Min(xs))] <= Mean(xs) <= xs[FirstPos(xs, Max(xs))];
      Mean(xs)
  }

  /** `topScore`: 0 without results, otherwise the highest score. */
  function TopScore(rs: seq<TimedResult>): (r: nat)
    ensures |rs| > 0 ==> exists i :: 0 <= i < |rs| && rs[i].logicalScore == r
    ensures |rs| == 0 ==> r == 0
    ensures forall i :: 0 <= i < |rs| ==> rs[i].logicalScore <= r
  {
    var xs := Scores(rs);
    if |rs| == 0 then 0
    else
      assert xs[FirstPos(xs, Max(xs))] == Max(xs);
      Max(xs)
  }

  /** `validTimes`: the results with a counting completion time, in order. */
  function ValidTimes(rs: seq<TimedResult>): (vs: seq<TimedResult>)
    ensures forall i :: 0 <= i < |vs| ==> HasTime(vs[i]) && vs[i] in rs
    ensures forall i :: 0 <= i < |rs| && HasTime(rs[i]) ==> rs[i] in vs
    ensures multiset(vs) <= multiset(rs)
    ensures forall i :: 0 <= i < |rs| ==>
              multiset(vs)[rs[i]] == if HasTime(rs[i]) then multiset(rs)[rs[i]] else 0
  {
    FilterCountsAll(rs, HasTime);
    Filter(rs, HasTime)
  }

  /** The summed column, `r.completion_time_seconds || 0` per row. */
  function Times(vs: seq<TimedResult>): (ts: seq<int>)
    ensures |ts| == |vs|
    ensures forall i :: 0 <= i < |vs| ==> ts[i] == vs[i].completionTimeSeconds.GetOr(0)
  {
    seq(|vs|, i requires 0 <= i < |vs| => vs[i].completionTimeSeconds.GetOr(0))
  }

  /** `averageTime`: 0 when no result has a counting time, otherwise the
      rounded mean of the counting times only. */
  function AverageTime(rs: seq<TimedResult>): (r: nat)
    ensures r == Mean(Times(ValidTimes(rs)))
    ensures (forall i :: 0 <= i < |rs| ==> !HasTime(rs[i])) ==> r == 0
    ensures var ts := Times(ValidTimes(rs));
            |ts| > 0 ==> 2 * |ts| * r <= 2 * Sum(ts) + |ts| < 2 * |ts| * (r + 1)
  {
    var ts := Times(ValidTimes(rs));
    if |ts| == 0 then 0
    else
      MeanBetweenMinMax(ts);
      Mean(ts)
  }

  /** A result without a counting time does not move the average time. */
  lemma AverageTimeIgnoresUntimed(rs: seq<TimedResult>, r: TimedResult)
    requires !HasTime(r)
    ensures AverageTime(rs + [r]) == AverageTime(rs)
  {
    FilterAppend(rs, [r], HasTime);
    assert Filter([r], HasTime) == [];
  }

  /** Appending a timed result appends its time to the averaged column. */
  lemma AverageTimeAppendTimed(rs: seq<TimedResult>, r: TimedResult)
    requires HasTime(r)
    ensures Times(ValidTimes(rs + [r])) == Times(ValidTimes(rs)) + [r.completionTimeSeconds.value]
  {
    FilterAppend(rs, [r], HasTime);
    assert Filter([r], HasTime) == [r];
    TimesAppend(ValidTimes(rs), r);
  }

  lemma TimesAppend(vs: seq<TimedResult>, r: TimedResult)
    requires HasTime(r)
    ensures Times(vs + [r]) == Times(vs) + [r.completionTimeSeconds.value]
  {
    assert forall i :: 0 <= i < |vs| ==> (vs + [r])[i] == vs[i];
  }

  /** With at least one counting time, the average time is positive and lies
      between the shortest and the longest counting time. */
  lemma AverageTimeBetween(rs: seq<TimedResult>)
    requires exists i :: 0 <= i < |rs| && HasTime(rs[i])
    ensures var ts := Times(ValidTimes(rs));
            |ts| > 0 && Min(ts) <= AverageTime(rs) <= Max(ts) && AverageTime(rs) >= 1
  {
    var i :| 0 <= i < |rs| && HasTime(rs[i]);
    var vs := ValidTimes(rs);
    assert rs[i] in vs;
    var ts := Times(vs);
    MeanBetweenMinMax(ts);
    assert ts[FirstPos(ts, Min(ts))] >= 1;
  }

  /** The card values: `'-'` everywhere while loading; otherwise the
      participant count, `avg/90`, the average time as `m:ss`, and `top/90`. */
  function Cards(rs: seq<TimedResult>, isLoading: bool): (cards: seq<string>)
    ensures |cards| == 4
    ensures isLoading ==> forall i :: 0 <= i < 4 ==> cards[i] == "-"
    ensures !isLoading ==> IsCanonicalDecimal(cards[0]) && DecimalValue(cards[0]) == |rs|
    ensures !isLoading ==> cards[1] == NatToString(AverageScore(rs)) + "/90"
    ensures !isLoading ==> Timer.ParseClock(cards[2]) == Some(AverageTime(rs))
    ensures !isLoading ==> cards[3] == NatToString(TopScore(rs)) + "/90"
  {
    if isLoading then ["-", "-", "-", "-"]
    else
      Timer.ParseFormatClock(AverageTime(rs));
      [NatToString(|rs|), NatToString(AverageScore(rs)) + "/90",
       Timer.FormatClock(AverageTime(rs)), NatToString(TopScore(rs)) + "/90"]
  }
}
