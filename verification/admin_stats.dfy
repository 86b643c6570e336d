/** The four summary cards at the top of the admin dashboard: participant
    count, rounded average score, top score and the most frequent career. */
module AdminStats {
  import opened Wrappers
  import opened Seqs
  import opened Records
  import opened Tally
  import opened Text
  import opened Stats
  import opened AdminTypes

  function Scores(rs: seq<QuizResult>): (xs: seq<int>)
    ensures |xs| == |rs| && forall i :: 0 <= i < |rs| ==> xs[i] == rs[i].logicalScore
  {
    seq(|rs|, i requires 0 <= i < |rs| => rs[i].logicalScore)
  }

  /** `averageScore`: 0 without results, otherwise the integer nearest to the
      exact mean score, halves up. */
  function AverageScore(rs: seq<QuizResult>): (r: nat)
    ensures r == Mean(Scores(rs))
    ensures |rs| == 0 ==> r == 0
    ensures |rs| > 0 ==> 2 * |rs| * r <= 2 * Sum(Scores(rs)) + |rs| < 2 * |rs| * (r + 1)
  {
    var xs := Scores(rs);
    if |rs| == 0 then 0
    else
      MeanBetweenMinMax(xs);
      Mean(xs)
  }

  /** The average score is 0 without results; otherwise it is the nearest
      integer to the exact mean (halves up), no lower than some score and no
      higher than some score. */
  lemma AverageScoreBetween(rs: seq<QuizResult>)
    ensures |rs| == 0 ==> AverageScore(rs) == 0
    ensures |rs| > 0 ==> 2 * |rs| * AverageScore(rs) <= 2 * Sum(Scores(rs)) + |rs|
                                                  < 2 * |rs| * (AverageScore(rs) + 1)
    ensures |rs| > 0 ==> exists i :: 0 <= i < |rs| && rs[i].logicalScore <= AverageScore(rs)
    ensures |rs| > 0 ==> exists i :: 0 <= i < |rs| && AverageScore(rs) <= rs[i].logicalScore
  {
    if |rs| > 0 {
      var xs := Scores(rs);
      MeanBetweenMinMax(xs);
      var lo := FirstPos(xs, Min(xs));
      var hi := FirstPos(xs, Max(xs));
      assert rs[lo].logicalScore <= AverageScore(rs) <= rs[hi].logicalScore;
    }
  }

  /** `topScore`: 0 without results; otherwise a score that is reached and
      that no score exceeds. */
  function TopScore(rs: seq<QuizResult>): (r: nat)
    ensures |rs| == 0 ==> r == 0
    ensures |rs| > 0 ==> (exists i :: 0 <= i < |rs| && rs[i].logicalScore == r)
    ensures forall i :: 0 <= i < |rs| ==> rs[i].logicalScore <= r
  {
    var xs := Scores(rs);
    if |rs| == 0 then 0
    else
      var i := FirstPos(xs, Max(xs));
      assert rs[i].logicalScore == Max(xs);
      Max(xs)
  }

  /** The top score is at least the average score. */
  lemma TopAtLeastAverage(rs: seq<QuizResult>)
    ensures AverageScore(rs) <= TopScore(rs)
  {
    MeanAtMostMax(Scores(rs));
  }

  /** A career the distribution counts: truthy, and not the name of a member
      inherited from `Object.prototype`. For such a name the read
      `careerDistribution[c] || 0` returns the inherited member, so the stored
      value is a concatenated text (or, for `__proto__`, nothing at all), and
      a text never compares greater than a count in the reduce. */
  predicate Counted(c: Option<string>)
  {
    Truthy(c) && c.value !in InheritedNames
  }

  /** The careers that are counted, in result order. */
  function Careers(rs: seq<QuizResult>): (cs: seq<string>)
    ensures |cs| <= |rs|
    ensures forall i :: 0 <= i < |cs| ==> Counted(Some(cs[i]))
    ensures forall i :: 0 <= i < |cs| ==> exists j :: 0 <= j < |rs| && rs[j].careerType == Some(cs[i])
    ensures forall j :: 0 <= j < |rs| && Counted(rs[j].careerType) ==> rs[j].careerType.value in cs
  {
    if |rs| == 0 then []
    else
      var init := rs[..|rs| - 1];
      var cs := Careers(init);
      var c := rs[|rs| - 1].careerType;
      assert forall j :: 0 <= j < |init| ==> init[j] == rs[j];
      if Counted(c) then cs + [c.value] else cs
  }

  /** Independent count: how many results record career `c`. */
  function RowsWithCareer(rs: seq<QuizResult>, c: string): nat
  {
    if |rs| == 0 then 0
    else RowsWithCareer(rs[..|rs| - 1], c) + (if rs[|rs| - 1].careerType == Some(c) then 1 else 0)
  }

  lemma {:induction false} CareersOcc(rs: seq<QuizResult>, c: string)
    requires Counted(Some(c))
    ensures Occ(Careers(rs), c) == RowsWithCareer(rs, c)
  {
    if |rs| > 0 {
      var init := rs[..|rs| - 1];
      CareersOcc(init, c);
      var k := rs[|rs| - 1].careerType;
      if Counted(k) {
        OccAppend(Careers(init), k.value, c);
      }
    }
  }

  /** `careerDistribution`, restricted to its numeric entries: one per
      counted career, in order of first recording. */
  function CareerDistribution(rs: seq<QuizResult>): (d: Counts<string>)
    ensures Keys(d) == Dedup(Careers(rs))
  {
    CountKeys(Careers(rs));
    Count(Careers(rs))
  }

  /** The distribution counts, for every counted career, exactly the results
      recording it, and has no count for the empty career or an inherited
      member name. */
  lemma DistributionCounts(rs: seq<QuizResult>, c: string)
    ensures CountOf(CareerDistribution(rs), c) == if Counted(Some(c)) then RowsWithCareer(rs, c) else 0
  {
    CountGet(Careers(rs), c);
    if Counted(Some(c)) {
      CareersOcc(rs, c);
    } else {
      OccPositive(Careers(rs), c);
    }
  }

  /** The distribution's counts add up to at most the number of results. */
  lemma DistributionTotal(rs: seq<QuizResult>)
    ensures SumCounts(CareerDistribution(rs)) <= |rs|
  {
    CountTotal(Careers(rs));
  }

  /** `topCareer`: the reduce over the distribution from `['N/A', 0]`. It is
      `'N/A'` or a recorded career, and never an inherited member name. */
  function TopCareer(rs: seq<QuizResult>): (c: string)
    ensures c !in InheritedNames
    ensures c == "N/A" || exists j :: 0 <= j < |rs| && rs[j].careerType == Some(c)
  {
    Winner(Careers(rs), "N/A")
  }

  /** `'N/A'` when no result records a counted career; otherwise the counted
      career recorded most often, ties going to the career recorded first. */
  lemma TopCareerIsPlurality(rs: seq<QuizResult>)
    ensures IsPlurality(Careers(rs), "N/A", TopCareer(rs))
    ensures (forall j :: 0 <= j < |rs| ==> !Counted(rs[j].careerType)) ==> TopCareer(rs) == "N/A"
    ensures (exists j :: 0 <= j < |rs| && Counted(rs[j].careerType)) ==>
              exists j :: 0 <= j < |rs| && rs[j].careerType == Some(TopCareer(rs))
  {
    WinnerIsPlurality(Careers(rs), "N/A");
  }

  /** Results whose careers are all null, empty or inherited member names
      give `'N/A'`. */
  lemma UncountedCareersGiveNone(rs: seq<QuizResult>)
    requires forall j :: 0 <= j < |rs| && rs[j].careerType.Some? ==>
               rs[j].careerType.value == "" || rs[j].careerType.value in InheritedNames
    ensures TopCareer(rs) == "N/A"
  {
    TopCareerIsPlurality(rs);
  }

  /** The card values: `'-'` everywhere while loading; otherwise the
      participant count, `avg/90`, `top/90` and the top career. */
  function StatCards(rs: seq<QuizResult>, isLoading: bool): (cards: seq<string>)
    ensures |cards| == 4
    ensures isLoading ==> forall i :: 0 <= i < 4 ==> cards[i] == "-"
    ensures !isLoading ==> IsCanonicalDecimal(cards[0]) && DecimalValue(cards[0]) == |rs|
    ensures !isLoading ==> cards[1] == NatToString(AverageScore(rs)) + "/90"
    ensures !isLoading ==> cards[2] == NatToString(TopScore(rs)) + "/90"
    ensures !isLoading ==> cards[3] == TopCareer(rs)
  {
    if isLoading then ["-", "-", "-", "-"]
    else [NatToString(|rs|), NatToString(AverageScore(rs)) + "/90",
          NatToString(TopScore(rs)) + "/90", TopCareer(rs)]
  }
}
