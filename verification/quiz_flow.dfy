/** The calls the screens make on the engine. The page shows one screen per
    phase, and a screen only offers its own action: the welcome screen
    starts, a question screen submits the shown question's id with one of
    its option ids (and only once an option is selected), the transition
    screen continues, and the result screen restarts. Starting from the
    initial state, such calls keep the engine in a state described by
    `FlowInv`. */
module QuizFlow {
  import opened Wrappers
  import opened Seqs
  import opened Records
  import Tally
  import opened QuizData
  import opened Quiz

  datatype Event =
    | Start
    | AnswerPersonalityEvent(qid: string, oid: string)
    | Continue
    | AnswerLogicalEvent(qid: string, oid: string)
    | Restart

  /** The screen for `s.phase` is shown and offers `e`. */
  predicate Allowed(cat: Catalog, s: QuizState, e: Event)
  {
    match e
    case Start => s.phase == Welcome
    case AnswerPersonalityEvent(qid, oid) =>
      s.phase == Personality && s.personalityIndex < |cat.personality|
      && qid == cat.personality[s.personalityIndex].id
      && oid in PersonalityOptionIds(cat.personality[s.personalityIndex])
    case Continue => s.phase == Transition && s.careerPrediction.Some?
    case AnswerLogicalEvent(qid, oid) =>
      s.phase == Logical && s.logicalIndex < |cat.logical|
      && qid == cat.logical[s.logicalIndex].id
      && oid in LogicalOptionIds(cat.logical[s.logicalIndex])
    case Restart => s.phase == Result && s.careerPrediction.Some?
  }

  function Step(cat: Catalog, s: QuizState, e: Event): QuizState
  {
    match e
    case Start => StartQuiz(s)
    case AnswerPersonalityEvent(qid, oid) => AnswerPersonality(cat, s, qid, oid)
    case Continue => StartLogical(s)
    case AnswerLogicalEvent(qid, oid) => AnswerLogical(cat, s, qid, oid)
    case Restart => ResetQuiz(s)
  }

  /** The first `n` personality questions were answered, in order, each
      with one of its own options. */
  ghost predicate PersonalityAnswered(cat: Catalog, a: Answers, n: nat)
  {
    n <= |cat.personality| && |a| == n
    && forall i :: 0 <= i < n ==>
         a[i].0 == cat.personality[i].id && a[i].1 in PersonalityOptionIds(cat.personality[i])
  }

  ghost predicate LogicalAnswered(cat: Catalog, a: Answers, n: nat)
  {
    n <= |cat.logical| && |a| == n
    && forall i :: 0 <= i < n ==>
         a[i].0 == cat.logical[i].id && a[i].1 in LogicalOptionIds(cat.logical[i])
  }

  lemma PersonalityAnsweredExtend(cat: Catalog, a: Answers, n: nat, qid: string, oid: string)
    requires PersonalityAnswered(cat, a, n) && n < |cat.personality|
    requires qid == cat.personality[n].id && oid in PersonalityOptionIds(cat.personality[n])
    ensures PersonalityAnswered(cat, a + [(qid, oid)], n + 1)
  {
    var a' := a + [(qid, oid)];
    forall i | 0 <= i < n + 1
      ensures a'[i].0 == cat.personality[i].id && a'[i].1 in PersonalityOptionIds(cat.personality[i])
    {
      if i < n {
        assert a'[i] == a[i];
      }
    }
  }

  lemma LogicalAnsweredExtend(cat: Catalog, a: Answers, n: nat, qid: string, oid: string)
    requires LogicalAnswered(cat, a, n) && n < |cat.logical|
    requires qid == cat.logical[n].id && oid in LogicalOptionIds(cat.logical[n])
    ensures LogicalAnswered(cat, a + [(qid, oid)], n + 1)
  {
    var a' := a + [(qid, oid)];
    forall i | 0 <= i < n + 1
      ensures a'[i].0 == cat.logical[i].id && a'[i].1 in LogicalOptionIds(cat.logical[i])
    {
      if i < n {
        assert a'[i] == a[i];
      }
    }
  }

  /** The states the screens can reach. */
  ghost predicate FlowInv(cat: Catalog, s: QuizState)
  {
    AnswersInv(cat, s) && ScoreInv(cat, s) && PhaseInv(cat, s)
  }

  ghost predicate AnswersInv(cat: Catalog, s: QuizState)
  {
    PersonalityAnswered(cat, s.personalityAnswers, s.personalityIndex)
    && LogicalAnswered(cat, s.logicalAnswers, s.logicalIndex)
  }

  /** The score is the sum of the points of the recorded logical answers. */
  ghost predicate ScoreInv(cat: Catalog, s: QuizState)
  {
    s.logicalScore == Points(cat.logical, s.logicalAnswers)
  }

  /** How far each part has got in each phase, and when a prediction exists. */
  ghost predicate PhaseInv(cat: Catalog, s: QuizState)
  {
    match s.phase
    case Welcome =>
      s.personalityIndex == 0 && s.logicalIndex == 0 && s.careerPrediction.None?
    case Personality =>
      s.personalityIndex < |cat.personality| && s.logicalIndex == 0 && s.careerPrediction.None?
    case Transition =>
      s.personalityIndex == |cat.personality| && s.logicalIndex == 0
      && s.careerPrediction == Some(Predict(cat.personality, s.personalityAnswers))
    case Logical =>
      s.personalityIndex == |cat.personality| && s.logicalIndex < |cat.logical|
      && s.careerPrediction == Some(Predict(cat.personality, s.personalityAnswers))
    case Result =>
      s.personalityIndex == |cat.personality| && s.logicalIndex == |cat.logical|
      && s.careerPrediction == Some(Predict(cat.personality, s.personalityAnswers))
  }

  lemma InitialFlow(cat: Catalog)
    ensures FlowInv(cat, Initial)
  {
  }

  /** A welcome-phase state of the flow is the initial state. */
  lemma WelcomeIsInitial(cat: Catalog, s: QuizState)
    requires FlowInv(cat, s) && s.phase == Welcome
    ensures s == Initial
  {
  }

  /** The id of the next question is not yet among the recorded answers. */
  lemma NextPersonalityFresh(cat: Catalog, a: Answers, n: nat)
    requires WellFormed(cat) && PersonalityAnswered(cat, a, n) && n < |cat.personality|
    ensures cat.personality[n].id !in Keys(a)
  {
    var ids := PersonalityIds(cat.personality);
    forall i | 0 <= i < |a| ensures Keys(a)[i] != cat.personality[n].id {
      assert Keys(a)[i] == ids[i];
    }
  }

  lemma NextLogicalFresh(cat: Catalog, a: Answers, n: nat)
    requires WellFormed(cat) && LogicalAnswered(cat, a, n) && n < |cat.logical|
    ensures cat.logical[n].id !in Keys(a)
  {
    var ids := LogicalIds(cat.logical);
    forall i | 0 <= i < |a| ensures Keys(a)[i] != cat.logical[n].id {
      assert Keys(a)[i] == ids[i];
    }
  }

  /** Every call a screen makes keeps the engine in the flow. */
  lemma StepPreservesFlow(cat: Catalog, s: QuizState, e: Event)
    requires WellFormed(cat) && FlowInv(cat, s) && Allowed(cat, s, e)
    ensures FlowInv(cat, Step(cat, s, e))
  {
    match e
    case Start =>
    case AnswerPersonalityEvent(qid, oid) => AnswerPersonalityFlow(cat, s, qid, oid);
    case Continue =>
    case AnswerLogicalEvent(qid, oid) => AnswerLogicalFlow(cat, s, qid, oid);
    case Restart =>
  }

  lemma AnswerPersonalityFlow(cat: Catalog, s: QuizState, qid: string, oid: string)
    requires WellFormed(cat) && FlowInv(cat, s) && Allowed(cat, s, AnswerPersonalityEvent(qid, oid))
    ensures FlowInv(cat, AnswerPersonality(cat, s, qid, oid))
  {
    var r := AnswerPersonality(cat, s, qid, oid);
    AnswerPersonalityAppends(cat, s, qid, oid);
    PersonalityAnsweredExtend(cat, s.personalityAnswers, s.personalityIndex, qid, oid);
    assert AnswersInv(cat, r);
    assert ScoreInv(cat, r);
    assert PhaseInv(cat, r);
  }

  lemma AnswerPersonalityAppends(cat: Catalog, s: QuizState, qid: string, oid: string)
    requires WellFormed(cat) && PersonalityAnswered(cat, s.personalityAnswers, s.personalityIndex)
    requires s.personalityIndex < |cat.personality| && qid == cat.personality[s.personalityIndex].id
    ensures AnswerPersonality(cat, s, qid, oid).personalityAnswers == s.personalityAnswers + [(qid, oid)]
  {
    NextPersonalityFresh(cat, s.personalityAnswers, s.personalityIndex);
    PutFresh(s.personalityAnswers, qid, oid);
  }

  lemma AnswerLogicalFlow(cat: Catalog, s: QuizState, qid: string, oid: string)
    requires WellFormed(cat) && FlowInv(cat, s) && Allowed(cat, s, AnswerLogicalEvent(qid, oid))
    ensures FlowInv(cat, AnswerLogical(cat, s, qid, oid))
  {
    var r := AnswerLogical(cat, s, qid, oid);
    AnswerLogicalAppends(cat, s, qid, oid);
    LogicalAnsweredExtend(cat, s.logicalAnswers, s.logicalIndex, qid, oid);
    AnswerLogicalScore(cat, s, qid, oid);
    assert AnswersInv(cat, r);
    assert PhaseInv(cat, r);
  }

  /** The next question's answer is appended, its id being fresh. */
  lemma AnswerLogicalAppends(cat: Catalog, s: QuizState, qid: string, oid: string)
    requires WellFormed(cat) && LogicalAnswered(cat, s.logicalAnswers, s.logicalIndex)
    requires s.logicalIndex < |cat.logical| && qid == cat.logical[s.logicalIndex].id
    ensures AnswerLogical(cat, s, qid, oid).logicalAnswers == s.logicalAnswers + [(qid, oid)]
  {
    NextLogicalFresh(cat, s.logicalAnswers, s.logicalIndex);
    PutFresh(s.logicalAnswers, qid, oid);
  }

  lemma AnswerLogicalScore(cat: Catalog, s: QuizState, qid: string, oid: string)
    requires ScoreInv(cat, s)
    requires AnswerLogical(cat, s, qid, oid).logicalAnswers == s.logicalAnswers + [(qid, oid)]
    ensures ScoreInv(cat, AnswerLogical(cat, s, qid, oid))
  {
    var a' := s.logicalAnswers + [(qid, oid)];
    assert a'[..|a'| - 1] == s.logicalAnswers;
  }

  /** The flow never gets stuck: every reachable state offers a call. */
  lemma Progress(cat: Catalog, s: QuizState) returns (e: Event)
    requires WellFormed(cat) && FlowInv(cat, s)
    ensures Allowed(cat, s, e)
  {
    match s.phase
    case Welcome => e := Start;
    case Personality =>
      var q := cat.personality[s.personalityIndex];
      assert PersonalityOptionIds(q)[0] == q.options[0].id;
      e := AnswerPersonalityEvent(q.id, q.options[0].id);
    case Transition => e := Continue;
    case Logical =>
      var q := cat.logical[s.logicalIndex];
      assert LogicalOptionIds(q)[0] == q.options[0].id;
      e := AnswerLogicalEvent(q.id, q.options[0].id);
    case Result => e := Restart;
  }

  function Rank(p: Phase): nat
  {
    match p
    case Welcome => 0
    case Personality => 1
    case Transition => 2
    case Logical => 3
    case Result => 4
  }

  /** A call either keeps the phase or moves to the next one, except the
      restart, which goes back to the welcome screen. */
  lemma StepPhase(cat: Catalog, s: QuizState, e: Event)
    requires Allowed(cat, s, e)
    ensures e.Restart? ==> Step(cat, s, e) == Initial
    ensures !e.Restart? ==>
              Rank(Step(cat, s, e).phase) == Rank(s.phase)
              || Rank(Step(cat, s, e).phase) == Rank(s.phase) + 1
  {
    match e
    case Start =>
    case AnswerPersonalityEvent(qid, oid) =>
      PersonalityStepRank(cat, s, qid, oid);
    case Continue =>
    case AnswerLogicalEvent(qid, oid) =>
      LogicalStepRank(cat, s, qid, oid);
    case Restart =>
  }

  lemma PersonalityStepRank(cat: Catalog, s: QuizState, qid: string, oid: string)
    requires s.phase == Personality
    ensures var p := Step(cat, s, AnswerPersonalityEvent(qid, oid)).phase;
            Rank(p) == Rank(s.phase) || Rank(p) == Rank(s.phase) + 1
  {
    PersonalityPhase(cat, s, qid, oid);
  }

  lemma LogicalStepRank(cat: Catalog, s: QuizState, qid: string, oid: string)
    requires s.phase == Logical
    ensures var p := Step(cat, s, AnswerLogicalEvent(qid, oid)).phase;
            Rank(p) == Rank(s.phase) || Rank(p) == Rank(s.phase) + 1
  {
    LogicalPhase(cat, s, qid, oid);
  }

  lemma PersonalityPhase(cat: Catalog, s: QuizState, qid: string, oid: string)
    ensures var p := AnswerPersonality(cat, s, qid, oid).phase; p == s.phase || p == Transition
  {
    var r := AnswerPersonality(cat, s, qid, oid);
    if r.personalityIndex < |cat.personality| {
      assert r.phase == s.phase;
    }
  }

  lemma LogicalPhase(cat: Catalog, s: QuizState, qid: string, oid: string)
    ensures var p := AnswerLogical(cat, s, qid, oid).phase; p == s.phase || p == Result
  {
    var r := AnswerLogical(cat, s, qid, oid);
  }

  lemma PersonalityAnsweredPrefix(cat: Catalog, a: Answers, n: nat)
    requires PersonalityAnswered(cat, a, n) && n > 0
    ensures PersonalityAnswered(cat, a[..n - 1], n - 1)
  {
    var init := a[..n - 1];
    forall i | 0 <= i < n - 1
      ensures init[i].0 == cat.personality[i].id && init[i].1 in PersonalityOptionIds(cat.personality[i])
    {
      assert init[i] == a[i];
    }
  }

  /** An answer a screen submits for question `k` resolves to the tag of the
      option it names. */
  lemma SubmittedResolves(cat: Catalog, k: nat, qid: string, oid: string)
    requires WellFormed(cat) && k < |cat.personality|
    requires qid == cat.personality[k].id && oid in PersonalityOptionIds(cat.personality[k])
    ensures ResolveTag(cat.personality, qid, oid).Some?
    ensures forall j :: PersonalityChoice(cat.personality, k, j, qid, oid) ==>
              ResolveTag(cat.personality, qid, oid) == Some(cat.personality[k].options[j].careerType)
  {
    var q := cat.personality[k];
    var j :| 0 <= j < |q.options| && PersonalityOptionIds(q)[j] == oid;
    assert PersonalityChoice(cat.personality, k, j, qid, oid);
    ResolveTagChoice(cat, qid, oid);
  }

  /** Answers to the first `n` questions, each naming an option of its own
      question, vote in order for the tags of the chosen options. */
  lemma {:induction false} ChosenTags(cat: Catalog, a: Answers, n: nat)
    requires WellFormed(cat) && PersonalityAnswered(cat, a, n)
    ensures |ResolvedTags(cat.personality, a)| == n
    ensures forall i, j :: 0 <= i < n && PersonalityChoice(cat.personality, i, j, a[i].0, a[i].1) ==>
              ResolvedTags(cat.personality, a)[i] == cat.personality[i].options[j].careerType
  {
    if n > 0 {
      var init := a[..n - 1];
      PersonalityAnsweredPrefix(cat, a, n);
      ChosenTags(cat, init, n - 1);
      var last := a[n - 1];
      SubmittedResolves(cat, n - 1, last.0, last.1);
      var tags := ResolvedTags(cat.personality, a);
      assert tags == ResolvedTags(cat.personality, init) + [ResolveTag(cat.personality, last.0, last.1).value];
      forall i, j | 0 <= i < n && PersonalityChoice(cat.personality, i, j, a[i].0, a[i].1)
        ensures tags[i] == cat.personality[i].options[j].careerType
      {
        if i < n - 1 {
          assert a[i] == init[i];
        }
      }
    }
  }

  /** Once the personality part is over, the card shown is that of the tag
      chosen most often among the answers, one vote per question, a tie
      going to the tag chosen first. */
  lemma PredictionAfterPersonality(cat: Catalog, s: QuizState)
    requires WellFormed(cat) && FlowInv(cat, s)
    requires s.phase.Transition? || s.phase.Logical? || s.phase.Result?
    ensures s.careerPrediction.Some?
    ensures |ResolvedTags(cat.personality, s.personalityAnswers)| == |cat.personality|
    ensures Tally.IsPlurality(ResolvedTags(cat.personality, s.personalityAnswers), Scientist,
                              s.careerPrediction.value.careerType)
  {
    PredictionStored(cat, s);
    TagsPerQuestion(cat, s.personalityAnswers, s.personalityIndex);
    PredictIsPlurality(cat.personality, s.personalityAnswers);
  }

  /** After the personality part the stored card is the prediction from
      all the personality answers. */
  lemma PredictionStored(cat: Catalog, s: QuizState)
    requires PhaseInv(cat, s)
    requires s.phase.Transition? || s.phase.Logical? || s.phase.Result?
    ensures s.personalityIndex == |cat.personality|
    ensures s.careerPrediction == Some(Predict(cat.personality, s.personalityAnswers))
  {
  }

  /** One resolved vote per answered question. */
  lemma TagsPerQuestion(cat: Catalog, a: Answers, n: nat)
    requires WellFormed(cat) && PersonalityAnswered(cat, a, n)
    ensures |ResolvedTags(cat.personality, a)| == n
  {
    ChosenTags(cat, a, n);
  }

  /** The score is ten times the number of answers naming an option flagged
      correct, so a multiple of ten and at most ten per logical question. */
  lemma ScoreBound(cat: Catalog, s: QuizState)
    requires FlowInv(cat, s)
    ensures s.logicalScore == PointsPerCorrect * |CorrectAnswers(cat.logical, s.logicalAnswers)|
    ensures s.logicalScore % PointsPerCorrect == 0
    ensures s.logicalScore <= PointsPerCorrect * s.logicalIndex <= PointsPerCorrect * |cat.logical|
  {
    PointsBound(cat.logical, s.logicalAnswers);
    PointsCountCorrect(cat.logical, s.logicalAnswers);
  }

  /** An answer submitted for logical question `i` counts as correct exactly
      when the option it names is flagged correct. */
  lemma ChosenCorrect(cat: Catalog, a: Answers, n: nat)
    requires WellFormed(cat) && LogicalAnswered(cat, a, n)
    ensures forall i, j :: 0 <= i < n && LogicalChoice(cat.logical, i, j, a[i].0, a[i].1) ==>
              (i in CorrectAnswers(cat.logical, a) <==> cat.logical[i].options[j].isCorrect)
  {
    forall i, j | 0 <= i < n && LogicalChoice(cat.logical, i, j, a[i].0, a[i].1)
      ensures i in CorrectAnswers(cat.logical, a) <==> cat.logical[i].options[j].isCorrect
    {
      IsCorrectChoice(cat, a[i].0, a[i].1);
    }
  }

  /** The indices `0 .. k - 1`. */
  function Range(k: nat): (r: set<int>)
    ensures forall i :: i in r <==> 0 <= i < k
  {
    if k == 0 then {} else Range(k - 1) + {k - 1}
  }

  lemma {:induction false} RangeCard(k: nat)
    ensures |Range(k)| == k
  {
    if k > 0 {
      var r := Range(k - 1);
      RangeCard(k - 1);
      assert k - 1 !in r;
      assert Range(k) == r + {k - 1};
      assert |r + {k - 1}| == |r| + 1;
    }
  }

  /** Answering the first `k` logical questions with an option flagged
      correct and the others with one that is not scores ten per correct
      answer. */
  lemma FirstKCorrect(cat: Catalog, a: Answers, n: nat, k: nat)
    requires WellFormed(cat) && LogicalAnswered(cat, a, n) && k <= n
    requires forall i, j :: 0 <= i < n && LogicalChoice(cat.logical, i, j, a[i].0, a[i].1) ==>
               (cat.logical[i].options[j].isCorrect <==> i < k)
    ensures Points(cat.logical, a) == PointsPerCorrect * k
  {
    ChosenCorrect(cat, a, n);
    PointsCountCorrect(cat.logical, a);
    forall i | 0 <= i < n
      ensures i in CorrectAnswers(cat.logical, a) <==> i < k
    {
      var q := cat.logical[i];
      var j :| 0 <= j < |q.options| && LogicalOptionIds(q)[j] == a[i].1;
      assert LogicalChoice(cat.logical, i, j, a[i].0, a[i].1);
    }
    assert CorrectAnswers(cat.logical, a) == Range(k);
    RangeCard(k);
  }
}
