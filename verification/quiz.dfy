/** The quiz engine: a five-phase state machine that records personality
    answers, predicts a career by plurality vote once the last personality
    question is answered, then scores the logical questions. The hook reads
    the module-level catalog; here the catalog is a parameter, and
    `QuizData.AppCatalog` is the one the app passes. Every operation is
    total, as in the hook; which calls the screens make is modelled in
    `QuizFlow`. */
module Quiz {
  import opened Wrappers
  import opened Seqs
  import opened Records
  import Tally
  import opened QuizData

  datatype Phase = Welcome | Personality | Transition | Logical | Result

  /** Answers in insertion order, keyed by question id, valued by option id. */
  type Answers = Entries<string, string>

  datatype QuizState = QuizState(
    phase: Phase,
    personalityIndex: nat,
    logicalIndex: nat,
    personalityAnswers: Answers,
    logicalAnswers: Answers,
    logicalScore: nat,
    careerPrediction: Option<CareerPrediction>)

  /** The state the hook starts in and `resetQuiz` returns to. */
  const Initial: QuizState := QuizState(Welcome, 0, 0, [], [], 0, None)

  // ------------------------------------------------------------ catalog lookups

  /** Question `i` of `qs` has id `qid` and its option `j` has id `oid`. */
  ghost predicate PersonalityChoice(qs: seq<PersonalityQuestion>, i: int, j: int, qid: string, oid: string)
  {
    0 <= i < |qs| && 0 <= j < |qs[i].options| && qs[i].id == qid && qs[i].options[j].id == oid
  }

  ghost predicate LogicalChoice(qs: seq<LogicalQuestion>, i: int, j: int, qid: string, oid: string)
  {
    0 <= i < |qs| && 0 <= j < |qs[i].options| && qs[i].id == qid && qs[i].options[j].id == oid
  }

  /** Some question with id `qid` has an option with id `oid` voting for `t`. */
  ghost predicate NamesOptionWithTag(qs: seq<PersonalityQuestion>, qid: string, oid: string, t: CareerType)
  {
    exists i, j :: PersonalityChoice(qs, i, j, qid, oid) && qs[i].options[j].careerType == t
  }

  /** The tag an answer votes for: find the question by id, then the option
      by id. Only an answer naming an option of the catalog votes. */
  function ResolveTag(qs: seq<PersonalityQuestion>, qid: string, oid: string): (r: Option<CareerType>)
    ensures r.Some? ==> NamesOptionWithTag(qs, qid, oid, r.value)
  {
    match Find(qs, (q: PersonalityQuestion) => q.id == qid)
    case None => None
    case Some(q) =>
      match Find(q.options, (o: PersonalityOption) => o.id == oid)
      case None => None
      case Some(o) => Some(o.careerType)
  }

  /** In a well-formed catalog an answer resolves exactly when it names an
      option of the catalog, and then to that option's tag. */
  lemma ResolveTagChoice(cat: Catalog, qid: string, oid: string)
    requires UniquePersonalityIds(cat.personality)
    ensures ResolveTag(cat.personality, qid, oid).Some? <==>
              exists i, j :: PersonalityChoice(cat.personality, i, j, qid, oid)
    ensures forall i, j :: PersonalityChoice(cat.personality, i, j, qid, oid) ==>
              ResolveTag(cat.personality, qid, oid) == Some(cat.personality[i].options[j].careerType)
  {
    forall i, j | PersonalityChoice(cat.personality, i, j, qid, oid)
      ensures ResolveTag(cat.personality, qid, oid) == Some(cat.personality[i].options[j].careerType)
    {
      PersonalityChoiceFinds(cat.personality, i, j, qid, oid);
    }
    if ResolveTag(cat.personality, qid, oid).Some? {
      var i, j := ResolvedChoice(cat.personality, qid, oid);
    }
  }

  /** The lookups of a named question and option find exactly those. */
  lemma PersonalityChoiceFinds(qs: seq<PersonalityQuestion>, i: int, j: int, qid: string, oid: string)
    requires UniquePersonalityIds(qs) && PersonalityChoice(qs, i, j, qid, oid)
    ensures Find(qs, (q: PersonalityQuestion) => q.id == qid) == Some(qs[i])
    ensures Find(qs[i].options, (o: PersonalityOption) => o.id == oid) == Some(qs[i].options[j])
  {
    var ids := PersonalityIds(qs);
    forall k | 0 <= k < |qs| && qs[k].id == qid
      ensures k == i
    {
      assert ids[k] == ids[i];
    }
    FindUnique(qs, (q: PersonalityQuestion) => q.id == qid, i);
    var oids := PersonalityOptionIds(qs[i]);
    forall k | 0 <= k < |qs[i].options| && qs[i].options[k].id == oid
      ensures k == j
    {
      assert oids[k] == oids[j];
    }
    FindUnique(qs[i].options, (o: PersonalityOption) => o.id == oid, j);
  }

  /** An answer that resolves names some option of some question. */
  lemma ResolvedChoice(qs: seq<PersonalityQuestion>, qid: string, oid: string) returns (i: int, j: int)
    requires ResolveTag(qs, qid, oid).Some?
    ensures PersonalityChoice(qs, i, j, qid, oid)
  {
    var q := Find(qs, (q: PersonalityQuestion) => q.id == qid).value;
    i :| 0 <= i < |qs| && qs[i] == q && q.id == qid;
    var o := Find(q.options, (o: PersonalityOption) => o.id == oid).value;
    j :| 0 <= j < |q.options| && q.options[j] == o && o.id == oid;
  }


  /** Some question with id `qid` has an option with id `oid` flagged correct. */
  ghost predicate NamesCorrectOption(qs: seq<LogicalQuestion>, qid: string, oid: string)
  {
    exists i, j :: LogicalChoice(qs, i, j, qid, oid) && qs[i].options[j].isCorrect
  }

  /** `selectedOption?.isCorrect ?? false`: only an answer naming an option
      flagged correct counts. */
  function IsCorrect(qs: seq<LogicalQuestion>, qid: string, oid: string): (r: bool)
    ensures r ==> NamesCorrectOption(qs, qid, oid)
  {
    match Find(qs, (q: LogicalQuestion) => q.id == qid)
    case None => false
    case Some(q) =>
      match Find(q.options, (o: LogicalOption) => o.id == oid)
      case None => false
      case Some(o) => o.isCorrect
  }

  /** In a well-formed catalog an answer is correct exactly when it names an
      option flagged correct; unknown questions and options score nothing. */
  lemma IsCorrectChoice(cat: Catalog, qid: string, oid: string)
    requires UniqueLogicalIds(cat.logical)
    ensures IsCorrect(cat.logical, qid, oid) <==>
              exists i, j :: LogicalChoice(cat.logical, i, j, qid, oid) && cat.logical[i].options[j].isCorrect
    ensures forall i, j :: LogicalChoice(cat.logical, i, j, qid, oid) ==>
              IsCorrect(cat.logical, qid, oid) == cat.logical[i].options[j].isCorrect
  {
    forall i, j | LogicalChoice(cat.logical, i, j, qid, oid)
      ensures IsCorrect(cat.logical, qid, oid) == cat.logical[i].options[j].isCorrect
    {
      LogicalChoiceFinds(cat.logical, i, j, qid, oid);
    }
    if IsCorrect(cat.logical, qid, oid) {
      var i, j := CorrectChoice(cat.logical, qid, oid);
    }
  }

  /** The lookups of a named question and option find exactly those. */
  lemma LogicalChoiceFinds(qs: seq<LogicalQuestion>, i: int, j: int, qid: string, oid: string)
    requires UniqueLogicalIds(qs) && LogicalChoice(qs, i, j, qid, oid)
    ensures Find(qs, (q: LogicalQuestion) => q.id == qid) == Some(qs[i])
    ensures Find(qs[i].options, (o: LogicalOption) => o.id == oid) == Some(qs[i].options[j])
  {
    var ids := LogicalIds(qs);
    forall k | 0 <= k < |qs| && qs[k].id == qid
      ensures k == i
    {
      assert ids[k] == ids[i];
    }
    FindUnique(qs, (q: LogicalQuestion) => q.id == qid, i);
    var oids := LogicalOptionIds(qs[i]);
    forall k | 0 <= k < |qs[i].options| && qs[i].options[k].id == oid
      ensures k == j
    {
      assert oids[k] == oids[j];
    }
    FindUnique(qs[i].options, (o: LogicalOption) => o.id == oid, j);
  }

  /** A correct answer names some option, flagged correct, of some question. */
  lemma CorrectChoice(qs: seq<LogicalQuestion>, qid: string, oid: string) returns (i: int, j: int)
    requires IsCorrect(qs, qid, oid)
    ensures LogicalChoice(qs, i, j, qid, oid) && qs[i].options[j].isCorrect
  {
    var q := Find(qs, (q: LogicalQuestion) => q.id == qid).value;
    i :| 0 <= i < |qs| && qs[i] == q && q.id == qid;
    var o := Find(q.options, (o: LogicalOption) => o.id == oid).value;
    j :| 0 <= j < |q.options| && q.options[j] == o && o.id == oid;
  }


  // ------------------------------------------------------------ prediction

  /** The tags the recorded answers vote for, in answer order; answers that
      name no catalog option are skipped. */
  function ResolvedTags(qs: seq<PersonalityQuestion>, answers: Answers): seq<CareerType>
  {
    if |answers| == 0 then []
    else
      var last := answers[|answers| - 1];
      ResolvedTags(qs, answers[..|answers| - 1])
      + match ResolveTag(qs, last.0, last.1) case None => [] case Some(t) => [t]
  }

  /** The card for the tag with the most votes; a tie goes to the tag that
      received a vote first, and no votes at all give the scientist card. */
  function Predict(qs: seq<PersonalityQuestion>, answers: Answers): (p: CareerPrediction)
    ensures |ResolvedTags(qs, answers)| == 0 ==> p.careerType == Scientist
    ensures |ResolvedTags(qs, answers)| > 0 ==> p.careerType in ResolvedTags(qs, answers)
  {
    CareerPredictionOf(Tally.Winner(ResolvedTags(qs, answers), Scientist))
  }

  lemma PredictIsPlurality(qs: seq<PersonalityQuestion>, answers: Answers)
    ensures Tally.IsPlurality(ResolvedTags(qs, answers), Scientist, Predict(qs, answers).careerType)
  {
    Tally.WinnerIsPlurality(ResolvedTags(qs, answers), Scientist);
  }

  /** Points earned by recorded logical answers, in answer order. */
  function Points(qs: seq<LogicalQuestion>, answers: Answers): nat
  {
    if |answers| == 0 then 0
    else
      var last := answers[|answers| - 1];
      Points(qs, answers[..|answers| - 1]) + if IsCorrect(qs, last.0, last.1) then PointsPerCorrect else 0
  }

  /** Each answer is worth zero or ten points. */
  lemma {:induction false} PointsBound(qs: seq<LogicalQuestion>, answers: Answers)
    ensures Points(qs, answers) % PointsPerCorrect == 0
    ensures Points(qs, answers) <= PointsPerCorrect * |answers|
  {
    if |answers| > 0 {
      PointsBound(qs, answers[..|answers| - 1]);
    }
  }

  /** Positions of the recorded answers that are correct. */
  ghost function CorrectAnswers(qs: seq<LogicalQuestion>, answers: Answers): set<int>
  {
    set i | 0 <= i < |answers| && IsCorrect(qs, answers[i].0, answers[i].1)
  }

  /** The points are ten per correct answer. */
  lemma {:induction false} PointsCountCorrect(qs: seq<LogicalQuestion>, answers: Answers)
    ensures Points(qs, answers) == PointsPerCorrect * |CorrectAnswers(qs, answers)|
  {
    if |answers| > 0 {
      var n := |answers|;
      var init := answers[..n - 1];
      PointsCountCorrect(qs, init);
      CorrectAnswersSnoc(qs, answers);
      if IsCorrect(qs, answers[n - 1].0, answers[n - 1].1) {
        CorrectAnswersBelow(qs, init, n - 1);
        AddFresh(CorrectAnswers(qs, init), n - 1);
      }
    }
  }

  lemma CorrectAnswersBelow(qs: seq<LogicalQuestion>, answers: Answers, k: int)
    requires k >= |answers|
    ensures k !in CorrectAnswers(qs, answers)
  {
  }

  lemma AddFresh(s: set<int>, x: int)
    requires x !in s
    ensures |s + {x}| == |s| + 1
  {
  }

  lemma CorrectAnswersSnoc(qs: seq<LogicalQuestion>, answers: Answers)
    requires |answers| > 0
    ensures var n := |answers|;
            CorrectAnswers(qs, answers) == CorrectAnswers(qs, answers[..n - 1])
              + if IsCorrect(qs, answers[n - 1].0, answers[n - 1].1) then {n - 1} else {}
  {
    var n := |answers|;
    var init := answers[..n - 1];
    var extra: set<int> := if IsCorrect(qs, answers[n - 1].0, answers[n - 1].1) then {n - 1} else {};
    forall i | 0 <= i < n - 1 ensures answers[i] == init[i] {
    }
    forall i ensures i in CorrectAnswers(qs, answers) <==> i in CorrectAnswers(qs, init) + extra {
      if 0 <= i < n - 1 {
        assert answers[i] == init[i];
      }
    }
  }

  // ------------------------------------------------------------ operations

  /** `startQuiz`. */
  function StartQuiz(s: QuizState): (r: QuizState)
    ensures r.phase == Personality && r.(phase := s.phase) == s
  {
    s.(phase := Personality)
  }

  /** `answerPersonality`: record the answer and advance; answering the last
      question moves to the transition screen with the predicted career. */
  function AnswerPersonality(cat: Catalog, s: QuizState, qid: string, oid: string): (r: QuizState)
    ensures r.personalityIndex == s.personalityIndex + 1
    ensures r.personalityAnswers == Records.Put(s.personalityAnswers, qid, oid)
    ensures Records.Get(r.personalityAnswers, qid) == Some(oid)
    ensures r.logicalIndex == s.logicalIndex && r.logicalAnswers == s.logicalAnswers
            && r.logicalScore == s.logicalScore
    ensures r.personalityIndex >= |cat.personality| ==>
              r.phase == Transition && r.careerPrediction == Some(Predict(cat.personality, r.personalityAnswers))
    ensures r.personalityIndex < |cat.personality| ==>
              r.phase == s.phase && r.careerPrediction == s.careerPrediction
  {
    var answers := Put(s.personalityAnswers, qid, oid);
    var index := s.personalityIndex + 1;
    if index >= |cat.personality| then
      s.(personalityAnswers := answers, personalityIndex := index, phase := Transition,
         careerPrediction := Some(Predict(cat.personality, answers)))
    else
      s.(personalityAnswers := answers, personalityIndex := index)
  }

  /** Answering the last personality question predicts the career with the
      most votes among all recorded answers. */
  lemma AnswerPersonalityPredicts(cat: Catalog, s: QuizState, qid: string, oid: string)
    requires s.personalityIndex + 1 >= |cat.personality|
    ensures var r := AnswerPersonality(cat, s, qid, oid);
            r.phase == Transition && r.careerPrediction.Some?
            && Tally.IsPlurality(ResolvedTags(cat.personality, r.personalityAnswers), Scientist,
                                 r.careerPrediction.value.careerType)
  {
    var r := AnswerPersonality(cat, s, qid, oid);
    PredictIsPlurality(cat.personality, r.personalityAnswers);
  }

  /** `startLogical`. */
  function StartLogical(s: QuizState): (r: QuizState)
    ensures r.phase == Logical && r.(phase := s.phase) == s
  {
    s.(phase := Logical)
  }

  /** `answerLogical`: record the answer, add ten points when it is correct,
      and advance; answering the last question moves to the result. */
  function AnswerLogical(cat: Catalog, s: QuizState, qid: string, oid: string): (r: QuizState)
    ensures r.logicalIndex == s.logicalIndex + 1
    ensures r.logicalAnswers == Records.Put(s.logicalAnswers, qid, oid)
    ensures Records.Get(r.logicalAnswers, qid) == Some(oid)
    ensures r.logicalScore == s.logicalScore + if IsCorrect(cat.logical, qid, oid) then PointsPerCorrect else 0
    ensures r.personalityIndex == s.personalityIndex && r.personalityAnswers == s.personalityAnswers
            && r.careerPrediction == s.careerPrediction
    ensures r.phase == if r.logicalIndex >= |cat.logical| then Result else s.phase
  {
    var answers := Put(s.logicalAnswers, qid, oid);
    var score := s.logicalScore + if IsCorrect(cat.logical, qid, oid) then PointsPerCorrect else 0;
    var index := s.logicalIndex + 1;
    if index >= |cat.logical| then
      s.(logicalAnswers := answers, logicalScore := score, logicalIndex := index, phase := Result)
    else
      s.(logicalAnswers := answers, logicalScore := score, logicalIndex := index)
  }

  /** `resetQuiz`: back to the initial state, whatever the current one. */
  function ResetQuiz(s: QuizState): (r: QuizState)
    ensures r.phase == Welcome && r.personalityIndex == 0 && r.logicalIndex == 0
    ensures r.personalityAnswers == [] && r.logicalAnswers == []
    ensures r.logicalScore == 0 && r.careerPrediction.None?
  {
    Initial
  }

  /** Resetting twice is resetting once. */
  lemma ResetQuizIdempotent(s: QuizState)
    ensures ResetQuiz(ResetQuiz(s)) == ResetQuiz(s)
  {
  }

  /** `personalityQuestions[personalityIndex]`, undefined past the end. */
  function CurrentPersonalityQuestion(cat: Catalog, s: QuizState): (q: Option<PersonalityQuestion>)
    ensures q.Some? <==> s.personalityIndex < |cat.personality|
    ensures q.Some? ==> q.value == cat.personality[s.personalityIndex]
  {
    if s.personalityIndex < |cat.personality| then Some(cat.personality[s.personalityIndex]) else None
  }

  /** `logicalQuestions[logicalIndex]`, undefined past the end. */
  function CurrentLogicalQuestion(cat: Catalog, s: QuizState): (q: Option<LogicalQuestion>)
    ensures q.Some? <==> s.logicalIndex < |cat.logical|
    ensures q.Some? ==> q.value == cat.logical[s.logicalIndex]
  {
    if s.logicalIndex < |cat.logical| then Some(cat.logical[s.logicalIndex]) else None
  }
}
