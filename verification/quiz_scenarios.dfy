/** Concrete runs on the app's catalog. */
module QuizScenarios {
  import opened Wrappers
  import opened Seqs
  import Tally
  import opened QuizData
  import opened Quiz
  import opened QuizFlow

  /** The plurality key of a six-vote list, given its counts. */
  lemma PluralityOfSix(ks: seq<CareerType>, w: CareerType)
    requires |ks| == 6 && w in ks
    requires forall j :: 0 <= j < 6 ==> Occ(ks, ks[j]) <= Occ(ks, w)
    requires forall j :: 0 <= j < 6 && ks[j] != w && Occ(ks, ks[j]) == Occ(ks, w) ==>
               FirstPos(ks, w) < FirstPos(ks, ks[j])
    ensures Tally.Winner(ks, Scientist) == w
  {
    Tally.WinnerCharacterized(ks, Scientist, w);
  }

  /** Occurrences in a six-vote list, vote by vote. */
  lemma OccSix<T>(a: T, b: T, c: T, d: T, e: T, f: T, x: T)
    ensures Occ([a, b, c, d, e, f], x)
            == (if a == x then 1 else 0) + (if b == x then 1 else 0) + (if c == x then 1 else 0)
               + (if d == x then 1 else 0) + (if e == x then 1 else 0) + (if f == x then 1 else 0)
  {
    OccCons(f, [], x);
    OccCons(e, [f], x);
    OccCons(d, [e, f], x);
    OccCons(c, [d, e, f], x);
    OccCons(b, [c, d, e, f], x);
    OccCons(a, [b, c, d, e, f], x);
  }

  lemma OccCons<T>(a: T, rest: seq<T>, x: T)
    ensures Occ([a] + rest, x) == (if a == x then 1 else 0) + Occ(rest, x)
  {
    assert ([a] + rest)[1..] == rest;
  }

  /** Three scientist votes beat two engineer votes and one doctor vote. */
  lemma ScientistMajority()
    ensures Tally.Winner([Scientist, Scientist, Engineer, Scientist, Engineer, Doctor], Scientist) == Scientist
  {
    var ks := [Scientist, Scientist, Engineer, Scientist, Engineer, Doctor];
    OccSix(Scientist, Scientist, Engineer, Scientist, Engineer, Doctor, Scientist);
    OccSix(Scientist, Scientist, Engineer, Scientist, Engineer, Doctor, Engineer);
    OccSix(Scientist, Scientist, Engineer, Scientist, Engineer, Doctor, Doctor);
    PluralityOfSix(ks, Scientist);
  }

  /** A 2-2-1-1 tally between engineer and artist goes to engineer, which
      both appears first and reaches two votes first. */
  lemma EngineerArtistTie()
    ensures Tally.Winner([Engineer, Artist, Engineer, Artist, Doctor, Leader], Scientist) == Engineer
  {
    var ks := [Engineer, Artist, Engineer, Artist, Doctor, Leader];
    OccSix(Engineer, Artist, Engineer, Artist, Doctor, Leader, Engineer);
    OccSix(Engineer, Artist, Engineer, Artist, Doctor, Leader, Artist);
    OccSix(Engineer, Artist, Engineer, Artist, Doctor, Leader, Doctor);
    OccSix(Engineer, Artist, Engineer, Artist, Doctor, Leader, Leader);
    assert FirstPos(ks, Engineer) == 0 && FirstPos(ks, Artist) == 1;
    PluralityOfSix(ks, Engineer);
  }

  /** Votes where the tie-break rules "appears first" and "reaches the
      maximum first" disagree. */
  const SplitTieVotes: seq<CareerType> := [Engineer, TechHero, TechHero, Engineer, Leader, Entrepreneur]

  /** The reduce keeps the tag that appears first: engineer wins the tie. */
  lemma TieGoesToFirstAppearance()
    ensures Tally.Winner(SplitTieVotes, Scientist) == Engineer
  {
    var ks := SplitTieVotes;
    OccSix(Engineer, TechHero, TechHero, Engineer, Leader, Entrepreneur, Engineer);
    OccSix(Engineer, TechHero, TechHero, Engineer, Leader, Entrepreneur, TechHero);
    OccSix(Engineer, TechHero, TechHero, Engineer, Leader, Entrepreneur, Leader);
    OccSix(Engineer, TechHero, TechHero, Engineer, Leader, Entrepreneur, Entrepreneur);
    assert FirstPos(ks, Engineer) == 0 && FirstPos(ks, TechHero) == 1;
    PluralityOfSix(ks, Engineer);
  }

  /** Yet tech hero had two votes after three answers, when engineer had one. */
  lemma TechHeroReachesTwoFirst()
    ensures Occ(SplitTieVotes[..3], TechHero) == 2 && Occ(SplitTieVotes[..3], Engineer) == 1
  {
    var prefix := [Engineer, TechHero, TechHero];
    assert SplitTieVotes[..3] == prefix;
    assert Occ(prefix, TechHero) == 2 && Occ(prefix, Engineer) == 1;
  }

  /** On the app's nine logical questions, five right answers followed by
      four wrong ones score fifty. */
  lemma FiveRightFourWrong(a: Answers)
    requires LogicalAnswered(AppCatalog, a, 9)
    requires forall i, j :: 0 <= i < 9 && LogicalChoice(LogicalQuestions, i, j, a[i].0, a[i].1) ==>
               (LogicalQuestions[i].options[j].isCorrect <==> i < 5)
    ensures Points(LogicalQuestions, a) == 50
  {
    AppCatalogWellFormed();
    FirstKCorrect(AppCatalog, a, 9, 5);
  }

  /** With the shipped nine logical questions no reachable state scores
      more than 90. */
  lemma MaxScoreIsNinety(s: QuizState)
    requires FlowInv(AppCatalog, s)
    ensures s.logicalScore <= 90
  {
    AppCatalogWellFormed();
    ScoreBound(AppCatalog, s);
  }
}
